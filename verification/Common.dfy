/** What several modules share. */
module Common {

  datatype Option<+T> = None | Some(value: T)

  newtype byte = x: int | 0 <= x < 256

  function Min(x: nat, y: nat): nat { if x < y then x else y }
}
