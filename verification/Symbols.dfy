/** Label names. Every label a block defines is its entry symbol, possibly
    followed by an underscore and more, so the text before the first underscore
    tells which block owns it. */
module Symbols {
  import opened Ebpf

  /** The text before the first underscore. */
  function Stem(s: string): (t: string)
    ensures |t| <= |s|
  {
    if s == "" || s[0] == '_' then "" else [s[0]] + Stem(s[1..])
  }

  predicate Suffix(s: string) { s == "" || s[0] == '_' }

  lemma {:induction false} StemOfLabel(entry: string, s: string)
    requires Stem(entry) == entry && Suffix(s)
    ensures Stem(entry + s) == entry
  {
    if entry == "" {
      assert entry + s == s;
    } else {
      assert (entry + s)[1..] == entry[1..] + s;
      assert [entry[0]] + Stem(entry[1..]) == entry;
      assert Stem(entry[1..]) == entry[1..] by {
        assert ([entry[0]] + Stem(entry[1..]))[1..] == Stem(entry[1..]);
      }
      StemOfLabel(entry[1..], s);
    }
  }

  /** Every symbol of the block belongs to `entry`. */
  predicate Owned(b: seq<Insn>, entry: string) {
    forall i :: 0 <= i < |b| ==> b[i].symbol == "" || Stem(b[i].symbol) == entry
  }

  /** The three names a block is built with: its own entry symbol and two targets
      that belong to other blocks or tails. */
  predicate Names(entry: string, next: string, redirect: string) {
    && entry != "" && Stem(entry) == entry
    && next != "" && Stem(next) != entry
    && redirect != "" && Stem(redirect) != entry
  }
}
