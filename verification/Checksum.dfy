/** The Internet checksum as the DNS example computes it (examples/dns/main.go), against
    one's-complement addition as RFC 1071 sections 1 and 2 define it. */
module Checksums {
  import opened Common

  const WORD := 0x1_0000
  const ONES := 0xffff

  /** Word `k` of a byte string, big-endian. */
  function WordAt(h: seq<byte>, k: nat): (w: nat)
    requires 2 * k + 1 < |h|
    ensures w <= ONES
  {
    h[2 * k] as nat * 256 + h[2 * k + 1] as nat
  }

  /** Plain sum of the first `k` words. */
  function Words(h: seq<byte>, k: nat): nat
    requires 2 * k <= |h|
  {
    if k == 0 then 0 else Words(h, k - 1) + WordAt(h, k - 1)
  }

  function WordSum(h: seq<byte>): nat { Words(h, |h| / 2) }

  /** One's-complement addition: the carry goes back in at the bottom. */
  function OnesAdd(a: nat, b: nat): nat {
    if a + b > ONES then a + b - ONES else a + b
  }

  function OnesSum(h: seq<byte>, k: nat): nat
    requires 2 * k <= |h|
  {
    if k == 0 then 0 else OnesAdd(OnesSum(h, k - 1), WordAt(h, k - 1))
  }

  /** A header checks out when its words, checksum included, sum to all ones. */
  predicate ChecksOut(h: seq<byte>) { OnesSum(h, |h| / 2) == ONES }

  /** The one's-complement value of a plain sum. */
  function Canon(s: nat): (r: nat)
    ensures r <= ONES && (r == 0 <==> s == 0)
  {
    if s == 0 then 0 else (s - 1) % ONES + 1
  }

  lemma CanonStep(s: nat, t: nat, q: nat)
    requires 0 < t && s == t + ONES * q
    ensures Canon(s) == Canon(t)
  {
  }

  lemma CanonSmall(s: nat)
    requires s <= ONES
    ensures Canon(s) == s
  {
  }

  lemma CanonAdd(s: nat, w: nat)
    requires w <= ONES
    ensures Canon(s + w) == OnesAdd(Canon(s), w)
  {
    if s == 0 {
      CanonSmall(w);
    } else {
      var q := (s - 1) / ONES;
      assert s == Canon(s) + ONES * q;
      CanonStep(s + w, Canon(s) + w, q);
      if Canon(s) + w > ONES {
        CanonStep(Canon(s) + w, Canon(s) + w - ONES, 1);
        CanonSmall(Canon(s) + w - ONES);
      } else {
        CanonSmall(Canon(s) + w);
      }
    }
  }

  /** Summing first and folding once is one's-complement summing. */
  lemma {:induction false} SumThenFold(h: seq<byte>, k: nat)
    requires 2 * k <= |h|
    ensures OnesSum(h, k) == Canon(Words(h, k))
  {
    if k > 0 {
      SumThenFold(h, k - 1);
      CanonAdd(Words(h, k - 1), WordAt(h, k - 1));
    }
  }

  lemma {:induction false} WordsBound(h: seq<byte>, k: nat)
    requires 2 * k <= |h|
    ensures Words(h, k) <= ONES * k
  {
    if k > 0 { WordsBound(h, k - 1); }
  }

  lemma WordSumStep(h: seq<byte>, k: nat)
    requires 2 * k + 1 < |h|
    ensures Words(h, k + 1) == Words(h, k) + WordAt(h, k)
  {
  }

  lemma NoWords(h: seq<byte>)
    ensures Words(h, 0) == 0
  {
  }

  /** Folding the carries back in: the loop ends with the one's-complement value. */
  method Fold(sum: nat) returns (r: nat)
    ensures r == Canon(sum)
  {
    r := sum;
    while r / WORD != 0
      invariant Canon(r) == Canon(sum)
      decreases r
    {
      var s := r;
      r := s % WORD + s / WORD;
      assert s == WORD * (s / WORD) + s % WORD == r + ONES * (s / WORD);
      CanonStep(s, r, s / WORD);
    }
    CanonSmall(r);
  }

  /** ipChecksum: the complement of the one's-complement sum, for every header whose plain
      sum fits the 32-bit accumulator. */
  method IpChecksum(hdr: seq<byte>) returns (c: nat)
    ensures c <= ONES
    ensures WordSum(hdr) < 0x1_0000_0000 ==> c + OnesSum(hdr, |hdr| / 2) == ONES
  {
    hide Words; hide OnesSum; hide Canon;
    NoWords(hdr);
    var sum := 0;
    var i := 0;
    while i + 1 < |hdr|
      invariant i % 2 == 0 && i <= |hdr| && sum == Words(hdr, i / 2) % 0x1_0000_0000
    {
      WordSumStep(hdr, i / 2);
      sum := (sum + (hdr[i] as nat * 256 + hdr[i + 1] as nat)) % 0x1_0000_0000;
      i := i + 2;
    }
    assert i / 2 == |hdr| / 2;
    var folded := Fold(sum);
    SumThenFold(hdr, |hdr| / 2);
    c := ONES - folded;
  }

  // -------- Replacing bytes in a header --------

  lemma {:induction false} WordsKept(h: seq<byte>, g: seq<byte>, j: nat, k: nat)
    requires |h| == |g| && j <= k && 2 * k <= |h| && h[2 * j..2 * k] == g[2 * j..2 * k]
    ensures Words(g, k) - Words(g, j) == Words(h, k) - Words(h, j)
    decreases k
  {
    if j < k {
      assert h[2 * j..2 * k][2 * (k - 1) - 2 * j] == h[2 * (k - 1)] == g[2 * (k - 1)] by {
        assert g[2 * j..2 * k][2 * (k - 1) - 2 * j] == g[2 * (k - 1)];
      }
      assert h[2 * k - 1] == g[2 * k - 1] by {
        assert h[2 * j..2 * k][2 * k - 1 - 2 * j] == h[2 * k - 1] && g[2 * j..2 * k][2 * k - 1 - 2 * j] == g[2 * k - 1];
      }
      assert h[2 * j..2 * (k - 1)] == h[2 * j..2 * k][..2 * (k - 1) - 2 * j];
      assert g[2 * j..2 * (k - 1)] == g[2 * j..2 * k][..2 * (k - 1) - 2 * j];
      WordsKept(h, g, j, k - 1);
    }
  }

  lemma CanonCompletes(s: nat, c: nat)
    requires c + Canon(s) == ONES
    ensures Canon(s + c) == ONES
  {
    if s > 0 {
      var q := (s - 1) / ONES;
      assert s == Canon(s) + ONES * q;
      CanonStep(s + c, ONES, q);
    }
    CanonSmall(ONES);
  }

  /** Putting the computed checksum into a header whose checksum field was zero makes it check out. */
  lemma ChecksumCompletes(h: seq<byte>, g: seq<byte>, k: nat, c: nat)
    requires |h| == |g| && 2 * k + 1 < |h| && c + OnesSum(h, |h| / 2) == ONES
    requires h[..2 * k] == g[..2 * k] && h[2 * k + 2..] == g[2 * k + 2..]
    requires WordAt(h, k) == 0 && WordAt(g, k) == c
    ensures ChecksOut(g)
  {
    hide Words; hide OnesSum; hide WordAt; hide Canon;
    var n := |h| / 2;
    assert Words(h, 0) == Words(g, 0) == 0 by { NoWords(h); NoWords(g); }
    assert h[0..2 * k] == g[0..2 * k];
    WordsKept(h, g, 0, k);
    assert h[2 * (k + 1)..2 * n] == h[2 * k + 2..][..2 * n - 2 * k - 2];
    assert g[2 * (k + 1)..2 * n] == g[2 * k + 2..][..2 * n - 2 * k - 2];
    WordsKept(h, g, k + 1, n);
    WordSumStep(h, k);
    WordSumStep(g, k);
    assert Words(g, n) == Words(h, n) + c;
    SumThenFold(h, n);
    SumThenFold(g, n);
    CanonCompletes(Words(h, n), c);
  }

  // -------- buildReply --------

  const PAYLOAD := 42

  method Copy(out: array<byte>, off: nat, src: seq<byte>)
    requires off + |src| <= out.Length
    modifies out
    ensures forall k :: 0 <= k < out.Length ==> out[k] == if off <= k < off + |src| then src[k - off] else old(out[k])
  {
    for i := 0 to |src|
      invariant forall k :: 0 <= k < out.Length ==> out[k] == if off <= k < off + i then src[k - off] else old(out[k])
    {
      out[off + i] := src[i];
    }
  }

  /** uint16(v), big-endian. */
  function Be16(v: nat): (r: seq<byte>)
    ensures |r| == 2
  {
    [(v % WORD / 256) as byte, (v % 256) as byte]
  }

  lemma Be16Word(v: nat, h: seq<byte>, k: nat)
    requires 2 * k + 1 < |h| && h[2 * k..2 * k + 2] == Be16(v)
    ensures WordAt(h, k) == v % WORD
  {
    assert h[2 * k] == h[2 * k..2 * k + 2][0] && h[2 * k + 1] == h[2 * k..2 * k + 2][1];
    assert v % 256 == v % WORD % 256;
  }

  /** The request header turned round: addresses and ports exchanged, lengths set for the
      answer, both checksums still zero. */
  predicate Reversed(hdr: seq<byte>, answer: seq<byte>, r: seq<byte>)
    requires |hdr| == PAYLOAD && |r| == PAYLOAD
  {
    && r[0..6] == hdr[6..12] && r[6..12] == hdr[0..6] && r[12..16] == hdr[12..16]
    && r[16..18] == Be16(28 + |answer|) && r[18..24] == hdr[18..24]
    && r[26..30] == hdr[30..34] && r[30..34] == hdr[26..30]
    && r[34..36] == hdr[36..38] && r[36..38] == hdr[34..36]
    && r[38..40] == Be16(8 + |answer|) && r[40..42] == [0, 0]
  }

  /** Where byte `i` of the reply's header comes from in the request's. */
  function Origin(i: nat): (j: nat)
    ensures i < PAYLOAD ==> j < PAYLOAD
  {
    if i < 6 then i + 6 else if i < 12 then i - 6
    else if 26 <= i < 30 then i + 4 else if 30 <= i < 34 then i - 4
    else if 34 <= i < 36 then i + 2 else if 36 <= i < 38 then i - 2 else i
  }

  method WriteLink(hdr: seq<byte>, out: array<byte>)
    requires |hdr| == PAYLOAD <= out.Length
    modifies out
    ensures forall i: nat :: i < out.Length ==>
      out[i] == if i < 12 then hdr[Origin(i)] else if i < PAYLOAD then hdr[i] else old(out[i])
  {
    Copy(out, 0, hdr);
    Copy(out, 0, hdr[6..12]);
    Copy(out, 6, hdr[0..6]);
  }

  /** The request header with the addresses of every layer exchanged. */
  method WriteTurned(hdr: seq<byte>, out: array<byte>)
    requires |hdr| == PAYLOAD <= out.Length
    modifies out
    ensures forall i: nat :: i < out.Length ==> out[i] == if i < PAYLOAD then hdr[Origin(i)] else old(out[i])
  {
    WriteLink(hdr, out);
    Copy(out, 26, hdr[30..34]);
    Copy(out, 30, hdr[26..30]);
    Copy(out, 34, hdr[36..38]);
    Copy(out, 36, hdr[34..36]);
  }

  method WriteLengths(answer: seq<byte>, out: array<byte>)
    requires PAYLOAD + |answer| <= out.Length
    modifies out
    ensures out[16] == Be16(28 + |answer|)[0] && out[17] == Be16(28 + |answer|)[1]
    ensures out[38] == Be16(8 + |answer|)[0] && out[39] == Be16(8 + |answer|)[1]
    ensures out[24] == out[25] == out[40] == out[41] == 0
    ensures forall i: nat :: PAYLOAD <= i < PAYLOAD + |answer| ==> out[i] == answer[i - PAYLOAD]
    ensures forall i: nat :: i < out.Length && !(16 <= i < 18 || 24 <= i < 26 || 38 <= i < PAYLOAD + |answer|) ==>
      out[i] == old(out[i])
  {
    Copy(out, 16, Be16(28 + |answer|));
    Copy(out, 38, Be16(8 + |answer|));
    Copy(out, 40, [0, 0]);
    Copy(out, PAYLOAD, answer);
    Copy(out, 24, [0, 0]);
  }

  /** Writes everything but the IPv4 checksum. */
  method WriteReply(hdr: seq<byte>, answer: seq<byte>, out: array<byte>)
    requires |hdr| == PAYLOAD && PAYLOAD + |answer| <= out.Length
    modifies out
    ensures Reversed(hdr, answer, out[..PAYLOAD]) && out[24..26] == [0, 0]
    ensures out[PAYLOAD..PAYLOAD + |answer|] == answer
    ensures out[PAYLOAD + |answer|..] == old(out[PAYLOAD + |answer|..])
  {
    hide Be16; hide Reversed; hide Origin;
    WriteTurned(hdr, out);
    ghost var turned := out[..];
    WriteLengths(answer, out);
    ReversedAt(hdr, answer, turned, out[..PAYLOAD]);
  }

  lemma ReversedAt(hdr: seq<byte>, answer: seq<byte>, turned: seq<byte>, r: seq<byte>)
    requires |hdr| == PAYLOAD == |r| && |turned| >= PAYLOAD
    requires forall i: nat :: i < PAYLOAD ==> turned[i] == hdr[Origin(i)]
    requires forall i: nat :: i < PAYLOAD && !(16 <= i < 18 || 24 <= i < 26 || 38 <= i) ==> r[i] == turned[i]
    requires r[16] == Be16(28 + |answer|)[0] && r[17] == Be16(28 + |answer|)[1]
    requires r[38] == Be16(8 + |answer|)[0] && r[39] == Be16(8 + |answer|)[1] && r[40] == r[41] == 0
    ensures Reversed(hdr, answer, r)
  {
    hide Be16;
    forall i: nat | i < 38 && !(16 <= i < 18 || 24 <= i < 26) ensures r[i] == hdr[Origin(i)] {
      assert r[i] == turned[i];
    }
    Run(r, 0, hdr, 6, 6);
    Run(r, 6, hdr, 0, 6);
    Run(r, 12, hdr, 12, 4);
    Run(r, 18, hdr, 18, 6);
    Run(r, 26, hdr, 30, 4);
    Run(r, 30, hdr, 26, 4);
    Run(r, 34, hdr, 36, 2);
    Run(r, 36, hdr, 34, 2);
    assert r[16..18] == Be16(28 + |answer|) && r[38..40] == Be16(8 + |answer|);
  }

  /** Two runs of bytes agree when they agree byte by byte. */
  lemma Run(g: seq<byte>, x: nat, h: seq<byte>, y: nat, n: nat)
    requires x + n <= |g| && y + n <= |h| && forall i: nat :: x <= i < x + n ==> g[i] == h[i - x + y]
    ensures g[x..x + n] == h[y..y + n]
  {
  }

  /** The reply goes back where the request came from, and its header checks out. */
  method BuildReply(hdr: seq<byte>, answer: seq<byte>, out: array<byte>) returns (total: nat)
    requires |hdr| == PAYLOAD && PAYLOAD + |answer| <= out.Length
    modifies out
    ensures total == PAYLOAD + |answer|
    ensures Reversed(hdr, answer, out[..PAYLOAD]) && ChecksOut(out[14..34])
    ensures out[PAYLOAD..total] == answer && out[total..] == old(out[total..])
  {
    hide Reversed; hide Be16; hide WordAt; hide OnesSum; hide Words;
    total := PAYLOAD + |answer|;
    WriteReply(hdr, answer, out);
    ghost var before, h := out[..], out[14..34];
    var c := IpChecksum(out[14..34]);
    WordsBound(h, 10);
    Copy(out, 24, Be16(c));
    Completed(before, out[..], c);
    SameReply(hdr, answer, before[..PAYLOAD], out[..PAYLOAD]);
  }

  lemma Completed(u: seq<byte>, v: seq<byte>, c: nat)
    requires |u| == |v| >= PAYLOAD && u[24..26] == [0, 0] && c <= ONES && c + OnesSum(u[14..34], 10) == ONES
    requires forall k :: 0 <= k < |u| ==> v[k] == if 24 <= k < 26 then Be16(c)[k - 24] else u[k]
    ensures ChecksOut(v[14..34])
  {
    var h, g := u[14..34], v[14..34];
    assert h[10] == u[24..26][0] && h[11] == u[24..26][1];
    assert g[10..12] == Be16(c) && h[10..12] == Be16(0);
    Be16Word(c, g, 5);
    Be16Word(0, h, 5);
    ChecksumCompletes(h, g, 5, c);
  }

  lemma SameReply(hdr: seq<byte>, answer: seq<byte>, r: seq<byte>, r': seq<byte>)
    requires |hdr| == |r| == |r'| == PAYLOAD && Reversed(hdr, answer, r)
    requires forall i :: 0 <= i < PAYLOAD && i != 24 && i != 25 ==> r'[i] == r[i]
    ensures Reversed(hdr, answer, r')
  {
    assert r'[0..6] == r[0..6] && r'[6..12] == r[6..12] && r'[12..16] == r[12..16] && r'[16..18] == r[16..18];
    assert r'[18..24] == r[18..24] && r'[26..30] == r[26..30] && r'[30..34] == r[30..34];
    assert r'[34..36] == r[34..36] && r'[36..38] == r[36..38] && r'[38..40] == r[38..40] && r'[40..42] == r[40..42];
  }

  /** The 16-bit length fields are the real lengths exactly for answers up to 65507 bytes. */
  lemma LengthsExact(hdr: seq<byte>, answer: seq<byte>, r: seq<byte>)
    requires |hdr| == PAYLOAD && |r| == PAYLOAD && Reversed(hdr, answer, r)
    ensures WordAt(r, 8) == 28 + |answer| && WordAt(r, 19) == 8 + |answer| <==> |answer| <= 65507
  {
    Be16Word(28 + |answer|, r, 8);
    Be16Word(8 + |answer|, r, 19);
  }
}
