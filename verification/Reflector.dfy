/** The UDP reflector's in-place swap (examples/udpreflector/main.go): its own inverse, and it
    leaves both checksums of a packet as valid as they were. */
module Reflectors {
  import opened Common
  import opened Checksums

  /** Where the byte at `i` comes from when the ranges at `a` and `b` are exchanged. */
  function Partner(a: nat, b: nat, n: nat, i: int): int
    requires a + n <= b
  {
    if a <= i < a + n then b + (i - a) else if b <= i < b + n then a + (i - b) else i
  }

  /** Two byte ranges of length `n` exchanged. */
  function Swapped(s: seq<byte>, a: nat, b: nat, n: nat): (r: seq<byte>)
    requires a + n <= b && b + n <= |s|
    ensures |r| == |s|
  {
    s[..a] + s[b..b + n] + s[a + n..b] + s[a..a + n] + s[b + n..]
  }

  lemma SwappedAt(s: seq<byte>, a: nat, b: nat, n: nat, i: nat)
    requires a + n <= b && b + n <= |s| && i < |s|
    ensures 0 <= Partner(a, b, n, i) < |s| && Swapped(s, a, b, n)[i] == s[Partner(a, b, n, i)]
  {
  }

  method Swap(f: array<byte>, a: nat, b: nat, n: nat)
    requires a + n <= b && b + n <= f.Length
    modifies f
    ensures f[..] == Swapped(old(f[..]), a, b, n)
  {
    ghost var s := f[..];
    for i := 0 to n
      invariant forall k :: 0 <= k < f.Length ==> 0 <= Partner(a, b, i, k) < |s| && f[k] == s[Partner(a, b, i, k)]
    {
      f[a + i], f[b + i] := f[b + i], f[a + i];
    }
    forall i: nat | i < |s| ensures f[..][i] == Swapped(s, a, b, n)[i] { SwappedAt(s, a, b, n, i); }
  }

  /** Both MAC addresses, both IPv4 addresses and both ports exchanged. */
  function Reflected(s: seq<byte>): (r: seq<byte>)
    requires |s| >= 38
    ensures |r| == |s|
  {
    Swapped(Swapped(Swapped(s, 0, 6, 6), 26, 30, 4), 34, 36, 2)
  }

  method Reflect(f: array<byte>)
    requires f.Length >= 38
    modifies f
    ensures f[..] == Reflected(old(f[..]))
  {
    Swap(f, 0, 6, 6);
    Swap(f, 26, 30, 4);
    Swap(f, 34, 36, 2);
  }

  /** The three swaps touch different bytes; this is the frame they leave. */
  lemma ReflectedAt(s: seq<byte>, i: nat)
    requires |s| >= 38 && i < |s|
    ensures Origin(i) < |s| && Reflected(s)[i] == s[Origin(i)]
  {
    var t := Swapped(s, 0, 6, 6);
    var u := Swapped(t, 26, 30, 4);
    var k := if 34 <= i < 36 then i + 2 else if 36 <= i < 38 then i - 2 else i;
    var m := if 26 <= k < 30 then k + 4 else if 30 <= k < 34 then k - 4 else k;
    SwappedAt(u, 34, 36, 2, i);
    SwappedAt(t, 26, 30, 4, k);
    SwappedAt(s, 0, 6, 6, m);
    assert Reflected(s)[i] == u[k] == t[m];
  }

  lemma ReflectedRun(s: seq<byte>, x: nat, n: nat, y: nat)
    requires |s| >= 38 && x + n <= |s| && y + n <= |s| && forall i: nat :: x <= i < x + n ==> Origin(i) == i - x + y
    ensures Reflected(s)[x..x + n] == s[y..y + n]
  {
    hide Reflected;
    forall i: nat | x <= i < x + n ensures Reflected(s)[i] == s[i - x + y] {
      ReflectedAt(s, i);
      assert Origin(i) == i - x + y;
    }
    Run(Reflected(s), x, s, y, n);
  }

  lemma Involution(s: seq<byte>)
    requires |s| >= 38
    ensures Reflected(Reflected(s)) == s
  {
    hide Reflected;
    var r := Reflected(s);
    forall i: nat | i < |s| ensures Reflected(r)[i] == s[i] {
      ReflectedAt(r, i);
      ReflectedAt(s, Origin(i));
    }
    assert |Reflected(r)| == |s|;
  }

  /** Exchanging two neighbouring runs of words does not change a sum over both. */
  lemma AddressWords(h: seq<byte>, g: seq<byte>, j: nat)
    requires |h| == |g| && 2 * j + 8 <= |h|
    requires g[2 * j..2 * j + 4] == h[2 * j + 4..2 * j + 8] && g[2 * j + 4..2 * j + 8] == h[2 * j..2 * j + 4]
    ensures Words(g, j + 4) - Words(g, j) == Words(h, j + 4) - Words(h, j)
  {
    WordPair(g, 2 * j, h, 2 * j + 4);
    WordPair(g, 2 * j + 4, h, 2 * j);
    FourWords(g, j);
    FourWords(h, j);
  }

  lemma FourWords(h: seq<byte>, j: nat)
    requires 2 * j + 8 <= |h|
    ensures Words(h, j + 4) == Words(h, j) + WordAt(h, j) + WordAt(h, j + 1) + WordAt(h, j + 2) + WordAt(h, j + 3)
  {
    assert Words(h, j + 2) == Words(h, j) + WordAt(h, j) + WordAt(h, j + 1);
    assert Words(h, j + 4) == Words(h, j + 2) + WordAt(h, j + 2) + WordAt(h, j + 3);
  }

  lemma WordPair(g: seq<byte>, x: nat, h: seq<byte>, y: nat)
    requires x % 2 == 0 && y % 2 == 0 && x + 4 <= |g| && y + 4 <= |h| && g[x..x + 4] == h[y..y + 4]
    ensures WordAt(g, x / 2) == WordAt(h, y / 2) && WordAt(g, x / 2 + 1) == WordAt(h, y / 2 + 1)
  {
    var a, b := g[x..x + 4], h[y..y + 4];
    assert a[0] == g[x] && a[1] == g[x + 1] && a[2] == g[x + 2] && a[3] == g[x + 3];
    assert b[0] == h[y] && b[1] == h[y + 1] && b[2] == h[y + 2] && b[3] == h[y + 3];
  }

  lemma PortWords(h: seq<byte>, g: seq<byte>)
    requires |h| == |g| >= 4 && g[0..2] == h[2..4] && g[2..4] == h[0..2]
    ensures Words(g, 2) == Words(h, 2)
  {
    assert g[0] == g[0..2][0] && g[1] == g[0..2][1] && g[2] == g[2..4][0] && g[3] == g[2..4][1];
    assert h[0] == h[0..2][0] && h[1] == h[0..2][1] && h[2] == h[2..4][0] && h[3] == h[2..4][1];
    assert Words(g, 1) == WordAt(g, 0) && Words(h, 1) == WordAt(h, 0);
    assert Words(g, 2) == Words(g, 1) + WordAt(g, 1) && Words(h, 2) == Words(h, 1) + WordAt(h, 1);
  }

  /** The IPv4 header of a frame without options, and everything after it. */
  function Header(s: seq<byte>): seq<byte> requires |s| >= 42 { s[14..34] }
  function Udp(s: seq<byte>): seq<byte> requires |s| >= 42 { s[34..] }

  /** An odd last byte counts as the high half of a word. */
  function PaddedSum(h: seq<byte>): nat {
    WordSum(h) + (if |h| % 2 == 1 then h[|h| - 1] as nat * 256 else 0)
  }

  /** The sum a UDP checksum covers: source, destination, protocol, length, then the datagram. */
  function UdpSum(s: seq<byte>, protocol: nat): nat
    requires |s| >= 42
  {
    WordSum(s[26..34]) + protocol + |Udp(s)| + PaddedSum(Udp(s))
  }

  lemma SubSlice(s: seq<byte>, lo: nat, hi: nat, x: nat, y: nat)
    requires lo <= hi <= |s| && x <= y <= hi - lo
    ensures s[lo..hi][x..y] == s[lo + x..lo + y]
  {
    var a, b := s[lo..hi][x..y], s[lo + x..lo + y];
    assert forall i :: 0 <= i < |a| ==> a[i] == b[i];
    assert a == b;
  }

  lemma HeaderSum(s: seq<byte>)
    requires |s| >= 42
    ensures WordSum(Header(Reflected(s))) == WordSum(Header(s))
  {
    var r := Reflected(s);
    var h, g := Header(s), Header(r);
    ReflectedRun(s, 14, 12, 14);
    ReflectedRun(s, 26, 4, 30);
    ReflectedRun(s, 30, 4, 26);
    hide Reflected; hide Words;
    SubSlice(r, 14, 34, 0, 12);
    SubSlice(r, 14, 34, 12, 16);
    SubSlice(r, 14, 34, 16, 20);
    SubSlice(s, 14, 34, 0, 12);
    SubSlice(s, 14, 34, 12, 16);
    SubSlice(s, 14, 34, 16, 20);
    assert Words(h, 0) == Words(g, 0) by { NoWords(h); NoWords(g); }
    WordsKept(h, g, 0, 6);
    AddressWords(h, g, 6);
  }

  lemma AddressSum(s: seq<byte>)
    requires |s| >= 42
    ensures WordSum(Reflected(s)[26..34]) == WordSum(s[26..34])
  {
    var r := Reflected(s);
    var h, g := s[26..34], r[26..34];
    ReflectedRun(s, 26, 4, 30);
    ReflectedRun(s, 30, 4, 26);
    assert g[0..4] == r[26..30] && g[4..8] == r[30..34] && h[0..4] == s[26..30] && h[4..8] == s[30..34];
    AddressWords(h, g, 0);
  }

  lemma DatagramWords(s: seq<byte>)
    requires |s| >= 42
    ensures WordSum(Udp(Reflected(s))) == WordSum(Udp(s))
  {
    hide Words; hide Reflected;
    var r := Reflected(s);
    var h, g := Udp(s), Udp(r);
    var n := |h| / 2;
    ReflectedRun(s, 34, 2, 36);
    ReflectedRun(s, 36, 2, 34);
    ReflectedRun(s, 38, 2 * n - 4, 38);
    assert g[0..2] == r[34..36] && g[2..4] == r[36..38] && h[0..2] == s[34..36] && h[2..4] == s[36..38];
    assert g[4..2 * n] == r[38..34 + 2 * n] && h[4..2 * n] == s[38..34 + 2 * n];
    PortWords(h, g);
    WordsKept(h, g, 2, n);
  }

  lemma DatagramSum(s: seq<byte>)
    requires |s| >= 42
    ensures PaddedSum(Udp(Reflected(s))) == PaddedSum(Udp(s))
  {
    hide WordSum; hide Reflected;
    DatagramWords(s);
    ReflectedAt(s, |s| - 1);
  }

  /** Neither checksum needs recomputing: the sums they complement are unchanged, so a
      header that checked out still does. */
  lemma ChecksumsSurvive(s: seq<byte>, protocol: nat)
    requires |s| >= 42
    ensures ChecksOut(Header(Reflected(s))) <==> ChecksOut(Header(s))
    ensures UdpSum(Reflected(s), protocol) == UdpSum(s, protocol)
  {
    hide Reflected; hide Words; hide OnesSum; hide Canon; hide PaddedSum;
    HeaderSum(s);
    AddressSum(s);
    DatagramSum(s);
    SumThenFold(Header(s), 10);
    SumThenFold(Header(Reflected(s)), 10);
  }
}
