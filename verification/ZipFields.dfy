/** Little-endian numbers as a ZIP file holds them, and what stands where in a file. */
module ZipFields {
  import opened Wrappers
  import opened ZipDirectory

  function Low(n: nat): byte {
    n % 256
  }

  function High(n: nat): byte {
    n / 256 % 256
  }

  function W16(n: nat): (b: seq<byte>)
    ensures |b| == 2
  {
    [Low(n), High(n)]
  }

  function W32(n: nat): (b: seq<byte>)
    ensures |b| == 4
  {
    W16(n % 0x1_0000) + W16(n / 0x1_0000)
  }

  function W64(n: nat): (b: seq<byte>)
    ensures |b| == 8
  {
    W32(n % 0x1_0000_0000) + W32(n / 0x1_0000_0000)
  }

  lemma {:induction false} Read16(b: seq<byte>, p: nat, n: nat)
    requires n <= U16MAX && p + 2 <= |b| && b[p..p + 2] == W16(n)
    ensures U16(b, p) == n
  {
    assert b[p] == b[p..p + 2][0] && b[p + 1] == b[p..p + 2][1];
  }

  lemma {:induction false} Read32(b: seq<byte>, p: nat, n: nat)
    requires n <= U32MAX && p + 4 <= |b| && b[p..p + 4] == W32(n)
    ensures U32(b, p) == n
  {
    assert b[p..p + 2] == b[p..p + 4][..2] && b[p + 2..p + 4] == b[p..p + 4][2..];
    Read16(b, p, n % 0x1_0000);
    Read16(b, p + 2, n / 0x1_0000);
  }

  lemma {:induction false} Read64(b: seq<byte>, p: nat, n: nat)
    requires n < 0x1_0000_0000_0000_0000 && p + 8 <= |b| && b[p..p + 8] == W64(n)
    ensures U64(b, p) == n
  {
    assert b[p..p + 4] == b[p..p + 8][..4] && b[p + 4..p + 8] == b[p..p + 8][4..];
    Read32(b, p, n % 0x1_0000_0000);
    Read32(b, p + 4, n / 0x1_0000_0000);
  }

  /** What stands at a place of a file. */
  predicate At(b: seq<byte>, p: nat, part: seq<byte>) {
    p + |part| <= |b| && b[p..p + |part|] == part
  }

  lemma {:induction false} AtWithin(b: seq<byte>, p: nat, part: seq<byte>, i: nat, inner: seq<byte>)
    requires At(b, p, part) && At(part, i, inner)
    ensures At(b, p + i, inner)
  {
    forall k | 0 <= k < |inner|
      ensures b[p + i + k] == inner[k]
    {
      assert b[p..p + |part|][i + k] == b[p + i + k] && part[i..i + |inner|][k] == part[i + k];
    }
  }

  lemma {:induction false} AtBoth(b: seq<byte>, p: nat, x: seq<byte>, y: seq<byte>)
    requires At(b, p, x + y)
    ensures At(b, p, x) && At(b, p + |x|, y)
  {
    assert (x + y)[0..|x|] == x && (x + y)[|x|..|x| + |y|] == y;
    AtWithin(b, p, x + y, 0, x);
    AtWithin(b, p, x + y, |x|, y);
  }

  lemma {:induction false} Joined(x: seq<byte>, y: seq<byte>)
    ensures At(x + y, 0, x) && At(x + y, |x|, y)
  {
  }

  lemma {:induction false} AtLeft(x: seq<byte>, y: seq<byte>, p: nat, part: seq<byte>)
    requires At(x, p, part)
    ensures At(x + y, p, part)
  {
    assert (x + y)[p..p + |part|] == x[p..p + |part|];
  }

  lemma {:induction false} AtRight(x: seq<byte>, y: seq<byte>, p: nat, part: seq<byte>)
    requires At(y, p, part)
    ensures At(x + y, |x| + p, part)
  {
    assert (x + y)[|x| + p..|x| + p + |part|] == y[p..p + |part|];
  }

  lemma {:induction false} AtSign(b: seq<byte>, p: nat, kind: byte, version: byte)
    requires At(b, p, [0x50, 0x4B, kind, version])
    ensures Signed(b, p, kind, version)
  {
    var h := b[p..p + 4];
    assert h[0] == b[p] && h[1] == b[p + 1] && h[2] == b[p + 2] && h[3] == b[p + 3];
  }

  lemma {:induction false} At16(b: seq<byte>, p: nat, part: seq<byte>, i: nat, n: nat)
    requires At(b, p, part) && At(part, i, W16(n)) && n <= U16MAX
    ensures p + i + 2 <= |b| && U16(b, p + i) == n
  {
    AtWithin(b, p, part, i, W16(n));
    Read16(b, p + i, n);
  }

  lemma {:induction false} At32(b: seq<byte>, p: nat, part: seq<byte>, i: nat, n: nat)
    requires At(b, p, part) && At(part, i, W32(n)) && n <= U32MAX
    ensures p + i + 4 <= |b| && U32(b, p + i) == n
  {
    AtWithin(b, p, part, i, W32(n));
    Read32(b, p + i, n);
  }

  lemma {:induction false} At64(b: seq<byte>, p: nat, part: seq<byte>, i: nat, n: nat)
    requires At(b, p, part) && At(part, i, W64(n)) && n < 0x1_0000_0000_0000_0000
    ensures p + i + 8 <= |b| && U64(b, p + i) == n
  {
    AtWithin(b, p, part, i, W64(n));
    Read64(b, p + i, n);
  }
}
