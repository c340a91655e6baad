// The prime-order group of ristretto255 (section 4 of RFC 9496), written additively. Every point is
// k * G for exactly one k below the order, so a point is represented by that k.
module Group {
  import opened Wrappers
  import opened Bytes

  // 2^252 + 27742317777372353535851937790883648493
  const Q := 7237005577332262213973186563042994240857116359379907606001950938285454250989

  type Point = p: int | 0 <= p < Q

  const G: Point := 1

  function Add(a: Point, b: Point): Point {
    (a + b) % Q
  }

  function Sub(a: Point, b: Point): Point {
    (a - b) % Q
  }

  function Mul(k: int, a: Point): Point {
    (k * a) % Q
  }

  predicate Cong(a: int, b: int) {
    (a - b) % Q == 0
  }

  lemma CongMod(a: int)
    ensures Cong(a % Q, a)
  {
  }

  lemma CongRefl(a: int)
    ensures Cong(a, a)
  {
  }

  lemma CongSym(a: int, b: int)
    requires Cong(a, b)
    ensures Cong(b, a)
  {
  }

  lemma CongTrans(a: int, b: int, c: int)
    requires Cong(a, b) && Cong(b, c)
    ensures Cong(a, c)
  {
  }

  lemma CongAdd(a: int, b: int, c: int, d: int)
    requires Cong(a, b) && Cong(c, d)
    ensures Cong(a + c, b + d) && Cong(a - c, b - d)
  {
  }

  lemma CongMul(k: int, a: int, b: int)
    requires Cong(a, b)
    ensures Cong(k * a, k * b)
  {
    var t := (a - b) / Q;
    assert a - b == Q * t;
    assert k * a - k * b == k * (a - b) == k * (Q * t) == Q * (k * t);
    assert (Q * (k * t)) % Q == 0;
  }

  // Points congruent to the same number are the same point.
  lemma CongUnique(a: Point, b: Point, x: int)
    requires Cong(a, x) && Cong(b, x)
    ensures a == b
  {
  }

  lemma CongResidue(a: Point, x: int)
    requires Cong(a, x)
    ensures a == x % Q
  {
  }

  // The operations are those of the integers, up to multiples of the order.
  lemma OpsCong(k: int, a: Point, b: Point)
    ensures Cong(Add(a, b), a + b)
    ensures Cong(Sub(a, b), a - b)
    ensures Cong(Mul(k, a), k * a)
  {
    CongMod(a + b);
    CongMod(a - b);
    CongMod(k * a);
  }

  // The 32-byte encoding. Only its round trip matters here, so it is the number itself, little
  // endian; a string that encodes no point is refused, as by the real decoder.
  function PointToBytes(p: Point): (b: seq<byte>)
    ensures |b| == 32
  {
    ToLE(p, 32)
  }

  function PointFromBytes(b: seq<byte>): (p: Option<Point>)
    ensures p.Some? ==> |b| == 32
  {
    if |b| != 32 then None
    else
      var n := FromLE(b);
      if n < Q then Some(n) else None
  }

  lemma PointsFit()
    ensures Q < Pow256(32)
  {
    assert Pow256(8) == 0x1_0000_0000_0000_0000;
    assert Pow256(16) == 256 * 256 * 256 * 256 * 256 * 256 * 256 * 256 * Pow256(8);
    assert Pow256(24) == 256 * 256 * 256 * 256 * 256 * 256 * 256 * 256 * Pow256(16);
    assert Pow256(32) == 256 * 256 * 256 * 256 * 256 * 256 * 256 * 256 * Pow256(24);
  }

  lemma PointBytesRoundTrip(p: Point)
    ensures PointFromBytes(PointToBytes(p)) == Some(p)
  {
    PointsFit();
    FromToLE(p, 32);
  }

  lemma PointBytesCanonical(b: seq<byte>)
    requires PointFromBytes(b).Some?
    ensures PointToBytes(PointFromBytes(b).value) == b
  {
    ToFromLE(b);
  }
}
