// Bytes and little-endian numbers.
module Bytes {

  type byte = x: int | 0 <= x < 256

  function Pow256(k: nat): (p: nat)
    ensures p > 0
  {
    if k == 0 then 1 else 256 * Pow256(k - 1)
  }

  function FromLE(b: seq<byte>): (n: nat)
    ensures n < Pow256(|b|)
  {
    if b == [] then 0 else b[0] + 256 * FromLE(b[1..])
  }

  function ToLE(n: nat, k: nat): (b: seq<byte>)
    ensures |b| == k
  {
    if k == 0 then [] else [n % 256] + ToLE(n / 256, k - 1)
  }

  lemma {:induction false} FromToLE(n: nat, k: nat)
    requires n < Pow256(k)
    ensures FromLE(ToLE(n, k)) == n
  {
    if k > 0 {
      FromToLE(n / 256, k - 1);
      assert ToLE(n, k)[1..] == ToLE(n / 256, k - 1);
    }
  }

  lemma {:induction false} ToFromLE(b: seq<byte>)
    ensures ToLE(FromLE(b), |b|) == b
  {
    if b != [] {
      ToFromLE(b[1..]);
      var n := FromLE(b);
      assert n / 256 == FromLE(b[1..]) && n % 256 == b[0];
    }
  }

  // Concatenation of a list of byte strings.
  function Concat(parts: seq<seq<byte>>): seq<byte> {
    if parts == [] then [] else parts[0] + Concat(parts[1..])
  }

  lemma {:induction false} ConcatLength(parts: seq<seq<byte>>, size: nat)
    requires forall k :: 0 <= k < |parts| ==> |parts[k]| == size
    ensures |Concat(parts)| == size * |parts|
  {
    if parts != [] {
      ConcatLength(parts[1..], size);
      assert size * |parts| == size + size * (|parts| - 1);
    }
  }

  // Part `i` of equally long parts sits at `size * i`, whatever follows the concatenation.
  lemma {:induction false} ConcatSlice(parts: seq<seq<byte>>, size: nat, i: nat, rest: seq<byte>)
    requires forall k :: 0 <= k < |parts| ==> |parts[k]| == size
    requires i < |parts|
    ensures 0 <= size * i <= size * i + size <= |Concat(parts) + rest|
    ensures (Concat(parts) + rest)[size * i..size * i + size] == parts[i]
  {
    ConcatLength(parts, size);
    ConcatLength(parts[1..], size);
    assert size * |parts| == size + size * (|parts| - 1);
    var whole, tail := Concat(parts) + rest, Concat(parts[1..]) + rest;
    assert whole == parts[0] + tail;
    if i > 0 {
      ConcatSlice(parts[1..], size, i - 1, rest);
      var at := size * (i - 1);
      assert size * i == size + at;
      assert whole[size + at..size + at + size] == tail[at..at + size];
    } else {
      assert size * i == 0;
      assert whole[..size] == parts[0];
    }
  }

  lemma SliceSlice(s: seq<byte>, a: nat, b: nat, c: nat, d: nat)
    requires a <= b <= |s| && c <= d <= b - a
    ensures s[a..b][c..d] == s[a + c..a + d]
  {
    var t, u := s[a..b][c..d], s[a + c..a + d];
    assert |t| == |u|;
    forall k | 0 <= k < |t|
      ensures t[k] == u[k]
    {
      assert t[k] == s[a..b][c + k] == s[a + (c + k)];
    }
  }
}
