// src/internal/confidentialTransferArithmetic.ts: ciphertext arithmetic on the wire encoding.
module Arithmetic {
  import opened Wrappers
  import opened Bytes
  import opened Group
  import opened ElGamal

  datatype Fault = BadLength | BadPoint | BadIndex | MissingHandle | BadAmount | BadScalar

  function CiphertextBytes(c: Ciphertext): (b: seq<byte>)
    ensures |b| == 64
  {
    PointToBytes(c.commitment) + PointToBytes(c.handle)
  }

  function GroupedBytes(g: Grouped): seq<byte> {
    PointToBytes(g.commitment) + Concat(HandleBytes(g.handles))
  }

  function HandleBytes(handles: seq<Point>): (parts: seq<seq<byte>>)
    ensures |parts| == |handles|
    ensures forall i :: 0 <= i < |handles| ==> parts[i] == PointToBytes(handles[i])
  {
    seq(|handles|, i requires 0 <= i < |handles| => PointToBytes(handles[i]))
  }

  function ParseCiphertext(b: seq<byte>): Result<Ciphertext, Fault> {
    if |b| != 64 then Err(BadLength)
    else
      var commitment, handle := PointFromBytes(b[..32]), PointFromBytes(b[32..]);
      if commitment.None? || handle.None? then Err(BadPoint)
      else Ok(Ciphertext(commitment.value, handle.value))
  }

  // The bytes of handle `index` after the shared commitment.
  function ExtractedBytes(grouped: seq<byte>, index: int): Result<seq<byte>, Fault> {
    if index < 0 then Err(BadIndex)
    else
      var start := 32 + index * 32;
      if |grouped| < start + 32 then Err(MissingHandle)
      else Ok(grouped[..32] + grouped[start..start + 32])
  }

  function SubtractBytes(left: seq<byte>, right: seq<byte>): Result<seq<byte>, Fault> {
    var l :- ParseCiphertext(left);
    var r :- ParseCiphertext(right);
    Ok(CiphertextBytes(Subtract(l, r)))
  }

  // Points are multiplied by scalars below the group order only; the curve library refuses others.
  function CombineBytes(lo: seq<byte>, hi: seq<byte>, bitLength: nat): Result<seq<byte>, Fault> {
    var l :- ParseCiphertext(lo);
    var h :- ParseCiphertext(hi);
    var scale := Shift(1, bitLength);
    if scale >= Q then Err(BadScalar) else Ok(CiphertextBytes(Combine(l, h, scale)))
  }

  function SubtractLoHiBytes(left: seq<byte>, lo: seq<byte>, hi: seq<byte>, bitLength: nat): Result<seq<byte>, Fault> {
    var taken :- CombineBytes(lo, hi, bitLength);
    SubtractBytes(left, taken)
  }

  function SubtractAmountBytes(ciphertext: seq<byte>, amount: int): Result<seq<byte>, Fault> {
    if amount <= 0 then Err(BadAmount)
    else
      var c :- ParseCiphertext(ciphertext);
      if amount >= Q then Err(BadScalar) else Ok(CiphertextBytes(SubtractAmount(c, amount)))
  }

  // `value << bits` of a bigint.
  function Shift(value: nat, bits: nat): nat {
    if bits == 0 then value else 2 * Shift(value, bits - 1)
  }

  // ---- filling byte buffers ----

  method Set(buffer: array<byte>, bytes: seq<byte>, at: nat)
    requires at + |bytes| <= buffer.Length
    modifies buffer
    ensures buffer[..] == old(buffer[..at]) + bytes + old(buffer[at + |bytes|..])
  {
    forall k | 0 <= k < |bytes| {
      buffer[at + k] := bytes[k];
    }
  }

  method PointsToCiphertext(commitment: Point, handle: Point) returns (ciphertext: array<byte>)
    ensures fresh(ciphertext)
    ensures ParseCiphertext(ciphertext[..]) == Ok(Ciphertext(commitment, handle))
    ensures ciphertext[..] == CiphertextBytes(Ciphertext(commitment, handle))
  {
    ciphertext := new byte[64];
    Set(ciphertext, PointToBytes(commitment), 0);
    Set(ciphertext, PointToBytes(handle), 32);
    assert ciphertext[..] == CiphertextBytes(Ciphertext(commitment, handle));
    ParseBytes(Ciphertext(commitment, handle));
  }

  method ExtractCiphertext(grouped: seq<byte>, index: int) returns (r: Result<array<byte>, Fault>)
    ensures r.Err? <==> index < 0 || |grouped| < 64 + 32 * index
    ensures r.Err? ==> r.error == if index < 0 then BadIndex else MissingHandle
    ensures r.Ok? ==> fresh(r.value) && ExtractedBytes(grouped, index) == Ok(r.value[..])
  {
    if index < 0 {
      return Err(BadIndex);
    }
    var start := 32 + index * 32;
    if |grouped| < start + 32 {
      return Err(MissingHandle);
    }
    var ciphertext := new byte[64];
    Set(ciphertext, grouped[..32], 0);
    Set(ciphertext, grouped[start..start + 32], 32);
    assert ciphertext[..] == grouped[..32] + grouped[start..start + 32];
    return Ok(ciphertext);
  }

  // ---- the wire encoding is faithful ----

  lemma ParseBytes(c: Ciphertext)
    ensures ParseCiphertext(CiphertextBytes(c)) == Ok(c)
  {
    PointBytesRoundTrip(c.commitment);
    PointBytesRoundTrip(c.handle);
    assert CiphertextBytes(c)[..32] == PointToBytes(c.commitment);
    assert CiphertextBytes(c)[32..] == PointToBytes(c.handle);
  }

  lemma ParseCanonical(b: seq<byte>)
    requires ParseCiphertext(b).Ok?
    ensures CiphertextBytes(ParseCiphertext(b).value) == b
  {
    PointBytesCanonical(b[..32]);
    PointBytesCanonical(b[32..]);
  }

  // Extraction keeps the shared commitment and the handle of that recipient, and fails beyond the last one.
  lemma ExtractGrouped(g: Grouped, index: int)
    ensures var r := ExtractedBytes(GroupedBytes(g), index);
            if 0 <= index < |g.handles|
            then r == Ok(CiphertextBytes(Ciphertext(g.commitment, g.handles[index])))
            else r.Err?
  {
    var parts := HandleBytes(g.handles);
    ConcatLength(parts, 32);
    if 0 <= index < |g.handles| {
      ConcatSlice(parts, 32, index, []);
      assert Concat(parts) + [] == Concat(parts);
      var start := 32 + index * 32;
      assert GroupedBytes(g)[start..start + 32] == Concat(parts)[32 * index..32 * index + 32];
      assert GroupedBytes(g)[..32] == PointToBytes(g.commitment);
    }
  }

  // Every recipient of a grouped encryption extracts what an encryption to it alone would be.
  lemma ExtractEncrypted(H: Point, pubs: seq<Point>, amount: int, opening: int, index: nat)
    requires index < |pubs|
    ensures ExtractedBytes(GroupedBytes(GroupedEncrypt(H, pubs, amount, opening)), index)
         == Ok(CiphertextBytes(Encrypt(H, pubs[index], amount, opening)))
  {
    ExtractGrouped(GroupedEncrypt(H, pubs, amount, opening), index);
  }

  // On encodings of ciphertexts the functions compute the encodings of the results.
  lemma BytesCompute(left: Ciphertext, lo: Ciphertext, hi: Ciphertext, bitLength: nat, amount: int)
    requires Shift(1, bitLength) < Q && amount < Q
    ensures SubtractLoHiBytes(CiphertextBytes(left), CiphertextBytes(lo), CiphertextBytes(hi), bitLength)
         == Ok(CiphertextBytes(SubtractLoHi(left, lo, hi, Shift(1, bitLength))))
    ensures amount > 0 ==>
        SubtractAmountBytes(CiphertextBytes(left), amount) == Ok(CiphertextBytes(SubtractAmount(left, amount)))
    ensures amount <= 0 ==> SubtractAmountBytes(CiphertextBytes(left), amount) == Err(BadAmount)
  {
    ParseBytes(left);
    ParseBytes(lo);
    ParseBytes(hi);
    ParseBytes(Combine(lo, hi, Shift(1, bitLength)));
  }

  // The subtraction fails exactly when one of its three inputs encodes no ciphertext, or the scale is too large.
  lemma SubtractLoHiFails(left: seq<byte>, lo: seq<byte>, hi: seq<byte>, bitLength: nat)
    ensures SubtractLoHiBytes(left, lo, hi, bitLength).Err?
       <==> || ParseCiphertext(left).Err? || ParseCiphertext(lo).Err? || ParseCiphertext(hi).Err?
            || Shift(1, bitLength) >= Q
  {
    if ParseCiphertext(lo).Ok? && ParseCiphertext(hi).Ok? {
      ParseBytes(Combine(ParseCiphertext(lo).value, ParseCiphertext(hi).value, Shift(1, bitLength)));
    }
  }
}
