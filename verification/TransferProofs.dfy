// src/internal/confidentialTransferProof.ts: the values and the statements of a transfer's and a
// withdraw's zero-knowledge proofs. A statement carries the witness the prover is given; proving
// succeeds when it holds.
module TransferProofs {
  import opened Wrappers
  import opened Bytes
  import opened Group
  import opened ElGamal
  import opened Arithmetic

  const LO_BITS := 16
  const HI_BITS := 32
  const BALANCE_BITS := 64
  const PADDING_BITS := 16
  const LO_SCALE := 0x1_0000
  const MAX_TRANSFER := 0x1_0000_0000_0000 - 1
  const U64 := 0x1_0000_0000_0000_0000

  type u64 = x: nat | x < U64

  datatype Error =
    | InvalidInput
    | NotApproved
    | RejectsCredits
    | PendingLimit
    | InsufficientFunds
    | AmountTooLarge
    | KeysMismatch
    | DecryptionFailed
    | MalformedCiphertext

  // The balance copy only the owner reads: an ideal authenticated cipher.
  datatype AeCiphertext = Malformed | Sealed(key: nat, value: u64)

  // Encryption takes 64 bits of the number.
  function Seal(key: nat, value: nat): AeCiphertext {
    Sealed(key, value % U64)
  }

  function Open(key: nat, c: AeCiphertext): Result<u64, Error> {
    if c.Malformed? || c.key != key then Err(DecryptionFailed) else Ok(c.value)
  }

  // What the proofs need of a token account.
  datatype Account = Account(available: seq<byte>, decryptable: AeCiphertext)

  datatype TransferInput = TransferInput(
    source: Account, destinationPub: Point, auditorPub: Option<Point>, amount: int, keys: Keypair, aesKey: nat)

  // The random scalars drawn for the commitments.
  datatype Openings = Openings(lo: int, hi: int, balance: int, padding: int)

  datatype Equality = Equality(keys: Keypair, ciphertext: Ciphertext, commitment: Point, opening: int, amount: int)

  datatype Validity = Validity(
    pubs: seq<Point>, lo: Grouped, hi: Grouped, amountLo: int, amountHi: int, openingLo: int, openingHi: int)

  datatype Range = Range(commitments: seq<Point>, amounts: seq<int>, bits: seq<nat>, openings: seq<int>)

  datatype TransferProof = TransferProof(
    equality: Equality, validity: Validity, range: Range,
    newDecryptable: AeCiphertext, auditorLo: seq<byte>, auditorHi: seq<byte>)

  datatype WithdrawProof = WithdrawProof(equality: Equality, range: Range, newDecryptable: AeCiphertext)

  // ---- the statements ----

  predicate EqualityHolds(H: Point, e: Equality) {
    && ValidKeys(H, e.keys)
    && 0 <= e.amount < U64
    && Dec(e.keys.secret, e.ciphertext) == e.amount
    && e.commitment == Commit(H, e.amount, e.opening)
  }

  predicate ValidityHolds(H: Point, v: Validity) {
    && v.lo == GroupedEncrypt(H, v.pubs, v.amountLo, v.openingLo)
    && v.hi == GroupedEncrypt(H, v.pubs, v.amountHi, v.openingHi)
  }

  // Every amount fits its bit length, and the bit lengths add up to what the proof system proves.
  predicate RangeHolds(H: Point, r: Range, total: nat) {
    && |r.commitments| == |r.amounts| == |r.bits| == |r.openings|
    && (forall k :: 0 <= k < |r.bits| ==>
          && r.commitments[k] == Commit(H, r.amounts[k], r.openings[k])
          && 0 <= r.amounts[k] < Shift(1, r.bits[k])
          && r.amounts[k] < U64)
    && Sum(r.bits) == total
  }

  function Sum(xs: seq<nat>): nat {
    if xs == [] then 0 else xs[0] + Sum(xs[1..])
  }

  // ---- the values ----

  // `[amount & mask, amount >> bits]` of a bigint: the mask of an infinite two's complement number is
  // the non-negative remainder, the shift rounds down.
  function SplitAmount(amount: int, scale: nat): (int, int)
    requires scale > 0
  {
    (amount % scale, amount / scale)
  }

  function NewAvailableBalance(current: nat, amount: int): Result<nat, Error> {
    if amount < 0 then Err(InvalidInput)
    else if current < amount then Err(InsufficientFunds)
    else Ok(current - amount)
  }

  function ParseOr(b: Result<seq<byte>, Fault>): Result<Ciphertext, Error> {
    if b.Err? || ParseCiphertext(b.value).Err? then Err(MalformedCiphertext) else Ok(ParseCiphertext(b.value).value)
  }

  // Extraction at the index of a recipient does not throw.
  function Extracted(g: Grouped, index: nat): (b: seq<byte>)
    requires index < |g.handles|
    ensures b == CiphertextBytes(Ciphertext(g.commitment, g.handles[index]))
  {
    ExtractGrouped(g, index);
    ExtractedBytes(GroupedBytes(g), index).value
  }

  function Pubs(input: TransferInput): seq<Point> {
    [input.keys.pub, input.destinationPub, if input.auditorPub.Some? then input.auditorPub.value else 0]
  }

  // getConfidentialTransferProofFlow
  function TransferFlow(H: Point, input: TransferInput, o: Openings): Result<TransferProof, Error> {
    if input.amount < 0 then Err(InvalidInput)
    else if input.amount > MAX_TRANSFER then Err(AmountTooLarge)
    else
      var (amountLo, amountHi) := SplitAmount(input.amount, LO_SCALE);
      var pubs := Pubs(input);
      var groupedLo := GroupedEncrypt(H, pubs, amountLo, o.lo);
      var groupedHi := GroupedEncrypt(H, pubs, amountHi, o.hi);
      var sourceLo, sourceHi := Extracted(groupedLo, 0), Extracted(groupedHi, 0);
      var auditorLo, auditorHi := Extracted(groupedLo, 2), Extracted(groupedHi, 2);
      var balance :- Open(input.aesKey, input.source.decryptable);
      var newBalance :- NewAvailableBalance(balance, input.amount);
      var commitment := Commit(H, newBalance, o.balance);
      var ciphertext :- ParseOr(SubtractLoHiBytes(input.source.available, sourceLo, sourceHi, LO_BITS));
      Ok(TransferProof(
        Equality(input.keys, ciphertext, commitment, o.balance, newBalance),
        Validity(pubs, groupedLo, groupedHi, amountLo, amountHi, o.lo, o.hi),
        Range([commitment, groupedLo.commitment, groupedHi.commitment, Commit(H, 0, o.padding)],
              [newBalance, amountLo, amountHi, 0],
              [BALANCE_BITS, LO_BITS, HI_BITS, PADDING_BITS],
              [o.balance, o.lo, o.hi, o.padding]),
        Seal(input.aesKey, newBalance), auditorLo, auditorHi))
  }

  // getConfidentialWithdrawProofFlow
  function WithdrawFlow(H: Point, account: Account, amount: int, keys: Keypair, aesKey: nat, opening: int)
    : Result<WithdrawProof, Error>
  {
    if amount <= 0 then Err(InvalidInput)
    else
      var balance :- Open(aesKey, account.decryptable);
      var newBalance :- NewAvailableBalance(balance, amount);
      var commitment := Commit(H, newBalance, opening);
      var ciphertext :- ParseOr(SubtractAmountBytes(account.available, amount));
      Ok(WithdrawProof(
        Equality(keys, ciphertext, commitment, opening, newBalance),
        Range([commitment], [newBalance], [BALANCE_BITS], [opening]),
        Seal(aesKey, newBalance)))
  }

  // ---- what they mean ----

  lemma Shifts()
    ensures Shift(1, LO_BITS) == LO_SCALE
    ensures Shift(1, HI_BITS) == DECRYPT_LIMIT
    ensures Shift(1, BALANCE_BITS) == U64
  {
    assert Shift(1, 8) == 0x100;
    ShiftAdds(8, 8);
    ShiftAdds(16, 16);
    ShiftAdds(32, 32);
  }

  lemma {:induction false} ShiftAdds(a: nat, b: nat)
    ensures Shift(1, a + b) == Shift(1, a) * Shift(1, b)
  {
    if b > 0 {
      ShiftAdds(a, b - 1);
    }
  }

  // The halves recombine for every amount; they fit 16 and 32 bits exactly for the accepted ones.
  lemma SplitRecombines(amount: int)
    ensures var (lo, hi) := SplitAmount(amount, LO_SCALE);
            && lo + LO_SCALE * hi == amount
            && 0 <= lo < LO_SCALE
            && (0 <= hi < DECRYPT_LIMIT <==> 0 <= amount <= MAX_TRANSFER)
  {
  }

  // Encrypting the halves to one key and taking them from a ciphertext takes the amount from it.
  lemma TakingHalves(H: Point, keys: Keypair, left: Ciphertext, amount: int, openingLo: int, openingHi: int)
    requires ValidKeys(H, keys) && 0 <= amount <= MAX_TRANSFER
    ensures Dec(keys.secret, SubtractLoHi(left,
                  Encrypt(H, keys.pub, SplitAmount(amount, LO_SCALE).0, openingLo),
                  Encrypt(H, keys.pub, SplitAmount(amount, LO_SCALE).1, openingHi), LO_SCALE))
         == (Dec(keys.secret, left) - amount) % Q
  {
    hide Dec, Encrypt, SubtractLoHi, ValidKeys;
    var (lo, hi) := SplitAmount(amount, LO_SCALE);
    var cLo, cHi := Encrypt(H, keys.pub, lo, openingLo), Encrypt(H, keys.pub, hi, openingHi);
    DecEncrypt(H, keys, lo, openingLo);
    DecEncrypt(H, keys, hi, openingHi);
    DecSubtractLoHi(keys.secret, left, cLo, cHi, LO_SCALE);
    assert Dec(keys.secret, cLo) + LO_SCALE * Dec(keys.secret, cHi) == amount;
  }

  // Subtracting the encrypted halves agrees with subtracting the plain amount.
  lemma SplitAgrees(H: Point, keys: Keypair, left: Ciphertext, amount: int, openingLo: int, openingHi: int)
    requires ValidKeys(H, keys) && 0 < amount <= MAX_TRANSFER
    ensures var (lo, hi) := SplitAmount(amount, LO_SCALE);
            var byHalves := SubtractLoHiBytes(CiphertextBytes(left),
                                              CiphertextBytes(Encrypt(H, keys.pub, lo, openingLo)),
                                              CiphertextBytes(Encrypt(H, keys.pub, hi, openingHi)), LO_BITS);
            var plain := SubtractAmountBytes(CiphertextBytes(left), amount);
            && ParseOr(byHalves).Ok? && ParseOr(plain).Ok?
            && Dec(keys.secret, ParseOr(byHalves).value) == Dec(keys.secret, ParseOr(plain).value)
            && (amount <= Dec(keys.secret, left) ==>
                  Dec(keys.secret, ParseOr(plain).value) == Dec(keys.secret, left) - amount)
  {
    hide Dec, Encrypt, SubtractLoHi, SubtractAmount, ValidKeys, ParseCiphertext, CiphertextBytes;
    Shifts();
    var (lo, hi) := SplitAmount(amount, LO_SCALE);
    var cLo, cHi := Encrypt(H, keys.pub, lo, openingLo), Encrypt(H, keys.pub, hi, openingHi);
    BytesCompute(left, cLo, cHi, LO_BITS, amount);
    ParseBytes(SubtractLoHi(left, cLo, cHi, LO_SCALE));
    ParseBytes(SubtractAmount(left, amount));
    TakingHalves(H, keys, left, amount, openingLo, openingHi);
    DecSubtractAmount(keys.secret, left, amount);
  }

  // A transfer flow is built exactly for the accepted amounts the sealed balance covers. Its
  // validity and range statements always hold, and its equality statement holds exactly when the
  // two copies of the available balance agree.
  lemma TransferStatements(H: Point, input: TransferInput, o: Openings, available: Ciphertext, balance: u64)
    requires ValidKeys(H, input.keys)
    requires ParseCiphertext(input.source.available) == Ok(available)
    requires input.source.decryptable == Sealed(input.aesKey, balance)
    ensures var r := TransferFlow(H, input, o);
            && (r.Ok? <==> 0 <= input.amount <= MAX_TRANSFER && input.amount <= balance)
            && (r.Err? ==> r.error == if input.amount < 0 then InvalidInput
                                      else if input.amount > MAX_TRANSFER then AmountTooLarge else InsufficientFunds)
            && (r.Ok? ==>
                  && ValidityHolds(H, r.value.validity)
                  && RangeHolds(H, r.value.range, 128)
                  && (EqualityHolds(H, r.value.equality) <==> Dec(input.keys.secret, available) == balance)
                  && r.value.newDecryptable == Sealed(input.aesKey, balance - input.amount))
  {
    hide Dec, ValidKeys, ParseCiphertext, SubtractLoHiBytes, Commit, TransferFlow, RangeHolds, GroupedEncrypt;
    if 0 <= input.amount <= MAX_TRANSFER && input.amount <= balance {
      TransferCiphertext(H, input, o, available);
      TransferParts(H, input, o);
      SplitRecombines(input.amount);
      var r := TransferFlow(H, input, o).value;
      TransferRange(H, r.range, [64, 16, 32, 16]);
      EqualityMeans(H, r.equality, Dec(input.keys.secret, available), input.amount, balance);
    } else {
      TransferRefused(H, input, o);
    }
  }

  lemma TransferRefused(H: Point, input: TransferInput, o: Openings)
    requires input.source.decryptable.Sealed? && input.source.decryptable.key == input.aesKey
    requires !(0 <= input.amount <= MAX_TRANSFER && input.amount <= input.source.decryptable.value)
    ensures TransferFlow(H, input, o) == Err(if input.amount < 0 then InvalidInput
                                             else if input.amount > MAX_TRANSFER then AmountTooLarge
                                             else InsufficientFunds)
  {
    hide GroupedEncrypt, Extracted, Commit, ParseOr;
  }

  // The fields of a transfer flow, apart from its ciphertext.
  lemma TransferParts(H: Point, input: TransferInput, o: Openings)
    requires TransferFlow(H, input, o).Ok?
    requires input.source.decryptable.Sealed? && input.source.decryptable.key == input.aesKey
    ensures var r := TransferFlow(H, input, o).value;
            var (lo, hi) := SplitAmount(input.amount, LO_SCALE);
            var newBalance := input.source.decryptable.value - input.amount;
            && 0 <= newBalance && r.newDecryptable == Sealed(input.aesKey, newBalance)
            && ValidityHolds(H, r.validity)
            && r.equality.(ciphertext := ZERO)
                 == Equality(input.keys, ZERO, Commit(H, newBalance, o.balance), o.balance, newBalance)
            && r.range == Range([Commit(H, newBalance, o.balance), Commit(H, lo, o.lo), Commit(H, hi, o.hi),
                                 Commit(H, 0, o.padding)],
                                [newBalance, lo, hi, 0], [64, 16, 32, 16], [o.balance, o.lo, o.hi, o.padding])
  {
    hide Extracted, Commit, ParseOr, GroupedEncrypt, SplitAmount;
    var (lo, hi) := SplitAmount(input.amount, LO_SCALE);
    GroupedCommits(H, Pubs(input), lo, o.lo);
    GroupedCommits(H, Pubs(input), hi, o.hi);
  }

  lemma GroupedCommits(H: Point, pubs: seq<Point>, amount: int, opening: int)
    ensures GroupedEncrypt(H, pubs, amount, opening).commitment == Commit(H, amount, opening)
  {
    hide Commit;
  }

  // A range statement over four commitments to these amounts holds when each fits its bits.
  lemma TransferRange(H: Point, r: Range, bits: seq<nat>)
    requires bits == [64, 16, 32, 16] == r.bits
    requires |r.commitments| == |r.amounts| == |r.openings| == 4
    requires forall k :: 0 <= k < 4 ==> r.commitments[k] == Commit(H, r.amounts[k], r.openings[k])
    requires 0 <= r.amounts[0] < U64 && 0 <= r.amounts[1] < LO_SCALE && 0 <= r.amounts[2] < DECRYPT_LIMIT
        && r.amounts[3] == 0
    ensures RangeHolds(H, r, 128)
  {
    hide Commit, Shift, Sum;
    Shifts();
    BitsTotal();
    assert Shift(1, PADDING_BITS) == LO_SCALE;
  }

  lemma EqualityMeans(H: Point, e: Equality, held: Point, amount: nat, balance: u64)
    requires ValidKeys(H, e.keys) && e.amount == balance - amount && 0 <= e.amount
    requires Dec(e.keys.secret, e.ciphertext) == (held - amount) % Q && e.commitment == Commit(H, e.amount, e.opening)
    ensures EqualityHolds(H, e) <==> held == balance
  {
    hide Dec, ValidKeys, Commit;
  }

  lemma BitsTotal()
    ensures Sum([64, 16, 32, 16]) == 128
  {
    assert [64, 16, 32, 16][1..] == [16, 32, 16];
    assert [16, 32, 16][1..] == [32, 16];
    assert [32, 16][1..] == [16];
  }

  // The new ciphertext is the old one with both encrypted halves taken out.
  lemma TransferCiphertext(H: Point, input: TransferInput, o: Openings, available: Ciphertext)
    requires ValidKeys(H, input.keys)
    requires ParseCiphertext(input.source.available) == Ok(available)
    requires input.source.decryptable.Sealed? && input.source.decryptable.key == input.aesKey
    requires 0 <= input.amount <= MAX_TRANSFER && input.amount <= input.source.decryptable.value
    ensures var r := TransferFlow(H, input, o);
            var (lo, hi) := SplitAmount(input.amount, LO_SCALE);
            && r.Ok?
            && r.value.equality.ciphertext
                 == SubtractLoHi(available, Encrypt(H, input.keys.pub, lo, o.lo), Encrypt(H, input.keys.pub, hi, o.hi),
                                 LO_SCALE)
            && Dec(input.keys.secret, r.value.equality.ciphertext)
                 == (Dec(input.keys.secret, available) - input.amount) % Q
  {
    hide Dec, ValidKeys, ParseCiphertext, CiphertextBytes, GroupedBytes, ExtractedBytes, SubtractLoHiBytes, Commit,
        SubtractLoHi, Mul;
    Shifts();
    var (lo, hi) := SplitAmount(input.amount, LO_SCALE);
    var cLo, cHi := Encrypt(H, input.keys.pub, lo, o.lo), Encrypt(H, input.keys.pub, hi, o.hi);
    assert Pubs(input)[0] == input.keys.pub;
    ParseCanonical(input.source.available);
    BytesCompute(available, cLo, cHi, LO_BITS, 0);
    ParseBytes(SubtractLoHi(available, cLo, cHi, LO_SCALE));
    TakingHalves(H, input.keys, available, input.amount, o.lo, o.hi);
  }

  // A withdraw flow, likewise: one equality and one range statement.
  lemma WithdrawStatements(H: Point, account: Account, amount: int, keys: Keypair, aesKey: nat, opening: int,
                           available: Ciphertext, balance: u64)
    requires ValidKeys(H, keys)
    requires ParseCiphertext(account.available) == Ok(available)
    requires account.decryptable == Sealed(aesKey, balance)
    ensures var r := WithdrawFlow(H, account, amount, keys, aesKey, opening);
            && (r.Ok? <==> 0 < amount <= balance)
            && (r.Err? ==> r.error == if amount <= 0 then InvalidInput else InsufficientFunds)
            && (r.Ok? ==>
                  && RangeHolds(H, r.value.range, 64)
                  && (EqualityHolds(H, r.value.equality) <==> Dec(keys.secret, available) == balance)
                  && r.value.equality.ciphertext == SubtractAmount(available, amount)
                  && r.value.newDecryptable == Sealed(aesKey, balance - amount))
  {
    hide Dec, ValidKeys, ParseCiphertext, CiphertextBytes, SubtractAmountBytes, SubtractAmount, Commit, Shift,
        EqualityHolds;
    if 0 < amount <= balance {
      ParseCanonical(account.available);
      Shifts();
      BytesCompute(available, available, available, LO_BITS, amount);
      ParseBytes(SubtractAmount(available, amount));
      DecSubtractAmount(keys.secret, available, amount);
      Shifts();
      assert Sum([64]) == 64;
      EqualityMeans(H, WithdrawFlow(H, account, amount, keys, aesKey, opening).value.equality,
                    Dec(keys.secret, available), amount, balance);
    }
  }

  // A recipient of a grouped ciphertext extracts its own handle with the shared commitment, and
  // decrypts it when the amount is below the decryption limit.
  lemma RecipientReads(H: Point, party: Keypair, pubs: seq<Point>, index: nat, amount: nat, opening: int)
    requires index < |pubs| && party.pub == pubs[index] && ValidKeys(H, party)
    requires amount < DECRYPT_LIMIT
    ensures var g := GroupedEncrypt(H, pubs, amount, opening);
            var c := ParseOr(ExtractedBytes(GroupedBytes(g), index));
            && c.Ok? && c.value.commitment == g.commitment
            && Decrypt(party.secret, c.value) == Some(amount)
  {
    hide Dec, ValidKeys, ParseCiphertext, CiphertextBytes, GroupedBytes, ExtractedBytes, Mul, Commit;
    ExtractEncrypted(H, pubs, amount, opening, index);
    ParseBytes(Encrypt(H, party.pub, amount, opening));
    DecEncrypt(H, party, amount, opening);
  }

  // `lo + (hi << 16)` of the two ciphertexts at one index, both halves decrypted with one key.
  function Recombined(secret: int, lo: seq<byte>, hi: seq<byte>, index: nat): Option<nat> {
    var l, h := ParseOr(ExtractedBytes(lo, index)), ParseOr(ExtractedBytes(hi, index));
    if l.Err? || h.Err? || Decrypt(secret, l.value).None? || Decrypt(secret, h.value).None? then None
    else Some(Decrypt(secret, l.value).value + Shift(Decrypt(secret, h.value).value, LO_BITS))
  }

  // Source, destination and auditor each read the transferred amount from their own handles of the
  // same two grouped ciphertexts; the auditor's are the ones that travel with the transfer.
  lemma EveryPartyRecovers(H: Point, input: TransferInput, o: Openings, index: nat, party: Keypair)
    requires TransferFlow(H, input, o).Ok?
    requires index < 3 && party.pub == Pubs(input)[index] && ValidKeys(H, party)
    ensures var r := TransferFlow(H, input, o).value;
            && Recombined(party.secret, GroupedBytes(r.validity.lo), GroupedBytes(r.validity.hi), index)
                 == Some(input.amount)
            && ExtractedBytes(GroupedBytes(r.validity.lo), 2) == Ok(r.auditorLo)
            && ExtractedBytes(GroupedBytes(r.validity.hi), 2) == Ok(r.auditorHi)
  {
    hide Decrypt, ValidKeys, ParseCiphertext, CiphertextBytes, GroupedBytes, ExtractedBytes, SubtractLoHiBytes, Commit,
        Mul;
    var (lo, hi) := SplitAmount(input.amount, LO_SCALE);
    SplitRecombines(input.amount);
    RecipientReads(H, party, Pubs(input), index, lo, o.lo);
    RecipientReads(H, party, Pubs(input), index, hi, o.hi);
    ShiftScales(hi, LO_BITS);
    Shifts();
    ExtractGrouped(GroupedEncrypt(H, Pubs(input), lo, o.lo), 2);
    ExtractGrouped(GroupedEncrypt(H, Pubs(input), hi, o.hi), 2);
  }

  lemma {:induction false} ShiftScales(value: nat, bits: nat)
    ensures Shift(value, bits) == value * Shift(1, bits)
  {
    if bits > 0 {
      ShiftScales(value, bits - 1);
    }
  }
}
