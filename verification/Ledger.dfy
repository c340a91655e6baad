// The confidential balances as a state machine: the guards and plans of deposit.ts,
// applyPendingBalance.ts, transfer.ts and withdraw.ts, and the effect the token program gives each
// instruction. An instruction may be planned on any earlier state and land later.
module Ledger {
  import opened Wrappers
  import opened Group
  import opened ElGamal
  import opened Arithmetic
  import opened TransferProofs

  // A token account with its confidential-transfer extension.
  datatype TokenAccount = TokenAccount(
    public: nat,
    pub: Point,
    available: Ciphertext,
    decryptable: AeCiphertext,
    pendingLo: Ciphertext,
    pendingHi: Ciphertext,
    credits: nat,
    maxCredits: nat,
    approved: bool,
    allowCredits: bool)

  datatype Owner = Owner(keys: Keypair, aesKey: nat)

  type Accounts = seq<TokenAccount>

  // Default of configureAccount: how many credits an account takes before its pending balance is applied.
  const DEFAULT_MAX_CREDITS := 0x1_0000

  // ---- what the SDK checks and builds ----

  // assertCanReceive
  function CannotReceive(a: TokenAccount): Option<Error> {
    if !a.approved then Some(NotApproved)
    else if !a.allowCredits then Some(RejectsCredits)
    else if a.credits >= a.maxCredits then Some(PendingLimit)
    else None
  }

  function PlanDeposit(a: TokenAccount, amount: int): Result<nat, Error> {
    if amount <= 0 then Err(InvalidInput)
    else if amount > MAX_TRANSFER then Err(AmountTooLarge)
    else if a.public < amount then Err(InsufficientFunds)
    else if CannotReceive(a).Some? then Err(CannotReceive(a).value)
    else Ok(amount)
  }

  datatype ApplyIx = ApplyIx(expectedCredits: nat, newDecryptable: AeCiphertext)

  function PlanApply(a: TokenAccount, owner: Owner): Result<ApplyIx, Error> {
    if owner.keys.pub != a.pub then Err(KeysMismatch)
    else
      var lo, hi := Decrypt(owner.keys.secret, a.pendingLo), Decrypt(owner.keys.secret, a.pendingHi);
      if lo.None? || hi.None? then Err(DecryptionFailed)
      else
        var current :- Open(owner.aesKey, a.decryptable);
        Ok(ApplyIx(a.credits, Seal(owner.aesKey, current + (Shift(hi.value, LO_BITS) + lo.value))))
  }

  function View(a: TokenAccount): Account {
    Account(CiphertextBytes(a.available), a.decryptable)
  }

  function PlanTransfer(H: Point, source: TokenAccount, destination: TokenAccount, owner: Owner, auditor: Option<Point>,
                        amount: int, o: Openings): Result<TransferProof, Error>
  {
    if amount <= 0 then Err(InvalidInput)
    else if CannotReceive(destination).Some? then Err(CannotReceive(destination).value)
    else if owner.keys.pub != source.pub then Err(KeysMismatch)
    else TransferFlow(H, TransferInput(View(source), destination.pub, auditor, amount, owner.keys, owner.aesKey), o)
  }

  function PlanWithdraw(H: Point, a: TokenAccount, owner: Owner, amount: int, opening: int)
    : Result<WithdrawProof, Error>
  {
    if amount <= 0 then Err(InvalidInput)
    else if owner.keys.pub != a.pub then Err(KeysMismatch)
    else WithdrawFlow(H, View(a), amount, owner.keys, owner.aesKey, opening)
  }

  // ---- what the token program does (assumed) ----

  function Credited(a: TokenAccount, lo: Ciphertext, hi: Ciphertext): TokenAccount {
    a.(pendingLo := lo, pendingHi := hi, credits := a.credits + 1)
  }

  function LandDeposit(a: TokenAccount, amount: nat): Option<TokenAccount> {
    if amount > MAX_TRANSFER || a.public < amount || CannotReceive(a).Some? then None
    else
      var (lo, hi) := SplitAmount(amount, LO_SCALE);
      Some(Credited(a.(public := a.public - amount), PlusAmount(a.pendingLo, lo), PlusAmount(a.pendingHi, hi)))
  }

  // The program takes the sealed balance as given, and does not compare the credit counters.
  function LandApply(a: TokenAccount, ix: ApplyIx): TokenAccount {
    a.(available := Plus(a.available, Combine(a.pendingLo, a.pendingHi, LO_SCALE)),
       decryptable := ix.newDecryptable, pendingLo := ZERO, pendingHi := ZERO, credits := 0)
  }

  function HandleOf(g: Grouped, index: nat): Ciphertext
    requires index < |g.handles|
  {
    Ciphertext(g.commitment, g.handles[index])
  }

  // The proofs hold, are about these accounts and the auditor, share their commitments, and the
  // equality proof is about the ciphertext that the current balance becomes.
  predicate AcceptsTransfer(H: Point, source: TokenAccount, p: TransferProof, auditor: Option<Point>) {
    && EqualityHolds(H, p.equality) && ValidityHolds(H, p.validity) && RangeHolds(H, p.range, 128)
    && p.equality.keys.pub == source.pub
    && |p.validity.pubs| == 3 && p.validity.pubs[0] == source.pub
    && p.validity.pubs[2] == (if auditor.Some? then auditor.value else 0)
    && |p.range.commitments| == 4
    && p.range.commitments[..3] == [p.equality.commitment, p.validity.lo.commitment, p.validity.hi.commitment]
    && p.equality.ciphertext
         == SubtractLoHi(source.available, HandleOf(p.validity.lo, 0), HandleOf(p.validity.hi, 0), LO_SCALE)
  }

  function LandDebit(H: Point, source: TokenAccount, p: TransferProof, auditor: Option<Point>): Option<TokenAccount> {
    if AcceptsTransfer(H, source, p, auditor)
    then Some(source.(available := p.equality.ciphertext, decryptable := p.newDecryptable))
    else None
  }

  function LandCredit(destination: TokenAccount, v: Validity): Option<TokenAccount>
    requires |v.pubs| == 3 && |v.lo.handles| == 3 && |v.hi.handles| == 3
  {
    if CannotReceive(destination).Some? || v.pubs[1] != destination.pub then None
    else Some(Credited(destination, Plus(destination.pendingLo, HandleOf(v.lo, 1)),
                       Plus(destination.pendingHi, HandleOf(v.hi, 1))))
  }

  function LandTransfer(H: Point, s: Accounts, i: nat, j: nat, p: TransferProof, auditor: Option<Point>)
    : (landed: Option<Accounts>)
    requires i < |s| && j < |s|
    ensures landed.Some? ==> |landed.value| == |s|
  {
    var debited := LandDebit(H, s[i], p, auditor);
    if debited.None? then None
    else
      var s' := s[i := debited.value];
      var credited := LandCredit(s'[j], p.validity);
      if credited.None? then None else Some(s'[j := credited.value])
  }

  function LandWithdraw(H: Point, a: TokenAccount, amount: nat, p: WithdrawProof): Option<TokenAccount> {
    if && EqualityHolds(H, p.equality) && RangeHolds(H, p.range, 64)
       && p.equality.keys.pub == a.pub
       && p.range.commitments == [p.equality.commitment]
       && p.equality.ciphertext == SubtractAmount(a.available, amount)
       && a.public + amount < U64
    then Some(a.(public := a.public + amount, available := p.equality.ciphertext, decryptable := p.newDecryptable))
    else None
  }

  // ---- steps and runs ----

  datatype Op =
    | Deposit(i: nat, amount: int)
    | Apply(i: nat)
    | Transfer(i: nat, j: nat, amount: int, o: Openings)
    | Withdraw(i: nat, amount: int, opening: int)

  predicate Names(op: Op, n: nat) {
    op.i < n && (op.Transfer? ==> op.j < n)
  }

  // `op`, planned on `built`, lands on `now`; or the SDK or the chain refuses it.
  function Landed(H: Point, owners: seq<Owner>, auditor: Option<Point>, built: Accounts, now: Accounts, op: Op)
    : (s: Option<Accounts>)
    requires |owners| == |built| == |now| && Names(op, |now|)
    ensures s.Some? ==> |s.value| == |now|
  {
    var i := op.i;
    match op
    case Deposit(_, amount) =>
      var plan := PlanDeposit(built[i], amount);
      if plan.Err? || LandDeposit(now[i], plan.value).None? then None
      else Some(now[i := LandDeposit(now[i], plan.value).value])
    case Apply(_) =>
      var plan := PlanApply(built[i], owners[i]);
      if plan.Err? then None else Some(now[i := LandApply(now[i], plan.value)])
    case Transfer(_, j, amount, o) =>
      var plan := PlanTransfer(H, built[i], built[j], owners[i], auditor, amount, o);
      if plan.Err? then None else LandTransfer(H, now, i, j, plan.value, auditor)
    case Withdraw(_, amount, opening) =>
      var plan := PlanWithdraw(H, built[i], owners[i], amount, opening);
      if plan.Err? || LandWithdraw(H, now[i], amount, plan.value).None? then None
      else Some(now[i := LandWithdraw(H, now[i], amount, plan.value).value])
  }

  // What is refused changes nothing.
  function Step(H: Point, owners: seq<Owner>, auditor: Option<Point>, built: Accounts, now: Accounts, op: Op)
    : (s: Accounts)
    requires |owners| == |built| == |now| && Names(op, |now|)
    ensures |s| == |now|
  {
    var landed := Landed(H, owners, auditor, built, now, op);
    if landed.Some? then landed.value else now
  }

  // A run: operation `n` was planned on state `at[n]`, one of those before it.
  ghost predicate Run(H: Point, owners: seq<Owner>, auditor: Option<Point>, states: seq<Accounts>, ops: seq<Op>,
                      at: seq<nat>)
  {
    && |states| == |ops| + 1 == |at| + 1
    && (forall n :: 0 <= n < |states| ==> |states[n]| == |owners|)
    && (forall n :: 0 <= n < |ops| ==>
          && at[n] <= n && Names(ops[n], |owners|)
          && states[n + 1] == Step(H, owners, auditor, states[at[n]], states[n], ops[n]))
  }

  // The balances an apply was planned on are still there.
  predicate SameBalances(a: TokenAccount, b: TokenAccount) {
    a.available == b.available && a.pendingLo == b.pendingLo && a.pendingHi == b.pendingHi
  }

  ghost predicate AppliesFresh(states: seq<Accounts>, ops: seq<Op>, at: seq<nat>)
    requires |states| == |ops| + 1 == |at| + 1
    requires forall n :: 0 <= n < |ops| ==> at[n] <= n && ops[n].i < |states[at[n]]| && ops[n].i < |states[n]|
  {
    forall n :: 0 <= n < |ops| && ops[n].Apply? ==> SameBalances(states[at[n]][ops[n].i], states[n][ops[n].i])
  }

  // ---- the invariant ----

  // What an account holds, public and encrypted.
  function Pending(owner: Owner, a: TokenAccount): nat {
    Dec(owner.keys.secret, a.pendingLo) + LO_SCALE * Dec(owner.keys.secret, a.pendingHi)
  }

  // The confidential balance, pending included.
  function Held(owner: Owner, a: TokenAccount): nat {
    Dec(owner.keys.secret, a.available) + Pending(owner, a)
  }

  function Worth(owner: Owner, a: TokenAccount): nat {
    a.public + Held(owner, a)
  }

  function Total(owners: seq<Owner>, s: Accounts): nat
    requires |owners| == |s|
  {
    if s == [] then 0 else Worth(owners[0], s[0]) + Total(owners[1..], s[1..])
  }

  // Both copies of the available balance agree, and the pending halves are bounded by the credits.
  predicate Sound(H: Point, owner: Owner, a: TokenAccount) {
    && ValidKeys(H, owner.keys) && a.pub == owner.keys.pub
    && Dec(owner.keys.secret, a.available) < U64
    && a.decryptable == Sealed(owner.aesKey, Dec(owner.keys.secret, a.available))
    && a.credits <= a.maxCredits
    && Dec(owner.keys.secret, a.pendingLo) <= a.credits * (LO_SCALE - 1)
    && Dec(owner.keys.secret, a.pendingHi) <= a.credits * (DECRYPT_LIMIT - 1)
  }

  ghost predicate Inv(H: Point, owners: seq<Owner>, s: Accounts, supply: u64) {
    && |owners| == |s|
    && (forall i :: 0 <= i < |s| ==> Sound(H, owners[i], s[i]))
    && Total(owners, s) == supply
  }

  lemma {:induction false} TotalUpdate(owners: seq<Owner>, s: Accounts, i: nat, a: TokenAccount)
    requires |owners| == |s| && i < |s|
    ensures Total(owners, s[i := a]) == Total(owners, s) - Worth(owners[i], s[i]) + Worth(owners[i], a)
    ensures Worth(owners[i], s[i]) <= Total(owners, s)
  {
    hide Worth;
    var s' := s[i := a];
    if i > 0 {
      TotalUpdate(owners[1..], s[1..], i - 1, a);
      assert s'[1..] == s[1..][i - 1 := a];
    } else {
      assert s'[1..] == s[1..];
    }
  }

  // Replacing one account by a sound one worth as much keeps the invariant.
  lemma Replace(H: Point, owners: seq<Owner>, s: Accounts, supply: u64, i: nat, a: TokenAccount)
    requires Inv(H, owners, s, supply) && i < |s|
    requires Sound(H, owners[i], a) && Worth(owners[i], a) == Worth(owners[i], s[i])
    ensures Inv(H, owners, s[i := a], supply)
  {
    hide Worth, Sound;
    TotalUpdate(owners, s, i, a);
  }

  // The halves of `amount` were added to the pending halves, and one credit counted.
  predicate AddsHalves(owner: Owner, a: TokenAccount, b: TokenAccount, amount: nat) {
    && Dec(owner.keys.secret, b.pendingLo) == Dec(owner.keys.secret, a.pendingLo) + SplitAmount(amount, LO_SCALE).0
    && Dec(owner.keys.secret, b.pendingHi) == Dec(owner.keys.secret, a.pendingHi) + SplitAmount(amount, LO_SCALE).1
    && b.credits == a.credits + 1 && b.available == a.available
  }

  // A credit of `amount` to the pending halves.
  lemma CreditSound(H: Point, owner: Owner, a: TokenAccount, lo: Ciphertext, hi: Ciphertext, amount: nat)
    requires Sound(H, owner, a) && a.credits < a.maxCredits && amount <= MAX_TRANSFER
    requires Dec(owner.keys.secret, lo) == Dec(owner.keys.secret, a.pendingLo) + SplitAmount(amount, LO_SCALE).0
    requires Dec(owner.keys.secret, hi) == Dec(owner.keys.secret, a.pendingHi) + SplitAmount(amount, LO_SCALE).1
    ensures Sound(H, owner, Credited(a, lo, hi))
    ensures Worth(owner, Credited(a, lo, hi)) == Worth(owner, a) + amount
    ensures Pending(owner, Credited(a, lo, hi)) == Pending(owner, a) + amount
  {
    hide Dec, ValidKeys;
    SplitRecombines(amount);
    assert (a.credits + 1) * (LO_SCALE - 1) == a.credits * (LO_SCALE - 1) + (LO_SCALE - 1);
    assert (a.credits + 1) * (DECRYPT_LIMIT - 1) == a.credits * (DECRYPT_LIMIT - 1) + (DECRYPT_LIMIT - 1);
  }

  lemma DepositCredits(H: Point, owner: Owner, a: TokenAccount, amount: nat)
    requires Sound(H, owner, a) && Worth(owner, a) < U64
    requires LandDeposit(a, amount).Some?
    ensures var a' := LandDeposit(a, amount).value;
            && Sound(H, owner, a')
            && Worth(owner, a') == Worth(owner, a)
            && AddsHalves(owner, a, a', amount)
  {
    hide Dec, ValidKeys, PlusAmount, Combine;
    var (lo, hi) := SplitAmount(amount, LO_SCALE);
    var cLo, cHi := PlusAmount(a.pendingLo, lo), PlusAmount(a.pendingHi, hi);
    DecPlusAmount(owner.keys.secret, a.pendingLo, lo);
    DecPlusAmount(owner.keys.secret, a.pendingHi, hi);
    CreditSound(H, owner, a.(public := a.public - amount), cLo, cHi, amount);
  }

  // What a planned transfer's second handles add to the destination's pending balance.
  lemma TransferCredits(H: Point, owner: Owner, a: TokenAccount, v: Validity, amount: nat)
    requires Sound(H, owner, a) && Worth(owner, a) < U64 && amount <= MAX_TRANSFER
    requires ValidityHolds(H, v) && |v.pubs| == 3
    requires (v.amountLo, v.amountHi) == SplitAmount(amount, LO_SCALE)
    requires LandCredit(a, v).Some?
    ensures var a' := LandCredit(a, v).value;
            && Sound(H, owner, a')
            && Worth(owner, a') == Worth(owner, a) + amount
            && AddsHalves(owner, a, a', amount)
  {
    hide Dec, ValidKeys, Plus, Combine, Commit, Mul;
    var lo, hi := HandleOf(v.lo, 1), HandleOf(v.hi, 1);
    assert lo == Encrypt(H, v.pubs[1], v.amountLo, v.openingLo) && hi == Encrypt(H, v.pubs[1], v.amountHi, v.openingHi);
    DecEncrypt(H, owner.keys, v.amountLo, v.openingLo);
    DecEncrypt(H, owner.keys, v.amountHi, v.openingHi);
    DecPlus(owner.keys.secret, a.pendingLo, lo);
    DecPlus(owner.keys.secret, a.pendingHi, hi);
    CreditSound(H, owner, a, Plus(a.pendingLo, lo), Plus(a.pendingHi, hi), amount);
  }

  // A planned transfer that lands debits exactly its amount, from both copies, whatever happened
  // since it was planned: the equality proof only fits a balance equal to the one read.
  lemma TransferDebits(H: Point, owner: Owner, built: TokenAccount, now: TokenAccount, destination: TokenAccount,
                       auditor: Option<Point>, amount: int, o: Openings)
    requires Sound(H, owner, built) && Sound(H, owner, now)
    requires PlanTransfer(H, built, destination, owner, auditor, amount, o).Ok?
    requires LandDebit(H, now, PlanTransfer(H, built, destination, owner, auditor, amount, o).value, auditor).Some?
    ensures var p := PlanTransfer(H, built, destination, owner, auditor, amount, o).value;
            var now' := LandDebit(H, now, p, auditor).value;
            && 0 < amount <= MAX_TRANSFER
            && (p.validity.amountLo, p.validity.amountHi) == SplitAmount(amount, LO_SCALE)
            && Dec(owner.keys.secret, now.available) == Dec(owner.keys.secret, built.available)
            && Sound(H, owner, now') && Worth(owner, now') == Worth(owner, now) - amount
  {
    hide Dec, ValidKeys, Commit, CiphertextBytes, ParseCiphertext, SubtractLoHiBytes, Mul, SubtractLoHi;
    var input := TransferInput(View(built), destination.pub, auditor, amount, owner.keys, owner.aesKey);
    var balance := Dec(owner.keys.secret, built.available);
    ParseBytes(built.available);
    TransferStatements(H, input, o, built.available, balance);
    var p := TransferFlow(H, input, o).value;
    var (lo, hi) := SplitAmount(amount, LO_SCALE);
    assert HandleOf(p.validity.lo, 0) == Encrypt(H, owner.keys.pub, lo, o.lo);
    assert HandleOf(p.validity.hi, 0) == Encrypt(H, owner.keys.pub, hi, o.hi);
    TakingHalves(H, owner.keys, now.available, amount, o.lo, o.hi);
  }

  lemma WithdrawMoves(H: Point, owner: Owner, built: TokenAccount, now: TokenAccount, amount: int, opening: int)
    requires Sound(H, owner, built) && Sound(H, owner, now)
    requires PlanWithdraw(H, built, owner, amount, opening).Ok? && amount > 0
    requires LandWithdraw(H, now, amount, PlanWithdraw(H, built, owner, amount, opening).value).Some?
    ensures var now' := LandWithdraw(H, now, amount, PlanWithdraw(H, built, owner, amount, opening).value).value;
            Sound(H, owner, now') && Worth(owner, now') == Worth(owner, now)
  {
    hide Dec, ValidKeys, Commit, CiphertextBytes, ParseCiphertext, SubtractAmountBytes, Mul, SubtractAmount;
    ParseBytes(built.available);
    WithdrawStatements(H, View(built), amount, owner.keys, owner.aesKey, opening, built.available,
                       Dec(owner.keys.secret, built.available));
    DecSubtractAmount(owner.keys.secret, now.available, amount);
  }

  lemma DecZero(s: int)
    ensures Dec(s, ZERO) == 0
  {
    assert s * 0 == 0;
  }

  // Landing an apply moves the whole pending balance into the available one.
  lemma ApplyMoves(H: Point, owner: Owner, now: TokenAccount, ix: ApplyIx)
    requires Sound(H, owner, now) && Worth(owner, now) < U64
    ensures var now' := LandApply(now, ix);
            && Dec(owner.keys.secret, now'.available) == Dec(owner.keys.secret, now.available) + Pending(owner, now)
            && Worth(owner, now') == Worth(owner, now)
            && (Sound(H, owner, now') <==>
                  now'.decryptable == Sealed(owner.aesKey, Dec(owner.keys.secret, now.available) + Pending(owner, now)))
  {
    hide Dec, ValidKeys, Combine, Plus;
    var s := owner.keys.secret;
    DecZero(s);
    DecCombine(s, now.pendingLo, now.pendingHi, LO_SCALE);
    DecPlus(s, now.available, Combine(now.pendingLo, now.pendingHi, LO_SCALE));
  }

  // A plan for an apply exists exactly when both halves can be decrypted, and then seals the sum of
  // what was read, without wrapping.
  lemma ApplyPlans(H: Point, owner: Owner, a: TokenAccount)
    requires Sound(H, owner, a) && Worth(owner, a) < U64
    ensures PlanApply(a, owner).Ok? <==>
              Dec(owner.keys.secret, a.pendingLo) < DECRYPT_LIMIT && Dec(owner.keys.secret, a.pendingHi) < DECRYPT_LIMIT
    ensures var sum := Dec(owner.keys.secret, a.available) + Pending(owner, a);
            PlanApply(a, owner) == if PlanApply(a, owner).Ok? then Ok(ApplyIx(a.credits, Sealed(owner.aesKey, sum)))
                                   else Err(DecryptionFailed)
  {
    hide Dec, ValidKeys;
    if PlanApply(a, owner).Ok? {
      ShiftScales(Dec(owner.keys.secret, a.pendingHi), LO_BITS);
      Shifts();
    }
  }

  // ---- every step keeps the invariant ----

  lemma StepKeeps(H: Point, owners: seq<Owner>, auditor: Option<Point>, built: Accounts, now: Accounts, op: Op,
                  supply: u64)
    requires Inv(H, owners, built, supply) && Inv(H, owners, now, supply) && Names(op, |now|)
    requires op.Apply? ==> SameBalances(built[op.i], now[op.i])
    ensures Inv(H, owners, Step(H, owners, auditor, built, now, op), supply)
  {
    hide Sound, Worth, PlanTransfer, LandDebit, LandCredit, PlanApply, LandApply, PlanWithdraw, LandWithdraw,
        LandDeposit;
    var i := op.i;
    WorthBelow(owners, now, i);
    WorthBelow(owners, built, i);
    match op
    case Deposit(_, amount) =>
      var plan := PlanDeposit(built[i], amount);
      if plan.Ok? && LandDeposit(now[i], plan.value).Some? {
        DepositCredits(H, owners[i], now[i], amount);
        Replace(H, owners, now, supply, i, LandDeposit(now[i], amount).value);
      }
    case Apply(_) =>
      if PlanApply(built[i], owners[i]).Ok? {
        FreshApply(H, owners[i], built[i], now[i]);
        Replace(H, owners, now, supply, i, LandApply(now[i], PlanApply(built[i], owners[i]).value));
      }
    case Transfer(_, j, amount, o) =>
      var plan := PlanTransfer(H, built[i], built[j], owners[i], auditor, amount, o);
      if plan.Ok? && LandTransfer(H, now, i, j, plan.value, auditor).Some? {
        TransferKeeps(H, owners, auditor, built, now, i, j, amount, o, supply);
      }
    case Withdraw(_, amount, opening) =>
      var plan := PlanWithdraw(H, built[i], owners[i], amount, opening);
      if amount > 0 && plan.Ok? && LandWithdraw(H, now[i], amount, plan.value).Some? {
        WithdrawMoves(H, owners[i], built[i], now[i], amount, opening);
        Replace(H, owners, now, supply, i, LandWithdraw(H, now[i], amount, plan.value).value);
      } else {
        WithdrawPositive(H, built[i], owners[i], amount, opening);
      }
  }

  lemma WithdrawPositive(H: Point, a: TokenAccount, owner: Owner, amount: int, opening: int)
    ensures amount <= 0 ==> PlanWithdraw(H, a, owner, amount, opening).Err?
  {
  }

  lemma WorthBelow(owners: seq<Owner>, s: Accounts, i: nat)
    requires |owners| == |s| && i < |s| && Total(owners, s) < U64
    ensures Worth(owners[i], s[i]) < U64
  {
    TotalUpdate(owners, s, i, s[i]);
  }

  lemma FreshApply(H: Point, owner: Owner, built: TokenAccount, now: TokenAccount)
    requires Sound(H, owner, built) && Sound(H, owner, now) && SameBalances(built, now)
    requires Worth(owner, built) < U64 && Worth(owner, now) < U64
    requires PlanApply(built, owner).Ok?
    ensures Sound(H, owner, LandApply(now, PlanApply(built, owner).value))
    ensures Worth(owner, LandApply(now, PlanApply(built, owner).value)) == Worth(owner, now)
  {
    hide Sound, Dec, PlanApply;
    ApplyPlans(H, owner, built);
    ApplyMoves(H, owner, now, PlanApply(built, owner).value);
  }

  lemma TransferKeeps(H: Point, owners: seq<Owner>, auditor: Option<Point>, built: Accounts, now: Accounts,
                      i: nat, j: nat, amount: int, o: Openings, supply: u64)
    requires Inv(H, owners, built, supply) && Inv(H, owners, now, supply) && i < |now| && j < |now|
    requires PlanTransfer(H, built[i], built[j], owners[i], auditor, amount, o).Ok?
    requires LandTransfer(H, now, i, j, PlanTransfer(H, built[i], built[j], owners[i], auditor, amount, o).value,
                          auditor).Some?
    ensures Inv(H, owners,
                LandTransfer(H, now, i, j, PlanTransfer(H, built[i], built[j], owners[i], auditor, amount, o).value,
                             auditor).value, supply)
  {
    hide Sound, Worth, PlanTransfer, EqualityHolds, RangeHolds, LandCredit;
    var p := PlanTransfer(H, built[i], built[j], owners[i], auditor, amount, o).value;
    TransferDebits(H, owners[i], built[i], now[i], built[j], auditor, amount, o);
    var debited := LandDebit(H, now[i], p, auditor).value;
    var s' := now[i := debited];
    TotalUpdate(owners, now, i, debited);
    TotalUpdate(owners, s', j, s'[j]);
    TransferCredits(H, owners[j], s'[j], p.validity, amount);
    TotalUpdate(owners, s', j, LandCredit(s'[j], p.validity).value);
  }

  // In every state of every run the two copies of every available balance agree, and public and
  // confidential balances add up to the supply.
  lemma {:induction false} RunKeeps(H: Point, owners: seq<Owner>, auditor: Option<Point>, states: seq<Accounts>,
                                    ops: seq<Op>, at: seq<nat>, supply: u64, n: nat)
    requires Run(H, owners, auditor, states, ops, at) && AppliesFresh(states, ops, at)
    requires Inv(H, owners, states[0], supply) && n < |states|
    ensures forall m :: 0 <= m <= n ==> Inv(H, owners, states[m], supply)
  {
    if n > 0 {
      RunKeeps(H, owners, auditor, states, ops, at, supply, n - 1);
      StepKeeps(H, owners, auditor, states[at[n - 1]], states[n - 1], ops[n - 1], supply);
    }
  }
}
