// Consequences of the ledger invariant: which plans land, which applies keep the two copies of the
// balance together, and how far the pending halves can grow.
module LedgerRuns {
  import opened Wrappers
  import opened Group
  import opened ElGamal
  import opened Arithmetic
  import opened TransferProofs
  import opened Ledger

  // ---- where runs start, and that they can move ----

  predicate JustConfigured(H: Point, owner: Owner, a: TokenAccount) {
    && ValidKeys(H, owner.keys) && a.pub == owner.keys.pub
    && a.available == ZERO && a.pendingLo == ZERO && a.pendingHi == ZERO
    && a.decryptable == Sealed(owner.aesKey, 0) && a.credits == 0
  }

  function PublicTotal(s: Accounts): nat {
    if s == [] then 0 else s[0].public + PublicTotal(s[1..])
  }

  lemma {:induction false} ConfiguredInv(H: Point, owners: seq<Owner>, s: Accounts)
    requires |owners| == |s| && forall i :: 0 <= i < |s| ==> JustConfigured(H, owners[i], s[i])
    requires PublicTotal(s) < U64
    ensures Inv(H, owners, s, PublicTotal(s))
  {
    hide Dec, ValidKeys;
    if s != [] {
      DecZero(owners[0].keys.secret);
      ConfiguredInv(H, owners[1..], s[1..]);
      assert forall i :: 1 <= i < |s| ==> owners[i] == owners[1..][i - 1] && s[i] == s[1..][i - 1];
    }
  }

  // The account is approved, accepts confidential credits, and has not taken all it can.
  predicate TakesCredit(a: TokenAccount) {
    a.approved && a.allowCredits && a.credits < a.maxCredits
  }

  // What an error says about the amount and the account that was to be credited.
  predicate Refuses(error: Error, a: TokenAccount, amount: int, covered: bool) {
    match error
    case InvalidInput => amount <= 0
    case AmountTooLarge => amount > MAX_TRANSFER
    case InsufficientFunds => !covered
    case NotApproved => !a.approved
    case RejectsCredits => a.approved && !a.allowCredits
    case PendingLimit => a.approved && a.allowCredits && a.credits >= a.maxCredits
    case KeysMismatch => false
    case DecryptionFailed => false
    case MalformedCiphertext => false
  }

  // A deposit, transfer or withdraw planned on the current state is accepted by the chain; and one
  // is refused for the reason it names.
  lemma FreshDepositLands(a: TokenAccount, amount: int)
    ensures var plan := PlanDeposit(a, amount);
            && (plan.Ok? <==> 0 < amount <= MAX_TRANSFER && amount <= a.public && TakesCredit(a))
            && (plan.Ok? ==> plan.value == amount && LandDeposit(a, amount).Some?)
            && (plan.Err? ==> Refuses(plan.error, a, amount, amount <= a.public))
  {
    hide PlusAmount;
  }

  // Nothing can be planned with another key pair than the account's, nor with another AES key than
  // the one its balance is sealed with.
  lemma ForeignKeysRefused(H: Point, a: TokenAccount, destination: TokenAccount, owner: Owner, auditor: Option<Point>,
                           amount: int, o: Openings, opening: int)
    requires owner.keys.pub != a.pub || Open(owner.aesKey, a.decryptable).Err?
    ensures var error := if owner.keys.pub != a.pub then KeysMismatch else DecryptionFailed;
            && PlanApply(a, owner) == Err(error)
            && (0 < amount <= MAX_TRANSFER && TakesCredit(destination) ==>
                  PlanTransfer(H, a, destination, owner, auditor, amount, o) == Err(error))
            && (amount > 0 ==> PlanWithdraw(H, a, owner, amount, opening) == Err(error))
  {
    hide Extracted, ParseOr, Commit, GroupedEncrypt, SubtractLoHiBytes, SubtractAmountBytes, Decrypt, CiphertextBytes;
  }

  lemma FreshTransferLands(H: Point, owners: seq<Owner>, auditor: Option<Point>, s: Accounts, supply: u64,
                           i: nat, j: nat, amount: int, o: Openings)
    requires Inv(H, owners, s, supply) && i < |s| && j < |s|
    ensures var plan := PlanTransfer(H, s[i], s[j], owners[i], auditor, amount, o);
            var covered := amount <= Dec(owners[i].keys.secret, s[i].available);
            && (plan.Ok? <==> 0 < amount <= MAX_TRANSFER && covered && TakesCredit(s[j]))
            && (plan.Err? ==> Refuses(plan.error, s[j], amount, covered))
            && (plan.Ok? ==> LandTransfer(H, s, i, j, plan.value, auditor).Some?)
  {
    hide Dec, ValidKeys, Commit, CiphertextBytes, ParseCiphertext, SubtractLoHiBytes, Mul, SubtractLoHi;
    assert Sound(H, owners[i], s[i]) && Sound(H, owners[j], s[j]);
    var owner := owners[i];
    var input := TransferInput(View(s[i]), s[j].pub, auditor, amount, owner.keys, owner.aesKey);
    var balance := Dec(owner.keys.secret, s[i].available);
    ParseBytes(s[i].available);
    TransferStatements(H, input, o, s[i].available, balance);
    if 0 < amount <= MAX_TRANSFER && amount <= balance && CannotReceive(s[j]).None? {
      TransferCiphertext(H, input, o, s[i].available);
      var p := TransferFlow(H, input, o).value;
      var (lo, hi) := SplitAmount(amount, LO_SCALE);
      assert HandleOf(p.validity.lo, 0) == Encrypt(H, owner.keys.pub, lo, o.lo);
      assert HandleOf(p.validity.hi, 0) == Encrypt(H, owner.keys.pub, hi, o.hi);
    }
  }

  lemma FreshWithdrawLands(H: Point, owners: seq<Owner>, s: Accounts, supply: u64, i: nat, amount: int, opening: int)
    requires Inv(H, owners, s, supply) && i < |s|
    ensures var plan := PlanWithdraw(H, s[i], owners[i], amount, opening);
            && (plan.Ok? <==> 0 < amount <= Dec(owners[i].keys.secret, s[i].available))
            && (plan.Err? ==> plan.error == if amount <= 0 then InvalidInput else InsufficientFunds)
            && (plan.Ok? && amount > 0 ==> LandWithdraw(H, s[i], amount, plan.value).Some?)
  {
    hide Dec, ValidKeys, Commit, CiphertextBytes, ParseCiphertext, SubtractAmountBytes, Mul, SubtractAmount;
    assert Sound(H, owners[i], s[i]);
    WorthBelow(owners, s, i);
    ParseBytes(s[i].available);
    WithdrawStatements(H, View(s[i]), amount, owners[i].keys, owners[i].aesKey, opening, s[i].available,
                       Dec(owners[i].keys.secret, s[i].available));
  }

  // ---- applies that land late ----

  // An apply planned on `built` and landing on `now` keeps the copies together exactly when the
  // account still holds what it held.
  lemma StaleApply(H: Point, owner: Owner, built: TokenAccount, now: TokenAccount)
    requires Sound(H, owner, built) && Sound(H, owner, now)
    requires Worth(owner, built) < U64 && Worth(owner, now) < U64
    requires PlanApply(built, owner).Ok?
    ensures var landed := LandApply(now, PlanApply(built, owner).value);
            Sound(H, owner, landed) <==> Held(owner, built) == Held(owner, now)
  {
    hide Sound, Dec, PlanApply, Pending;
    ApplyPlans(H, owner, built);
    ApplyMoves(H, owner, now, PlanApply(built, owner).value);
  }

  // What an operation that lands adds to the confidential balance of account `i`, and what it takes.
  function AddedBy(op: Op, i: nat): int {
    match op
    case Deposit(k, amount) => if k == i then amount else 0
    case Transfer(_, j, amount, _) => if j == i then amount else 0
    case Apply(_) => 0
    case Withdraw(_, _, _) => 0
  }

  function TakenBy(op: Op, i: nat): int {
    match op
    case Deposit(_, _) => 0
    case Transfer(k, _, amount, _) => if k == i then amount else 0
    case Apply(_) => 0
    case Withdraw(k, amount, _) => if k == i then amount else 0
  }

  // Over the operations from `first` up to `last` that landed.
  ghost function Added(H: Point, owners: seq<Owner>, auditor: Option<Point>, states: seq<Accounts>, ops: seq<Op>,
                       at: seq<nat>, i: nat, first: nat, last: nat): int
    requires Run(H, owners, auditor, states, ops, at) && first <= last <= |ops|
  {
    if first == last then 0
    else
      var n := last - 1;
      Added(H, owners, auditor, states, ops, at, i, first, n)
      + if Landed(H, owners, auditor, states[at[n]], states[n], ops[n]).Some? then AddedBy(ops[n], i) else 0
  }

  ghost function Taken(H: Point, owners: seq<Owner>, auditor: Option<Point>, states: seq<Accounts>, ops: seq<Op>,
                       at: seq<nat>, i: nat, first: nat, last: nat): int
    requires Run(H, owners, auditor, states, ops, at) && first <= last <= |ops|
  {
    if first == last then 0
    else
      var n := last - 1;
      Taken(H, owners, auditor, states, ops, at, i, first, n)
      + if Landed(H, owners, auditor, states[at[n]], states[n], ops[n]).Some? then TakenBy(ops[n], i) else 0
  }

  lemma HalvesHeld(owner: Owner, a: TokenAccount, b: TokenAccount, amount: nat)
    requires AddsHalves(owner, a, b, amount)
    ensures Held(owner, b) == Held(owner, a) + amount
  {
    hide Dec;
    SplitRecombines(amount);
  }

  // A landed operation changes what each account holds by exactly its amount.
  lemma StepMoves(H: Point, owners: seq<Owner>, auditor: Option<Point>, built: Accounts, now: Accounts, op: Op,
                  supply: u64, i: nat)
    requires Inv(H, owners, built, supply) && Inv(H, owners, now, supply) && Names(op, |now|) && i < |now|
    requires Landed(H, owners, auditor, built, now, op).Some?
    ensures Held(owners[i], Landed(H, owners, auditor, built, now, op).value[i])
         == Held(owners[i], now[i]) + AddedBy(op, i) - TakenBy(op, i)
  {
    hide Sound, Held, Pending, PlanTransfer, LandDeposit, LandWithdraw, PlanApply, LandApply, PlanWithdraw, LandCredit,
        AddsHalves, SplitAmount, EqualityHolds, RangeHolds;
    var k := op.i;
    WorthBelow(owners, now, k);
    match op
    case Deposit(_, amount) =>
      DepositCredits(H, owners[k], now[k], amount);
      HalvesHeld(owners[k], now[k], LandDeposit(now[k], amount).value, amount);
    case Apply(_) =>
      ApplyMoves(H, owners[k], now[k], PlanApply(built[k], owners[k]).value);
      ApplyPublic(now[k], PlanApply(built[k], owners[k]).value);
    case Transfer(_, j, amount, o) =>
      var p := PlanTransfer(H, built[k], built[j], owners[k], auditor, amount, o).value;
      var debited := LandDebit(H, now[k], p, auditor).value;
      TransferDebits(H, owners[k], built[k], now[k], built[j], auditor, amount, o);
      var s' := now[k := debited];
      TotalUpdate(owners, now, k, debited);
      WorthBelow(owners, s', j);
      TransferCredits(H, owners[j], s'[j], p.validity, amount);
      HalvesHeld(owners[j], s'[j], LandCredit(s'[j], p.validity).value, amount);
    case Withdraw(_, amount, opening) =>
      WithdrawPositive(H, built[k], owners[k], amount, opening);
      WithdrawMoves(H, owners[k], built[k], now[k], amount, opening);
      WithdrawPublic(H, now[k], amount, PlanWithdraw(H, built[k], owners[k], amount, opening).value);
  }

  lemma ApplyPublic(a: TokenAccount, ix: ApplyIx)
    ensures LandApply(a, ix).public == a.public
  {
  }

  lemma WithdrawPublic(H: Point, a: TokenAccount, amount: nat, p: WithdrawProof)
    ensures var b := LandWithdraw(H, a, amount, p); b.Some? ==> b.value.public == a.public + amount
  {
    hide EqualityHolds, RangeHolds;
  }

  // Over any stretch of a run, an account's holding changes by what was added less what was taken.
  lemma {:induction false} RunMoves(H: Point, owners: seq<Owner>, auditor: Option<Point>, states: seq<Accounts>,
                                    ops: seq<Op>, at: seq<nat>, supply: u64, i: nat, first: nat, last: nat)
    requires Run(H, owners, auditor, states, ops, at) && first <= last <= |ops| && i < |owners|
    requires forall m :: 0 <= m <= last ==> Inv(H, owners, states[m], supply)
    ensures Held(owners[i], states[last][i])
         == Held(owners[i], states[first][i]) + Added(H, owners, auditor, states, ops, at, i, first, last)
            - Taken(H, owners, auditor, states, ops, at, i, first, last)
    decreases last
  {
    hide Held, Sound, Total, Landed, AddedBy, TakenBy;
    if first < last {
      var n := last - 1;
      RunMoves(H, owners, auditor, states, ops, at, supply, i, first, n);
      if Landed(H, owners, auditor, states[at[n]], states[n], ops[n]).Some? {
        StepMoves(H, owners, auditor, states[at[n]], states[n], ops[n], supply, i);
      }
    }
  }

  // Whatever happened since it was planned, an apply keeps the two copies of the balance together
  // exactly when as much was added to the account as was taken from it.
  lemma LateApply(H: Point, owners: seq<Owner>, auditor: Option<Point>, states: seq<Accounts>, ops: seq<Op>,
                  at: seq<nat>, supply: u64, i: nat, first: nat, last: nat)
    requires Run(H, owners, auditor, states, ops, at) && first <= last <= |ops| && i < |owners|
    requires forall m :: 0 <= m <= last ==> Inv(H, owners, states[m], supply)
    requires PlanApply(states[first][i], owners[i]).Ok?
    ensures var ix := PlanApply(states[first][i], owners[i]).value;
            var added := Added(H, owners, auditor, states, ops, at, i, first, last);
            var taken := Taken(H, owners, auditor, states, ops, at, i, first, last);
            Sound(H, owners[i], LandApply(states[last][i], ix)) <==> added == taken
  {
    hide Sound, Held, Worth, LandApply, PlanApply, Step, Added, Taken, Total;
    RunMoves(H, owners, auditor, states, ops, at, supply, i, first, last);
    WorthBelow(owners, states[first], i);
    WorthBelow(owners, states[last], i);
    StaleApply(H, owners[i], states[first][i], states[last][i]);
  }

  // Account `i` spends nothing and applies nothing: it can only be credited.
  ghost predicate OnlyReceives(ops: seq<Op>, i: nat, first: nat, last: nat)
    requires last <= |ops|
  {
    forall n :: first <= n < last ==> ops[n].Deposit? || ops[n].i != i
  }

  // The account took these credits, and nothing else happened to its confidential balances.
  ghost predicate CreditedBy(owner: Owner, before: TokenAccount, after: TokenAccount, amounts: seq<nat>) {
    && (forall k :: 0 <= k < |amounts| ==> 0 < amounts[k] <= MAX_TRANSFER)
    && after.available == before.available && after.credits == before.credits + |amounts|
    && Dec(owner.keys.secret, after.pendingLo) == Dec(owner.keys.secret, before.pendingLo) + SumLo(amounts)
    && Dec(owner.keys.secret, after.pendingHi) == Dec(owner.keys.secret, before.pendingHi) + SumHi(amounts)
  }

  ghost predicate TookCredits(owner: Owner, before: TokenAccount, after: TokenAccount) {
    exists amounts: seq<nat> :: CreditedBy(owner, before, after, amounts)
  }

  lemma NoCredit(owner: Owner, a: TokenAccount, b: TokenAccount)
    requires b == a.(public := b.public, decryptable := b.decryptable)
    ensures TookCredits(owner, a, b)
  {
    hide Dec;
    assert CreditedBy(owner, a, b, []);
  }

  lemma SumsOne(amount: nat)
    ensures SumLo([amount]) == SplitAmount(amount, LO_SCALE).0 && SumHi([amount]) == SplitAmount(amount, LO_SCALE).1
  {
    hide SplitAmount;
    assert [amount][1..] == [];
    assert SumLo([]) == 0 && SumHi([]) == 0;
    assert SumLo([amount]) == SplitAmount([amount][0], LO_SCALE).0 + SumLo([amount][1..]);
    assert SumHi([amount]) == SplitAmount([amount][0], LO_SCALE).1 + SumHi([amount][1..]);
  }

  lemma OneCredit(owner: Owner, a: TokenAccount, b: TokenAccount, amount: nat)
    requires AddsHalves(owner, a, b, amount) && 0 < amount <= MAX_TRANSFER
    ensures TookCredits(owner, a, b)
  {
    hide Dec, SumLo, SumHi, SplitAmount;
    SumsOne(amount);
    assert CreditedBy(owner, a, b, [amount]);
  }

  lemma {:induction false} SumsAppend(s: seq<nat>, t: seq<nat>)
    ensures SumLo(s + t) == SumLo(s) + SumLo(t) && SumHi(s + t) == SumHi(s) + SumHi(t) && Sum(s + t) == Sum(s) + Sum(t)
    decreases s
  {
    if s == [] {
      assert s + t == t;
    } else {
      assert (s + t)[1..] == s[1..] + t;
      SumsAppend(s[1..], t);
    }
  }

  lemma CreditedTrans(owner: Owner, a: TokenAccount, b: TokenAccount, c: TokenAccount)
    requires TookCredits(owner, a, b) && TookCredits(owner, b, c)
    ensures TookCredits(owner, a, c)
  {
    hide Dec;
    var s :| CreditedBy(owner, a, b, s);
    var t :| CreditedBy(owner, b, c, t);
    SumsAppend(s, t);
    assert CreditedBy(owner, a, c, s + t);
  }

  lemma StepCredits(H: Point, owners: seq<Owner>, auditor: Option<Point>, built: Accounts, now: Accounts, op: Op,
                    supply: u64, i: nat)
    requires Inv(H, owners, built, supply) && Inv(H, owners, now, supply) && Names(op, |now|) && i < |now|
    requires op.Deposit? || op.i != i
    ensures TookCredits(owners[i], now[i], Step(H, owners, auditor, built, now, op)[i])
  {
    hide Sound, Worth, Pending, TookCredits, PlanTransfer, LandWithdraw, PlanApply, LandApply, PlanWithdraw,
        EqualityHolds, RangeHolds, AddsHalves, SplitAmount;
    WorthBelow(owners, now, i);
    NoCredit(owners[i], now[i], now[i]);
    match op
    case Deposit(k, amount) =>
      if k == i && PlanDeposit(built[i], amount).Ok? && LandDeposit(now[i], amount).Some? {
        DepositCredits(H, owners[i], now[i], amount);
        OneCredit(owners[i], now[i], LandDeposit(now[i], amount).value, amount);
      }
    case Transfer(k, j, amount, o) =>
      var plan := PlanTransfer(H, built[k], built[j], owners[k], auditor, amount, o);
      if j == i && plan.Ok? && LandTransfer(H, now, k, j, plan.value, auditor).Some? {
        TransferDebits(H, owners[k], built[k], now[k], built[j], auditor, amount, o);
        TransferCredits(H, owners[i], now[i], plan.value.validity, amount);
        OneCredit(owners[i], now[i], LandCredit(now[i], plan.value.validity).value, amount);
      }
    case Apply(_) =>
    case Withdraw(_, _, _) =>
  }

  // While an account only receives, its pending halves grow by the halves of the credits it takes.
  lemma {:induction false} OnlyCredited(H: Point, owners: seq<Owner>, auditor: Option<Point>, states: seq<Accounts>,
                                        ops: seq<Op>, at: seq<nat>, supply: u64, i: nat, first: nat, last: nat)
    requires Run(H, owners, auditor, states, ops, at) && first <= last <= |ops| && i < |owners|
    requires forall m :: 0 <= m <= last ==> Inv(H, owners, states[m], supply)
    requires OnlyReceives(ops, i, first, last)
    ensures TookCredits(owners[i], states[first][i], states[last][i])
    decreases last
  {
    hide TookCredits, Sound, Total, Step;
    if first < last {
      OnlyCredited(H, owners, auditor, states, ops, at, supply, i, first, last - 1);
      StepCredits(H, owners, auditor, states[at[last - 1]], states[last - 1], ops[last - 1], supply, i);
      CreditedTrans(owners[i], states[first][i], states[last - 1][i], states[last][i]);
    } else {
      NoCredit(owners[i], states[first][i], states[first][i]);
    }
  }

  lemma {:induction false} SumPositive(amounts: seq<nat>)
    requires forall k :: 0 <= k < |amounts| ==> 0 < amounts[k]
    ensures Sum(amounts) >= |amounts|
  {
    if amounts != [] {
      SumPositive(amounts[1..]);
    }
  }

  // So its pending total grows with every credit.
  lemma CreditsShow(owner: Owner, before: TokenAccount, after: TokenAccount)
    requires TookCredits(owner, before, after)
    ensures after.available == before.available && after.credits >= before.credits
    ensures Pending(owner, after) - Pending(owner, before) >= after.credits - before.credits
    ensures after.credits == before.credits ==> Pending(owner, after) == Pending(owner, before)
  {
    hide Dec;
    var amounts :| CreditedBy(owner, before, after, amounts);
    HalvesRecombine(amounts);
    SumPositive(amounts);
    assert |amounts| == 0 ==> amounts == [];
  }

  // Every apply of the first `n` operations landed when as much had been added as taken since its plan.
  ghost predicate AppliesBalanced(H: Point, owners: seq<Owner>, auditor: Option<Point>, states: seq<Accounts>,
                                  ops: seq<Op>, at: seq<nat>, n: nat)
    requires Run(H, owners, auditor, states, ops, at) && n <= |ops|
  {
    forall m :: 0 <= m < n && ops[m].Apply? && Landed(H, owners, auditor, states[at[m]], states[m], ops[m]).Some? ==>
      Added(H, owners, auditor, states, ops, at, ops[m].i, at[m], m)
        == Taken(H, owners, auditor, states, ops, at, ops[m].i, at[m], m)
  }

  // Both copies of every balance agree, and the supply is kept, in all states of a run exactly when
  // its applies are balanced.
  lemma {:induction false} RunKeepsExactly(H: Point, owners: seq<Owner>, auditor: Option<Point>, states: seq<Accounts>,
                                           ops: seq<Op>, at: seq<nat>, supply: u64, n: nat)
    requires Run(H, owners, auditor, states, ops, at) && Inv(H, owners, states[0], supply) && n <= |ops|
    ensures (forall m :: 0 <= m <= n ==> Inv(H, owners, states[m], supply))
       <==> AppliesBalanced(H, owners, auditor, states, ops, at, n)
  {
    hide Inv, Landed, Added, Taken, Step;
    if n > 0 {
      var m := n - 1;
      RunKeepsExactly(H, owners, auditor, states, ops, at, supply, m);
      if forall k :: 0 <= k <= m ==> Inv(H, owners, states[k], supply) {
        NextKept(H, owners, auditor, states, ops, at, supply, m);
      }
    }
  }

  // After states that keep the invariant, the next one does exactly if it is not an unbalanced apply's.
  lemma NextKept(H: Point, owners: seq<Owner>, auditor: Option<Point>, states: seq<Accounts>, ops: seq<Op>,
                 at: seq<nat>, supply: u64, m: nat)
    requires Run(H, owners, auditor, states, ops, at) && m < |ops|
    requires forall k :: 0 <= k <= m ==> Inv(H, owners, states[k], supply)
    ensures Inv(H, owners, states[m + 1], supply) <==>
              (ops[m].Apply? && Landed(H, owners, auditor, states[at[m]], states[m], ops[m]).Some? ==>
                 Added(H, owners, auditor, states, ops, at, ops[m].i, at[m], m)
                   == Taken(H, owners, auditor, states, ops, at, ops[m].i, at[m], m))
  {
    hide Sound, Total, Added, Taken, PlanApply, LandApply, Worth;
    var op, built, now := ops[m], states[at[m]], states[m];
    if !op.Apply? {
      StepKeeps(H, owners, auditor, built, now, op, supply);
    } else if Landed(H, owners, auditor, built, now, op).Some? {
      var i := op.i;
      var a := LandApply(now[i], PlanApply(built[i], owners[i]).value);
      LateApply(H, owners, auditor, states, ops, at, supply, i, at[m], m);
      WorthBelow(owners, now, i);
      ApplyMoves(H, owners[i], now[i], PlanApply(built[i], owners[i]).value);
      assert states[m + 1] == now[i := a];
      if Sound(H, owners[i], a) {
        Replace(H, owners, now, supply, i, a);
      } else {
        assert states[m + 1][i] == a;
      }
    }
  }

  lemma {:induction false} ReceivingTakesNothing(H: Point, owners: seq<Owner>, auditor: Option<Point>,
                                                 states: seq<Accounts>, ops: seq<Op>, at: seq<nat>,
                                                 i: nat, first: nat, last: nat)
    requires Run(H, owners, auditor, states, ops, at) && first <= last <= |ops|
    requires OnlyReceives(ops, i, first, last)
    ensures Taken(H, owners, auditor, states, ops, at, i, first, last) == 0
    decreases last
  {
    hide Landed;
    if first < last {
      ReceivingTakesNothing(H, owners, auditor, states, ops, at, i, first, last - 1);
    }
  }

  // So while it only receives, the copies stay together exactly when the credit counter the apply was
  // planned on is still the counter on chain.
  lemma LateApplyByCounter(H: Point, owners: seq<Owner>, auditor: Option<Point>, states: seq<Accounts>, ops: seq<Op>,
                           at: seq<nat>, supply: u64, i: nat, first: nat, last: nat)
    requires Run(H, owners, auditor, states, ops, at) && first <= last <= |ops| && i < |owners|
    requires forall m :: 0 <= m <= last ==> Inv(H, owners, states[m], supply)
    requires OnlyReceives(ops, i, first, last)
    requires PlanApply(states[first][i], owners[i]).Ok?
    ensures var ix := PlanApply(states[first][i], owners[i]).value;
            Sound(H, owners[i], LandApply(states[last][i], ix)) <==> ix.expectedCredits == states[last][i].credits
  {
    hide Sound, Pending, Worth, LandApply, PlanApply, TookCredits, Step, OnlyReceives, Added, Taken, Total;
    LateApply(H, owners, auditor, states, ops, at, supply, i, first, last);
    RunMoves(H, owners, auditor, states, ops, at, supply, i, first, last);
    ReceivingTakesNothing(H, owners, auditor, states, ops, at, i, first, last);
    OnlyCredited(H, owners, auditor, states, ops, at, supply, i, first, last);
    CreditsShow(owners[i], states[first][i], states[last][i]);
    WorthBelow(owners, states[first], i);
    ApplyPlans(H, owners[i], states[first][i]);
  }

  // An operation that lands between an apply's plan and its landing.
  lemma Overtaken(H: Point, owners: seq<Owner>, auditor: Option<Point>, s: Accounts, op: Op, i: nat, supply: u64)
    requires Inv(H, owners, s, supply) && Names(op, |s|) && i < |s| && !op.Apply?
    requires PlanApply(s[i], owners[i]).Ok? && Landed(H, owners, auditor, s, s, op).Some?
    ensures var now := Step(H, owners, auditor, s, s, op);
            var late := Step(H, owners, auditor, s, now, Apply(i));
            && Run(H, owners, auditor, [s, now, late], [op, Apply(i)], [0, 0])
            && (Sound(H, owners[i], late[i]) <==> AddedBy(op, i) == TakenBy(op, i))
  {
    hide Sound, Held, Worth, LandApply, PlanApply, Landed, Total, AddedBy, TakenBy;
    var now := Step(H, owners, auditor, s, s, op);
    StepKeeps(H, owners, auditor, s, s, op, supply);
    StepMoves(H, owners, auditor, s, s, op, supply, i);
    WorthBelow(owners, s, i);
    WorthBelow(owners, now, i);
    StaleApply(H, owners[i], s[i], now[i]);
    LateApplies(H, owners, auditor, s, now, i);
  }

  lemma LateApplies(H: Point, owners: seq<Owner>, auditor: Option<Point>, built: Accounts, now: Accounts, i: nat)
    requires |owners| == |built| == |now| && i < |now| && PlanApply(built[i], owners[i]).Ok?
    ensures Step(H, owners, auditor, built, now, Apply(i))[i] == LandApply(now[i], PlanApply(built[i], owners[i]).value)
  {
  }

  // An account with a public and a confidential balance of one base unit each.
  function OneEach(H: Point): (Owner, TokenAccount) {
    var owner := Owner(Keypair(1, H), 0);
    var a := TokenAccount(1, H, Ciphertext(1, 0), Sealed(0, 1), ZERO, ZERO, 0, DEFAULT_MAX_CREDITS, true, true);
    (owner, a)
  }

  lemma OneEachSound(H: Point)
    ensures var (owner, a) := OneEach(H);
            && Inv(H, [owner], [a], 2) && PlanApply(a, owner) == Ok(ApplyIx(0, Sealed(0, 1)))
            && Dec(owner.keys.secret, a.available) == 1
  {
    hide Dec, Mul;
    var (owner, a) := OneEach(H);
    assert Mul(1, H) == H by {
      MulOne(H);
    }
    DecOne(1);
    DecZero(1);
    assert Sound(H, owner, a) && Worth(owner, a) == 2;
    assert [owner][1..] == [] && [a][1..] == [];
    assert Total([owner], [a]) == Worth(owner, a) + Total([], []);
    ApplyPlans(H, owner, a);
  }

  lemma MulOne(p: Point)
    ensures Mul(1, p) == p
  {
  }

  // A deposit that overtakes an apply: the counter has moved, the chain takes the apply, and the
  // copies of the balance differ.
  lemma OvertakenByDeposit(H: Point)
    ensures var (owner, a) := OneEach(H);
            var now := Step(H, [owner], None, [a], [a], Deposit(0, 1));
            var late := Step(H, [owner], None, [a], now, Apply(0));
            && Inv(H, [owner], [a], 2)
            && Run(H, [owner], None, [[a], now, late], [Deposit(0, 1), Apply(0)], [0, 0])
            && PlanApply(a, owner).value.expectedCredits != now[0].credits
            && !Sound(H, owner, late[0])
  {
    hide Sound, Total, PlanApply, Run, PlusAmount;
    var (owner, a) := OneEach(H);
    OneEachSound(H);
    assert Landed(H, [owner], None, [a], [a], Deposit(0, 1)).Some?;
    Overtaken(H, [owner], None, [a], Deposit(0, 1), 0, 2);
  }

  // A withdraw that overtakes an apply: the same, and the counter has not moved.
  lemma OvertakenByWithdraw(H: Point)
    ensures var (owner, a) := OneEach(H);
            var now := Step(H, [owner], None, [a], [a], Withdraw(0, 1, 0));
            var late := Step(H, [owner], None, [a], now, Apply(0));
            && Inv(H, [owner], [a], 2)
            && Run(H, [owner], None, [[a], now, late], [Withdraw(0, 1, 0), Apply(0)], [0, 0])
            && PlanApply(a, owner).value.expectedCredits == now[0].credits
            && !Sound(H, owner, late[0])
  {
    hide Sound, Total, PlanApply, Run, PlanWithdraw, EqualityHolds, RangeHolds, Dec;
    var (owner, a) := OneEach(H);
    OneEachSound(H);
    FreshWithdrawLands(H, [owner], [a], 2, 0, 1, 0);
    assert Landed(H, [owner], None, [a], [a], Withdraw(0, 1, 0)).Some?;
    Overtaken(H, [owner], None, [a], Withdraw(0, 1, 0), 0, 2);
  }

  // ---- how far the pending halves grow ----

  // With the default limit on credits the low half always decrypts, so an apply can be planned
  // exactly while the high half stays below the decryption limit; and that is decided by the total
  // alone, except for the totals between the two bounds.
  lemma PendingDecrypts(H: Point, owner: Owner, a: TokenAccount)
    requires Sound(H, owner, a) && Worth(owner, a) < U64 && a.maxCredits <= DEFAULT_MAX_CREDITS
    ensures Decrypt(owner.keys.secret, a.pendingLo).Some?
    ensures PlanApply(a, owner).Ok? <==> Dec(owner.keys.secret, a.pendingHi) < DECRYPT_LIMIT
    ensures PlanApply(a, owner).Err? ==> Pending(owner, a) > MAX_TRANSFER
    ensures Pending(owner, a) > MAX_TRANSFER + DEFAULT_MAX_CREDITS * (LO_SCALE - 1) ==> PlanApply(a, owner).Err?
  {
    hide Dec, ValidKeys, PlanApply;
    ApplyPlans(H, owner, a);
    CreditBound(a.credits, DEFAULT_MAX_CREDITS);
  }

  lemma CreditBound(credits: nat, most: nat)
    requires credits <= most
    ensures credits * (LO_SCALE - 1) <= most * (LO_SCALE - 1)
  {
  }

  function SumLo(amounts: seq<nat>): nat {
    if amounts == [] then 0 else SplitAmount(amounts[0], LO_SCALE).0 + SumLo(amounts[1..])
  }

  function SumHi(amounts: seq<nat>): nat {
    if amounts == [] then 0 else SplitAmount(amounts[0], LO_SCALE).1 + SumHi(amounts[1..])
  }

  // The halves recombine to the exact sum although the low half carries over its 16 bits.
  lemma {:induction false} HalvesRecombine(amounts: seq<nat>)
    ensures SumLo(amounts) + LO_SCALE * SumHi(amounts) == Sum(amounts)
    ensures SumLo(amounts) <= |amounts| * (LO_SCALE - 1)
  {
    if amounts != [] {
      HalvesRecombine(amounts[1..]);
      SplitRecombines(amounts[0]);
      assert |amounts| * (LO_SCALE - 1) == (|amounts| - 1) * (LO_SCALE - 1) + (LO_SCALE - 1);
    }
  }

  lemma {:induction false} Repeated(amount: nat, n: nat)
    ensures var s := seq(n, i requires 0 <= i < n => amount);
            SumLo(s) == n * SplitAmount(amount, LO_SCALE).0 && SumHi(s) == n * SplitAmount(amount, LO_SCALE).1
  {
    hide SplitAmount;
    if n > 0 {
      Repeated(amount, n - 1);
      var s := seq(n, i requires 0 <= i < n => amount);
      assert s[1..] == seq(n - 1, i requires 0 <= i < n - 1 => amount);
    }
  }

  // 65537 is the largest number of credits for which the low half is sure to decrypt.
  lemma LowHalfTight(n: nat)
    ensures (forall amounts: seq<nat> :: |amounts| == n ==> SumLo(amounts) < DECRYPT_LIMIT) <==> n <= 65537
  {
    if n <= 65537 {
      CreditBound(n, 65537);
      forall amounts: seq<nat> | |amounts| == n
        ensures SumLo(amounts) < DECRYPT_LIMIT
      {
        HalvesRecombine(amounts);
      }
    } else {
      Repeated(LO_SCALE - 1, n);
      CreditBound(65538, n);
    }
  }
}
