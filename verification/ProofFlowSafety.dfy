// What holds of every run of a proof flow, whatever becomes of its sends.
module ProofFlowSafety {
  import opened Wrappers
  import opened Cluster
  import opened ProofFlow

  // ---- the plan ----

  lemma {:induction false} OpenAfterConcat(s: Tx, t: Tx, a: Address, open: bool)
    ensures OpenAfter(s + t, a, open) == OpenAfter(t, a, OpenAfter(s, a, open))
    ensures Acts(s + t) == Acts(s) + Acts(t)
    decreases s
  {
    if s == [] {
      assert s + t == t;
    } else {
      assert (s + t)[1..] == s[1..] + t;
      OpenAfterConcat(s[1..], t, a, OpenAfterOne(s[0], a, open));
    }
  }

  // The planner's output: at most one action, only the flow's proof accounts, all closed at the end.
  ghost predicate WellPlanned(flow: Flow) {
    && Acts(Flat(flow.txs)) <= 1
    && (forall k :: 0 <= k < |flow.txs| ==> Within(flow.txs[k], flow.accounts))
    && (forall a :: a in flow.accounts ==> !OpenAfter(Flat(flow.txs), a, false))
  }

  // However the planner cuts setup, action and cleanup into transactions, in order, that is so.
  lemma OrderedPlan(flow: Flow, setup: Tx, proofs: seq<Address>)
    requires Flat(flow.txs) == setup + [Act(proofs)] + Closes(flow.accounts)
    requires Within(setup, flow.accounts) && Acts(setup) == 0
    ensures WellPlanned(flow) && Acts(Flat(flow.txs)) == 1
  {
    var head := setup + [Act(proofs)];
    forall a | a in flow.accounts
      ensures !OpenAfter(Flat(flow.txs), a, false)
    {
      OpenAfterConcat(head, Closes(flow.accounts), a, false);
      ClosesTouch(flow.accounts, a, OpenAfter(head, a, false));
    }
    OpenAfterConcat(setup, [Act(proofs)], 0, false);
    OpenAfterConcat(head, Closes(flow.accounts), 0, false);
    ClosesTouch(flow.accounts, 0, false);
    assert Within(Flat(flow.txs), flow.accounts);
    PartsWithin(flow.txs, flow.accounts);
  }

  lemma {:induction false} PartsWithin(txs: seq<Tx>, accounts: seq<Address>)
    requires Within(Flat(txs), accounts)
    ensures forall k :: 0 <= k < |txs| ==> Within(txs[k], accounts)
  {
    if txs != [] {
      var flat, tail := Flat(txs), Flat(txs[1..]);
      assert forall k :: 0 <= k < |txs[0]| ==> flat[k] == txs[0][k];
      assert forall k :: 0 <= k < |tail| ==> tail[k] == flat[|txs[0]| + k];
      PartsWithin(txs[1..], accounts);
      assert forall k :: 1 <= k < |txs| ==> txs[k] == txs[1..][k - 1];
    }
  }

  // ---- closing ----

  // Closing opens nothing, lands no action, touches nothing else, and what it reports closed is gone.
  ghost predicate OnlyClosed(c: Chain, d: Chain, accounts: seq<Address>, closed: seq<Address>) {
    && d.landed == c.landed && Lamports(d) == Lamports(c)
    && SameOutside(c, d, accounts)
    && (forall a :: a in d.accounts ==> a in c.accounts && d.accounts[a] == c.accounts[a])
    && (forall a :: a in closed ==> a in accounts && a !in d.accounts)
  }

  lemma CloseBatchEffect(w: World, batch: seq<Address>, fates: Fates)
    ensures var (w1, sent) := Send(w, Closes(batch), fates);
            OnlyClosed(w.chain, w1.chain, batch, if sent.Success? then batch else [])
  {
    hide Send, OpenAfter, Locked;
    forall a {
      ClosesTouch(batch, a, a in w.chain.accounts);
    }
    SendTouches(w, Closes(batch), fates, batch);
    SendEffect(w, Closes(batch), fates);
    var fee := fates(w.sends).fee;
    if fee <= w.chain.payer {
      ExecCloses(Charge(w.chain, fee), batch);
    }
  }

  lemma OnlyClosedMore(c: Chain, d: Chain, e: Chain, first: seq<Address>, rest: seq<Address>, closed: seq<Address>,
                       more: seq<Address>)
    requires OnlyClosed(c, d, first, closed) && OnlyClosed(d, e, rest, more)
    ensures OnlyClosed(c, e, first + rest, closed + more)
  {
    hide Locked;
  }

  lemma {:induction false} CloseBatchesEffect(w: World, accounts: seq<Address>, fates: Fates)
    ensures var (w', closed) := CloseBatches(w, accounts, fates); OnlyClosed(w.chain, w'.chain, accounts, closed)
    decreases |accounts|
  {
    hide Send, OnlyClosed;
    if accounts != [] {
      var batch := accounts[..Least(CLOSES_PER_TRANSACTION, |accounts|)];
      var (w1, sent) := Send(w, Closes(batch), fates);
      var (w2, closed) := CloseBatches(w1, accounts[|batch|..], fates);
      CloseBatchEffect(w, batch, fates);
      CloseBatchesEffect(w1, accounts[|batch|..], fates);
      OnlyClosedMore(w.chain, w1.chain, w2.chain, batch, accounts[|batch|..],
                     if sent.Success? then batch else [], closed);
      assert accounts == batch + accounts[|batch|..];
    } else {
      NothingClosed(w.chain);
    }
  }

  lemma NothingClosed(c: Chain)
    ensures OnlyClosed(c, c, [], [])
  {
  }

  lemma OnlyClosedWiden(c: Chain, d: Chain, accounts: seq<Address>, wider: seq<Address>, closed: seq<Address>)
    requires forall a :: a in accounts ==> a in wider
    ensures OnlyClosed(c, d, accounts, closed) ==> OnlyClosed(c, d, wider, closed)
    ensures OnlyClosed(c, c, wider, [])
  {
    hide Locked;
  }

  // No account still open goes unreported, and nothing is reported both closed and open.
  lemma CloseAllEffect(w: World, addresses: seq<Address>, fates: Fates)
    ensures var (w', r) := CloseAll(w, addresses, fates);
            && OnlyClosed(w.chain, w'.chain, addresses, r.closed)
            && (forall a :: a in addresses && a in w'.chain.accounts ==> a in r.leftOpen)
            && (forall a :: a in r.leftOpen ==> a in addresses && a !in r.closed)
  {
    hide Locked, SameOutside, CloseBatches, Without, Existing;
    if addresses != [] && !fates(w.sends).simulated.Unreachable? {
      var w1, existing := w.(sends := w.sends + 1), Existing(w.chain, addresses);
      CloseBatchesEffect(w1, existing, fates);
      var (w2, closed) := CloseBatches(w1, existing, fates);
      OnlyClosedWiden(w.chain, w2.chain, existing, addresses, closed);
    } else {
      OnlyClosedWiden(w.chain, w.chain, [], addresses, []);
    }
  }

  // ---- one flow ----

  function UpTo(n: nat): (s: seq<nat>)
    ensures |s| == n
  {
    seq(n, k => k)
  }

  lemma FlatFrom(txs: seq<Tx>, i: nat)
    requires i < |txs|
    ensures Flat(txs[i..]) == txs[i] + Flat(txs[i + 1..])
  {
    assert txs[i..][1..] == txs[i + 1..];
  }

  lemma {:induction false} NoActs(txs: seq<Tx>, i: nat)
    requires i <= |txs| && Acts(Flat(txs)) <= 1
    ensures Acts(Flat(txs[i..])) <= Acts(Flat(txs))
    ensures ActionIndex(txs) != -1 && i > ActionIndex(txs) ==> Acts(Flat(txs[i..])) == 0
    ensures ActionIndex(txs) == -1 ==> Acts(Flat(txs)) == 0
    decreases |txs|
  {
    if txs == [] {
    } else {
      assert txs[0..] == txs;
      FlatFrom(txs, 0);
      OpenAfterConcat(txs[0], Flat(txs[1..]), 0, false);
      if i > 0 {
        NoActs(txs[1..], i - 1);
        assert txs[1..][i - 1..] == txs[i..];
      } else {
        NoActs(txs[1..], 0);
        assert txs[1..][0..] == txs[1..];
      }
    }
  }

  lemma UpToMore(n: nat)
    ensures UpTo(n) + [n] == UpTo(n + 1)
  {
  }

  lemma NoAct()
    ensures Acts([]) == 0
  {
  }

  // The action lands at most once; exactly once on a normal return if it is planned; never when the
  // error says to try again. The signatures are those of a prefix of the transactions: up to the
  // action at most when it throws, past it when it returns.
  lemma {:induction false} FlowLands(w: World, flow: Flow, i: nat, fates: Fates)
    requires i <= |flow.txs| && Acts(Flat(flow.txs)) <= 1
    requires forall k :: 0 <= k < |flow.txs| ==> Within(flow.txs[k], flow.accounts)
    ensures var (w', end) := RunFrom(w, flow, i, UpTo(i), fates);
            var action := ActionIndex(flow.txs);
            && w.chain.landed <= w'.chain.landed <= w.chain.landed + Acts(Flat(flow.txs[i..]))
            && (end.Returned? ==> w'.chain.landed == w.chain.landed + Acts(Flat(flow.txs[i..])))
            && (end.Threw? && end.retryable ==> w'.chain.landed == w.chain.landed)
            && (end.Threw? ==> action == -1 || i <= action)
            && i <= |end.signatures| <= |flow.txs| && end.signatures == UpTo(|end.signatures|)
            && (end.Threw? ==> action == -1 || |end.signatures| <= action)
            && (end.Returned? ==> |end.signatures| == |flow.txs| || (action != -1 && |end.signatures| > action))
    decreases |flow.txs| - i
  {
    hide Send, OpenAfter, Locked, CloseAll, ActionIndex, SameOutside, Acts, UpTo;
    NoActs(flow.txs, i);
    NoAct();
    if i < |flow.txs| {
      FlatFrom(flow.txs, i);
      OpenAfterConcat(flow.txs[i], Flat(flow.txs[i + 1..]), 0, false);
      var (w1, sent) := Send(w, flow.txs[i], fates);
      SendTouches(w, flow.txs[i], fates, flow.accounts);
      SendEffect(w, flow.txs[i], fates);
      if sent.Success? {
        UpToMore(i);
        FlowLands(w1, flow, i + 1, fates);
      } else {
        CloseAllEffect(w1, flow.accounts, fates);
      }
    }
  }

  // What every end of a flow owes its caller: each proof account of the flow that is still open is
  // reported, a closed one is closed, and nothing is both; no other account is touched and no
  // lamport is lost.
  ghost predicate Accounted(c: Chain, d: Chain, flow: Flow, end: FlowEnd) {
    && SameOutside(c, d, flow.accounts) && Lamports(d) == Lamports(c)
    && (forall a :: a in flow.accounts && a in d.accounts ==> a in end.leftOpen)
    && (forall a :: a in end.leftOpen ==> a in flow.accounts)
    && (end.Threw? ==> forall a :: a in end.closed ==> a !in d.accounts && a !in end.leftOpen)
  }

  lemma {:induction false} FlowAccounts(w: World, flow: Flow, i: nat, signatures: seq<nat>, fates: Fates)
    requires i <= |flow.txs|
    requires forall k :: 0 <= k < |flow.txs| ==> Within(flow.txs[k], flow.accounts)
    requires forall a :: a in flow.accounts ==> !OpenAfter(Flat(flow.txs[i..]), a, a in w.chain.accounts)
    ensures var (w', end) := RunFrom(w, flow, i, signatures, fates); Accounted(w.chain, w'.chain, flow, end)
    decreases |flow.txs| - i
  {
    hide Send, Locked, CloseAll, OpenAfter, ActionIndex;
    if i < |flow.txs| {
      var (w1, sent) := Send(w, flow.txs[i], fates);
      SendTouches(w, flow.txs[i], fates, flow.accounts);
      SendEffect(w, flow.txs[i], fates);
      if sent.Success? {
        FlatFrom(flow.txs, i);
        forall a | a in flow.accounts
          ensures !OpenAfter(Flat(flow.txs[i + 1..]), a, a in w1.chain.accounts)
        {
          OpenAfterConcat(flow.txs[i], Flat(flow.txs[i + 1..]), a, a in w.chain.accounts);
        }
        FlowAccounts(w1, flow, i + 1, signatures + [i], fates);
      } else {
        CloseAllEffect(w1, flow.accounts, fates);
      }
    } else {
      assert flow.txs[i..] == [];
      forall a {
        OpenAfterNothing(a, a in w.chain.accounts);
      }
    }
  }

  lemma OpenAfterNothing(a: Address, open: bool)
    ensures OpenAfter([], a, open) == open
  {
  }

  ghost predicate Fresh(c: Chain, flow: Flow) {
    forall a :: a in flow.accounts ==> a !in c.accounts
  }

  // A flow on new accounts: accounted for at every end, and with nothing left open all its rent is
  // back with the payer, who paid nothing but fees.
  lemma FlowRent(w: World, flow: Flow, fates: Fates)
    requires WellPlanned(flow) && Fresh(w.chain, flow)
    ensures var (w', end) := RunFrom(w, flow, 0, [], fates);
            && Accounted(w.chain, w'.chain, flow, end)
            && (end.leftOpen == [] ==>
                  && w'.chain.accounts == w.chain.accounts
                  && w'.chain.payer + w'.chain.fees == w.chain.payer + w.chain.fees)
  {
    hide RunFrom, Locked;
    assert flow.txs[0..] == flow.txs;
    FlowAccounts(w, flow, 0, [], fates);
    var (w', end) := RunFrom(w, flow, 0, [], fates);
    if end.leftOpen == [] {
      assert forall a :: a in w'.chain.accounts <==> a in w.chain.accounts;
      assert w'.chain.accounts.Keys == w.chain.accounts.Keys;
      assert w'.chain.accounts == w.chain.accounts;
    }
  }

  // ---- retries ----

  lemma FlowLandsWhole(w: World, flow: Flow, fates: Fates)
    requires WellPlanned(flow)
    ensures var (w', end) := RunFrom(w, flow, 0, [], fates);
            && w.chain.landed <= w'.chain.landed <= w.chain.landed + Acts(Flat(flow.txs)) <= w.chain.landed + 1
            && (end.Returned? ==> w'.chain.landed == w.chain.landed + Acts(Flat(flow.txs)))
            && (end.Threw? && end.retryable ==> w'.chain.landed == w.chain.landed)
  {
    hide RunFrom, OpenAfter;
    assert flow.txs[0..] == flow.txs && UpTo(0) == [];
    FlowLands(w, flow, 0, fates);
  }

  ghost predicate AllPlanned(attempts: nat -> Attempt) {
    forall k :: attempts(k).Prepared? ==> WellPlanned(attempts(k).flow)
  }

  // Over any number of attempts the action lands at most once: exactly once when the run returns and
  // its last attempt plans the action, and not at all when it ends with a retryable error or before
  // anything was sent.
  lemma {:induction false} RetriesLandOnce(w: World, attempts: nat -> Attempt, n: nat, retries: nat, fates: Fates)
    requires n <= retries
    requires AllPlanned(attempts)
    ensures var (w', outcome, tries) := RetryFrom(w, attempts, n, retries, fates);
            && w'.chain.landed <= w.chain.landed + 1
            && (outcome.NotPrepared? ==> w'.chain.landed == w.chain.landed)
            && (outcome.Ended? ==>
                  && attempts(tries - 1).Prepared?
                  && (outcome.end.Returned? ==>
                      w'.chain.landed == w.chain.landed + Acts(Flat(attempts(tries - 1).flow.txs)))
                  && (outcome.end.Threw? && outcome.end.retryable ==>
                      tries == retries + 1 && w'.chain.landed == w.chain.landed))
    decreases retries - n
  {
    hide RunFrom, WellPlanned, Flat, Acts;
    if attempts(n).Prepared? {
      var flow := attempts(n).flow;
      FlowLandsWhole(w, flow, fates);
      var (w1, end) := RunFrom(w, flow, 0, [], fates);
      if end.Threw? && end.retryable && n < retries {
        RetriesLandOnce(w1, attempts, n + 1, retries, fates);
      }
    }
  }

  // What the attempts from `n` on reported open, all together. The caller gets the last report only.
  function ReportedOpen(w: World, attempts: nat -> Attempt, n: nat, retries: nat, fates: Fates): seq<Address>
    requires n <= retries
    decreases retries - n
  {
    if attempts(n).Unprepared? then []
    else
      var (w1, end) := RunFrom(w, attempts(n).flow, 0, [], fates);
      end.leftOpen +
      if end.Threw? && end.retryable && n < retries then ReportedOpen(w1, attempts, n + 1, retries, fates) else []
  }

  // Every attempt draws new addresses for its proof accounts.
  ghost predicate NewAddresses(c: Chain, attempts: nat -> Attempt, n: nat) {
    && (forall k, a :: k >= n && attempts(k).Prepared? && a in attempts(k).flow.accounts ==> a !in c.accounts)
    && (forall k, m, a :: n <= k < m && attempts(k).Prepared? && attempts(m).Prepared? && a in attempts(k).flow.accounts
          ==> a !in attempts(m).flow.accounts)
  }

  // Over all attempts no lamport is lost, and what the run left open was reported by some attempt.
  lemma {:induction false} RetriesAccount(w: World, attempts: nat -> Attempt, n: nat, retries: nat, fates: Fates)
    requires n <= retries && NewAddresses(w.chain, attempts, n)
    requires AllPlanned(attempts)
    ensures var w' := RetryFrom(w, attempts, n, retries, fates).0;
            && Lamports(w'.chain) == Lamports(w.chain)
            && forall a :: a in w'.chain.accounts ==>
                 a in w.chain.accounts || a in ReportedOpen(w, attempts, n, retries, fates)
    decreases retries - n
  {
    hide RunFrom, OpenAfter, Locked;
    if attempts(n).Prepared? {
      var flow := attempts(n).flow;
      FlowRent(w, flow, fates);
      var (w1, end) := RunFrom(w, flow, 0, [], fates);
      if end.Threw? && end.retryable && n < retries {
        assert NewAddresses(w1.chain, attempts, n + 1);
        RetriesAccount(w1, attempts, n + 1, retries, fates);
      }
    }
  }

  // Every attempt that is run again closed what it had created.
  ghost predicate RetriedClean(w: World, attempts: nat -> Attempt, n: nat, retries: nat, fates: Fates)
    requires n <= retries
    decreases retries - n
  {
    attempts(n).Prepared? ==>
      var (w1, end) := RunFrom(w, attempts(n).flow, 0, [], fates);
      end.Threw? && end.retryable && n < retries ==>
        && w1.chain.accounts.Keys <= w.chain.accounts.Keys
        && RetriedClean(w1, attempts, n + 1, retries, fates)
  }

  // A flow leaves the older accounts alone, and what it leaves of its own it reports.
  lemma FlowLeaves(w: World, flow: Flow, fates: Fates)
    requires WellPlanned(flow) && Fresh(w.chain, flow)
    ensures var (w', end) := RunFrom(w, flow, 0, [], fates);
            && w.chain.accounts.Keys <= w'.chain.accounts.Keys
            && (forall a :: a in w'.chain.accounts ==> a in w.chain.accounts || a in end.leftOpen)
            && (forall a :: a in end.leftOpen ==> a in flow.accounts)
  {
    hide RunFrom, Locked, WellPlanned;
    FlowRent(w, flow, fates);
  }

  // The report the caller gets names every account the run left open.
  ghost predicate Complete(w: World, attempts: nat -> Attempt, n: nat, retries: nat, fates: Fates)
    requires n <= retries
  {
    var (w', outcome, _) := RetryFrom(w, attempts, n, retries, fates);
    forall a :: a in w'.chain.accounts && a !in w.chain.accounts ==> a in LastReport(outcome)
  }

  function LastReport(outcome: Outcome): seq<Address> {
    if outcome.Ended? then outcome.end.leftOpen else []
  }

  // A retry discards the report of the attempt before it: what such an attempt left open stays open
  // and is not in the final report. So the final report is complete exactly when none did.
  lemma {:induction false} FinalReport(w: World, attempts: nat -> Attempt, n: nat, retries: nat, fates: Fates)
    requires n <= retries && NewAddresses(w.chain, attempts, n)
    requires AllPlanned(attempts)
    ensures var (w', outcome, tries) := RetryFrom(w, attempts, n, retries, fates);
            && (forall a :: a in w.chain.accounts ==> a in w'.chain.accounts)
            && (forall a :: a in LastReport(outcome) ==>
                  attempts(tries - 1).Prepared? && a in attempts(tries - 1).flow.accounts)
    ensures Complete(w, attempts, n, retries, fates) <==> RetriedClean(w, attempts, n, retries, fates)
    decreases retries - n
  {
    hide RunFrom, WellPlanned;
    if attempts(n).Prepared? {
      var flow := attempts(n).flow;
      FlowLeaves(w, flow, fates);
      var (w1, end) := RunFrom(w, flow, 0, [], fates);
      if end.Threw? && end.retryable && n < retries {
        assert NewAddresses(w1.chain, attempts, n + 1);
        FinalReport(w1, attempts, n + 1, retries, fates);
        assert RetryFrom(w, attempts, n, retries, fates) == RetryFrom(w1, attempts, n + 1, retries, fates);
      }
    }
  }

  // For the caller: the final report is sure to be complete, whatever is planned and whatever becomes
  // of the sends, exactly when no retry was asked for.
  lemma CompleteWithoutRetries(retries: Option<int>)
    ensures (forall w: World, attempts, fates :: NewAddresses(w.chain, attempts, 0) && AllPlanned(attempts) ==>
               Complete(w, attempts, 0, MostRetries(retries), fates))
       <==> retries.None? || retries.value <= 0
  {
    hide RunFrom, NewAddresses, AllPlanned, Complete;
    if retries.Some? && retries.value > 0 {
      LostReport(retries.value);
      assert MostRetries(retries) == retries.value;
      var w := World(Chain(map[], 5, 0, 0), 0);
      assert NewAddresses(w.chain, OnceThenNothing(), 0) && AllPlanned(OnceThenNothing());
      assert !Complete(w, OnceThenNothing(), 0, MostRetries(retries), LosingFates());
    } else {
      forall w: World, attempts, fates | NewAddresses(w.chain, attempts, 0) && AllPlanned(attempts)
        ensures Complete(w, attempts, 0, 0, fates)
      {
        FinalReport(w, attempts, 0, 0, fates);
      }
    }
  }

  // With retries there is always such a run: the first attempt expires after creating its proof
  // account and cannot read it back; the second finds what it needs missing and throws before
  // sending anything.
  lemma LostReport(retries: nat)
    requires retries > 0
    ensures var w := World(Chain(map[], 5, 0, 0), 0);
            var (w', outcome, tries) := RetryFrom(w, OnceThenNothing(), 0, retries, LosingFates());
            && NewAddresses(w.chain, OnceThenNothing(), 0) && AllPlanned(OnceThenNothing())
            && outcome.NotPrepared? && tries == 2 && 0 in w'.chain.accounts && w'.chain.payer == 0
            && !Complete(w, OnceThenNothing(), 0, retries, LosingFates())
  {
    hide RunFrom, WellPlanned;
    OneProofExpires();
    OneProofPlanned();
  }

  lemma OneProofPlanned()
    ensures WellPlanned(OneProof())
  {
    hide WellPlanned;
    var txs := OneProof().txs;
    var setup := [Create(0, 5), Verify(0)];
    assert txs[1..][1..] == [[Close(0)]] && [[Close(0)]][1..] == [];
    assert Flat([[Close(0)]]) == [Close(0)] + Flat([]);
    assert Flat(txs[1..]) == [Act([0])] + Flat([[Close(0)]]);
    assert Closes([0]) == [Close(0)];
    assert setup[1..] == [Verify(0)] && [Verify(0)][1..] == [];
    assert Acts([Verify(0)]) == 0;
    OrderedPlan(OneProof(), setup, [0]);
  }

  lemma OneProofCreates()
    ensures Exec(Chain(map[], 5, 0, 0), OneProof().txs[0]) == Some(Chain(map[0 := ProofAccount(5, true)], 0, 0, 0))
  {
    var c1 := Chain(map[0 := ProofAccount(5, false)], 0, 0, 0);
    var c2 := Chain(map[0 := ProofAccount(5, true)], 0, 0, 0);
    var tx := OneProof().txs[0];
    assert tx[1..] == [Verify(0)] && [Verify(0)][1..] == [];
    assert c1.accounts[0 := ProofAccount(5, true)] == c2.accounts;
    assert Exec(c1, [Verify(0)]) == Exec(c2, []);
  }

  lemma OneProofActs()
    ensures ActionIndex(OneProof().txs) == 1
  {
    var txs := OneProof().txs;
    assert txs[0][1..] == [Verify(0)] && [Verify(0)][1..] == [];
    assert Acts([Verify(0)]) == 0;
    assert Acts(txs[1]) == 1;
    assert txs[1..][0] == txs[1];
  }

  lemma OneProofExpires()
    ensures RunFrom(World(Chain(map[], 5, 0, 0), 0), OneProof(), 0, [], LosingFates())
         == (World(Chain(map[0 := ProofAccount(5, true)], 0, 0, 0), 3), Threw(true, [0], [], [0]))
  {
    hide Exec, ActionIndex;
    var flow, fates := OneProof(), LosingFates();
    var c2 := Chain(map[0 := ProofAccount(5, true)], 0, 0, 0);
    var w, w1, w2 := World(Chain(map[], 5, 0, 0), 0), World(c2, 1), World(c2, 2);
    OneProofCreates();
    OneProofActs();
    assert Send(w, flow.txs[0], fates) == (w1, Success);
    assert Send(w1, flow.txs[1], fates) == (w2, Expired);
    assert RunFrom(w1, flow, 1, [0], fates) == (World(c2, 3), Threw(true, [0], [], [0]));
    assert [] + [0] == [0];
  }

  // A flow with a single proof: create and verify, act, close.
  function OneProof(): Flow {
    Flow([[Create(0, 5), Verify(0)], [Act([0])], [Close(0)]], [0])
  }

  function OnceThenNothing(): nat -> Attempt {
    k => if k == 0 then Prepared(OneProof()) else Unprepared
  }

  function LosingFates(): Fates {
    k => if k == 1 then Fate(Passes, BlockHeightExceeded, 0) else if k == 2 then Fate(Unreachable, Confirms, 0)
         else Fate(Passes, Confirms, 0)
  }

  // ---- recovering abandoned proof accounts ----

  // Rent of those found that are no longer open.
  function GoneRent(found: seq<Found>, open: map<Address, ProofAccount>): nat {
    if found == [] then 0
    else (if found[0].address in open then 0 else found[0].lamports) + GoneRent(found[1..], open)
  }

  lemma {:induction false} LockedGone(before: map<Address, ProofAccount>, after: map<Address, ProofAccount>,
                                      found: seq<Found>)
    requires forall a :: a in after ==> a in before && before[a] == after[a]
    requires forall a :: a in before && a !in after ==> exists k :: 0 <= k < |found| && found[k].address == a
    requires forall i, j :: 0 <= i < j < |found| ==> found[i].address != found[j].address
    requires forall k :: 0 <= k < |found| ==>
        found[k].address in before && before[found[k].address].rent == found[k].lamports
    ensures Locked(before) == Locked(after) + GoneRent(found, after)
    decreases |found|
  {
    if found == [] {
      assert before.Keys == after.Keys;
      assert before == after;
    } else {
      var f, rest := found[0], found[1..];
      var before' := if f.address in after then before else before - {f.address};
      forall a | a in before' && a !in after
        ensures exists k :: 0 <= k < |rest| && rest[k].address == a
      {
        var k :| 0 <= k < |found| && found[k].address == a;
        assert rest[k - 1].address == a;
      }
      LockedTake(before, f.address);
      LockedGone(before', after, rest);
    }
  }

  lemma {:induction false} LamportsBelowGone(found: seq<Found>, closed: seq<Address>, open: map<Address, ProofAccount>)
    requires forall a :: a in closed ==> a !in open
    ensures LamportsOf(found, closed) <= GoneRent(found, open)
    ensures LamportsOf(found, closed) == GoneRent(found, open) <==>
              forall k :: 0 <= k < |found| && found[k].address !in closed && found[k].lamports > 0 ==>
                  found[k].address in open
    decreases found
  {
    if found != [] {
      LamportsBelowGone(found[1..], closed, open);
      assert forall k :: 1 <= k < |found| ==> found[k] == found[1..][k - 1];
    }
  }

  // The payer gets back, on top of fees, the rent of every found account that is gone. The reported
  // lamports never exceed that, and are exactly that unless a close that was reported as failed
  // took effect after all.
  lemma RecoveredExactly(w: World, found: seq<Found>, fates: Fates)
    requires forall i, j :: 0 <= i < j < |found| ==> found[i].address != found[j].address
    requires forall k :: 0 <= k < |found| ==>
               found[k].address in w.chain.accounts && w.chain.accounts[found[k].address].rent == found[k].lamports
    ensures var (w', r) := Recover(w, found, fates);
            var back := (w'.chain.payer + w'.chain.fees) - (w.chain.payer + w.chain.fees);
            && r.lamports <= back
            && (r.lamports == back <==>
                  forall k :: 0 <= k < |found| && found[k].address in r.closing.leftOpen && found[k].lamports > 0
                    ==> found[k].address in w'.chain.accounts)
            && (forall k :: 0 <= k < |found| ==>
                found[k].address in r.closing.closed || found[k].address in r.closing.leftOpen)
  {
    hide CloseAll, Locked;
    var addresses := Addresses(found);
    CloseAllEffect(w, addresses, fates);
    var (w', r) := Recover(w, found, fates);
    forall k | 0 <= k < |found|
      ensures found[k].address in r.closing.closed || found[k].address in r.closing.leftOpen
    {
      assert addresses[k] == found[k].address;
      AllAnswered(w, addresses, fates, found[k].address);
    }
    forall a | a in w.chain.accounts && a !in w'.chain.accounts
      ensures exists k :: 0 <= k < |found| && found[k].address == a
    {
      assert a in addresses;
      var k :| 0 <= k < |addresses| && addresses[k] == a;
      assert found[k].address == a;
    }
    LockedGone(w.chain.accounts, w'.chain.accounts, found);
    LamportsBelowGone(found, r.closing.closed, w'.chain.accounts);
  }

  lemma AllAnswered(w: World, addresses: seq<Address>, fates: Fates, a: Address)
    requires a in addresses && a in w.chain.accounts
    ensures var r := CloseAll(w, addresses, fates).1; a in r.closed || a in r.leftOpen
  {
    hide CloseBatches;
  }
}
