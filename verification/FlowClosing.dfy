// What a TypeScript flow does when one of its sends fails: it closes the flow's proof accounts.
module FlowClosing {
  import opened Cluster
  import opened ProofFlow
  import opened ProofFlowSafety
  import opened ClosingRefinement

  // The world after the first `n` sends, and whether all of them succeeded.
  function SendAll(w: World, txs: seq<Tx>, n: nat, fates: Fates): World
    requires n <= |txs|
  {
    if n == 0 then w else Send(SendAll(w, txs, n - 1, fates), txs[n - 1], fates).0
  }

  predicate AllSucceed(w: World, txs: seq<Tx>, n: nat, fates: Fates)
    requires n <= |txs|
  {
    forall k :: 0 <= k < n ==> Send(SendAll(w, txs, k, fates), txs[k], fates).1.Success?
  }

  // Send `i` is the first to fail.
  predicate FailsAt(w: World, txs: seq<Tx>, i: nat, fates: Fates) {
    i < |txs| && AllSucceed(w, txs, i, fates) && !Send(SendAll(w, txs, i, fates), txs[i], fates).1.Success?
  }

  lemma {:induction false} RunReaches(w: World, flow: Flow, i: nat, fates: Fates)
    requires i <= |flow.txs| && AllSucceed(w, flow.txs, i, fates)
    ensures RunFrom(w, flow, 0, [], fates) == RunFrom(SendAll(w, flow.txs, i, fates), flow, i, UpTo(i), fates)
  {
    hide Send, CloseAll, ActionIndex;
    if i == 0 {
      assert UpTo(0) == [];
    } else {
      RunReaches(w, flow, i - 1, fates);
      assert Send(SendAll(w, flow.txs, i - 1, fates), flow.txs[i - 1], fates).1.Success?;
      UpToMore(i - 1);
    }
  }

  // When every send succeeds the flow returns all its signatures and leaves nothing open.
  lemma AllSent(w: World, flow: Flow, fates: Fates)
    requires AllSucceed(w, flow.txs, |flow.txs|, fates)
    ensures RunFrom(w, flow, 0, [], fates)
         == (SendAll(w, flow.txs, |flow.txs|, fates), Returned(UpTo(|flow.txs|), []))
  {
    RunReaches(w, flow, |flow.txs|, fates);
  }

  // The end of a flow, told by the send that failed: past the action it is a return; otherwise an
  // error, to be tried again exactly when that send expired. The signatures are those of the sends
  // before it.
  lemma FailureTells(w: World, flow: Flow, i: nat, fates: Fates)
    requires FailsAt(w, flow.txs, i, fates) && Acts(Flat(flow.txs)) <= 1
    ensures var (_, end) := RunFrom(w, flow, 0, [], fates);
            && end.signatures == UpTo(i)
            && (end.Returned? <==> exists k :: 0 <= k < i && Acts(flow.txs[k]) > 0)
            && (end.Threw? ==>
                  (end.retryable <==>
                     && var fate := fates(SendAll(w, flow.txs, i, fates).sends);
                        fate.simulated.Passes? && fate.confirmed.BlockHeightExceeded?))
  {
    hide CloseAll, ActionIndex, SendAll;
    RunReaches(w, flow, i, fates);
    var before := SendAll(w, flow.txs, i, fates);
    OutcomeMeans(before, flow.txs[i], fates);
    FirstAction(flow.txs, i);
  }

  lemma FirstAction(txs: seq<Tx>, i: nat)
    requires i <= |txs|
    ensures ActionIndex(txs) != -1 && i > ActionIndex(txs) <==> exists k :: 0 <= k < i && Acts(txs[k]) > 0
  {
  }

  // What the flow's closing finds: the chain after the failed send.
  function Stopped(w: World, flow: Flow, i: nat, fates: Fates): World
    requires i < |flow.txs|
  {
    Send(SendAll(w, flow.txs, i, fates), flow.txs[i], fates).0
  }

  // Whichever send fails: if the requests after it are fair, the wholly closable batches of the
  // flow's accounts are closed, and exactly the other accounts that exist are left open.
  lemma FailureCloses(w: World, flow: Flow, i: nat, fates: Fates)
    requires FailsAt(w, flow.txs, i, fates) && Distinct(flow.accounts)
    requires FairAll(Stopped(w, flow, i, fates), flow.accounts, fates)
    ensures var (w', end) := RunFrom(w, flow, 0, [], fates);
            var c := Stopped(w, flow, i, fates).chain;
            var whole := WholeBatches(c, Existing(c, flow.accounts));
            && (forall a :: a in w'.chain.accounts <==> a in c.accounts && a !in whole)
            && (forall a :: a in end.leftOpen <==> a in flow.accounts && a in c.accounts && a !in whole)
            && (end.Threw? ==> end.closed == whole)
  {
    hide Send, SendAll, Closable, FairBatches, WholeBatches, CloseBatches, Existing, Without, Distinct, ActionIndex;
    RunReaches(w, flow, i, fates);
    var w1 := Stopped(w, flow, i, fates);
    var existing := Existing(w1.chain, flow.accounts);
    ExistingDistinct(w1.chain, flow.accounts);
    BatchesClose(w1.(sends := w1.sends + 1), existing, fates);
    if flow.accounts == [] {
      NothingToClose(w1.chain, flow.accounts);
    }
  }

  // With all of the flow's accounts that exist verified, nothing of it is left open.
  lemma FailureClosesAll(w: World, flow: Flow, i: nat, fates: Fates)
    requires FailsAt(w, flow.txs, i, fates) && Distinct(flow.accounts)
    requires FairAll(Stopped(w, flow, i, fates), flow.accounts, fates)
    requires AllVerified(Stopped(w, flow, i, fates).chain, flow.accounts)
    ensures var (w', end) := RunFrom(w, flow, 0, [], fates);
            end.leftOpen == [] && forall a :: a in flow.accounts ==> a !in w'.chain.accounts
  {
    hide SendAll, Send, FairAll, WholeBatches, Existing, RunFrom;
    FailureCloses(w, flow, i, fates);
    var c := Stopped(w, flow, i, fates).chain;
    var existing := Existing(c, flow.accounts);
    WholeOfClosable(c, existing);
    var end := RunFrom(w, flow, 0, [], fates).1;
    FirstIsMember(end.leftOpen);
  }

  lemma FirstIsMember(s: seq<Address>)
    ensures s != [] ==> s[0] in s
  {
  }

  // Those of the accounts that exist are verified.
  predicate AllVerified(c: Chain, accounts: seq<Address>) {
    forall a :: a in accounts && a in c.accounts ==> c.accounts[a].verified
  }

  lemma {:induction false} WholeOfClosable(c: Chain, accounts: seq<Address>)
    requires forall a :: a in accounts ==> Closable(c, a)
    ensures WholeBatches(c, accounts) == accounts
    decreases |accounts|
  {
    if accounts != [] {
      var batch := accounts[..Least(CLOSES_PER_TRANSACTION, |accounts|)];
      assert accounts == batch + accounts[|batch|..];
      WholeOfClosable(c, accounts[|batch|..]);
    }
  }

  // ---- over all attempts ----

  // If a send of the flow fails, the requests after it are fair and its accounts are verified.
  ghost predicate Cleanable(w: World, flow: Flow, fates: Fates) {
    && Distinct(flow.accounts)
    && forall i :: 0 <= i < |flow.txs| && FailsAt(w, flow.txs, i, fates) ==>
         && FairAll(Stopped(w, flow, i, fates), flow.accounts, fates)
         && AllVerified(Stopped(w, flow, i, fates).chain, flow.accounts)
  }

  lemma FlowCloses(w: World, flow: Flow, fates: Fates)
    requires WellPlanned(flow) && Fresh(w.chain, flow) && Cleanable(w, flow, fates)
    ensures var (w', end) := RunFrom(w, flow, 0, [], fates);
            && end.leftOpen == [] && w'.chain.accounts == w.chain.accounts
            && w'.chain.payer + w'.chain.fees == w.chain.payer + w.chain.fees
  {
    hide RunFrom, WellPlanned, Send, SendAll, FairAll, AllVerified;
    FlowRent(w, flow, fates);
    if i: nat :| i < |flow.txs| && FailsAt(w, flow.txs, i, fates) {
      FailureClosesAll(w, flow, i, fates);
    } else {
      NoFailure(w, flow.txs, |flow.txs|, fates);
      AllSent(w, flow, fates);
    }
  }

  lemma {:induction false} NoFailure(w: World, txs: seq<Tx>, n: nat, fates: Fates)
    requires n <= |txs| && forall i: nat :: i < |txs| ==> !FailsAt(w, txs, i, fates)
    ensures AllSucceed(w, txs, n, fates)
  {
    hide Send, SendAll;
    if n > 0 {
      NoFailure(w, txs, n - 1, fates);
      assert !FailsAt(w, txs, n - 1, fates);
    }
  }

  // The same of every attempt that is made.
  ghost predicate AllCleanable(w: World, attempts: nat -> Attempt, n: nat, retries: nat, fates: Fates)
    requires n <= retries
    decreases retries - n
  {
    attempts(n).Prepared? ==>
      && Cleanable(w, attempts(n).flow, fates)
      && var (w1, end) := RunFrom(w, attempts(n).flow, 0, [], fates);
         end.Threw? && end.retryable && n < retries ==> AllCleanable(w1, attempts, n + 1, retries, fates)
  }

  // However often the flow is run again, and however it ends, all its proof accounts are closed, and
  // the payer paid nothing but fees.
  lemma {:induction false} RetriesClose(w: World, attempts: nat -> Attempt, n: nat, retries: nat, fates: Fates)
    requires n <= retries && NewAddresses(w.chain, attempts, n) && AllPlanned(attempts)
    requires AllCleanable(w, attempts, n, retries, fates)
    ensures var (w', outcome, _) := RetryFrom(w, attempts, n, retries, fates);
            && LastReport(outcome) == [] && w'.chain.accounts == w.chain.accounts
            && w'.chain.payer + w'.chain.fees == w.chain.payer + w.chain.fees
    decreases retries - n
  {
    hide RunFrom, WellPlanned, Cleanable;
    if attempts(n).Prepared? {
      var flow := attempts(n).flow;
      FlowCloses(w, flow, fates);
      var (w1, end) := RunFrom(w, flow, 0, [], fates);
      if end.Threw? && end.retryable && n < retries {
        assert NewAddresses(w1.chain, attempts, n + 1);
        RetriesClose(w1, attempts, n + 1, retries, fates);
      }
    }
  }

  // ---- the requests made ----

  lemma {:induction false} BatchesSend(w: World, accounts: seq<Address>, fates: Fates)
    ensures CloseBatches(w, accounts, fates).0.sends == w.sends + (|accounts| + 7) / 8
    decreases |accounts|
  {
    hide Closes, SendOnce;
    if accounts != [] {
      var batch := accounts[..Least(CLOSES_PER_TRANSACTION, |accounts|)];
      BatchesSend(Send(w, Closes(batch), fates).0, accounts[|batch|..], fates);
    }
  }

  // Closing reads the accounts once, and then sends one transaction for every eight that exist,
  // each of which is reported once as closed or as left open; when the read fails, it sends nothing
  // and reports all it was given.
  lemma ClosingRequests(w: World, addresses: seq<Address>, fates: Fates)
    requires addresses != []
    ensures var (w', r) := CloseAll(w, addresses, fates);
            var existing := Existing(w.chain, addresses);
            if fates(w.sends).simulated.Unreachable?
            then w' == World(w.chain, w.sends + 1) && r == Closing([], addresses)
            else
              && w'.sends == w.sends + 1 + (|existing| + 7) / 8
              && (forall a :: a in r.leftOpen <==> a in addresses && a in w.chain.accounts && a !in r.closed)
  {
    hide CloseBatches, Existing, Without;
    BatchesSend(w.(sends := w.sends + 1), Existing(w.chain, addresses), fates);
  }
}
