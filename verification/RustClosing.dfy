// What a Rust transfer or withdraw leaves open when nothing is lost on the way, and when it succeeds.
module RustClosing {
  import opened Wrappers
  import opened Cluster
  import opened ProofFlow
  import opened RustProofs
  import opened RustSafety
  import opened ClosingRefinement

  // ---- closing ----

  // Wherever the operation closes proof accounts, those sends are fair.
  ghost predicate FairClosing(w: World, requests: seq<Request>, assembly: Assembly, fits: bool, maxRetries: nat,
                              fates: Fates)
  {
    var (w1, setup, ok) := CreateAccounts(w, Setup([], [], []), requests, maxRetries, fates);
    if !ok then FairAccounts(w1, setup.verified, maxRetries, fates)
    else FairFinish(w1, setup.verified, assembly, fits, maxRetries, fates)
  }

  ghost predicate FairFinish(w1: World, proofs: seq<Address>, assembly: Assembly, fits: bool, maxRetries: nat,
                             fates: Fates)
  {
    match assembly
    case NoInstruction => true
    case NoHookAccounts => FairAccounts(w1, proofs, maxRetries, fates)
    case Assembled =>
      var (w2, sent) := SendAgain(w1, ActionTx(proofs, fits), 0, maxRetries, fates);
      (sent && fits) || FairAccounts(w2, proofs, maxRetries, fates)
  }

  // Closing closes what is closable, in order, and reports the rest.
  lemma VerifiedClose(w: World, accounts: seq<Address>, maxRetries: nat, fates: Fates)
    requires FairAccounts(w, accounts, maxRetries, fates) && Distinct(accounts)
    requires forall a :: a in accounts ==> Closable(w.chain, a)
    ensures var (w', r) := CloseAccounts(w, accounts, maxRetries, fates);
            && r.closed == accounts && r.leftOpen == []
            && |r.signatures| == r.calls == (|accounts| + 7) / 8
            && forall a :: a in w'.chain.accounts <==> a in w.chain.accounts && a !in accounts
  {
    hide CloseAccounts, FairAccounts, Closable, ClosableOf, UnclosableOf, Distinct;
    RustClosesClosable(w, accounts, maxRetries, fates);
    OfWhole(w.chain, accounts);
    VerifiedCalls(w, accounts, maxRetries, fates);
  }

  // One transaction for every eight accounts.
  lemma {:induction false} VerifiedCalls(w: World, accounts: seq<Address>, maxRetries: nat, fates: Fates)
    requires FairAccounts(w, accounts, maxRetries, fates) && Distinct(accounts)
    requires forall a :: a in accounts ==> Closable(w.chain, a)
    ensures var r := CloseAccounts(w, accounts, maxRetries, fates).1; |r.signatures| == r.calls == (|accounts| + 7) / 8
    decreases |accounts|
  {
    hide Closable, Distinct, SendAgain, FairAgain, CloseEach, FairEach, Less;
    if accounts != [] {
      var batch := accounts[..Least(CLOSES_PER_TRANSACTION, |accounts|)];
      var rest := accounts[|batch|..];
      DistinctParts(accounts, |batch|);
      FairCloseAgain(w, batch, 0, maxRetries, fates);
      var (w1, ok) := SendAgain(w, Closes(batch), 0, maxRetries, fates);
      LessKeeps(w.chain, w1.chain, batch, rest);
      VerifiedCalls(w1, rest, maxRetries, fates);
    }
  }

  lemma AbsentClose(w: World, accounts: seq<Address>, maxRetries: nat, fates: Fates)
    requires forall a :: a in accounts ==> a !in w.chain.accounts
    ensures var w' := CloseAccounts(w, accounts, maxRetries, fates).0;
            forall a :: a in accounts ==> a !in w'.chain.accounts
  {
    hide CloseAccounts, Answered;
    CloseAccountsAnswers(w, accounts, maxRetries, fates);
    var (w', r) := CloseAccounts(w, accounts, maxRetries, fates);
    AnsweredMeans(w.chain, w'.chain, accounts, r);
  }

  // Once the proofs are verified, every end but the missing instruction closes all of them: with the
  // action, after it, or on giving up. A failed operation also reports them closed, unless the action
  // took effect unseen and closed them itself.
  lemma FinishCloses(w1: World, proofs: seq<Address>, earlier: seq<nat>, assembly: Assembly, fits: bool,
                     maxRetries: nat, fates: Fates)
    requires FairFinish(w1, proofs, assembly, fits, maxRetries, fates) && Distinct(proofs)
    requires forall a :: a in proofs ==> Closable(w1.chain, a)
    ensures var (w', end) := Finish(w1, proofs, earlier, assembly, fits, maxRetries, fates);
            && (end.Unbuilt? <==> assembly.NoInstruction?)
            && (!end.Unbuilt? ==> forall a :: a in proofs ==> a !in w'.chain.accounts)
            && (end.Done? && !fits ==> |end.signatures| == |earlier| + 1 + (|proofs| + 7) / 8)
            && (end.Abandoned? && w'.chain.landed == w1.chain.landed ==>
                  end.cleanup.closed == proofs && end.cleanup.leftOpen == [])
  {
    hide CloseAccounts, FairAccounts, SendAgain, Closable, Distinct, ActionTx, OpenAfter, TookEffect, Answered;
    if assembly.NoHookAccounts? {
      VerifiedClose(w1, proofs, maxRetries, fates);
    } else if assembly.Assembled? {
      ActionOpens(proofs, fits);
      SendAgainTouches(w1, ActionTx(proofs, fits), maxRetries, fates, proofs);
      var (w2, sent) := SendAgain(w1, ActionTx(proofs, fits), 0, maxRetries, fates);
      if fits && w2.chain.landed > w1.chain.landed {
        AbsentClose(w2, proofs, maxRetries, fates);
        CloseAccountsAnswers(w2, proofs, maxRetries, fates);
        AnsweredMeans(w2.chain, CloseAccounts(w2, proofs, maxRetries, fates).0.chain, proofs,
                      CloseAccounts(w2, proofs, maxRetries, fates).1);
      } else {
        ActionKeeps(w1, proofs, fits, maxRetries, fates);
        VerifiedClose(w2, proofs, maxRetries, fates);
        CloseAccountsAnswers(w2, proofs, maxRetries, fates);
        AnsweredMeans(w2.chain, CloseAccounts(w2, proofs, maxRetries, fates).0.chain, proofs,
                      CloseAccounts(w2, proofs, maxRetries, fates).1);
      }
    }
  }

  // Sending the action leaves its proofs closable unless it closed them.
  lemma ActionKeeps(w: World, proofs: seq<Address>, fits: bool, maxRetries: nat, fates: Fates)
    requires forall a :: a in proofs ==> Closable(w.chain, a)
    ensures var (w', sent) := SendAgain(w, ActionTx(proofs, fits), 0, maxRetries, fates);
            (fits && w'.chain.landed > w.chain.landed) || forall a :: a in proofs ==> Closable(w'.chain, a)
  {
    hide SendAgain, Locked, TookEffect;
    var tx := ActionTx(proofs, fits);
    SendAgainEffect(w, tx, 0, maxRetries, fates);
    var w' := SendAgain(w, tx, 0, maxRetries, fates).0;
    var fee := fates(w'.sends - 1).fee;
    if fee <= w.chain.payer && Exec(Charge(w.chain, fee), tx).Some? {
      ActionOpens(proofs, fits);
      ExecActs(Charge(w.chain, fee), tx);
      if !fits {
        assert tx == [Act(proofs)] && tx[1..] == [];
        assert Exec(Charge(w.chain, fee), tx).value.accounts == w.chain.accounts;
      }
    }
  }

  // However a transfer or withdraw ends, short of an instruction that cannot be built: if its closing
  // sends are fair, no proof account that was verified is open. When it is given up and the action
  // did not land, the report is exact.
  lemma OperationCloses(w: World, requests: seq<Request>, assembly: Assembly, fits: bool, maxRetries: nat, fates: Fates)
    requires Drawn(w.chain, requests) && FairClosing(w, requests, assembly, fits, maxRetries, fates)
    ensures var setup := CreateAccounts(w, Setup([], [], []), requests, maxRetries, fates).1;
            var (w', end) := Operation(w, requests, assembly, fits, maxRetries, fates);
            && (!end.Unbuilt? ==> forall a :: a in setup.verified ==> a !in w'.chain.accounts)
            && (end.Done? ==> forall k :: 0 <= k < |requests| ==> requests[k].address !in w'.chain.accounts)
            && (end.Done? && !fits ==>
                  |end.signatures| == SetupTransactions(requests) + 1 + (|requests| + 7) / 8)
            && (end.Abandoned? && w'.chain.landed == w.chain.landed ==>
                  end.cleanup.closed == setup.verified && end.cleanup.leftOpen == setup.unverified)
  {
    hide CreateAccounts, CloseAccounts, FairAccounts, FairFinish, Finish, SetupTracks, Distinct, Closable, Locked,
         SameOutside, AreConfirmed, SetupTransactions;
    var start := Setup([], [], []);
    SetupKeepsTrack(w, start, requests, maxRetries, fates);
    var (w1, setup, ok) := CreateAccounts(w, start, requests, maxRetries, fates);
    SetupMeans(w, w1, start, setup, ok, requests, fates);
    SetupClosable(w, w1, setup, ok, requests, fates);
    NoneConfirmed(w.sends, w.sends, fates);
    SetupSigns(w, start, requests, maxRetries, fates, w.sends);
    assert requests[..|requests|] == requests;
    if !ok {
      VerifiedClose(w1, setup.verified, maxRetries, fates);
      assert [] + setup.unverified == setup.unverified;
    } else {
      FinishCloses(w1, setup.verified, setup.signatures, assembly, fits, maxRetries, fates);
      assert setup.verified == AddressesOf(requests);
      forall k | 0 <= k < |requests|
        ensures requests[k].address in setup.verified
      {
        assert AddressesOf(requests)[k] == requests[k].address;
      }
    }
  }

  lemma SetupClosable(w: World, w1: World, s': Setup, ok: bool, requests: seq<Request>, fates: Fates)
    requires SetupTracks(w, w1, Setup([], [], []), s', ok, requests, fates) && Distinct(AddressesOf(requests))
    ensures Distinct(s'.verified) && forall a :: a in s'.verified ==> Closable(w1.chain, a)
  {
    hide Locked, Closable;
  }

  // ---- success ----

  function Fees(fates: Fates, from: nat, count: nat): nat
    decreases count
  {
    if count == 0 then 0 else fates(from).fee + Fees(fates, from + 1, count - 1)
  }

  // The next `count` requests are answered and the transactions confirmed, and the payer can afford
  // their fees on top of `cost`.
  ghost predicate Steady(w: World, count: nat, cost: nat, fates: Fates) {
    && (forall k :: w.sends <= k < w.sends + count ==> fates(k).simulated.Passes? && fates(k).confirmed.Confirms?)
    && Fees(fates, w.sends, count) + cost <= w.chain.payer
  }

  // For each account the rent is asked for, and one or two transactions are sent.
  function SetupRequests(requests: seq<Request>): nat {
    if requests == [] then 0 else (if requests[0].split then 3 else 2) + SetupRequests(requests[1..])
  }

  function Rents(requests: seq<Request>): nat {
    if requests == [] then 0 else requests[0].rent + Rents(requests[1..])
  }

  lemma SteadyNext(w: World, w': World, count: nat, cost: nat, spent: nat, fates: Fates)
    requires count > 0 && spent <= cost && Steady(w, count, cost, fates)
    requires w'.sends == w.sends + 1 && w'.chain.payer + fates(w.sends).fee + spent >= w.chain.payer
    ensures Steady(w', count - 1, cost - spent, fates)
  {
  }

  lemma SteadySend(w: World, tx: Tx, count: nat, cost: nat, maxRetries: nat, fates: Fates)
    requires count > 0 && Steady(w, count, cost, fates)
    requires Exec(Charge(w.chain, fates(w.sends).fee), tx).Some?
    ensures SendAgain(w, tx, 0, maxRetries, fates)
         == (World(Exec(Charge(w.chain, fates(w.sends).fee), tx).value, w.sends + 1), true)
  {
    hide Exec;
  }

  lemma CreateExec(c: Chain, r: Request)
    requires r.address !in c.accounts && r.rent <= c.payer
    ensures Exec(c, CreateTx(r))
         == Some(c.(accounts := c.accounts[r.address := ProofAccount(r.rent, !r.split)], payer := c.payer - r.rent))
  {
    var tx := CreateTx(r);
    var c1 := ExecOne(c, Create(r.address, r.rent)).value;
    if r.split {
      assert tx[1..] == [];
    } else {
      assert tx[1..] == [Verify(r.address)] && [Verify(r.address)][1..] == [];
      assert Exec(c1, [Verify(r.address)]) == ExecOne(c1, Verify(r.address));
      assert c1.accounts[r.address := ProofAccount(r.rent, true)]
          == c.accounts[r.address := ProofAccount(r.rent, true)];
    }
  }

  lemma VerifyExec(c: Chain, a: Address)
    requires a in c.accounts && !c.accounts[a].verified
    ensures Exec(c, [Verify(a)]) == ExecOne(c, Verify(a)) && Exec(c, [Verify(a)]).Some?
  {
    assert [Verify(a)][1..] == [];
  }

  lemma SteadyCreate(w: World, s: Setup, r: Request, count: nat, cost: nat, maxRetries: nat, fates: Fates)
    requires r.address !in w.chain.accounts && r.rent <= cost
    requires SetupRequests([r]) <= count && Steady(w, count, cost, fates)
    ensures var (w', s', ok) := CreateAccount(w, s, r, maxRetries, fates);
            && ok && w'.sends == w.sends + SetupRequests([r])
            && Steady(w', count - SetupRequests([r]), cost - r.rent, fates)
  {
    hide Exec, Steady, SendAgain;
    assert [r][1..] == [];
    var w0 := w.(sends := w.sends + 1);
    SteadyMeans(w, count, cost, fates);
    SteadyNext(w, w0, count, cost, 0, fates);
    SteadyMeans(w0, count - 1, cost, fates);
    CreateExec(Charge(w0.chain, fates(w0.sends).fee), r);
    SteadySend(w0, CreateTx(r), count - 1, cost, maxRetries, fates);
    var w1 := SendAgain(w0, CreateTx(r), 0, maxRetries, fates).0;
    SteadyNext(w0, w1, count - 1, cost, r.rent, fates);
    if r.split {
      SteadyMeans(w1, count - 2, cost - r.rent, fates);
      VerifyExec(Charge(w1.chain, fates(w1.sends).fee), r.address);
      SteadySend(w1, [Verify(r.address)], count - 2, cost - r.rent, maxRetries, fates);
      var w2 := SendAgain(w1, [Verify(r.address)], 0, maxRetries, fates).0;
      SteadyNext(w1, w2, count - 2, cost - r.rent, 0, fates);
    }
  }

  lemma SteadyMeans(w: World, count: nat, cost: nat, fates: Fates)
    requires count > 0 && Steady(w, count, cost, fates)
    ensures fates(w.sends).simulated.Passes? && fates(w.sends).confirmed.Confirms?
    ensures fates(w.sends).fee + cost <= w.chain.payer
  {
  }

  lemma {:induction false} SteadySetup(w: World, s: Setup, requests: seq<Request>, count: nat, cost: nat,
                                       maxRetries: nat, fates: Fates)
    requires Drawn(w.chain, requests) && Rents(requests) <= cost
    requires SetupRequests(requests) <= count && Steady(w, count, cost, fates)
    ensures var (w', _, ok) := CreateAccounts(w, s, requests, maxRetries, fates);
            && ok && w'.sends == w.sends + SetupRequests(requests)
            && Steady(w', count - SetupRequests(requests), cost - Rents(requests), fates)
    decreases requests
  {
    hide CreateAccount, Steady, Drawn, Locked, SameOutside, TookEffect;
    if requests != [] {
      var r := requests[0];
      assert [r][1..] == [];
      DrawnFirst(w.chain, requests);
      SteadyCreate(w, s, r, count, cost, maxRetries, fates);
      CreateTracks(w, s, r, maxRetries, fates);
      var (w1, s1, _) := CreateAccount(w, s, r, maxRetries, fates);
      DrawnRest(w.chain, w1.chain, requests);
      SteadySetup(w1, s1, requests[1..], count - SetupRequests([r]), cost - r.rent, maxRetries, fates);
    }
  }

  lemma ActionExec(c: Chain, proofs: seq<Address>, fits: bool)
    requires Distinct(proofs) && AllClosable(c, proofs)
    ensures Exec(c, ActionTx(proofs, fits)).Some?
  {
    var tx := ActionTx(proofs, fits);
    var c1 := ExecOne(c, Act(proofs)).value;
    assert tx[0] == Act(proofs) && ExecOne(c, tx[0]) == Some(c1);
    assert tx[1..] == if fits then Closes(proofs) else [];
    SameClosable(c, c1, proofs);
    ExecCloses(c1, proofs);
  }

  // When every request is answered, every transaction confirmed, and the payer can afford the rents
  // and the fees, the operation succeeds, and its action takes effect.
  lemma OperationSucceeds(w: World, requests: seq<Request>, fits: bool, maxRetries: nat, fates: Fates)
    requires Drawn(w.chain, requests)
    requires Steady(w, SetupRequests(requests) + 1, Rents(requests), fates)
    ensures var (w', end) := Operation(w, requests, Assembled, fits, maxRetries, fates);
            end.Done? && w'.chain.landed == w.chain.landed + 1
  {
    hide CreateAccounts, CloseAccounts, SetupTracks, Steady, Closable, Locked, SameOutside, Exec, SendAgain, Distinct,
         ActionTx;
    var start := Setup([], [], []);
    SetupKeepsTrack(w, start, requests, maxRetries, fates);
    SteadySetup(w, start, requests, SetupRequests(requests) + 1, Rents(requests), maxRetries, fates);
    var (w1, setup, ok) := CreateAccounts(w, start, requests, maxRetries, fates);
    SetupMeans(w, w1, start, setup, ok, requests, fates);
    SetupClosable(w, w1, setup, ok, requests, fates);
    SteadyMeans(w1, 1, 0, fates);
    var charged := Charge(w1.chain, fates(w1.sends).fee);
    SameClosable(w1.chain, charged, setup.verified);
    ActionExec(charged, setup.verified, fits);
    SteadySend(w1, ActionTx(setup.verified, fits), 1, 0, maxRetries, fates);
    OperationLands(w, requests, Assembled, fits, maxRetries, fates);
  }
}
