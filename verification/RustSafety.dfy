// What the Rust client's tracking and closing of proof accounts guarantee.
module RustSafety {
  import opened Wrappers
  import opened Cluster
  import opened ProofFlow
  import opened ProofFlowSafety
  import opened RustProofs

  // A send that the client takes for failed, but that landed and took effect.
  predicate TookEffect(c: Chain, tx: Tx, fate: Fate) {
    fate.simulated.Passes? && fate.confirmed == Unclear(true) && fate.fee <= c.payer
        && Exec(Charge(c, fate.fee), tx).Some?
  }

  predicate Expires(fate: Fate) {
    fate.simulated.Passes? && fate.confirmed.BlockHeightExceeded?
  }

  // It sends again exactly while the sends expire, at most `maxRetries` times. However often that is,
  // the transaction takes effect at most once; and after a failure exactly when the last send took
  // effect unseen.
  lemma {:induction false} SendAgainEffect(w: World, tx: Tx, attempt: nat, maxRetries: nat, fates: Fates)
    requires attempt <= maxRetries
    ensures var (w', ok) := SendAgain(w, tx, attempt, maxRetries, fates);
            && w.sends < w'.sends <= w.sends + maxRetries - attempt + 1
            && (forall k :: w.sends <= k < w'.sends - 1 ==> Expires(fates(k)))
            && (w'.sends < w.sends + maxRetries - attempt + 1 ==> !Expires(fates(w'.sends - 1)))
            && (ok ==> fates(w'.sends - 1).simulated.Passes? && fates(w'.sends - 1).confirmed.Confirms?)
            && Lamports(w'.chain) == Lamports(w.chain)
            && (var fate := fates(w'.sends - 1);
                if ok || TookEffect(w.chain, tx, fate)
                then fate.fee <= w.chain.payer && Exec(Charge(w.chain, fate.fee), tx) == Some(w'.chain)
                else w'.chain.accounts == w.chain.accounts && w'.chain.landed == w.chain.landed)
    decreases maxRetries - attempt
  {
    hide Exec, Locked;
    SendEffect(w, tx, fates);
    var (w1, sent) := Send(w, tx, fates);
    if sent.Expired? && attempt < maxRetries {
      SendAgainEffect(w1, tx, attempt + 1, maxRetries, fates);
    }
  }

  lemma SendAgainTouches(w: World, tx: Tx, maxRetries: nat, fates: Fates, accounts: seq<Address>)
    requires Within(tx, accounts)
    ensures var (w', ok) := SendAgain(w, tx, 0, maxRetries, fates);
            && w'.sends > w.sends && Lamports(w'.chain) == Lamports(w.chain) && SameOutside(w.chain, w'.chain, accounts)
            && (if ok || TookEffect(w.chain, tx, fates(w'.sends - 1))
                then && w'.chain.landed == w.chain.landed + Acts(tx)
                     && forall a :: a in w'.chain.accounts <==> OpenAfter(tx, a, a in w.chain.accounts)
                else w'.chain.accounts == w.chain.accounts && w'.chain.landed == w.chain.landed)
  {
    hide Exec, Locked, OpenAfter, SendAgain, TookEffect;
    SendAgainEffect(w, tx, 0, maxRetries, fates);
    var (w', ok) := SendAgain(w, tx, 0, maxRetries, fates);
    var fate := fates(w'.sends - 1);
    if ok || TookEffect(w.chain, tx, fate) {
      var c := Charge(w.chain, fate.fee);
      ExecActs(c, tx);
      ExecWithin(c, tx, accounts);
      forall a
        ensures a in w'.chain.accounts <==> OpenAfter(tx, a, a in c.accounts)
      {
        ExecOpens(c, tx, a);
      }
    }
  }

  // ---- closing ----

  // The outcome of closing accounts: every one is reported exactly once, as closed or as left open,
  // and those reported closed are.
  ghost predicate Answered(c: Chain, d: Chain, accounts: seq<Address>, r: Cleanup) {
    && OnlyClosed(c, d, accounts, r.closed)
    && multiset(r.closed) + multiset(r.leftOpen) == multiset(accounts)
  }

  lemma AnsweredJoin(c: Chain, d: Chain, e: Chain, first: seq<Address>, rest: seq<Address>, r: Cleanup, s: Cleanup)
    requires Answered(c, d, first, r) && Answered(d, e, rest, s)
    ensures Answered(c, e, first + rest, Join(r, s))
  {
    hide OnlyClosed;
    OnlyClosedMore(c, d, e, first, rest, r.closed, s.closed);
  }

  lemma ClosesOnly(w: World, batch: seq<Address>, maxRetries: nat, fates: Fates)
    ensures var (w', ok) := SendAgain(w, Closes(batch), 0, maxRetries, fates);
            OnlyClosed(w.chain, w'.chain, batch, if ok then batch else [])
  {
    hide Exec, Locked, OpenAfter, SendAgain, TookEffect, Closes;
    forall a {
      ClosesTouch(batch, a, a in w.chain.accounts);
    }
    SendAgainTouches(w, Closes(batch), maxRetries, fates, batch);
    SendAgainEffect(w, Closes(batch), 0, maxRetries, fates);
    var (w', _) := SendAgain(w, Closes(batch), 0, maxRetries, fates);
    var fee := fates(w'.sends - 1).fee;
    if fee <= w.chain.payer {
      ExecCloses(Charge(w.chain, fee), batch);
    }
  }

  lemma NothingAnswered(c: Chain)
    ensures Answered(c, c, [], NOTHING)
  {
    hide OnlyClosed;
    NothingClosed(c);
  }

  lemma OneAnswered(c: Chain, w: World, batch: seq<Address>, ok: bool)
    requires OnlyClosed(c, w.chain, batch, if ok then batch else [])
    ensures Answered(c, w.chain, batch, OneCall(batch, ok, w)) && OneCall(batch, ok, w).calls == 1
  {
    hide OnlyClosed;
  }

  lemma JoinCounts(a: Cleanup, b: Cleanup)
    ensures Join(a, b).calls == a.calls + b.calls
  {
  }

  lemma {:induction false} CloseEachAnswers(w: World, accounts: seq<Address>, maxRetries: nat, fates: Fates)
    ensures var (w', r) := CloseEach(w, accounts, maxRetries, fates);
            Answered(w.chain, w'.chain, accounts, r) && r.calls == |accounts|
    decreases accounts
  {
    hide SendAgain, OnlyClosed, Answered, Join, OneCall;
    if accounts == [] {
      NothingAnswered(w.chain);
    } else {
      var (w1, ok) := SendAgain(w, Closes(accounts[..1]), 0, maxRetries, fates);
      var (w2, rest) := CloseEach(w1, accounts[1..], maxRetries, fates);
      ClosesOnly(w, accounts[..1], maxRetries, fates);
      CloseEachAnswers(w1, accounts[1..], maxRetries, fates);
      var one := OneCall(accounts[..1], ok, w1);
      OneAnswered(w.chain, w1, accounts[..1], ok);
      JoinCounts(one, rest);
      AnsweredJoin(w.chain, w1.chain, w2.chain, accounts[..1], accounts[1..], one, rest);
      assert accounts == accounts[..1] + accounts[1..];
    }
  }

  lemma CloseBatchAnswers(w: World, batch: seq<Address>, maxRetries: nat, fates: Fates)
    ensures var (w', r) := CloseBatch(w, batch, maxRetries, fates);
            Answered(w.chain, w'.chain, batch, r) && r.calls <= |batch| + 1
  {
    hide SendAgain, OnlyClosed, CloseEach, OneCall;
    var (w1, ok) := SendAgain(w, Closes(batch), 0, maxRetries, fates);
    ClosesOnly(w, batch, maxRetries, fates);
    if !ok && |batch| > 1 {
      CloseEachAnswers(w1, batch, maxRetries, fates);
      var (w2, each) := CloseEach(w1, batch, maxRetries, fates);
      OnlyClosedMore(w.chain, w1.chain, w2.chain, batch, batch, [], each.closed);
      OnlyClosedTwice(w.chain, w2.chain, batch, [] + each.closed);
      JoinCalls(each);
      assert [] + each.closed == each.closed;
    } else {
      OneAnswered(w.chain, w1, batch, ok);
    }
  }

  lemma OnlyClosedTwice(c: Chain, d: Chain, accounts: seq<Address>, closed: seq<Address>)
    requires OnlyClosed(c, d, accounts + accounts, closed)
    ensures OnlyClosed(c, d, accounts, closed)
  {
    hide Locked;
  }

  // For every fate of the sends: each account is reported once, in at most n + ceil(n / 8) calls.
  lemma {:induction false} CloseAccountsAnswers(w: World, accounts: seq<Address>, maxRetries: nat, fates: Fates)
    ensures var (w', r) := CloseAccounts(w, accounts, maxRetries, fates);
            && Answered(w.chain, w'.chain, accounts, r)
            && r.calls <= |accounts| + (|accounts| + 7) / 8
    decreases |accounts|
  {
    hide OnlyClosed, CloseBatch;
    if accounts == [] {
      NothingClosed(w.chain);
    } else {
      var batch := accounts[..Least(CLOSES_PER_TRANSACTION, |accounts|)];
      var (w1, first) := CloseBatch(w, batch, maxRetries, fates);
      var (w2, rest) := CloseAccounts(w1, accounts[|batch|..], maxRetries, fates);
      CloseBatchAnswers(w, batch, maxRetries, fates);
      CloseAccountsAnswers(w1, accounts[|batch|..], maxRetries, fates);
      AnsweredJoin(w.chain, w1.chain, w2.chain, batch, accounts[|batch|..], first, rest);
      assert accounts == batch + accounts[|batch|..];
    }
  }

  // What was not reported closed is reported left open.
  lemma AnsweredOpen(c: Chain, d: Chain, accounts: seq<Address>, r: Cleanup, a: Address)
    requires Answered(c, d, accounts, r) && a in accounts && a in d.accounts
    ensures a in r.leftOpen
  {
    assert a in multiset(accounts);
    assert a !in r.closed;
  }

  // ---- setting up ----

  // One account: created, verified and tracked; or created, unverified and tracked; or untracked,
  // and then it is open exactly when the failed send that creates it took effect unseen.
  lemma CreateTracks(w: World, s: Setup, r: Request, maxRetries: nat, fates: Fates)
    requires r.address !in w.chain.accounts
    ensures var (w', s', ok) := CreateAccount(w, s, r, maxRetries, fates);
            && w'.sends > w.sends && Lamports(w'.chain) == Lamports(w.chain) && w'.chain.landed == w.chain.landed
            && SameOutside(w.chain, w'.chain, [r.address])
            && (fates(w.sends).simulated.Unreachable? ==> !ok && w' == World(w.chain, w.sends + 1))
            && (ok ==>
                  && s'.verified == s.verified + [r.address] && s'.unverified == s.unverified
                  && r.address in w'.chain.accounts && w'.chain.accounts[r.address] == ProofAccount(r.rent, true))
            && (!ok ==>
                  && s'.verified == s.verified
                  && (|| (s'.unverified == s.unverified + [r.address] && r.address in w'.chain.accounts)
                      || (&& s'.unverified == s.unverified
                          && (r.address in w'.chain.accounts
                              <==> TookEffect(w.chain, CreateTx(r), fates(w'.sends - 1))))))
  {
    hide SendAgain, Exec, Locked, OpenAfter;
    var w0 := w.(sends := w.sends + 1);
    if !fates(w.sends).simulated.Unreachable? {
      var (w1, created) := SendAgain(w0, CreateTx(r), 0, maxRetries, fates);
      CreateOpens(r, w.chain.accounts);
      SendAgainTouches(w0, CreateTx(r), maxRetries, fates, [r.address]);
      SendAgainEffect(w0, CreateTx(r), 0, maxRetries, fates);
      if created {
        CreateExecuted(w0.chain, fates(w1.sends - 1).fee, r);
        if r.split {
          var (w2, done) := SendAgain(w1, [Verify(r.address)], 0, maxRetries, fates);
          VerifyOpens(r);
          SendAgainTouches(w1, [Verify(r.address)], maxRetries, fates, [r.address]);
          SendAgainEffect(w1, [Verify(r.address)], 0, maxRetries, fates);
          if done {
            VerifyExecuted(w1.chain, fates(w2.sends - 1).fee, r);
          }
        }
      }
    }
  }

  // Such a creation: the transaction lands, its confirmation is lost, and nothing tracks the account.
  lemma CreationLost(r: Request)
    requires !r.split
    ensures var w := World(Chain(map[], r.rent, 0, 0), 0);
            var fates: Fates := k => Fate(Passes, Unclear(true), 0);
            var (w', s', ok) := CreateAccount(w, Setup([], [], []), r, 0, fates);
            !ok && Tracked(s') == [] && r.address in w'.chain.accounts
  {
    hide Locked;
    var w := World(Chain(map[], r.rent, 0, 0), 0);
    var fates: Fates := k => Fate(Passes, Unclear(true), 0);
    CreateTracks(w, Setup([], [], []), r, 0, fates);
    var c := Charge(w.chain, 0);
    var c1 := ExecOne(c, Create(r.address, r.rent)).value;
    assert CreateTx(r)[1..] == [Verify(r.address)] && [Verify(r.address)][1..] == [];
    assert Exec(c1, [Verify(r.address)]).Some?;
    assert TookEffect(w.chain, CreateTx(r), fates(0));
  }

  lemma CreateOpens(r: Request, open: map<Address, ProofAccount>)
    ensures Acts(CreateTx(r)) == 0 && Within(CreateTx(r), [r.address])
    ensures forall a :: OpenAfter(CreateTx(r), a, a in open) <==> a in open || a == r.address
  {
    var c, v := Create(r.address, r.rent), Verify(r.address);
    assert [c, v][1..] == [v] && [v][1..] == [] && [c][1..] == [];
    assert Acts([v]) == 0;
    forall a
      ensures OpenAfter(CreateTx(r), a, a in open) <==> a in open || a == r.address
    {
      assert OpenAfter([v], a, OpenAfterOne(c, a, a in open)) == OpenAfterOne(c, a, a in open);
      assert OpenAfter([c], a, a in open) == OpenAfterOne(c, a, a in open);
    }
  }

  lemma VerifyOpens(r: Request)
    ensures Acts([Verify(r.address)]) == 0 && Within([Verify(r.address)], [r.address])
    ensures forall a, open :: OpenAfter([Verify(r.address)], a, open) == open
  {
    assert [Verify(r.address)][1..] == [];
  }

  lemma CreateExecuted(c: Chain, fee: nat, r: Request)
    requires fee <= c.payer && Exec(Charge(c, fee), CreateTx(r)).Some?
    ensures var d := Exec(Charge(c, fee), CreateTx(r)).value;
            r.address in d.accounts && d.accounts[r.address] == ProofAccount(r.rent, !r.split)
  {
    var tx := CreateTx(r);
    var c1 := ExecOne(Charge(c, fee), tx[0]).value;
    if r.split {
      assert tx[1..] == [];
    } else {
      assert tx[1..] == [Verify(r.address)] && tx[1..][1..] == [];
      assert Exec(c1, tx[1..]) == Exec(ExecOne(c1, Verify(r.address)).value, []);
    }
  }

  lemma VerifyExecuted(c: Chain, fee: nat, r: Request)
    requires fee <= c.payer && Exec(Charge(c, fee), [Verify(r.address)]).Some?
    ensures Closable(Exec(Charge(c, fee), [Verify(r.address)]).value, r.address)
    ensures r.address in c.accounts
    ensures Exec(Charge(c, fee), [Verify(r.address)]).value.accounts[r.address].rent == c.accounts[r.address].rent
  {
    assert [Verify(r.address)][1..] == [];
  }

  function AddressesOf(requests: seq<Request>): (r: seq<Address>)
    ensures |r| == |requests| && forall k :: 0 <= k < |requests| ==> r[k] == requests[k].address
  {
    seq(|requests|, k requires 0 <= k < |requests| => requests[k].address)
  }

  // New, distinct addresses, as drawn for a setup.
  ghost predicate Drawn(c: Chain, requests: seq<Request>) {
    Distinct(AddressesOf(requests)) && forall k :: 0 <= k < |requests| ==> requests[k].address !in c.accounts
  }

  predicate LastUnseen(w: World, fates: Fates) {
    w.sends > 0 && fates(w.sends - 1).simulated.Passes? && fates(w.sends - 1).confirmed == Unclear(true)
  }

  // The setup tracks exactly the accounts it created, in order: first those verified, then at most
  // one created but not verified. Only the account being created when it failed can be open without
  // being tracked, and only when that last send took effect unseen.
  ghost predicate SetupTracks(w: World, w': World, s: Setup, s': Setup, ok: bool, requests: seq<Request>, fates: Fates)
  {
    var all := AddressesOf(requests);
    && ListsTrack(s, s', ok, all)
    && ChainTracks(w', |s'.verified| - |s.verified|, s'.unverified == s.unverified, all, fates)
    && Harmless(w, w', all)
  }

  // `all[..k]` were verified, and on a failure all[k] may be the unverified one.
  ghost predicate ListsTrack(s: Setup, s': Setup, ok: bool, all: seq<Address>) {
    var k := |s'.verified| - |s.verified|;
    && 0 <= k <= |all| && s'.verified == s.verified + all[..k]
    && (ok <==> k == |all|)
    && (s'.unverified == s.unverified || (!ok && s'.unverified == s.unverified + [all[k]]))
  }

  ghost predicate ChainTracks(w': World, k: int, noneUnverified: bool, all: seq<Address>, fates: Fates)
  {
    && 0 <= k <= |all|
    && (forall j :: 0 <= j < k ==> Closable(w'.chain, all[j]))
    && (forall j :: k < j < |all| ==> all[j] !in w'.chain.accounts)
    && (k < |all| && !noneUnverified ==> all[k] in w'.chain.accounts)
    && (k < |all| && noneUnverified && all[k] in w'.chain.accounts ==> LastUnseen(w', fates))
  }

  ghost predicate Harmless(w: World, w': World, all: seq<Address>) {
    && w'.sends >= w.sends && Lamports(w'.chain) == Lamports(w.chain) && w'.chain.landed == w.chain.landed
    && SameOutside(w.chain, w'.chain, all)
  }

  lemma {:induction false} SetupKeepsTrack(w: World, s: Setup, requests: seq<Request>, maxRetries: nat, fates: Fates)
    requires Drawn(w.chain, requests)
    ensures var (w', s', ok) := CreateAccounts(w, s, requests, maxRetries, fates);
            SetupTracks(w, w', s, s', ok, requests, fates)
    decreases requests
  {
    hide CreateAccount, Locked, SetupTracks, Drawn, AddressesOf, SameOutside;
    if requests == [] {
      NothingTracked(w, s, fates);
    } else {
      var (w1, s1, ok) := CreateAccount(w, s, requests[0], maxRetries, fates);
      DrawnFirst(w.chain, requests);
      CreateTracks(w, s, requests[0], maxRetries, fates);
      if ok {
        DrawnRest(w.chain, w1.chain, requests);
        SetupKeepsTrack(w1, s1, requests[1..], maxRetries, fates);
        var (w2, s2, ok2) := CreateAccounts(w1, s1, requests[1..], maxRetries, fates);
        SetupTracksMore(w, w1, w2, s, s1, s2, ok2, requests, fates);
      } else {
        FirstFailed(w, w1, s, s1, requests, fates);
      }
    }
  }

  lemma NothingTracked(w: World, s: Setup, fates: Fates)
    ensures SetupTracks(w, w, s, s, true, [], fates)
  {
    hide Locked;
    assert s.verified + [] == s.verified;
  }

  lemma DrawnRest(c: Chain, d: Chain, requests: seq<Request>)
    requires requests != [] && Drawn(c, requests) && SameOutside(c, d, [requests[0].address])
    ensures Drawn(d, requests[1..])
  {
    DrawnFirst(c, requests);
    var all, rest := AddressesOf(requests), AddressesOf(requests[1..]);
    assert forall j :: 0 <= j < |rest| ==> rest[j] == all[j + 1];
  }

  lemma FirstFailed(w: World, w1: World, s: Setup, s1: Setup, requests: seq<Request>, fates: Fates)
    requires requests != [] && Drawn(w.chain, requests) && s1.verified == s.verified
    requires w1.sends > w.sends && Lamports(w1.chain) == Lamports(w.chain) && w1.chain.landed == w.chain.landed
    requires SameOutside(w.chain, w1.chain, [requests[0].address])
    requires || (s1.unverified == s.unverified + [requests[0].address] && requests[0].address in w1.chain.accounts)
             || (s1.unverified == s.unverified && (requests[0].address in w1.chain.accounts ==> LastUnseen(w1, fates)))
    ensures SetupTracks(w, w1, s, s1, false, requests, fates)
  {
    hide Locked, LastUnseen;
    var all := AddressesOf(requests);
    DrawnFirst(w.chain, requests);
    assert s.verified == s.verified + all[..0];
    forall j | 0 < j < |all|
      ensures all[j] !in w1.chain.accounts
    {
      assert all[j] == requests[j].address != all[0];
    }
  }

  lemma SetupTracksMore(w: World, w1: World, w2: World, s: Setup, s1: Setup, s2: Setup, ok: bool,
                        requests: seq<Request>, fates: Fates)
    requires requests != [] && Drawn(w.chain, requests)
    requires s1.verified == s.verified + [requests[0].address] && s1.unverified == s.unverified
    requires Closable(w1.chain, requests[0].address)
    requires Harmless(w, w1, [requests[0].address])
    requires SetupTracks(w1, w2, s1, s2, ok, requests[1..], fates)
    ensures SetupTracks(w, w2, s, s2, ok, requests, fates)
  {
    hide Locked, LastUnseen, Harmless, ChainTracks, ListsTrack, Drawn, Closable, AddressesOf;
    var rest := AddressesOf(requests[1..]);
    var a := requests[0].address;
    DrawnFirst(w.chain, requests);
    ListsTrackMore(s, s1, s2, ok, a, rest);
    HarmlessMore(w, w1, w2, a, rest);
    ClosableKept(w1, w2, a, rest);
    ChainTracksMore(w2, |s2.verified| - |s1.verified|, s2.unverified == s1.unverified, a, rest, fates);
  }

  lemma DrawnFirst(c: Chain, requests: seq<Request>)
    requires requests != [] && Drawn(c, requests)
    ensures var a, rest := requests[0].address, AddressesOf(requests[1..]);
            AddressesOf(requests) == [a] + rest && a !in rest && a !in c.accounts
  {
    var all, rest := AddressesOf(requests), AddressesOf(requests[1..]);
    assert all == [requests[0].address] + rest;
    assert forall j :: 1 <= j < |all| ==> all[j] == rest[j - 1];
  }

  lemma ListsTrackMore(s: Setup, s1: Setup, s2: Setup, ok: bool, a: Address, rest: seq<Address>)
    requires s1.verified == s.verified + [a] && s1.unverified == s.unverified && ListsTrack(s1, s2, ok, rest)
    ensures ListsTrack(s, s2, ok, [a] + rest)
  {
    var k := |s2.verified| - |s.verified|;
    assert ([a] + rest)[..k] == [a] + rest[..k - 1];
  }

  lemma ChainTracksMore(w: World, k: int, noneUnverified: bool, a: Address, rest: seq<Address>, fates: Fates)
    requires ChainTracks(w, k, noneUnverified, rest, fates) && Closable(w.chain, a)
    ensures ChainTracks(w, k + 1, noneUnverified, [a] + rest, fates)
  {
  }

  lemma HarmlessMore(w: World, w1: World, w2: World, a: Address, rest: seq<Address>)
    requires Harmless(w, w1, [a]) && Harmless(w1, w2, rest)
    ensures Harmless(w, w2, [a] + rest)
  {
    hide Locked;
    forall b | b !in [a] + rest
      ensures b !in [a] && b !in rest
    {
    }
  }

  lemma ClosableKept(w1: World, w2: World, a: Address, rest: seq<Address>)
    requires Harmless(w1, w2, rest) && a !in rest && Closable(w1.chain, a)
    ensures Closable(w2.chain, a)
  {
  }

  // ---- a whole operation ----

  // The account a setup was creating when it ended.
  function Pending(s: Setup, all: seq<Address>): Option<Address> {
    if |s.verified| < |all| then Some(all[|s.verified|]) else None
  }

  // Its end, for the caller: what it tracked is reported exactly once; what is reported closed is
  // closed; and every account it created that is still open is reported, except possibly the one
  // whose creation was lost from sight. Nothing is reported, and all is left open, exactly when every
  // account is set up and the instruction then cannot be built.
  lemma OperationReports(w: World, requests: seq<Request>, assembly: Assembly, fits: bool, maxRetries: nat,
                         fates: Fates)
    requires Drawn(w.chain, requests)
    ensures var (w1, setup, ok) := CreateAccounts(w, Setup([], [], []), requests, maxRetries, fates);
            var (w', end) := Operation(w, requests, assembly, fits, maxRetries, fates);
            var all := AddressesOf(requests);
            && Lamports(w'.chain) == Lamports(w.chain)
            && SameOutside(w.chain, w'.chain, all)
            && (end.Unbuilt? <==> ok && assembly.NoInstruction?)
            && (end.Unbuilt? ==> forall a :: a in all ==> Closable(w'.chain, a))
            && (end.Abandoned? ==>
                  && multiset(end.cleanup.closed) + multiset(end.cleanup.leftOpen) == multiset(Tracked(setup))
                  && (forall a :: a in end.cleanup.closed ==> a !in w'.chain.accounts)
                  && (forall a :: a in all && a in w'.chain.accounts ==>
                        || a in end.cleanup.leftOpen
                        || (a !in Tracked(setup) && Pending(setup, all) == Some(a) && LastUnseen(w1, fates))))
  {
    hide Locked, CreateAccounts, CloseAccounts, SendAgain, Answered, LastUnseen, SetupTracks, SameOutside;
    var all := AddressesOf(requests);
    var start := Setup([], [], []);
    SetupKeepsTrack(w, start, requests, maxRetries, fates);
    var (w1, setup, ok) := CreateAccounts(w, start, requests, maxRetries, fates);
    SetupMeans(w, w1, start, setup, ok, requests, fates);
    if !ok {
      AbandonedSetup(w, w1, setup, requests, maxRetries, fates);
    } else {
      ReadyOperation(w1, all, setup.signatures, assembly, fits, maxRetries, fates);
      SameOutsideTrans(w.chain, w1.chain, Finish(w1, all, setup.signatures, assembly, fits, maxRetries, fates).0.chain,
                       all);
      assert Tracked(setup) == all;
    }
  }

  lemma SameOutsideTrans(c: Chain, d: Chain, e: Chain, accounts: seq<Address>)
    requires SameOutside(c, d, accounts) && SameOutside(d, e, accounts)
    ensures SameOutside(c, e, accounts)
  {
  }

  // The setup failed: what it tracked is closed or reported.
  lemma AbandonedSetup(w: World, w1: World, setup: Setup, requests: seq<Request>, maxRetries: nat, fates: Fates)
    requires Drawn(w.chain, requests) && SetupTracks(w, w1, Setup([], [], []), setup, false, requests, fates)
    ensures var (w2, r) := FailSetup(w1, setup, maxRetries, fates);
            var all := AddressesOf(requests);
            && Lamports(w2.chain) == Lamports(w.chain) && SameOutside(w.chain, w2.chain, all)
            && multiset(r.closed) + multiset(r.leftOpen) == multiset(Tracked(setup))
            && |setup.unverified| <= |r.leftOpen|
            && r.leftOpen[|r.leftOpen| - |setup.unverified|..] == setup.unverified
            && (forall a :: a in r.closed ==> a !in w2.chain.accounts)
            && (forall a :: a in all && a in w2.chain.accounts ==>
                  || a in r.leftOpen
                  || (a !in Tracked(setup) && Pending(setup, all) == Some(a) && LastUnseen(w1, fates)))
  {
    hide Locked, CloseAccounts, Answered, LastUnseen, SetupTracks, SameOutside;
    CloseAccountsAnswers(w1, setup.verified, maxRetries, fates);
    var (w2, r) := CloseAccounts(w1, setup.verified, maxRetries, fates);
    AnsweredMeans(w1.chain, w2.chain, setup.verified, r);
    SetupMeans(w, w1, Setup([], [], []), setup, false, requests, fates);
    FailedSetup(w, w1, w2, setup, requests, r, fates);
    assert multiset(r.leftOpen + setup.unverified) == multiset(r.leftOpen) + multiset(setup.unverified);
    assert multiset(Tracked(setup)) == multiset(setup.verified) + multiset(setup.unverified);
  }

  lemma ReadyOperation(w1: World, all: seq<Address>, earlier: seq<nat>, assembly: Assembly, fits: bool,
                       maxRetries: nat, fates: Fates)
    ensures var (w', end) := Finish(w1, all, earlier, assembly, fits, maxRetries, fates);
            && (end.Unbuilt? <==> assembly.NoInstruction?)
            && (end.Unbuilt? ==> w' == w1)
            && Lamports(w'.chain) == Lamports(w1.chain) && SameOutside(w1.chain, w'.chain, all)
            && w1.chain.landed <= w'.chain.landed <= w1.chain.landed + 1
            && (end.Done? ==> w'.chain.landed == w1.chain.landed + 1)
            && (fits && w'.chain.landed > w1.chain.landed ==> forall a :: a in all ==> a !in w'.chain.accounts)
            && (end.Abandoned? ==>
                  && multiset(end.cleanup.closed) + multiset(end.cleanup.leftOpen) == multiset(all)
                  && (forall a :: a in end.cleanup.closed ==> a !in w'.chain.accounts)
                  && (forall a :: a in all && a in w'.chain.accounts ==> a in end.cleanup.leftOpen))
  {
    hide Locked, CloseAccounts, SendAgain, Answered, OpenAfter, TookEffect, ActionTx;
    if assembly.NoInstruction? {
    } else if assembly.NoHookAccounts? {
      CloseAccountsAnswers(w1, all, maxRetries, fates);
      var (w2, r) := CloseAccounts(w1, all, maxRetries, fates);
      AnsweredMeans(w1.chain, w2.chain, all, r);
    } else {
      ActionOpens(all, fits);
      SendAgainTouches(w1, ActionTx(all, fits), maxRetries, fates, all);
      var (w2, sent) := SendAgain(w1, ActionTx(all, fits), 0, maxRetries, fates);
      CloseAccountsAnswers(w2, all, maxRetries, fates);
      var (w3, r) := CloseAccounts(w2, all, maxRetries, fates);
      AnsweredMeans(w2.chain, w3.chain, all, r);
    }
  }

  lemma SetupMeans(w: World, w1: World, s: Setup, s': Setup, ok: bool, requests: seq<Request>, fates: Fates)
    requires s == Setup([], [], []) && SetupTracks(w, w1, s, s', ok, requests, fates)
    ensures var all := AddressesOf(requests);
            && Lamports(w1.chain) == Lamports(w.chain) && w1.chain.landed == w.chain.landed
            && SameOutside(w.chain, w1.chain, all)
            && (forall a :: a in Tracked(s') ==> a in all)
            && (ok ==> s'.verified == all && s'.unverified == [] && forall a :: a in all ==> Closable(w1.chain, a))
            && |s'.unverified| <= 1
  {
    hide Locked, SameOutside;
  }

  lemma AnsweredMeans(c: Chain, d: Chain, accounts: seq<Address>, r: Cleanup)
    requires Answered(c, d, accounts, r)
    ensures d.landed == c.landed && Lamports(d) == Lamports(c) && SameOutside(c, d, accounts)
    ensures multiset(r.closed) + multiset(r.leftOpen) == multiset(accounts)
    ensures forall a :: a in d.accounts ==> a in c.accounts
    ensures forall a :: a in r.closed ==> a in accounts && a !in d.accounts
    ensures forall a :: a in accounts && a in d.accounts ==> a in r.leftOpen
  {
    hide Locked;
    forall a | a in accounts && a in d.accounts
      ensures a in r.leftOpen
    {
      AnsweredOpen(c, d, accounts, r, a);
    }
  }

  lemma FailedSetup(w: World, w1: World, w2: World, setup: Setup, requests: seq<Request>, r: Cleanup, fates: Fates)
    requires Distinct(AddressesOf(requests))
    requires SetupTracks(w, w1, Setup([], [], []), setup, false, requests, fates)
    requires SameOutside(w1.chain, w2.chain, setup.verified)
    requires forall a :: a in r.closed ==> a in setup.verified && a !in w2.chain.accounts
    requires forall a :: a in setup.verified && a in w2.chain.accounts ==> a in r.leftOpen
    ensures var all := AddressesOf(requests);
            && SameOutside(w.chain, w2.chain, all)
            && forall a :: a in all && a in w2.chain.accounts ==>
                 || a in r.leftOpen + setup.unverified
                 || (a !in Tracked(setup) && Pending(setup, all) == Some(a) && LastUnseen(w1, fates))
  {
    hide Locked, LastUnseen;
    var all := AddressesOf(requests);
    var k := |setup.verified|;
    assert setup.verified == all[..k];
    forall a | a in all && a in w2.chain.accounts
      ensures || a in r.leftOpen + setup.unverified
              || (a !in Tracked(setup) && Pending(setup, all) == Some(a) && LastUnseen(w1, fates))
    {
      var j :| 0 <= j < |all| && all[j] == a;
      if j >= k {
        assert a !in setup.verified;
        assert a in w1.chain.accounts;
        assert j == k;
      }
    }
  }

  lemma ActionOpens(proofs: seq<Address>, fits: bool)
    ensures Acts(ActionTx(proofs, fits)) == 1 && Within(ActionTx(proofs, fits), proofs)
    ensures forall a, open :: OpenAfter(ActionTx(proofs, fits), a, open) == (open && (!fits || a !in proofs))
  {
    var tail := if fits then Closes(proofs) else [];
    var tx := ActionTx(proofs, fits);
    assert tx[1..] == tail;
    ClosesTouch(proofs, 0, false);
    forall a, open
      ensures OpenAfter(tx, a, open) == (open && (!fits || a !in proofs))
    {
      ClosesTouch(proofs, a, open);
    }
    assert forall k :: 1 <= k < |tx| ==> tx[k] == tail[k - 1];
  }

  // The action lands at most once, and exactly once when the operation succeeds. When the closes fit
  // with it, the action has landed in no final state in which a proof account of it is open.
  lemma OperationLands(w: World, requests: seq<Request>, assembly: Assembly, fits: bool, maxRetries: nat, fates: Fates)
    requires Drawn(w.chain, requests)
    ensures var (w', end) := Operation(w, requests, assembly, fits, maxRetries, fates);
            && w.chain.landed <= w'.chain.landed <= w.chain.landed + 1
            && (end.Done? ==> w'.chain.landed == w.chain.landed + 1)
            && (fits && w'.chain.landed > w.chain.landed ==>
                  forall a :: a in AddressesOf(requests) ==> a !in w'.chain.accounts)
  {
    hide Locked, CreateAccounts, CloseAccounts, SendAgain, Answered, LastUnseen, SetupTracks, SameOutside;
    var all := AddressesOf(requests);
    var start := Setup([], [], []);
    SetupKeepsTrack(w, start, requests, maxRetries, fates);
    var (w1, setup, ok) := CreateAccounts(w, start, requests, maxRetries, fates);
    SetupMeans(w, w1, start, setup, ok, requests, fates);
    if !ok {
      CloseAccountsAnswers(w1, setup.verified, maxRetries, fates);
      var (w2, r) := CloseAccounts(w1, setup.verified, maxRetries, fates);
      AnsweredMeans(w1.chain, w2.chain, setup.verified, r);
    } else {
      ReadyOperation(w1, all, setup.signatures, assembly, fits, maxRetries, fates);
    }
  }

  // ---- signatures ----

  // These are confirmed sends among those numbered `from` up to `to`, each listed once, in order.
  ghost predicate AreConfirmed(signatures: seq<nat>, from: nat, to: nat, fates: Fates) {
    && from <= to
    && (forall k :: 0 <= k < |signatures| ==>
          from <= signatures[k] < to && fates(signatures[k]).simulated.Passes?
              && fates(signatures[k]).confirmed.Confirms?)
    && (forall j, k :: 0 <= j < k < |signatures| ==> signatures[j] < signatures[k])
  }

  lemma ConfirmedJoin(first: seq<nat>, second: seq<nat>, from: nat, between: nat, to: nat, fates: Fates)
    requires AreConfirmed(first, from, between, fates) && AreConfirmed(second, between, to, fates)
    ensures AreConfirmed(first + second, from, to, fates)
  {
  }

  lemma NoneConfirmed(from: nat, to: nat, fates: Fates)
    requires from <= to
    ensures AreConfirmed([], from, to, fates)
  {
  }

  lemma {:induction false} SendSigns(w: World, tx: Tx, attempt: nat, maxRetries: nat, fates: Fates)
    requires attempt <= maxRetries
    ensures var (w', ok) := SendAgain(w, tx, attempt, maxRetries, fates);
            w.sends < w'.sends && AreConfirmed(if ok then [Latest(w')] else [], w.sends, w'.sends, fates)
    decreases maxRetries - attempt
  {
    hide Land;
    var (w1, sent) := Send(w, tx, fates);
    if sent.Expired? && attempt < maxRetries {
      SendSigns(w1, tx, attempt + 1, maxRetries, fates);
    }
  }

  // The closing's signatures are of confirmed sends, one for every one to eight accounts closed.
  ghost predicate ClosingSigned(r: Cleanup, from: nat, to: nat, fates: Fates) {
    AreConfirmed(r.signatures, from, to, fates) && |r.signatures| <= |r.closed| <= 8 * |r.signatures|
  }

  lemma JoinSigned(a: Cleanup, b: Cleanup, from: nat, between: nat, to: nat, fates: Fates)
    requires ClosingSigned(a, from, between, fates) && ClosingSigned(b, between, to, fates)
    ensures ClosingSigned(Join(a, b), from, to, fates)
  {
    hide AreConfirmed;
    ConfirmedJoin(a.signatures, b.signatures, from, between, to, fates);
  }

  lemma CallSigned(w: World, batch: seq<Address>, maxRetries: nat, fates: Fates)
    requires 0 < |batch| <= CLOSES_PER_TRANSACTION
    ensures var (w', ok) := SendAgain(w, Closes(batch), 0, maxRetries, fates);
            ClosingSigned(OneCall(batch, ok, w'), w.sends, w'.sends, fates)
  {
    hide SendAgain, AreConfirmed;
    SendSigns(w, Closes(batch), 0, maxRetries, fates);
  }

  lemma NothingSigned(from: nat, to: nat, fates: Fates)
    requires from <= to
    ensures ClosingSigned(NOTHING, from, to, fates) && ClosingSigned(FAILED_CALL, from, to, fates)
  {
    hide AreConfirmed;
    NoneConfirmed(from, to, fates);
  }

  lemma {:induction false} CloseEachSigned(w: World, accounts: seq<Address>, maxRetries: nat, fates: Fates)
    ensures var (w', r) := CloseEach(w, accounts, maxRetries, fates); ClosingSigned(r, w.sends, w'.sends, fates)
    decreases accounts
  {
    hide SendAgain, ClosingSigned, Join, OneCall;
    if accounts == [] {
      NothingSigned(w.sends, w.sends, fates);
    } else {
      var (w1, ok) := SendAgain(w, Closes(accounts[..1]), 0, maxRetries, fates);
      var (w2, rest) := CloseEach(w1, accounts[1..], maxRetries, fates);
      CallSigned(w, accounts[..1], maxRetries, fates);
      CloseEachSigned(w1, accounts[1..], maxRetries, fates);
      JoinSigned(OneCall(accounts[..1], ok, w1), rest, w.sends, w1.sends, w2.sends, fates);
    }
  }

  lemma CloseBatchSigned(w: World, batch: seq<Address>, maxRetries: nat, fates: Fates)
    requires 0 < |batch| <= CLOSES_PER_TRANSACTION
    ensures var (w', r) := CloseBatch(w, batch, maxRetries, fates); ClosingSigned(r, w.sends, w'.sends, fates)
  {
    hide SendAgain, ClosingSigned, Join, OneCall, CloseEach;
    var (w1, ok) := SendAgain(w, Closes(batch), 0, maxRetries, fates);
    if !ok && |batch| > 1 {
      var (w2, each) := CloseEach(w1, batch, maxRetries, fates);
      SendSigns(w, Closes(batch), 0, maxRetries, fates);
      NothingSigned(w.sends, w1.sends, fates);
      CloseEachSigned(w1, batch, maxRetries, fates);
      JoinSigned(FAILED_CALL, each, w.sends, w1.sends, w2.sends, fates);
    } else {
      CallSigned(w, batch, maxRetries, fates);
    }
  }

  lemma {:induction false} CloseAccountsSigned(w: World, accounts: seq<Address>, maxRetries: nat, fates: Fates)
    ensures var (w', r) := CloseAccounts(w, accounts, maxRetries, fates); ClosingSigned(r, w.sends, w'.sends, fates)
    decreases |accounts|
  {
    hide ClosingSigned, Join, CloseBatch;
    if accounts == [] {
      NothingSigned(w.sends, w.sends, fates);
    } else {
      var batch := accounts[..Least(CLOSES_PER_TRANSACTION, |accounts|)];
      var (w1, first) := CloseBatch(w, batch, maxRetries, fates);
      var (w2, rest) := CloseAccounts(w1, accounts[|batch|..], maxRetries, fates);
      CloseBatchSigned(w, batch, maxRetries, fates);
      CloseAccountsSigned(w1, accounts[|batch|..], maxRetries, fates);
      JoinSigned(first, rest, w.sends, w1.sends, w2.sends, fates);
    }
  }

  // How many transactions set these accounts up.
  function SetupTransactions(requests: seq<Request>): nat {
    if requests == [] then 0 else (if requests[0].split then 2 else 1) + SetupTransactions(requests[1..])
  }

  // One account adds the signature of each of its transactions that landed.
  lemma CreateSigns(w: World, s: Setup, r: Request, maxRetries: nat, fates: Fates, from: nat)
    requires AreConfirmed(s.signatures, from, w.sends, fates)
    ensures var (w', s', ok) := CreateAccount(w, s, r, maxRetries, fates);
            && AreConfirmed(s'.signatures, from, w'.sends, fates)
            && |s'.signatures| - |s.signatures|
               == if ok then SetupTransactions([r]) else |s'.unverified| - |s.unverified|
  {
    hide SendAgain, AreConfirmed;
    assert [r][1..] == [];
    var w0 := w.(sends := w.sends + 1);
    var early := s.signatures;
    NoneConfirmed(w.sends, w0.sends, fates);
    ConfirmedJoin(early, [], from, w.sends, w0.sends, fates);
    assert early + [] == early;
    if !fates(w.sends).simulated.Unreachable? {
      var (w1, created) := SendAgain(w0, CreateTx(r), 0, maxRetries, fates);
      SendSigns(w0, CreateTx(r), 0, maxRetries, fates);
      ConfirmedJoin(early, if created then [Latest(w1)] else [], from, w0.sends, w1.sends, fates);
      if created && r.split {
        var (w2, done) := SendAgain(w1, [Verify(r.address)], 0, maxRetries, fates);
        SendSigns(w1, [Verify(r.address)], 0, maxRetries, fates);
        var more := early + [Latest(w1)];
        ConfirmedJoin(more, if done then [Latest(w2)] else [], from, w1.sends, w2.sends, fates);
        assert more + [] == more;
      }
    }
  }

  lemma {:induction false} SetupSigns(w: World, s: Setup, requests: seq<Request>, maxRetries: nat, fates: Fates,
                                      from: nat)
    requires AreConfirmed(s.signatures, from, w.sends, fates)
    ensures var (w', s', ok) := CreateAccounts(w, s, requests, maxRetries, fates);
            && AreConfirmed(s'.signatures, from, w'.sends, fates)
            && var verified := |s'.verified| - |s.verified|;
               && 0 <= verified <= |requests| && (ok ==> verified == |requests| && s'.unverified == s.unverified)
               && |s'.signatures| - |s.signatures|
                  == SetupTransactions(requests[..verified]) + |s'.unverified| - |s.unverified|
    decreases requests
  {
    hide CreateAccount, AreConfirmed;
    if requests != [] {
      var (w1, s1, ok) := CreateAccount(w, s, requests[0], maxRetries, fates);
      CreateSigns(w, s, requests[0], maxRetries, fates, from);
      CreateLists(w, s, requests[0], maxRetries, fates);
      assert [requests[0]][1..] == [];
      if ok {
        SetupSigns(w1, s1, requests[1..], maxRetries, fates, from);
        var s2 := CreateAccounts(w1, s1, requests[1..], maxRetries, fates).1;
        var n := |s2.verified| - |s1.verified|;
        assert requests[..n + 1][1..] == requests[1..][..n] && requests[..n + 1][0] == requests[0];
      }
    }
  }

  lemma CreateLists(w: World, s: Setup, r: Request, maxRetries: nat, fates: Fates)
    ensures var (_, s', ok) := CreateAccount(w, s, r, maxRetries, fates);
            && |s'.verified| == |s.verified| + (if ok then 1 else 0)
            && (ok ==> s'.unverified == s.unverified)
  {
    hide SendAgain;
  }

  function SignaturesOf(end: End): seq<nat> {
    match end
    case Done(signatures) => signatures
    case Abandoned(cleanup) => cleanup.signatures
    case Unbuilt => []
  }

  // Whatever the end, the signatures it hands over are of confirmed sends of this operation, each
  // once and in order: those of the setup's transactions that landed, the action's, and then one for
  // every one to eight accounts it closed.
  lemma OperationSigns(w: World, requests: seq<Request>, assembly: Assembly, fits: bool, maxRetries: nat, fates: Fates)
    ensures var (w', end) := Operation(w, requests, assembly, fits, maxRetries, fates);
            && AreConfirmed(SignaturesOf(end), w.sends, w'.sends, fates)
            && (end.Done? ==> |end.signatures| > SetupTransactions(requests))
            && (end.Done? && fits ==> |end.signatures| == SetupTransactions(requests) + 1)
            && (end.Abandoned? ==>
                  var setup := CreateAccounts(w, Setup([], [], []), requests, maxRetries, fates).1;
                  var n, closed := |setup.verified|, |end.cleanup.closed|;
                  && n <= |requests|
                  && var landed := SetupTransactions(requests[..n]) + |setup.unverified|;
                     landed + (closed + 7) / 8 <= |end.cleanup.signatures| <= landed + closed)
  {
    hide CreateAccounts, CloseAccounts, SendAgain, AreConfirmed, SetupTransactions;
    var start := Setup([], [], []);
    NoneConfirmed(w.sends, w.sends, fates);
    SetupSigns(w, start, requests, maxRetries, fates, w.sends);
    assert requests[..|requests|] == requests;
    var (w1, setup, ok) := CreateAccounts(w, start, requests, maxRetries, fates);
    if !ok {
      FollowedByClosing(w1, setup.signatures, setup.verified, maxRetries, fates, w.sends);
    } else if assembly.NoHookAccounts? {
      FollowedByClosing(w1, setup.signatures, setup.verified, maxRetries, fates, w.sends);
    } else if assembly.NoInstruction? {
      ConfirmedNone(setup.signatures, w.sends, w1.sends, fates);
    } else {
      var tx := ActionTx(setup.verified, fits);
      var (w2, sent) := SendAgain(w1, tx, 0, maxRetries, fates);
      var more := setup.signatures + if sent then [Latest(w2)] else [];
      SendSigns(w1, tx, 0, maxRetries, fates);
      ConfirmedJoin(setup.signatures, if sent then [Latest(w2)] else [], w.sends, w1.sends, w2.sends, fates);
      assert setup.signatures + [] == setup.signatures;
      FollowedByClosing(w2, more, setup.verified, maxRetries, fates, w.sends);
    }
  }

  lemma ConfirmedNone(signatures: seq<nat>, from: nat, to: nat, fates: Fates)
    requires AreConfirmed(signatures, from, to, fates)
    ensures AreConfirmed([], from, to, fates)
  {
  }

  lemma FollowedByClosing(w: World, signatures: seq<nat>, accounts: seq<Address>, maxRetries: nat, fates: Fates,
                          from: nat)
    requires AreConfirmed(signatures, from, w.sends, fates)
    ensures var (w', r) := CloseAccounts(w, accounts, maxRetries, fates);
            && AreConfirmed(signatures + r.signatures, from, w'.sends, fates)
            && |r.signatures| <= |r.closed| <= 8 * |r.signatures|
  {
    hide CloseAccounts, AreConfirmed;
    CloseAccountsSigned(w, accounts, maxRetries, fates);
    var (w', r) := CloseAccounts(w, accounts, maxRetries, fates);
    ConfirmedJoin(signatures, r.signatures, from, w.sends, w'.sends, fates);
  }
}
