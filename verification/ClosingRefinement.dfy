// The two clients' ways of closing proof accounts, compared when no send is lost: eight at a time
// (send.ts), and eight at a time falling back to one by one (proofs.rs).
module ClosingRefinement {
  import opened Cluster
  import opened ProofFlow
  import opened RustProofs

  // What becomes of a transaction when nothing is lost. Either the simulation refuses it, and so would
  // the chain; or it arrives and is confirmed, and the payer can afford its fee.
  predicate Fair(c: Chain, tx: Tx, fate: Fate) {
    || (fate.simulated.Errors? && Exec(c, tx).None?)
    || (fate.simulated.Passes? && fate.confirmed.Confirms? && fate.fee <= c.payer)
  }

  // The same of the last attempt, after any number of expiries.
  predicate FairAgain(w: World, tx: Tx, attempt: nat, maxRetries: nat, fates: Fates)
    requires attempt <= maxRetries
    decreases maxRetries - attempt
  {
    var (w1, sent) := Send(w, tx, fates);
    if sent.Expired? && attempt < maxRetries then FairAgain(w1, tx, attempt + 1, maxRetries, fates)
    else Fair(w.chain, tx, fates(w.sends))
  }

  // The same of every transaction sent while closing: by TypeScript,
  predicate FairBatches(w: World, accounts: seq<Address>, fates: Fates)
    decreases |accounts|
  {
    accounts != [] ==>
      var batch := accounts[..Least(CLOSES_PER_TRANSACTION, |accounts|)];
      && Fair(w.chain, Closes(batch), fates(w.sends))
      && FairBatches(Send(w, Closes(batch), fates).0, accounts[|batch|..], fates)
  }

  // after reading which accounts exist;
  predicate FairAll(w: World, addresses: seq<Address>, fates: Fates) {
    && !fates(w.sends).simulated.Unreachable?
    && FairBatches(w.(sends := w.sends + 1), Existing(w.chain, addresses), fates)
  }

  // and by Rust, one by one,
  predicate FairEach(w: World, accounts: seq<Address>, maxRetries: nat, fates: Fates)
    decreases accounts
  {
    accounts != [] ==>
      && FairAgain(w, Closes(accounts[..1]), 0, maxRetries, fates)
      && FairEach(SendAgain(w, Closes(accounts[..1]), 0, maxRetries, fates).0, accounts[1..], maxRetries, fates)
  }

  // for a batch,
  predicate FairBatch(w: World, batch: seq<Address>, maxRetries: nat, fates: Fates) {
    && FairAgain(w, Closes(batch), 0, maxRetries, fates)
    && var (w1, ok) := SendAgain(w, Closes(batch), 0, maxRetries, fates);
       !ok && |batch| > 1 ==> FairEach(w1, batch, maxRetries, fates)
  }

  // and for all batches.
  predicate FairAccounts(w: World, accounts: seq<Address>, maxRetries: nat, fates: Fates)
    decreases |accounts|
  {
    accounts != [] ==>
      var batch := accounts[..Least(CLOSES_PER_TRANSACTION, |accounts|)];
      && FairBatch(w, batch, maxRetries, fates)
      && FairAccounts(CloseBatch(w, batch, maxRetries, fates).0, accounts[|batch|..], maxRetries, fates)
  }

  function ClosableOf(c: Chain, accounts: seq<Address>): (r: seq<Address>)
    ensures forall a :: a in r <==> a in accounts && Closable(c, a)
  {
    if accounts == [] then []
    else (if Closable(c, accounts[0]) then [accounts[0]] else []) + ClosableOf(c, accounts[1..])
  }

  function UnclosableOf(c: Chain, accounts: seq<Address>): (r: seq<Address>)
    ensures forall a :: a in r <==> a in accounts && !Closable(c, a)
  {
    if accounts == [] then []
    else (if Closable(c, accounts[0]) then [] else [accounts[0]]) + UnclosableOf(c, accounts[1..])
  }

  // The batches of eight that are closable as a whole.
  function WholeBatches(c: Chain, accounts: seq<Address>): (r: seq<Address>)
    ensures forall a :: a in r ==> a in accounts && Closable(c, a)
    decreases |accounts|
  {
    if accounts == [] then []
    else
      var batch := accounts[..Least(CLOSES_PER_TRANSACTION, |accounts|)];
      var rest := WholeBatches(c, accounts[|batch|..]);
      assert forall a :: a in accounts[|batch|..] ==> a in accounts;
      (if AllClosable(c, batch) then batch else []) + rest
  }

  // `d` is `c` after closing `closed`.
  ghost predicate Less(c: Chain, d: Chain, closed: seq<Address>) {
    d.accounts == map a | a in c.accounts && a !in closed :: c.accounts[a]
  }

  lemma LessTrans(c: Chain, d: Chain, e: Chain, first: seq<Address>, second: seq<Address>)
    requires Less(c, d, first) && Less(d, e, second)
    ensures Less(c, e, first + second)
  {
  }

  // Closing other accounts does not change which of these are closable.
  lemma {:induction false} LessKeeps(c: Chain, d: Chain, closed: seq<Address>, accounts: seq<Address>)
    requires Less(c, d, closed) && forall a :: a in accounts ==> a !in closed
    ensures forall a :: a in accounts ==> (Closable(d, a) <==> Closable(c, a))
    ensures ClosableOf(d, accounts) == ClosableOf(c, accounts)
    ensures UnclosableOf(d, accounts) == UnclosableOf(c, accounts)
    ensures AllClosable(d, accounts) <==> AllClosable(c, accounts)
  {
    if accounts != [] {
      LessKeeps(c, d, closed, accounts[1..]);
    }
  }

  // A fair send of closes for distinct accounts succeeds exactly when all are closable.
  lemma FairClose(w: World, accounts: seq<Address>, fates: Fates)
    requires Fair(w.chain, Closes(accounts), fates(w.sends)) && Distinct(accounts)
    ensures var (w', sent) := Send(w, Closes(accounts), fates);
            if AllClosable(w.chain, accounts)
            then sent == Success && Less(w.chain, w'.chain, accounts)
            else sent == Failed && Less(w.chain, w'.chain, [])
  {
    hide Exec, Closes, Closable;
    var fate := fates(w.sends);
    assert w.chain.accounts == map a | a in w.chain.accounts && a !in [] :: w.chain.accounts[a];
    if fate.simulated.Errors? {
      ExecCloses(w.chain, accounts);
    } else {
      var charged := Charge(w.chain, fate.fee);
      ExecCloses(charged, accounts);
      SameClosable(w.chain, charged, accounts);
    }
  }

  lemma SameClosable(c: Chain, d: Chain, accounts: seq<Address>)
    requires c.accounts == d.accounts
    ensures AllClosable(c, accounts) <==> AllClosable(d, accounts)
  {
    forall k | 0 <= k < |accounts|
      ensures Closable(c, accounts[k]) <==> Closable(d, accounts[k])
    {
    }
  }

  lemma {:induction false} FairCloseAgain(w: World, accounts: seq<Address>, attempt: nat, maxRetries: nat, fates: Fates)
    requires attempt <= maxRetries && FairAgain(w, Closes(accounts), attempt, maxRetries, fates) && Distinct(accounts)
    ensures var (w', ok) := SendAgain(w, Closes(accounts), attempt, maxRetries, fates);
            && (ok <==> AllClosable(w.chain, accounts))
            && Less(w.chain, w'.chain, if ok then accounts else [])
    decreases maxRetries - attempt
  {
    hide Send, Less, Closable, Closes, Fair;
    var (w1, sent) := Send(w, Closes(accounts), fates);
    if sent.Expired? && attempt < maxRetries {
      ExpiryKeeps(w, Closes(accounts), fates);
      FairCloseAgain(w1, accounts, attempt + 1, maxRetries, fates);
    } else {
      FairClose(w, accounts, fates);
    }
  }

  lemma ExpiryKeeps(w: World, tx: Tx, fates: Fates)
    ensures var (w', sent) := Send(w, tx, fates); sent.Expired? ==> w'.chain == w.chain
  {
    hide Land;
  }

  lemma DistinctParts(accounts: seq<Address>, k: nat)
    requires Distinct(accounts) && k <= |accounts|
    ensures Distinct(accounts[..k]) && Distinct(accounts[k..])
    ensures forall a :: a in accounts[k..] ==> a !in accounts[..k]
  {
  }

  // What closing `accounts` achieves when all the closable ones are closed.
  ghost predicate ClosesClosable(c: Chain, d: Chain, accounts: seq<Address>, r: Cleanup) {
    r.closed == ClosableOf(c, accounts) && r.leftOpen == UnclosableOf(c, accounts) && Less(c, d, r.closed)
  }

  lemma {:induction false} OfConcat(c: Chain, first: seq<Address>, rest: seq<Address>)
    ensures ClosableOf(c, first + rest) == ClosableOf(c, first) + ClosableOf(c, rest)
    ensures UnclosableOf(c, first + rest) == UnclosableOf(c, first) + UnclosableOf(c, rest)
  {
    hide Closable, ClosableOf, UnclosableOf;
    if first == [] {
      OfNone(c);
      assert first + rest == rest;
    } else {
      OfConcat(c, first[1..], rest);
      OfFirst(c, first);
      OfFirst(c, first + rest);
      assert (first + rest)[1..] == first[1..] + rest && (first + rest)[0] == first[0];
      Regroup([first[0]], ClosableOf(c, first[1..]), ClosableOf(c, rest));
      Regroup([first[0]], UnclosableOf(c, first[1..]), UnclosableOf(c, rest));
    }
  }

  lemma Regroup(x: seq<Address>, a: seq<Address>, b: seq<Address>)
    ensures x + (a + b) == (x + a) + b
  {
  }

  lemma OfNone(c: Chain)
    ensures ClosableOf(c, []) == [] && UnclosableOf(c, []) == []
  {
  }

  lemma OfFirst(c: Chain, accounts: seq<Address>)
    requires accounts != []
    ensures ClosableOf(c, accounts)
         == if Closable(c, accounts[0]) then [accounts[0]] + ClosableOf(c, accounts[1..])
             else ClosableOf(c, accounts[1..])
    ensures UnclosableOf(c, accounts)
         == if Closable(c, accounts[0]) then UnclosableOf(c, accounts[1..])
             else [accounts[0]] + UnclosableOf(c, accounts[1..])
  {
  }

  lemma OfOne(c: Chain, a: Address)
    ensures ClosableOf(c, [a]) == if Closable(c, a) then [a] else []
    ensures UnclosableOf(c, [a]) == if Closable(c, a) then [] else [a]
    ensures AllClosable(c, [a]) <==> Closable(c, a)
  {
    assert [a][1..] == [];
  }

  lemma {:induction false} OfWhole(c: Chain, accounts: seq<Address>)
    requires AllClosable(c, accounts)
    ensures ClosableOf(c, accounts) == accounts && UnclosableOf(c, accounts) == []
  {
    hide Closable, ClosableOf, UnclosableOf;
    if accounts == [] {
      OfNone(c);
    } else {
      var rest := accounts[1..];
      assert forall k :: 0 <= k < |rest| ==> rest[k] == accounts[k + 1];
      OfWhole(c, rest);
      OfFirst(c, accounts);
      assert accounts == [accounts[0]] + rest;
    }
  }

  lemma ClosesThen(c: Chain, d: Chain, e: Chain, first: seq<Address>, rest: seq<Address>, r: Cleanup, s: Cleanup)
    requires ClosesClosable(c, d, first, r) && ClosesClosable(d, e, rest, s)
    requires forall a :: a in rest ==> a !in first
    ensures ClosesClosable(c, e, first + rest, Join(r, s))
  {
    hide Less, Closable;
    LessKeeps(c, d, r.closed, rest);
    LessTrans(c, d, e, r.closed, s.closed);
    OfConcat(c, first, rest);
  }

  lemma {:induction false} EachCloses(w: World, accounts: seq<Address>, maxRetries: nat, fates: Fates)
    requires FairEach(w, accounts, maxRetries, fates) && Distinct(accounts)
    ensures var (w', r) := CloseEach(w, accounts, maxRetries, fates); ClosesClosable(w.chain, w'.chain, accounts, r)
    decreases accounts
  {
    hide SendAgain, FairAgain, Less, Closable, ClosableOf, UnclosableOf, Distinct, AllClosable;
    if accounts == [] {
      LessNothing(w.chain);
      OfNone(w.chain);
    } else {
      DistinctParts(accounts, 1);
      var one := accounts[..1];
      FairCloseAgain(w, one, 0, maxRetries, fates);
      var (w1, ok) := SendAgain(w, Closes(one), 0, maxRetries, fates);
      EachCloses(w1, accounts[1..], maxRetries, fates);
      var (w2, rest) := CloseEach(w1, accounts[1..], maxRetries, fates);
      assert one == [accounts[0]];
      OfOne(w.chain, accounts[0]);
      ClosesThen(w.chain, w1.chain, w2.chain, one, accounts[1..], OneCall(one, ok, w1), rest);
      assert accounts == one + accounts[1..];
    }
  }

  lemma LessNothing(c: Chain)
    ensures Less(c, c, [])
  {
  }

  lemma BatchCloses(w: World, batch: seq<Address>, maxRetries: nat, fates: Fates)
    requires FairBatch(w, batch, maxRetries, fates) && Distinct(batch) && batch != []
    ensures var (w', r) := CloseBatch(w, batch, maxRetries, fates); ClosesClosable(w.chain, w'.chain, batch, r)
  {
    hide SendAgain, FairAgain, FairEach, Less, Closable, CloseEach, ClosableOf, UnclosableOf, Distinct, AllClosable;
    FairCloseAgain(w, batch, 0, maxRetries, fates);
    var (w1, ok) := SendAgain(w, Closes(batch), 0, maxRetries, fates);
    if ok {
      OfWhole(w.chain, batch);
    } else if |batch| > 1 {
      EachCloses(w1, batch, maxRetries, fates);
      var (w2, each) := CloseEach(w1, batch, maxRetries, fates);
      LessKeeps(w.chain, w1.chain, [], batch);
      LessTrans(w.chain, w1.chain, w2.chain, [], each.closed);
      JoinCalls(each);
      assert [] + each.closed == each.closed;
    } else {
      assert batch == [batch[0]];
      OfOne(w.chain, batch[0]);
    }
  }

  // Rust closes exactly the closable accounts and reports the others, in order.
  lemma {:induction false} RustClosesClosable(w: World, accounts: seq<Address>, maxRetries: nat, fates: Fates)
    requires FairAccounts(w, accounts, maxRetries, fates) && Distinct(accounts)
    ensures var (w', r) := CloseAccounts(w, accounts, maxRetries, fates);
            && r.closed == ClosableOf(w.chain, accounts) && r.leftOpen == UnclosableOf(w.chain, accounts)
            && Less(w.chain, w'.chain, r.closed)
    decreases |accounts|
  {
    hide CloseBatch, FairBatch, Less, Closable, Join, ClosableOf, UnclosableOf, Distinct;
    if accounts == [] {
      OfNone(w.chain);
      LessNothing(w.chain);
    } else {
      var batch := accounts[..Least(CLOSES_PER_TRANSACTION, |accounts|)];
      DistinctParts(accounts, |batch|);
      var (w1, first) := CloseBatch(w, batch, maxRetries, fates);
      BatchCloses(w, batch, maxRetries, fates);
      RustClosesClosable(w1, accounts[|batch|..], maxRetries, fates);
      var (w2, rest) := CloseAccounts(w1, accounts[|batch|..], maxRetries, fates);
      ClosesThen(w.chain, w1.chain, w2.chain, batch, accounts[|batch|..], first, rest);
      assert accounts == batch + accounts[|batch|..];
    }
  }

  lemma {:induction false} WholeBatchesKept(c: Chain, d: Chain, closed: seq<Address>, accounts: seq<Address>)
    requires Less(c, d, closed) && forall a :: a in accounts ==> a !in closed
    ensures WholeBatches(d, accounts) == WholeBatches(c, accounts)
    decreases |accounts|
  {
    hide Less, Closable;
    if accounts != [] {
      var batch := accounts[..Least(CLOSES_PER_TRANSACTION, |accounts|)];
      LessKeeps(c, d, closed, batch);
      WholeBatchesKept(c, d, closed, accounts[|batch|..]);
    }
  }

  lemma {:induction false} BatchesClose(w: World, accounts: seq<Address>, fates: Fates)
    requires FairBatches(w, accounts, fates) && Distinct(accounts)
    ensures var (w', closed) := CloseBatches(w, accounts, fates);
            closed == WholeBatches(w.chain, accounts) && Less(w.chain, w'.chain, closed)
    decreases |accounts|
  {
    hide Send, Fair, Less, Closable;
    if accounts == [] {
      LessNothing(w.chain);
    } else {
      var batch := accounts[..Least(CLOSES_PER_TRANSACTION, |accounts|)];
      var rest := accounts[|batch|..];
      DistinctParts(accounts, |batch|);
      FairClose(w, batch, fates);
      var (w1, sent) := Send(w, Closes(batch), fates);
      var first := if sent.Success? then batch else [];
      BatchesClose(w1, rest, fates);
      WholeBatchesKept(w.chain, w1.chain, first, rest);
      var (w2, closed) := CloseBatches(w1, rest, fates);
      LessTrans(w.chain, w1.chain, w2.chain, first, closed);
    }
  }

  lemma {:induction false} ExistingDistinct(c: Chain, addresses: seq<Address>)
    requires Distinct(addresses)
    ensures Distinct(Existing(c, addresses))
  {
    if addresses != [] {
      DistinctCons(addresses);
      ExistingDistinct(c, addresses[1..]);
      var e := Existing(c, addresses);
      if e != [] && addresses[0] in c.accounts {
        assert e[1..] == Existing(c, addresses[1..]);
        DistinctCons(e);
      }
    }
  }

  // TypeScript closes exactly the wholly closable batches of those that exist, so a subset of what
  // Rust closes; and all of it exactly when no batch mixes closable with unclosable accounts. Each
  // client meets fates of its own.
  lemma Refines(w: World, addresses: seq<Address>, fates: Fates, maxRetries: nat, rustFates: Fates)
    requires FairAll(w, addresses, fates) && FairAccounts(w, addresses, maxRetries, rustFates) && Distinct(addresses)
    ensures var ts := CloseAll(w, addresses, fates).1;
            var rust := CloseAccounts(w, addresses, maxRetries, rustFates).1;
            var existing := Existing(w.chain, addresses);
            && ts.closed == WholeBatches(w.chain, existing)
            && (forall a :: a in ts.closed ==> a in rust.closed)
            && ((forall a :: a in rust.closed ==> a in ts.closed) <==> NoMixedBatch(w.chain, existing))
  {
    hide CloseBatches, CloseAccounts, FairBatches, FairAccounts, Less, Closable, Existing, ClosableOf, WholeBatches,
         Without, Distinct, NoMixedBatch;
    var existing := Existing(w.chain, addresses);
    ExistingDistinct(w.chain, addresses);
    BatchesClose(w.(sends := w.sends + 1), existing, fates);
    RustClosesClosable(w, addresses, maxRetries, rustFates);
    ClosableExists(w.chain);
    MixedBatches(w.chain, existing);
    if addresses == [] {
      NothingToClose(w.chain, addresses);
    }
  }

  lemma NothingToClose(c: Chain, addresses: seq<Address>)
    requires addresses == []
    ensures Existing(c, addresses) == [] && WholeBatches(c, []) == []
  {
  }

  lemma ClosableExists(c: Chain)
    ensures forall a :: Closable(c, a) ==> a in c.accounts
  {
  }

  predicate NoMixedBatch(c: Chain, accounts: seq<Address>)
    decreases |accounts|
  {
    if accounts == [] then true
    else
      var batch := accounts[..Least(CLOSES_PER_TRANSACTION, |accounts|)];
      (AllClosable(c, batch) || ClosableOf(c, batch) == []) && NoMixedBatch(c, accounts[|batch|..])
  }

  lemma {:induction false} MixedBatches(c: Chain, accounts: seq<Address>)
    requires Distinct(accounts)
    ensures (forall a :: a in ClosableOf(c, accounts) ==> a in WholeBatches(c, accounts)) <==> NoMixedBatch(c, accounts)
    decreases |accounts|
  {
    hide Closable;
    if accounts != [] {
      var batch := accounts[..Least(CLOSES_PER_TRANSACTION, |accounts|)];
      var rest := accounts[|batch|..];
      DistinctParts(accounts, |batch|);
      MixedBatches(c, rest);
      assert accounts == batch + rest;
      OfConcat(c, batch, rest);
      if AllClosable(c, batch) {
        OfWhole(c, batch);
      } else if ClosableOf(c, batch) != [] {
        assert ClosableOf(c, batch)[0] in ClosableOf(c, accounts);
        assert ClosableOf(c, batch)[0] !in WholeBatches(c, accounts);
      }
    }
  }

  // ---- a batch that differs ----

  function OneOfTwo(): Chain {
    Chain(map[0 := ProofAccount(5, true), 1 := ProofAccount(5, false)], 0, 0, 0)
  }

  function Refusing(): Fates {
    k => Fate(Errors, Confirms, 0)
  }

  function RefusingButOne(): Fates {
    k => if k == 1 then Fate(Passes, Confirms, 0) else Fate(Errors, Confirms, 0)
  }

  lemma RefusedBatch(c: Chain, accounts: seq<Address>)
    requires 1 in accounts && !Closable(c, 1)
    ensures Exec(c, Closes(accounts)).None?
  {
    hide Exec, Closes;
    ExecCloses(c, accounts);
  }

  lemma RefusedSend(w: World, tx: Tx, fates: Fates)
    requires fates(w.sends).simulated.Errors?
    ensures Send(w, tx, fates) == (World(w.chain, w.sends + 1), Failed)
    ensures SendAgain(w, tx, 0, 0, fates) == (World(w.chain, w.sends + 1), false)
    ensures Exec(w.chain, tx).None? ==> FairAgain(w, tx, 0, 0, fates)
  {
    hide Exec;
  }

  // A batch of a closable and an unclosable account: the simulations refuse what the chain would
  // refuse, and TypeScript closes neither,
  lemma MixedTypeScript()
    ensures var w := World(OneOfTwo(), 0);
            FairAll(w, [0, 1], Refusing()) && CloseAll(w, [0, 1], Refusing()).1 == Closing([], [0, 1])
  {
    hide Exec, Closes, Send, Fair;
    var c, fates := OneOfTwo(), Refusing();
    var both: seq<Address> := [0, 1];
    var w1 := World(c, 1);
    RefusedBatch(c, both);
    RefusedSend(w1, Closes(both), fates);
    assert Fair(c, Closes(both), fates(1)) by {
      FairRefused(c, Closes(both), fates(1));
    }
    assert both[1..] == [1] && [1][1..] == [] && both[..2] == both && both[2..] == [];
    assert Existing(c, [1]) == [1] + Existing(c, []);
    assert Existing(c, both) == [0] + Existing(c, [1]) == both;
    assert FairBatches(w1, both, fates);
    assert CloseBatches(w1, both, fates).1 == [];
    assert Without([1], []) == [1] + Without([], []);
    assert Without(both, []) == [0] + Without([1], []) == both;
  }

  lemma FairRefused(c: Chain, tx: Tx, fate: Fate)
    requires fate.simulated.Errors? && Exec(c, tx).None?
    ensures Fair(c, tx, fate)
  {
  }

  // while Rust closes the closable one.
  lemma MixedRust()
    ensures var w := World(OneOfTwo(), 0);
            && FairAccounts(w, [0, 1], 0, RefusingButOne())
            && CloseAccounts(w, [0, 1], 0, RefusingButOne()).1.closed == [0]
  {
    hide Closable, ClosableOf, CloseAccounts, FairAccounts;
    var w := World(OneOfTwo(), 0);
    var both: seq<Address> := [0, 1];
    MixedFair();
    RustClosesClosable(w, both, 0, RefusingButOne());
    assert ClosableOf(w.chain, both) == [0] by {
      OfConcat(w.chain, [0], [1]);
      OneClosable();
      OfOne(w.chain, 0);
      OfOne(w.chain, 1);
      assert both == [0] + [1];
    }
  }

  lemma OneClosable()
    ensures Closable(OneOfTwo(), 0) && !Closable(OneOfTwo(), 1)
  {
  }

  lemma MixedFair()
    ensures FairAccounts(World(OneOfTwo(), 0), [0, 1], 0, RefusingButOne())
  {
    hide Exec, Closes, Send, SendAgain, FairAgain, FairEach, Closable, CloseBatch;
    var c, fates := OneOfTwo(), RefusingButOne();
    var both: seq<Address> := [0, 1];
    var w0 := World(c, 0);
    OneClosable();
    RefusedBatch(c, both);
    RefusedSend(w0, Closes(both), fates);
    MixedEach();
    assert FairBatch(w0, both, 0, fates);
    OneFairBatch(w0, both, 0, fates);
  }

  lemma OneFairBatch(w: World, batch: seq<Address>, maxRetries: nat, fates: Fates)
    requires 0 < |batch| <= CLOSES_PER_TRANSACTION && FairBatch(w, batch, maxRetries, fates)
    ensures FairAccounts(w, batch, maxRetries, fates)
  {
    hide FairBatch, CloseBatch;
    assert batch[..|batch|] == batch && batch[|batch|..] == [];
    assert FairAccounts(CloseBatch(w, batch, maxRetries, fates).0, [], maxRetries, fates);
  }

  lemma MixedEach()
    ensures FairEach(World(OneOfTwo(), 1), [0, 1], 0, RefusingButOne())
  {
    hide Exec, Closes, SendAgain;
    var c, fates := OneOfTwo(), RefusingButOne();
    var both: seq<Address> := [0, 1];
    var w1 := World(c, 1);
    assert both[..1] == [0] && both[1..] == [1] && [1][..1] == [1] && [1][1..] == [];
    FairCloseAgain(w1, [0], 0, 0, fates);
    var w2 := SendAgain(w1, Closes([0]), 0, 0, fates).0;
    assert w2.sends == 2 by {
      SendsOnce(w1, Closes([0]), fates);
    }
    RefusedBatch(w2.chain, [1]);
    RefusedSend(w2, Closes([1]), fates);
    assert FairEach(w2, [1], 0, fates);
  }

  lemma SendsOnce(w: World, tx: Tx, fates: Fates)
    ensures SendAgain(w, tx, 0, 0, fates).0.sends == w.sends + 1
  {
  }
}
