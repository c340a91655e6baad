// rust/src/send.rs, rust/src/proofs.rs and the proof handling of rust/src/client.rs: proof accounts
// are created one after the other, tracked, and closed one by one when a batch fails.
module RustProofs {
  import opened Cluster
  import opened ProofFlow

  // ---- Sender::send ----

  // Sends again after an expiry, up to `maxRetries` times.
  function SendAgain(w: World, tx: Tx, attempt: nat, maxRetries: nat, fates: Fates): (World, bool)
    requires attempt <= maxRetries
    decreases maxRetries - attempt
  {
    var (w1, sent) := Send(w, tx, fates);
    if sent.Expired? && attempt < maxRetries then SendAgain(w1, tx, attempt + 1, maxRetries, fates)
    else (w1, sent.Success?)
  }

  // ---- ProofSetup ----

  // A proof account to create: `split` sends its creation and its verification separately.
  datatype Request = Request(address: Address, rent: nat, split: bool)

  // What is created and verified, what is created only, and the transactions that landed, by number.
  datatype Setup = Setup(verified: seq<Address>, unverified: seq<Address>, signatures: seq<nat>)

  function Tracked(s: Setup): seq<Address> {
    s.verified + s.unverified
  }

  // The transaction that creates the account.
  function CreateTx(r: Request): Tx {
    if r.split then [Create(r.address, r.rent)] else [Create(r.address, r.rent), Verify(r.address)]
  }

  // The signature of the transaction sent last.
  function Latest(w: World): nat {
    if w.sends == 0 then 0 else w.sends - 1
  }

  function Signed(s: Setup, w: World): Setup {
    s.(signatures := s.signatures + [Latest(w)])
  }

  // ProofSetup::create. Asking for the rent is one request, which may fail.
  function CreateAccount(w: World, s: Setup, r: Request, maxRetries: nat, fates: Fates): (World, Setup, bool) {
    var w0 := w.(sends := w.sends + 1);
    if fates(w.sends).simulated.Unreachable? then (w0, s, false)
    else
      var (w1, created) := SendAgain(w0, CreateTx(r), 0, maxRetries, fates);
      if !created then (w1, s, false)
      else if !r.split then (w1, Signed(s, w1).(verified := s.verified + [r.address]), true)
      else
        var (w2, done) := SendAgain(w1, [Verify(r.address)], 0, maxRetries, fates);
        if !done then (w2, Signed(s, w1).(unverified := s.unverified + [r.address]), false)
        else (w2, Signed(Signed(s, w1), w2).(verified := s.verified + [r.address]), true)
  }

  function CreateAccounts(w: World, s: Setup, requests: seq<Request>, maxRetries: nat, fates: Fates)
    : (World, Setup, bool)
    decreases requests
  {
    if requests == [] then (w, s, true)
    else
      var (w1, s1, ok) := CreateAccount(w, s, requests[0], maxRetries, fates);
      if ok then CreateAccounts(w1, s1, requests[1..], maxRetries, fates) else (w1, s1, false)
  }

  // ---- close_proof_accounts ----

  // `signatures` are those of the closes that landed; `calls` counts the calls of Sender::send.
  datatype Cleanup = Cleanup(closed: seq<Address>, leftOpen: seq<Address>, signatures: seq<nat>, calls: nat)

  const NOTHING := Cleanup([], [], [], 0)
  const FAILED_CALL := Cleanup([], [], [], 1)

  function Join(a: Cleanup, b: Cleanup): Cleanup {
    Cleanup(a.closed + b.closed, a.leftOpen + b.leftOpen, a.signatures + b.signatures, a.calls + b.calls)
  }

  // One call, which left the world `w`.
  function OneCall(batch: seq<Address>, ok: bool, w: World): Cleanup {
    if ok then Cleanup(batch, [], [Latest(w)], 1) else Cleanup([], batch, [], 1)
  }

  function CloseEach(w: World, accounts: seq<Address>, maxRetries: nat, fates: Fates): (World, Cleanup)
    decreases accounts
  {
    if accounts == [] then (w, NOTHING)
    else
      var (w1, ok) := SendAgain(w, Closes(accounts[..1]), 0, maxRetries, fates);
      var (w2, rest) := CloseEach(w1, accounts[1..], maxRetries, fates);
      (w2, Join(OneCall(accounts[..1], ok, w1), rest))
  }

  function CloseBatch(w: World, batch: seq<Address>, maxRetries: nat, fates: Fates): (World, Cleanup) {
    var (w1, ok) := SendAgain(w, Closes(batch), 0, maxRetries, fates);
    if !ok && |batch| > 1 then
      var (w2, each) := CloseEach(w1, batch, maxRetries, fates);
      (w2, Join(FAILED_CALL, each))
    else (w1, OneCall(batch, ok, w1))
  }

  function CloseAccounts(w: World, accounts: seq<Address>, maxRetries: nat, fates: Fates): (World, Cleanup)
    decreases |accounts|
  {
    if accounts == [] then (w, NOTHING)
    else
      var batch := accounts[..Least(CLOSES_PER_TRANSACTION, |accounts|)];
      var (w1, first) := CloseBatch(w, batch, maxRetries, fates);
      var (w2, rest) := CloseAccounts(w1, accounts[|batch|..], maxRetries, fates);
      (w2, Join(first, rest))
  }

  // ProofSetup::fail, with all signatures of the setup and the closing.
  function FailSetup(w: World, s: Setup, maxRetries: nat, fates: Fates): (World, Cleanup) {
    var (w1, cleanup) := CloseAccounts(w, s.verified, maxRetries, fates);
    (w1, cleanup.(leftOpen := cleanup.leftOpen + s.unverified, signatures := s.signatures + cleanup.signatures))
  }

  // ---- a transfer or withdraw ----

  // What comes of assembling the action once its proofs are verified.
  datatype Assembly = Assembled | NoInstruction | NoHookAccounts

  // `Unbuilt`: the instruction could not be built, and the call returned with that error alone.
  datatype End = Done(signatures: seq<nat>) | Abandoned(cleanup: Cleanup) | Unbuilt

  // Prepare the proofs; build the action and find its hook's accounts; send it, with the closes if
  // they fit.
  function Operation(w: World, requests: seq<Request>, assembly: Assembly, fits: bool, maxRetries: nat, fates: Fates)
    : (World, End)
  {
    var (w1, setup, ok) := CreateAccounts(w, Setup([], [], []), requests, maxRetries, fates);
    if !ok then
      var (w2, cleanup) := FailSetup(w1, setup, maxRetries, fates);
      (w2, Abandoned(cleanup))
    else Finish(w1, setup.verified, setup.signatures, assembly, fits, maxRetries, fates)
  }

  // What is left to do once all proof accounts are verified.
  function Finish(w1: World, proofs: seq<Address>, signatures: seq<nat>, assembly: Assembly, fits: bool,
                  maxRetries: nat, fates: Fates): (World, End)
  {
    if assembly.NoInstruction? then (w1, Unbuilt)
    else if assembly.NoHookAccounts? then Abandon(w1, proofs, signatures, maxRetries, fates)
    else
      var (w2, sent) := SendAgain(w1, ActionTx(proofs, fits), 0, maxRetries, fates);
      if !sent then Abandon(w2, proofs, signatures, maxRetries, fates)
      else if fits then (w2, Done(signatures + [Latest(w2)]))
      else
        var (w3, cleanup) := CloseAccounts(w2, proofs, maxRetries, fates);
        (w3, Done(signatures + [Latest(w2)] + cleanup.signatures))
  }

  function Abandon(w: World, proofs: seq<Address>, signatures: seq<nat>, maxRetries: nat, fates: Fates): (World, End) {
    var (w1, cleanup) := CloseAccounts(w, proofs, maxRetries, fates);
    (w1, Abandoned(cleanup.(signatures := signatures + cleanup.signatures)))
  }

  function ActionTx(proofs: seq<Address>, fits: bool): Tx {
    [Act(proofs)] + if fits then Closes(proofs) else []
  }

  // ---- the code ----

  class Sender {
    const session: Session
    const maxRetries: nat

    constructor (session: Session, maxRetries: nat)
      ensures this.session == session && this.maxRetries == maxRetries
    {
      this.session := session;
      this.maxRetries := maxRetries;
    }

    method SendTransaction(tx: Tx) returns (ok: bool)
      modifies session
      ensures (session.world, ok) == SendAgain(old(session.world), tx, 0, maxRetries, session.fates)
    {
      var attempt := 0;
      ghost var whole := SendAgain(session.world, tx, 0, maxRetries, session.fates);
      while true
        invariant 0 <= attempt <= maxRetries
        invariant whole == SendAgain(session.world, tx, attempt, maxRetries, session.fates)
        decreases maxRetries - attempt
      {
        var sent := session.SimulateAndSend(tx);
        if sent.Expired? && attempt < maxRetries {
          attempt := attempt + 1;
        } else {
          return sent.Success?;
        }
      }
    }

    method CloseProofAccounts(accounts: seq<Address>) returns (outcome: Cleanup)
      modifies session
      ensures (session.world, outcome) == CloseAccounts(old(session.world), accounts, maxRetries, session.fates)
    {
      hide CloseAccounts, CloseBatch, Join, SendAgain, Continues;
      outcome := NOTHING;
      var i := 0;
      ghost var whole := CloseAccounts(session.world, accounts, maxRetries, session.fates);
      assert accounts[0..] == accounts;
      ContinuesAtStart(whole);
      while i < |accounts|
        invariant 0 <= i <= |accounts|
        invariant Continues(whole, outcome, CloseAccounts(session.world, accounts[i..], maxRetries, session.fates))
      {
        ghost var rest := accounts[i..];
        ghost var before, w := outcome, session.world;
        var batch := accounts[i..Least(i + CLOSES_PER_TRANSACTION, |accounts|)];
        assert batch == rest[..Least(CLOSES_PER_TRANSACTION, |rest|)];
        var closed := CloseOneBatch(batch);
        outcome := Join(outcome, closed);
        i := Least(i + CLOSES_PER_TRANSACTION, |accounts|);
        assert accounts[i..] == rest[|batch|..];
        CloseAccountsStep(w, rest, maxRetries, session.fates);
        ContinuesStep(whole, before, closed, CloseAccounts(session.world, accounts[i..], maxRetries, session.fates));
      }
      assert accounts[i..] == [];
      CloseAccountsNone(session.world, maxRetries, session.fates);
      ContinuesAtEnd(whole, outcome, session.world);
    }

    method CloseOneBatch(batch: seq<Address>) returns (outcome: Cleanup)
      modifies session
      ensures (session.world, outcome) == CloseBatch(old(session.world), batch, maxRetries, session.fates)
    {
      hide SendAgain, CloseEach, Join;
      var ok := SendTransaction(Closes(batch));
      if ok {
        return Cleanup(batch, [], [Latest(session.world)], 1);
      } else if |batch| > 1 {
        var each := CloseOneByOne(batch);
        return Join(FAILED_CALL, each);
      } else {
        return Cleanup([], batch, [], 1);
      }
    }

    method CloseOneByOne(batch: seq<Address>) returns (outcome: Cleanup)
      modifies session
      ensures (session.world, outcome) == CloseEach(old(session.world), batch, maxRetries, session.fates)
    {
      hide CloseEach, Join, SendAgain, Continues;
      outcome := NOTHING;
      ghost var whole := CloseEach(session.world, batch, maxRetries, session.fates);
      assert batch[0..] == batch;
      ContinuesAtStart(whole);
      for k := 0 to |batch|
        invariant Continues(whole, outcome, CloseEach(session.world, batch[k..], maxRetries, session.fates))
      {
        assert batch[k..][..1] == [batch[k]] && batch[k..][1..] == batch[k + 1..];
        ghost var before, w := outcome, session.world;
        var ok := SendTransaction(Closes([batch[k]]));
        var one := OneCall([batch[k]], ok, session.world);
        outcome := Join(outcome, one);
        CloseEachStep(w, batch[k..], maxRetries, session.fates);
        ContinuesStep(whole, before, one, CloseEach(session.world, batch[k + 1..], maxRetries, session.fates));
      }
      assert batch[|batch|..] == [];
      CloseEachNone(session.world, maxRetries, session.fates);
      ContinuesAtEnd(whole, outcome, session.world);
    }
  }

  // What was done so far, and what the rest will do, is the whole.
  ghost predicate Continues(whole: (World, Cleanup), sofar: Cleanup, rest: (World, Cleanup)) {
    whole == (rest.0, Join(sofar, rest.1))
  }

  lemma ContinuesAtStart(whole: (World, Cleanup))
    ensures Continues(whole, NOTHING, whole)
  {
    JoinNothing(whole.1);
  }

  lemma ContinuesStep(whole: (World, Cleanup), sofar: Cleanup, first: Cleanup, rest: (World, Cleanup))
    requires Continues(whole, sofar, (rest.0, Join(first, rest.1)))
    ensures Continues(whole, Join(sofar, first), rest)
  {
    hide Join;
    JoinAll(sofar, first, rest.1);
  }

  lemma ContinuesAtEnd(whole: (World, Cleanup), sofar: Cleanup, w: World)
    requires Continues(whole, sofar, (w, NOTHING))
    ensures whole == (w, sofar)
  {
    JoinNothing(sofar);
  }

  lemma CloseAccountsStep(w: World, accounts: seq<Address>, maxRetries: nat, fates: Fates)
    requires accounts != []
    ensures var batch := accounts[..Least(CLOSES_PER_TRANSACTION, |accounts|)];
            var (w1, first) := CloseBatch(w, batch, maxRetries, fates);
            var rest := CloseAccounts(w1, accounts[|batch|..], maxRetries, fates);
            CloseAccounts(w, accounts, maxRetries, fates) == (rest.0, Join(first, rest.1))
  {
    hide CloseBatch, Join;
  }

  lemma CloseAccountsNone(w: World, maxRetries: nat, fates: Fates)
    ensures CloseAccounts(w, [], maxRetries, fates) == (w, NOTHING)
  {
  }

  lemma CloseEachStep(w: World, accounts: seq<Address>, maxRetries: nat, fates: Fates)
    requires accounts != []
    ensures var (w1, ok) := SendAgain(w, Closes(accounts[..1]), 0, maxRetries, fates);
            var rest := CloseEach(w1, accounts[1..], maxRetries, fates);
            CloseEach(w, accounts, maxRetries, fates) == (rest.0, Join(OneCall(accounts[..1], ok, w1), rest.1))
  {
    hide SendAgain, Join, OneCall;
  }

  lemma CloseEachNone(w: World, maxRetries: nat, fates: Fates)
    ensures CloseEach(w, [], maxRetries, fates) == (w, NOTHING)
  {
  }

  class ProofSetup {
    const sender: Sender
    var verified: seq<Address>
    var unverified: seq<Address>
    var signatures: seq<nat>

    constructor (sender: Sender)
      ensures this.sender == sender && State() == Setup([], [], [])
    {
      this.sender := sender;
      verified, unverified, signatures := [], [], [];
    }

    function State(): Setup
      reads this
    {
      Setup(verified, unverified, signatures)
    }

    method Create(r: Request) returns (ok: bool)
      modifies this, sender.session
      ensures (sender.session.world, State(), ok)
           == CreateAccount(old(sender.session.world), old(State()), r, sender.maxRetries, sender.session.fates)
    {
      hide SendAgain;
      var session := sender.session;
      var fate := session.fates(session.world.sends);
      session.world := session.world.(sends := session.world.sends + 1);
      if fate.simulated.Unreachable? {
        return false;
      }
      var create := Ix.Create(r.address, r.rent);
      if r.split {
        var created := sender.SendTransaction([create]);
        if !created {
          return false;
        }
        signatures := signatures + [Latest(session.world)];
        var done := sender.SendTransaction([Verify(r.address)]);
        if !done {
          unverified := unverified + [r.address];
          return false;
        }
        signatures := signatures + [Latest(session.world)];
      } else {
        var created := sender.SendTransaction([create, Verify(r.address)]);
        if !created {
          return false;
        }
        signatures := signatures + [Latest(session.world)];
      }
      verified := verified + [r.address];
      return true;
    }

    method Fail() returns (accounts: Cleanup)
      modifies sender.session
      ensures (sender.session.world, accounts)
           == FailSetup(old(sender.session.world), State(), sender.maxRetries, sender.session.fates)
    {
      hide CloseAccounts;
      accounts := sender.CloseProofAccounts(verified);
      accounts := accounts.(leftOpen := accounts.leftOpen + unverified, signatures := signatures + accounts.signatures);
    }
  }

  // The client's transfer and withdraw, from the first proof account on.
  class Client {
    const sender: Sender

    constructor (sender: Sender)
      ensures this.sender == sender
    {
      this.sender := sender;
    }

    method Run(requests: seq<Request>, assembly: Assembly, fits: bool) returns (end: End)
      modifies sender.session
      ensures (sender.session.world, end)
           == Operation(old(sender.session.world), requests, assembly, fits, sender.maxRetries, sender.session.fates)
    {
      hide CreateAccount, CloseAccounts, SendAgain, Finish, FailSetup;
      var session := sender.session;
      var setup := new ProofSetup(sender);
      ghost var created := CreateAccounts(session.world, setup.State(), requests, sender.maxRetries, session.fates);
      assert requests[0..] == requests;
      for k := 0 to |requests|
        invariant setup.sender == sender && fresh(setup)
        invariant created
               == CreateAccounts(session.world, setup.State(), requests[k..], sender.maxRetries, session.fates)
      {
        assert requests[k..][1..] == requests[k + 1..];
        var ok := setup.Create(requests[k]);
        if !ok {
          var cleanup := setup.Fail();
          return Abandoned(cleanup);
        }
      }
      end := RunWithProofs(setup.verified, setup.signatures, assembly, fits);
    }

    // The part after the proofs: the rest of `transfer`, and `run_with_proofs`.
    method RunWithProofs(proofs: seq<Address>, earlier: seq<nat>, assembly: Assembly, fits: bool) returns (end: End)
      modifies sender.session
      ensures (sender.session.world, end)
           == Finish(old(sender.session.world), proofs, earlier, assembly, fits, sender.maxRetries,
                     sender.session.fates)
    {
      hide CloseAccounts, SendAgain;
      if assembly.NoInstruction? {
        return Unbuilt;
      }
      if assembly.NoHookAccounts? {
        end := AbandonProofs(proofs, earlier);
        return;
      }
      var together := [Act(proofs)];
      if fits {
        together := together + Closes(proofs);
      }
      assert together == ActionTx(proofs, fits);
      var sent := sender.SendTransaction(together);
      if !sent {
        end := AbandonProofs(proofs, earlier);
        return;
      }
      var signatures := earlier + [Latest(sender.session.world)];
      if !fits {
        var outcome := sender.CloseProofAccounts(proofs); // what stays open is not an error
        signatures := signatures + outcome.signatures;
      }
      return Done(signatures);
    }

    method AbandonProofs(accounts: seq<Address>, earlier: seq<nat>) returns (end: End)
      modifies sender.session
      ensures (sender.session.world, end)
           == Abandon(old(sender.session.world), accounts, earlier, sender.maxRetries, sender.session.fates)
    {
      hide CloseAccounts;
      var outcome := sender.CloseProofAccounts(accounts);
      return Abandoned(outcome.(signatures := earlier + outcome.signatures));
    }
  }

  // ---- bookkeeping ----

  lemma JoinAll(a: Cleanup, b: Cleanup, c: Cleanup)
    ensures Join(Join(a, b), c) == Join(a, Join(b, c))
  {
  }

  lemma JoinNothing(a: Cleanup)
    ensures Join(NOTHING, a) == a && Join(a, NOTHING) == a
  {
  }

  lemma JoinCalls(a: Cleanup)
    ensures Join(FAILED_CALL, a) == a.(calls := a.calls + 1)
  {
  }
}
