// src/internal/send.ts: sending the transactions of a transfer or withdraw, closing the proof
// accounts when one fails, and running the whole again after an expiry.
module ProofFlow {
  import opened Wrappers
  import opened Cluster

  const CLOSES_PER_TRANSACTION := 8

  // ---- closing proof accounts ----

  datatype Closing = Closing(closed: seq<Address>, leftOpen: seq<Address>)

  function Existing(c: Chain, addresses: seq<Address>): (r: seq<Address>)
    ensures forall a :: a in r <==> a in addresses && a in c.accounts
    ensures |r| <= |addresses|
  {
    if addresses == [] then []
    else (if addresses[0] in c.accounts then [addresses[0]] else []) + Existing(c, addresses[1..])
  }

  function Without(addresses: seq<Address>, removed: seq<Address>): (r: seq<Address>)
    ensures forall a :: a in r <==> a in addresses && a !in removed
  {
    if addresses == [] then []
    else (if addresses[0] in removed then [] else [addresses[0]]) + Without(addresses[1..], removed)
  }

  function Least(a: nat, b: nat): nat {
    if a < b then a else b
  }

  // The batches of eight, in order; what a successful batch closes is closed.
  function CloseBatches(w: World, accounts: seq<Address>, fates: Fates): (r: (World, seq<Address>))
    decreases |accounts|
  {
    if accounts == [] then (w, [])
    else
      var batch := accounts[..Least(CLOSES_PER_TRANSACTION, |accounts|)];
      var (w1, sent) := Send(w, Closes(batch), fates);
      var (w2, closed) := CloseBatches(w1, accounts[|batch|..], fates);
      Onto(if sent.Success? then batch else [], (w2, closed))
  }

  // The read of the accounts that exist takes one request, and may fail.
  function CloseAll(w: World, addresses: seq<Address>, fates: Fates): (World, Closing) {
    if addresses == [] then (w, Closing([], []))
    else
      var w1 := w.(sends := w.sends + 1);
      if fates(w.sends).simulated.Unreachable? then (w1, Closing([], addresses))
      else
        var existing := Existing(w.chain, addresses);
        var (w2, closed) := CloseBatches(w1, existing, fates);
        (w2, Closing(closed, Without(existing, closed)))
  }

  // ---- one flow ----

  // The planned transactions, in order, and the proof accounts they create.
  datatype Flow = Flow(txs: seq<Tx>, accounts: seq<Address>)

  function Flat(txs: seq<Tx>): Tx {
    if txs == [] then [] else txs[0] + Flat(txs[1..])
  }

  // Index of the first transaction holding the action, or -1.
  function ActionIndex(txs: seq<Tx>): (k: int)
    ensures -1 <= k < |txs|
    ensures k >= 0 ==> Acts(txs[k]) > 0
    ensures forall m :: 0 <= m < (if k >= 0 then k else |txs|) ==> Acts(txs[m]) == 0
  {
    if txs == [] then -1
    else if Acts(txs[0]) > 0 then 0
    else
      var k := ActionIndex(txs[1..]);
      if k == -1 then -1 else k + 1
  }

  // `signatures` are the transactions sent, by index.
  datatype FlowEnd =
    | Returned(signatures: seq<nat>, leftOpen: seq<Address>)
    | Threw(retryable: bool, signatures: seq<nat>, closed: seq<Address>, leftOpen: seq<Address>)

  function RunFrom(w: World, flow: Flow, i: nat, signatures: seq<nat>, fates: Fates): (World, FlowEnd)
    requires i <= |flow.txs|
    decreases |flow.txs| - i
  {
    if i == |flow.txs| then (w, Returned(signatures, []))
    else
      var (w1, sent) := Send(w, flow.txs[i], fates);
      if sent.Success? then RunFrom(w1, flow, i + 1, signatures + [i], fates)
      else
        var (w2, closing) := CloseAll(w1, flow.accounts, fates);
        if ActionIndex(flow.txs) != -1 && i > ActionIndex(flow.txs) then (w2, Returned(signatures, closing.leftOpen))
        else (w2, Threw(sent.Expired?, signatures, closing.closed, closing.leftOpen))
  }

  // ---- the whole, with retries ----

  // What an attempt finds: an error before anything is sent, or a flow to execute.
  datatype Attempt = Unprepared | Prepared(flow: Flow)

  datatype Outcome = NotPrepared | Ended(end: FlowEnd)

  // Attempt `n` and, while it fails with a retryable error, up to `retries` in all after the first.
  function RetryFrom(w: World, attempts: nat -> Attempt, n: nat, retries: nat, fates: Fates): (r: (World, Outcome, nat))
    requires n <= retries
    ensures n < r.2 <= retries + 1
    decreases retries - n
  {
    if attempts(n).Unprepared? then (w, NotPrepared, n + 1)
    else
      var (w1, end) := RunFrom(w, attempts(n).flow, 0, [], fates);
      if end.Threw? && end.retryable && n < retries then RetryFrom(w1, attempts, n + 1, retries, fates)
      else (w1, Ended(end), n + 1)
  }

  // ---- recoverProofAccounts ----

  // What the RPC lists: the proof accounts of the payer, with their lamports.
  datatype Found = Found(address: Address, lamports: nat)

  datatype Recovery = Recovery(closing: Closing, lamports: nat)

  function Addresses(found: seq<Found>): (r: seq<Address>)
    ensures |r| == |found| && forall k :: 0 <= k < |found| ==> r[k] == found[k].address
  {
    seq(|found|, k requires 0 <= k < |found| => found[k].address)
  }

  function LamportsOf(found: seq<Found>, closed: seq<Address>): nat {
    if found == [] then 0
    else (if found[0].address in closed then found[0].lamports else 0) + LamportsOf(found[1..], closed)
  }

  function Recover(w: World, found: seq<Found>, fates: Fates): (World, Recovery) {
    var (w1, closing) := CloseAll(w, Addresses(found), fates);
    (w1, Recovery(closing, LamportsOf(found, closing.closed)))
  }

  // ---- the code ----

  class Session {
    var world: World
    const fates: Fates

    constructor (world: World, fates: Fates)
      ensures this.world == world && this.fates == fates
    {
      this.world := world;
      this.fates := fates;
    }

    method SimulateAndSend(tx: Tx) returns (sent: Sent)
      modifies this
      ensures (world, sent) == Send(old(world), tx, fates)
    {
      var fate := fates(world.sends);
      world := world.(sends := world.sends + 1);
      if fate.simulated.Unreachable? {
        return Failed; // the request itself threw
      }
      if fate.simulated.Errors? {
        return Failed;
      }
      match fate.confirmed {
        case BlockHeightExceeded =>
          return Expired;
        case Unclear(landed) =>
          if landed {
            world := world.(chain := Land(world.chain, tx, fate.fee).0);
          }
          return Failed;
        case Confirms =>
          var (chain, executed) := Land(world.chain, tx, fate.fee);
          world := world.(chain := chain);
          return if executed then Success else Failed;
      }
    }

    method CloseProofAccounts(addresses: seq<Address>) returns (r: Closing)
      modifies this
      ensures (world, r) == CloseAll(old(world), addresses, fates)
    {
      if |addresses| == 0 {
        return Closing([], []);
      }
      var read := fates(world.sends);
      world := world.(sends := world.sends + 1);
      if read.simulated.Unreachable? {
        return Closing([], addresses);
      }
      var existing := Existing(world.chain, addresses);
      if |existing| == 0 {
        return Closing([], []);
      }
      var closed: seq<Address> := [];
      var i := 0;
      ghost var whole := CloseBatches(world, existing, fates);
      assert existing[0..] == existing;
      OntoNothing(whole);
      while i < |existing|
        invariant 0 <= i <= |existing|
        invariant whole == Onto(closed, CloseBatches(world, existing[i..], fates))
      {
        hide Send, Closes, Existing, Onto;
        ghost var rest := existing[i..];
        var batch := existing[i..Least(i + CLOSES_PER_TRANSACTION, |existing|)];
        assert batch == rest[..Least(CLOSES_PER_TRANSACTION, |rest|)];
        var sent := SimulateAndSend(Closes(batch));
        assert existing[i..][|batch|..] == existing[Least(i + CLOSES_PER_TRANSACTION, |existing|)..];
        OntoMore(closed, if sent.Success? then batch else [], CloseBatches(world, rest[|batch|..], fates));
        if sent.Success? {
          closed := closed + batch;
        } else {
          assert closed + [] == closed;
        }
        i := Least(i + CLOSES_PER_TRANSACTION, |existing|);
      }
      assert closed + [] == closed;
      return Closing(closed, Without(existing, closed));
    }

    method ExecuteProofFlow(flow: Flow) returns (end: FlowEnd)
      modifies this
      ensures (world, end) == RunFrom(old(world), flow, 0, [], fates)
    {
      var actionIndex := ActionIndex(flow.txs);
      var signatures: seq<nat> := [];
      ghost var whole := RunFrom(world, flow, 0, [], fates);
      for i := 0 to |flow.txs|
        invariant whole == RunFrom(world, flow, i, signatures, fates)
      {
        var sent := SimulateAndSend(flow.txs[i]);
        if sent.Success? {
          signatures := signatures + [i];
        } else {
          var actionLanded := actionIndex != -1 && i > actionIndex;
          var closing := CloseProofAccounts(flow.accounts);
          if actionLanded {
            return Returned(signatures, closing.leftOpen);
          }
          return Threw(sent.Expired?, signatures, closing.closed, closing.leftOpen);
        }
      }
      return Returned(signatures, []);
    }

    // `retries` of nothing, or below zero, is no retry.
    method WithRetries(retries: Option<int>, attempts: nat -> Attempt) returns (outcome: Outcome, tries: nat)
      modifies this
      ensures (world, outcome, tries) == RetryFrom(old(world), attempts, 0, MostRetries(retries), fates)
    {
      hide RunFrom;
      var n := 0;
      ghost var whole := RetryFrom(world, attempts, 0, MostRetries(retries), fates);
      while true
        invariant 0 <= n <= MostRetries(retries)
        invariant whole == RetryFrom(world, attempts, n, MostRetries(retries), fates)
        decreases MostRetries(retries) - n
      {
        if attempts(n).Unprepared? {
          return NotPrepared, n + 1;
        }
        var end := ExecuteProofFlow(attempts(n).flow);
        if end.Returned? || n >= (if retries.Some? then retries.value else 0) || !end.retryable {
          return Ended(end), n + 1;
        }
        n := n + 1;
      }
    }
  }

  // What the remaining batches close, after what is closed already.
  function Onto(closed: seq<Address>, rest: (World, seq<Address>)): (World, seq<Address>) {
    (rest.0, closed + rest.1)
  }

  lemma OntoNothing(rest: (World, seq<Address>))
    ensures Onto([], rest) == rest
  {
    assert [] + rest.1 == rest.1;
  }

  lemma OntoMore(closed: seq<Address>, more: seq<Address>, rest: (World, seq<Address>))
    ensures Onto(closed, Onto(more, rest)) == Onto(closed + more, rest)
  {
    assert closed + (more + rest.1) == closed + more + rest.1;
  }

  function MostRetries(retries: Option<int>): nat {
    if retries.Some? && retries.value > 0 then retries.value else 0
  }
}
