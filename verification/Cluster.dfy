// The chain as a client sees it: proof accounts with rent, atomic transactions, and an adversary
// that decides what becomes of each send.
module Cluster {
  import opened Wrappers

  type Address = nat

  // A context-state account of the proof program; it can be closed once a proof is verified into it.
  datatype ProofAccount = ProofAccount(rent: nat, verified: bool)

  // `Act` is the transfer or withdraw itself, which reads verified proof accounts.
  datatype Ix =
    | Create(account: Address, rent: nat)
    | Verify(account: Address)
    | Act(proofs: seq<Address>)
    | Close(account: Address)

  type Tx = seq<Ix>

  // `landed` counts the actions that took effect.
  datatype Chain = Chain(accounts: map<Address, ProofAccount>, payer: nat, fees: nat, landed: nat)

  function ExecOne(c: Chain, ix: Ix): Option<Chain> {
    match ix
    case Create(a, rent) =>
      if a in c.accounts || c.payer < rent then None
      else Some(c.(accounts := c.accounts[a := ProofAccount(rent, false)], payer := c.payer - rent))
    case Verify(a) =>
      if a !in c.accounts || c.accounts[a].verified then None
      else Some(c.(accounts := c.accounts[a := c.accounts[a].(verified := true)]))
    case Act(proofs) =>
      if exists k :: 0 <= k < |proofs| && (proofs[k] !in c.accounts || !c.accounts[proofs[k]].verified) then None
      else Some(c.(landed := c.landed + 1))
    case Close(a) =>
      if a !in c.accounts || !c.accounts[a].verified then None
      else Some(c.(accounts := c.accounts - {a}, payer := c.payer + c.accounts[a].rent))
  }

  // Transactions are atomic: all instructions take effect or none.
  function Exec(c: Chain, tx: Tx): Option<Chain>
    decreases tx
  {
    if tx == [] then Some(c)
    else if ExecOne(c, tx[0]).None? then None
    else Exec(ExecOne(c, tx[0]).value, tx[1..])
  }

  datatype Simulated = Passes | Errors | Unreachable

  // `Unclear` is any other failure to confirm: the transaction may have landed all the same.
  datatype Confirmed = Confirms | BlockHeightExceeded | Unclear(landed: bool)

  datatype Fate = Fate(simulated: Simulated, confirmed: Confirmed, fee: nat)

  type Fates = nat -> Fate

  datatype Sent = Success | Failed | Expired

  // `sends` numbers the requests made so far; the fates are theirs.
  datatype World = World(chain: Chain, sends: nat)

  function Charge(c: Chain, fee: nat): Chain
    requires fee <= c.payer
  {
    c.(payer := c.payer - fee, fees := c.fees + fee)
  }

  // A landed transaction pays its fee even when it fails.
  function Land(c: Chain, tx: Tx, fee: nat): (r: (Chain, bool)) {
    if fee > c.payer then (c, false)
    else
      var charged := Charge(c, fee);
      if Exec(charged, tx).Some? then (Exec(charged, tx).value, true) else (charged, false)
  }

  // What a send does to the chain, and what the client is told. A transaction whose block height
  // was exceeded does not land.
  function SendOnce(c: Chain, tx: Tx, fate: Fate): (Chain, Sent) {
    if !fate.simulated.Passes? then (c, Failed)
    else match fate.confirmed
      case BlockHeightExceeded => (c, Expired)
      case Unclear(false) => (c, Failed)
      case Unclear(true) => (Land(c, tx, fate.fee).0, Failed)
      case Confirms => (Land(c, tx, fate.fee).0, if Land(c, tx, fate.fee).1 then Success else Failed)
  }

  function Send(w: World, tx: Tx, fates: Fates): (World, Sent) {
    var (chain, sent) := SendOnce(w.chain, tx, fates(w.sends));
    (World(chain, w.sends + 1), sent)
  }

  // ---- reading transactions ----

  function Acts(tx: Tx): nat {
    if tx == [] then 0 else (if tx[0].Act? then 1 else 0) + Acts(tx[1..])
  }

  // Is `a` open after these instructions, if `open` says whether it was before?
  predicate OpenAfter(tx: Tx, a: Address, open: bool) {
    if tx == [] then open else OpenAfter(tx[1..], a, OpenAfterOne(tx[0], a, open))
  }

  predicate OpenAfterOne(ix: Ix, a: Address, open: bool) {
    if ix == Close(a) then false else if ix.Create? && ix.account == a then true else open
  }

  // Only these proof accounts are created, verified or closed.
  predicate Within(tx: Tx, accounts: seq<Address>) {
    forall k :: 0 <= k < |tx| && !tx[k].Act? ==> tx[k].account in accounts
  }

  function Closes(accounts: seq<Address>): (tx: Tx)
    ensures |tx| == |accounts|
    ensures forall k :: 0 <= k < |tx| ==> tx[k] == Close(accounts[k])
  {
    seq(|accounts|, k requires 0 <= k < |accounts| => Close(accounts[k]))
  }

  // ---- what executing does ----

  lemma {:induction false} ExecActs(c: Chain, tx: Tx)
    requires Exec(c, tx).Some?
    ensures Exec(c, tx).value.landed == c.landed + Acts(tx)
    decreases tx
  {
    if tx != [] {
      ExecActs(ExecOne(c, tx[0]).value, tx[1..]);
    }
  }

  lemma {:induction false} ExecOpens(c: Chain, tx: Tx, a: Address)
    requires Exec(c, tx).Some?
    ensures a in Exec(c, tx).value.accounts <==> OpenAfter(tx, a, a in c.accounts)
    decreases tx
  {
    if tx != [] {
      ExecOpens(ExecOne(c, tx[0]).value, tx[1..], a);
    }
  }

  // Accounts that the transaction does not name are untouched.
  ghost predicate SameOutside(c: Chain, d: Chain, accounts: seq<Address>) {
    forall a :: a !in accounts ==>
        (a in c.accounts <==> a in d.accounts) && (a in c.accounts ==> c.accounts[a] == d.accounts[a])
  }

  lemma {:induction false} ExecWithin(c: Chain, tx: Tx, accounts: seq<Address>)
    requires Exec(c, tx).Some? && Within(tx, accounts)
    ensures SameOutside(c, Exec(c, tx).value, accounts)
    decreases tx
  {
    if tx != [] {
      assert Within(tx[1..], accounts);
      ExecWithin(ExecOne(c, tx[0]).value, tx[1..], accounts);
    }
  }

  lemma {:induction false} ClosesTouch(accounts: seq<Address>, a: Address, open: bool)
    ensures OpenAfter(Closes(accounts), a, open) == (open && a !in accounts)
    ensures Acts(Closes(accounts)) == 0
    ensures Within(Closes(accounts), accounts)
  {
    if accounts != [] {
      assert Closes(accounts)[1..] == Closes(accounts[1..]);
      assert accounts == [accounts[0]] + accounts[1..];
      ClosesTouch(accounts[1..], a, open && a != accounts[0]);
    }
  }

  predicate Distinct(accounts: seq<Address>) {
    forall i, j :: 0 <= i < j < |accounts| ==> accounts[i] != accounts[j]
  }

  predicate Closable(c: Chain, a: Address) {
    a in c.accounts && c.accounts[a].verified
  }

  predicate AllClosable(c: Chain, accounts: seq<Address>) {
    forall k :: 0 <= k < |accounts| ==> Closable(c, accounts[k])
  }

  function Closed(c: Chain, a: Address): Chain
    requires Closable(c, a)
  {
    c.(accounts := c.accounts - {a}, payer := c.payer + c.accounts[a].rent)
  }

  lemma ExecClosesFirst(c: Chain, accounts: seq<Address>)
    requires accounts != []
    ensures Exec(c, Closes(accounts))
         == if Closable(c, accounts[0]) then Exec(Closed(c, accounts[0]), Closes(accounts[1..])) else None
  {
    assert Closes(accounts)[1..] == Closes(accounts[1..]);
    assert Closes(accounts)[0] == Close(accounts[0]);
  }

  // Closing several accounts at once works exactly when they are distinct and all closable, and
  // then removes exactly those.
  lemma {:induction false} ExecCloses(c: Chain, accounts: seq<Address>)
    ensures Exec(c, Closes(accounts)).Some? <==> Distinct(accounts) && AllClosable(c, accounts)
    ensures Exec(c, Closes(accounts)).Some? ==>
              Exec(c, Closes(accounts)).value.accounts == map a | a in c.accounts && a !in accounts :: c.accounts[a]
    decreases accounts
  {
    hide Exec, Closes;
    if accounts == [] {
      assert Exec(c, Closes(accounts)) == Some(c) by { ExecNothing(c); }
    } else {
      var a, rest := accounts[0], accounts[1..];
      ExecClosesFirst(c, accounts);
      if Closable(c, a) {
        ExecCloses(Closed(c, a), rest);
        assert forall k :: 0 <= k < |rest| ==> rest[k] == accounts[k + 1];
        assert forall b :: b in accounts <==> b == a || b in rest;
        assert Distinct(accounts) <==> Distinct(rest) && a !in rest by {
          DistinctCons(accounts);
        }
        assert AllClosable(Closed(c, a), rest) <==> a !in rest && AllClosable(c, rest);
        assert AllClosable(c, accounts) <==> AllClosable(c, rest) by {
          assert forall k :: 1 <= k < |accounts| ==> accounts[k] == rest[k - 1];
        }
      }
    }
  }

  lemma ExecNothing(c: Chain)
    ensures Exec(c, Closes([])) == Some(c)
  {
  }

  lemma DistinctCons(accounts: seq<Address>)
    requires accounts != []
    ensures Distinct(accounts) <==> Distinct(accounts[1..]) && accounts[0] !in accounts[1..]
  {
    var rest := accounts[1..];
    assert forall k :: 0 <= k < |rest| ==> rest[k] == accounts[k + 1];
    assert forall k :: 1 <= k < |accounts| ==> accounts[k] == rest[k - 1];
  }

  // ---- lamports ----

  ghost function Locked(accounts: map<Address, ProofAccount>): nat {
    if accounts == map[] then 0
    else
      var a :| a in accounts;
      accounts[a].rent + Locked(accounts - {a})
  }

  lemma {:induction false} LockedTake(accounts: map<Address, ProofAccount>, a: Address)
    requires a in accounts
    ensures Locked(accounts) == accounts[a].rent + Locked(accounts - {a})
    decreases |accounts|
  {
    var b :| b in accounts && Locked(accounts) == accounts[b].rent + Locked(accounts - {b});
    if a != b {
      LockedTake(accounts - {b}, a);
      LockedTake(accounts - {a}, b);
      assert accounts - {b} - {a} == accounts - {a} - {b};
    }
  }

  lemma LockedPut(accounts: map<Address, ProofAccount>, a: Address, p: ProofAccount)
    ensures a !in accounts ==> Locked(accounts[a := p]) == Locked(accounts) + p.rent
    ensures a in accounts && accounts[a].rent == p.rent ==> Locked(accounts[a := p]) == Locked(accounts)
  {
    LockedTake(accounts[a := p], a);
    assert accounts[a := p] - {a} == accounts - {a};
    if a in accounts {
      LockedTake(accounts, a);
    } else {
      assert accounts - {a} == accounts;
    }
  }

  // The payer's lamports, the rent in proof accounts and the fees paid.
  ghost function Lamports(c: Chain): nat {
    c.payer + Locked(c.accounts) + c.fees
  }

  lemma {:induction false} ExecConserves(c: Chain, tx: Tx)
    requires Exec(c, tx).Some?
    ensures Lamports(Exec(c, tx).value) == Lamports(c)
    decreases tx
  {
    if tx != [] {
      match tx[0] {
        case Create(a, rent) => LockedPut(c.accounts, a, ProofAccount(rent, false));
        case Verify(a) => LockedPut(c.accounts, a, c.accounts[a].(verified := true));
        case Act(_) =>
        case Close(a) => LockedTake(c.accounts, a);
      }
      ExecConserves(ExecOne(c, tx[0]).value, tx[1..]);
    }
  }

  // ---- what a send can do ----

  // A send leaves the chain as it was up to its fee, or applies the whole transaction; a success
  // has applied it, an expiry has done nothing at all.
  lemma SendEffect(w: World, tx: Tx, fates: Fates)
    ensures var (w', sent) := Send(w, tx, fates);
            var fee := fates(w.sends).fee;
            && Lamports(w'.chain) == Lamports(w.chain)
            && (sent.Expired? ==> w'.chain == w.chain)
            && (sent.Success? ==> fee <= w.chain.payer && Exec(Charge(w.chain, fee), tx) == Some(w'.chain))
            && (|| (w'.chain.accounts == w.chain.accounts && w'.chain.landed == w.chain.landed)
                || (fee <= w.chain.payer && Exec(Charge(w.chain, fee), tx) == Some(w'.chain)))
  {
    var fee := fates(w.sends).fee;
    if fee <= w.chain.payer && Exec(Charge(w.chain, fee), tx).Some? {
      ExecConserves(Charge(w.chain, fee), tx);
    }
  }

  // What the client is told: expired exactly when the block height was exceeded, and success exactly
  // when the transaction was confirmed and took effect.
  lemma OutcomeMeans(w: World, tx: Tx, fates: Fates)
    ensures var (w', sent) := Send(w, tx, fates);
            var fate := fates(w.sends);
            && w'.sends == w.sends + 1
            && (sent.Expired? <==> fate.simulated.Passes? && fate.confirmed.BlockHeightExceeded?)
            && (sent.Success? <==>
                  && fate.simulated.Passes? && fate.confirmed.Confirms? && fate.fee <= w.chain.payer
                  && Exec(Charge(w.chain, fate.fee), tx).Some?)
  {
    hide Exec;
  }

  // The same, about the actions landed and the accounts open.
  lemma SendTouches(w: World, tx: Tx, fates: Fates, accounts: seq<Address>)
    requires Within(tx, accounts)
    ensures var (w', sent) := Send(w, tx, fates);
            && (sent.Success? ==> w'.chain.landed == w.chain.landed + Acts(tx))
            && (w'.chain.landed == w.chain.landed || w'.chain.landed == w.chain.landed + Acts(tx))
            && SameOutside(w.chain, w'.chain, accounts)
            && (sent.Success? ==> forall a :: a in w'.chain.accounts <==> OpenAfter(tx, a, a in w.chain.accounts))
            && (|| w'.chain.accounts == w.chain.accounts
                || forall a :: a in w'.chain.accounts <==> OpenAfter(tx, a, a in w.chain.accounts))
  {
    hide Exec, OpenAfter, Locked;
    SendEffect(w, tx, fates);
    var fee := fates(w.sends).fee;
    if fee <= w.chain.payer && Exec(Charge(w.chain, fee), tx).Some? {
      var c := Charge(w.chain, fee);
      ExecActs(c, tx);
      ExecWithin(c, tx, accounts);
      forall a
        ensures a in Exec(c, tx).value.accounts <==> OpenAfter(tx, a, a in c.accounts)
      {
        ExecOpens(c, tx, a);
      }
    }
  }
}
