// signTransactionMessagesTogether of src/internal/send.ts: every signer is asked once for all the
// transactions that name it, modifying signers one after the other, then partial signers at once.
module Signing {
  import opened Wrappers

  type Address = nat
  type Signature = nat

  // A compiled transaction has an entry for every signer it lists, with nothing until it is signed.
  type Signatures = map<Address, Option<Signature>>

  // `bytes` stands for the message.
  datatype Tx = Tx(bytes: nat, signatures: Signatures, lifetime: Option<nat>)

  // Which of the two signing interfaces the object has.
  datatype Signer = Signer(address: Address, modifying: bool, partial: bool)

  // What the signers answer: changed transactions, or one signature dictionary for each transaction.
  datatype Wallets = Wallets(change: (Signer, seq<Tx>) -> seq<Tx>, sign: (Signer, seq<Tx>) -> seq<Signatures>)

  ghost predicate Answering(wallets: Wallets) {
    forall s, txs :: |wallets.change(s, txs)| == |txs| && |wallets.sign(s, txs)| == |txs|
  }

  // A partial signer signs for its own address only.
  ghost predicate OwnSignatures(wallets: Wallets) {
    forall s, txs, k, a :: 0 <= k < |wallets.sign(s, txs)| && a in wallets.sign(s, txs)[k] ==> a == s.address
  }

  // ---- choosing the signers ----

  function Flat(signersByTx: seq<seq<Signer>>): seq<Signer> {
    if signersByTx == [] then [] else signersByTx[0] + Flat(signersByTx[1..])
  }

  predicate HasAddress(signers: seq<Signer>, a: Address) {
    exists k :: 0 <= k < |signers| && signers[k].address == a
  }

  // The first signer of every address, in order of appearance.
  function Unique(signers: seq<Signer>): (r: seq<Signer>)
    ensures forall a :: HasAddress(r, a) <==> HasAddress(signers, a)
    ensures forall i, j :: 0 <= i < j < |r| ==> r[i].address != r[j].address
    ensures forall s :: s in r ==> s in signers
  {
    if signers == [] then []
    else
      var init, last := signers[..|signers| - 1], signers[|signers| - 1];
      var r := Unique(init);
      assert forall a :: HasAddress(signers, a) <==> HasAddress(init, a) || last.address == a by {
        assert forall k :: 0 <= k < |init| ==> signers[k] == init[k];
        assert signers[|init|] == last;
      }
      if HasAddress(r, last.address) then r
      else
        assert forall a :: HasAddress(r + [last], a) <==> HasAddress(r, a) || last.address == a by {
          assert forall k :: 0 <= k < |r| ==> (r + [last])[k] == r[k];
          assert (r + [last])[|r|] == last;
        }
        r + [last]
  }

  // Of several signers with one address, it is the first.
  lemma {:induction false} UniqueFirst(signers: seq<Signer>, k: nat)
    requires k < |signers| && forall j :: 0 <= j < k ==> signers[j].address != signers[k].address
    ensures signers[k] in Unique(signers)
    decreases |signers|
  {
    var init := signers[..|signers| - 1];
    if k < |init| {
      UniqueFirst(init, k);
    } else {
      assert forall j :: 0 <= j < |init| ==> init[j] == signers[j];
    }
  }

  function Keep(signers: seq<Signer>, f: Signer -> bool): (r: seq<Signer>)
    ensures forall s :: s in r <==> s in signers && f(s)
  {
    if signers == [] then [] else (if f(signers[0]) then [signers[0]] else []) + Keep(signers[1..], f)
  }

  predicate Usable(s: Signer) {
    s.modifying || s.partial
  }

  predicate Modifies(s: Signer) {
    s.modifying
  }

  predicate CannotSignPartially(s: Signer) {
    !s.partial
  }

  function Candidates(signersByTx: seq<seq<Signer>>): seq<Signer> {
    Keep(Unique(Flat(signersByTx)), Usable)
  }

  function ModifyingSigners(candidates: seq<Signer>): (r: seq<Signer>)
    ensures forall s :: s in r ==> s.modifying
  {
    var modifying := Keep(candidates, Modifies);
    var modifyingOnly := Keep(modifying, CannotSignPartially);
    if modifyingOnly != [] then modifyingOnly
    else if modifying == [] then []
    else
      assert modifying[0] in modifying;
      modifying[..1]
  }

  function PartialSigners(candidates: seq<Signer>): (r: seq<Signer>)
    ensures forall s :: s in r ==> s.partial
  {
    var chosen := ModifyingSigners(candidates);
    Keep(candidates, (s: Signer) => s.partial && s !in chosen)
  }

  // The transactions whose signers include the address.
  function Needs(signersByTx: seq<seq<Signer>>, a: Address): (r: seq<nat>)
    ensures forall i: nat :: i in r <==> i < |signersByTx| && HasAddress(signersByTx[i], a)
    ensures Below(r, |signersByTx|)
    ensures forall i, j :: 0 <= i < j < |r| ==> r[i] < r[j]
  {
    if signersByTx == [] then []
    else
      var n := |signersByTx| - 1;
      var r := Needs(signersByTx[..n], a);
      assert forall k :: 0 <= k < |r| ==> r[k] in r && r[k] < n;
      if HasAddress(signersByTx[n], a) then r + [n] else r
  }

  // ---- what signing does ----

  predicate Below(indexes: seq<nat>, n: nat) {
    forall k :: 0 <= k < |indexes| ==> indexes[k] < n
  }

  function Pick(txs: seq<Tx>, indexes: seq<nat>): (r: seq<Tx>)
    requires Below(indexes, |txs|)
    ensures |r| == |indexes|
    ensures forall k :: 0 <= k < |indexes| ==> r[k] == txs[indexes[k]]
  {
    seq(|indexes|, k requires 0 <= k < |indexes| => txs[indexes[k]])
  }

  function Position(indexes: seq<nat>, i: nat): (k: nat)
    requires i in indexes
    ensures k < |indexes| && indexes[k] == i
  {
    if indexes[0] == i then 0 else 1 + Position(indexes[1..], i)
  }

  // One modifying signer replaces the transactions that name it.
  function ModifyOne(txs: seq<Tx>, signersByTx: seq<seq<Signer>>, s: Signer, wallets: Wallets): (r: seq<Tx>)
    requires |txs| == |signersByTx|
    requires |wallets.change(s, Pick(txs, Needs(signersByTx, s.address)))| == |Needs(signersByTx, s.address)|
    ensures |r| == |txs|
  {
    var indexes := Needs(signersByTx, s.address);
    var signed := wallets.change(s, Pick(txs, indexes));
    seq(|txs|, i requires 0 <= i < |txs| => if i in indexes then signed[Position(indexes, i)] else txs[i])
  }

  ghost function ModifyAll(txs: seq<Tx>, signersByTx: seq<seq<Signer>>, signers: seq<Signer>, wallets: Wallets)
    : (r: seq<Tx>)
    requires |txs| == |signersByTx| && Answering(wallets)
    ensures |r| == |txs|
    decreases signers
  {
    if signers == [] then txs
    else ModifyAll(ModifyOne(txs, signersByTx, signers[0], wallets), signersByTx, signers[1..], wallets)
  }

  // What a partial signer, given the transactions `txs`, answers for transaction `i`.
  ghost function Answer(txs: seq<Tx>, signersByTx: seq<seq<Signer>>, s: Signer, i: nat, wallets: Wallets): Signatures
    requires |txs| == |signersByTx| && Answering(wallets)
  {
    var indexes := Needs(signersByTx, s.address);
    if i in indexes then wallets.sign(s, Pick(txs, indexes))[Position(indexes, i)] else map[]
  }

  ghost function Answers(txs: seq<Tx>, signersByTx: seq<seq<Signer>>, signers: seq<Signer>, i: nat, wallets: Wallets)
    : (r: seq<Signatures>)
    requires |txs| == |signersByTx| && Answering(wallets)
    ensures |r| == |signers|
    ensures forall k :: 0 <= k < |signers| ==> r[k] == Answer(txs, signersByTx, signers[k], i, wallets)
  {
    seq(|signers|, k requires 0 <= k < |signers| => Answer(txs, signersByTx, signers[k], i, wallets))
  }

  // Merging answers one after the other, in the order their signers finish.
  function Merge(base: Signatures, answers: seq<Signatures>, order: seq<nat>): Signatures
    requires Below(order, |answers|)
    decreases order
  {
    if order == [] then base else Merge(base + answers[order[0]], answers, order[1..])
  }

  predicate Permutation(order: seq<nat>, n: nat) {
    && |order| == n
    && (forall k :: 0 <= k < n ==> order[k] < n)
    && (forall j, k :: 0 <= j < k < n ==> order[j] != order[k])
  }

  function InOrder(n: nat): (r: seq<nat>)
    ensures Permutation(r, n)
  {
    seq(n, k => k)
  }

  // Transaction `i` once all signers are done.
  ghost function Signed(txs: seq<Tx>, signersByTx: seq<seq<Signer>>, wallets: Wallets, i: nat): Tx
    requires |txs| == |signersByTx| && Answering(wallets) && i < |txs|
  {
    var candidates := Candidates(signersByTx);
    var modified := ModifyAll(txs, signersByTx, ModifyingSigners(candidates), wallets);
    var answers := Answers(modified, signersByTx, PartialSigners(candidates), i, wallets);
    modified[i].(signatures := Merge(modified[i].signatures, answers, InOrder(|answers|)))
  }

  // assertIsFullySignedTransaction looks at the entries there are.
  predicate FullySigned(tx: Tx) {
    forall a :: a in tx.signatures ==> tx.signatures[a].Some?
  }

  function WithLifetime(tx: Tx, lifetime: nat): Tx {
    if tx.lifetime.Some? then tx else tx.(lifetime := Some(lifetime))
  }

  // ---- the order of completion ----

  ghost predicate Compatible(answers: seq<Signatures>) {
    forall j, k, a :: 0 <= j < |answers| && 0 <= k < |answers| && a in answers[j] && a in answers[k] ==>
        answers[j][a] == answers[k][a]
  }

  lemma {:induction false} MergeAt(base: Signatures, answers: seq<Signatures>, order: seq<nat>, a: Address)
    requires Compatible(answers) && Below(order, |answers|)
    ensures var m := Merge(base, answers, order);
            && (forall k: nat :: k in order && k < |answers| && a in answers[k] ==> a in m && m[a] == answers[k][a])
            && ((forall k: nat :: k in order && k < |answers| ==> a !in answers[k]) ==>
                (a in m <==> a in base) && (a in base ==> m[a] == base[a]))
    decreases order
  {
    if order != [] {
      MergeAt(base + answers[order[0]], answers, order[1..], a);
      forall k: nat | k in order && k < |answers| && a in answers[k]
        ensures a in Merge(base, answers, order) && Merge(base, answers, order)[a] == answers[k][a]
      {
        if forall m: nat :: m in order[1..] && m < |answers| ==> a !in answers[m] {
          assert k == order[0];
        } else {
          var m: nat :| m in order[1..] && m < |answers| && a in answers[m];
          assert answers[m][a] == answers[k][a];
        }
      }
    }
  }

  // Orders of the same signers give the same signatures when no two answers contradict each other.
  lemma SameMembersSameMerge(base: Signatures, answers: seq<Signatures>, order: seq<nat>, other: seq<nat>)
    requires Compatible(answers)
    requires Below(order, |answers|)
    requires Below(other, |answers|) && forall k: nat :: k in other <==> k in order
    ensures Merge(base, answers, order) == Merge(base, answers, other)
  {
    var m, n := Merge(base, answers, order), Merge(base, answers, other);
    forall a
      ensures (a in m <==> a in n) && (a in m ==> m[a] == n[a])
    {
      MergeAt(base, answers, order, a);
      MergeAt(base, answers, other, a);
      if exists k: nat :: k in order && k < |answers| && a in answers[k] {
        var k: nat :| k in order && k < |answers| && a in answers[k];
        assert k in other;
      }
    }
    assert m.Keys == n.Keys;
  }

  lemma {:induction false} MergeLast(base: Signatures, answers: seq<Signatures>, order: seq<nat>, last: nat)
    requires last < |answers| && Below(order, |answers|)
    ensures Merge(base, answers, order + [last]) == Merge(base, answers, order) + answers[last]
    decreases order
  {
    if order == [] {
      assert [] + [last] == [last] && [last][1..] == [];
    } else {
      assert (order + [last])[1..] == order[1..] + [last];
      MergeLast(base + answers[order[0]], answers, order[1..], last);
    }
  }

  lemma PermutationHas(order: seq<nat>, n: nat, k: nat)
    requires Permutation(order, n) && k < n
    ensures k in order
  {
    MembersCount(order);
    assert Members(order) <= AllBelow(n);
    if k !in order {
      SubsetCount(Members(order), AllBelow(n) - {k});
    }
  }

  function Members(order: seq<nat>): set<nat> {
    set j | j in order
  }

  lemma {:induction false} MembersCount(order: seq<nat>)
    requires forall j, k :: 0 <= j < k < |order| ==> order[j] != order[k]
    ensures |Members(order)| == |order|
  {
    if order != [] {
      MembersCount(order[1..]);
      assert Members(order) == Members(order[1..]) + {order[0]};
    }
  }

  function AllBelow(n: nat): (r: set<nat>)
    ensures |r| == n && forall k: nat :: k in r <==> k < n
  {
    if n == 0 then {} else AllBelow(n - 1) + {n - 1}
  }

  lemma {:induction false} SubsetCount(a: set<nat>, b: set<nat>)
    requires a <= b
    ensures |a| <= |b|
  {
    if a != {} {
      var x :| x in a;
      SubsetCount(a - {x}, b - {x});
    }
  }

  // The result does not depend on the order of completion exactly when no two signers answer with
  // different signatures for one address.
  lemma OrderIrrelevant(base: Signatures, answers: seq<Signatures>)
    ensures Compatible(answers)
       <==> forall order, other :: Permutation(order, |answers|) && Permutation(other, |answers|)
              ==> Merge(base, answers, order) == Merge(base, answers, other)
  {
    hide Merge, EndingWith;
    var n := |answers|;
    if Compatible(answers) {
      forall order, other | Permutation(order, n) && Permutation(other, n)
        ensures Merge(base, answers, order) == Merge(base, answers, other)
      {
        forall k: nat
          ensures k in other <==> k in order
        {
          if k < n {
            PermutationHas(order, n, k);
            PermutationHas(other, n, k);
          }
        }
        SameMembersSameMerge(base, answers, order, other);
      }
    } else {
      var j, k, a :| 0 <= j < n && 0 <= k < n && a in answers[j] && a in answers[k] && answers[j][a] != answers[k][a];
      LastWins(base, answers, j, a);
      LastWins(base, answers, k, a);
      assert Merge(base, answers, EndingWith(n, j)) != Merge(base, answers, EndingWith(n, k));
    }
  }

  // The order in which `j` comes last.
  function EndingWith(n: nat, j: nat): seq<nat>
    requires j < n
  {
    Others(n, j) + [j]
  }

  lemma LastWins(base: Signatures, answers: seq<Signatures>, j: nat, a: Address)
    requires j < |answers| && a in answers[j]
    ensures var order := EndingWith(|answers|, j);
            && Permutation(order, |answers|)
            && a in Merge(base, answers, order) && Merge(base, answers, order)[a] == answers[j][a]
  {
    hide Merge;
    MergeLast(base, answers, Others(|answers|, j), j);
  }

  function Others(n: nat, j: nat): (r: seq<nat>)
    requires j < n
    ensures |r| == n - 1
    ensures forall k :: 0 <= k < n - 1 ==> r[k] == if k < j then k else k + 1
  {
    seq(n - 1, k => if k < j then k else k + 1)
  }

  // ---- who is asked, and for what ----

  // The modifying signers, case by case.
  lemma ChosenToModify(candidates: seq<Signer>)
    requires forall s :: s in candidates ==> Usable(s)
    ensures var modifying := Keep(candidates, Modifies);
            var only, m := Keep(modifying, CannotSignPartially), ModifyingSigners(candidates);
            && (forall s :: s in modifying <==> s in candidates && s.modifying)
            && (forall s :: s in only <==> s in candidates && !s.partial)
            && (only != [] ==> m == only)
            && (only == [] && modifying != [] ==> m == [modifying[0]] && modifying[0] in modifying)
            && (only == [] && modifying == [] ==> m == [])
            && (forall s :: s in m ==> s in candidates)
  {
    hide Keep;
  }

  lemma ChosenDistinct(candidates: seq<Signer>)
    requires DistinctAddresses(candidates)
    ensures DistinctAddresses(ModifyingSigners(candidates))
  {
    hide Keep;
    KeepDistinct(candidates, Modifies);
    KeepDistinct(Keep(candidates, Modifies), CannotSignPartially);
  }

  lemma PartialIs(candidates: seq<Signer>)
    ensures forall s :: s in PartialSigners(candidates) <==>
              s in candidates && s.partial && s !in ModifyingSigners(candidates)
  {
    hide Keep, ModifyingSigners;
  }

  // No transaction names the address earlier than transaction `i` does with its signer `j`.
  predicate FirstNamed(signersByTx: seq<seq<Signer>>, i: nat, j: nat)
    requires i < |signersByTx| && j < |signersByTx[i]|
  {
    && (forall m :: 0 <= m < i ==> !HasAddress(signersByTx[m], signersByTx[i][j].address))
    && (forall k :: 0 <= k < j ==> signersByTx[i][k].address != signersByTx[i][j].address)
  }

  lemma {:induction false} FlatSplit(signersByTx: seq<seq<Signer>>, i: nat)
    requires i < |signersByTx|
    ensures Flat(signersByTx) == Flat(signersByTx[..i]) + signersByTx[i] + Flat(signersByTx[i + 1..])
    decreases signersByTx
  {
    var first := signersByTx[0];
    if i == 0 {
      assert signersByTx[..0] == [];
      assert [] + first == first;
    } else {
      var rest := signersByTx[1..];
      FlatSplit(rest, i - 1);
      assert signersByTx[..i][1..] == rest[..i - 1] && signersByTx[..i][0] == first;
      assert signersByTx[i + 1..] == rest[i..];
      var a, b, c := Flat(rest[..i - 1]), rest[i - 1], Flat(rest[i..]);
      assert first + (a + b + c) == (first + a) + b + c;
    }
  }

  // The candidates are the usable ones among the signers named first for each address.
  lemma CandidatesAre(signersByTx: seq<seq<Signer>>, i: nat, j: nat)
    requires i < |signersByTx| && j < |signersByTx[i]| && FirstNamed(signersByTx, i, j)
    ensures var c, s := Candidates(signersByTx), signersByTx[i][j];
            && (s in c <==> Usable(s))
            && (forall t :: t in c && t.address == s.address ==> t == s)
  {
    hide Unique, Keep, Flat;
    var flat, before := Flat(signersByTx), Flat(signersByTx[..i]);
    var s := signersByTx[i][j];
    FlatSplit(signersByTx, i);
    assert flat[|before| + j] == s;
    forall k | 0 <= k < |before| + j
      ensures flat[k].address != s.address
    {
      if k < |before| {
        NamedBefore(signersByTx, i, before[k]);
        assert flat[k] == before[k];
      } else {
        assert flat[k] == signersByTx[i][k - |before|];
      }
    }
    UniqueFirst(flat, |before| + j);
    var u := Unique(flat);
    forall t | t in u && t.address == s.address
      ensures t == s
    {
      var x :| 0 <= x < |u| && u[x] == t;
      var y :| 0 <= y < |u| && u[y] == s;
      assert x == y;
    }
  }

  lemma NamedBefore(signersByTx: seq<seq<Signer>>, i: nat, s: Signer)
    requires i <= |signersByTx| && s in Flat(signersByTx[..i])
    ensures exists m :: 0 <= m < i && HasAddress(signersByTx[m], s.address)
  {
    FlatHas(signersByTx[..i], s);
    var m :| 0 <= m < i && s in signersByTx[..i][m];
    var k :| 0 <= k < |signersByTx[m]| && signersByTx[m][k] == s;
    assert HasAddress(signersByTx[m], s.address);
  }

  lemma CandidatesUsable(signersByTx: seq<seq<Signer>>)
    ensures forall s :: s in Candidates(signersByTx) ==> Usable(s)
    ensures DistinctAddresses(Candidates(signersByTx))
  {
    hide Keep, Unique;
    KeepDistinct(Unique(Flat(signersByTx)), Usable);
  }

  // Every candidate is asked exactly once, as a modifying or as a partial signer.
  lemma EachAskedOnce(signersByTx: seq<seq<Signer>>)
    ensures var c := Candidates(signersByTx);
            multiset(ModifyingSigners(c)) + multiset(PartialSigners(c)) == multiset(c)
    ensures var c := Candidates(signersByTx);
            forall i, j :: 0 <= i < j < |c| ==> c[i].address != c[j].address
  {
    hide Candidates, ModifyingSigners, PartialSigners, Keep;
    var c := Candidates(signersByTx);
    var chosen, rest := ModifyingSigners(c), PartialSigners(c);
    CandidatesUsable(signersByTx);
    ChosenToModify(c);
    ChosenDistinct(c);
    PartialIs(c);
    PartialDistinct(c);
    forall s
      ensures (multiset(chosen) + multiset(rest))[s] == multiset(c)[s]
    {
      DistinctCount(c, s);
      DistinctCount(chosen, s);
      DistinctCount(rest, s);
    }
  }

  // Signers that can only modify all go first. Only when there are none does a signer that can do
  // both modify, and then only the first of them; all others sign partially.
  lemma SelectionRule(candidates: seq<Signer>)
    requires DistinctAddresses(candidates) && forall s :: s in candidates ==> s.modifying || s.partial
    ensures var m, p := ModifyingSigners(candidates), PartialSigners(candidates);
            && (forall s :: s in candidates && !s.partial ==> s in m)
            && (forall s :: s in candidates ==> (s in m <==> s !in p))
            && ((exists s :: s in candidates && !s.partial) ==> forall s :: s in m ==> !s.partial)
            && ((forall s :: s in candidates ==> s.partial) ==>
                |m| <= 1 && (|m| == 0 <==> forall s :: s in candidates ==> !s.modifying))
            && (|m| == 1 && m[0].partial ==> exists k :: FirstModifying(candidates, m[0], k))
  {
    hide ModifyingSigners, PartialSigners, Keep, FirstModifying;
    ChosenToModify(candidates);
    PartialIs(candidates);
    var modifying := Keep(candidates, Modifies);
    var only := Keep(modifying, CannotSignPartially);
    if only == [] && modifying != [] {
      FirstModifies(candidates, modifying);
    } else if only != [] {
      assert only[0] in only;
    }
  }

  lemma FirstModifies(candidates: seq<Signer>, modifying: seq<Signer>)
    requires modifying == Keep(candidates, Modifies) && modifying != []
    ensures exists k :: FirstModifying(candidates, modifying[0], k)
  {
    var f := Modifies;
    FirstKept(candidates, f);
    var k :| FirstAt(candidates, f, modifying[0], k);
    assert FirstModifying(candidates, modifying[0], k);
  }

  predicate FirstModifying(signers: seq<Signer>, s: Signer, k: int) {
    0 <= k < |signers| && signers[k] == s && forall j :: 0 <= j < k ==> !signers[j].modifying
  }

  lemma {:induction false} FirstKept(signers: seq<Signer>, f: Signer -> bool)
    requires Keep(signers, f) != []
    ensures exists k :: FirstAt(signers, f, Keep(signers, f)[0], k)
  {
    if f(signers[0]) {
      assert FirstAt(signers, f, Keep(signers, f)[0], 0);
    } else {
      FirstKept(signers[1..], f);
      var s := Keep(signers, f)[0];
      assert Keep(signers, f) == Keep(signers[1..], f);
      var k :| FirstAt(signers[1..], f, s, k);
      forall j | 0 <= j < k + 1
        ensures !f(signers[j])
      {
        assert j > 0 ==> signers[j] == signers[1..][j - 1];
      }
      assert FirstAt(signers, f, s, k + 1);
    }
  }

  // `s` is at k, and is the first to satisfy f.
  predicate FirstAt(signers: seq<Signer>, f: Signer -> bool, s: Signer, k: int) {
    0 <= k < |signers| && signers[k] == s && forall j :: 0 <= j < k ==> !f(signers[j])
  }

  ghost predicate DistinctAddresses(signers: seq<Signer>) {
    forall i, j :: 0 <= i < j < |signers| ==> signers[i].address != signers[j].address
  }

  lemma {:induction false} KeepDistinct(signers: seq<Signer>, f: Signer -> bool)
    requires DistinctAddresses(signers)
    ensures DistinctAddresses(Keep(signers, f))
  {
    if signers != [] {
      var rest := Keep(signers[1..], f);
      KeepDistinct(signers[1..], f);
      forall k | 0 <= k < |rest|
        ensures rest[k].address != signers[0].address
      {
        assert rest[k] in signers[1..];
      }
    }
  }

  lemma {:induction false} DistinctCount(signers: seq<Signer>, s: Signer)
    requires DistinctAddresses(signers)
    ensures multiset(signers)[s] == if s in signers then 1 else 0
  {
    if signers != [] {
      DistinctCount(signers[1..], s);
      assert signers == [signers[0]] + signers[1..];
    }
  }

  // ---- the code ----

  // A request to a signer: the transactions by index, and as they were sent to it.
  datatype Ask = Ask(signer: Signer, indexes: seq<nat>, sent: seq<Tx>)

  // The requests made while the modifying signers run, and then to the partial signers: each gets
  // its transactions as the signers before it left them.
  ghost function ModifyingAsks(txs: seq<Tx>, signersByTx: seq<seq<Signer>>, signers: seq<Signer>, wallets: Wallets)
    : (r: seq<Ask>)
    requires |txs| == |signersByTx| && Answering(wallets)
    ensures |r| == |signers|
    decreases signers
  {
    if signers == [] then []
    else
      [AskOf(txs, signersByTx, signers[0])] +
      ModifyingAsks(ModifyOne(txs, signersByTx, signers[0], wallets), signersByTx, signers[1..], wallets)
  }

  function AskOf(txs: seq<Tx>, signersByTx: seq<seq<Signer>>, s: Signer): Ask
    requires |txs| == |signersByTx|
  {
    var indexes := Needs(signersByTx, s.address);
    Ask(s, indexes, Pick(txs, indexes))
  }

  // The partial signers' requests, all made on the same transactions.
  function PartialAsks(txs: seq<Tx>, signersByTx: seq<seq<Signer>>, signers: seq<Signer>): (r: seq<Ask>)
    requires |txs| == |signersByTx|
    ensures |r| == |signers|
  {
    seq(|signers|, k requires 0 <= k < |signers| => AskOf(txs, signersByTx, signers[k]))
  }

  // All transactions signed, whatever the order of completion.
  ghost function AllSigned(txs: seq<Tx>, signersByTx: seq<seq<Signer>>, wallets: Wallets): (r: seq<Tx>)
    requires |txs| == |signersByTx| && Answering(wallets)
    ensures |r| == |txs|
  {
    seq(|txs|, i requires 0 <= i < |txs| => Signed(txs, signersByTx, wallets, i))
  }

  ghost function Merged(txs: seq<Tx>, signersByTx: seq<seq<Signer>>, signers: seq<Signer>, wallets: Wallets,
                        order: seq<nat>, i: nat): Tx
    requires |txs| == |signersByTx| && Answering(wallets) && i < |txs| && Below(order, |signers|)
  {
    txs[i].(signatures := Merge(txs[i].signatures, Answers(txs, signersByTx, signers, i, wallets), order))
  }

  // Signers that sign for their own addresses cannot contradict each other.
  lemma OwnCompatible(txs: seq<Tx>, signersByTx: seq<seq<Signer>>, signers: seq<Signer>, i: nat, wallets: Wallets)
    requires |txs| == |signersByTx| && Answering(wallets) && OwnSignatures(wallets) && DistinctAddresses(signers)
    ensures Compatible(Answers(txs, signersByTx, signers, i, wallets))
  {
    hide Answer, OwnSignatures;
    var answers := Answers(txs, signersByTx, signers, i, wallets);
    forall j, a | 0 <= j < |answers| && a in answers[j]
      ensures a == signers[j].address
    {
      AnswerOwn(txs, signersByTx, signers[j], i, wallets, a);
    }
  }

  lemma AnswerOwn(txs: seq<Tx>, signersByTx: seq<seq<Signer>>, s: Signer, i: nat, wallets: Wallets, a: Address)
    requires |txs| == |signersByTx| && Answering(wallets) && OwnSignatures(wallets)
    requires a in Answer(txs, signersByTx, s, i, wallets)
    ensures a == s.address
  {
    hide Needs, Position;
  }

  // Whatever the order of completion, the result is the same.
  lemma AnyOrder(compiled: seq<Tx>, signersByTx: seq<seq<Signer>>, wallets: Wallets, order: seq<nat>)
    requires |compiled| == |signersByTx| && Answering(wallets) && OwnSignatures(wallets)
    requires Permutation(order, |PartialSigners(Candidates(signersByTx))|)
    ensures var c := Candidates(signersByTx);
            var modified := ModifyAll(compiled, signersByTx, ModifyingSigners(c), wallets);
            forall i :: 0 <= i < |compiled| ==>
              Merged(modified, signersByTx, PartialSigners(c), wallets, order, i)
                  == AllSigned(compiled, signersByTx, wallets)[i]
  {
    hide Candidates, ModifyingSigners, PartialSigners, ModifyAll, Merge, Compatible, OwnSignatures, Answers;
    var c := Candidates(signersByTx);
    var modified := ModifyAll(compiled, signersByTx, ModifyingSigners(c), wallets);
    EachAskedOnce(signersByTx);
    PartialDistinct(c);
    forall i | 0 <= i < |compiled|
      ensures Merged(modified, signersByTx, PartialSigners(c), wallets, order, i)
          == AllSigned(compiled, signersByTx, wallets)[i]
    {
      var answers := Answers(modified, signersByTx, PartialSigners(c), i, wallets);
      OwnCompatible(modified, signersByTx, PartialSigners(c), i, wallets);
      OrderIrrelevant(modified[i].signatures, answers);
      assert Permutation(InOrder(|answers|), |answers|);
    }
  }

  // No answer is lost: what any partial signer signed is in the result, and nothing else has changed
  // since the last modifying signer.
  lemma NothingLost(compiled: seq<Tx>, signersByTx: seq<seq<Signer>>, wallets: Wallets, i: nat, s: Signer, a: Address)
    requires |compiled| == |signersByTx| && Answering(wallets) && OwnSignatures(wallets) && i < |compiled|
    requires s in PartialSigners(Candidates(signersByTx))
    ensures var modified := ModifyAll(compiled, signersByTx, ModifyingSigners(Candidates(signersByTx)), wallets);
            var answer := Answer(modified, signersByTx, s, i, wallets);
            var result := Signed(compiled, signersByTx, wallets, i);
            && result.bytes == modified[i].bytes
            && (a in answer ==> a in result.signatures && result.signatures[a] == answer[a])
            && (a in modified[i].signatures ==> a in result.signatures)
  {
    var c := Candidates(signersByTx);
    var modified := ModifyAll(compiled, signersByTx, ModifyingSigners(c), wallets);
    var signers := PartialSigners(c);
    var answers := Answers(modified, signersByTx, signers, i, wallets);
    EachAskedOnce(signersByTx);
    PartialDistinct(c);
    OwnCompatible(modified, signersByTx, signers, i, wallets);
    MergeAt(modified[i].signatures, answers, InOrder(|answers|), a);
    var k :| 0 <= k < |signers| && signers[k] == s;
    PermutationHas(InOrder(|answers|), |answers|, k);
  }

  lemma PartialDistinct(candidates: seq<Signer>)
    requires DistinctAddresses(candidates)
    ensures DistinctAddresses(PartialSigners(candidates))
  {
    var chosen := ModifyingSigners(candidates);
    KeepDistinct(candidates, (s: Signer) => s.partial && s !in chosen);
  }

  // ---- where the answers go ----

  lemma {:induction false} PositionOf(indexes: seq<nat>, k: nat)
    requires k < |indexes| && forall i, j :: 0 <= i < j < |indexes| ==> indexes[i] < indexes[j]
    ensures Position(indexes, indexes[k]) == k
  {
    if k > 0 {
      PositionOf(indexes[1..], k - 1);
    }
  }

  lemma {:induction false} ModifyAllSnoc(txs: seq<Tx>, signersByTx: seq<seq<Signer>>, signers: seq<Signer>, s: Signer,
                                         wallets: Wallets)
    requires |txs| == |signersByTx| && Answering(wallets)
    ensures ModifyAll(txs, signersByTx, signers + [s], wallets)
         == ModifyOne(ModifyAll(txs, signersByTx, signers, wallets), signersByTx, s, wallets)
    decreases signers
  {
    hide ModifyOne;
    if signers == [] {
      assert [] + [s] == [s] && [s][1..] == [];
    } else {
      assert (signers + [s])[1..] == signers[1..] + [s];
      ModifyAllSnoc(ModifyOne(txs, signersByTx, signers[0], wallets), signersByTx, signers[1..], s, wallets);
    }
  }

  lemma {:induction false} ModifyingAskAt(txs: seq<Tx>, signersByTx: seq<seq<Signer>>, signers: seq<Signer>,
                                          wallets: Wallets, m: nat)
    requires |txs| == |signersByTx| && Answering(wallets) && m < |signers|
    ensures var asks := ModifyingAsks(txs, signersByTx, signers, wallets);
            && |asks| == |signers|
            && asks[m] == AskOf(ModifyAll(txs, signersByTx, signers[..m], wallets), signersByTx, signers[m])
    decreases signers
  {
    hide ModifyOne, AskOf;
    var txs' := ModifyOne(txs, signersByTx, signers[0], wallets);
    if m > 0 {
      ModifyingAskAt(txs', signersByTx, signers[1..], wallets, m - 1);
      assert signers[..m] == [signers[0]] + signers[1..][..m - 1];
    } else {
      assert signers[..0] == [];
      if |signers| > 1 {
        ModifyingAskAt(txs', signersByTx, signers[1..], wallets, 0);
      }
    }
  }

  // The m-th modifying signer is sent its transactions as the signers before it left them, and each
  // of them becomes what it answers for it; the others stay as they are.
  lemma ModifiedInTurn(txs: seq<Tx>, signersByTx: seq<seq<Signer>>, signers: seq<Signer>, wallets: Wallets, m: nat)
    requires |txs| == |signersByTx| && Answering(wallets) && m < |signers|
    ensures var before := ModifyAll(txs, signersByTx, signers[..m], wallets);
            var after := ModifyAll(txs, signersByTx, signers[..m + 1], wallets);
            var ask := ModifyingAsks(txs, signersByTx, signers, wallets)[m];
            && ask.signer == signers[m] && |ask.sent| == |ask.indexes|
            && (forall k :: 0 <= k < |ask.indexes| ==>
                  && ask.indexes[k] < |txs|
                  && ask.sent[k] == before[ask.indexes[k]]
                  && after[ask.indexes[k]] == wallets.change(ask.signer, ask.sent)[k])
            && (forall i: nat :: i < |txs| && i !in ask.indexes ==> after[i] == before[i])
  {
    hide Position, Needs, ModifyAll, ModifyingAsks;
    ModifyingAskAt(txs, signersByTx, signers, wallets, m);
    ModifyAllSnoc(txs, signersByTx, signers[..m], signers[m], wallets);
    assert signers[..m + 1] == signers[..m] + [signers[m]];
    var indexes := Needs(signersByTx, signers[m].address);
    forall k | 0 <= k < |indexes|
      ensures Position(indexes, indexes[k]) == k
    {
      PositionOf(indexes, k);
    }
  }

  // A partial signer's answer for the k-th transaction it was sent, and none for others.
  lemma AnswerIs(txs: seq<Tx>, signersByTx: seq<seq<Signer>>, s: Signer, wallets: Wallets)
    requires |txs| == |signersByTx| && Answering(wallets)
    ensures var ask := AskOf(txs, signersByTx, s);
            && |ask.sent| == |ask.indexes|
            && (forall k :: 0 <= k < |ask.indexes| ==>
                  && ask.indexes[k] < |txs| && ask.sent[k] == txs[ask.indexes[k]]
                  && Answer(txs, signersByTx, s, ask.indexes[k], wallets) == wallets.sign(s, ask.sent)[k])
            && (forall i: nat :: i !in ask.indexes ==> Answer(txs, signersByTx, s, i, wallets) == map[])
  {
    hide Position, Needs;
    var indexes := Needs(signersByTx, s.address);
    forall k | 0 <= k < |indexes|
      ensures Position(indexes, indexes[k]) == k
    {
      PositionOf(indexes, k);
    }
  }

  // The requests to the partial signers.
  ghost function SignRequests(compiled: seq<Tx>, signersByTx: seq<seq<Signer>>, wallets: Wallets): seq<Ask>
    requires |compiled| == |signersByTx| && Answering(wallets)
  {
    var c := Candidates(signersByTx);
    PartialAsks(ModifyAll(compiled, signersByTx, ModifyingSigners(c), wallets), signersByTx, PartialSigners(c))
  }

  // The signature answered for each transaction sent to a partial signer is in that transaction.
  lemma SignaturesPlaced(compiled: seq<Tx>, signersByTx: seq<seq<Signer>>, wallets: Wallets, n: nat, k: nat)
    requires |compiled| == |signersByTx| && Answering(wallets) && OwnSignatures(wallets)
    requires n < |SignRequests(compiled, signersByTx, wallets)|
    requires k < |SignRequests(compiled, signersByTx, wallets)[n].indexes|
    ensures var modified := ModifyAll(compiled, signersByTx, ModifyingSigners(Candidates(signersByTx)), wallets);
            var ask := SignRequests(compiled, signersByTx, wallets)[n];
            var i := ask.indexes[k];
            && i < |compiled| && |ask.sent| == |ask.indexes| && ask.sent[k] == modified[i]
            && var answer := wallets.sign(ask.signer, ask.sent)[k];
               var result := AllSigned(compiled, signersByTx, wallets)[i];
               forall a :: a in answer ==> a in result.signatures && result.signatures[a] == answer[a]
  {
    hide Candidates, ModifyingSigners, PartialSigners, ModifyAll, Needs, Answer, AskOf, Signed, OwnSignatures;
    var c := Candidates(signersByTx);
    var modified := ModifyAll(compiled, signersByTx, ModifyingSigners(c), wallets);
    var s := PartialSigners(c)[n];
    AnswerIs(modified, signersByTx, s, wallets);
    var ask := AskOf(modified, signersByTx, s);
    AskIs(modified, signersByTx, s);
    var i := ask.indexes[k];
    forall a | a in wallets.sign(s, ask.sent)[k]
      ensures var result := AllSigned(compiled, signersByTx, wallets)[i];
              a in result.signatures && result.signatures[a] == wallets.sign(s, ask.sent)[k][a]
    {
      NothingLost(compiled, signersByTx, wallets, i, s, a);
    }
  }

  // Some request has an answer for `a` in transaction `i`.
  ghost predicate AnsweredFor(asks: seq<Ask>, wallets: Wallets, i: nat, a: Address)
    requires Answering(wallets)
  {
    exists n, k :: 0 <= n < |asks| && 0 <= k < |asks[n].indexes| == |asks[n].sent|
      && asks[n].indexes[k] == i && a in wallets.sign(asks[n].signer, asks[n].sent)[k]
  }

  // Apart from those, every transaction is as the modifying signers left it.
  lemma OthersKept(compiled: seq<Tx>, signersByTx: seq<seq<Signer>>, wallets: Wallets, i: nat, a: Address)
    requires |compiled| == |signersByTx| && Answering(wallets) && OwnSignatures(wallets) && i < |compiled|
    requires !AnsweredFor(SignRequests(compiled, signersByTx, wallets), wallets, i, a)
    ensures var before := ModifyAll(compiled, signersByTx, ModifyingSigners(Candidates(signersByTx)), wallets)[i];
            var result := AllSigned(compiled, signersByTx, wallets)[i];
            && result.bytes == before.bytes && result.lifetime == before.lifetime
            && (a in result.signatures <==> a in before.signatures)
            && (a in before.signatures ==> result.signatures[a] == before.signatures[a])
  {
    hide Candidates, ModifyingSigners, PartialSigners, ModifyAll, Needs, Answer, OwnSignatures, Merge;
    var c := Candidates(signersByTx);
    var modified := ModifyAll(compiled, signersByTx, ModifyingSigners(c), wallets);
    var signers := PartialSigners(c);
    var answers := Answers(modified, signersByTx, signers, i, wallets);
    forall n | 0 <= n < |answers|
      ensures a !in answers[n]
    {
      AnswerIs(modified, signersByTx, signers[n], wallets);
      var ask := AskOf(modified, signersByTx, signers[n]);
      assert SignRequests(compiled, signersByTx, wallets)[n] == ask;
      if i in ask.indexes {
        var k :| 0 <= k < |ask.indexes| && ask.indexes[k] == i;
        assert a !in wallets.sign(ask.signer, ask.sent)[k];
      }
    }
    EachAskedOnce(signersByTx);
    PartialDistinct(c);
    OwnCompatible(modified, signersByTx, signers, i, wallets);
    MergeAt(modified[i].signatures, answers, InOrder(|answers|), a);
  }

  // assertIsFullySignedTransaction on each, and the lifetime a wallet may have dropped.
  method Finish(txs: seq<Tx>, lifetime: nat) returns (r: Result<seq<Tx>, ()>)
    ensures r.Ok? <==> forall i :: 0 <= i < |txs| ==> FullySigned(txs[i])
    ensures r.Ok? ==> r.value == seq(|txs|, i requires 0 <= i < |txs| => WithLifetime(txs[i], lifetime))
  {
    var done: seq<Tx> := [];
    for i := 0 to |txs|
      invariant |done| == i && forall k :: 0 <= k < i ==>
          FullySigned(txs[k]) && done[k] == WithLifetime(txs[k], lifetime)
    {
      if !FullySigned(txs[i]) {
        return Err(());
      }
      done := done + [WithLifetime(txs[i], lifetime)];
    }
    return Ok(done);
  }

  lemma FinishMeans(txs: seq<Tx>, r: Result<seq<Tx>, ()>, lifetime: nat)
    requires r.Ok? <==> forall i :: 0 <= i < |txs| ==> FullySigned(txs[i])
    requires r.Ok? ==> r.value == seq(|txs|, i requires 0 <= i < |txs| => WithLifetime(txs[i], lifetime))
    ensures r.Ok? <==> forall i, a :: 0 <= i < |txs| && a in txs[i].signatures ==> txs[i].signatures[a].Some?
    ensures r.Ok? ==> Delivered(txs, r.value, lifetime)
  {
  }

  // ---- every signer is asked once ----

  // All requests, in order.
  ghost function AllAsks(compiled: seq<Tx>, signersByTx: seq<seq<Signer>>, wallets: Wallets): seq<Ask>
    requires |compiled| == |signersByTx| && Answering(wallets)
  {
    var c := Candidates(signersByTx);
    ModifyingAsks(compiled, signersByTx, ModifyingSigners(c), wallets)
    + PartialAsks(ModifyAll(compiled, signersByTx, ModifyingSigners(c), wallets), signersByTx, PartialSigners(c))
  }

  function Asked(asks: seq<Ask>): (r: seq<Signer>)
    ensures |r| == |asks| && forall k :: 0 <= k < |asks| ==> r[k] == asks[k].signer
  {
    seq(|asks|, k requires 0 <= k < |asks| => asks[k].signer)
  }

  // Each request is for the transactions that name its signer.
  ghost predicate AsksForOwn(asks: seq<Ask>, signersByTx: seq<seq<Signer>>) {
    forall k :: 0 <= k < |asks| ==> asks[k].indexes == Needs(signersByTx, asks[k].signer.address)
  }

  lemma {:induction false} ModifyingAsked(txs: seq<Tx>, signersByTx: seq<seq<Signer>>, signers: seq<Signer>,
                                          wallets: Wallets)
    requires |txs| == |signersByTx| && Answering(wallets)
    ensures var asks := ModifyingAsks(txs, signersByTx, signers, wallets);
            Asked(asks) == signers && AsksForOwn(asks, signersByTx)
    decreases signers
  {
    hide ModifyOne;
    if signers != [] {
      var txs' := ModifyOne(txs, signersByTx, signers[0], wallets);
      ModifyingAsked(txs', signersByTx, signers[1..], wallets);
      var rest := ModifyingAsks(txs', signersByTx, signers[1..], wallets);
      var asks := ModifyingAsks(txs, signersByTx, signers, wallets);
      assert asks == [AskOf(txs, signersByTx, signers[0])] + rest;
      assert Asked(asks) == [signers[0]] + Asked(rest);
    }
  }

  lemma PartialAsked(txs: seq<Tx>, signersByTx: seq<seq<Signer>>, signers: seq<Signer>)
    requires |txs| == |signersByTx|
    ensures var asks := PartialAsks(txs, signersByTx, signers);
            Asked(asks) == signers && AsksForOwn(asks, signersByTx)
  {
    hide Pick;
  }

  // A signer that occurs once in a list is at exactly one place of it.
  lemma OnePlace(signers: seq<Signer>, s: Signer)
    requires multiset(signers)[s] == 1
    ensures exists k :: OnlyAt(signers, s, k)
  {
    assert s in multiset(signers);
    var k :| 0 <= k < |signers| && signers[k] == s;
    assert signers == signers[..k] + [s] + signers[k + 1..];
    forall j | 0 <= j < |signers| && j != k
      ensures signers[j] != s
    {
      if j < k {
        assert signers[..k][j] == signers[j];
      } else {
        assert signers[k + 1..][j - k - 1] == signers[j];
      }
    }
    assert OnlyAt(signers, s, k);
  }

  ghost predicate OnlyAt(signers: seq<Signer>, s: Signer, k: int) {
    0 <= k < |signers| && signers[k] == s && forall j :: 0 <= j < |signers| && j != k ==> signers[j] != s
  }

  // Exactly one request goes to `s`, for the transactions naming it.
  ghost predicate AskedOnce(asks: seq<Ask>, s: Signer, indexes: seq<nat>) {
    exists k :: 0 <= k < |asks| && asks[k].signer == s && asks[k].indexes == indexes
      && forall j :: 0 <= j < |asks| && j != k ==> asks[j].signer != s
  }

  lemma {:induction false} FlatHas(signersByTx: seq<seq<Signer>>, s: Signer)
    requires s in Flat(signersByTx)
    ensures exists i :: 0 <= i < |signersByTx| && s in signersByTx[i]
  {
    if s !in signersByTx[0] {
      FlatHas(signersByTx[1..], s);
      var i :| 0 <= i < |signersByTx[1..]| && s in signersByTx[1..][i];
      assert signersByTx[i + 1] == signersByTx[1..][i];
    }
  }

  // A candidate is named by some transaction.
  lemma CandidateNeeded(signersByTx: seq<seq<Signer>>, s: Signer)
    requires s in Candidates(signersByTx)
    ensures Needs(signersByTx, s.address) != []
  {
    hide Needs, Unique, Keep;
    FlatHas(signersByTx, s);
    var i :| 0 <= i < |signersByTx| && s in signersByTx[i];
    var k :| 0 <= k < |signersByTx[i]| && signersByTx[i][k] == s;
    assert HasAddress(signersByTx[i], s.address);
    assert i in Needs(signersByTx, s.address);
  }

  // Whatever the signers answer: every candidate gets exactly one request, for exactly the
  // transactions naming it, of which there is at least one; and nobody else gets any.
  lemma AsksEachOnce(compiled: seq<Tx>, signersByTx: seq<seq<Signer>>, wallets: Wallets)
    requires |compiled| == |signersByTx| && Answering(wallets)
    ensures var c, asks := Candidates(signersByTx), AllAsks(compiled, signersByTx, wallets);
            && (forall s :: s in c ==>
                  AskedOnce(asks, s, Needs(signersByTx, s.address)) && Needs(signersByTx, s.address) != [])
            && (forall k :: 0 <= k < |asks| ==> asks[k].signer in c)
  {
    hide Candidates, ModifyingSigners, PartialSigners, AllAsks, Needs, AskedOnce;
    var c, asks := Candidates(signersByTx), AllAsks(compiled, signersByTx, wallets);
    AskedInTurn(compiled, signersByTx, wallets);
    EachAskedOnce(signersByTx);
    assert multiset(Asked(asks)) == multiset(c);
    forall s | s in c
      ensures AskedOnce(asks, s, Needs(signersByTx, s.address)) && Needs(signersByTx, s.address) != []
    {
      DistinctCount(c, s);
      CandidateNeeded(signersByTx, s);
      OnceAmong(asks, signersByTx, s);
    }
    forall k | 0 <= k < |asks|
      ensures asks[k].signer in c
    {
      assert Asked(asks)[k] in multiset(Asked(asks));
    }
  }

  lemma AskedInTurn(compiled: seq<Tx>, signersByTx: seq<seq<Signer>>, wallets: Wallets)
    requires |compiled| == |signersByTx| && Answering(wallets)
    ensures var c, asks := Candidates(signersByTx), AllAsks(compiled, signersByTx, wallets);
            Asked(asks) == ModifyingSigners(c) + PartialSigners(c) && AsksForOwn(asks, signersByTx)
  {
    hide Candidates, ModifyingSigners, PartialSigners, ModifyAll, ModifyingAsks, PartialAsks, Needs;
    var c, asks := Candidates(signersByTx), AllAsks(compiled, signersByTx, wallets);
    var m, p := ModifyingSigners(c), PartialSigners(c);
    var modified := ModifyAll(compiled, signersByTx, m, wallets);
    ModifyingAsked(compiled, signersByTx, m, wallets);
    PartialAsked(modified, signersByTx, p);
    var first, second := ModifyingAsks(compiled, signersByTx, m, wallets), PartialAsks(modified, signersByTx, p);
    assert Asked(asks) == Asked(first) + Asked(second);
  }

  lemma OnceAmong(asks: seq<Ask>, signersByTx: seq<seq<Signer>>, s: Signer)
    requires AsksForOwn(asks, signersByTx) && multiset(Asked(asks))[s] == 1
    ensures AskedOnce(asks, s, Needs(signersByTx, s.address))
  {
    hide Needs;
    var signers := Asked(asks);
    OnePlace(signers, s);
    var k :| OnlyAt(signers, s, k);
    assert asks[k].signer == s;
    assert forall j :: 0 <= j < |asks| ==> signers[j] == asks[j].signer;
  }

  // The transactions as they were signed; one that lost its lifetime has this one.
  ghost predicate Delivered(signed: seq<Tx>, txs: seq<Tx>, lifetime: nat) {
    && |txs| == |signed|
    && forall i :: 0 <= i < |txs| ==>
         && txs[i].bytes == signed[i].bytes && txs[i].signatures == signed[i].signatures
         && txs[i].lifetime == if signed[i].lifetime.Some? then signed[i].lifetime else Some(lifetime)
  }

  // `order` is the order in which the partial signers finish.
  method SignTogether(compiled: seq<Tx>, signersByTx: seq<seq<Signer>>, lifetime: nat, wallets: Wallets,
                      order: seq<nat>)
    returns (r: Result<seq<Tx>, ()>, asks: seq<Ask>)
    requires |compiled| == |signersByTx| && Answering(wallets) && OwnSignatures(wallets)
    requires Permutation(order, |PartialSigners(Candidates(signersByTx))|)
    ensures var signed := AllSigned(compiled, signersByTx, wallets);
            && (r.Ok? <==>
                  forall i, a :: 0 <= i < |compiled| && a in signed[i].signatures ==> signed[i].signatures[a].Some?)
            && (r.Ok? ==> Delivered(signed, r.value, lifetime))
    ensures asks == AllAsks(compiled, signersByTx, wallets)
    ensures forall s :: s in Candidates(signersByTx) ==> AskedOnce(asks, s, Needs(signersByTx, s.address))
  {
    hide AskedOnce, Needs, Candidates, ModifyingSigners, PartialSigners, AllSigned, Merged, ModifyAll, ModifyingAsks,
         PartialAsks, OwnSignatures, FullySigned, WithLifetime;
    var n := |compiled|;
    var transactions := new Tx[n](i requires 0 <= i < n => compiled[i]);
    assert transactions[..] == compiled;
    var candidates := Candidates(signersByTx);
    var modifyingSigners := ModifyingSigners(candidates);
    var partialSigners := PartialSigners(candidates);
    asks := RunModifying(transactions, signersByTx, modifyingSigners, wallets);
    // every partial signer is asked before any of them is done
    var dictionaries, partialAsks := AskPartials(transactions[..], signersByTx, partialSigners, wallets);
    asks := asks + partialAsks;
    MergeAnswers(transactions, signersByTx, partialSigners, dictionaries, wallets, order);
    AnyOrder(compiled, signersByTx, wallets, order);
    assert transactions[..] == AllSigned(compiled, signersByTx, wallets);
    AsksEachOnce(compiled, signersByTx, wallets);
    r := Finish(transactions[..], lifetime);
    FinishMeans(transactions[..], r, lifetime);
  }

  method RunModifying(transactions: array<Tx>, signersByTx: seq<seq<Signer>>, signers: seq<Signer>,
                      wallets: Wallets) returns (asks: seq<Ask>)
    requires transactions.Length == |signersByTx| && Answering(wallets)
    modifies transactions
    ensures transactions[..] == ModifyAll(old(transactions[..]), signersByTx, signers, wallets)
    ensures asks == ModifyingAsks(old(transactions[..]), signersByTx, signers, wallets)
  {
    hide ModifyOne, Position, AskOf;
    asks := [];
    ghost var all := ModifyAll(transactions[..], signersByTx, signers, wallets);
    ghost var allAsks := ModifyingAsks(transactions[..], signersByTx, signers, wallets);
    assert signers[0..] == signers;
    for m := 0 to |signers|
      invariant ModifyAll(transactions[..], signersByTx, signers[m..], wallets) == all
      invariant asks + ModifyingAsks(transactions[..], signersByTx, signers[m..], wallets) == allAsks
    {
      ghost var before := transactions[..];
      assert signers[m..][0] == signers[m] && signers[m..][1..] == signers[m + 1..];
      var indexes := Needs(signersByTx, signers[m].address);
      ghost var earlier := asks;
      asks := asks + [Ask(signers[m], indexes, Pick(transactions[..], indexes))];
      AskIs(before, signersByTx, signers[m]);
      var signed := wallets.change(signers[m], Pick(transactions[..], indexes));
      WriteBack(transactions, indexes, signed);
      WrittenBack(before, signersByTx, signers[m], wallets, transactions[..]);
      ghost var rest := ModifyingAsks(transactions[..], signersByTx, signers[m + 1..], wallets);
      assert earlier + ([AskOf(before, signersByTx, signers[m])] + rest) == asks + rest;
    }
  }

  lemma AskIs(txs: seq<Tx>, signersByTx: seq<seq<Signer>>, s: Signer)
    requires |txs| == |signersByTx|
    ensures AskOf(txs, signersByTx, s)
        == Ask(s, Needs(signersByTx, s.address), Pick(txs, Needs(signersByTx, s.address)))
  {
  }

  lemma WrittenBack(txs: seq<Tx>, signersByTx: seq<seq<Signer>>, s: Signer, wallets: Wallets, written: seq<Tx>)
    requires |txs| == |signersByTx| == |written| && Answering(wallets)
    requires var indexes := Needs(signersByTx, s.address);
             var signed := wallets.change(s, Pick(txs, indexes));
             forall i :: 0 <= i < |txs| ==> written[i] == if i in indexes then signed[Position(indexes, i)] else txs[i]
    ensures written == ModifyOne(txs, signersByTx, s, wallets)
  {
  }

  method AskPartials(txs: seq<Tx>, signersByTx: seq<seq<Signer>>, signers: seq<Signer>, wallets: Wallets)
    returns (dictionaries: seq<seq<Signatures>>, asks: seq<Ask>)
    requires |txs| == |signersByTx| && Answering(wallets)
    ensures |dictionaries| == |signers|
    ensures forall m :: 0 <= m < |signers| ==>
              dictionaries[m] == wallets.sign(signers[m], Pick(txs, Needs(signersByTx, signers[m].address)))
    ensures asks == PartialAsks(txs, signersByTx, signers)
  {
    dictionaries, asks := [], [];
    for k := 0 to |signers|
      invariant |dictionaries| == k
      invariant forall m :: 0 <= m < k ==>
                  dictionaries[m] == wallets.sign(signers[m], Pick(txs, Needs(signersByTx, signers[m].address)))
      invariant |asks| == k && forall m :: 0 <= m < k ==> asks[m] == AskOf(txs, signersByTx, signers[m])
    {
      var indexes := Needs(signersByTx, signers[k].address);
      asks := asks + [Ask(signers[k], indexes, Pick(txs, indexes))];
      dictionaries := dictionaries + [wallets.sign(signers[k], Pick(txs, indexes))];
    }
  }

  lemma MergeNothing(base: Signatures, answers: seq<Signatures>)
    ensures Merge(base, answers, []) == base
  {
  }

  method MergeAnswers(transactions: array<Tx>, signersByTx: seq<seq<Signer>>, signers: seq<Signer>,
                      dictionaries: seq<seq<Signatures>>, wallets: Wallets, order: seq<nat>)
    requires transactions.Length == |signersByTx| && Answering(wallets) && Below(order, |signers|)
        && |dictionaries| == |signers|
    requires forall m :: 0 <= m < |signers| ==>
               dictionaries[m] ==
                 wallets.sign(signers[m], Pick(transactions[..], Needs(signersByTx, signers[m].address)))
    modifies transactions
    ensures forall i :: 0 <= i < transactions.Length ==>
              transactions[i] == Merged(old(transactions[..]), signersByTx, signers, wallets, order, i)
  {
    hide Position, Needs, Merge;
    ghost var txs := transactions[..];
    assert order[..0] == [];
    forall i | 0 <= i < transactions.Length {
      MergeNothing(txs[i].signatures, Answers(txs, signersByTx, signers, i, wallets));
    }
    for d := 0 to |order|
      invariant forall i :: 0 <= i < transactions.Length ==>
          transactions[i] == Merged(txs, signersByTx, signers, wallets, order[..d], i)
    {
      var indexes := Needs(signersByTx, signers[order[d]].address);
      ghost var before := transactions[..];
      MergeIn(transactions, indexes, dictionaries[order[d]]);
      assert order[..d + 1] == order[..d] + [order[d]];
      forall i | 0 <= i < transactions.Length
        ensures transactions[i] == Merged(txs, signersByTx, signers, wallets, order[..d + 1], i)
      {
        var answers := Answers(txs, signersByTx, signers, i, wallets);
        assert before[i] == Merged(txs, signersByTx, signers, wallets, order[..d], i);
        MergeLast(txs[i].signatures, answers, order[..d], order[d]);
        assert i !in indexes ==> before[i].signatures + answers[order[d]] == before[i].signatures;
      }
    }
    assert order[..|order|] == order;
  }

  method WriteBack(transactions: array<Tx>, indexes: seq<nat>, signed: seq<Tx>)
    requires |signed| == |indexes| && Below(indexes, transactions.Length)
    requires forall i, j :: 0 <= i < j < |indexes| ==> indexes[i] < indexes[j]
    modifies transactions
    ensures forall i :: 0 <= i < transactions.Length ==>
              transactions[i] == if i in indexes then signed[Position(indexes, i)] else old(transactions[i])
  {
    for k := 0 to |indexes|
      invariant forall i :: 0 <= i < transactions.Length ==>
                  transactions[i] == if i in indexes && Position(indexes, i) < k
                                     then signed[Position(indexes, i)] else old(transactions[i])
    {
      transactions[indexes[k]] := signed[k];
    }
  }

  // `{ ...tx, signatures: { ...tx.signatures, ...dictionaries[k] } }` for every transaction of the signer.
  method MergeIn(transactions: array<Tx>, indexes: seq<nat>, dictionaries: seq<Signatures>)
    requires |dictionaries| == |indexes| && Below(indexes, transactions.Length)
    requires forall i, j :: 0 <= i < j < |indexes| ==> indexes[i] < indexes[j]
    modifies transactions
    ensures forall i :: 0 <= i < transactions.Length ==>
              transactions[i] == if i in indexes
                                 then old(transactions[i]).(signatures := old(transactions[i]).signatures
                                                            + dictionaries[Position(indexes, i)])
                                 else old(transactions[i])
  {
    for k := 0 to |indexes|
      invariant forall i :: 0 <= i < transactions.Length ==>
                  transactions[i] == if i in indexes && Position(indexes, i) < k
                                     then old(transactions[i]).(signatures := old(transactions[i]).signatures
                                                                + dictionaries[Position(indexes, i)])
                                     else old(transactions[i])
    {
      var tx := transactions[indexes[k]];
      transactions[indexes[k]] := tx.(signatures := tx.signatures + dictionaries[k]);
    }
  }
}
