// src/auditorReport.ts and src/auditor.ts: which transactions the report reads, what it lists for
// each, and in which order.
module Auditor {
  import opened Wrappers
  import opened Bytes
  import opened ElGamal
  import opened Arithmetic
  import opened TransferProofs

  type Signature = nat
  type Address = nat

  // ---- signaturesOf: the paged scan ----

  // The mint's history, newest first; the time of a block may be unknown.
  datatype Entry = Entry(signature: Signature, blockTime: Option<int>, failed: bool)

  const PAGE := 1000

  datatype Window = Window(since: Option<int>, until: Option<int>, maxTransactions: Option<int>)

  // Whole seconds, rounded down, of a time in milliseconds.
  function Seconds(ms: Option<int>): Option<int> {
    if ms.Some? then Some(ms.value / 1000) else None
  }

  predicate Older(e: Entry, seconds: Option<int>) {
    seconds.Some? && e.blockTime.Some? && e.blockTime.value < seconds.value
  }

  predicate NotBefore(e: Entry, seconds: Option<int>) {
    seconds.Some? && e.blockTime.Some? && e.blockTime.value >= seconds.value
  }

  // One pass over the history.
  function Scan(history: seq<Entry>, w: Window, out: seq<Signature>): seq<Signature>
    decreases history
  {
    if history == [] then out
    else if w.maxTransactions.Some? && |out| >= w.maxTransactions.value then out
    else if Older(history[0], Seconds(w.since)) then out
    else if NotBefore(history[0], Seconds(w.until)) || history[0].failed then Scan(history[1..], w, out)
    else Scan(history[1..], w, out + [history[0].signature])
  }

  predicate DistinctSignatures(history: seq<Entry>) {
    forall i, j :: 0 <= i < j < |history| ==> history[i].signature != history[j].signature
  }

  // Where the entries older than `before` start.
  function After(history: seq<Entry>, before: Option<Signature>): (i: nat)
    ensures i <= |history|
  {
    if before.None? then 0
    else if history == [] then 0
    else if history[0].signature == before.value then 1
    else 1 + After(history[1..], before)
  }

  // getSignaturesForAddress: the next entries older than `before`, at most a page of them.
  function Page(history: seq<Entry>, before: Option<Signature>): (page: seq<Entry>)
    ensures |page| <= PAGE
  {
    var start := After(history, before);
    if start + PAGE <= |history| then history[start..start + PAGE] else history[start..]
  }

  lemma {:induction false} AfterEntry(history: seq<Entry>, i: nat)
    requires DistinctSignatures(history) && i < |history|
    ensures After(history, Some(history[i].signature)) == i + 1
  {
    if i > 0 {
      AfterEntry(history[1..], i - 1);
      assert history[1..][i - 1] == history[i];
    }
  }

  // The paged scan is the one-pass scan, for histories of every length.
  method SignaturesOf(history: seq<Entry>, w: Window) returns (out: seq<Signature>)
    requires DistinctSignatures(history)
    ensures out == Scan(history, w, [])
  {
    out := [];
    var before: Option<Signature> := None;
    ghost var at := 0;
    assert history[0..] == history;
    while true
      invariant 0 <= at <= |history| && at == After(history, before)
      invariant Scan(history[at..], w, out) == Scan(history, w, [])
      decreases |history| - at
    {
      var page := Page(history, before);
      if |page| == 0 {
        break;
      }
      for k := 0 to |page|
        invariant Scan(history[at + k..], w, out) == Scan(history, w, [])
      {
        hide Older, NotBefore, After, DistinctSignatures;
        var s := page[k];
        assert history[at + k..][0] == s && history[at + k..][1..] == history[at + k + 1..];
        if w.maxTransactions.Some? && |out| >= w.maxTransactions.value {
          return;
        }
        if Older(s, Seconds(w.since)) {
          return;
        }
        if NotBefore(s, Seconds(w.until)) {
          continue;
        }
        if s.failed {
          continue;
        }
        out := out + [s.signature];
      }
      before := Some(page[|page| - 1].signature);
      AfterEntry(history, at + |page| - 1);
      at := at + |page|;
      if |page| < PAGE {
        break;
      }
    }
    assert at == |history|;
  }

  // ---- what the scan selects ----

  predicate Wanted(e: Entry, w: Window) {
    !e.failed && !Older(e, Seconds(w.since)) && !NotBefore(e, Seconds(w.until))
  }

  function Selected(history: seq<Entry>, w: Window): seq<Signature> {
    if history == [] then []
    else (if Wanted(history[0], w) then [history[0].signature] else []) + Selected(history[1..], w)
  }

  function Take(s: seq<Signature>, most: Option<int>): seq<Signature> {
    if most.None? || most.value >= |s| then s else if most.value <= 0 then [] else s[..most.value]
  }

  // An entry of known time is wanted when it did not fail, its second has not ended by `since`, and it
  // has ended by `until`; both are in milliseconds.
  lemma WantedMeans(e: Entry, w: Window)
    requires e.blockTime.Some?
    ensures var time := e.blockTime.value;
            Wanted(e, w) <==>
              && !e.failed
              && (w.since.Some? ==> 1000 * (time + 1) > w.since.value)
              && (w.until.Some? ==> 1000 * (time + 1) <= w.until.value)
  {
  }

  // Newest first, as far as the times are known.
  ghost predicate NonIncreasing(history: seq<Entry>) {
    forall i, j :: 0 <= i < j < |history| && history[i].blockTime.Some? && history[j].blockTime.Some?
      ==> history[i].blockTime.value >= history[j].blockTime.value
  }

  ghost predicate Known(history: seq<Entry>) {
    forall i :: 0 <= i < |history| ==> history[i].blockTime.Some?
  }

  lemma {:induction false} NoneOlder(history: seq<Entry>, w: Window)
    requires Known(history) && NonIncreasing(history) && history != [] && Older(history[0], Seconds(w.since))
    ensures Selected(history, w) == []
  {
    if |history| > 1 {
      assert Older(history[1], Seconds(w.since));
      NoneOlder(history[1..], w);
    }
  }

  function Room(w: Window, taken: nat): Option<int> {
    if w.maxTransactions.Some? then Some(w.maxTransactions.value - taken) else None
  }

  lemma TakeCons(x: Signature, rest: seq<Signature>, most: Option<int>)
    requires most.Some? ==> most.value > 0
    ensures Take([x] + rest, most) == [x] + Take(rest, if most.Some? then Some(most.value - 1) else None)
  {
  }

  // With known times the scan returns the first `maxTransactions` entries that did not fail and lie
  // in the window: stopping early misses nothing.
  lemma {:induction false} ScanSelects(history: seq<Entry>, w: Window, out: seq<Signature>)
    requires Known(history) && NonIncreasing(history)
    ensures Scan(history, w, out) == out + Take(Selected(history, w), Room(w, |out|))
    decreases history
  {
    hide Older, NotBefore, Take, Known, NonIncreasing;
    if history == [] || (w.maxTransactions.Some? && |out| >= w.maxTransactions.value) {
      TakeNone(Selected(history, w), Room(w, |out|));
      assert out + [] == out;
    } else if Older(history[0], Seconds(w.since)) {
      NoneOlder(history, w);
      TakeNone([], Room(w, |out|));
      assert out + [] == out;
    } else {
      TailOrdered(history);
      if Wanted(history[0], w) {
        var s, rest := history[0].signature, Selected(history[1..], w);
        ScanSelects(history[1..], w, out + [s]);
        TakeCons(s, rest, Room(w, |out|));
        var taken := Take(rest, Room(w, |out| + 1));
        assert out + ([s] + taken) == out + [s] + taken;
      } else {
        ScanSelects(history[1..], w, out);
        assert [] + Selected(history[1..], w) == Selected(history[1..], w);
      }
    }
  }

  lemma TakeNone(s: seq<Signature>, most: Option<int>)
    ensures (most.Some? && most.value <= 0) || s == [] ==> Take(s, most) == []
  {
  }

  lemma TailOrdered(history: seq<Entry>)
    requires Known(history) && NonIncreasing(history) && history != []
    ensures Known(history[1..]) && NonIncreasing(history[1..])
  {
  }

  // ---- splitting a window ----

  function Between(a: Option<int>, b: Option<int>): Window {
    Window(a, b, None)
  }

  lemma {:induction false} ScanOnto(history: seq<Entry>, w: Window, out: seq<Signature>)
    requires w.maxTransactions.None?
    ensures Scan(history, w, out) == out + Scan(history, w, [])
    decreases history
  {
    if history != [] {
      ScanOnto(history[1..], w, out);
      ScanOnto(history[1..], w, out + [history[0].signature]);
      ScanOnto(history[1..], w, [] + [history[0].signature]);
      var rest := Scan(history[1..], w, []);
      assert out + [history[0].signature] + rest == out + ([] + [history[0].signature] + rest);
    }
    assert out + [] == out;
  }

  // Every entry the newer half of the window reaches has a known time, or failed.
  predicate NoUnknownSince(history: seq<Entry>, t: int) {
    if history == [] || Older(history[0], Seconds(Some(t))) then true
    else (history[0].blockTime.Some? || history[0].failed) && NoUnknownSince(history[1..], t)
  }

  lemma {:induction false} OlderHalf(history: seq<Entry>, a: Option<int>, b: Option<int>, t: int)
    requires NonIncreasing(history) && history != [] && Older(history[0], Seconds(Some(t)))
    requires (a.Some? ==> a.value <= t) && (b.Some? ==> t <= b.value)
    ensures Scan(history, Between(a, b), []) == Scan(history, Between(a, Some(t)), [])
  {
    SameWhileOlder(history, a, b, t, []);
  }

  lemma {:induction false} SameWhileOlder(history: seq<Entry>, a: Option<int>, b: Option<int>, t: int,
                                          out: seq<Signature>)
    requires forall i :: 0 <= i < |history| ==> !NotBefore(history[i], Seconds(Some(t)))
    requires b.Some? ==> t <= b.value
    ensures Scan(history, Between(a, b), out) == Scan(history, Between(a, Some(t)), out)
    decreases history
  {
    if history != [] {
      assert !NotBefore(history[0], Seconds(b));
      SameWhileOlder(history[1..], a, b, t, out);
      SameWhileOlder(history[1..], a, b, t, out + [history[0].signature]);
    }
  }

  // What an entry contributes to a scan that reaches it.
  function Listing(e: Entry, w: Window): seq<Signature> {
    if NotBefore(e, Seconds(w.until)) || e.failed then [] else [e.signature]
  }

  lemma ScanFirst(history: seq<Entry>, w: Window)
    requires history != [] && w.maxTransactions.None? && !Older(history[0], Seconds(w.since))
    ensures Scan(history, w, []) == Listing(history[0], w) + Scan(history[1..], w, [])
  {
    hide Older, NotBefore;
    ScanOnto(history[1..], w, [history[0].signature]);
    assert [] + [history[0].signature] == [history[0].signature];
    assert [] + Scan(history[1..], w, []) == Scan(history[1..], w, []);
  }

  lemma PrefixCancels(x: seq<Signature>, whole: seq<Signature>, newer: seq<Signature>, older: seq<Signature>)
    ensures x + whole == (x + newer) + older <==> whole == newer + older
  {
    assert (x + newer) + older == x + (newer + older);
    if x + whole == x + (newer + older) {
      assert whole == (x + whole)[|x|..] == newer + older;
    }
  }

  // The report over [a, b) is the one over [a, t) after the one over [t, b), newest first, although
  // both bounds are rounded down to seconds; exactly unless the newer half reaches an entry whose
  // block time is unknown, which both halves then list.
  lemma {:induction false} WindowSplits(history: seq<Entry>, a: Option<int>, b: Option<int>, t: int)
    requires NonIncreasing(history)
    requires (a.Some? ==> a.value <= t) && (b.Some? ==> t <= b.value)
    ensures var whole := Scan(history, Between(a, b), []);
            var newer, older := Scan(history, Between(Some(t), b), []), Scan(history, Between(a, Some(t)), []);
            && (whole == newer + older <==> NoUnknownSince(history, t))
            && |whole| <= |newer| + |older|
    decreases history
  {
    if history != [] {
      var e, rest := history[0], history[1..];
      if Older(e, Seconds(Some(t))) {
        OlderHalf(history, a, b, t);
        assert [] + Scan(history, Between(a, Some(t)), []) == Scan(history, Between(a, Some(t)), []);
      } else {
        hide Scan;
        WindowSplits(rest, a, b, t);
        assert !Older(e, Seconds(a));
        ScanFirst(history, Between(a, b));
        ScanFirst(history, Between(Some(t), b));
        ScanFirst(history, Between(a, Some(t)));
        var whole := Scan(rest, Between(a, b), []);
        var newer, older := Scan(rest, Between(Some(t), b), []), Scan(rest, Between(a, Some(t)), []);
        assert Listing(e, Between(a, Some(t))) == [] <==> e.blockTime.Some? || e.failed;
        PrefixCancels(Listing(e, Between(a, b)), whole, newer, older);
        assert [] + older == older;
      }
    }
  }

  // Such an entry: the whole window lists it, and so do both its parts, wherever it is cut.
  lemma UnknownListedTwice(a: Option<int>, b: Option<int>, t: int)
    ensures var history := [Entry(7, None, false)];
            && NonIncreasing(history)
            && Scan(history, Between(a, b), []) == [7]
            && Scan(history, Between(Some(t), b), []) == [7] && Scan(history, Between(a, Some(t)), []) == [7]
  {
    var history := [Entry(7, None, false)];
    assert history[1..] == [];
    assert [] + [7] == [7];
  }

  // With known times the split is always right.
  lemma {:induction false} KnownSplits(history: seq<Entry>, t: int)
    requires Known(history)
    ensures NoUnknownSince(history, t)
  {
    if history != [] {
      KnownSplits(history[1..], t);
    }
  }

  // ---- listConfidentialActivity ----

  datatype Payload =
    | DepositData(amount: nat)
    | WithdrawData(amount: nat)
    | TransferData(lo: seq<byte>, hi: seq<byte>)
    | FeeTransferData
    | OtherData

  // `confidential` says whether the data starts with the confidential-transfer discriminator.
  datatype Instruction = Instruction(program: nat, accounts: seq<nat>, confidential: bool, payload: Payload)

  // `keys` are the static keys, then the loaded writable, then the loaded read-only ones.
  datatype Transaction = Transaction(
    staticKeys: seq<Address>, loadedKeys: seq<Address>, instructions: seq<Instruction>,
    inner: seq<(nat, seq<Instruction>)>, owners: seq<(nat, Address)>)

  // `failed` when it has an error, or no metadata. The time is in seconds, if the RPC knows it.
  datatype Fetched = NotFound | Fetched(failed: bool, slot: nat, blockTime: Option<int>, tx: Transaction)

  datatype Kind = Deposit | Transfer | Withdraw | TransferWithFee

  datatype Party = Party(token: Option<Address>, owner: Option<Address>)

  datatype Activity = Activity(kind: Kind, from: Party, to: Party, amount: Option<nat>, decrypted: bool, note: string)

  // The transaction of an entry; the time in milliseconds.
  datatype Stamp = Stamp(signature: Signature, slot: nat, time: Option<int>)

  datatype Listed = Listed(stamp: Stamp, activity: Activity)

  function Keys(tx: Transaction): seq<Address> {
    tx.staticKeys + tx.loadedKeys
  }

  function KeyAt(keys: seq<Address>, i: nat): Option<Address> {
    if i < |keys| then Some(keys[i]) else None
  }

  // The last group for an index is the one a map keeps.
  function LastFor<T>(groups: seq<(nat, T)>, i: nat): Option<T> {
    if groups == [] then None
    else if groups[|groups| - 1].0 == i then Some(groups[|groups| - 1].1)
    else LastFor(groups[..|groups| - 1], i)
  }

  function InnerOf(tx: Transaction, i: nat): seq<Instruction> {
    var group := LastFor(tx.inner, i);
    if group.Some? then group.value else []
  }

  function PartyAt(tx: Transaction, ix: Instruction, k: nat): Party {
    if k < |ix.accounts|
    then Party(KeyAt(Keys(tx), ix.accounts[k]), LastFor(tx.owners, ix.accounts[k]))
    else Party(None, None)
  }

  // `secret.decrypt(lo) + (secret.decrypt(hi) << 16)`, if both can be parsed and decrypted.
  function AuditedAmount(secret: int, lo: seq<byte>, hi: seq<byte>): Option<nat> {
    var l, h := ParseCiphertext(lo), ParseCiphertext(hi);
    if l.Err? || h.Err? || Decrypt(secret, l.value).None? || Decrypt(secret, h.value).None? then None
    else Some(Decrypt(secret, l.value).value + Shift(Decrypt(secret, h.value).value, LO_BITS))
  }

  function ToActivity(tx: Transaction, ix: Instruction, secret: int): Option<Activity> {
    var first, third := PartyAt(tx, ix, 0), PartyAt(tx, ix, 2);
    match ix.payload
    case DepositData(amount) => Some(Activity(Deposit, first, first, Some(amount), false, ""))
    case WithdrawData(amount) => Some(Activity(Withdraw, first, first, Some(amount), false, ""))
    case TransferData(lo, hi) =>
      var amount := AuditedAmount(secret, lo, hi);
      Some(Activity(Transfer, first, third, amount, amount.Some?,
                    if amount.Some? then "" else "not encrypted to this auditor key"))
    case FeeTransferData =>
      Some(Activity(TransferWithFee, first, third, None, false,
                    "transfer with fee: amount not decrypted by this version"))
    case OtherData => None
  }

  predicate Concerns(tx: Transaction, ix: Instruction, program: Address, mint: Address) {
    && KeyAt(Keys(tx), ix.program) == Some(program)
    && ix.confidential && |ix.accounts| >= 2
    && KeyAt(Keys(tx), ix.accounts[1]) == Some(mint)
  }

  // Each top-level instruction from the i-th on, with the ones it invoked right after it.
  function AllFrom(tx: Transaction, i: nat): seq<Instruction>
    requires i <= |tx.instructions|
    decreases |tx.instructions| - i
  {
    if i == |tx.instructions| then [] else [tx.instructions[i]] + InnerOf(tx, i) + AllFrom(tx, i + 1)
  }

  datatype Audit = Audit(program: Address, mint: Address, secret: int)

  // The entry of an instruction, if it has one.
  function EntryOf(tx: Transaction, ix: Instruction, stamp: Stamp, audit: Audit): seq<Listed> {
    var here := if Concerns(tx, ix, audit.program, audit.mint) then ToActivity(tx, ix, audit.secret) else None;
    if here.Some? then [Listed(stamp, here.value)] else []
  }

  function ListFrom(tx: Transaction, all: seq<Instruction>, stamp: Stamp, audit: Audit): seq<Listed> {
    if all == [] then [] else EntryOf(tx, all[0], stamp, audit) + ListFrom(tx, all[1..], stamp, audit)
  }

  function EntriesOf(signature: Signature, fetched: Fetched, audit: Audit): seq<Listed> {
    if fetched.NotFound? || fetched.failed then []
    else
      var time := if fetched.blockTime.Some? then Some(fetched.blockTime.value * 1000) else None;
      ListFrom(fetched.tx, AllFrom(fetched.tx, 0), Stamp(signature, fetched.slot, time), audit)
  }

  // Oldest first: the signatures are newest first.
  function Report(signatures: seq<Signature>, fetch: Signature -> Fetched, audit: Audit): seq<Listed> {
    if signatures == [] then []
    else Report(signatures[1..], fetch, audit) + EntriesOf(signatures[0], fetch(signatures[0]), audit)
  }

  function Reverse<T>(s: seq<T>): seq<T> {
    if s == [] then [] else Reverse(s[1..]) + [s[0]]
  }

  function FlatLists(lists: seq<seq<Listed>>): seq<Listed> {
    if lists == [] then [] else lists[0] + FlatLists(lists[1..])
  }

  // The entries of each transaction, in the order of the signatures.
  function PerTransaction(signatures: seq<Signature>, fetch: Signature -> Fetched, audit: Audit): (r: seq<seq<Listed>>)
    ensures |r| == |signatures|
    ensures forall k :: 0 <= k < |signatures| ==> r[k] == EntriesOf(signatures[k], fetch(signatures[k]), audit)
  {
    seq(|signatures|, k requires 0 <= k < |signatures| => EntriesOf(signatures[k], fetch(signatures[k]), audit))
  }

  lemma {:induction false} FlatConcat(a: seq<seq<Listed>>, b: seq<seq<Listed>>)
    ensures FlatLists(a + b) == FlatLists(a) + FlatLists(b)
    decreases a
  {
    if a == [] {
      assert a + b == b;
    } else {
      assert (a + b)[1..] == a[1..] + b;
      FlatConcat(a[1..], b);
    }
  }

  lemma {:induction false} ReverseFlat(signatures: seq<Signature>, fetch: Signature -> Fetched, audit: Audit)
    ensures FlatLists(Reverse(PerTransaction(signatures, fetch, audit))) == Report(signatures, fetch, audit)
  {
    if signatures != [] {
      var lists := PerTransaction(signatures, fetch, audit);
      assert lists[1..] == PerTransaction(signatures[1..], fetch, audit);
      ReverseFlat(signatures[1..], fetch, audit);
      FlatConcat(Reverse(lists[1..]), [lists[0]]);
      assert [lists[0]][1..] == [];
      assert lists[0] + [] == lists[0];
    }
  }

  // Reports over consecutive windows are concatenated.
  lemma {:induction false} ReportConcat(newer: seq<Signature>, older: seq<Signature>, fetch: Signature -> Fetched,
                                        audit: Audit)
    ensures Report(newer + older, fetch, audit) == Report(older, fetch, audit) + Report(newer, fetch, audit)
    decreases newer
  {
    hide EntriesOf;
    if newer == [] {
      assert newer + older == older;
    } else {
      assert (newer + older)[1..] == newer[1..] + older && (newer + older)[0] == newer[0];
      ReportConcat(newer[1..], older, fetch, audit);
      var first := EntriesOf(newer[0], fetch(newer[0]), audit);
      var a, b := Report(older, fetch, audit), Report(newer[1..], fetch, audit);
      assert (a + b) + first == a + (b + first);
    }
  }

  lemma ReportSplits(history: seq<Entry>, a: Option<int>, b: Option<int>, t: int, fetch: Signature -> Fetched,
                     audit: Audit)
    requires NonIncreasing(history) && NoUnknownSince(history, t)
    requires (a.Some? ==> a.value <= t) && (b.Some? ==> t <= b.value)
    ensures Report(Scan(history, Between(a, b), []), fetch, audit)
         == Report(Scan(history, Between(a, Some(t)), []), fetch, audit)
             + Report(Scan(history, Between(Some(t), b), []), fetch, audit)
  {
    WindowSplits(history, a, b, t);
    ReportConcat(Scan(history, Between(Some(t), b), []), Scan(history, Between(a, Some(t)), []), fetch, audit);
  }

  // So for a history with known times, newest first, the reports over [a, t) and [t, b) concatenate
  // to the one over [a, b).
  lemma KnownReportSplits(history: seq<Entry>, a: Option<int>, b: Option<int>, t: int, fetch: Signature -> Fetched,
                          audit: Audit)
    requires Known(history) && NonIncreasing(history)
    requires (a.Some? ==> a.value <= t) && (b.Some? ==> t <= b.value)
    ensures Report(Scan(history, Between(a, b), []), fetch, audit)
         == Report(Scan(history, Between(a, Some(t)), []), fetch, audit)
             + Report(Scan(history, Between(Some(t), b), []), fetch, audit)
  {
    hide Known, NonIncreasing, Scan, Report;
    KnownSplits(history, t);
    ReportSplits(history, a, b, t, fetch, audit);
  }

  // Whatever the batch size, the report is the same.
  method ListConfidentialActivity(history: seq<Entry>, w: Window, concurrency: Option<int>,
                                  fetch: Signature -> Fetched, audit: Audit)
    returns (r: seq<Listed>)
    requires DistinctSignatures(history)
    ensures r == Report(Scan(history, w, []), fetch, audit)
  {
    var signatures := SignaturesOf(history, w);
    var perTransaction: seq<seq<Listed>> := [];
    var batchSize := if concurrency.None? then 4 else if concurrency.value > 1 then concurrency.value else 1;
    var i := 0;
    while i < |signatures|
      invariant 0 <= i <= |signatures|
      invariant |perTransaction| == i
      invariant forall m :: 0 <= m < i ==> perTransaction[m] == EntriesOf(signatures[m], fetch(signatures[m]), audit)
    {
      var end := if i + batchSize < |signatures| then i + batchSize else |signatures|;
      var batch := signatures[i..end];
      var transactions := seq(|batch|, k requires 0 <= k < |batch| => fetch(batch[k]));
      hide EntriesOf;
      for k := 0 to |batch|
        invariant |perTransaction| == i + k
        invariant forall m :: 0 <= m < i + k ==>
            perTransaction[m] == EntriesOf(signatures[m], fetch(signatures[m]), audit)
      {
        perTransaction := perTransaction + [EntriesOf(batch[k], transactions[k], audit)];
      }
      i := end;
    }
    assert perTransaction == PerTransaction(signatures, fetch, audit);
    ReverseFlat(signatures, fetch, audit);
    r := FlatLists(Reverse(perTransaction));
  }

  // A transaction with its first `i` top-level instructions only.
  function FirstOf(tx: Transaction, i: nat): Transaction
    requires i <= |tx.instructions|
  {
    tx.(instructions := tx.instructions[..i])
  }

  lemma FirstOfSame(tx: Transaction, i: nat, j: nat)
    requires j < i <= |tx.instructions|
    ensures FirstOf(tx, i).instructions[j] == tx.instructions[j] && InnerOf(FirstOf(tx, i), j) == InnerOf(tx, j)
  {
    hide LastFor;
  }

  lemma AllNone(tx: Transaction)
    ensures AllFrom(tx, |tx.instructions|) == []
  {
  }

  lemma {:induction false} AllSplit(tx: Transaction, i: nat, j: nat)
    requires j <= i <= |tx.instructions|
    ensures AllFrom(tx, j) == AllFrom(FirstOf(tx, i), j) + AllFrom(tx, i)
    decreases i - j
  {
    hide InnerOf, AllFrom;
    if j < i {
      AllSplit(tx, i, j + 1);
      AllStep(tx, j);
      AllStep(FirstOf(tx, i), j);
      FirstOfSame(tx, i, j);
      var head, first, rest := [tx.instructions[j]] + InnerOf(tx, j), AllFrom(FirstOf(tx, i), j + 1), AllFrom(tx, i);
      assert head + (first + rest) == head + first + rest;
    } else {
      AllNone(FirstOf(tx, i));
      assert [] + AllFrom(tx, i) == AllFrom(tx, i);
    }
  }

  lemma AllStep(tx: Transaction, i: nat)
    requires i < |tx.instructions|
    ensures AllFrom(tx, i) == [tx.instructions[i]] + InnerOf(tx, i) + AllFrom(tx, i + 1)
  {
  }

  // Every top-level instruction is listed after all that belongs to the ones before it, directly
  // followed by the instructions it invoked, and then by the rest.
  lemma TopBeforeInner(tx: Transaction, i: nat)
    requires i < |tx.instructions|
    ensures AllFrom(tx, 0) == AllFrom(FirstOf(tx, i), 0) + [tx.instructions[i]] + InnerOf(tx, i) + AllFrom(tx, i + 1)
  {
    hide LastFor, InnerOf, AllFrom, FirstOf;
    AllSplit(tx, i, 0);
    AllStep(tx, i);
    var before, here, after := AllFrom(FirstOf(tx, i), 0), [tx.instructions[i]] + InnerOf(tx, i), AllFrom(tx, i + 1);
    assert before + (here + after) == before + [tx.instructions[i]] + InnerOf(tx, i) + after;
  }

  // ---- what is listed ----

  // The last group with the index counts, as in a map.
  lemma {:induction false} LastForIs<T>(groups: seq<(nat, T)>, i: nat)
    ensures LastFor(groups, i).None? <==> forall k :: 0 <= k < |groups| ==> groups[k].0 != i
    ensures LastFor(groups, i).Some? ==>
              exists k :: 0 <= k < |groups| && groups[k] == (i, LastFor(groups, i).value)
                && forall j :: k < j < |groups| ==> groups[j].0 != i
    decreases |groups|
  {
    if groups != [] && groups[|groups| - 1].0 != i {
      LastForIs(groups[..|groups| - 1], i);
    }
  }

  // Entry by entry: of each top-level instruction, then of those in the last inner group for it.
  function TopEntries(tx: Transaction, i: nat, stamp: Stamp, audit: Audit): seq<Listed>
    requires i < |tx.instructions|
  {
    var group := LastFor(tx.inner, i);
    EntryOf(tx, tx.instructions[i], stamp, audit)
    + if group.None? then []
      else FlatLists(seq(|group.value|, k requires 0 <= k < |group.value| => EntryOf(tx, group.value[k], stamp, audit)))
  }

  // Those of the top-level instructions from the i-th on.
  function TopsFrom(tx: Transaction, i: nat, stamp: Stamp, audit: Audit): (r: seq<seq<Listed>>)
    requires i <= |tx.instructions|
    ensures |r| == |tx.instructions| - i
    ensures forall k :: 0 <= k < |r| ==> r[k] == TopEntries(tx, i + k, stamp, audit)
  {
    seq(|tx.instructions| - i, k requires 0 <= k < |tx.instructions| - i => TopEntries(tx, i + k, stamp, audit))
  }

  function TransactionEntries(signature: Signature, fetched: Fetched, audit: Audit): seq<Listed> {
    if fetched.NotFound? || fetched.failed then []
    else
      var (tx, seconds) := (fetched.tx, fetched.blockTime);
      var stamp := Stamp(signature, fetched.slot, if seconds.Some? then Some(1000 * seconds.value) else None);
      FlatLists(TopsFrom(tx, 0, stamp, audit))
  }

  lemma {:induction false} ListConcat(tx: Transaction, a: seq<Instruction>, b: seq<Instruction>, stamp: Stamp,
                                      audit: Audit)
    ensures ListFrom(tx, a + b, stamp, audit) == ListFrom(tx, a, stamp, audit) + ListFrom(tx, b, stamp, audit)
    decreases a
  {
    hide EntryOf;
    if a == [] {
      assert a + b == b;
    } else {
      assert (a + b)[1..] == a[1..] + b;
      ListConcat(tx, a[1..], b, stamp, audit);
    }
  }

  lemma {:induction false} ListEach(tx: Transaction, all: seq<Instruction>, stamp: Stamp, audit: Audit)
    ensures ListFrom(tx, all, stamp, audit)
         == FlatLists(seq(|all|, k requires 0 <= k < |all| => EntryOf(tx, all[k], stamp, audit)))
  {
    hide EntryOf;
    if all != [] {
      var lists := seq(|all|, k requires 0 <= k < |all| => EntryOf(tx, all[k], stamp, audit));
      ListEach(tx, all[1..], stamp, audit);
      assert lists[1..] == seq(|all| - 1, k requires 0 <= k < |all| - 1 => EntryOf(tx, all[1..][k], stamp, audit));
    }
  }

  lemma TopListed(tx: Transaction, i: nat, stamp: Stamp, audit: Audit)
    requires i < |tx.instructions|
    ensures ListFrom(tx, [tx.instructions[i]] + InnerOf(tx, i), stamp, audit) == TopEntries(tx, i, stamp, audit)
  {
    hide EntryOf, LastFor;
    var top := tx.instructions[i];
    ListConcat(tx, [top], InnerOf(tx, i), stamp, audit);
    ListEach(tx, InnerOf(tx, i), stamp, audit);
    assert [top][1..] == [] && ListFrom(tx, [], stamp, audit) == [];
    assert ListFrom(tx, [top], stamp, audit) == EntryOf(tx, top, stamp, audit);
  }

  lemma {:induction false} AllListed(tx: Transaction, i: nat, stamp: Stamp, audit: Audit)
    requires i <= |tx.instructions|
    ensures ListFrom(tx, AllFrom(tx, i), stamp, audit) == FlatLists(TopsFrom(tx, i, stamp, audit))
    decreases |tx.instructions| - i
  {
    hide EntryOf, InnerOf, AllFrom, TopEntries;
    if i == |tx.instructions| {
      AllNone(tx);
    } else {
      AllStep(tx, i);
      AllListed(tx, i + 1, stamp, audit);
      TopListed(tx, i, stamp, audit);
      ListConcat(tx, [tx.instructions[i]] + InnerOf(tx, i), AllFrom(tx, i + 1), stamp, audit);
      assert TopsFrom(tx, i, stamp, audit)[1..] == TopsFrom(tx, i + 1, stamp, audit);
    }
  }

  lemma EntriesListed(signature: Signature, fetched: Fetched, audit: Audit)
    ensures EntriesOf(signature, fetched, audit) == TransactionEntries(signature, fetched, audit)
  {
    hide AllFrom, TopsFrom, ListFrom, FlatLists;
    if fetched.Fetched? && !fetched.failed {
      var tx := fetched.tx;
      var time := if fetched.blockTime.Some? then Some(fetched.blockTime.value * 1000) else None;
      var stamp := Stamp(signature, fetched.slot, time);
      AllListed(tx, 0, stamp, audit);
    }
  }

  // The report is made of the entries of its transactions, the last signature's first; of each, those
  // of its instructions in order, the invoked ones after the one that invoked them, all with the
  // transaction's slot and time. A missing or failed transaction has none.
  lemma ReportListed(signatures: seq<Signature>, fetch: Signature -> Fetched, audit: Audit)
    ensures Report(signatures, fetch, audit)
         == FlatLists(Reverse(seq(|signatures|, k requires 0 <= k < |signatures| =>
                                    TransactionEntries(signatures[k], fetch(signatures[k]), audit))))
  {
    hide EntriesOf, TransactionEntries, FlatLists, Reverse;
    ReverseFlat(signatures, fetch, audit);
    forall k | 0 <= k < |signatures|
      ensures EntriesOf(signatures[k], fetch(signatures[k]), audit)
           == TransactionEntries(signatures[k], fetch(signatures[k]), audit)
    {
      EntriesListed(signatures[k], fetch(signatures[k]), audit);
    }
    assert PerTransaction(signatures, fetch, audit)
        == seq(|signatures|, k requires 0 <= k < |signatures| =>
                 TransactionEntries(signatures[k], fetch(signatures[k]), audit));
  }

  // The account with index `n` in a transaction, and its owner before the transaction.
  ghost predicate IsAccount(tx: Transaction, n: nat, party: Party) {
    var keys := tx.staticKeys + tx.loadedKeys;
    && party.token == (if n < |keys| then Some(keys[n]) else None)
    && party.owner == LastFor(tx.owners, n)
  }

  // An instruction has an entry exactly when it is the program's, a confidential one of the four
  // kinds, and its second account is the mint. The entry names the first account as the source, and
  // for transfers the third as the destination; deposits and withdraws stay within one account.
  lemma Movements(tx: Transaction, ix: Instruction, stamp: Stamp, audit: Audit)
    ensures var keys, entry := tx.staticKeys + tx.loadedKeys, EntryOf(tx, ix, stamp, audit);
            && |entry| <= 1
            && (|entry| == 1 <==>
                  && ix.program < |keys| && keys[ix.program] == audit.program && ix.confidential
                  && |ix.accounts| >= 2 && ix.accounts[1] < |keys| && keys[ix.accounts[1]] == audit.mint
                  && !ix.payload.OtherData?)
            && (|entry| == 1 ==>
                  && entry[0].stamp == stamp
                  && var a := entry[0].activity;
                     && IsAccount(tx, ix.accounts[0], a.from)
                     && (a.kind.Deposit? <==> ix.payload.DepositData?)
                     && (a.kind.Withdraw? <==> ix.payload.WithdrawData?)
                     && (a.kind.Transfer? <==> ix.payload.TransferData?)
                     && (a.kind.Deposit? || a.kind.Withdraw? ==>
                           a.to == a.from && a.amount == Some(ix.payload.amount) && !a.decrypted && a.note == "")
                     && (a.kind.Transfer? || a.kind.TransferWithFee? ==>
                           if |ix.accounts| > 2 then IsAccount(tx, ix.accounts[2], a.to) else a.to == Party(None, None))
                     && (a.kind.Transfer? ==>
                           && a.amount == AuditedAmount(audit.secret, ix.payload.lo, ix.payload.hi)
                           && (a.decrypted <==> a.amount.Some?) && (a.decrypted <==> a.note == ""))
                     && (a.kind.TransferWithFee? ==> a.amount.None? && !a.decrypted && a.note != ""))
  {
    hide AuditedAmount, LastFor;
  }

  // The auditor reads an amount exactly when both halves can be parsed and decrypted, and then it is
  // the low half and 2^16 times the high half.
  lemma AuditedWhen(secret: int, lo: seq<byte>, hi: seq<byte>)
    ensures var l, h := ParseCiphertext(lo), ParseCiphertext(hi);
            var amount := AuditedAmount(secret, lo, hi);
            && (amount.Some? <==>
                  l.Ok? && h.Ok? && Dec(secret, l.value) < DECRYPT_LIMIT && Dec(secret, h.value) < DECRYPT_LIMIT)
            && (amount.Some? ==> amount.value == Dec(secret, l.value) + 0x1_0000 * Dec(secret, h.value))
            && (DecryptOne(secret, lo, hi)
                  == if amount.Some? then Ok(amount.value)
                     else Err(if l.Err? || h.Err? then BadCiphertext else CannotDecrypt))
  {
    hide ParseCiphertext, Dec, Shift;
    var l, h := ParseCiphertext(lo), ParseCiphertext(hi);
    if l.Ok? && h.Ok? && Decrypt(secret, h.value).Some? {
      ShiftScales(Decrypt(secret, h.value).value, LO_BITS);
      Shifts();
    }
  }

  // The report shows the amount of a transfer that the SDK encrypted to this auditor.
  lemma AuditorReads(H: Group.Point, input: TransferInput, o: Openings, auditor: Keypair)
    requires TransferFlow(H, input, o).Ok? && ValidKeys(H, auditor) && input.auditorPub == Some(auditor.pub)
    ensures var p := TransferFlow(H, input, o).value;
            AuditedAmount(auditor.secret, p.auditorLo, p.auditorHi) == Some(input.amount)
  {
    hide TransferFlow, ParseCiphertext, Decrypt, Shift;
    EveryPartyRecovers(H, input, o, 2, auditor);
  }

  // So a transfer the SDK built for this auditor is listed with its amount, from the first account
  // of the instruction to the third.
  lemma TransferListed(H: Group.Point, input: TransferInput, o: Openings, auditor: Keypair,
                       tx: Transaction, ix: Instruction, stamp: Stamp, audit: Audit)
    requires TransferFlow(H, input, o).Ok? && ValidKeys(H, auditor) && input.auditorPub == Some(auditor.pub)
    requires audit.secret == auditor.secret && Concerns(tx, ix, audit.program, audit.mint) && |ix.accounts| >= 3
    requires ix.payload == TransferData(TransferFlow(H, input, o).value.auditorLo,
                                        TransferFlow(H, input, o).value.auditorHi)
    ensures var from := Party(KeyAt(Keys(tx), ix.accounts[0]), LastFor(tx.owners, ix.accounts[0]));
            var to := Party(KeyAt(Keys(tx), ix.accounts[2]), LastFor(tx.owners, ix.accounts[2]));
            ListFrom(tx, [ix], stamp, audit)
                == [Listed(stamp, Activity(Transfer, from, to, Some(input.amount), true, ""))]
  {
    hide TransferFlow, AuditedAmount, ValidKeys, Concerns;
    AuditorReads(H, input, o, auditor);
    assert [ix][1..] == [] && ListFrom(tx, [], stamp, audit) == [];
  }

  // ---- decryptTransferAmountAsAuditor ----

  datatype AuditError = TransactionNotFound | BadCiphertext | CannotDecrypt | NoTransfer

  predicate IsTransfer(tx: Transaction, ix: Instruction, program: Address) {
    KeyAt(tx.staticKeys, ix.program) == Some(program) && ix.confidential && ix.payload.TransferData?
  }

  // Only the static keys are looked at here.
  lemma TransferMeans(tx: Transaction, ix: Instruction, program: Address)
    ensures IsTransfer(tx, ix, program) <==>
              && ix.program < |tx.staticKeys| && tx.staticKeys[ix.program] == program
              && ix.confidential && ix.payload.TransferData?
  {
  }

  function DecryptOne(secret: int, lo: seq<byte>, hi: seq<byte>): Result<nat, AuditError> {
    if ParseCiphertext(lo).Err? || ParseCiphertext(hi).Err? then Err(BadCiphertext)
    else if AuditedAmount(secret, lo, hi).None? then Err(CannotDecrypt)
    else Ok(AuditedAmount(secret, lo, hi).value)
  }

  // So a transfer the SDK built for this auditor is decrypted to its amount.
  lemma BuiltDecrypts(H: Group.Point, input: TransferInput, o: Openings, auditor: Keypair)
    requires TransferFlow(H, input, o).Ok? && ValidKeys(H, auditor) && input.auditorPub == Some(auditor.pub)
    ensures var p := TransferFlow(H, input, o).value;
            DecryptOne(auditor.secret, p.auditorLo, p.auditorHi) == Ok(input.amount)
  {
    hide TransferFlow, AuditedAmount, ValidKeys, ParseCiphertext;
    AuditorReads(H, input, o, auditor);
    var p := TransferFlow(H, input, o).value;
    AuditedWhen(auditor.secret, p.auditorLo, p.auditorHi);
  }

  // The amount of the first transfer among the top-level instructions, if there is one; also of a
  // transaction that failed.
  method DecryptTransferAmountAsAuditor(fetched: Fetched, program: Address, secret: int)
    returns (r: Result<nat, AuditError>)
    ensures fetched.NotFound? <==> r == Err(TransactionNotFound)
    ensures fetched.Fetched? ==>
              (r == Err(NoTransfer) <==>
                 forall k :: 0 <= k < |fetched.tx.instructions| ==>
                   !IsTransfer(fetched.tx, fetched.tx.instructions[k], program))
    ensures fetched.Fetched? && r != Err(NoTransfer) ==>
              exists k :: 0 <= k < |fetched.tx.instructions|
                && IsTransfer(fetched.tx, fetched.tx.instructions[k], program)
                && (forall m :: 0 <= m < k ==> !IsTransfer(fetched.tx, fetched.tx.instructions[m], program))
                && r == DecryptOne(secret, fetched.tx.instructions[k].payload.lo, fetched.tx.instructions[k].payload.hi)
  {
    if fetched.NotFound? {
      return Err(TransactionNotFound);
    }
    var tx := fetched.tx;
    for k := 0 to |tx.instructions|
      invariant forall m :: 0 <= m < k ==> !IsTransfer(tx, tx.instructions[m], program)
    {
      var ix := tx.instructions[k];
      if !IsTransfer(tx, ix, program) {
        continue;
      }
      if ParseCiphertext(ix.payload.lo).Err? || ParseCiphertext(ix.payload.hi).Err? {
        return Err(BadCiphertext);
      }
      return DecryptOne(secret, ix.payload.lo, ix.payload.hi);
    }
    return Err(NoTransfer);
  }
}
