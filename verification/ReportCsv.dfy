// confidentialActivityToCsv of src/auditorReport.ts.
module ReportCsv {
  import opened Wrappers
  import opened Auditor
  import opened Csv
  import opened Decimal

  // How times, signatures and addresses print.
  datatype Texts = Texts(time: int -> string, signature: Signature -> string, address: Auditor.Address -> string)

  function TimeText(time: Option<int>, texts: Texts): string {
    if time.Some? then texts.time(time.value) else ""
  }

  function AddressText(a: Option<Auditor.Address>, texts: Texts): string {
    if a.Some? then texts.address(a.value) else ""
  }

  // Different ones print differently, and none of them as the empty text of a missing one.
  ghost predicate Telling(texts: Texts) {
    && (forall s, t :: TimeText(s, texts) == TimeText(t, texts) ==> s == t)
    && (forall a, b :: AddressText(a, texts) == AddressText(b, texts) ==> a == b)
    && (forall m, n :: texts.signature(m) == texts.signature(n) ==> m == n)
  }

  function AmountText(amount: Option<nat>): string {
    if amount.Some? then ToDigits(amount.value) else ""
  }

  function KindText(kind: Kind): string {
    match kind
    case Deposit => "deposit"
    case Transfer => "transfer"
    case Withdraw => "withdraw"
    case TransferWithFee => "transfer-with-fee"
  }

  function Header(decimals: Option<nat>): Record {
    ["time_utc", "slot", "signature", "kind", "from_owner", "from_account", "to_owner", "to_account",
     "amount_base_units"]
    + (if decimals.Some? then ["amount"] else []) + ["decrypted", "note"]
  }

  function RecordOf(l: Listed, texts: Texts, decimals: Option<nat>): Record {
    var (stamp, a) := (l.stamp, l.activity);
    [TimeText(stamp.time, texts), ToDigits(stamp.slot), texts.signature(stamp.signature), KindText(a.kind),
     AddressText(a.from.owner, texts), AddressText(a.from.token, texts),
     AddressText(a.to.owner, texts), AddressText(a.to.token, texts), AmountText(a.amount)]
    + (if decimals.Some? then [if a.amount.Some? then FromBaseUnits(a.amount.value, decimals.value) else ""] else [])
    + [if a.decrypted then "yes" else "no", a.note]
  }

  function Records(report: seq<Listed>, texts: Texts, decimals: Option<nat>): (r: seq<Record>)
    ensures |r| == |report| && forall k :: 0 <= k < |report| ==> r[k] == RecordOf(report[k], texts, decimals)
  {
    seq(|report|, k requires 0 <= k < |report| => RecordOf(report[k], texts, decimals))
  }

  function ToCsv(report: seq<Listed>, texts: Texts, decimals: Option<nat>): string {
    Print(Header(decimals), Records(report, texts, decimals))
  }

  predicate PlainText(s: string) {
    forall k :: 0 <= k < |s| ==> 'a' <= s[k] <= 'z' || s[k] == '_'
  }

  lemma PlainUnquoted(s: string)
    requires PlainText(s)
    ensures !NeedsQuotes(s)
  {
  }

  lemma HeaderPlain(decimals: Option<nat>)
    ensures forall k :: 0 <= k < |Header(decimals)| ==> !NeedsQuotes(Header(decimals)[k])
  {
    hide NeedsQuotes, PlainText;
    var h := Header(decimals);
    PlainNames();
    forall k | 0 <= k < |h|
      ensures !NeedsQuotes(h[k])
    {
      PlainUnquoted(h[k]);
    }
  }

  lemma PlainNames()
    ensures PlainText("time_utc") && PlainText("slot") && PlainText("signature") && PlainText("kind")
    ensures PlainText("from_owner") && PlainText("from_account") && PlainText("to_owner") && PlainText("to_account")
    ensures PlainText("amount_base_units") && PlainText("amount") && PlainText("decrypted") && PlainText("note")
  {
  }

  // The amount in a record reads back, from base units and from tokens.
  ghost predicate AmountReads(record: Record, amount: Option<nat>, decimals: Option<nat>) {
    amount.Some? ==>
      && |record| > 9
      && AllDigits(record[8]) && FromDigits(record[8]) == amount.value
      && (decimals.Some? && amount.value > 0 ==> ToBaseUnits(record[9], decimals.value) == Ok(amount.value))
  }

  lemma AmountReadsBack(l: Listed, texts: Texts, decimals: Option<nat>)
    ensures AmountReads(RecordOf(l, texts, decimals), l.activity.amount, decimals)
  {
    hide ToDigits, FromDigits, FromBaseUnits, ToBaseUnits, TimeText, AddressText, KindText;
    var amount := l.activity.amount;
    if amount.Some? {
      FromToDigits(amount.value);
      if decimals.Some? && amount.value > 0 {
        AmountRoundTrip(amount.value, decimals.value);
      }
    }
  }

  // Reading the CSV by RFC 4180 gives the header and exactly the printed records, whatever the text
  // fields contain; and from them the amounts.
  lemma CsvRoundTrip(report: seq<Listed>, texts: Texts, decimals: Option<nat>)
    ensures ReadFile(ToCsv(report, texts, decimals)) == Some([Header(decimals)] + Records(report, texts, decimals))
    ensures forall k :: 0 <= k < |report| ==>
              AmountReads(Records(report, texts, decimals)[k], report[k].activity.amount, decimals)
  {
    hide AmountReads, ReadFile, Print, NeedsQuotes;
    HeaderPlain(decimals);
    FileRoundTrip(Header(decimals), Records(report, texts, decimals));
    forall k | 0 <= k < |report|
      ensures AmountReads(Records(report, texts, decimals)[k], report[k].activity.amount, decimals)
    {
      AmountReadsBack(report[k], texts, decimals);
    }
  }

  // Under its header, column `j` holds this text.
  predicate Column(header: Record, record: Record, j: nat, name: string, text: string) {
    j < |header| == |record| && header[j] == name && record[j] == text
  }

  // Every text stands under its own name; what is missing prints as nothing.
  lemma Columns(l: Listed, texts: Texts, decimals: Option<nat>)
    ensures var (header, r, a) := (Header(decimals), RecordOf(l, texts, decimals), l.activity);
            var last := if decimals.Some? then 10 else 9;
            && Column(header, r, 0, "time_utc", if l.stamp.time.Some? then texts.time(l.stamp.time.value) else "")
            && Column(header, r, 1, "slot", ToDigits(l.stamp.slot))
            && Column(header, r, 2, "signature", texts.signature(l.stamp.signature))
            && Column(header, r, 3, "kind", match a.kind
                                            case Deposit => "deposit"
                                            case Transfer => "transfer"
                                            case Withdraw => "withdraw"
                                            case TransferWithFee => "transfer-with-fee")
            && Column(header, r, 4, "from_owner", if a.from.owner.Some? then texts.address(a.from.owner.value) else "")
            && Column(header, r, 5, "from_account",
                      if a.from.token.Some? then texts.address(a.from.token.value) else "")
            && Column(header, r, 6, "to_owner", if a.to.owner.Some? then texts.address(a.to.owner.value) else "")
            && Column(header, r, 7, "to_account", if a.to.token.Some? then texts.address(a.to.token.value) else "")
            && Column(header, r, 8, "amount_base_units", if a.amount.Some? then ToDigits(a.amount.value) else "")
            && (decimals.Some? ==>
                  Column(header, r, 9, "amount",
                         if a.amount.Some? then FromBaseUnits(a.amount.value, decimals.value) else ""))
            && Column(header, r, last, "decrypted", if a.decrypted then "yes" else "no")
            && Column(header, r, last + 1, "note", a.note)
            && |header| == last + 2
  {
    hide ToDigits, FromBaseUnits;
  }

  // ---- the file and the report ----

  lemma DigitsTell(m: nat, n: nat)
    requires ToDigits(m) == ToDigits(n)
    ensures m == n
  {
    hide ToDigits, FromDigits;
    FromToDigits(m);
    FromToDigits(n);
  }

  lemma AmountTells(a: Option<nat>, b: Option<nat>)
    requires AmountText(a) == AmountText(b)
    ensures a == b
  {
    hide ToDigits;
    if a.Some? && b.Some? {
      DigitsTell(a.value, b.value);
    }
  }

  lemma KindTells(a: Kind, b: Kind)
    requires KindText(a) == KindText(b)
    ensures a == b
  {
    hide KindText;
    KindShape(a);
    KindShape(b);
  }

  lemma KindShape(k: Kind)
    ensures |KindText(k)| == if k.Deposit? then 7 else if k.TransferWithFee? then 17 else 8
    ensures KindText(k)[0] == if k.Deposit? then 'd' else if k.Withdraw? then 'w' else 't'
  {
  }

  // No two entries print alike.
  lemma RecordTells(a: Listed, b: Listed, texts: Texts, decimals: Option<nat>)
    requires Telling(texts) && RecordOf(a, texts, decimals) == RecordOf(b, texts, decimals)
    ensures a == b
  {
    hide ToDigits, FromBaseUnits, TimeText, AddressText, AmountText, KindText;
    var r, s := RecordOf(a, texts, decimals), RecordOf(b, texts, decimals);
    assert a.stamp == b.stamp by {
      assert r[0] == s[0] && r[1] == s[1] && r[2] == s[2];
      DigitsTell(a.stamp.slot, b.stamp.slot);
    }
    assert a.activity.from == b.activity.from by {
      assert r[4] == s[4] && r[5] == s[5];
    }
    assert a.activity.to == b.activity.to by {
      assert r[6] == s[6] && r[7] == s[7];
    }
    assert r[3] == s[3] && r[8] == s[8];
    KindTells(a.activity.kind, b.activity.kind);
    AmountTells(a.activity.amount, b.activity.amount);
    LastColumns(a, texts, decimals);
    LastColumns(b, texts, decimals);
    assert "yes"[0] != "no"[0];
  }

  lemma LastColumns(l: Listed, texts: Texts, decimals: Option<nat>)
    ensures var r, n := RecordOf(l, texts, decimals), if decimals.Some? then 10 else 9;
            |r| == n + 2 && r[n] == (if l.activity.decrypted then "yes" else "no") && r[n + 1] == l.activity.note
  {
    hide ToDigits, FromBaseUnits, TimeText, AddressText, AmountText, KindText;
  }

  // The file determines the report it was printed from: the only report with these records is the
  // one that was listed, entry by entry with its transaction, slot and time.
  lemma FileTells(history: seq<Entry>, w: Window, fetch: Signature -> Fetched, audit: Audit,
                  texts: Texts, decimals: Option<nat>, other: seq<Listed>)
    requires Telling(texts)
    ensures var report := Report(Scan(history, w, []), fetch, audit);
            var file := ReadFile(ToCsv(report, texts, decimals));
            file == Some([Header(decimals)] + Records(other, texts, decimals)) <==> other == report
  {
    hide Report, Scan, ReadFile, RecordOf, ToCsv, Telling;
    var report := Report(Scan(history, w, []), fetch, audit);
    CsvRoundTrip(report, texts, decimals);
    var ours, theirs := Records(report, texts, decimals), Records(other, texts, decimals);
    if [Header(decimals)] + ours == [Header(decimals)] + theirs {
      assert ours == ([Header(decimals)] + ours)[1..] == theirs;
      forall k | 0 <= k < |report|
        ensures report[k] == other[k]
      {
        assert ours[k] == theirs[k];
        RecordTells(report[k], other[k], texts, decimals);
      }
    }
  }
}
