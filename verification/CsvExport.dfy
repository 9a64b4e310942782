/** The CSV export (routes/status.ts) and a reader for it in the style of section 2 of RFC 4180, with LF as
    the line break. */
module CsvExport {
  import opened Calendar
  import opened Domain
  import opened Text

  predicate IsSpecial(c: char) { c == '"' || c == ',' || c == '\n' || c == '\r' }

  predicate IsPlain(s: string) { forall i :: 0 <= i < |s| ==> !IsSpecial(s[i]) }

  /** `replaceAll('"', '""')` */
  function Doubled(s: string): string {
    if s == "" then ""
    else Doubled(s[..|s| - 1]) + (if s[|s| - 1] == '"' then "\"\"" else [s[|s| - 1]])
  }

  function CsvField(s: string): string {
    if IsPlain(s) then s else "\"" + Doubled(s) + "\""
  }

  /** Minor units as a signed decimal. */
  function ToMajorString(amountMinor: int): string {
    (if amountMinor < 0 then "-" else "") + DecNat(Abs(amountMinor) / 100) + "." + Padded(Abs(amountMinor) % 100, 2)
  }

  function Join(parts: seq<string>, separator: string): string {
    if parts == [] then ""
    else if |parts| == 1 then parts[0]
    else Join(parts[..|parts| - 1], separator) + separator + parts[|parts| - 1]
  }

  /** A row of the export query: a live transaction with its account and connection. */
  datatype CsvRow = CsvRow(accountName: string, row: Row, provider: string)

  function StatusName(s: Status): string {
    match s case Pending => "PENDING" case Settled => "SETTLED"
  }

  function OrEmpty(s: Option<string>): string { if s.Some? then s.value else "" }

  /** The ten values of a line. */
  function Values(r: CsvRow): (v: seq<string>)
    ensures |v| == 10
  {
    [r.accountName, IsoDay(r.row.EffectiveDate()), ToMajorString(r.row.amountMinor), r.row.currency,
     OrEmpty(r.row.merchantName), r.row.description, OrEmpty(r.row.category), StatusName(r.row.status),
     r.provider, OrEmpty(r.row.providerTransactionId)]
  }

  /** The four free texts are escaped, the other columns are not. */
  function Escaped(column: nat): bool { column == 0 || column == 4 || column == 5 || column == 6 }

  function Line(r: CsvRow): string {
    Join(seq(10, i requires 0 <= i < 10 => if Escaped(i) then CsvField(Values(r)[i]) else Values(r)[i]), ",")
  }

  const HEADER: seq<string> := ["account", "date", "amount", "currency", "merchant", "description", "category",
                                "status", "provider", "provider_transaction_id"]

  function Lines(rows: seq<CsvRow>): (l: seq<string>)
    ensures |l| == |rows| && forall i :: 0 <= i < |rows| ==> l[i] == Line(rows[i])
  {
    seq(|rows|, i requires 0 <= i < |rows| => Line(rows[i]))
  }

  function File(rows: seq<CsvRow>): string {
    Join([Join(HEADER, ",")] + Lines(rows), "\n") + "\n"
  }

  // ------------------------------------------------------------- the reader

  datatype Mode = Start | Bare | Quoted | QuoteSeen | Malformed

  /** The records read, the fields of the current record, the current field. */
  datatype Reader = Reader(records: seq<seq<string>>, fields: seq<string>, current: string, mode: Mode)

  function EndField(r: Reader): Reader {
    Reader(r.records, r.fields + [r.current], "", Start)
  }

  function EndRecord(r: Reader): Reader {
    Reader(r.records + [r.fields + [r.current]], [], "", Start)
  }

  function Read(r: Reader, c: char): Reader {
    match r.mode
    case Malformed => r
    case Quoted => if c == '"' then r.(mode := QuoteSeen) else r.(current := r.current + [c])
    case QuoteSeen =>
      if c == '"' then r.(current := r.current + [c], mode := Quoted)
      else if c == ',' then EndField(r)
      else if c == '\n' then EndRecord(r)
      else r.(mode := Malformed)
    case _ =>
      if c == '"' then r.(mode := if r.mode == Start then Quoted else Malformed)
      else if c == ',' then EndField(r)
      else if c == '\n' then EndRecord(r)
      else if c == '\r' then r.(mode := Malformed)
      else r.(current := r.current + [c], mode := Bare)
  }

  function ReadAll(r: Reader, s: string): Reader {
    if s == "" then r else Read(ReadAll(r, s[..|s| - 1]), s[|s| - 1])
  }

  function Parse(s: string): Option<seq<seq<string>>> {
    var r := ReadAll(Reader([], [], "", Start), s);
    if r.mode == Start && r.fields == [] then Some(r.records) else None
  }

  lemma {:induction false} ReadConcat(r: Reader, a: string, b: string)
    ensures ReadAll(r, a + b) == ReadAll(ReadAll(r, a), b)
  {
    hide Read;
    if b == "" {
      assert a + b == a;
    } else {
      assert (a + b)[..|a + b| - 1] == a + b[..|b| - 1];
      ReadConcat(r, a, b[..|b| - 1]);
    }
  }

  lemma ReadOne(r: Reader, c: char)
    ensures ReadAll(r, [c]) == Read(r, c)
  {
    assert [c][..0] == "";
  }

  /** At the start of a field. */
  predicate Ready(r: Reader) { r.mode == Start && r.current == "" }

  /** The field `v` has been read from `r` on, up to its separator. */
  predicate FieldRead(r: Reader, after: Reader, v: string) {
    after.records == r.records && after.fields == r.fields && after.current == v &&
    (after.mode == Start || after.mode == Bare || after.mode == QuoteSeen)
  }

  lemma {:induction false} PlainIsRead(r: Reader, v: string)
    requires Ready(r) && IsPlain(v)
    ensures ReadAll(r, v) == r.(current := v, mode := if v == "" then Start else Bare)
  {
    if v != "" {
      var init := v[..|v| - 1];
      PlainIsRead(r, init);
      assert !IsSpecial(v[|v| - 1]);
      assert init + [v[|v| - 1]] == v;
    }
  }

  lemma {:induction false} DoubledIsRead(r: Reader, v: string)
    requires r.mode == Quoted
    ensures ReadAll(r, Doubled(v)) == r.(current := r.current + v)
  {
    if v == "" {
      assert r.current + v == r.current;
    } else {
      var init, last := v[..|v| - 1], v[|v| - 1];
      DoubledIsRead(r, init);
      var mid := ReadAll(r, Doubled(init));
      assert r.current + init + [last] == r.current + v;
      if last == '"' {
        ReadConcat(r, Doubled(init), "\"\"");
        assert "\"\""[..1] == "\"";
        ReadOne(mid, '"');
      } else {
        ReadConcat(r, Doubled(init), [last]);
        ReadOne(mid, last);
      }
    }
  }

  /** An escaped field is read back as it was, whatever it contains. */
  lemma FieldIsRead(r: Reader, v: string)
    requires Ready(r)
    ensures FieldRead(r, ReadAll(r, CsvField(v)), v)
  {
    if IsPlain(v) {
      PlainIsRead(r, v);
    } else {
      var open := r.(mode := Quoted);
      ReadOne(r, '"');
      DoubledIsRead(open, v);
      ReadConcat(r, "\"", Doubled(v));
      ReadConcat(r, "\"" + Doubled(v), "\"");
      ReadOne(open.(current := v), '"');
      assert r.current + v == v;
    }
  }

  function Encoded(fields: seq<string>): (e: seq<string>)
    ensures |e| == |fields| && forall i :: 0 <= i < |e| ==> e[i] == CsvField(fields[i])
  {
    seq(|fields|, i requires 0 <= i < |fields| => CsvField(fields[i]))
  }

  lemma {:induction false} RecordIsRead(r: Reader, fields: seq<string>)
    requires Ready(r) && r.fields == [] && |fields| > 0
    ensures FieldRead(r.(fields := fields[..|fields| - 1]), ReadAll(r, Join(Encoded(fields), ",")),
                      fields[|fields| - 1])
  {
    hide Read, CsvField;
    var n := |fields| - 1;
    if n == 0 {
      FieldIsRead(r, fields[0]);
      assert fields[..0] == [];
    } else {
      var init := fields[..n];
      RecordIsRead(r, init);
      assert Encoded(fields)[..n] == Encoded(init);
      var s := Join(Encoded(init), ",");
      assert Join(Encoded(fields), ",") == s + "," + CsvField(fields[n]);
      ReadConcat(r, s, ",");
      ReadConcat(r, s + ",", CsvField(fields[n]));
      SeparatorIsRead(r.(fields := init[..n - 1]), ReadAll(r, s), init[n - 1]);
      assert init[..n - 1] + [init[n - 1]] == init;
      FieldIsRead(r.(fields := init), fields[n]);
    }
  }

  lemma SeparatorIsRead(r: Reader, after: Reader, v: string)
    requires FieldRead(r, after, v)
    ensures ReadAll(after, ",") == Reader(r.records, r.fields + [v], "", Start)
    ensures ReadAll(after, "\n") == Reader(r.records + [r.fields + [v]], [], "", Start)
  {
    ReadOne(after, ',');
    ReadOne(after, '\n');
  }

  lemma LineIsRead(r: Reader, fields: seq<string>)
    requires Ready(r) && r.fields == [] && |fields| > 0
    ensures ReadAll(r, Join(Encoded(fields), ",") + "\n") == Reader(r.records + [fields], [], "", Start)
  {
    hide Read, Join;
    var s := Join(Encoded(fields), ",");
    RecordIsRead(r, fields);
    ReadConcat(r, s, "\n");
    SeparatorIsRead(r.(fields := fields[..|fields| - 1]), ReadAll(r, s), fields[|fields| - 1]);
    assert fields[..|fields| - 1] + [fields[|fields| - 1]] == fields;
  }

  lemma JoinOne(parts: seq<string>, separator: string)
    requires |parts| == 1
    ensures Join(parts, separator) == parts[0]
  {
  }

  lemma JoinLast(parts: seq<string>, end: string)
    requires |parts| > 1
    ensures Join(parts, end) + end == Join(parts[..|parts| - 1], end) + end + (parts[|parts| - 1] + end)
  {
    var init, last := Join(parts[..|parts| - 1], end), parts[|parts| - 1];
    assert Join(parts, end) == init + end + last;
  }

  lemma {:induction false} RecordsAreRead(records: seq<seq<string>>, lines: seq<string>)
    requires |records| == |lines| > 0
    requires forall i :: 0 <= i < |records| ==> |records[i]| > 0 && lines[i] == Join(Encoded(records[i]), ",")
    ensures ReadAll(Reader([], [], "", Start), Join(lines, "\n") + "\n") == Reader(records, [], "", Start)
  {
    hide Read, ReadAll, Encoded, Join;
    var start := Reader([], [], "", Start);
    var n := |records| - 1;
    if n == 0 {
      LineIsRead(start, records[0]);
      JoinOne(lines, "\n");
      assert [] + [records[0]] == records;
    } else {
      RecordsAreRead(records[..n], lines[..n]);
      var s := Join(lines[..n], "\n") + "\n";
      JoinLast(lines, "\n");
      ReadConcat(start, s, lines[n] + "\n");
      LineIsRead(Reader(records[..n], [], "", Start), records[n]);
      assert records[..n] + [records[n]] == records;
    }
  }

  // ----------------------------------------------------------- the round trip

  lemma DigitsArePlain(s: string)
    requires forall c :: c in s ==> IsDateChar(c) || c == '.'
    ensures IsPlain(s)
  {
    forall i | 0 <= i < |s| ensures !IsSpecial(s[i]) {
      assert s[i] in s;
    }
  }

  lemma ToMajorStringIsPlain(x: int)
    ensures IsPlain(ToMajorString(x))
  {
    DigitsArePlain(ToMajorString(x));
  }

  /** The columns written without escaping hold no comma, quote or line break. */
  predicate RawColumnsPlain(r: CsvRow) {
    IsPlain(r.row.currency) && IsPlain(r.provider) && IsPlain(OrEmpty(r.row.providerTransactionId))
  }

  lemma LineIsEncoded(r: CsvRow)
    requires RawColumnsPlain(r)
    ensures Line(r) == Join(Encoded(Values(r)), ",")
  {
    hide IsoDay, ToMajorString, Join;
    DigitsArePlain(IsoDay(r.row.EffectiveDate()));
    ToMajorStringIsPlain(r.row.amountMinor);
    var v := Values(r);
    forall i | 0 <= i < 10 && !Escaped(i) ensures CsvField(v[i]) == v[i] {
      assert i == 1 || i == 2 || i == 3 || i == 7 || i == 8 || i == 9;
    }
    assert seq(10, i requires 0 <= i < 10 => if Escaped(i) then CsvField(v[i]) else v[i]) == Encoded(v);
  }

  function AllValues(rows: seq<CsvRow>): (v: seq<seq<string>>)
    ensures |v| == |rows| && forall i :: 0 <= i < |rows| ==> v[i] == Values(rows[i])
  {
    seq(|rows|, i requires 0 <= i < |rows| => Values(rows[i]))
  }

  lemma HeaderIsEncoded()
    ensures Encoded(HEADER) == HEADER
  {
    hide CsvField;
    forall i | 0 <= i < 10 ensures CsvField(HEADER[i]) == HEADER[i] {
      assert IsPlain(HEADER[i]);
      PlainIsItself(HEADER[i]);
    }
  }

  lemma PlainIsItself(s: string)
    requires IsPlain(s)
    ensures CsvField(s) == s
  {
  }

  lemma RecordsOfFile(rows: seq<CsvRow>)
    requires forall i :: 0 <= i < |rows| ==> RawColumnsPlain(rows[i])
    ensures ReadAll(Reader([], [], "", Start), File(rows)) == Reader([HEADER] + AllValues(rows), [], "", Start)
  {
    hide Join, Values, Line, Encoded, RawColumnsPlain, ReadAll;
    var records, lines := [HEADER] + AllValues(rows), [Join(HEADER, ",")] + Lines(rows);
    HeaderIsEncoded();
    forall i | 0 <= i < |records| ensures |records[i]| > 0 && lines[i] == Join(Encoded(records[i]), ",") {
      if i > 0 {
        LineIsEncoded(rows[i - 1]);
      }
    }
    RecordsAreRead(records, lines);
  }

  /** CSV round trip: every row and every value of it comes back, for arbitrary names and descriptions. */
  lemma RoundTrip(rows: seq<CsvRow>)
    requires forall i :: 0 <= i < |rows| ==> RawColumnsPlain(rows[i])
    ensures Parse(File(rows)) == Some([HEADER] + AllValues(rows))
  {
    hide File, RawColumnsPlain, ReadAll;
    RecordsOfFile(rows);
  }

  // --------------------------------------------------- amounts come back too

  function DotAt(s: string): (k: nat)
    ensures k <= |s|
  {
    if s == "" || s[0] == '.' then 0 else 1 + DotAt(s[1..])
  }

  /** Reading a signed decimal with two places. */
  function ParseMajor(s: string): Option<int> {
    var negative := s != "" && s[0] == '-';
    var t := if negative then s[1..] else s;
    var k := DotAt(t);
    if |t| == k + 3 && AllDigits(t[..k]) && k > 0 && AllDigits(t[k + 1..])
    then
      var minor := 100 * Value(t[..k]) + Value(t[k + 1..]);
      Some(if negative then -minor else minor)
    else None
  }

  lemma {:induction false} DotAfterDigits(d: string, rest: string)
    requires AllDigits(d)
    ensures DotAt(d + "." + rest) == |d|
  {
    if d == "" {
      assert d + "." + rest == "." + rest;
    } else {
      assert d[0] in d;
      assert (d + "." + rest)[1..] == d[1..] + "." + rest;
      assert forall c :: c in d[1..] ==> c in d;
      DotAfterDigits(d[1..], rest);
    }
  }

  lemma TwoDigits(n: nat)
    requires n < 100
    ensures |Padded(n, 2)| == 2
  {
    assert n >= 10 ==> DecNat(n) == DecNat(n / 10) + [Digit(n % 10)];
  }

  lemma PartsAreRead(n: nat)
    ensures var t := DecNat(n / 100) + "." + Padded(n % 100, 2);
            var k := DotAt(t);
            && t != "" && t[0] != '-'
            && |t| == k + 3 && k > 0 && AllDigits(t[..k]) && AllDigits(t[k + 1..])
            && 100 * Value(t[..k]) + Value(t[k + 1..]) == n
  {
    var major, cents := DecNat(n / 100), Padded(n % 100, 2);
    var t := major + "." + cents;
    hide DecNat, Padded, Value;
    DotAfterDigits(major, cents);
    TwoDigits(n % 100);
    ValueOfDecNat(n / 100);
    ValueOfPadded(n % 100, 2);
    assert t[..|major|] == major && t[|major| + 1..] == cents;
    assert major[0] in major;
  }

  /** The printed amount reads back as the amount, for every integer. */
  lemma AmountRoundTrip(x: int)
    ensures ParseMajor(ToMajorString(x)) == Some(x)
  {
    hide DecNat, Padded, Value, AllDigits;
    PartsAreRead(Abs(x));
    var t := DecNat(Abs(x) / 100) + "." + Padded(Abs(x) % 100, 2);
    if x < 0 {
      assert ToMajorString(x) == "-" + t;
      assert ToMajorString(x)[1..] == t;
    } else {
      assert ToMajorString(x) == t;
    }
  }

  // -------------------------------------- what an unescaped column may hold

  /** What has been read so far can still become `expected`. */
  predicate OnTrack(r: Reader, expected: seq<seq<string>>) {
    && r.mode != Malformed && r.records <= expected
    && if |r.records| == |expected| then r.fields == [] && r.mode == Start
       else
         var record := expected[|r.records|];
         r.fields <= record && |r.fields| < |record| && r.current <= record[|r.fields|]
  }

  /** A reader that has gone wrong never recovers. */
  lemma OnTrackBefore(r: Reader, c: char, expected: seq<seq<string>>)
    ensures OnTrack(Read(r, c), expected) ==> OnTrack(r, expected)
  {
    var after := Read(r, c);
    if OnTrack(after, expected) {
      if |after.records| > |r.records| {
        assert expected[|r.records|] == r.fields + [r.current];
      } else if |after.fields| > |r.fields| {
        assert expected[|r.records|][|r.fields|] == r.current;
      }
    }
  }

  lemma {:induction false} OnTrackThroughout(r: Reader, s: string, expected: seq<seq<string>>, n: nat)
    requires n <= |s|
    ensures OnTrack(ReadAll(r, s), expected) ==> OnTrack(ReadAll(r, s[..n]), expected)
  {
    hide Read, OnTrack;
    if n == |s| {
      assert s[..n] == s;
    } else {
      OnTrackBefore(ReadAll(r, s[..|s| - 1]), s[|s| - 1], expected);
      OnTrackThroughout(r, s[..|s| - 1], expected, n);
      assert s[..|s| - 1][..n] == s[..n];
    }
  }

  lemma OffTrackForGood(r: Reader, s: string, expected: seq<seq<string>>, n: nat)
    requires n <= |s| && !OnTrack(ReadAll(r, s[..n]), expected)
    ensures !OnTrack(ReadAll(r, s), expected)
  {
    OnTrackThroughout(r, s, expected, n);
  }

  /** The next field should be `v`. */
  predicate Expects(r: Reader, expected: seq<seq<string>>, v: string) {
    && Ready(r) && |r.records| < |expected| && |r.fields| < |expected[|r.records|]|
    && expected[|r.records|][|r.fields|] == v
  }

  function FirstSpecial(v: string): (i: nat)
    requires !IsPlain(v)
    ensures i < |v| && IsSpecial(v[i]) && IsPlain(v[..i])
  {
    if IsSpecial(v[0]) then 0
    else
      assert v == [v[0]] + v[1..];
      assert !IsPlain(v[1..]) by {
        var i :| 0 <= i < |v| && IsSpecial(v[i]);
        assert v[1..][i - 1] == v[i];
      }
      var i := 1 + FirstSpecial(v[1..]);
      assert forall k :: 0 < k < i ==> v[k] == v[1..][..i - 1][k - 1];
      i
  }

  /** Anything special, except an opening quote, takes the reader off the track at once. */
  lemma SpecialDerails(r: Reader, expected: seq<seq<string>>, v: string, i: nat)
    requires Expects(r, expected, v) && i < |v| && IsSpecial(v[i]) && IsPlain(v[..i]) && !(i == 0 && v[0] == '"')
    ensures !OnTrack(ReadAll(r, v[..i + 1]), expected)
  {
    hide Read, OnTrack, IsSpecial;
    var u := v[..i];
    PlainIsRead(r, u);
    assert v[..i + 1] == u + [v[i]];
    ReadConcat(r, u, [v[i]]);
    ReadOne(ReadAll(r, u), v[i]);
    SpecialNext(r, expected, v, ReadAll(r, u), v[i]);
  }

  lemma SpecialNext(r: Reader, expected: seq<seq<string>>, v: string, plain: Reader, c: char)
    requires Expects(r, expected, v) && IsSpecial(c) && !(plain.mode == Start && c == '"')
    requires plain.records == r.records && plain.fields == r.fields && |plain.current| < |v|
    requires plain.mode == Start || plain.mode == Bare
    ensures !OnTrack(Read(plain, c), expected)
  {
    var after := Read(plain, c);
    if c == ',' {
      assert after.fields[|r.fields|] == plain.current;
    } else if c == '\n' {
      assert after.records[|r.records|][|r.fields|] == plain.current;
    }
  }

  predicate AllQuotes(s: string) { forall i :: 0 <= i < |s| ==> s[i] == '"' }

  /** Of a run of quotes the reader keeps fewer than it was given. */
  lemma {:induction false} QuotesAreRead(r: Reader, s: string)
    requires Ready(r) && AllQuotes(s) && s != ""
    ensures var after := ReadAll(r, s);
            && after.records == r.records && after.fields == r.fields
            && (after.mode == Quoted || after.mode == QuoteSeen)
            && AllQuotes(after.current) && |after.current| < |s|
  {
    var init := s[..|s| - 1];
    if init == "" {
      assert s == ['"'];
      ReadOne(r, '"');
    } else {
      QuotesAreRead(r, init);
    }
  }

  function LeadingQuotes(s: string): (n: nat)
    ensures n <= |s| && AllQuotes(s[..n]) && (n < |s| ==> s[n] != '"')
  {
    if s == "" || s[0] != '"' then 0
    else
      var n := 1 + LeadingQuotes(s[1..]);
      assert forall i :: 0 < i < n ==> s[i] == s[1..][..n - 1][i - 1];
      n
  }

  /** A value that begins with a quote is not read back either: after its leading quotes the reader is off the
      track, or goes off it with the next character. */
  lemma OpeningQuoteDerails(r: Reader, expected: seq<seq<string>>, v: string, end: char)
    requires Expects(r, expected, v) && v != "" && v[0] == '"' && (end == ',' || end == '\n')
    ensures !OnTrack(ReadAll(r, v + [end]), expected)
  {
    hide ReadAll;
    var s := v + [end];
    var n := LeadingQuotes(s);
    QuotesEndBefore(v, end);
    QuotesAreRead(r, s[..n]);
    var quoted := ReadAll(r, s[..n]);
    assert s[..n + 1] == s[..n] + [s[n]];
    ReadConcat(r, s[..n], [s[n]]);
    ReadOne(quoted, s[n]);
    assert v[|quoted.current|] == s[..n][|quoted.current|];
    NextCharacterDerails(r, expected, v, quoted, s[n]);
    OffTrackForGood(r, s, expected, n + 1);
  }

  lemma QuotesEndBefore(v: string, end: char)
    requires v != "" && v[0] == '"' && end != '"'
    ensures 0 < LeadingQuotes(v + [end]) <= |v|
  {
    var s := v + [end];
    var n := LeadingQuotes(s);
    assert s[|v|] == end && s[0] == '"';
    assert AllQuotes(s[..n]);
    assert forall i :: 0 <= i < n ==> s[..n][i] == s[i];
  }

  lemma NextCharacterDerails(r: Reader, expected: seq<seq<string>>, v: string, quoted: Reader, c: char)
    requires Expects(r, expected, v) && c != '"'
    requires quoted.records == r.records && quoted.fields == r.fields
    requires quoted.mode == Quoted || quoted.mode == QuoteSeen
    requires |quoted.current| < |v| && v[|quoted.current|] == '"'
    ensures !OnTrack(Read(quoted, c), expected)
  {
    var after := Read(quoted, c);
    if quoted.mode == Quoted {
      assert after.current[|quoted.current|] == c;
    } else if c == ',' {
      assert after.fields[|r.fields|] == quoted.current;
    } else if c == '\n' {
      assert after.records[|r.records|][|r.fields|] == quoted.current;
    }
  }

  /** A value with a special character, written as it is, is never read back. */
  lemma NotPlainDerails(r: Reader, expected: seq<seq<string>>, v: string, end: char)
    requires Expects(r, expected, v) && !IsPlain(v) && (end == ',' || end == '\n')
    ensures !OnTrack(ReadAll(r, v + [end]), expected)
  {
    hide ReadAll, OnTrack, Expects;
    var i := FirstSpecial(v);
    if i == 0 && v[0] == '"' {
      OpeningQuoteDerails(r, expected, v, end);
    } else {
      SpecialDerails(r, expected, v, i);
      assert (v + [end])[..i + 1] == v[..i + 1];
      OffTrackForGood(r, v + [end], expected, i + 1);
    }
  }

  /** An unescaped column is read back exactly when it holds no comma, quote or line break, whether a comma ends it
      or, as the last one, a line break. */
  lemma RawColumnRoundTripsExactlyWhenPlain(r: Reader, v: string)
    requires Ready(r)
    ensures ReadAll(r, v + ",") == EndField(r.(current := v)) <==> IsPlain(v)
    ensures ReadAll(r, v + "\n") == EndRecord(r.(current := v)) <==> IsPlain(v)
  {
    hide IsPlain;
    if IsPlain(v) {
      PlainIsRead(r, v);
      ReadConcat(r, v, ",");
      ReadConcat(r, v, "\n");
      ReadOne(ReadAll(r, v), ',');
      ReadOne(ReadAll(r, v), '\n');
    } else {
      NotPlainDerails(r, r.records + [r.fields + [v, ""]], v, ',');
      NotPlainDerails(r, r.records + [r.fields + [v]], v, '\n');
    }
  }

  // ----------------------------------------------------------- the whole file

  lemma {:induction false} JoinPrefix(parts: seq<string>, end: string, k: nat)
    requires 0 < k <= |parts|
    ensures Join(parts[..k], end) + end <= Join(parts, end) + end
  {
    if k == |parts| {
      assert parts[..k] == parts;
    } else {
      JoinPrefix(parts[..|parts| - 1], end, k);
      assert parts[..|parts| - 1][..k] == parts[..k];
      JoinLast(parts, end);
    }
  }

  lemma JoinStep(parts: seq<string>, end: string, k: nat)
    requires 0 < k < |parts|
    ensures Join(parts[..k + 1], end) == Join(parts[..k], end) + end + parts[k]
  {
    assert parts[..k + 1][..k] == parts[..k];
  }

  function Cells(r: CsvRow): (c: seq<string>)
    ensures |c| == 10
    ensures forall i :: 0 <= i < 10 ==> c[i] == if Escaped(i) then CsvField(Values(r)[i]) else Values(r)[i]
  {
    seq(10, i requires 0 <= i < 10 => if Escaped(i) then CsvField(Values(r)[i]) else Values(r)[i])
  }

  lemma LineIsCells(r: CsvRow)
    ensures Line(r) == Join(Cells(r), ",")
  {
    hide Values;
    assert Cells(r) ==
           seq(10, i requires 0 <= i < 10 => if Escaped(i) then CsvField(Values(r)[i]) else Values(r)[i]);
  }

  /** The columns before `j` that are not escaped hold nothing special. */
  predicate PlainBefore(r: CsvRow, j: nat)
    requires j < 10
  {
    forall i :: 0 <= i < j && !Escaped(i) ==> IsPlain(Values(r)[i])
  }

  /** The first column that would not be read back. */
  lemma FirstBadColumn(r: CsvRow) returns (j: nat)
    requires !RawColumnsPlain(r)
    ensures 0 < j < 10 && !Escaped(j) && PlainBefore(r, j) && !IsPlain(Values(r)[j])
  {
    hide IsPlain, IsoDay, ToMajorString;
    DigitsArePlain(IsoDay(r.row.EffectiveDate()));
    ToMajorStringIsPlain(r.row.amountMinor);
    StatusIsPlain(r.row.status);
    j := if !IsPlain(r.row.currency) then 3 else if !IsPlain(r.provider) then 8 else 9;
    forall i | 0 <= i < j && !Escaped(i) ensures IsPlain(Values(r)[i]) {
      assert i == 1 || i == 2 || i == 3 || i == 7 || i == 8;
    }
  }

  lemma StatusIsPlain(s: Status)
    ensures IsPlain(StatusName(s))
  {
  }

  /** Reading a line up to column `j`. */
  lemma ColumnsAreRead(start: Reader, r: CsvRow, j: nat)
    requires Ready(start) && start.fields == [] && 0 < j < 10 && PlainBefore(r, j)
    ensures ReadAll(start, Join(Cells(r)[..j], ",") + ",") == start.(fields := Values(r)[..j])
  {
    hide Read, ReadAll, Join, IsPlain, Values;
    var v := Values(r)[..j];
    forall i | 0 <= i < j && !Escaped(i) ensures CsvField(v[i]) == v[i] {
      PlainIsItself(v[i]);
    }
    assert Cells(r)[..j] == Encoded(v);
    var s := Join(Encoded(v), ",");
    RecordIsRead(start, v);
    ReadConcat(start, s, ",");
    SeparatorIsRead(start.(fields := v[..j - 1]), ReadAll(start, s), v[j - 1]);
    assert v[..j - 1] + [v[j - 1]] == v;
  }

  /** The line up to and including the character that ends column `j`. */
  lemma LineHead(r: CsvRow, j: nat) returns (head: string, end: char)
    requires 0 < j < 10 && !Escaped(j)
    ensures (end == ',' || end == '\n') && head == Join(Cells(r)[..j], ",") + "," + (Values(r)[j] + [end])
    ensures head <= Line(r) + "\n"
  {
    hide Join, Values;
    end := if j < 9 then ',' else '\n';
    var c := Cells(r);
    head := Join(c[..j], ",") + "," + (Values(r)[j] + [end]);
    LineIsCells(r);
    JoinStep(c, ",", j);
    assert head == Join(c[..j + 1], ",") + [end];
    if j < 9 {
      JoinPrefix(c, ",", j + 1);
      LastCommaIsFollowed(c, j + 1);
    } else {
      assert c[..10] == c;
    }
  }

  lemma LastCommaIsFollowed(parts: seq<string>, k: nat)
    requires 0 < k < |parts|
    ensures Join(parts[..k], ",") + "," <= Join(parts, ",")
  {
    var init := parts[..|parts| - 1];
    JoinPrefix(init, ",", k);
    assert init[..k] == parts[..k];
  }

  lemma FirstBadRow(rows: seq<CsvRow>) returns (i: nat)
    requires exists k :: 0 <= k < |rows| && !RawColumnsPlain(rows[k])
    ensures i < |rows| && !RawColumnsPlain(rows[i]) && forall k :: 0 <= k < i ==> RawColumnsPlain(rows[k])
  {
    hide RawColumnsPlain;
    i := 0;
    while RawColumnsPlain(rows[i])
      invariant i < |rows| && forall k :: 0 <= k < i ==> RawColumnsPlain(rows[k])
      decreases |rows| - i
    {
      i := i + 1;
    }
  }

  /** The file up to the bad row. */
  lemma RowsBeforeAreRead(rows: seq<CsvRow>, i: nat)
    requires i < |rows| && forall k :: 0 <= k < i ==> RawColumnsPlain(rows[k])
    ensures ReadAll(Reader([], [], "", Start), File(rows[..i])) ==
            Reader([HEADER] + AllValues(rows[..i]), [], "", Start)
    ensures File(rows[..i]) + Line(rows[i]) + "\n" <= File(rows)
  {
    hide Join, Values, Line, RawColumnsPlain, ReadAll;
    RecordsOfFile(rows[..i]);
    var lines := [Join(HEADER, ",")] + Lines(rows);
    assert lines[..i + 1] == [Join(HEADER, ",")] + Lines(rows[..i]);
    assert lines[i + 1] == Line(rows[i]);
    JoinPrefix(lines, "\n", i + 2);
    JoinStep(lines, "\n", i + 1);
  }

  /** The file is not read back when a row has an unescaped column with something special in it. */
  lemma BadRowIsNotReadBack(rows: seq<CsvRow>, i: nat)
    requires i < |rows| && !RawColumnsPlain(rows[i]) && forall k :: 0 <= k < i ==> RawColumnsPlain(rows[k])
    ensures Parse(File(rows)) != Some([HEADER] + AllValues(rows))
  {
    hide Join, Values, Line, RawColumnsPlain, ReadAll, File, IsPlain, OnTrack, Read;
    var start, expected := Reader([], [], "", Start), [HEADER] + AllValues(rows);
    var j := FirstBadColumn(rows[i]);
    var head, end := LineHead(rows[i], j);
    RowsBeforeAreRead(rows, i);
    var before := File(rows[..i]);
    var at := Reader([HEADER] + AllValues(rows[..i]), [], "", Start);
    var v := Values(rows[i]);
    ColumnsAreRead(at, rows[i], j);
    ReadConcat(at, Join(Cells(rows[i])[..j], ",") + ",", v[j] + [end]);
    ReadConcat(start, before, head);
    assert expected[|at.records|] == v;
    NotPlainDerails(at.(fields := v[..j]), expected, v[j], end);
    assert File(rows)[..|before + head|] == before + head;
    if Parse(File(rows)) == Some(expected) {
      ParsedIsOnTrack(ReadAll(start, File(rows)), expected);
    }
    OnTrackThroughout(start, File(rows), expected, |before + head|);
  }

  lemma ParsedIsOnTrack(r: Reader, expected: seq<seq<string>>)
    requires r.mode == Start && r.fields == [] && r.records == expected
    ensures OnTrack(r, expected)
  {
  }

  /** The file reads back exactly when the columns written without escaping hold no comma, quote or line break. */
  lemma RoundTripExactlyWhenPlain(rows: seq<CsvRow>)
    ensures Parse(File(rows)) == Some([HEADER] + AllValues(rows)) <==>
            forall i :: 0 <= i < |rows| ==> RawColumnsPlain(rows[i])
  {
    hide Parse, File, RawColumnsPlain;
    if forall i :: 0 <= i < |rows| ==> RawColumnsPlain(rows[i]) {
      RoundTrip(rows);
    } else {
      var i := FirstBadRow(rows);
      BadRowIsNotReadBack(rows, i);
    }
  }

  // ------------------------------------------------------ what the file says

  /** The fields `v` are those of the row: the account, the day of the booked date or else of the timestamp, the
      amount, the texts, with nothing where one is missing, the status and the provider with its id. */
  predicate HoldsRow(r: CsvRow, v: seq<string>) {
    var day := if r.row.bookedDate.Some? then r.row.bookedDate.value else r.row.timestamp;
    && |v| == 10
    && v[0] == r.accountName
    && (YEAR_0 <= day < YEAR_10000 ==> |v[1]| == 10 && ParseDay(v[1]) == day / 86_400_000)
    && ParseMajor(v[2]) == Some(r.row.amountMinor)
    && v[3] == r.row.currency
    && v[4] == (match r.row.merchantName case Some(name) => name case None => "")
    && v[5] == r.row.description
    && v[6] == (match r.row.category case Some(name) => name case None => "")
    && v[7] == (if r.row.status.Settled? then "SETTLED" else "PENDING")
    && v[8] == r.provider
    && v[9] == (match r.row.providerTransactionId case Some(id) => id case None => "")
  }

  lemma ValuesHoldTheRow(r: CsvRow)
    ensures HoldsRow(r, Values(r))
  {
    hide IsoDay, ParseDay, ToMajorString, ParseMajor;
    var day := r.row.EffectiveDate();
    AmountRoundTrip(r.row.amountMinor);
    if YEAR_0 <= day < YEAR_10000 {
      DayRoundTrip(day);
    }
  }

  /** The file read back: its header, and one record for each row, in the order of the rows. */
  lemma FileHoldsTheRows(rows: seq<CsvRow>)
    requires forall i :: 0 <= i < |rows| ==> RawColumnsPlain(rows[i])
    ensures Parse(File(rows)).Some?
    ensures var records := Parse(File(rows)).value;
            && |records| == |rows| + 1
            && records[0] == ["account", "date", "amount", "currency", "merchant", "description", "category", "status",
                              "provider", "provider_transaction_id"]
            && forall i :: 0 <= i < |rows| ==> HoldsRow(rows[i], records[i + 1])
  {
    hide Parse, File, RawColumnsPlain, HoldsRow, Values;
    RoundTrip(rows);
    var records := Parse(File(rows)).value;
    forall i | 0 <= i < |rows| ensures HoldsRow(rows[i], records[i + 1]) {
      assert records[i + 1] == Values(rows[i]);
      ValuesHoldTheRow(rows[i]);
    }
  }
}
