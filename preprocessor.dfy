/**
 * `preprocess` (preprocessor.py): turns an exported WhatsApp transcript into a table with
 * one row per message. The text is cut at every timestamp the scanner finds; the
 * timestamps are read as dates by the first format that reads all of them; each entry is
 * split into its sender and its body; and every row gets calendar fields and an hour
 * bucket. When nothing can be extracted, or no format reads every timestamp, the result
 * is the empty table with the same twelve columns.
 */
module Preprocessor {
  import opened Wrappers
  import opened Text
  import opened Calendar
  import opened Stamp

  /** One row of the table; the fields are its twelve columns, in the table's order. */
  datatype Row = Row(
    date: DateTime, user: string, message: string, onlyDate: Date,
    year: nat, monthNum: nat, month: string, day: nat, dayName: string,
    hour: nat, minute: nat, period: string)

  const Columns: seq<string> :=
    ["date", "user", "message", "only_date", "year", "month_num",
     "month", "day", "day_name", "hour", "minute", "period"]

  datatype Frame = Frame(columns: seq<string>, rows: seq<Row>)

  /** The table returned when no row can be built. */
  const EmptyFrame: Frame := Frame(Columns, [])

  // ---------------------------------------------------------------- senders

  const Skipped: string := "skipped_entry"
  const SystemNotice: string := "system_notification"
  const GroupNotice: string := "group_notification"
  /** The opening words of the notice a business chat starts with. */
  const MetaNotice: string := "This business uses a secure service from Meta"

  /** A ':' at j, with at least one character before it and whitespace after it: where
      `([\w\W]+?):\s` can end its sender group. */
  predicate IsSep(s: string, j: nat) {
    1 <= j && j + 1 < |s| && s[j] == ':' && IsSpace(s[j + 1])
  }

  /**
   * The first separator at or after j. The lazy group of the sender pattern, tried from
   * the start of the entry, stops at the first separator, and a match starting later would
   * have matched from the start as well, so `re.split` cuts there or nowhere.
   */
  function FindSep(s: string, j: nat): (r: Option<nat>)
    requires 1 <= j
    ensures r.Some? ==> j <= r.value && IsSep(s, r.value)
    ensures r.Some? ==> forall k :: j <= k < r.value ==> !IsSep(s, k)
    ensures r.None? ==> forall k :: j <= k ==> !IsSep(s, k)
    decreases |s| - j
  {
    if j + 1 >= |s| then None
    else if IsSep(s, j) then Some(j)
    else FindSep(s, j + 1)
  }

  /** The sender and the body of one entry. */
  datatype Entry = Entry(user: string, message: string)

  /** How preprocess splits an entry: a blank one is skipped, one with a separator is cut
      at the first, and any other is a notice from the system or the group. */
  function Split(entry: string): Entry {
    if Strip(entry) == [] then Entry(Skipped, "")
    else
      match FindSep(entry, 1)
      case Some(j) => Entry(Strip(entry[..j]), Strip(entry[j + 2..]))
      case None => Entry(NoticeSender(Strip(entry)), Strip(entry))
  }

  /** Who sent a line that names no sender: the system for the business-chat notice, the
      group for anything else. */
  function NoticeSender(stripped: string): string {
    if StartsWith(stripped, MetaNotice) then SystemNotice else GroupNotice
  }

  /** The sender can be empty: in " : hi" the separator follows a lone space, which
      stripping removes. */
  lemma EmptySender()
    ensures Split(" : hi") == Entry("", "hi")
  {
    var entry := " : hi";
    assert !IsSpace(entry[1]);
    assert IsSep(entry, 1);
    SenderAtFirstSeparator(entry, 1);
    assert entry[..1] == " " && entry[3..] == "hi";
    StripSamples(" ", "hi");
  }

  lemma StripSamples(blank: string, word: string)
    requires blank == " " && word == "hi"
    ensures Strip(blank) == [] && Strip(word) == word
  {
    assert IsBlank(blank);
    assert LeadingSpaces(word) == 0;
    assert word[1..][0] == 'i';
    assert !IsBlank(word[1..]);
  }

  /** A blank entry is skipped, with an empty body. */
  lemma BlankEntry(entry: string)
    requires IsBlank(entry)
    ensures Split(entry) == Entry(Skipped, "")
  {
  }

  /** An entry with a separator: the sender is the stripped text before the first one and
      the body the stripped text after it. */
  lemma SenderAtFirstSeparator(entry: string, j: nat)
    requires !IsBlank(entry) && IsSep(entry, j)
    requires forall k :: 1 <= k < j ==> !IsSep(entry, k)
    ensures Split(entry) == Entry(Strip(entry[..j]), Strip(entry[j + 2..]))
  {
    assert FindSep(entry, 1) == Some(j);
  }

  /** An entry with no separator is a notice; its body is the whole stripped entry. */
  lemma NoticeEntry(entry: string)
    requires !IsBlank(entry) && forall k :: !IsSep(entry, k)
    ensures Split(entry).message == Strip(entry)
    ensures Split(entry).user == if StartsWith(Strip(entry), MetaNotice) then SystemNotice else GroupNotice
  {
    assert FindSep(entry, 1) == None;
  }

  /** Every body is stripped, so none ends in a newline. */
  lemma BodyIsStripped(entry: string)
    ensures Strip(Split(entry).message) == Split(entry).message
    ensures |Split(entry).message| > 0 ==> !IsSpace(Split(entry).message[|Split(entry).message| - 1])
  {
    var body := Split(entry).message;
    if Strip(entry) == [] {
      StrippedText(body, "");
    } else {
      match FindSep(entry, 1)
      case Some(j) => StrippedText(body, entry[j + 2..]);
      case None => StrippedText(body, entry);
    }
  }

  lemma StrippedText(m: string, x: string)
    requires m == Strip(x)
    ensures Strip(m) == m && (|m| > 0 ==> !IsSpace(m[|m| - 1]))
  {
    StripIdempotent(x);
  }

  // ---------------------------------------------------------------- hour buckets

  /** The bucket of the hour starting at h. */
  function Period(h: nat): string
    requires h < 24
  {
    if h == 23 then Decimal(h) + "-00"
    else if h == 0 then "00-01"
    else Decimal(h) + "-" + Decimal(h + 1)
  }

  /** Where the first '-' of s is (|s| when there is none). */
  function DashAt(s: string): (i: nat)
    ensures i <= |s| && (i < |s| ==> s[i] == '-')
    ensures forall k :: 0 <= k < i ==> s[k] != '-'
  {
    if s == [] || s[0] == '-' then 0 else 1 + DashAt(s[1..])
  }

  /** The hours a bucket names: the numbers before and after its '-'. */
  predicate Names(bucket: string, from: nat, to: nat) {
    var i := DashAt(bucket);
    i < |bucket| && AllDigits(bucket[..i]) && AllDigits(bucket[i + 1..])
    && DigitsValue(bucket[..i]) == from && DigitsValue(bucket[i + 1..]) == to
  }

  lemma DashSplit(d: string, e: string)
    requires forall k :: 0 <= k < |d| ==> d[k] != '-'
    ensures DashAt(d + "-" + e) == |d|
    ensures (d + "-" + e)[..|d|] == d && (d + "-" + e)[|d| + 1..] == e
  {
    var s := d + "-" + e;
    assert s[|d|] == '-';
    assert forall k :: 0 <= k < |d| ==> s[k] == d[k];
  }

  lemma NamesOfParts(d: string, e: string, from: nat, to: nat)
    requires AllDigits(d) && AllDigits(e) && DigitsValue(d) == from && DigitsValue(e) == to
    ensures Names(d + "-" + e, from, to)
  {
    DashSplit(d, e);
  }

  /** Every bucket runs from its hour to the next, round the clock. */
  lemma PeriodNamesTheHour(h: nat)
    requires h < 24
    ensures Names(Period(h), h, (h + 1) % 24)
  {
    var bucket := Period(h);
    if h == 23 {
      LateBucket(h, bucket);
    } else if h == 0 {
      MidnightBucket(bucket);
    } else {
      assert (h + 1) % 24 == h + 1;
      HourBucket(h, bucket);
    }
  }

  lemma HourBucket(h: nat, bucket: string)
    requires 0 < h < 23 && bucket == Decimal(h) + "-" + Decimal(h + 1)
    ensures Names(bucket, h, h + 1)
  {
    DecimalRoundTrip(h);
    DecimalRoundTrip(h + 1);
    NamesOfParts(Decimal(h), Decimal(h + 1), h, h + 1);
  }

  lemma LateBucket(h: nat, bucket: string)
    requires h == 23 && bucket == Decimal(h) + "-00"
    ensures Names(bucket, h, 0)
  {
    DecimalRoundTrip(h);
    var d := Decimal(h);
    assert bucket == d + "-" + "00";
    assert "00"[..1] == "0" && "0"[..0] == [];
    NamesOfParts(d, "00", h, 0);
  }

  lemma MidnightBucket(bucket: string)
    requires bucket == "00-01"
    ensures Names(bucket, 0, 1)
  {
    assert bucket == "00" + "-" + "01";
    assert "00"[..1] == "0" && "01"[..1] == "0" && "0"[..0] == [];
    NamesOfParts("00", "01", 0, 1);
  }

  /** Different hours have different buckets. */
  lemma PeriodInjective(a: nat, b: nat)
    requires a < 24 && b < 24 && Period(a) == Period(b)
    ensures a == b
  {
    PeriodNamesTheHour(a);
    PeriodNamesTheHour(b);
  }

  // ---------------------------------------------------------------- dates

  /** `pd.to_datetime(column, format=fmt)`: every string read with fmt, or None (ValueError)
      as soon as one of them cannot be read. */
  function ParseColumn(fmt: string, ss: seq<string>): (r: Option<seq<DateTime>>)
    ensures r.Some? <==> forall k :: 0 <= k < |ss| ==> ParseWith(fmt, ss[k]).Some?
    ensures r.Some? ==> |r.value| == |ss| && forall k :: 0 <= k < |ss| ==> ParseWith(fmt, ss[k]) == Some(r.value[k])
    ensures r.Some? ==> forall k :: 0 <= k < |r.value| ==> ValidDateTime(r.value[k])
  {
    if forall k :: 0 <= k < |ss| ==> ParseWith(fmt, ss[k]).Some? then
      Some(seq(|ss|, k requires 0 <= k < |ss| => ParseWith(fmt, ss[k]).value))
    else None
  }

  /** The try-chain of preprocess: the first of the three formats that reads the whole
      column is used; None when none does. */
  function ParseDates(ss: seq<string>): (r: Option<seq<DateTime>>)
    ensures r.Some? ==> |r.value| == |ss| && forall k :: 0 <= k < |ss| ==> ValidDateTime(r.value[k])
  {
    var narrow := ParseColumn(FormatNarrow, ss);
    if narrow.Some? then narrow
    else
      var space := ParseColumn(FormatSpace, ss);
      if space.Some? then space else ParseColumn(Format24, ss)
  }

  /** The row for entry e, sent at d, with the calendar columns taken from d. */
  function MakeRow(d: DateTime, e: Entry, bucket: string): Row
    requires ValidDateTime(d)
  {
    Row(d, e.user, e.message, d.date, d.date.year, d.date.month, MonthName(d.date.month),
        d.date.day, DayName(d.date), d.hour, d.minute, bucket)
  }

  /** The table preprocess returns for the transcript data. */
  function Preprocessed(data: string): Frame {
    Table(Entries(data), Stamps(data))
  }

  /** The table built from the entries and the timestamps the transcript was cut into. */
  function Table(messages: seq<string>, dates: seq<string>): Frame {
    var n := if |messages| < |dates| then |messages| else |dates|;
    if n == 0 then EmptyFrame
    else
      match ParseDates(dates[..n])
      case None => EmptyFrame
      case Some(ds) => Frame(Columns, Rows(messages, ds))
  }

  /** One row per parsed minute, with the sender and body of the entry at the same place. */
  function Rows(messages: seq<string>, ds: seq<DateTime>): (rows: seq<Row>)
    requires |ds| <= |messages| && forall k :: 0 <= k < |ds| ==> ValidDateTime(ds[k])
    ensures |rows| == |ds|
  {
    seq(|ds|, k requires 0 <= k < |ds| && ValidDateTime(ds[k]) => MakeRow(ds[k], Split(messages[k]), Period(ds[k].hour)))
  }

  /** Split, case by case, as the sender loop takes it. */
  lemma SplitCases(entry: string)
    ensures Strip(entry) == [] ==> Split(entry) == Entry(Skipped, "")
    ensures Strip(entry) != [] && FindSep(entry, 1).Some? ==>
      var j := FindSep(entry, 1).value; Split(entry) == Entry(Strip(entry[..j]), Strip(entry[j + 2..]))
    ensures Strip(entry) != [] && FindSep(entry, 1).None? ==>
      Split(entry) == Entry(if StartsWith(Strip(entry), MetaNotice) then SystemNotice else GroupNotice, Strip(entry))
  {
  }

  /** The body of the sender loop: one entry's sender and body. */
  method SplitOne(message: string) returns (user: string, body: string)
    ensures Entry(user, body) == Split(message)
  {
    var stripped := Strip(message);
    if stripped == [] {
      user, body := Skipped, "";
    } else {
      var sep := FindSep(message, 1);
      if sep.Some? {
        user, body := Strip(message[..sep.value]), Strip(message[sep.value + 2..]);
      } else if StartsWith(stripped, MetaNotice) {
        user, body := SystemNotice, stripped;
      } else {
        user, body := GroupNotice, stripped;
      }
    }
    SplitCases(message);
  }

  /** The sender loop of preprocess: a sender and a body for every entry, in order. */
  method SplitEntries(entries: seq<string>) returns (users: seq<string>, messagesList: seq<string>)
    ensures |users| == |entries| && |messagesList| == |entries|
    ensures forall k :: 0 <= k < |entries| ==> Entry(users[k], messagesList[k]) == Split(entries[k])
  {
    users, messagesList := [], [];
    for i := 0 to |entries|
      invariant |users| == i && |messagesList| == i
      invariant forall k :: 0 <= k < i ==> Entry(users[k], messagesList[k]) == Split(entries[k])
    {
      var user, body := SplitOne(entries[i]);
      users := users + [user];
      messagesList := messagesList + [body];
    }
  }

  /** The bucket loop of preprocess: the bucket of every hour, in order. */
  method PeriodColumn(hours: seq<nat>) returns (period: seq<string>)
    requires forall k :: 0 <= k < |hours| ==> hours[k] < 24
    ensures |period| == |hours|
    ensures forall k :: 0 <= k < |hours| ==> period[k] == Period(hours[k])
  {
    period := [];
    for i := 0 to |hours|
      invariant |period| == i
      invariant forall k :: 0 <= k < i ==> period[k] == Period(hours[k])
    {
      var hour := hours[i];
      var bucket: string;
      if hour == 23 {
        bucket := Decimal(hour) + "-00";
      } else if hour == 0 {
        bucket := "00-01";
      } else {
        bucket := Decimal(hour) + "-" + Decimal(hour + 1);
      }
      period := period + [bucket];
    }
  }

  /** The try-chain of preprocess over the whole date column. */
  method ReadDates(column: seq<string>) returns (dates: Option<seq<DateTime>>)
    ensures dates == ParseDates(column)
  {
    dates := ParseColumn(FormatNarrow, column);
    if dates.None? {
      dates := ParseColumn(FormatSpace, column);
      if dates.None? {
        dates := ParseColumn(Format24, column);
      }
    }
  }

  /** preprocess: cut the transcript at its timestamps and build the table. */
  method Preprocess(data: string) returns (df: Frame)
    ensures df == Preprocessed(data)
  {
    var messagesData := Entries(data);
    var datesData := Stamps(data);
    df := BuildTable(messagesData, datesData);
  }

  /**
   * The rest of preprocess, step by step: read the dates with the first format that reads
   * them all, split every entry in one pass and bucket every hour in another.
   */
  method BuildTable(messagesData: seq<string>, datesData: seq<string>) returns (df: Frame)
    ensures df == Table(messagesData, datesData)
  {
    var minLen := if |messagesData| < |datesData| then |messagesData| else |datesData|;
    if minLen == 0 {
      return EmptyFrame;
    }
    var dates := ReadDates(datesData[..minLen]);
    if dates.None? {
      return EmptyFrame;
    }
    var ds := dates.value;

    var users, messagesList := SplitEntries(messagesData[..minLen]);
    var period := PeriodColumn(seq(minLen, k requires 0 <= k < minLen => ds[k].hour));

    var rows := seq(minLen, k requires 0 <= k < minLen =>
      MakeRow(ds[k], Entry(users[k], messagesList[k]), period[k]));
    df := Frame(Columns, rows);
    assert df.rows == Table(messagesData, datesData).rows by {
      forall k | 0 <= k < minLen
        ensures rows[k] == Rows(messagesData, ds)[k]
      {
        assert messagesData[..minLen][k] == messagesData[k];
      }
    }
  }

  // ---------------------------------------------------------------- properties

  /** Every format reads a column of stamps as the narrow-space format does, except the
      24-hour one, which reads none. */
  lemma ColumnFormats(ss: seq<string>)
    requires forall k :: 0 <= k < |ss| ==> IsStamp(ss[k])
    ensures ParseColumn(FormatSpace, ss) == ParseColumn(FormatNarrow, ss)
    ensures ss != [] ==> ParseColumn(Format24, ss) == None
    ensures ParseDates(ss) == ParseColumn(FormatNarrow, ss)
  {
    var space, narrow := ParseColumn(FormatSpace, ss), ParseColumn(FormatNarrow, ss);
    forall k | 0 <= k < |ss| ensures ParseWith(FormatSpace, ss[k]) == ParseWith(FormatNarrow, ss[k]) {
      StampDate(ss[k]);
    }
    if space.Some? {
      assert space.value == narrow.value;
    }
    if ss != [] {
      Format24RejectsStamps(ss[0]);
    }
  }

  /** Row r is the one for the timestamp t and the entry after it: its sender and body are
      the entry's, and its date and calendar columns are the numbers written in t. */
  predicate RowOf(r: Row, t: string, entry: string)
    requires IsStamp(t)
  {
    var p := PartsOf(t);
    Entry(r.user, r.message) == Split(entry)
    && Denotes(p) == Some(r.date) && r.onlyDate == r.date.date
    && r.year == DigitsValue(p.year) && r.monthNum == DigitsValue(p.month) && r.day == DigitsValue(p.day)
    && r.minute == DigitsValue(p.minute)
    && r.hour % 12 == DigitsValue(p.hour) % 12 && (r.hour >= 12 <==> p.meridiem == "pm")
    && ValidDate(r.onlyDate) && r.monthNum == r.onlyDate.month && r.hour < 24
    && r.month == MonthName(r.monthNum) && r.dayName == DayName(r.onlyDate) && r.period == Period(r.hour)
  }

  lemma RowOfStamp(d: DateTime, t: string, entry: string)
    requires IsStamp(t) && Denotes(PartsOf(t)) == Some(d)
    ensures RowOf(MakeRow(d, Split(entry), Period(d.hour)), t, entry)
  {
  }

  /** Every timestamp of the column denotes a minute. */
  predicate AllDenote(dates: seq<string>)
    requires forall k :: 0 <= k < |dates| ==> IsStamp(dates[k])
  {
    forall k :: 0 <= k < |dates| ==> Denotes(PartsOf(dates[k])).Some?
  }

  /** One row per timestamp, in order, each built from its own timestamp and entry. */
  predicate RowsOf(rows: seq<Row>, messages: seq<string>, dates: seq<string>)
    requires |messages| == |dates| && forall k :: 0 <= k < |dates| ==> IsStamp(dates[k])
  {
    |rows| == |dates| && forall k :: 0 <= k < |dates| ==> RowOf(rows[k], dates[k], messages[k])
  }

  /** The date column of a run of timestamps parses exactly when each of them denotes a
      minute, and then into those minutes. */
  lemma StampColumn(dates: seq<string>)
    requires forall k :: 0 <= k < |dates| ==> IsStamp(dates[k])
    ensures ParseDates(dates).Some? <==> AllDenote(dates)
    ensures ParseDates(dates).Some? ==>
      forall k :: 0 <= k < |dates| ==> Denotes(PartsOf(dates[k])) == Some(ParseDates(dates).value[k])
  {
    ColumnFormats(dates);
    forall k | 0 <= k < |dates| ensures ParseWith(FormatNarrow, dates[k]) == Denotes(PartsOf(dates[k])) {
      StampDate(dates[k]);
    }
  }

  /**
   * The table built from timestamps and the entries after them: it has rows exactly when
   * every timestamp denotes a minute (the format is chosen for the whole batch), and then
   * one row per timestamp, in order, each built from its own timestamp and entry.
   */
  lemma TableRows(messages: seq<string>, dates: seq<string>)
    requires |messages| == |dates| && forall k :: 0 <= k < |dates| ==> IsStamp(dates[k])
    ensures Table(messages, dates).columns == Columns
    ensures Table(messages, dates).rows != [] <==> dates != [] && AllDenote(dates)
    ensures Table(messages, dates).rows != [] ==> RowsOf(Table(messages, dates).rows, messages, dates)
  {
    var n := |dates|;
    assert dates[..n] == dates;
    StampColumn(dates);
    if n > 0 && ParseDates(dates).Some? {
      var ds := ParseDates(dates).value;
      var rows := Table(messages, dates).rows;
      assert rows == Rows(messages, ds);
      forall k | 0 <= k < n ensures RowOf(rows[k], dates[k], messages[k]) {
        assert rows[k] == MakeRow(ds[k], Split(messages[k]), Period(ds[k].hour));
        RowOfStamp(ds[k], dates[k], messages[k]);
      }
    }
  }

  /**
   * What preprocess makes of a transcript: as many entries as timestamps (so the
   * truncation to the shorter list drops nothing); no rows unless every timestamp denotes
   * a minute, and in particular none when there is no timestamp; otherwise one row per
   * timestamp, in transcript order, built from that timestamp and the entry after it.
   */
  lemma RowsFollowTheTranscript(data: string)
    ensures |Entries(data)| == |Stamps(data)|
    ensures forall k :: 0 <= k < |Stamps(data)| ==> IsStamp(Stamps(data)[k])
    ensures Preprocessed(data).columns == Columns
    ensures Preprocessed(data).rows != [] <==> Stamps(data) != [] && AllDenote(Stamps(data))
    ensures Preprocessed(data).rows != [] ==> RowsOf(Preprocessed(data).rows, Entries(data), Stamps(data))
  {
    StampsAreStamps(data);
    TableRows(Entries(data), Stamps(data));
  }
}
