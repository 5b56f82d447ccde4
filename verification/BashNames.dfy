/**
  Bash event file names and the search filter that works on names alone,
  checked against a plain search over the events themselves.
 */
module BashNames {
  import opened Prelude
  import opened Strings

  /** A UTC timestamp, as broken down by strftime. */
  datatype Timestamp = Timestamp(
    year: nat, month: nat, day: nat, hour: nat, minute: nat, second: nat, micro: nat)

  /** Field ranges of a datetime; strftime does not pad years below 1000. */
  predicate FourDigitYear(t: Timestamp) {
    && 1000 <= t.year <= 9999 && 1 <= t.month <= 12 && 1 <= t.day <= 31
    && t.hour < 24 && t.minute < 60 && t.second < 60 && t.micro < 1_000_000
  }

  /** datetime's `<`: field by field from the year down. */
  predicate Earlier(t: Timestamp, u: Timestamp) {
    if t.year != u.year then t.year < u.year
    else if t.month != u.month then t.month < u.month
    else if t.day != u.day then t.day < u.day
    else if t.hour != u.hour then t.hour < u.hour
    else if t.minute != u.minute then t.minute < u.minute
    else if t.second != u.second then t.second < u.second
    else t.micro < u.micro
  }

  const DIGITS := "0123456789"

  function Pow10(w: nat): (power: nat) {
    if w == 0 then 1 else 10 * Pow10(w - 1)
  }

  /** n in decimal, zero-padded to w digits. */
  function Padded(n: nat, w: nat): (s: string)
    ensures |s| == w
    ensures forall c :: c in s ==> '0' <= c <= '9'
  {
    if w == 0 then "" else Padded(n / 10, w - 1) + [DIGITS[n % 10]]
  }

  lemma DigitOrder(m: nat, n: nat)
    requires m < 10 && n < 10
    ensures DIGITS[m] < DIGITS[n] <==> m < n
    ensures DIGITS[m] == DIGITS[n] <==> m == n
  {
    assert DIGITS[m] == '0' + m as char && DIGITS[n] == '0' + n as char;
  }

  /** Fixed-width decimals compare as strings the way they compare as numbers. */
  lemma {:induction false} PaddedOrder(m: nat, n: nat, w: nat)
    requires m < Pow10(w) && n < Pow10(w)
    ensures Less(Padded(m, w), Padded(n, w)) <==> m < n
    ensures Padded(m, w) == Padded(n, w) <==> m == n
  {
    if w == 0 {
    } else {
      PaddedOrder(m / 10, n / 10, w - 1);
      var a, b := Padded(m / 10, w - 1), Padded(n / 10, w - 1);
      var x, y := [DIGITS[m % 10]], [DIGITS[n % 10]];
      LessByPrefix(a, x, b, y);
      DigitOrder(m % 10, n % 10);
      assert (a + x)[..w - 1] == a && (b + y)[..w - 1] == b;
      assert (a + x)[w - 1] == x[0] && (b + y)[w - 1] == y[0];
      assert Less(x, y) <==> x[0] < y[0];
      assert m == m / 10 * 10 + m % 10 && n == n / 10 * 10 + n % 10;
    }
  }

  /** strftime("%Y%m%d%H%M%S%f") */
  function TimestampText(t: Timestamp): (s: string)
    ensures |s| == 20
    ensures forall c :: c in s ==> '0' <= c <= '9'
  {
    var time := Padded(t.minute, 2) + (Padded(t.second, 2) + Padded(t.micro, 6));
    Padded(t.year, 4) + (Padded(t.month, 2) + (Padded(t.day, 2) + (Padded(t.hour, 2) + time)))
  }

  /** The number a text of decimal digits stands for. */
  function Decimal(text: string): (n: int) {
    if text == "" then 0 else Decimal(text[..|text| - 1]) * 10 + (text[|text| - 1] as int - 48)
  }

  lemma {:induction false} DecimalReadsPadded(n: nat, w: nat)
    requires n < Pow10(w)
    ensures Decimal(Padded(n, w)) == n
  {
    if w == 0 {
    } else {
      DecimalReadsPadded(n / 10, w - 1);
      var text := Padded(n, w);
      assert text[..w - 1] == Padded(n / 10, w - 1) && text[w - 1] == DIGITS[n % 10];
      assert DIGITS[n % 10] == '0' + (n % 10) as char;
    }
  }

  /** Year, month, day, hour, minute, second and microsecond stand in the text at fixed places. */
  lemma {:induction false} TimestampReadsBack(t: Timestamp)
    requires FourDigitYear(t)
    ensures var s := TimestampText(t);
            && Decimal(s[..4]) == t.year && Decimal(s[4..6]) == t.month && Decimal(s[6..8]) == t.day
            && Decimal(s[8..10]) == t.hour && Decimal(s[10..12]) == t.minute && Decimal(s[12..14]) == t.second
            && Decimal(s[14..]) == t.micro
  {
    Powers();
    DecimalReadsPadded(t.year, 4);
    DecimalReadsPadded(t.month, 2);
    DecimalReadsPadded(t.day, 2);
    DecimalReadsPadded(t.hour, 2);
    DecimalReadsPadded(t.minute, 2);
    DecimalReadsPadded(t.second, 2);
    DecimalReadsPadded(t.micro, 6);
    TimestampFields(t);
  }

  lemma FieldAt(s: string, i: nat, field: string, rest: string)
    requires i <= |s| && s[i..] == field + rest
    ensures i + |field| <= |s| && s[i..i + |field|] == field && s[i + |field|..] == rest
  {
    assert s[i..i + |field|] == s[i..][..|field|];
    assert s[i + |field|..] == s[i..][|field|..];
  }

  lemma {:induction false} TimestampFields(t: Timestamp)
    ensures var s := TimestampText(t);
            && s[..4] == Padded(t.year, 4) && s[4..6] == Padded(t.month, 2) && s[6..8] == Padded(t.day, 2)
            && s[8..10] == Padded(t.hour, 2) && s[10..12] == Padded(t.minute, 2) && s[12..14] == Padded(t.second, 2)
            && s[14..] == Padded(t.micro, 6)
  {
    hide Padded;
    var s := TimestampText(t);
    var t5 := Padded(t.second, 2) + Padded(t.micro, 6);
    var t4 := Padded(t.minute, 2) + t5;
    var t3 := Padded(t.hour, 2) + t4;
    var t2 := Padded(t.day, 2) + t3;
    var t1 := Padded(t.month, 2) + t2;
    assert s[0..] == s == Padded(t.year, 4) + t1;
    FieldAt(s, 0, Padded(t.year, 4), t1);
    FieldAt(s, 4, Padded(t.month, 2), t2);
    FieldAt(s, 6, Padded(t.day, 2), t3);
    FieldAt(s, 8, Padded(t.hour, 2), t4);
    FieldAt(s, 10, Padded(t.minute, 2), t5);
    FieldAt(s, 12, Padded(t.second, 2), Padded(t.micro, 6));
  }

  /** One field of the text, most significant first. */
  lemma {:induction false} FieldThenRest(m: nat, n: nat, w: nat, x: string, y: string)
    requires m < Pow10(w) && n < Pow10(w)
    ensures Less(Padded(m, w) + x, Padded(n, w) + y) <==> m < n || (m == n && Less(x, y))
    ensures Padded(m, w) + x == Padded(n, w) + y <==> m == n && x == y
  {
    hide Less, Padded;
    PaddedOrder(m, n, w);
    LessByPrefix(Padded(m, w), x, Padded(n, w), y);
    EqualByPrefix(Padded(m, w), x, Padded(n, w), y);
  }

  lemma Powers()
    ensures Pow10(2) == 100 && Pow10(4) == 10_000 && Pow10(6) == 1_000_000
  {
    assert Pow10(1) == 10;
    assert Pow10(3) == 1000;
    assert Pow10(5) == 100_000;
  }

  /** The encoding preserves and reflects the order of timestamps. */
  lemma TextOrderIsTimeOrder(t: Timestamp, u: Timestamp)
    requires FourDigitYear(t) && FourDigitYear(u)
    ensures Less(TimestampText(t), TimestampText(u)) <==> Earlier(t, u)
    ensures TimestampText(t) == TimestampText(u) <==> t == u
  {
    Powers();
    var t6, u6 := Padded(t.micro, 6), Padded(u.micro, 6);
    var t5, u5 := Padded(t.second, 2) + t6, Padded(u.second, 2) + u6;
    var t4, u4 := Padded(t.minute, 2) + t5, Padded(u.minute, 2) + u5;
    var t3, u3 := Padded(t.hour, 2) + t4, Padded(u.hour, 2) + u4;
    var t2, u2 := Padded(t.day, 2) + t3, Padded(u.day, 2) + u3;
    var t1, u1 := Padded(t.month, 2) + t2, Padded(u.month, 2) + u2;
    PaddedOrder(t.micro, u.micro, 6);
    FieldThenRest(t.second, u.second, 2, t6, u6);
    FieldThenRest(t.minute, u.minute, 2, t5, u5);
    FieldThenRest(t.hour, u.hour, 2, t4, u4);
    FieldThenRest(t.day, u.day, 2, t3, u3);
    FieldThenRest(t.month, u.month, 2, t2, u2);
    FieldThenRest(t.year, u.year, 4, t1, u1);
  }

  // ---------------------------------------------------------------- events

  /** The events the service saves; only outputs carry a command id. */
  datatype Event =
    | BashCommand(id: string, timestamp: Timestamp)
    | BashOutput(id: string, timestamp: Timestamp, commandId: string)

  /** uuid.hex */
  predicate IsHex(id: string) {
    |id| == 32 && forall c :: c in id ==> '0' <= c <= '9' || 'a' <= c <= 'f'
  }

  predicate ValidEvent(e: Event) {
    FourDigitYear(e.timestamp) && IsHex(e.id) && (e.BashOutput? ==> IsHex(e.commandId))
  }

  function Kind(e: Event): (kind: string) {
    if e.BashCommand? then "BashCommand" else "BashOutput"
  }

  function NameParts(e: Event): (parts: seq<string>)
    ensures |parts| == if e.BashOutput? then 4 else 3
  {
    [TimestampText(e.timestamp), Kind(e)] + (if e.BashOutput? then [e.commandId] else []) + [e.id]
  }

  function FileName(e: Event): (fileName: string) {
    Join(NameParts(e), '_')
  }

  /** The layout of the names, with the kinds written out. */
  lemma NamesAreLaidOut(id: string, t: Timestamp, commandId: string)
    ensures FileName(BashCommand(id, t)) == TimestampText(t) + "_" + "BashCommand" + "_" + id
    ensures FileName(BashOutput(id, t, commandId)) ==
            TimestampText(t) + "_" + "BashOutput" + "_" + commandId + "_" + id
  {
    var command, output := NameParts(BashCommand(id, t)), NameParts(BashOutput(id, t, commandId));
    assert command == [TimestampText(t), "BashCommand", id];
    assert output == [TimestampText(t), "BashOutput", commandId, id];
    hide Join;
    JoinThree(TimestampText(t), "BashCommand", id, '_');
    JoinFour(TimestampText(t), "BashOutput", commandId, id, '_');
  }

  datatype Query = Query(
    kind: Option<string>,
    commandId: Option<string>,
    notBefore: Option<Timestamp>,
    before: Option<Timestamp>)

  predicate ValidQuery(q: Query) {
    && (q.notBefore.Some? ==> FourDigitYear(q.notBefore.value))
    && (q.before.Some? ==> FourDigitYear(q.before.value))
  }

  /** The plain search: what the query means for an event. */
  predicate Satisfies(e: Event, q: Query) {
    && (q.kind.Some? ==> q.kind.value == if e.BashCommand? then "BashCommand" else "BashOutput")
    && (q.commandId.Some? ==> e.BashOutput? && e.commandId == q.commandId.value)
    && (q.notBefore.Some? ==> !Earlier(e.timestamp, q.notBefore.value))
    && (q.before.Some? ==> Earlier(e.timestamp, q.before.value))
  }

  /** The filter of the directory scan, which sees only the name. */
  predicate NameMatches(name: string, q: Query) {
    && !(q.notBefore.Some? && Less(name, TimestampText(q.notBefore.value)))
    && !(q.before.Some? && !Less(name, TimestampText(q.before.value)))
    && (q.kind.Some? || q.commandId.Some? ==>
          var parts := Split(name, '_');
          && !(q.kind.Some? && (|parts| < 2 || parts[1] != q.kind.value))
          && !(q.commandId.Some? && (|parts| < 4 || parts[2] != q.commandId.value)))
  }

  /** Splitting a saved event's name gives back the pieces it was built from. */
  lemma NameSplitsBack(e: Event)
    requires ValidEvent(e)
    ensures Split(FileName(e), '_') == NameParts(e)
  {
    var parts := NameParts(e);
    assert '_' !in "BashCommand" && '_' !in "BashOutput";
    forall p | p in parts
      ensures '_' !in p
    {
      assert p == TimestampText(e.timestamp) || p == Kind(e) || p == e.id || (e.BashOutput? && p == e.commandId);
    }
    SplitInvertsJoin(parts, '_');
  }

  lemma NameStartsWithTimestamp(e: Event)
    ensures exists rest :: rest != "" && FileName(e) == TimestampText(e.timestamp) + rest
  {
    var parts := NameParts(e);
    var rest := "_" + Join(parts[1..], '_');
    assert FileName(e) == parts[0] + ['_'] + Join(parts[1..], '_');
    assert FileName(e) == TimestampText(e.timestamp) + rest;
  }

  /** Comparing a whole name with a bare timestamp compares the timestamps. */
  lemma NameAgainstTimestamp(e: Event, t: Timestamp)
    requires ValidEvent(e) && FourDigitYear(t)
    ensures Less(FileName(e), TimestampText(t)) <==> Earlier(e.timestamp, t)
  {
    NameStartsWithTimestamp(e);
    var rest :| rest != "" && FileName(e) == TimestampText(e.timestamp) + rest;
    LessByPrefix(TimestampText(e.timestamp), rest, TimestampText(t), "");
    assert TimestampText(t) + "" == TimestampText(t);
    TextOrderIsTimeOrder(e.timestamp, t);
  }

  /** The name filter selects exactly the events the query describes. */
  lemma NameFilterIsPlainSearch(e: Event, q: Query)
    requires ValidEvent(e) && ValidQuery(q)
    ensures NameMatches(FileName(e), q) <==> Satisfies(e, q)
  {
    NameSplitsBack(e);
    if q.notBefore.Some? { NameAgainstTimestamp(e, q.notBefore.value); }
    if q.before.Some? { NameAgainstTimestamp(e, q.before.value); }
    var parts := NameParts(e);
    assert parts[1] == Kind(e);
    assert e.BashOutput? ==> parts[2] == e.commandId;
  }

  /** Names order events by time. */
  lemma NameOrderIsTimeOrder(e: Event, f: Event)
    requires ValidEvent(e) && ValidEvent(f)
    ensures Less(FileName(e), FileName(f)) ==> !Earlier(f.timestamp, e.timestamp)
    ensures Earlier(e.timestamp, f.timestamp) ==> Less(FileName(e), FileName(f))
  {
    NameStartsWithTimestamp(e);
    NameStartsWithTimestamp(f);
    var x :| x != "" && FileName(e) == TimestampText(e.timestamp) + x;
    var y :| y != "" && FileName(f) == TimestampText(f.timestamp) + y;
    LessByPrefix(TimestampText(e.timestamp), x, TimestampText(f.timestamp), y);
    TextOrderIsTimeOrder(e.timestamp, f.timestamp);
    TextOrderIsTimeOrder(f.timestamp, e.timestamp);
  }

  /** Distinct events never share a file. */
  lemma NamesAreUnique(e: Event, f: Event)
    requires ValidEvent(e) && ValidEvent(f) && FileName(e) == FileName(f)
    ensures e == f
  {
    NameSplitsBack(e);
    NameSplitsBack(f);
    var p, r := NameParts(e), NameParts(f);
    assert p[0] == TimestampText(e.timestamp) && r[0] == TimestampText(f.timestamp);
    TextOrderIsTimeOrder(e.timestamp, f.timestamp);
    assert p[|p| - 1] == e.id && r[|r| - 1] == f.id;
    if e.BashOutput? {
      assert p[2] == e.commandId && r[2] == f.commandId;
    }
  }

  // ------------------------------------------------- any name at all

  /** The name's second segment, between its first underscore and its second or its end. */
  ghost predicate SecondSegment(name: string, segment: string) {
    exists a, rest :: SegmentBetween(name, a, segment, rest)
  }

  predicate SegmentBetween(name: string, a: string, segment: string, rest: string) {
    && '_' !in a && '_' !in segment && (rest != "" ==> rest[0] == '_')
    && name == a + "_" + segment + rest
  }

  /** The name's third segment, if a fourth follows. */
  ghost predicate ThirdOfFour(name: string, segment: string) {
    exists a, b, rest ::
      && '_' !in a && '_' !in b && '_' !in segment
      && name == a + "_" + b + "_" + segment + "_" + rest
  }

  lemma {:induction false} SecondOfSplit(name: string, segment: string)
    ensures var parts := Split(name, '_');
            |parts| >= 2 && parts[1] == segment <==> SecondSegment(name, segment)
  {
    hide SecondSegment, Split;
    if |Split(name, '_')| >= 2 && Split(name, '_')[1] == segment {
      SplitHasSecond(name);
    }
    if SecondSegment(name, segment) {
      SecondIsSplit(name, segment);
    }
  }

  lemma {:induction false} SplitHasSecond(name: string)
    requires |Split(name, '_')| >= 2
    ensures SecondSegment(name, Split(name, '_')[1])
  {
    JoinInvertsSplit(name, '_');
    hide Split;
    var parts := Split(name, '_');
    var a, segment := parts[0], parts[1];
    assert '_' !in parts[0] && '_' !in parts[1];
    JoinFirst(parts, '_');
    JoinFirst(parts[1..], '_');
    hide Join;
    var rest := if |parts| == 2 then "" else "_" + Join(parts[1..][1..], '_');
    assert segment + "" == segment;
    assert Join(parts[1..], '_') == segment + rest;
    assert a + "_" + (segment + rest) == a + "_" + segment + rest;
    assert rest != "" ==> rest[0] == '_';
    assert name == a + "_" + segment + rest;
    assert SegmentBetween(name, a, segment, rest);
  }

  lemma {:induction false} SecondIsSplit(name: string, segment: string)
    requires SecondSegment(name, segment)
    ensures |Split(name, '_')| >= 2 && Split(name, '_')[1] == segment
  {
    var a, rest :| SegmentBetween(name, a, segment, rest);
    hide Split;
    assert a + "_" + (segment + rest) == a + "_" + segment + rest;
    SplitAtSeparator(a, segment + rest, '_');
    if rest == "" {
      assert segment + rest == segment;
      SplitWithoutSeparator(segment, '_');
    } else {
      assert segment + rest == segment + ['_'] + rest[1..];
      SplitAtSeparator(segment, rest[1..], '_');
    }
  }

  lemma {:induction false} ThirdOfSplit(name: string, segment: string)
    ensures var parts := Split(name, '_');
            |parts| >= 4 && parts[2] == segment <==> ThirdOfFour(name, segment)
  {
    var parts := Split(name, '_');
    JoinInvertsSplit(name, '_');
    if |parts| >= 4 && parts[2] == segment {
      var a, b, rest := parts[0], parts[1], Join(parts[3..], '_');
      assert '_' !in parts[0] && '_' !in parts[1] && '_' !in parts[2];
      assert parts[1..][1..] == parts[2..] && parts[2..][1..] == parts[3..];
      JoinFirst(parts, '_');
      JoinFirst(parts[1..], '_');
      JoinFirst(parts[2..], '_');
      FourInARow(a, b, segment, rest);
      assert name == a + "_" + b + "_" + segment + "_" + rest;
    }
    forall a, b, rest | '_' !in a && '_' !in b && '_' !in segment
                        && name == a + "_" + b + "_" + segment + "_" + rest
      ensures |parts| >= 4 && parts[2] == segment
    {
      FourInARow(a, b, segment, rest);
      SplitAtSeparator(a, b + "_" + (segment + "_" + rest), '_');
      SplitAtSeparator(b, segment + "_" + rest, '_');
      SplitAtSeparator(segment, rest, '_');
    }
  }

  lemma FourInARow(a: string, b: string, c: string, rest: string)
    ensures a + "_" + (b + "_" + (c + "_" + rest)) == a + "_" + b + "_" + c + "_" + rest
  {
  }

  /** The filter on any file name, saved by the service or not: bounds by text, kind and command by segment. */
  lemma {:induction false} NameFilterBySegments(name: string, q: Query)
    ensures NameMatches(name, q) <==>
            && (q.notBefore.Some? ==> !Less(name, TimestampText(q.notBefore.value)))
            && (q.before.Some? ==> Less(name, TimestampText(q.before.value)))
            && (q.kind.Some? ==> SecondSegment(name, q.kind.value))
            && (q.commandId.Some? ==> ThirdOfFour(name, q.commandId.value))
  {
    hide Less, TimestampText, Split, SecondSegment, ThirdOfFour;
    if q.kind.Some? {
      SecondOfSplit(name, q.kind.value);
    }
    if q.commandId.Some? {
      ThirdOfSplit(name, q.commandId.value);
    }
  }
}
