/** What the five texts of a cron expression say, in the calendar's own terms: which
    numbers and names each field takes, and which minutes they tick. */
module CronTexts {
  import opened Outcomes
  import opened Calendar
  import opened Ordering
  import opened CronFields
  import opened CronParser

  // ---- one part ----

  lemma OnePart(text: string, low: int, high: int, names: map<string, int>)
    requires low <= high && ',' !in text && text != "*"
    ensures Readable(text, low, high, names) <==> PartReads(text, low, high, names)
    ensures forall field | Denotes(text, low, high, names, field) ::
      && field.restricted && Domain(field.values, low, high)
      && forall v :: v in field.values <==> PartCovers(text, v, low, high, names)
  {
    hide PartReads, PartCovers;
    SplitIsTheParts([text], ',');
    assert Join([text], ',') == text;
  }

  /** A lone value, written in decimal or by a name, is read exactly when the field has it,
      and is then the field's only value. */
  lemma LoneValue(text: string, v: nat, low: int, high: int, names: map<string, int>)
    requires low <= high && Lettered(names) && Writes(text, v, names)
    ensures text != "*" && (Readable(text, low, high, names) <==> low <= v <= high)
    ensures forall field | Denotes(text, low, high, names, field) :: field == Field([v], true)
  {
    hide ReadPart, Writes, Denotes;
    WrittenIsPlain(text, v, names);
    OnePart(text, low, high, names);
    PartReadsBack(text, One(v), None, low, high, names);
    forall field | Denotes(text, low, high, names, field) ensures field == Field([v], true) {
      OnlyValue(text, field, v, low, high, names);
    }
  }

  lemma OnlyValue(text: string, field: Field, v: int, low: int, high: int, names: map<string, int>)
    requires low <= high && Domain(field.values, low, high)
    requires ReadPart(text, low, high, names) == (if low <= v <= high then Ok(Part(v, v, 1)) else Err(OutOfRange))
    requires forall u :: u in field.values <==> PartCovers(text, u, low, high, names)
    ensures field.values == [v]
  {
    hide ReadPart;
    forall u ensures u in field.values ==> u == v {
      assert u in field.values ==> PartCovers(text, u, low, high, names);
    }
    OneValue(field.values, v);
  }

  lemma OneValue(values: seq<int>, v: int)
    requires values != [] && Ascending(values) && forall u :: u in values ==> u == v
    ensures values == [v]
  {
    forall i | 0 <= i < |values| ensures values[i] == v {
      var u := values[i];
      assert u in values;
    }
    assert values[0] in values;
    SameValues(values, [v]);
  }

  // ---- lists ----

  lemma {:induction false} JoinOfBoth(a: seq<string>, b: seq<string>, c: char)
    requires a != [] && b != []
    ensures Join(a + b, c) == Join(a, c) + [c] + Join(b, c)
    decreases |a|
  {
    assert (a + b)[1..] == a[1..] + b;
    if |a| > 1 { JoinOfBoth(a[1..], b, c); }
  }

  lemma SplitOfBoth(a: string, b: string)
    ensures Split(a + "," + b, ',') == Split(a, ',') + Split(b, ',')
  {
    var parts := Split(a, ',') + Split(b, ',');
    JoinOfBoth(Split(a, ','), Split(b, ','), ',');
    SplitIsTheParts(parts, ',');
  }

  lemma StarIsAPart(low: int, high: int, names: map<string, int>, v: int)
    requires low <= high
    ensures PartReads("*", low, high, names) && (PartCovers("*", v, low, high, names) <==> low <= v <= high)
    ensures Split("*", ',') == ["*"]
  {
    PartReadsBack("*", Star, None, low, high, map[]);
    assert "*"[..1] == "*";
    StepsAreMultiples(low, high, 1, v);
    SplitIsTheParts(["*"], ',');
    assert Join(["*"], ',') == "*";
  }

  /** A value is its field's when a part covers it, a star covering them all. */
  lemma CoveredByAPart(text: string, low: int, high: int, names: map<string, int>, field: Field, v: int)
    requires low <= high && Denotes(text, low, high, names, field)
    ensures v in field.values <==> exists part <- Split(text, ',') :: PartCovers(part, v, low, high, names)
  {
    hide PartReads, PartCovers;
    if text == "*" { StarIsAPart(low, high, names, v); }
  }

  /** A list reads when both its sides do, and has the values of either. */
  lemma AListIsEither(a: string, b: string, low: int, high: int, names: map<string, int>)
    requires low <= high
    ensures Readable(a + "," + b, low, high, names) <==> Readable(a, low, high, names) && Readable(b, low, high, names)
    ensures forall f, g, h |
      Denotes(a + "," + b, low, high, names, f) && Denotes(a, low, high, names, g) && Denotes(b, low, high, names, h) ::
      forall v :: v in f.values <==> v in g.values || v in h.values
  {
    hide PartReads, PartCovers, Split, Denotes;
    var list := a + "," + b;
    SplitOfBoth(a, b);
    StarIsAPart(low, high, names, low);
    assert list[|a|] == ',';
    forall f, g, h, v |
      Denotes(list, low, high, names, f) && Denotes(a, low, high, names, g) && Denotes(b, low, high, names, h)
      ensures v in f.values <==> v in g.values || v in h.values
    {
      CoveredByAPart(list, low, high, names, f, v);
      CoveredByAPart(a, low, high, names, g, v);
      CoveredByAPart(b, low, high, names, h, v);
    }
  }

  // ---- stars and numbers in each field ----

  lemma StarIsAll(low: int, high: int, names: map<string, int>, field: Field)
    requires low <= high && Denotes("*", low, high, names, field)
    ensures !field.restricted && forall v :: v in field.values <==> low <= v <= high
  { }

  /** A star leaves its field open: every minute, hour, day, month or weekday there is. */
  lemma StarsAreEverything(fields: seq<string>, c: Cron)
    requires DenotesExpression(fields, c)
    ensures fields[0] == "*" ==> forall v :: v in c.minutes <==> 0 <= v <= 59
    ensures fields[1] == "*" ==> forall v :: v in c.hours <==> 0 <= v <= 23
    ensures fields[2] == "*" ==> forall v :: v in c.daysOfMonth <==> 1 <= v <= 31
    ensures fields[3] == "*" ==> forall v :: v in c.months <==> 1 <= v <= 12
    ensures fields[4] == "*" ==> forall v :: v in c.daysOfWeek <==> 0 <= v <= 6
    ensures c.domRestricted <==> fields[2] != "*"
    ensures c.dowRestricted <==> fields[4] != "*"
  {
    hide PartReads, PartCovers;
    forall v ensures fields[4] == "*" ==> (v in c.daysOfWeek <==> 0 <= v <= 6) {
      var f :| FieldDenotes(fields, 4, f) && f.restricted == c.dowRestricted && Folds(f.values, c.daysOfWeek);
      if fields[4] == "*" && 0 <= v <= 6 { assert v in f.values; }
    }
  }

  /** A number is one of its field's exactly when a minute, an hour, a day, a month or a
      weekday has it, 7 being Sunday too. */
  lemma NumbersOfAField(fields: seq<string>, n: nat)
    requires |fields| == 5
    ensures fields[0] == Decimal(n) ==> (FieldReadable(fields, 0) <==> n <= 59)
    ensures fields[1] == Decimal(n) ==> (FieldReadable(fields, 1) <==> n <= 23)
    ensures fields[2] == Decimal(n) ==> (FieldReadable(fields, 2) <==> 1 <= n <= 31)
    ensures fields[3] == Decimal(n) ==> (FieldReadable(fields, 3) <==> 1 <= n <= 12)
    ensures fields[4] == Decimal(n) ==> (FieldReadable(fields, 4) <==> n <= 7)
  {
    hide Readable;
    MonthNamesAreLettered();
    WeekdayNamesAreLettered();
    hide Lettered;
    LoneValue(Decimal(n), n, 0, 59, map[]);
    LoneValue(Decimal(n), n, 0, 23, map[]);
    LoneValue(Decimal(n), n, 1, 31, map[]);
    LoneValue(Decimal(n), n, 1, 12, MONTH_NAMES);
    LoneValue(Decimal(n), n, 0, 7, WEEKDAY_NAMES);
  }

  /** And it is then the only value of its field. */
  lemma NumbersMeanThemselves(fields: seq<string>, n: nat, c: Cron)
    requires DenotesExpression(fields, c)
    ensures fields[0] == Decimal(n) ==> c.minutes == [n]
    ensures fields[1] == Decimal(n) ==> c.hours == [n]
    ensures fields[2] == Decimal(n) ==> c.daysOfMonth == [n]
    ensures fields[3] == Decimal(n) ==> c.months == [n]
    ensures fields[4] == Decimal(n) ==> c.daysOfWeek == [if n == 7 then 0 else n]
  {
    hide Denotes;
    MonthNamesAreLettered();
    WeekdayNamesAreLettered();
    hide Lettered;
    LoneValue(Decimal(n), n, 0, 59, map[]);
    LoneValue(Decimal(n), n, 0, 23, map[]);
    LoneValue(Decimal(n), n, 1, 31, map[]);
    LoneValue(Decimal(n), n, 1, 12, MONTH_NAMES);
    LoneValue(Decimal(n), n, 0, 7, WEEKDAY_NAMES);
    if fields[4] == Decimal(n) { OneDay(fields, n, c); }
  }

  /** A weekday field of one value folds to that day. */
  lemma OneDay(fields: seq<string>, n: nat, c: Cron)
    requires DenotesExpression(fields, c) && forall f | FieldDenotes(fields, 4, f) :: f.values == [n]
    ensures c.daysOfWeek == [if n == 7 then 0 else n]
  {
    hide FieldDenotes;
    var f :| FieldDenotes(fields, 4, f) && Folds(f.values, c.daysOfWeek);
    forall v ensures v in c.daysOfWeek ==> v == if n == 7 then 0 else n { assert v in [n] <==> v == n; }
    OneValue(c.daysOfWeek, if n == 7 then 0 else n);
  }

  // ---- names ----

  /** The text is this word, each letter small or capital. */
  predicate InAnyCase(text: string, small: string, capital: string)
    requires |small| == |capital|
  {
    |text| == |small| && forall i | 0 <= i < |text| :: text[i] == small[i] || text[i] == capital[i]
  }

  /** The month a word names, by its English abbreviation in any case. */
  predicate NamesMonth(text: string, month: int) {
    match month
    case 1 => InAnyCase(text, "jan", "JAN")
    case 2 => InAnyCase(text, "feb", "FEB")
    case 3 => InAnyCase(text, "mar", "MAR")
    case 4 => InAnyCase(text, "apr", "APR")
    case 5 => InAnyCase(text, "may", "MAY")
    case 6 => InAnyCase(text, "jun", "JUN")
    case 7 => InAnyCase(text, "jul", "JUL")
    case 8 => InAnyCase(text, "aug", "AUG")
    case 9 => InAnyCase(text, "sep", "SEP")
    case 10 => InAnyCase(text, "oct", "OCT")
    case 11 => InAnyCase(text, "nov", "NOV")
    case 12 => InAnyCase(text, "dec", "DEC")
    case _ => false
  }

  predicate NamesWeekday(text: string, day: int) {
    match day
    case 0 => InAnyCase(text, "sun", "SUN")
    case 1 => InAnyCase(text, "mon", "MON")
    case 2 => InAnyCase(text, "tue", "TUE")
    case 3 => InAnyCase(text, "wed", "WED")
    case 4 => InAnyCase(text, "thu", "THU")
    case 5 => InAnyCase(text, "fri", "FRI")
    case 6 => InAnyCase(text, "sat", "SAT")
    case _ => false
  }

  predicate Letters(text: string) {
    text != "" && forall i | 0 <= i < |text| :: 'a' <= text[i] <= 'z' || 'A' <= text[i] <= 'Z'
  }

  lemma AnyCaseIsLower(text: string, small: string, capital: string)
    requires |small| == |capital|
    requires forall i | 0 <= i < |small| :: 'A' <= capital[i] <= 'Z' && small[i] == capital[i] - 'A' + 'a'
    ensures InAnyCase(text, small, capital) <==> Lower(text) == small
  {
    if Lower(text) == small {
      forall i | 0 <= i < |text| ensures text[i] == small[i] || text[i] == capital[i] {
        assert Lower(text)[i] == small[i];
      }
    }
  }

  lemma EarlyMonths(text: string)
    ensures InAnyCase(text, "jan", "JAN") <==> Lower(text) == "jan"
    ensures InAnyCase(text, "feb", "FEB") <==> Lower(text) == "feb"
    ensures InAnyCase(text, "mar", "MAR") <==> Lower(text) == "mar"
    ensures InAnyCase(text, "apr", "APR") <==> Lower(text) == "apr"
    ensures InAnyCase(text, "may", "MAY") <==> Lower(text) == "may"
    ensures InAnyCase(text, "jun", "JUN") <==> Lower(text) == "jun"
  {
    hide InAnyCase, Lower;
    AnyCaseIsLower(text, "jan", "JAN");
    AnyCaseIsLower(text, "feb", "FEB");
    AnyCaseIsLower(text, "mar", "MAR");
    AnyCaseIsLower(text, "apr", "APR");
    AnyCaseIsLower(text, "may", "MAY");
    AnyCaseIsLower(text, "jun", "JUN");
  }

  lemma LateMonths(text: string)
    ensures InAnyCase(text, "jul", "JUL") <==> Lower(text) == "jul"
    ensures InAnyCase(text, "aug", "AUG") <==> Lower(text) == "aug"
    ensures InAnyCase(text, "sep", "SEP") <==> Lower(text) == "sep"
    ensures InAnyCase(text, "oct", "OCT") <==> Lower(text) == "oct"
    ensures InAnyCase(text, "nov", "NOV") <==> Lower(text) == "nov"
    ensures InAnyCase(text, "dec", "DEC") <==> Lower(text) == "dec"
  {
    hide InAnyCase, Lower;
    AnyCaseIsLower(text, "jul", "JUL");
    AnyCaseIsLower(text, "aug", "AUG");
    AnyCaseIsLower(text, "sep", "SEP");
    AnyCaseIsLower(text, "oct", "OCT");
    AnyCaseIsLower(text, "nov", "NOV");
    AnyCaseIsLower(text, "dec", "DEC");
  }

  lemma MonthOfAName(text: string, month: int)
    ensures NamesMonth(text, month) <==> Lower(text) in MONTH_NAMES && MONTH_NAMES[Lower(text)] == month
    ensures NamesMonth(text, month) ==> 1 <= month <= 12
  {
    hide InAnyCase, Lower;
    EarlyMonths(text);
    LateMonths(text);
  }

  lemma WeekdayOfAName(text: string, day: int)
    ensures NamesWeekday(text, day) <==> Lower(text) in WEEKDAY_NAMES && WEEKDAY_NAMES[Lower(text)] == day
    ensures NamesWeekday(text, day) ==> 0 <= day <= 6
  {
    hide InAnyCase, Lower;
    AnyCaseIsLower(text, "sun", "SUN");
    AnyCaseIsLower(text, "mon", "MON");
    AnyCaseIsLower(text, "tue", "TUE");
    AnyCaseIsLower(text, "wed", "WED");
    AnyCaseIsLower(text, "thu", "THU");
    AnyCaseIsLower(text, "fri", "FRI");
    AnyCaseIsLower(text, "sat", "SAT");
  }

  /** A word is read only as one of the field's names. */
  lemma AWordIsAName(text: string, low: int, high: int, names: map<string, int>)
    requires low <= high && Letters(text)
    ensures Readable(text, low, high, names) <==> Lower(text) in names && low <= names[Lower(text)] <= high
  {
    hide Lower;
    assert text[0] in text && !IsDigit(text[0]);
    FindIsTheFirst(text, '/', "");
    assert text[..|text|] == text;
    OnePart(text, low, high, names);
  }

  /** Words are read in the month and weekday fields alone, and there exactly the names. */
  lemma NamesOfAField(fields: seq<string>)
    requires |fields| == 5
    ensures Letters(fields[0]) ==> !FieldReadable(fields, 0)
    ensures Letters(fields[1]) ==> !FieldReadable(fields, 1)
    ensures Letters(fields[2]) ==> !FieldReadable(fields, 2)
    ensures Letters(fields[3]) ==> (FieldReadable(fields, 3) <==> exists month :: NamesMonth(fields[3], month))
    ensures Letters(fields[4]) ==> (FieldReadable(fields, 4) <==> exists day :: NamesWeekday(fields[4], day))
  {
    hide Readable, Letters, NamesMonth, NamesWeekday, Lower;
    if Letters(fields[0]) { AWordIsAName(fields[0], 0, 59, map[]); }
    if Letters(fields[1]) { AWordIsAName(fields[1], 0, 23, map[]); }
    if Letters(fields[2]) { AWordIsAName(fields[2], 1, 31, map[]); }
    if Letters(fields[3]) {
      AWordIsAName(fields[3], 1, 12, MONTH_NAMES);
      forall month { MonthOfAName(fields[3], month); }
      var name := Lower(fields[3]);
      assert name in MONTH_NAMES ==> NamesMonth(fields[3], MONTH_NAMES[name]);
    }
    if Letters(fields[4]) {
      AWordIsAName(fields[4], 0, 7, WEEKDAY_NAMES);
      forall day { WeekdayOfAName(fields[4], day); }
      var name := Lower(fields[4]);
      assert name in WEEKDAY_NAMES ==> NamesWeekday(fields[4], WEEKDAY_NAMES[name]);
    }
  }

  /** A name is its month or weekday, in either case. */
  lemma NamesMeanTheirNumbers(fields: seq<string>, c: Cron)
    requires DenotesExpression(fields, c)
    ensures forall month | NamesMonth(fields[3], month) :: c.months == [month]
    ensures forall day | NamesWeekday(fields[4], day) :: c.daysOfWeek == [day]
  {
    hide Denotes, NamesMonth, NamesWeekday, Lower;
    MonthNamesAreLettered();
    WeekdayNamesAreLettered();
    hide Lettered;
    forall month | NamesMonth(fields[3], month) ensures c.months == [month] {
      MonthOfAName(fields[3], month);
      LoneValue(fields[3], month, 1, 12, MONTH_NAMES);
    }
    forall day | NamesWeekday(fields[4], day) ensures c.daysOfWeek == [day] {
      WeekdayOfAName(fields[4], day);
      LoneValue(fields[4], day, 0, 7, WEEKDAY_NAMES);
      OneDay(fields, day, c);
    }
  }

  // ---- the whole expression ----

  lemma ReadableIsDenoted(text: string, low: int, high: int, names: map<string, int>)
    requires low <= high && Readable(text, low, high, names)
    ensures exists field :: Denotes(text, low, high, names, field)
  {
    hide Denotes, PartReads;
    if text == "*" {
      StarDenotes(low, high, names);
    } else {
      UnionDenotes(text, low, high, names);
    }
  }

  lemma Folded(raw: seq<int>)
    requires Domain(raw, 0, 7)
    ensures exists days :: Domain(days, 0, 6) && Folds(raw, days)
  {
    var folded := set day | day in raw :: if day == 7 then 0 else day;
    assert raw[0] in raw && (7 in raw ==> 0 in folded);
    var days := Sorted(folded, 0, 6);
    forall v | 0 <= v <= 6 && v in raw ensures v in folded { }
    assert Folds(raw, days);
  }

  /** Five fields denote an expression exactly when each of them reads. */
  lemma DenotesExactlyWhenReadable(fields: seq<string>)
    requires |fields| == 5
    ensures (exists c :: DenotesExpression(fields, c)) <==> forall i | 0 <= i < 5 :: FieldReadable(fields, i)
  {
    hide Denotes, Readable, Folds;
    if c :| DenotesExpression(fields, c) { DenotesOnce(fields, c, c); }
    if forall i | 0 <= i < 5 :: FieldReadable(fields, i) {
      forall i | 0 <= i < 5 ensures Denoted(fields, i) {
        assert FieldReadable(fields, i);
        var (low, high, names) := Bounds(i);
        ReadableIsDenoted(fields[i], low, high, names);
        var f :| Denotes(fields[i], low, high, names, f);
        assert FieldDenotes(fields, i, f);
      }
      AllDenoted(fields);
    }
  }

  ghost predicate Denoted(fields: seq<string>, index: nat)
    requires index < 5 == |fields|
  {
    exists f :: FieldDenotes(fields, index, f)
  }

  lemma AllDenoted(fields: seq<string>)
    requires |fields| == 5 && forall i | 0 <= i < 5 :: Denoted(fields, i)
    ensures exists c :: DenotesExpression(fields, c)
  {
    hide FieldDenotes, Folds;
    assert Denoted(fields, 0) && Denoted(fields, 1) && Denoted(fields, 2) && Denoted(fields, 3) && Denoted(fields, 4);
    var minutes :| FieldDenotes(fields, 0, minutes);
    var hours :| FieldDenotes(fields, 1, hours);
    var dates :| FieldDenotes(fields, 2, dates);
    var months :| FieldDenotes(fields, 3, months);
    var weekdays :| FieldDenotes(fields, 4, weekdays);
    WeekdaysAreDays(fields, weekdays);
    Folded(weekdays.values);
    var days :| Domain(days, 0, 6) && Folds(weekdays.values, days);
    var c := Cron(minutes.values, hours.values, dates.values, months.values, days,
                  dates.restricted, weekdays.restricted);
    assert dates == Field(c.daysOfMonth, c.domRestricted);
    assert DenotesExpression(fields, c);
  }

  lemma WeekdaysAreDays(fields: seq<string>, f: Field)
    requires |fields| == 5 && FieldDenotes(fields, 4, f)
    ensures Domain(f.values, 0, 7)
  { }

  /** Five fields with both day fields restricted tick where they tick with the weekday
      left open or with the date left open; otherwise where they tick with each left open. */
  lemma EitherDayField(fields: seq<string>, c: Cron, byDate: Cron, byWeekday: Cron, t: DateTime)
    requires |fields| == 5 && DenotesExpression(fields, c) && Valid(t)
    requires DenotesExpression(fields[4 := "*"], byDate) && DenotesExpression(fields[2 := "*"], byWeekday)
    ensures if fields[2] != "*" && fields[4] != "*"
      then Matches(c, t) <==> Matches(byDate, t) || Matches(byWeekday, t)
      else Matches(c, t) <==> Matches(byDate, t) && Matches(byWeekday, t)
  {
    hide DenotesExpression, CronWeekday;
    var openWeekday, openDate := fields[4 := "*"], fields[2 := "*"];
    FieldByField(fields, openWeekday, c, byDate);
    FieldByField(fields, openDate, c, byWeekday);
    StarsAreEverything(fields, c);
    StarsAreEverything(openWeekday, byDate);
    StarsAreEverything(openDate, byWeekday);
    WeekdayIsADay(t);
  }

  lemma WeekdayIsADay(t: DateTime)
    requires Valid(t)
    ensures 0 <= CronWeekday(t) <= 6
  { }

  // ---- one number among stars ----

  const STARS := ["*", "*", "*", "*", "*"]

  /** The minute, hour, day, month or weekday of an instant. */
  function Shown(t: DateTime, index: nat): int
    requires Valid(t) && index < 5
  {
    match index
    case 0 => t.minute
    case 1 => t.hour
    case 2 => t.day
    case 3 => t.month
    case _ => CronWeekday(t)
  }

  /** Five stars tick at every minute there is. */
  lemma FiveStarsTickAlways(c: Cron, t: DateTime)
    requires DenotesExpression(STARS, c) && Valid(t)
    ensures Matches(c, t)
  {
    StarsAreEverything(STARS, c);
  }

  /** With one number among stars, exactly the minutes that show that number tick. */
  lemma ANumberTicksWhereItShows(index: nat, n: nat, c: Cron, t: DateTime)
    requires index < 5 && DenotesExpression(STARS[index := Decimal(n)], c) && Valid(t)
    ensures Matches(c, t) <==> Shown(t, index) == if index == 4 && n == 7 then 0 else n
  {
    hide DenotesExpression, Decimal, CronWeekday;
    var fields := STARS[index := Decimal(n)];
    WeekdayIsADay(t);
    StarsAreEverything(fields, c);
    NumbersMeanThemselves(fields, n, c);
    StarIsNoNumber(n);
  }

  lemma StarIsNoNumber(n: nat)
    ensures Decimal(n) != "*"
  {
    assert Decimal(n)[0] in Decimal(n);
  }
}
