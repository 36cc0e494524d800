/** The field syntax of a cron expression and the constructor's checks. Text is ASCII. */
module CronParser {
  import opened Outcomes
  import opened CronFields
  import opened Ordering

  datatype FieldError = InvalidValue | OutOfRange | InvalidStep | StepTooLarge | DescendingRange

  datatype ParseError = FieldCount | BadField(index: nat, why: FieldError) | NeverMatches

  const MONTH_NAMES: map<string, int> := map[
    "jan" := 1, "feb" := 2, "mar" := 3, "apr" := 4, "may" := 5, "jun" := 6,
    "jul" := 7, "aug" := 8, "sep" := 9, "oct" := 10, "nov" := 11, "dec" := 12]

  const WEEKDAY_NAMES: map<string, int> := map[
    "sun" := 0, "mon" := 1, "tue" := 2, "wed" := 3, "thu" := 4, "fri" := 5, "sat" := 6]

  // ---- the string operations the parser uses ----

  function Find(s: string, c: char): (i: nat)
    ensures i <= |s| && c !in s[..i] && (i < |s| ==> s[i] == c)
  {
    if s == "" || s[0] == c then 0
    else
      var i := 1 + Find(s[1..], c);
      assert s[..i] == [s[0]] + s[1..][..i - 1];
      i
  }

  /** c.join(parts) */
  function Join(parts: seq<string>, c: char): string {
    if parts == [] then ""
    else if |parts| == 1 then parts[0]
    else parts[0] + [c] + Join(parts[1..], c)
  }

  /** text.split(c): joined they are the text again, and none holds the separator. */
  function Split(s: string, c: char): (parts: seq<string>)
    ensures parts != [] && Join(parts, c) == s
    ensures forall i | 0 <= i < |parts| :: c !in parts[i]
    decreases |s|
  {
    var i := Find(s, c);
    if i == |s| then [s]
    else
      var rest := Split(s[i + 1..], c);
      assert ([s[..i]] + rest)[1..] == rest;
      assert s == s[..i] + [c] + s[i + 1..];
      [s[..i]] + rest
  }

  /** And such parts are what splitting gives. */
  lemma {:induction false} SplitIsTheParts(parts: seq<string>, c: char)
    requires parts != [] && forall i | 0 <= i < |parts| :: c !in parts[i]
    ensures Split(Join(parts, c), c) == parts
    decreases |parts|
  {
    var first := parts[0];
    if |parts| == 1 {
      FindIsTheFirst(first, c, "");
      assert first[..|first|] == first;
    } else {
      var rest := Join(parts[1..], c);
      FindIsTheFirst(first, c, rest);
      SplitIsTheParts(parts[1..], c);
      var text := first + [c] + rest;
      assert text[..|first|] == first && text[|first| + 1..] == rest;
    }
  }

  function Lower(s: string): string {
    seq(|s|, i requires 0 <= i < |s| => if 'A' <= s[i] <= 'Z' then s[i] - 'A' + 'a' else s[i])
  }

  predicate IsDigit(c: char) { '0' <= c <= '9' }

  function DigitValue(c: char): int requires IsDigit(c) { (c - '0') as int }

  /** str.isdigit() */
  predicate AllDigits(s: string) {
    s != "" && forall c <- s :: IsDigit(c)
  }

  /** Digits with single underscores between them, as int() reads them. */
  function ReadDigits(s: string, read: nat): (r: Option<int>)
    ensures r.Some? ==> 0 <= r.value
  {
    if s == "" || !IsDigit(s[0]) then None
    else
      var value := read * 10 + DigitValue(s[0]);
      if |s| == 1 then Some(value)
      else if s[1] == '_' then ReadDigits(s[2..], value)
      else ReadDigits(s[1..], value)
  }

  /** int(text), or None for its ValueError */
  function ReadInt(s: string): Option<int> {
    if s == "" then None
    else if s[0] == '+' then ReadDigits(s[1..], 0)
    else if s[0] == '-' then
      match ReadDigits(s[1..], 0) case Some(n) => Some(-n) case None => None
    else ReadDigits(s, 0)
  }

  // ---- one part of a field ----

  /** set(range(first, last + 1, step)) */
  function Steps(first: int, last: int, step: int): (r: set<int>)
    requires 1 <= step
    ensures forall v | v in r :: first <= v <= last
    decreases last - first
  {
    if first > last then {} else {first} + Steps(first + step, last, step)
  }

  /** The steps are the values of the range that are a whole number of steps from its start. */
  lemma {:induction false} StepsAreMultiples(first: int, last: int, step: int, v: int)
    requires 1 <= step
    ensures v in Steps(first, last, step) <==> first <= v <= last && (v - first) % step == 0
    decreases last - first
  {
    if first <= last {
      StepsAreMultiples(first + step, last, step, v);
      if first <= v < first + step {
        assert (v - first) % step == v - first;
      } else if first + step <= v {
        Wraps(v - first, step);
      }
    }
  }

  lemma Wraps(a: int, m: int)
    requires 1 <= m
    ensures (a - m) % m == a % m
  {
    var q := a / m;
    assert a - m == m * (q - 1) + a % m;
    UniqueRemainder(a - m, m, q - 1, a % m);
  }

  lemma UniqueRemainder(a: int, m: int, q: int, r: int)
    requires 1 <= m && 0 <= r < m && a == m * q + r
    ensures a % m == r
  {
    var d := a / m - q;
    assert m * d == r - a % m;
    assert d >= 1 ==> m * d >= m;
    assert d <= -1 ==> m * d <= -m;
  }

  /** The values first, first + step, ... up to last. */
  datatype Part = Part(first: int, last: int, step: int) {
    predicate Covers(v: int) requires 1 <= step {
      v in Steps(first, last, step)
    }
  }

  function ReadValue(text: string, low: int, high: int, names: map<string, int>): (r: Result<int, FieldError>)
    ensures r.Ok? ==> low <= r.value <= high
  {
    var read := if Lower(text) in names then Some(names[Lower(text)]) else ReadInt(text);
    match read
    case None => Err(InvalidValue)
    case Some(value) => if low <= value <= high then Ok(value) else Err(OutOfRange)
  }

  function ReadStep(text: string, low: int, high: int): (r: Result<int, FieldError>)
    ensures r.Ok? ==> 1 <= r.value
  {
    if text == "" then Ok(1)
    else if !AllDigits(text) then Err(InvalidStep)
    else
      match ReadDigits(text, 0)
      case None => Err(InvalidStep)
      case Some(step) =>
        if step == 0 then Err(InvalidStep)
        else if step > high - low + 1 then Err(StepTooLarge)
        else Ok(step)
  }

  function ReadPart(part: string, low: int, high: int, names: map<string, int>): (r: Result<Part, FieldError>)
    requires low <= high
    ensures r.Ok? ==> low <= r.value.first <= r.value.last <= high && 1 <= r.value.step
  {
    var slash := Find(part, '/');
    var body := part[..slash];
    var stepText := if slash < |part| then part[slash + 1..] else "";
    match ReadStep(stepText, low, high)
    case Err(e) => Err(e)
    case Ok(step) =>
      if body == "*" then Ok(Part(low, high, step))
      else if '-' in body then
        var dash := Find(body, '-');
        assert dash < |body|;
        match ReadValue(body[..dash], low, high, names)
        case Err(e) => Err(e)
        case Ok(first) =>
          match ReadValue(body[dash + 1..], low, high, names)
          case Err(e) => Err(e)
          case Ok(last) => if first > last then Err(DescendingRange) else Ok(Part(first, last, step))
      else
        match ReadValue(body, low, high, names)
        case Err(e) => Err(e)
        // A bare value with a step runs to the field's maximum.
        case Ok(first) => Ok(Part(first, if stepText != "" then high else first, step))
  }

  // ---- what text means, apart from how it is read ----

  function Digit(d: int): char requires 0 <= d <= 9 { '0' + d as char }

  /** n in decimal. */
  function Decimal(n: nat): (s: string)
    ensures s != "" && forall c <- s :: IsDigit(c)
  {
    if n < 10 then [Digit(n)] else Decimal(n / 10) + [Digit(n % 10)]
  }

  lemma {:induction false} ReadingOn(s: string, d: int, read: nat)
    requires s != "" && (forall c <- s :: IsDigit(c)) && 0 <= d <= 9
    ensures ReadDigits(s, read).Some?
    ensures ReadDigits(s + [Digit(d)], read) == Some(ReadDigits(s, read).value * 10 + d)
    decreases |s|
  {
    var t := s + [Digit(d)];
    assert t[0] == s[0] && s[0] in s;
    if |s| == 1 {
      assert t[1..] == [Digit(d)];
    } else {
      assert s[1] in s && t[1] == s[1] && t[1..] == s[1..] + [Digit(d)];
      ReadingOn(s[1..], d, read * 10 + DigitValue(s[0]));
    }
  }

  /** A decimal reads back as its number. */
  lemma {:induction false} DecimalReadsBack(n: nat)
    ensures ReadDigits(Decimal(n), 0) == Some(n) && ReadInt(Decimal(n)) == Some(n) && AllDigits(Decimal(n))
    decreases n
  {
    if n >= 10 {
      DecimalReadsBack(n / 10);
      ReadingOn(Decimal(n / 10), n % 10, 0);
    }
    assert Decimal(n)[0] in Decimal(n);
  }

  /** Digits, with underscores only between two of them. */
  predicate Grouped(s: string) {
    && s != "" && s[0] != '_' && s[|s| - 1] != '_'
    && forall i | 0 <= i < |s| :: IsDigit(s[i]) || (s[i] == '_' && 0 < i && s[i - 1] != '_')
  }

  function Ungrouped(s: string): string {
    if s == "" then "" else (if s[0] == '_' then "" else [s[0]]) + Ungrouped(s[1..])
  }

  lemma GroupedOn(s: string, n: nat)
    requires |s| > 1 && IsDigit(s[0]) && n == if s[1] == '_' then 2 else 1
    ensures Grouped(s) <==> Grouped(s[n..])
  {
    var rest := s[n..];
    assert forall i | 0 <= i < |rest| :: rest[i] == s[i + n];
    if Grouped(rest) {
      assert rest[0] == s[n] && rest[|rest| - 1] == s[|s| - 1];
      forall i | 0 <= i < |s| ensures IsDigit(s[i]) || (s[i] == '_' && 0 < i && s[i - 1] != '_') {
        if n <= i { assert rest[i - n] == s[i]; }
      }
    }
  }

  lemma UngroupedOn(s: string, n: nat, read: nat)
    requires |s| > 1 && IsDigit(s[0]) && n == if s[1] == '_' then 2 else 1
    requires Grouped(s[n..])
    ensures ReadDigits(Ungrouped(s), read) == ReadDigits(Ungrouped(s[n..]), read * 10 + DigitValue(s[0]))
  {
    var rest := s[n..];
    assert Ungrouped(rest)[0] == rest[0] && IsDigit(rest[0]);
    assert n == 2 ==> s[1..][1..] == rest;
    assert Ungrouped(s) == [s[0]] + Ungrouped(rest);
    assert Ungrouped(s)[1..] == Ungrouped(rest);
  }

  /** What int() reads as digits is exactly that, and the underscores do not count. */
  lemma {:induction false} ReadsGroupedDigits(s: string, read: nat)
    ensures ReadDigits(s, read).Some? <==> Grouped(s)
    ensures Grouped(s) ==> IsDigit(s[0]) && ReadDigits(s, read) == ReadDigits(Ungrouped(s), read)
    decreases |s|
  {
    if s != "" && IsDigit(s[0]) && |s| > 1 {
      hide Grouped, Ungrouped;
      var n := if s[1] == '_' then 2 else 1;
      GroupedOn(s, n);
      ReadsGroupedDigits(s[n..], read * 10 + DigitValue(s[0]));
      if Grouped(s) { UngroupedOn(s, n, read); }
    }
  }

  /** And as an integer: those digits, after a sign or not. */
  lemma ReadsSignedDigits(s: string)
    ensures ReadInt(s).Some? <==> Grouped(s) || (s != "" && (s[0] == '+' || s[0] == '-') && Grouped(s[1..]))
    ensures Grouped(s) ==> ReadInt(s) == ReadDigits(s, 0)
    ensures s != "" && s[0] == '+' && Grouped(s[1..]) ==> ReadInt(s) == ReadInt(s[1..])
    ensures s != "" && s[0] == '-' && Grouped(s[1..]) ==> ReadInt(s) == Some(-ReadInt(s[1..]).value)
  {
    NothingIsNotGrouped();
    ReadsGroupedDigits(s, 0);
    if s != "" { ReadsGroupedDigits(s[1..], 0); }
    hide Grouped, Ungrouped, ReadDigits;
  }

  lemma NothingIsNotGrouped()
    ensures !Grouped("")
  { }

  /** A value is written in decimal, or as one of the field's names in any case. */
  ghost predicate Writes(text: string, v: nat, names: map<string, int>) {
    text == Decimal(v) || (Lower(text) in names && names[Lower(text)] == v)
  }

  /** Names are letters: no digits, and none of the marks that take a part apart. */
  predicate Lettered(names: map<string, int>) {
    forall name <- names :: name != "" && forall c <- name :: 'a' <= c <= 'z'
  }

  lemma MonthNamesAreLettered()
    ensures Lettered(map[]) && Lettered(MONTH_NAMES)
  { }

  lemma WeekdayNamesAreLettered()
    ensures Lettered(WEEKDAY_NAMES)
  { }

  lemma WrittenIsPlain(text: string, v: nat, names: map<string, int>)
    requires Lettered(names) && Writes(text, v, names)
    ensures '-' !in text && '/' !in text && '*' !in text && ',' !in text && text != ""
  {
    if text != Decimal(v) {
      forall i | 0 <= i < |text| ensures text[i] != '-' && text[i] != '/' && text[i] != '*' && text[i] != ',' {
        assert Lower(text)[i] in Lower(text);
      }
    }
  }

  /** A value as it is read. */
  function InField(v: int, low: int, high: int): Result<int, FieldError> {
    if low <= v <= high then Ok(v) else Err(OutOfRange)
  }

  lemma WrittenReadsBack(text: string, v: nat, low: int, high: int, names: map<string, int>)
    requires Lettered(names) && Writes(text, v, names)
    ensures ReadValue(text, low, high, names) == InField(v, low, high)
  {
    if text == Decimal(v) {
      DecimalReadsBack(v);
      assert Lower(text)[0] == text[0] && text[0] in text && Lower(text)[0] in Lower(text);
    }
  }

  /** A part of a field as it is meant. */
  datatype Meant = Star | One(value: nat) | Span(first: nat, last: nat)

  /** The text of its range. */
  ghost predicate WritesRange(text: string, meant: Meant, names: map<string, int>) {
    match meant
    case Star => text == "*"
    case One(value) => Writes(text, value, names)
    case Span(first, last) => exists a, b :: Writes(a, first, names) && Writes(b, last, names) && text == a + "-" + b
  }

  /** The values it means: all of them, one, or those of a range; a step goes on from
      the first, and from a lone value to the field's last. */
  function PartOf(meant: Meant, step: Option<nat>, low: int, high: int): Part {
    var stride := if step.Some? then step.value else 1;
    match meant
    case Star => Part(low, high, stride)
    case One(value) => Part(value, if step.Some? then high else value, stride)
    case Span(first, last) => Part(first, last, stride)
  }

  /** Why what is meant is refused in a field from low to high: for its step, for a value
      outside, or for its order. */
  function Refusal(meant: Meant, step: Option<nat>, low: int, high: int): Option<FieldError> {
    if step == Some(0) then Some(InvalidStep)
    else if step.Some? && step.value > high - low + 1 then Some(StepTooLarge)
    else
      match meant
      case Star => None
      case One(value) => if low <= value <= high then None else Some(OutOfRange)
      case Span(first, last) =>
        if !(low <= first <= high && low <= last <= high) then Some(OutOfRange)
        else if first > last then Some(DescendingRange)
        else None
  }

  lemma FindIsTheFirst(before: string, c: char, rest: string)
    requires c !in before
    ensures Find(before + [c] + rest, c) == |before| && Find(before, c) == |before|
    decreases |before|
  {
    if before != "" {
      assert (before + [c] + rest)[1..] == before[1..] + [c] + rest;
      assert before[0] in before;
      FindIsTheFirst(before[1..], c, rest);
    }
  }

  lemma SpanReadsBack(text: string, first: nat, last: nat, low: int, high: int, names: map<string, int>)
    requires Lettered(names) && WritesRange(text, Span(first, last), names)
    ensures '/' !in text && text != "" && text != "*" && '-' in text
    ensures ReadValue(text[..Find(text, '-')], low, high, names) == InField(first, low, high)
    ensures Find(text, '-') < |text|
    ensures ReadValue(text[Find(text, '-') + 1..], low, high, names) == InField(last, low, high)
  {
    hide ReadValue, Writes;
    var a, b :| Writes(a, first, names) && Writes(b, last, names) && text == a + "-" + b;
    WrittenIsPlain(a, first, names);
    WrittenIsPlain(b, last, names);
    WrittenReadsBack(a, first, low, high, names);
    WrittenReadsBack(b, last, low, high, names);
    FindIsTheFirst(a, '-', b);
    assert text[|a|] == '-' && text[..|a|] == a && text[|a| + 1..] == b;
  }

  lemma RangeReadsBack(text: string, meant: Meant, low: int, high: int, names: map<string, int>)
    requires Lettered(names) && WritesRange(text, meant, names)
    ensures '/' !in text && text != ""
    ensures meant.Star? <==> text == "*"
    ensures meant.One? ==> '-' !in text && ReadValue(text, low, high, names) == InField(meant.value, low, high)
    ensures meant.Span? ==> '-' in text && var dash := Find(text, '-');
      && ReadValue(text[..dash], low, high, names) == InField(meant.first, low, high)
      && ReadValue(text[dash + 1..], low, high, names) == InField(meant.last, low, high)
  {
    match meant
    case Star =>
    case One(value) =>
      WrittenIsPlain(text, value, names);
      WrittenReadsBack(text, value, low, high, names);
    case Span(first, last) =>
      SpanReadsBack(text, first, last, low, high, names);
  }

  lemma StepReadsBack(step: nat, low: int, high: int)
    ensures ReadStep("", low, high) == Ok(1)
    ensures ReadStep(Decimal(step), low, high) ==
      if step == 0 then Err(InvalidStep) else if step > high - low + 1 then Err(StepTooLarge) else Ok(step)
  {
    DecimalReadsBack(step);
  }

  /** A star, a value or a range, with or without a step, reads back as the values it
      means, or is refused for what is wrong with it. */
  lemma PartReadsBack(text: string, meant: Meant, step: Option<nat>, low: int, high: int, names: map<string, int>)
    requires low <= high && Lettered(names) && WritesRange(text, meant, names)
    ensures var read := ReadPart(if step.Some? then text + "/" + Decimal(step.value) else text, low, high, names);
      match Refusal(meant, step, low, high)
      case Some(why) => read == Err(why)
      case None => read == Ok(PartOf(meant, step, low, high))
  {
    hide Decimal, ReadValue, WritesRange, ReadStep;
    RangeReadsBack(text, meant, low, high, names);
    StepReadsBack(if step.Some? then step.value else 0, low, high);
    if step.Some? {
      var part := text + "/" + Decimal(step.value);
      FindIsTheFirst(text, '/', Decimal(step.value));
      assert part[..|text|] == text && part[|text| + 1..] == Decimal(step.value);
    } else {
      FindIsTheFirst(text, '/', "");
      assert text[..|text|] == text;
    }
  }

  // ---- a whole field ----

  datatype Field = Field(values: seq<int>, restricted: bool)

  predicate PartReads(part: string, low: int, high: int, names: map<string, int>)
    requires low <= high
  {
    ReadPart(part, low, high, names).Ok?
  }

  predicate PartCovers(part: string, v: int, low: int, high: int, names: map<string, int>)
    requires low <= high
  {
    var r := ReadPart(part, low, high, names);
    r.Ok? && r.value.Covers(v)
  }

  /** What a field means: a lone star restricts nothing, and otherwise a value
      is allowed when some comma-separated part covers it. */
  ghost predicate Denotes(text: string, low: int, high: int, names: map<string, int>, field: Field)
    requires low <= high
  {
    && Domain(field.values, low, high)
    && (text == "*" ==> !field.restricted && forall v | low <= v <= high :: v in field.values)
    && (text != "*" ==>
      && field.restricted
      && (forall part <- Split(text, ',') :: PartReads(part, low, high, names))
      && forall v :: v in field.values <==> exists part <- Split(text, ',') :: PartCovers(part, v, low, high, names))
  }

  /** The values of the parts, taken together. */
  ghost function Union(parts: seq<string>, low: int, high: int, names: map<string, int>): (r: set<int>)
    requires low <= high
    requires forall part <- parts :: PartReads(part, low, high, names)
    ensures forall v | v in r :: low <= v <= high
    ensures parts != [] ==> r != {}
    decreases |parts|
  {
    if parts == [] then {}
    else
      assert PartReads(parts[|parts| - 1], low, high, names);
      var part := ReadPart(parts[|parts| - 1], low, high, names).value;
      assert part.first in Steps(part.first, part.last, part.step);
      Union(parts[..|parts| - 1], low, high, names) + Steps(part.first, part.last, part.step)
  }

  lemma {:induction false} InUnion(parts: seq<string>, v: int, low: int, high: int, names: map<string, int>)
    requires low <= high
    requires forall part <- parts :: PartReads(part, low, high, names)
    ensures v in Union(parts, low, high, names) <==> exists part <- parts :: PartCovers(part, v, low, high, names)
    decreases |parts|
  {
    hide ReadPart;
    if parts != [] {
      var n := |parts| - 1;
      InUnion(parts[..n], v, low, high, names);
      assert PartReads(parts[n], low, high, names);
      assert forall part <- parts :: part in parts[..n] || part == parts[n];
      assert v in Union(parts, low, high, names) <==>
        v in Union(parts[..n], low, high, names) || PartCovers(parts[n], v, low, high, names);
    }
  }

  /** Every part of the field reads. */
  predicate Readable(text: string, low: int, high: int, names: map<string, int>)
    requires low <= high
  {
    text == "*" || forall part <- Split(text, ',') :: PartReads(part, low, high, names)
  }

  lemma UnionDenotes(text: string, low: int, high: int, names: map<string, int>)
    requires low <= high && text != "*" && Readable(text, low, high, names)
    ensures Denotes(text, low, high, names, Field(Sorted(Union(Split(text, ','), low, high, names), low, high), true))
  {
    hide ReadPart;
    hide PartCovers;
    var parts := Split(text, ',');
    var values := Union(parts, low, high, names);
    forall v ensures v in values <==> exists part <- parts :: PartCovers(part, v, low, high, names) {
      InUnion(parts, v, low, high, names);
    }
  }

  lemma StarDenotes(low: int, high: int, names: map<string, int>)
    requires low <= high
    ensures Denotes("*", low, high, names, Field(Range(low, high), false))
  { }

  lemma UnionOneMore(parts: seq<string>, i: nat, part: Part, low: int, high: int, names: map<string, int>)
    requires low <= high && i < |parts| && ReadPart(parts[i], low, high, names) == Ok(part)
    requires forall j | 0 <= j < i :: PartReads(parts[j], low, high, names)
    ensures Union(parts[..i + 1], low, high, names) ==
      Union(parts[..i], low, high, names) + Steps(part.first, part.last, part.step)
  {
    hide ReadPart;
    assert parts[..i + 1][..i] == parts[..i];
  }

  /** The error is the one the first unreadable part gives. */
  predicate FirstUnreadable(parts: seq<string>, i: nat, why: FieldError, low: int, high: int, names: map<string, int>)
    requires low <= high
  {
    && i < |parts|
    && (forall j | 0 <= j < i :: PartReads(parts[j], low, high, names))
    && ReadPart(parts[i], low, high, names) == Err(why)
  }

  /** Collects the values part by part and sorts them, or fails as its first unreadable part does. */
  method ParseField(text: string, low: int, high: int, names: map<string, int>) returns (r: Result<Field, FieldError>)
    requires low <= high
    ensures r.Ok? <==> Readable(text, low, high, names)
    ensures r.Ok? ==> Denotes(text, low, high, names, r.value)
    ensures r.Err? ==> exists i :: FirstUnreadable(Split(text, ','), i, r.error, low, high, names)
  {
    hide ReadPart, Denotes, Steps;
    if text == "*" {
      StarDenotes(low, high, names);
      return Ok(Field(Range(low, high), false));
    }
    var parts := Split(text, ',');
    var values: set<int> := {};
    for i := 0 to |parts|
      invariant forall j | 0 <= j < i :: PartReads(parts[j], low, high, names)
      invariant values == Union(parts[..i], low, high, names)
    {
      var read := ReadPart(parts[i], low, high, names);
      if read.Err? {
        assert parts[i] in parts && !PartReads(parts[i], low, high, names);
        assert FirstUnreadable(parts, i, read.error, low, high, names);
        return Err(read.error);
      }
      UnionOneMore(parts, i, read.value, low, high, names);
      values := values + Steps(read.value.first, read.value.last, read.value.step);
    }
    assert parts[..|parts|] == parts;
    UnionDenotes(text, low, high, names);
    r := Ok(Field(Sorted(values, low, high), true));
  }

  // ---- the whole expression ----

  /** Smallest value, largest value and names of each of the five fields. */
  function Bounds(index: nat): (int, int, map<string, int>)
    requires index < 5
  {
    if index == 0 then (0, 59, map[])
    else if index == 1 then (0, 23, map[])
    else if index == 2 then (1, 31, map[])
    else if index == 3 then (1, 12, MONTH_NAMES)
    else (0, 7, WEEKDAY_NAMES)
  }

  /** In each of the five fields, what is written for some values reads back as them. */
  lemma EveryFieldReadsBack(index: nat, text: string, meant: Meant, step: Option<nat>)
    requires index < 5 && WritesRange(text, meant, Bounds(index).2)
    ensures var (low, high, names) := Bounds(index);
      var read := ReadPart(if step.Some? then text + "/" + Decimal(step.value) else text, low, high, names);
      match Refusal(meant, step, low, high)
      case Some(why) => read == Err(why)
      case None => read == Ok(PartOf(meant, step, low, high))
  {
    hide WritesRange, ReadPart;
    var (low, high, names) := Bounds(index);
    MonthNamesAreLettered();
    WeekdayNamesAreLettered();
    hide Lettered;
    PartReadsBack(text, meant, step, low, high, names);
  }

  predicate FieldReadable(fields: seq<string>, index: nat)
    requires index < 5 == |fields|
  {
    var (low, high, names) := Bounds(index);
    Readable(fields[index], low, high, names)
  }

  ghost predicate FieldDenotes(fields: seq<string>, index: nat, field: Field)
    requires index < 5 == |fields|
  {
    var (low, high, names) := Bounds(index);
    Denotes(fields[index], low, high, names, field)
  }

  /** 0 and 7 both mean Sunday. */
  ghost predicate Folds(raw: seq<int>, days: seq<int>) {
    forall v :: v in days <==> 0 <= v <= 6 && (v in raw || (v == 0 && 7 in raw))
  }

  /** The five fields denote the expression c; 7 folds onto 0 for Sunday. */
  ghost predicate DenotesExpression(fields: seq<string>, c: Cron) {
    && |fields| == 5
    && (exists f :: FieldDenotes(fields, 0, f) && f.values == c.minutes)
    && (exists f :: FieldDenotes(fields, 1, f) && f.values == c.hours)
    && FieldDenotes(fields, 2, Field(c.daysOfMonth, c.domRestricted))
    && (exists f :: FieldDenotes(fields, 3, f) && f.values == c.months)
    && (exists f :: FieldDenotes(fields, 4, f) && f.restricted == c.dowRestricted && Folds(f.values, c.daysOfWeek))
    && Domain(c.daysOfWeek, 0, 6)
  }

  // ---- a text denotes one expression ----

  lemma FieldDenotesOnce(fields: seq<string>, others: seq<string>, index: nat, f: Field, g: Field)
    requires index < 5 == |fields| == |others| && fields[index] == others[index]
    requires FieldDenotes(fields, index, f) && FieldDenotes(others, index, g)
    ensures f == g && FieldReadable(fields, index)
  {
    hide PartReads, PartCovers;
    var (low, high, names) := Bounds(index);
    forall v ensures v in f.values <==> v in g.values {
      if fields[index] == "*" { assert v in f.values <==> low <= v <= high; }
    }
    SameValues(f.values, g.values);
  }

  /** What each field says is said by its own text. */
  lemma FieldByField(fields: seq<string>, others: seq<string>, c: Cron, d: Cron)
    requires DenotesExpression(fields, c) && DenotesExpression(others, d)
    ensures fields[0] == others[0] ==> c.minutes == d.minutes && FieldReadable(fields, 0)
    ensures fields[1] == others[1] ==> c.hours == d.hours && FieldReadable(fields, 1)
    ensures fields[2] == others[2] ==>
      c.daysOfMonth == d.daysOfMonth && c.domRestricted == d.domRestricted && FieldReadable(fields, 2)
    ensures fields[3] == others[3] ==> c.months == d.months && FieldReadable(fields, 3)
    ensures fields[4] == others[4] ==>
      c.daysOfWeek == d.daysOfWeek && c.dowRestricted == d.dowRestricted && FieldReadable(fields, 4)
  {
    hide FieldDenotes, FieldReadable;
    forall i, f, g | 0 <= i < 5 && fields[i] == others[i] && FieldDenotes(fields, i, f) && FieldDenotes(others, i, g)
      ensures f == g && FieldReadable(fields, i)
    {
      FieldDenotesOnce(fields, others, i, f, g);
    }
    var f :| FieldDenotes(fields, 4, f) && f.restricted == c.dowRestricted && Folds(f.values, c.daysOfWeek);
    var g :| FieldDenotes(others, 4, g) && g.restricted == d.dowRestricted && Folds(g.values, d.daysOfWeek);
    if f == g {
      FoldsOnce(f.values, c.daysOfWeek, d.daysOfWeek);
      FoldsOnce(f.values, d.daysOfWeek, c.daysOfWeek);
      SameValues(c.daysOfWeek, d.daysOfWeek);
    }
  }

  /** Five fields denote at most one expression, and one only if each of them reads. */
  lemma DenotesOnce(fields: seq<string>, c: Cron, d: Cron)
    requires DenotesExpression(fields, c) && DenotesExpression(fields, d)
    ensures c == d && forall i | 0 <= i < 5 :: FieldReadable(fields, i)
  {
    FieldByField(fields, fields, c, d);
  }

  lemma FoldsOnce(raw: seq<int>, days: seq<int>, others: seq<int>)
    requires Folds(raw, days) && Folds(raw, others)
    ensures Among(days, others)
  {
    forall v ensures v in days <==> v in others { }
  }

  method FoldSunday(raw: seq<int>) returns (days: seq<int>)
    requires Domain(raw, 0, 7)
    ensures Domain(days, 0, 6)
    ensures Folds(raw, days)
  {
    var folded := set day | day in raw :: if day == 7 then 0 else day;
    assert raw[0] in raw;
    days := Sorted(folded, 0, 6);
    assert 7 in raw ==> 0 in folded;
    forall v | 0 <= v <= 6 && v in raw ensures v in folded { }
  }

  /** Reads the five fields in order, or names the first that does not read. */
  method ParseFields(fields: seq<string>) returns (r: Result<seq<Field>, ParseError>)
    requires |fields| == 5
    ensures r.Ok? ==> |r.value| == 5 && forall i | 0 <= i < 5 :: FieldDenotes(fields, i, r.value[i])
    ensures r.Err? ==>
      && r.error.BadField? && r.error.index < 5
      && !FieldReadable(fields, r.error.index)
      && forall j | 0 <= j < r.error.index :: FieldReadable(fields, j)
  {
    var read: seq<Field> := [];
    for i := 0 to 5
      invariant |read| == i
      invariant forall j | 0 <= j < i :: FieldReadable(fields, j) && FieldDenotes(fields, j, read[j])
    {
      var (low, high, names) := Bounds(i);
      var field := ParseField(fields[i], low, high, names);
      if field.Err? { return Err(BadField(i, field.error)); }
      read := read + [field.value];
    }
    r := Ok(read);
  }

  /** The constructor, from the five blank-separated fields on: it accepts exactly
      the readable, possible expressions, and names the first field that does not read. */
  method Parse(fields: seq<string>) returns (r: Result<Cron, ParseError>)
    ensures r == Err(FieldCount) <==> |fields| != 5
    ensures r.Ok? ==> DenotesExpression(fields, r.value) && Accepted(r.value)
    ensures r == Err(NeverMatches) ==> exists c :: DenotesExpression(fields, c) && WellFormed(c) && Impossible(c)
    ensures r.Err? && r.error.BadField? ==>
      && r.error.index < 5 == |fields|
      && !FieldReadable(fields, r.error.index)
      && forall j | 0 <= j < r.error.index :: FieldReadable(fields, j)
    ensures r.Err? && r.error.BadField? <==> |fields| == 5 && exists i | 0 <= i < 5 :: !FieldReadable(fields, i)
    ensures forall c | DenotesExpression(fields, c) :: r == if Impossible(c) then Err(NeverMatches) else Ok(c)
  {
    hide FieldReadable;
    if |fields| != 5 { return Err(FieldCount); }
    var read := ParseFields(fields);
    if read.Err? {
      forall c | DenotesExpression(fields, c) ensures false { DenotesOnce(fields, c, c); }
      return Err(read.error);
    }
    var f := read.value;
    assert forall i | 0 <= i < 5 :: FieldDenotes(fields, i, f[i]);
    assert FieldDenotes(fields, 4, f[4]);
    var folded := FoldSunday(f[4].values);
    var c := Cron(f[0].values, f[1].values, f[2].values, f[3].values, folded, f[2].restricted, f[4].restricted);
    assert DenotesExpression(fields, c) && WellFormed(c) by {
      assert FieldDenotes(fields, 0, f[0]) && FieldDenotes(fields, 1, f[1]);
      assert FieldDenotes(fields, 2, f[2]) && FieldDenotes(fields, 3, f[3]);
    }
    forall d | DenotesExpression(fields, d) ensures d == c { DenotesOnce(fields, d, c); }
    DenotesOnce(fields, c, c);
    if Impossible(c) { return Err(NeverMatches); }
    return Ok(c);
  }
}
