/** Reading stored schedules in batches, halving a batch that does not read until
    the row that fails is alone, and then reading that row a column at a time. */
module StoredRead {
  import opened Outcomes
  import opened Ordering

  type Key = int
  type Field = string

  /** One stored value: it decodes, the driver hands over something that does not
      decode, or the driver cannot hand it over and the statement fails. */
  datatype Cell = Value(value: int) | Undecodable(why: string) | Undeliverable(why: string)

  /** The table during one read, and whether the connection takes another statement
      after one that failed on a value. */
  datatype Database = Database(existing: set<Key>, cell: (Key, Field) -> Cell, canReadOn: bool)

  datatype Answer =
    | Schedule(values: map<Field, int>)
    | UnreadableRow(unreadable: map<Field, string>, values: map<Field, int>)

  /** The error of a failed statement, raised as it is. */
  datatype Raised = StatementFailed

  // ---- the reference: every row alone, every column on its own ----

  function Why(cell: Cell): string
    requires !cell.Value?
  {
    cell.why
  }

  /** The columns that read, with their values. */
  function Values(db: Database, key: Key, fields: seq<Field>): map<Field, int> {
    map f | f in fields && db.cell(key, f).Value? :: db.cell(key, f).value
  }

  /** The columns that do not, with the reason. */
  function Faults(db: Database, key: Key, fields: seq<Field>): map<Field, string> {
    map f | f in fields && !db.cell(key, f).Value? :: Why(db.cell(key, f))
  }

  /** A row read by itself: what each column says, and unreadable when any does not read. */
  function Alone(db: Database, key: Key, fields: seq<Field>): Answer {
    var values, unreadable := Values(db, key, fields), Faults(db, key, fields);
    if unreadable == map[] then Schedule(values) else UnreadableRow(unreadable, values)
  }

  /** Column by column: the values of those that decode, and the reasons of all the others;
      unreadable is a row that has one of these. */
  lemma AloneByColumn(db: Database, key: Key, fields: seq<Field>)
    ensures var row := Alone(db, key, fields);
      && (row.Schedule? <==> forall f <- fields :: db.cell(key, f).Value?)
      && (forall f :: f in row.values <==> f in fields && db.cell(key, f).Value?)
      && (forall f <- row.values :: db.cell(key, f) == Value(row.values[f]))
      && (row.UnreadableRow? ==> forall f :: f in row.unreadable <==> f in fields && !db.cell(key, f).Value?)
      && (row.UnreadableRow? ==> forall f <- row.unreadable :: db.cell(key, f).why == row.unreadable[f])
  {
    if f :| f in fields && !db.cell(key, f).Value? { assert f in Faults(db, key, fields); }
  }

  lemma OneMoreField(db: Database, key: Key, fields: seq<Field>, i: nat)
    requires i < |fields|
    ensures var f, cell := fields[i], db.cell(key, fields[i]);
      && Values(db, key, fields[..i + 1]) ==
        (if cell.Value? then Values(db, key, fields[..i])[f := cell.value] else Values(db, key, fields[..i]))
      && Faults(db, key, fields[..i + 1]) ==
        (if cell.Value? then Faults(db, key, fields[..i]) else Faults(db, key, fields[..i])[f := Why(cell)])
  {
    assert fields[..i + 1] == fields[..i] + [fields[i]];
    assert forall f :: f in fields[..i + 1] <==> f in fields[..i] || f == fields[i];
  }

  /** Every existing key with its row read alone; a missing key is left out. */
  function EachAlone(db: Database, keys: seq<Key>, fields: seq<Field>): map<Key, Answer> {
    map key | key in keys && key in db.existing :: Alone(db, key, fields)
  }

  // ---- statements ----

  predicate FailsRow(db: Database, key: Key, fields: seq<Field>) {
    key in db.existing && exists f <- fields :: db.cell(key, f).Undeliverable?
  }

  /** The rows that make a statement fail. */
  function BadRows(db: Database, keys: seq<Key>, fields: seq<Field>): set<Key> {
    set key | key in keys && FailsRow(db, key, fields)
  }

  /** A statement for these keys fails exactly when it meets a value that cannot be delivered. */
  predicate Fails(db: Database, keys: seq<Key>, fields: seq<Field>) {
    BadRows(db, keys, fields) != {}
  }

  lemma OneColumnFails(db: Database, key: Key, f: Field)
    ensures Fails(db, [key], [f]) <==> key in db.existing && db.cell(key, f).Undeliverable?
  {
    if key in db.existing && db.cell(key, f).Undeliverable? {
      assert f in [f] && key in [key];
      assert key in BadRows(db, [key], [f]);
    }
  }

  /** A fetched row: decode every value, one after another. */
  method Hydrate(db: Database, key: Key, fields: seq<Field>) returns (answer: Answer)
    requires forall f <- fields :: !db.cell(key, f).Undeliverable?
    ensures answer == Alone(db, key, fields)
  {
    hide Values, Faults;
    var values: map<Field, int>, unreadable: map<Field, string> := map[], map[];
    NoFieldsYet(db, key);
    for i := 0 to |fields|
      invariant values == Values(db, key, fields[..i]) && unreadable == Faults(db, key, fields[..i])
    {
      OneMoreField(db, key, fields, i);
      assert !db.cell(key, fields[i]).Undeliverable?;
      match db.cell(key, fields[i]) {
        case Value(value) => values := values[fields[i] := value];
        case Undecodable(why) => unreadable := unreadable[fields[i] := why];
      }
    }
    assert fields[..|fields|] == fields;
    if unreadable == map[] {
      answer := Schedule(values);
    } else {
      answer := UnreadableRow(unreadable, values);
    }
  }

  lemma NoFieldsYet(db: Database, key: Key)
    ensures Values(db, key, []) == map[] && Faults(db, key, []) == map[]
  { }

  lemma BadRowHasAFault(db: Database, key: Key, fields: seq<Field>)
    requires FailsRow(db, key, fields)
    ensures Faults(db, key, fields) != map[] && fields != []
  {
    var f :| f in fields && db.cell(key, f).Undeliverable?;
    assert f in Faults(db, key, fields);
  }

  /** A row that failed to read as a whole, one statement a column; None if it is gone. */
  method Diagnose(db: Database, key: Key, fields: seq<Field>) returns (answer: Option<Answer>, statements: nat)
    requires key in db.existing ==> FailsRow(db, key, fields)
    ensures answer == if key in db.existing then Some(Alone(db, key, fields)) else None
    ensures statements == |fields|
  {
    hide Values, Faults, Fails;
    if key in db.existing { BadRowHasAFault(db, key, fields); }
    NoFieldsYet(db, key);
    var values: map<Field, int>, unreadable: map<Field, string> := map[], map[];
    var found := false;
    statements := 0;
    for i := 0 to |fields|
      invariant statements == i
      invariant found <==> i > 0 && key in db.existing
      invariant key in db.existing ==>
        values == Values(db, key, fields[..i]) && unreadable == Faults(db, key, fields[..i])
    {
      OneMoreField(db, key, fields, i);
      OneColumnFails(db, key, fields[i]);
      statements := statements + 1;
      if Fails(db, [key], [fields[i]]) {
        found := true;
        unreadable := unreadable[fields[i] := Why(db.cell(key, fields[i]))];
      } else if key in db.existing {
        found := true;
        match db.cell(key, fields[i]) {
          case Value(value) => values := values[fields[i] := value];
          case Undecodable(why) => unreadable := unreadable[fields[i] := why];
        }
      }
    }
    assert fields[..|fields|] == fields;
    answer := if !found then None else Some(UnreadableRow(unreadable, values));
  }

  // ---- the cost of halving ----

  /** The least number of halvings that leaves single keys. */
  function CeilLog2(n: nat): nat {
    if n <= 1 then 0 else 1 + CeilLog2(n - n / 2)
  }

  lemma {:induction false} CeilLog2Grows(m: nat, n: nat)
    requires m <= n
    ensures CeilLog2(m) <= CeilLog2(n)
    decreases n
  {
    if m > 1 { CeilLog2Grows(m - m / 2, n - n / 2); }
  }

  function PowerOfTwo(k: nat): (n: nat)
    ensures 1 <= n
  {
    if k == 0 then 1 else 2 * PowerOfTwo(k - 1)
  }

  /** It is the ceiling of the logarithm: the least k with n <= 2^k. */
  lemma {:induction false} CeilLog2IsTheLogarithm(n: nat, k: nat)
    requires 1 <= n
    ensures n <= PowerOfTwo(k) <==> CeilLog2(n) <= k
    decreases n
  {
    if n > 1 && k > 0 {
      CeilLog2IsTheLogarithm(n - n / 2, k - 1);
    }
  }

  /** The statements a batch of n rows with f undeliverable ones and c columns may take. */
  function Budget(n: nat, f: nat, c: nat): nat {
    if f == 0 then 1 else 1 + f * (2 * CeilLog2(n) + c)
  }

  /** One statement for the batch and the budgets of its halves fit the batch's own. */
  lemma HalvesFitTheBudget(n: nat, f: nat, g: nat, c: nat)
    requires 2 <= n && 1 <= f + g
    ensures 1 + Budget(n / 2, f, c) + Budget(n - n / 2, g, c) <= Budget(n, f + g, c)
  {
    var l := CeilLog2(n);
    CeilLog2Grows(n / 2, n - n / 2);
    var a, b := 2 * CeilLog2(n / 2) + c, 2 * CeilLog2(n - n / 2) + c;
    assert a <= 2 * l + c - 2 && b == 2 * l + c - 2;
    ScaledBound(f, a, 2 * l + c - 2);
    assert f * (2 * l + c - 2) + g * (2 * l + c - 2) == (f + g) * (2 * l + c) - 2 * (f + g);
  }

  lemma ScaledBound(f: nat, a: int, b: int)
    requires a <= b
    ensures f * a <= f * b
  { }

  // ---- the batch read ----

  lemma HalvesSplitTheBadRows(db: Database, keys: seq<Key>, middle: nat, fields: seq<Field>)
    requires Distinct(keys) && middle <= |keys|
    ensures |BadRows(db, keys, fields)| == |BadRows(db, keys[..middle], fields)| + |BadRows(db, keys[middle..], fields)|
    ensures Fails(db, keys, fields) ==>
      |BadRows(db, keys[..middle], fields)| + |BadRows(db, keys[middle..], fields)| >= 1
  {
    hide FailsRow;
    var left, right := keys[..middle], keys[middle..];
    assert keys == left + right;
    forall key | key in left ensures key !in right { }
    assert BadRows(db, keys, fields) == BadRows(db, left, fields) + BadRows(db, right, fields);
    assert BadRows(db, left, fields) !! BadRows(db, right, fields);
  }

  lemma HalvesSplitTheAnswers(db: Database, keys: seq<Key>, middle: nat, fields: seq<Field>)
    requires middle <= |keys|
    ensures EachAlone(db, keys, fields) == EachAlone(db, keys[..middle], fields) + EachAlone(db, keys[middle..], fields)
  {
    hide Alone;
    assert keys == keys[..middle] + keys[middle..];
  }

  lemma OneBadRow(db: Database, keys: seq<Key>, fields: seq<Field>)
    requires |keys| == 1 && Fails(db, keys, fields)
    ensures BadRows(db, keys, fields) == {keys[0]} && FailsRow(db, keys[0], fields)
    ensures EachAlone(db, keys, fields) == map[keys[0] := Alone(db, keys[0], fields)]
  { }

  lemma NotABadRow(db: Database, keys: seq<Key>, fields: seq<Field>, key: Key)
    requires !Fails(db, keys, fields) && key in keys
    ensures !FailsRow(db, key, fields)
  {
    assert key in BadRows(db, keys, fields) <==> FailsRow(db, key, fields);
  }

  /** Each row of a statement that answered, hydrated. */
  method HydrateAll(db: Database, keys: seq<Key>, fields: seq<Field>) returns (answers: map<Key, Answer>)
    requires !Fails(db, keys, fields)
    ensures answers == EachAlone(db, keys, fields)
  {
    hide Alone;
    answers := map[];
    for i := 0 to |keys|
      invariant answers == EachAlone(db, keys[..i], fields)
    {
      assert keys[..i + 1] == keys[..i] + [keys[i]];
      NotABadRow(db, keys, fields, keys[i]);
      if keys[i] in db.existing {
        var answer := Hydrate(db, keys[i], fields);
        answers := answers[keys[i] := answer];
      }
    }
    assert keys[..|keys|] == keys;
  }

  /** One batch, or its halves when it does not read as a whole: the rows as each
      reads alone, for a number of statements the undeliverable rows bound. */
  method ReadRows(db: Database, keys: seq<Key>, fields: seq<Field>)
    returns (r: Result<map<Key, Answer>, Raised>, statements: nat)
    requires Distinct(keys)
    ensures r.Ok? <==> db.canReadOn || !Fails(db, keys, fields)
    ensures r.Ok? ==> r.value == EachAlone(db, keys, fields)
    ensures statements <= Budget(|keys|, |BadRows(db, keys, fields)|, |fields|) ==
      1 + |BadRows(db, keys, fields)| * (2 * CeilLog2(|keys|) + |fields|)
    ensures !Fails(db, keys, fields) || r.Err? ==> statements == 1
    decreases |keys|
  {
    hide Alone, FailsRow, EachAlone;
    statements := 1;
    if !Fails(db, keys, fields) {
      var answers := HydrateAll(db, keys, fields);
      return Ok(answers), statements;
    }
    if !db.canReadOn {
      return Err(StatementFailed), statements;
    }
    if |keys| == 1 {
      OneBadRow(db, keys, fields);
      var alone, columns := Diagnose(db, keys[0], fields);
      var answers := if alone.None? then map[] else map[keys[0] := alone.value];
      return Ok(answers), statements + columns;
    }
    var middle := |keys| / 2;
    HalvesSplitTheBadRows(db, keys, middle, fields);
    HalvesSplitTheAnswers(db, keys, middle, fields);
    assert keys != [];
    HalvesFitTheBudget(|keys|, |BadRows(db, keys[..middle], fields)|, |BadRows(db, keys[middle..], fields)|, |fields|);
    var left, leftStatements := ReadRows(db, keys[..middle], fields);
    var right, rightStatements := ReadRows(db, keys[middle..], fields);
    r := Ok(left.value + right.value);
    statements := statements + leftStatements + rightStatements;
  }

  // ---- the whole read ----

  const BATCH_SIZE := 500

  /** A key as a caller writes it; text is converted as the key's own field converts it. */
  datatype Written = Number(key: Key) | Text(text: string)

  /** The conversion of text, or None where it raises. */
  type Parse = string -> Option<Key>

  function Held(parse: Parse, written: Written): Option<Key> {
    match written
    case Number(key) => Some(key)
    case Text(text) => parse(text)
  }

  predicate AllHeld(parse: Parse, asked: seq<Written>) {
    forall written <- asked :: Held(parse, written).Some?
  }

  function HeldKeys(parse: Parse, asked: seq<Written>): (keys: seq<Key>)
    requires AllHeld(parse, asked)
    ensures |keys| == |asked|
    ensures forall i | 0 <= i < |asked| :: Held(parse, asked[i]) == Some(keys[i])
  {
    seq(|asked|, i requires 0 <= i < |asked| => Held(parse, asked[i]).value)
  }

  datatype ReadError = BadKey | BatchFailed

  /** Keys a statement takes: the batch size, or the connection's parameter limit where that is less. */
  function BatchStep(limit: nat): (n: nat)
    ensures 1 <= n <= 500 && (limit == 0 || n <= limit) && (n == 500 || n == limit)
  {
    if limit == 0 || BATCH_SIZE <= limit then BATCH_SIZE else limit
  }

  function Batches(n: nat, step: nat): nat
    requires 1 <= step
  {
    if n == 0 then 0 else if n <= step then 1 else 1 + Batches(n - step, step)
  }

  /** They are the least number of steps that hold n keys. */
  lemma {:induction false} BatchesHoldTheKeys(n: nat, step: nat)
    requires 1 <= step
    ensures (Batches(n, step) - 1) * step < n || n == 0 == Batches(n, step)
    ensures n <= Batches(n, step) * step
    decreases n
  {
    if n > step { BatchesHoldTheKeys(n - step, step); }
  }

  /** The rows the keys asked for name, each read alone, under the key as asked and
      in the order first asked; a key with no row is left out. */
  function Expected(db: Database, parse: Parse, asked: seq<Written>, fields: seq<Field>): seq<(Written, Answer)>
    requires AllHeld(parse, asked)
    decreases |asked|
  {
    if asked == [] then []
    else
      var n := |asked| - 1;
      var key := Held(parse, asked[n]).value;
      var answer := if key in db.existing then [(asked[n], Alone(db, key, fields))] else [];
      Expected(db, parse, asked[..n], fields) + answer
  }

  /** The key is held as one whose row exists. */
  predicate NamesARow(db: Database, parse: Parse, written: Written) {
    Held(parse, written).Some? && Held(parse, written).value in db.existing
  }

  /** An answer for each of these keys that names a row, and what that row says alone. */
  predicate AnswersEach(db: Database, parse: Parse, asked: seq<Written>, fields: seq<Field>,
                        answers: seq<(Written, Answer)>) {
    && (forall written <- asked :: written in Firsts(answers) <==> NamesARow(db, parse, written))
    && (forall i | 0 <= i < |answers| ::
      NamesARow(db, parse, answers[i].0) && answers[i].1 == Alone(db, Held(parse, answers[i].0).value, fields))
  }

  /** One key more, that is not among them: answered last when it names a row. */
  lemma OneMoreAnswer(db: Database, parse: Parse, asked: seq<Written>, key: Written, fields: seq<Field>,
                      before: seq<(Written, Answer)>, all: seq<(Written, Answer)>)
    requires AllHeld(parse, asked + [key]) && key !in asked && Held(parse, key).Some?
    requires InOrderSeen(Firsts(before), asked) && AnswersEach(db, parse, asked, fields, before)
    requires all == before + if NamesARow(db, parse, key)
      then [(key, Alone(db, Held(parse, key).value, fields))] else []
    ensures AnswersEach(db, parse, asked + [key], fields, all)
  {
    hide Alone, FirstAt;
    var keys := Firsts(all);
    assert keys == Firsts(before) + if NamesARow(db, parse, key) then [key] else [];
    forall written | written in asked + [key] ensures written in keys <==> NamesARow(db, parse, written) {
      assert written in asked || written == key;
    }
  }

  /** The expected answers follow the order of the keys. */
  lemma {:induction false} ExpectedInOrder(db: Database, parse: Parse, asked: seq<Written>, fields: seq<Field>)
    requires AllHeld(parse, asked) && Distinct(asked)
    ensures InOrderSeen(Firsts(Expected(db, parse, asked, fields)), asked)
    ensures AnswersEach(db, parse, asked, fields, Expected(db, parse, asked, fields))
    decreases |asked|
  {
    hide Alone, AnswersEach, InOrderSeen;
    if asked == [] {
      NoAnswers(db, parse, fields);
    } else {
      var n := |asked| - 1;
      var before, all := Expected(db, parse, asked[..n], fields), Expected(db, parse, asked, fields);
      ExpectedInOrder(db, parse, asked[..n], fields);
      InOrderSeenOfMore(Firsts(before), asked, n);
      assert asked[n] !in asked[..n] && asked == asked[..n] + [asked[n]];
      FirstAtOnce(asked, asked[n], n);
      OneMoreAnswer(db, parse, asked[..n], asked[n], fields, before, all);
      InOrderSeenAppended(Firsts(before), asked[n], asked);
      assert Firsts(all) == if NamesARow(db, parse, asked[n])
        then Firsts(before) + [asked[n]] else Firsts(before);
    }
  }

  lemma NoAnswers(db: Database, parse: Parse, fields: seq<Field>)
    ensures AnswersEach(db, parse, [], fields, []) && InOrderSeen<Written>(Firsts<Written, Answer>([]), [])
  { }

  lemma OneMoreBatch(db: Database, keys: seq<Key>, start: nat, end: nat, fields: seq<Field>)
    requires Distinct(keys) && start <= end <= |keys|
    ensures EachAlone(db, keys[..end], fields) ==
      EachAlone(db, keys[..start], fields) + EachAlone(db, keys[start..end], fields)
    ensures |BadRows(db, keys[..end], fields)| ==
      |BadRows(db, keys[..start], fields)| + |BadRows(db, keys[start..end], fields)|
    ensures Fails(db, keys[start..end], fields) ==> Fails(db, keys, fields)
    ensures Fails(db, keys[..end], fields) ==> Fails(db, keys[..start], fields) || Fails(db, keys[start..end], fields)
  {
    hide Alone, FailsRow;
    assert keys[..end][..start] == keys[..start] && keys[..end][start..] == keys[start..end];
    HalvesSplitTheBadRows(db, keys[..end], start, fields);
    HalvesSplitTheAnswers(db, keys[..end], start, fields);
    assert BadRows(db, keys[start..end], fields) <= BadRows(db, keys, fields);
    if Fails(db, keys[..end], fields) {
      var key :| key in BadRows(db, keys[..end], fields);
      assert key in keys[..start] || key in keys[start..end];
      assert key in BadRows(db, keys[..start], fields) || key in BadRows(db, keys[start..end], fields);
    }
  }

  /** A batch's budget in terms of the step. */
  lemma BudgetOfABatch(n: nat, f: nat, c: nat, step: nat)
    requires n <= step
    ensures Budget(n, f, c) <= 1 + f * (2 * CeilLog2(step) + c)
  {
    CeilLog2Grows(n, step);
    ScaledBound(f, 2 * CeilLog2(n) + c, 2 * CeilLog2(step) + c);
  }

  /** Reads the distinct keys batch by batch, in key order under a lock. */
  method ReadBatches(db: Database, inTurn: seq<Key>, fields: seq<Field>, step: nat)
    returns (r: Result<map<Key, Answer>, Raised>, statements: nat)
    requires Distinct(inTurn) && 1 <= step
    ensures r.Ok? <==> db.canReadOn || !Fails(db, inTurn, fields)
    ensures r.Ok? ==> r.value == EachAlone(db, inTurn, fields)
    ensures r.Ok? ==>
      statements <= Batches(|inTurn|, step) + |BadRows(db, inTurn, fields)| * (2 * CeilLog2(step) + |fields|)
  {
    hide EachAlone, BadRows, Fails;
    ghost var each := 2 * CeilLog2(step) + |fields|;
    var found: map<Key, Answer> := map[];
    statements := 0;
    var start := 0;
    ghost var batches := 0;
    NoKeysYet(db, fields);
    assert inTurn[..0] == [];
    while start < |inTurn|
      invariant 0 <= start <= |inTurn|
      invariant found == EachAlone(db, inTurn[..start], fields)
      invariant db.canReadOn || !Fails(db, inTurn[..start], fields)
      invariant batches + Batches(|inTurn| - start, step) == Batches(|inTurn|, step)
      invariant statements <= batches + |BadRows(db, inTurn[..start], fields)| * each
    {
      var end := if start + step <= |inTurn| then start + step else |inTurn|;
      OneMoreBatch(db, inTurn, start, end, fields);
      DistinctSlice(inTurn, start, end);
      var batch, cost := ReadRows(db, inTurn[start..end], fields);
      BudgetOfABatch(end - start, |BadRows(db, inTurn[start..end], fields)|, |fields|, step);
      statements := statements + cost;
      if batch.Err? { return Err(batch.error), statements; }
      Distribute(|BadRows(db, inTurn[..start], fields)|, |BadRows(db, inTurn[start..end], fields)|, each);
      found := found + batch.value;
      start := end;
      batches := batches + 1;
    }
    assert inTurn[..|inTurn|] == inTurn;
    r := Ok(found);
  }

  lemma NoKeysYet(db: Database, fields: seq<Field>)
    ensures EachAlone(db, [], fields) == map[] && BadRows(db, [], fields) == {} && !Fails(db, [], fields)
  { }

  lemma DistinctSlice(keys: seq<Key>, start: nat, end: nat)
    requires Distinct(keys) && start <= end <= |keys|
    ensures Distinct(keys[start..end])
  { }

  lemma Distribute(a: int, b: int, c: int)
    ensures (a + b) * c == a * c + b * c
  { }

  lemma SameElementsSameRead(db: Database, a: seq<Key>, b: seq<Key>, fields: seq<Field>)
    requires Elements(a) == Elements(b)
    ensures EachAlone(db, a, fields) == EachAlone(db, b, fields) && BadRows(db, a, fields) == BadRows(db, b, fields)
    ensures Fails(db, a, fields) <==> Fails(db, b, fields)
  {
    hide Alone, FailsRow;
    assert forall key :: key in a <==> key in Elements(a);
    assert forall key :: key in b <==> key in Elements(b);
  }

  /** What a caller gets: every existing key asked for, once, in first-asked order,
      as the row reads alone, whatever the batch size, the duplicates and the lock. */
  method ReadSchedules(db: Database, parse: Parse, pks: seq<Written>, fields: seq<Field>, lock: bool, limit: nat)
    returns (r: Result<seq<(Written, Answer)>, ReadError>, statements: nat)
    ensures r == Err(BadKey) <==> !AllHeld(parse, pks)
    ensures AllHeld(parse, pks) ==>
      (r == Err(BatchFailed) <==> !db.canReadOn && Fails(db, HeldKeys(parse, pks), fields))
    ensures r.Ok? ==> AllHeld(parse, FirstSeen(pks)) && r.value == Expected(db, parse, FirstSeen(pks), fields)
    ensures r.Ok? ==> InOrderSeen(Firsts(r.value), pks) && AnswersEach(db, parse, pks, fields, r.value)
    ensures r.Ok? ==> AllHeld(parse, pks) && var wanted := FirstSeen(HeldKeys(parse, FirstSeen(pks)));
      var each := 2 * CeilLog2(BatchStep(limit)) + |fields|;
      statements <= Batches(|wanted|, BatchStep(limit)) + |BadRows(db, wanted, fields)| * each
  {
    hide Alone, FailsRow, BadRows, Fails, EachAlone, HeldKeys, AllHeld, Expected, InOrderSeen, AnswersEach, Elements;
    statements := 0;
    var asked := FirstSeen(pks);
    SameHeld(parse, pks, asked);
    if !AllHeld(parse, asked) { return Err(BadKey), statements; }
    var keys := HeldKeys(parse, asked);
    var wanted := FirstSeen(keys);
    var inTurn := if lock then Sort(wanted) else wanted;
    SameElementsSameRead(db, wanted, keys, fields);
    SameElementsSameRead(db, inTurn, wanted, fields);
    SameElementsSameRead(db, HeldKeys(parse, pks), keys, fields);
    AscendingIsDistinct(inTurn, wanted, lock);
    var read: Result<map<Key, Answer>, Raised>;
    read, statements := ReadBatches(db, inTurn, fields, BatchStep(limit));
    if read.Err? { return Err(BatchFailed), statements; }
    var answers := Collect(db, parse, asked, fields, keys, read.value);
    r := Ok(answers);
    ExpectedInOrder(db, parse, asked, fields);
    FirstSeenInOrder(pks);
    InOrderTwice(Firsts(answers), asked, pks);
    AnswersTheSame(db, parse, pks, asked, fields, answers);
  }

  lemma AnswersTheSame(db: Database, parse: Parse, pks: seq<Written>, asked: seq<Written>, fields: seq<Field>,
                       answers: seq<(Written, Answer)>)
    requires Elements(pks) == Elements(asked) && AnswersEach(db, parse, asked, fields, answers)
    ensures AnswersEach(db, parse, pks, fields, answers)
  {
    hide Alone;
    forall written | written in pks ensures written in asked { assert written in Elements(pks); }
  }

  /** The answers under the keys as asked, in that order. */
  method Collect(db: Database, parse: Parse, asked: seq<Written>, fields: seq<Field>, keys: seq<Key>,
                 found: map<Key, Answer>)
    returns (answers: seq<(Written, Answer)>)
    requires AllHeld(parse, asked) && keys == HeldKeys(parse, asked)
    requires found == EachAlone(db, keys, fields)
    ensures answers == Expected(db, parse, asked, fields)
  {
    hide Alone;
    answers := [];
    for i := 0 to |asked|
      invariant AllHeld(parse, asked[..i])
      invariant answers == Expected(db, parse, asked[..i], fields)
    {
      assert asked[..i + 1][..i] == asked[..i];
      assert Held(parse, asked[i]) == Some(keys[i]) && keys[i] in keys;
      if keys[i] in found { answers := answers + [(asked[i], found[keys[i]])]; }
    }
    assert asked[..|asked|] == asked;
  }

  lemma AscendingIsDistinct(inTurn: seq<Key>, wanted: seq<Key>, lock: bool)
    requires Distinct(wanted) && inTurn == if lock then Sort(wanted) else wanted
    ensures Distinct(inTurn) && |inTurn| == |wanted|
  { }

  /** Keys asked twice change nothing: they are held, and as the same keys, exactly when each is once. */
  lemma SameHeld(parse: Parse, pks: seq<Written>, asked: seq<Written>)
    requires Elements(pks) == Elements(asked)
    ensures AllHeld(parse, pks) <==> AllHeld(parse, asked)
    ensures AllHeld(parse, pks) ==> Elements(HeldKeys(parse, pks)) == Elements(HeldKeys(parse, asked))
  {
    assert forall w :: w in pks <==> w in Elements(pks);
    assert forall w :: w in asked <==> w in Elements(asked);
    if AllHeld(parse, pks) {
      HeldIncluded(parse, pks, asked);
      HeldIncluded(parse, asked, pks);
    }
  }

  lemma HeldIncluded(parse: Parse, a: seq<Written>, b: seq<Written>)
    requires AllHeld(parse, a) && AllHeld(parse, b) && forall w <- a :: w in b
    ensures Elements(HeldKeys(parse, a)) <= Elements(HeldKeys(parse, b))
  {
    var keys, others := HeldKeys(parse, a), HeldKeys(parse, b);
    forall key <- keys ensures key in others {
      var i :| 0 <= i < |a| && keys[i] == key;
      assert a[i] in b;
      var j :| 0 <= j < |b| && b[j] == a[i];
      assert others[j] == key;
    }
  }
}
