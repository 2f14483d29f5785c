/** The dynamic UPDATE behind PATCH requests: a statement text and its arguments, compiled from a three-state patch. */
module GatePatch {
  import opened Prelude
  import opened Payload
  import opened Decimal

  /** A column value: text, a number, or a jsonb document. */
  datatype Cell = Null | Text(text: string) | Number(number: int) | Document(json: Json)

  type Row = map<string, Cell>

  /** A field of a patch: absent, explicitly null, or a value. */
  datatype Omittable<T> = Omittable(sent: bool, isNull: bool, value: T)

  datatype Patch = Patch(
    name: Option<string>,
    openConfig: Omittable<Json>, closeConfig: Omittable<Json>, statusConfig: Omittable<Json>,
    metaConfig: Option<seq<Json>>, statusRules: Option<seq<Json>>, customStatuses: Option<seq<Json>>,
    ttlSeconds: Omittable<int>,
    statusTransitions: Option<seq<Json>>)

  const COLUMNS := ["name", "open_config", "close_config", "status_config", "meta_config", "status_rules",
                    "custom_statuses", "ttl_seconds", "status_transitions"]

  // ---------- what a patch asks for ----------

  function OfText(f: Option<string>): Option<Cell> {
    if f.None? then None else Some(Text(f.value))
  }

  function OfConfig(f: Omittable<Json>): Option<Cell> {
    if !f.sent then None else if f.isNull then Some(Cell.Null) else Some(Document(f.value))
  }

  function OfNumber(f: Omittable<int>): Option<Cell> {
    if !f.sent then None else if f.isNull then Some(Cell.Null) else Some(Cell.Number(f.value))
  }

  function OfList(f: Option<seq<Json>>): Option<Cell> {
    if f.None? then None else Some(Document(Arr(f.value)))
  }

  /** The new value of a column, if the patch has one. */
  function Wanted(p: Patch, column: string): Option<Cell> {
    match column
    case "name" => OfText(p.name)
    case "open_config" => OfConfig(p.openConfig)
    case "close_config" => OfConfig(p.closeConfig)
    case "status_config" => OfConfig(p.statusConfig)
    case "meta_config" => OfList(p.metaConfig)
    case "status_rules" => OfList(p.statusRules)
    case "custom_statuses" => OfList(p.customStatuses)
    case "ttl_seconds" => OfNumber(p.ttlSeconds)
    case "status_transitions" => OfList(p.statusTransitions)
    case _ => None
  }

  /** A row with the wanted values in place of its own. */
  function Overlay(want: string -> Option<Cell>, row: Row): Row {
    map c | c in row :: if want(c).Some? then want(c).value else row[c]
  }

  /** The patched row: sent fields replaced, null ones cleared, all others kept. */
  function Patched(p: Patch, row: Row): Row {
    Overlay(c => Wanted(p, c), row)
  }

  // ---------- what a statement does ----------

  function DigitRun(s: string): (i: nat)
    ensures i <= |s| && AllDigits(s[..i]) && (i < |s| ==> !IsDigit(s[i]))
  {
    if |s| == 0 || !IsDigit(s[0]) then 0 else
      var j := DigitRun(s[1..]);
      assert s[..j + 1] == [s[0]] + s[1..][..j];
      j + 1
  }

  /** Reading a placeholder after its dollar sign: a number, perhaps a jsonb cast. */
  function ReadNumber(s: string): Option<nat> {
    var d := DigitRun(s);
    if d == 0 || (s[d..] != "" && s[d..] != "::jsonb") then None else Some(Decimal.Number(s[..d]))
  }

  /** Reading one assignment of a SET list: a column, " = $", a placeholder. */
  function ReadAssignment(s: string): Option<(string, nat)> {
    var i := IndexOf(s, ' ');
    var rest := s[i..];
    if |rest| < 4 || rest[..4] != " = $" then None else
      var n := ReadNumber(rest[4..]);
      if n.None? then None else Some((s[..i], n.value))
  }

  datatype Assignment = Assignment(column: string, placeholder: nat)

  function ReadAll(sets: seq<string>): Option<seq<Assignment>> {
    if |sets| == 0 then Some([]) else
      var before, a := ReadAll(sets[..|sets| - 1]), ReadAssignment(sets[|sets| - 1]);
      if before.None? || a.None? then None else Some(before.value + [Assignment(a.value.0, a.value.1)])
  }

  predicate Assigns(list: seq<Assignment>, column: string) {
    exists i :: 0 <= i < |list| && list[i].column == column
  }

  /** Carrying out assignments on a row: no column twice, every placeholder bound to its argument. */
  function CarryOut(list: seq<Assignment>, args: seq<Cell>, row: Row): Option<Row> {
    if |list| == 0 then Some(row) else
      var rest, a := list[..|list| - 1], list[|list| - 1];
      var before := CarryOut(rest, args, row);
      if before.None? || a.column !in row || !(1 <= a.placeholder <= |args|) || Assigns(rest, a.column) then None
      else Some(before.value[a.column := args[a.placeholder - 1]])
  }

  function ExecuteSets(sets: seq<string>, args: seq<Cell>, row: Row): Option<Row> {
    var list := ReadAll(sets);
    if list.None? then None else CarryOut(list.value, args, row)
  }

  /** The assignments of a SET list are separated by a comma and a space. */
  function SplitList(text: string): seq<string>
    decreases |text|
  {
    var i := IndexOf(text, ',');
    if i + 1 < |text| && text[i + 1] == ' ' then [text[..i]] + SplitList(text[i + 2..]) else [text]
  }

  /** Executing the text of a SET list on the row found by $1. */
  function Execute(setList: string, args: seq<Cell>, row: Row): Option<Row> {
    ExecuteSets(SplitList(setList), args, row)
  }

  /** strings.Join(sets, ", ") */
  function JoinList(sets: seq<string>): string {
    if |sets| == 0 then "" else if |sets| == 1 then sets[0] else sets[0] + [','] + (" " + JoinList(sets[1..]))
  }

  lemma FirstItemSplitsOff(head: string, rest: string)
    requires ',' !in head
    ensures SplitList(head + [','] + (" " + rest)) == [head] + SplitList(rest)
  {
    var text := head + [','] + (" " + rest);
    FirstIsBetween(',', head, " " + rest);
    assert text[..|head|] == head && text[|head| + 1] == ' ';
    assert text[|head| + 2..] == rest;
  }

  lemma {:induction false} JoinedListSplits(sets: seq<string>)
    requires |sets| > 0 && forall k :: 0 <= k < |sets| ==> ',' !in sets[k]
    ensures SplitList(JoinList(sets)) == sets
    decreases |sets|
  {
    if |sets| == 1 {
      assert IndexOf(sets[0], ',') == |sets[0]|;
    } else {
      JoinedListSplits(sets[1..]);
      FirstItemSplitsOff(sets[0], JoinList(sets[1..]));
    }
  }

  // ---------- the compiler ----------

  /** "column = $n" or "column = $n::jsonb" */
  function Placeholder(column: string, n: nat, jsonb: bool): string {
    column + [' '] + ("= $" + (Numeral(n) + if jsonb then "::jsonb" else ""))
  }

  lemma DigitsAreRead(digits: string, rest: string)
    requires AllDigits(digits) && (rest == "" || !IsDigit(rest[0]))
    ensures DigitRun(digits + rest) == |digits|
  {
    var s := digits + rest;
    var d := DigitRun(s);
    assert forall k :: 0 <= k < |digits| ==> s[k] == digits[k] && digits[k] in digits;
    assert forall k :: 0 <= k < d ==> s[..d][k] == s[k] && s[..d][k] in s[..d];
    assert rest != "" ==> s[|digits|] == rest[0];
  }

  lemma NumberIsRead(digits: string, cast: string)
    requires AllDigits(digits) && digits != "" && (cast == "" || cast == "::jsonb")
    ensures ReadNumber(digits + cast) == Some(Decimal.Number(digits))
  {
    DigitsAreRead(digits, cast);
    assert (digits + cast)[..|digits|] == digits && (digits + cast)[|digits|..] == cast;
  }

  lemma AssignmentIsRead(column: string, number: string)
    requires ' ' !in column && ReadNumber(number).Some?
    ensures ReadAssignment(column + [' '] + ("= $" + number)) == Some((column, ReadNumber(number).value))
  {
    var s := column + [' '] + ("= $" + number);
    FirstIsBetween(' ', column, "= $" + number);
    assert s[..|column|] == column && s[|column|..] == " = $" + number;
    assert (" = $" + number)[..4] == " = $" && (" = $" + number)[4..] == number;
  }

  lemma PlaceholderReadsBack(column: string, n: nat, jsonb: bool)
    requires ' ' !in column
    ensures ReadAssignment(Placeholder(column, n, jsonb)) == Some((column, n))
  {
    var cast := if jsonb then "::jsonb" else "";
    NumeralReadsBack(n);
    NumberIsRead(Numeral(n), cast);
    AssignmentIsRead(column, Numeral(n) + cast);
  }

  /** Assignment k names argument k + 2, the value its column wants, and no column occurs twice. */
  ghost predicate Numbered(want: string -> Option<Cell>, list: seq<Assignment>, args: seq<Cell>) {
    && |args| == |list| + 1
    && (forall k :: 0 <= k < |list| ==> list[k].placeholder == k + 2 && want(list[k].column) == Some(args[k + 1]))
    && (forall j, k :: 0 <= j < k < |list| ==> list[j].column != list[k].column)
  }

  /** These columns have been compiled, and nothing else: exactly the wanted ones are assigned. */
  ghost predicate Compiled(want: string -> Option<Cell>, columns: seq<string>, list: seq<Assignment>, args: seq<Cell>) {
    && Numbered(want, list, args)
    && (forall k :: 0 <= k < |list| ==> list[k].column in columns)
    && (forall c :: c in columns && want(c).Some? ==> Assigns(list, c))
  }

  lemma AddColumn(want: string -> Option<Cell>, columns: seq<string>, column: string,
                                     list: seq<Assignment>, args: seq<Cell>)
    requires Compiled(want, columns, list, args) && column !in columns
    ensures want(column).None? ==> Compiled(want, columns + [column], list, args)
    ensures want(column).Some? ==>
      Compiled(want, columns + [column], list + [Assignment(column, |list| + 2)], args + [want(column).value])
  {
    if want(column).Some? {
      var list' := list + [Assignment(column, |list| + 2)];
      assert list'[|list|].column == column;
      forall c | Assigns(list, c)
        ensures Assigns(list', c)
      {
        var i :| 0 <= i < |list| && list[i].column == c;
        assert list'[i].column == c;
      }
    }
  }

  /** The outcome of a numbered list: its columns replaced, all others kept. */
  ghost predicate Replaces(list: seq<Assignment>, args: seq<Cell>, row: Row, after: Row)
    requires |args| == |list| + 1
  {
    && after.Keys == row.Keys
    && (forall i :: 0 <= i < |list| && list[i].column in row ==> after[list[i].column] == args[i + 1])
    && (forall c :: c in row && !Assigns(list, c) ==> after[c] == row[c])
  }

  /** A numbered list is accepted, and replaces the columns it assigns and nothing else. */
  lemma {:induction false} NumberedCarriesOut(want: string -> Option<Cell>, list: seq<Assignment>, args: seq<Cell>,
                                              row: Row)
    requires Numbered(want, list, args) && forall k :: 0 <= k < |list| ==> list[k].column in row
    ensures CarryOut(list, args, row).Some? && Replaces(list, args, row, CarryOut(list, args, row).value)
    decreases |list|
  {
    if |list| > 0 {
      var m := |list| - 1;
      var rest, fewer := list[..m], args[..m + 1];
      NumberedCarriesOut(want, rest, fewer, row);
      MoreArguments(rest, fewer, args, row);
      var before := CarryOut(rest, args, row).value;
      var column := list[m].column;
      assert !Assigns(rest, column);
      LastReplaces(list, args, row, before, before[column := args[m + 1]]);
    }
  }

  /** Arguments beyond those a list names make no difference. */
  lemma {:induction false} MoreArguments(list: seq<Assignment>, fewer: seq<Cell>, args: seq<Cell>, row: Row)
    requires |fewer| <= |args| && forall k :: 0 <= k < |fewer| ==> fewer[k] == args[k]
    requires CarryOut(list, fewer, row).Some?
    ensures CarryOut(list, args, row) == CarryOut(list, fewer, row)
    decreases |list|
  {
    if |list| > 0 {
      MoreArguments(list[..|list| - 1], fewer, args, row);
    }
  }

  lemma LastReplaces(list: seq<Assignment>, args: seq<Cell>, row: Row, before: Row, after: Row)
    requires |list| > 0 && |args| == |list| + 1 && list[|list| - 1].column in row
    requires Replaces(list[..|list| - 1], args[..|list|], row, before)
      && !Assigns(list[..|list| - 1], list[|list| - 1].column)
    requires after == before[list[|list| - 1].column := args[|list|]]
    ensures Replaces(list, args, row, after)
  {
    var m := |list| - 1;
    var rest := list[..m];
    assert forall i :: 0 <= i < m ==> rest[i] == list[i] && list[i].column != list[m].column by {
      forall i | 0 <= i < m
        ensures list[i].column != list[m].column
      {
        assert rest[i] == list[i];
      }
    }
    forall c | c in row && !Assigns(list, c)
      ensures after[c] == row[c]
    {
      assert list[m].column != c;
      assert !Assigns(rest, c);
    }
  }

  lemma WantedColumnsAreListed(p: Patch, column: string)
    requires Wanted(p, column).Some?
    ensures column in COLUMNS
  {
  }

  /** A compiled statement overlays what is wanted, and nothing else. */
  lemma CompiledOverlays(want: string -> Option<Cell>, columns: seq<string>,
                                            list: seq<Assignment>, args: seq<Cell>, row: Row)
    requires Compiled(want, columns, list, args)
    requires forall c :: want(c).Some? ==> c in columns
    requires forall c :: c in columns ==> c in row
    ensures CarryOut(list, args, row) == Some(Overlay(want, row))
  {
    NumberedCarriesOut(want, list, args, row);
    var after := CarryOut(list, args, row).value;
    forall c | c in row
      ensures after[c] == Overlay(want, row)[c]
    {
      if Assigns(list, c) {
        var i :| 0 <= i < |list| && list[i].column == c;
        assert want(list[i].column) == Some(args[i + 1]);
      }
    }
    assert after == Overlay(want, row);
  }

  /** A field the builder looks at: its column, whether its placeholder is cast, and its new value if sent. */
  datatype Field = Field(column: string, jsonb: bool, cell: Option<Cell>)

  /** The fields of a patch in the builder's order. */
  function Fields(p: Patch): seq<Field> {
    [Field("name", false, OfText(p.name)),
     Field("open_config", true, OfConfig(p.openConfig)),
     Field("close_config", true, OfConfig(p.closeConfig)),
     Field("status_config", true, OfConfig(p.statusConfig)),
     Field("meta_config", true, OfList(p.metaConfig)),
     Field("status_rules", true, OfList(p.statusRules)),
     Field("custom_statuses", true, OfList(p.customStatuses)),
     Field("ttl_seconds", false, OfNumber(p.ttlSeconds)),
     Field("status_transitions", true, OfList(p.statusTransitions))]
  }

  /** The statement text and arguments after these fields: the next placeholder is always one past the arguments. */
  function Compile(gateId: string, fields: seq<Field>): (seq<string>, seq<Cell>) {
    if |fields| == 0 then ([], [Text(gateId)]) else
      var f := fields[|fields| - 1];
      var (sets, args) := Compile(gateId, fields[..|fields| - 1]);
      if f.cell.None? then (sets, args)
      else (sets + [Placeholder(f.column, |args| + 1, f.jsonb)], args + [f.cell.value])
  }

  /** Each column once, with a plain name. */
  ghost predicate WellNamed(columns: seq<string>) {
    && (forall j, k :: 0 <= j < k < |columns| ==> columns[j] != columns[k])
    && (forall k :: 0 <= k < |columns| ==> ' ' !in columns[k] && ',' !in columns[k])
  }

  /** The assignments of these fields, without their text. */
  function Listed(fields: seq<Field>): (list: seq<Assignment>) {
    if |fields| == 0 then [] else
      var f, before := fields[|fields| - 1], Listed(fields[..|fields| - 1]);
      if f.cell.None? then before else before + [Assignment(f.column, |before| + 2)]
  }

  lemma {:induction false} CompileHasNoCommas(gateId: string, fields: seq<Field>)
    requires forall k :: 0 <= k < |fields| ==> ',' !in fields[k].column
    ensures forall k :: 0 <= k < |Compile(gateId, fields).0| ==> ',' !in Compile(gateId, fields).0[k]
    decreases |fields|
  {
    if |fields| > 0 {
      var f, n := fields[|fields| - 1], |Compile(gateId, fields[..|fields| - 1]).1| + 1;
      CompileHasNoCommas(gateId, fields[..|fields| - 1]);
      NumeralReadsBack(n);
      assert ',' !in Placeholder(f.column, n, f.jsonb);
    }
  }

  /** The compiled text reads back as those assignments. */
  lemma {:induction false} CompileReadsBack(gateId: string, fields: seq<Field>)
    requires forall k :: 0 <= k < |fields| ==> ' ' !in fields[k].column
    ensures var (sets, args) := Compile(gateId, fields);
      |args| == |sets| + 1 == |Listed(fields)| + 1 && args[0] == Text(gateId) && ReadAll(sets) == Some(Listed(fields))
    decreases |fields|
  {
    if |fields| > 0 {
      var m := |fields| - 1;
      CompileReadsBack(gateId, fields[..m]);
      var (sets, args) := Compile(gateId, fields[..m]);
      var f := fields[m];
      if f.cell.Some? {
        PlaceholderReadsBack(f.column, |args| + 1, f.jsonb);
        assert (sets + [Placeholder(f.column, |args| + 1, f.jsonb)])[..|sets|] == sets;
      }
    }
  }

  /** The assignments of the first m columns are numbered, distinct and complete. */
  lemma {:induction false} ListedIsCompiled(gateId: string, want: string -> Option<Cell>, columns: seq<string>,
                                            fields: seq<Field>, m: nat)
    requires WellNamed(columns) && m <= |fields| == |columns|
    requires forall k :: 0 <= k < |fields| ==> fields[k].column == columns[k] && fields[k].cell == want(columns[k])
    ensures |Compile(gateId, fields[..m]).1| == |Listed(fields[..m])| + 1
    ensures Compiled(want, columns[..m], Listed(fields[..m]), Compile(gateId, fields[..m]).1)
    decreases m
  {
    if m > 0 {
      var k := m - 1;
      ListedIsCompiled(gateId, want, columns, fields, k);
      assert fields[..m][..k] == fields[..k] && fields[..m][k] == fields[k];
      assert columns[..m] == columns[..k] + [columns[k]];
      AddColumn(want, columns[..k], columns[k], Listed(fields[..k]), Compile(gateId, fields[..k]).1);
    }
  }

  lemma ColumnIsPlain(k: nat)
    requires k < 9
    ensures ' ' !in COLUMNS[k] && ',' !in COLUMNS[k]
  {
  }

  lemma ColumnsDiffer()
    ensures forall j, k :: 0 <= j < k < |COLUMNS| ==> COLUMNS[j] != COLUMNS[k]
  {
  }

  lemma ColumnsAreWellNamed()
    ensures |COLUMNS| == 9 && WellNamed(COLUMNS)
  {
    ColumnsDiffer();
    forall k | 0 <= k < 9
      ensures ' ' !in COLUMNS[k] && ',' !in COLUMNS[k]
    {
      ColumnIsPlain(k);
    }
  }

  lemma FieldFollowsItsColumn(p: Patch, k: nat)
    requires k < 9
    ensures Fields(p)[k].column == COLUMNS[k] && Fields(p)[k].cell == Wanted(p, COLUMNS[k])
  {
  }

  /** Executing a compiled statement overlays the values of its fields. */
  lemma CompileOverlays(gateId: string, want: string -> Option<Cell>, columns: seq<string>, fields: seq<Field>,
                        row: Row)
    requires WellNamed(columns) && |fields| == |columns|
    requires forall k :: 0 <= k < |fields| ==> fields[k].column == columns[k] && fields[k].cell == want(columns[k])
    requires forall c :: want(c).Some? ==> c in columns
    requires forall c :: c in columns ==> c in row
    ensures var (sets, args) := Compile(gateId, fields);
      && |args| == |sets| + 1
      && args[0] == Text(gateId)
      && ExecuteSets(sets, args, row) == Some(Overlay(want, row))
      && (sets != [] ==> Execute(JoinList(sets), args, row) == Some(Overlay(want, row)))
  {
    CompileHasNoCommas(gateId, fields);
    if Compile(gateId, fields).0 != [] {
      JoinedListSplits(Compile(gateId, fields).0);
    }
    CompileReadsBack(gateId, fields);
    ListedIsCompiled(gateId, want, columns, fields, |fields|);
    assert fields[..|fields|] == fields && columns[..|fields|] == columns;
    CompiledOverlays(want, columns, Listed(fields), Compile(gateId, fields).1, row);
  }

  /** The statement carries the patch to this row: $1 is the gate, and the assignments do what the patch asks. */
  ghost predicate Carries(sets: seq<string>, args: seq<Cell>, gateId: string, p: Patch, row: Row) {
    && |args| == |sets| + 1
    && args[0] == Text(gateId)
    && (sets == [] ==> Patched(p, row) == row)
    && (sets != [] ==> Execute(JoinList(sets), args, row) == Some(Patched(p, row)))
  }

  /** Executing the compiled statement applies the patch. */
  lemma CompileIsPatched(gateId: string, p: Patch, fields: seq<Field>, row: Row)
    requires HasColumns(row) && fields == Fields(p)
    ensures var (sets, args) := Compile(gateId, fields); Carries(sets, args, gateId, p, row)
  {
    var want := c => Wanted(p, c);
    ColumnsAreWellNamed();
    forall k | 0 <= k < 9
      ensures fields[k].column == COLUMNS[k] && fields[k].cell == want(COLUMNS[k])
    {
      FieldFollowsItsColumn(p, k);
    }
    forall c | want(c).Some?
      ensures c in COLUMNS
    {
      WantedColumnsAreListed(p, c);
    }
    CompileOverlays(gateId, want, COLUMNS, fields, row);
  }

  /** An assignment of a column to placeholder n as the builder writes it: every column is cast to jsonb
      but the name and the time to live. */
  ghost predicate IsWritten(text: string, n: nat) {
    exists j: nat :: j < 9 && text == COLUMNS[j] + " = $" + Numeral(n) + CastOf(COLUMNS[j])
  }

  ghost function CastOf(column: string): string {
    if column == "name" || column == "ttl_seconds" then "" else "::jsonb"
  }

  lemma CastFollowsTheColumn(p: Patch, j: nat, n: nat)
    requires j < 9
    ensures IsWritten(Placeholder(Fields(p)[j].column, n, Fields(p)[j].jsonb), n)
  {
    var f := Fields(p)[j];
    assert f.column == COLUMNS[j] && f.jsonb == (f.column != "name" && f.column != "ttl_seconds");
    assert Placeholder(f.column, n, f.jsonb) == COLUMNS[j] + " = $" + Numeral(n) + CastOf(COLUMNS[j]);
  }

  /** The generated texts, in order, are assignments to the placeholders from $2 on, with their casts. */
  lemma {:induction false} TextsAreWritten(gateId: string, p: Patch, m: nat)
    requires m <= 9
    ensures var (sets, args) := Compile(gateId, Fields(p)[..m]);
      |args| == |sets| + 1 && forall k :: 0 <= k < |sets| ==> IsWritten(sets[k], k + 2)
  {
    if m > 0 {
      TextsAreWritten(gateId, p, m - 1);
      assert Fields(p)[..m][..m - 1] == Fields(p)[..m - 1];
      CastFollowsTheColumn(p, m - 1, |Compile(gateId, Fields(p)[..m - 1]).1| + 1);
    }
  }

  /** One conditional block of the builder: if the field is sent, append its assignment and argument. */
  method AppendSet(column: string, jsonb: bool, cell: Option<Cell>, sets: seq<string>, args: seq<Cell>, n: nat,
                   ghost gateId: string, ghost done: seq<Field>)
    returns (sets': seq<string>, args': seq<Cell>, n': nat, ghost done': seq<Field>)
    requires (sets, args) == Compile(gateId, done) && n == |args| + 1
    ensures done' == done + [Field(column, jsonb, cell)]
    ensures (sets', args') == Compile(gateId, done') && n' == |args'| + 1
  {
    sets', args', n' := sets, args, n;
    done' := done + [Field(column, jsonb, cell)];
    assert done'[..|done|] == done;
    if cell.Some? {
      sets' := sets + [Placeholder(column, n, jsonb)];
      args' := args + [cell.value];
      n' := n + 1;
    }
  }

  /** The builder: nine conditional blocks sharing one numbering. */
  method BuildSets(gateId: string, p: Patch) returns (sets: seq<string>, args: seq<Cell>)
    ensures (sets, args) == Compile(gateId, Fields(p))
    ensures forall k :: 0 <= k < |sets| ==> IsWritten(sets[k], k + 2)
  {
    var n := 2;
    ghost var done: seq<Field> := [];
    sets, args := [], [Text(gateId)];
    sets, args, n, done := AppendSet("name", false, OfText(p.name), sets, args, n, gateId, done);
    sets, args, n, done := AppendSet("open_config", true, OfConfig(p.openConfig), sets, args, n, gateId, done);
    sets, args, n, done := AppendSet("close_config", true, OfConfig(p.closeConfig), sets, args, n, gateId, done);
    sets, args, n, done := AppendSet("status_config", true, OfConfig(p.statusConfig), sets, args, n, gateId, done);
    sets, args, n, done := AppendSet("meta_config", true, OfList(p.metaConfig), sets, args, n, gateId, done);
    sets, args, n, done := AppendSet("status_rules", true, OfList(p.statusRules), sets, args, n, gateId, done);
    sets, args, n, done := AppendSet("custom_statuses", true, OfList(p.customStatuses), sets, args, n, gateId, done);
    sets, args, n, done := AppendSet("ttl_seconds", false, OfNumber(p.ttlSeconds), sets, args, n, gateId, done);
    sets, args, n, done :=
      AppendSet("status_transitions", true, OfList(p.statusTransitions), sets, args, n, gateId, done);
    assert done == Fields(p);
    assert Fields(p)[..9] == Fields(p);
    TextsAreWritten(gateId, p, 9);
  }

  ghost predicate HasColumns(row: Row) {
    forall c :: c in COLUMNS ==> c in row
  }

  /** The generated SET list, executed as its text reads, applies exactly the patch to any row of the table;
      where there is nothing to set, the patch changes nothing. */
  method BuildUpdate(gateId: string, p: Patch) returns (sets: seq<string>, args: seq<Cell>)
    ensures forall row: Row :: HasColumns(row) ==> Carries(sets, args, gateId, p, row)
  {
    sets, args := BuildSets(gateId, p);
    forall row: Row | HasColumns(row)
      ensures Carries(sets, args, gateId, p, row)
    {
      CompileIsPatched(gateId, p, Fields(p), row);
    }
  }

  // ---------- what becomes of each column ----------

  /** A text column: kept unless sent. */
  ghost predicate TextObeys(f: Option<string>, before: Cell, after: Cell) {
    && (f.None? ==> after == before)
    && (f.Some? ==> after == Text(f.value))
  }

  /** A configuration: kept unless sent, cleared by null, replaced by a value. */
  ghost predicate ConfigObeys(f: Omittable<Json>, before: Cell, after: Cell) {
    && (!f.sent ==> after == before)
    && (f.sent && f.isNull ==> after == Cell.Null)
    && (f.sent && !f.isNull ==> after == Document(f.value))
  }

  /** A number: kept unless sent, cleared by null, replaced by a value. */
  ghost predicate NumberObeys(f: Omittable<int>, before: Cell, after: Cell) {
    && (!f.sent ==> after == before)
    && (f.sent && f.isNull ==> after == Cell.Null)
    && (f.sent && !f.isNull ==> after == Cell.Number(f.value))
  }

  /** A list: kept unless sent, and an empty one is stored as such. */
  ghost predicate ListObeys(f: Option<seq<Json>>, before: Cell, after: Cell) {
    && (f.None? ==> after == before)
    && (f.Some? ==> after == Document(Arr(f.value)))
  }

  /** What PATCH promises, column by column. */
  ghost predicate Obeys(p: Patch, before: Row, after: Row)
    requires HasColumns(before) && after.Keys == before.Keys
  {
    ColumnsAreThere(before);
    && TextObeys(p.name, before["name"], after["name"])
    && ConfigObeys(p.openConfig, before["open_config"], after["open_config"])
    && ConfigObeys(p.closeConfig, before["close_config"], after["close_config"])
    && ConfigObeys(p.statusConfig, before["status_config"], after["status_config"])
    && ListObeys(p.metaConfig, before["meta_config"], after["meta_config"])
    && ListObeys(p.statusRules, before["status_rules"], after["status_rules"])
    && ListObeys(p.customStatuses, before["custom_statuses"], after["custom_statuses"])
    && NumberObeys(p.ttlSeconds, before["ttl_seconds"], after["ttl_seconds"])
    && ListObeys(p.statusTransitions, before["status_transitions"], after["status_transitions"])
    && (forall c :: c in before && c !in COLUMNS ==> after[c] == before[c])
  }

  lemma ColumnsAreThere(row: Row)
    requires HasColumns(row)
    ensures "name" in row && "open_config" in row && "close_config" in row && "status_config" in row
    ensures "meta_config" in row && "status_rules" in row && "custom_statuses" in row
    ensures "ttl_seconds" in row && "status_transitions" in row
  {
    assert COLUMNS[0] in row && COLUMNS[1] in row && COLUMNS[2] in row && COLUMNS[3] in row && COLUMNS[4] in row;
    assert COLUMNS[5] in row && COLUMNS[6] in row && COLUMNS[7] in row && COLUMNS[8] in row;
  }

  lemma ConfigsObey(p: Patch, row: Row)
    requires "open_config" in row && "close_config" in row && "status_config" in row
    ensures
      var after := Patched(p, row);
      && ConfigObeys(p.openConfig, row["open_config"], after["open_config"])
      && ConfigObeys(p.closeConfig, row["close_config"], after["close_config"])
      && ConfigObeys(p.statusConfig, row["status_config"], after["status_config"])
  {
  }

  lemma ListsObey(p: Patch, row: Row)
    requires "meta_config" in row && "status_rules" in row && "custom_statuses" in row && "status_transitions" in row
    ensures
      var after := Patched(p, row);
      && ListObeys(p.metaConfig, row["meta_config"], after["meta_config"])
      && ListObeys(p.statusRules, row["status_rules"], after["status_rules"])
      && ListObeys(p.customStatuses, row["custom_statuses"], after["custom_statuses"])
      && ListObeys(p.statusTransitions, row["status_transitions"], after["status_transitions"])
  {
  }

  lemma NameAndTtlObey(p: Patch, row: Row)
    requires "name" in row && "ttl_seconds" in row
    ensures
      var after := Patched(p, row);
      TextObeys(p.name, row["name"], after["name"])
          && NumberObeys(p.ttlSeconds, row["ttl_seconds"], after["ttl_seconds"])
  {
  }

  lemma OthersStay(p: Patch, row: Row)
    ensures Patched(p, row).Keys == row.Keys
    ensures forall c :: c in row && c !in COLUMNS ==> Patched(p, row)[c] == row[c]
  {
    forall c | c in row && c !in COLUMNS
      ensures Patched(p, row)[c] == row[c]
    {
      if Wanted(p, c).Some? {
        WantedColumnsAreListed(p, c);
      }
    }
  }

  /** The patched row is what PATCH promises. */
  lemma PatchedObeys(p: Patch, row: Row, after: Row)
    requires HasColumns(row) && after == Patched(p, row)
    ensures after.Keys == row.Keys && Obeys(p, row, after)
  {
    ColumnsAreThere(row);
    ConfigsObey(p, row);
    ListsObey(p, row);
    NameAndTtlObey(p, row);
    OthersStay(p, row);
  }

  // ---------- two patches in a row ----------

  function Later<T>(first: Omittable<T>, second: Omittable<T>): Omittable<T> {
    if second.sent then second else first
  }

  function LaterOf<T>(first: Option<T>, second: Option<T>): Option<T> {
    if second.Some? then second else first
  }

  /** The fields of both patches, the second winning where both are sent. */
  function Merge(p1: Patch, p2: Patch): Patch {
    Patch(
      LaterOf(p1.name, p2.name),
      Later(p1.openConfig, p2.openConfig),
      Later(p1.closeConfig, p2.closeConfig),
      Later(p1.statusConfig, p2.statusConfig),
      LaterOf(p1.metaConfig, p2.metaConfig),
      LaterOf(p1.statusRules, p2.statusRules),
      LaterOf(p1.customStatuses, p2.customStatuses),
      Later(p1.ttlSeconds, p2.ttlSeconds),
      LaterOf(p1.statusTransitions, p2.statusTransitions))
  }

  /** One patch after the other is the merged patch. */
  lemma PatchesCompose(p1: Patch, p2: Patch, row: Row)
    ensures Patched(p2, Patched(p1, row)) == Patched(Merge(p1, p2), row)
  {
    forall c | c in row
      ensures Patched(p2, Patched(p1, row))[c] == Patched(Merge(p1, p2), row)[c]
    {
      assert Wanted(Merge(p1, p2), c) == LaterOf(Wanted(p1, c), Wanted(p2, c));
    }
    assert Patched(p2, Patched(p1, row)).Keys == Patched(Merge(p1, p2), row).Keys;
  }

  // ---------- the repository operation ----------

  datatype RepositoryError = NotFound | Failed

  /** The gates table, by id. */
  class GateRepository {
    var gates: map<string, Row>

    ghost predicate Valid()
      reads this
    {
      forall id :: id in gates ==> HasColumns(gates[id])
    }

    constructor ()
      ensures Valid() && gates == map[]
    {
      gates := map[];
    }

    /** PATCH: a patch with no field sent only reads the gate; any other runs the generated statement. */
    method Update(gateId: string, p: Patch, dbOk: bool) returns (r: Result<Row, RepositoryError>)
      requires Valid()
      modifies this
      ensures Valid()
      ensures !dbOk ==> r == Err(Failed) && gates == old(gates)
      ensures dbOk && gateId !in old(gates) ==> r == Err(NotFound) && gates == old(gates)
      ensures dbOk && gateId in old(gates) ==>
        r == Ok(Patched(p, old(gates)[gateId])) && gates == old(gates)[gateId := Patched(p, old(gates)[gateId])]
      ensures dbOk && gateId in old(gates) ==>
        && gates.Keys == old(gates).Keys && r == Ok(gates[gateId])
        && (forall id :: id in gates && id != gateId ==> gates[id] == old(gates)[id])
        && gates[gateId].Keys == old(gates)[gateId].Keys && Obeys(p, old(gates)[gateId], gates[gateId])
    {
      var sets, args := BuildUpdate(gateId, p);
      if !dbOk {
        return Err(Failed);
      }
      if gateId !in gates {
        return Err(NotFound);
      }
      assert Carries(sets, args, gateId, p, gates[gateId]);
      PatchedObeys(p, gates[gateId], Patched(p, gates[gateId]));
      if |sets| == 0 {
        return Ok(gates[gateId]);
      }
      var row := Execute(JoinList(sets), args, gates[args[0].text]).value;
      gates := gates[gateId := row];
      r := Ok(row);
    }
  }
}
