/** The instruction-index to source-location map, read from forc's JSON source
    map or from the line table of its debug object. */
module DebugInfo {
  import opened Prelude
  import opened FunctionNames

  type SourceMap = map<nat, SourceLoc>

  /** Inserts entries in order; a later entry replaces an earlier one. */
  function InsertAll(entries: seq<(nat, SourceLoc)>): SourceMap {
    if entries == [] then map[] else InsertAll(Front(entries))[Last(entries).0 := Last(entries).1]
  }

  lemma InsertOne(entries: seq<(nat, SourceLoc)>, e: (nat, SourceLoc))
    ensures InsertAll(entries + [e]) == InsertAll(entries)[e.0 := e.1]
  {
    assert Front(entries + [e]) == entries;
  }

  lemma {:induction false} InsertAllKeys(entries: seq<(nat, SourceLoc)>, k: nat)
    ensures k in InsertAll(entries) <==> exists i :: 0 <= i < |entries| && entries[i].0 == k
  {
    if entries != [] {
      InsertAllKeys(Front(entries), k);
      if exists i :: 0 <= i < |Front(entries)| && Front(entries)[i].0 == k {
        var i :| 0 <= i < |Front(entries)| && Front(entries)[i].0 == k;
        assert entries[i].0 == k;
      }
      if i :| 0 <= i < |entries| && entries[i].0 == k && i < |entries| - 1 {
        assert Front(entries)[i].0 == k;
      }
    }
  }

  /** Entries for the same index agree. */
  predicate Functional(entries: seq<(nat, SourceLoc)>) {
    forall i, j :: 0 <= i < |entries| && 0 <= j < |entries| && entries[i].0 == entries[j].0 ==>
      entries[i].1 == entries[j].1
  }

  lemma {:induction false} InsertAllValue(entries: seq<(nat, SourceLoc)>, i: nat)
    requires Functional(entries) && i < |entries|
    ensures entries[i].0 in InsertAll(entries) && InsertAll(entries)[entries[i].0] == entries[i].1
  {
    if i < |entries| - 1 {
      InsertAllValue(Front(entries), i);
    }
  }

  /** Two agreeing lists with the same entries build the same map. */
  lemma SameEntriesSameMap(a: seq<(nat, SourceLoc)>, b: seq<(nat, SourceLoc)>)
    requires Functional(b)
    requires forall i :: 0 <= i < |a| ==> a[i] in b
    requires forall j :: 0 <= j < |b| ==> b[j] in a
    ensures InsertAll(a) == InsertAll(b)
  {
    assert Functional(a);
    forall k: nat ensures k in InsertAll(a) <==> k in InsertAll(b) {
      InsertAllKeys(a, k);
      InsertAllKeys(b, k);
    }
    forall k: nat | k in InsertAll(a) ensures InsertAll(a)[k] == InsertAll(b)[k] {
      InsertAllKeys(a, k);
      var i :| 0 <= i < |a| && a[i].0 == k;
      InsertAllValue(a, i);
      var j :| 0 <= j < |b| && b[j] == a[i];
      InsertAllValue(b, j);
    }
  }

  // ----- the JSON map

  datatype Span = Span(path: nat, line: u32, column: u32)

  /** `spans` lists the object's members in key order. */
  datatype JsonMap = JsonMap(paths: seq<Path>, spans: seq<(string, Span)>)

  predicate AllDigits(s: string) {
    forall i :: 0 <= i < |s| ==> '0' <= s[i] <= '9'
  }

  /** A key read as a `usize`: digits, after an optional plus sign. */
  function ParseIndex(key: string): Option<nat> {
    var digits := if key != [] && key[0] == '+' then key[1..] else key;
    if digits == [] || !AllDigits(digits) || DigitsValue(digits) >= TWO_64 then None
    else Some(DigitsValue(digits))
  }

  /** One member read as an entry. */
  function ReadSpan(j: JsonMap, resolve: Path -> Path, i: nat): Option<(nat, SourceLoc)>
    requires i < |j.spans|
  {
    var (key, span) := j.spans[i];
    var index := ParseIndex(key);
    if index.None? || span.path >= |j.paths| then None
    else Some((index.value, SourceLoc(resolve(j.paths[span.path]), span.line, span.column)))
  }

  predicate Readable(j: JsonMap, resolve: Path -> Path, n: nat)
    requires n <= |j.spans|
  {
    forall i :: 0 <= i < n ==> ReadSpan(j, resolve, i).Some?
  }

  function ReadSpans(j: JsonMap, resolve: Path -> Path, n: nat): seq<(nat, SourceLoc)>
    requires n <= |j.spans| && Readable(j, resolve, n)
  {
    seq(n, i requires 0 <= i < n => ReadSpan(j, resolve, i).value)
  }

  lemma NextSpan(j: JsonMap, resolve: Path -> Path, n: nat)
    requires n < |j.spans| && Readable(j, resolve, n) && ReadSpan(j, resolve, n).Some?
    ensures var e := ReadSpan(j, resolve, n).value;
            InsertAll(ReadSpans(j, resolve, n + 1)) == InsertAll(ReadSpans(j, resolve, n))[e.0 := e.1]
  {
    var e := ReadSpan(j, resolve, n).value;
    assert ReadSpans(j, resolve, n + 1) == ReadSpans(j, resolve, n) + [e];
    InsertOne(ReadSpans(j, resolve, n), e);
  }

  /** Reads the JSON map; fails exactly when some member is unreadable. */
  method FromJson(j: JsonMap, resolve: Path -> Path) returns (r: Result<SourceMap>)
    ensures r.Ok? <==> Readable(j, resolve, |j.spans|)
    ensures r.Ok? ==> r.value == InsertAll(ReadSpans(j, resolve, |j.spans|))
  {
    var entries: SourceMap := map[];
    for n := 0 to |j.spans|
      invariant Readable(j, resolve, n)
      invariant entries == InsertAll(ReadSpans(j, resolve, n))
    {
      match ReadSpan(j, resolve, n) {
        case None =>
          return Err(if ParseIndex(j.spans[n].0).None? then "source map key is not an instruction index"
                     else "source map path index out of range");
        case Some((index, loc)) =>
          entries := entries[index := loc];
          NextSpan(j, resolve, n);
      }
    }
    return Ok(entries);
  }

  // ----- documents

  /** A member of a document: an instruction index, an index into the path
      table, and a place in that file. */
  datatype Listed = Listed(index: nat, path: nat, line: u32, column: u32)

  function MemberOf(l: Listed): (string, Span) {
    (Decimal(l.index), Span(l.path, l.line, l.column))
  }

  /** The document with this path table and these members. */
  function JsonOf(paths: seq<Path>, listed: seq<Listed>): (j: JsonMap)
    ensures |j.spans| == |listed|
  {
    JsonMap(paths, seq(|listed|, i requires 0 <= i < |listed| => MemberOf(listed[i])))
  }

  /** The entry a member stands for: its own file, line and column. */
  function LocationOf(paths: seq<Path>, resolve: Path -> Path, l: Listed): (nat, SourceLoc)
    requires l.path < |paths|
  {
    (l.index, SourceLoc(resolve(paths[l.path]), l.line, l.column))
  }

  predicate InRange(paths: seq<Path>, l: Listed) {
    l.index < TWO_64 && l.path < |paths|
  }

  predicate AllInRange(paths: seq<Path>, listed: seq<Listed>) {
    forall i :: 0 <= i < |listed| ==> InRange(paths, listed[i])
  }

  function Locations(paths: seq<Path>, resolve: Path -> Path, listed: seq<Listed>): (entries: seq<(nat, SourceLoc)>)
    requires AllInRange(paths, listed)
    ensures |entries| == |listed|
  {
    seq(|listed|, i requires 0 <= i < |listed| && InRange(paths, listed[i]) => LocationOf(paths, resolve, listed[i]))
  }

  /** A numeral is read as its number if that fits 64 bits, also after a plus. */
  lemma NumeralRead(n: nat)
    ensures ParseIndex(Decimal(n)) == if n < TWO_64 then Some(n) else None
    ensures ParseIndex(['+'] + Decimal(n)) == if n < TWO_64 then Some(n) else None
  {
    DecimalReadsBack(n);
    assert (['+'] + Decimal(n))[1..] == Decimal(n);
  }

  /** Nothing but digits after an optional plus is read. */
  lemma OtherKeysRefused(key: string, i: nat)
    requires key == [] || key == ['+'] || (i < |key| && !('0' <= key[i] <= '9') && !(i == 0 && key[0] == '+'))
    ensures ParseIndex(key) == None
  {
    if key != [] && key[0] == '+' && i > 0 && i < |key| {
      assert key[1..][i - 1] == key[i];
    }
  }

  lemma MemberRead(paths: seq<Path>, listed: seq<Listed>, resolve: Path -> Path, i: nat)
    requires i < |listed|
    ensures ReadSpan(JsonOf(paths, listed), resolve, i) ==
            if InRange(paths, listed[i]) then Some(LocationOf(paths, resolve, listed[i])) else None
  {
    NumeralRead(listed[i].index);
    assert JsonOf(paths, listed).spans[i] == MemberOf(listed[i]);
  }

  /** A document is readable exactly when every index fits and every path is in
      its table; and then reading it gives the entries it lists, in order. */
  lemma JsonReadsBack(paths: seq<Path>, listed: seq<Listed>, resolve: Path -> Path)
    ensures Readable(JsonOf(paths, listed), resolve, |listed|) <==> AllInRange(paths, listed)
    ensures AllInRange(paths, listed) ==>
              ReadSpans(JsonOf(paths, listed), resolve, |listed|) == Locations(paths, resolve, listed)
  {
    forall i | 0 <= i < |listed|
      ensures ReadSpan(JsonOf(paths, listed), resolve, i) ==
              if InRange(paths, listed[i]) then Some(LocationOf(paths, resolve, listed[i])) else None
    {
      MemberRead(paths, listed, resolve, i);
    }
    if !AllInRange(paths, listed) {
      var i :| 0 <= i < |listed| && !InRange(paths, listed[i]);
      assert ReadSpan(JsonOf(paths, listed), resolve, i) == None;
    }
  }

  // ----- the line table

  /** A decoded line-table row; a file index out of range has no file. */
  datatype Row = Row(endSequence: bool, address: nat, file: Option<Path>, line: nat, column: nat)

  /** The entry a row stands for: end-of-sequence rows, rows at column 0, rows
      without a line and rows without a file stand for none. */
  function ReadRow(row: Row): Option<(nat, SourceLoc)> {
    if row.endSequence || row.column == 0 || row.line == 0 || row.file.None? then None
    else Some((row.address, SourceLoc(row.file.value, row.line % 0x1_0000_0000, row.column % 0x1_0000_0000)))
  }

  function ReadRows(rows: seq<Row>): seq<(nat, SourceLoc)> {
    if rows == [] then []
    else if ReadRow(Last(rows)).None? then ReadRows(Front(rows))
    else ReadRows(Front(rows)) + [ReadRow(Last(rows)).value]
  }

  /** The row places the entry: it ends no sequence, has a file, a line and a
      column, the last two cut to 32 bits. */
  predicate Gives(row: Row, e: (nat, SourceLoc)) {
    && !row.endSequence && row.line != 0 && row.column != 0 && row.file.Some?
    && e == (row.address, SourceLoc(row.file.value, row.line % 0x1_0000_0000, row.column % 0x1_0000_0000))
  }

  /** The entries read are those some row gives. */
  lemma {:induction false} EntriesAreRows(rows: seq<Row>, e: (nat, SourceLoc))
    ensures e in ReadRows(rows) <==> exists i :: 0 <= i < |rows| && Gives(rows[i], e)
  {
    if rows != [] {
      EntriesAreRows(Front(rows), e);
      if i :| 0 <= i < |Front(rows)| && Gives(Front(rows)[i], e) {
        assert Gives(rows[i], e);
      }
      if i :| 0 <= i < |rows| && Gives(rows[i], e) && i < |rows| - 1 {
        assert Gives(Front(rows)[i], e);
      }
      if Gives(Last(rows), e) {
        assert Gives(rows[|rows| - 1], e);
      }
    }
  }

  method FromDwarfRows(rows: seq<Row>) returns (entries: SourceMap)
    ensures entries == InsertAll(ReadRows(rows))
  {
    entries := map[];
    for n := 0 to |rows|
      invariant entries == InsertAll(ReadRows(rows[..n]))
    {
      var row := rows[n];
      assert Front(rows[..n + 1]) == rows[..n] && Last(rows[..n + 1]) == row;
      if row.endSequence {
        continue;
      }
      if row.column == 0 {
        continue;
      }
      if row.line == 0 {
        continue;
      }
      if row.file.None? {
        continue;
      }
      entries := entries[row.address :=
        SourceLoc(row.file.value, row.line % 0x1_0000_0000, row.column % 0x1_0000_0000)];
      InsertOne(ReadRows(rows[..n]), ReadRow(row).value);
    }
    assert rows[..|rows|] == rows;
  }

  // ----- the shifted table forc writes

  /** The state machine's registers, as the row they would emit. Its initial
      values are those of section 6.2.2 of the DWARF 5 standard. */
  function InitialRow(file: Option<Path>): Row {
    Row(false, 0, file, 1, 0)
  }

  /** forc emits a row before filling in the entry it is for, and ends the
      sequence at the last entry's address. */
  function WriteRows(registers: Row, entries: seq<(nat, SourceLoc)>): seq<Row>
    decreases |entries|
  {
    if entries == [] then [registers.(endSequence := true)]
    else
      var (index, loc) := entries[0];
      [registers] + WriteRows(Row(false, index, Some(loc.path), loc.line, loc.column), entries[1..])
  }

  predicate Ascending(entries: seq<(nat, SourceLoc)>) {
    forall i, j :: 0 <= i < j < |entries| ==> entries[i].0 < entries[j].0
  }

  predicate Placed(e: (nat, SourceLoc)) {
    e.1.line >= 1 && e.1.column >= 1
  }

  /** The placed entries, in order. */
  function PlacedEntries(entries: seq<(nat, SourceLoc)>): seq<(nat, SourceLoc)> {
    if entries == [] then []
    else if !Placed(Last(entries)) then PlacedEntries(Front(entries))
    else PlacedEntries(Front(entries)) + [Last(entries)]
  }

  function RowOf(e: (nat, SourceLoc)): Row {
    Row(false, e.0, Some(e.1.path), e.1.line, e.1.column)
  }

  function RowsOf(entries: seq<(nat, SourceLoc)>): (r: seq<Row>)
    ensures |r| == |entries|
  {
    seq(|entries|, i requires 0 <= i < |entries| => RowOf(entries[i]))
  }

  /** The whole table: the registers' row, a row for every entry but the last,
      and the last entry's row with the end-of-sequence mark. */
  lemma {:induction false} TableIsShifted(registers: Row, entries: seq<(nat, SourceLoc)>)
    requires entries != []
    ensures WriteRows(registers, entries) ==
            [registers] + RowsOf(Front(entries)) + [RowOf(Last(entries)).(endSequence := true)]
    decreases |entries|
  {
    var next := RowOf(entries[0]);
    assert WriteRows(registers, entries) == [registers] + WriteRows(next, entries[1..]);
    if |entries| == 1 {
      assert RowsOf(Front(entries)) == [];
    } else {
      TableIsShifted(next, entries[1..]);
      assert [next] + RowsOf(Front(entries[1..])) == RowsOf(Front(entries));
    }
  }

  lemma {:induction false} ReadRowsOf(entries: seq<(nat, SourceLoc)>)
    ensures ReadRows(RowsOf(entries)) == PlacedEntries(entries)
  {
    if entries != [] {
      ReadRowsOf(Front(entries));
      assert Front(RowsOf(entries)) == RowsOf(Front(entries));
    }
  }

  lemma {:induction false} ReadRowsAppend(a: seq<Row>, b: seq<Row>)
    ensures ReadRows(a + b) == ReadRows(a) + ReadRows(b)
  {
    if b == [] {
      assert a + b == a;
    } else {
      ReadRowsAppend(a, Front(b));
      assert Front(a + b) == a + Front(b);
    }
  }

  /** Reading the table back gives the placed entries other than the last. */
  lemma TableReadsBack(file: Option<Path>, entries: seq<(nat, SourceLoc)>)
    requires entries != []
    ensures ReadRows(WriteRows(InitialRow(file), entries)) == PlacedEntries(Front(entries))
  {
    var first, last := InitialRow(file), RowOf(Last(entries)).(endSequence := true);
    TableIsShifted(first, entries);
    ReadRowsAppend([first] + RowsOf(Front(entries)), [last]);
    ReadRowsAppend([first], RowsOf(Front(entries)));
    ReadRowsOf(Front(entries));
    assert ReadRows([first]) == [] && ReadRows([last]) == [] by {
      assert Front([first]) == [] && Front([last]) == [];
    }
  }

  // ----- the two forms compared

  /** The document lists the entries, in whatever order. */
  predicate Renders(paths: seq<Path>, listed: seq<Listed>, resolve: Path -> Path, entries: seq<(nat, SourceLoc)>) {
    && AllInRange(paths, listed)
    && (forall l :: l in Locations(paths, resolve, listed) ==> l in entries)
    && (forall e :: e in entries ==> e in Locations(paths, resolve, listed))
  }

  lemma {:induction false} PlacedAll(entries: seq<(nat, SourceLoc)>)
    requires forall e :: e in entries ==> Placed(e)
    ensures PlacedEntries(entries) == entries
  {
    if entries != [] {
      assert entries == Front(entries) + [Last(entries)];
      PlacedAll(Front(entries));
    }
  }

  lemma {:induction false} PlacedOnly(entries: seq<(nat, SourceLoc)>)
    ensures forall e :: e in PlacedEntries(entries) <==> e in entries && Placed(e)
  {
    if entries != [] {
      PlacedOnly(Front(entries));
      assert entries == Front(entries) + [Last(entries)];
    }
  }

  /** The object form of a map is its JSON form without the entry of highest
      index, exactly when every other entry has a line and a column. */
  lemma {:induction false} ObjectIsJsonMinusLast(
      paths: seq<Path>, listed: seq<Listed>, resolve: Path -> Path, file: Option<Path>, entries: seq<(nat, SourceLoc)>)
    requires entries != [] && Ascending(entries) && Renders(paths, listed, resolve, entries)
    ensures Readable(JsonOf(paths, listed), resolve, |listed|)
    ensures var json := InsertAll(ReadSpans(JsonOf(paths, listed), resolve, |listed|));
            var dwarf := InsertAll(ReadRows(WriteRows(InitialRow(file), entries)));
            dwarf == json - {Last(entries).0} <==> forall e :: e in Front(entries) ==> Placed(e)
  {
    TableReadsBack(file, entries);
    JsonHoldsEntries(paths, listed, resolve, entries);
    WithoutLast(entries);
    FrontAscending(entries);
    PlacedKeepsAll(Front(entries));
  }

  /** A map whose first entry is on line 0: the JSON form has index 0, the
      object form of the same map has not. */
  lemma UnplacedEntryIsLost(resolve: Path -> Path, path: Path, file: Option<Path>)
    ensures var j := JsonMap([path], [("0", Span(0, 0, 1)), ("1", Span(0, 2, 1))]);
            var entries := [(0, SourceLoc(resolve(path), 0, 1)), (1, SourceLoc(resolve(path), 2, 1))];
            && Readable(j, resolve, 2) && ReadSpans(j, resolve, 2) == entries
            && 0 in InsertAll(entries)
            && 0 !in InsertAll(ReadRows(WriteRows(InitialRow(file), entries)))
  {
    var j := JsonMap([path], [("0", Span(0, 0, 1)), ("1", Span(0, 2, 1))]);
    var entries: seq<(nat, SourceLoc)> := [(0, SourceLoc(resolve(path), 0, 1)), (1, SourceLoc(resolve(path), 2, 1))];
    NumeralsRead();
    assert ReadSpan(j, resolve, 0) == Some(entries[0]) && ReadSpan(j, resolve, 1) == Some(entries[1]);
    TableReadsBack(file, entries);
    assert Front(entries) == [entries[0]] && Front([entries[0]]) == [];
  }

  lemma NumeralsRead()
    ensures ParseIndex("0") == Some(0) && ParseIndex("1") == Some(1)
  {
    assert DigitsValue("") == 0 && "0"[..0] == "" && "1"[..0] == "";
  }

  lemma FrontAscending(entries: seq<(nat, SourceLoc)>)
    requires entries != [] && Ascending(entries)
    ensures Ascending(Front(entries))
  {
  }

  lemma JsonHoldsEntries(paths: seq<Path>, listed: seq<Listed>, resolve: Path -> Path, entries: seq<(nat, SourceLoc)>)
    requires Ascending(entries) && Renders(paths, listed, resolve, entries)
    ensures Readable(JsonOf(paths, listed), resolve, |listed|)
    ensures InsertAll(ReadSpans(JsonOf(paths, listed), resolve, |listed|)) == InsertAll(entries)
  {
    var spans := Locations(paths, resolve, listed);
    JsonReadsBack(paths, listed, resolve);
    forall i | 0 <= i < |spans| ensures spans[i] in entries {
      assert spans[i] in spans;
    }
    forall i | 0 <= i < |entries| ensures entries[i] in spans {
      assert entries[i] in entries;
    }
    SameEntriesSameMap(spans, entries);
  }

  /** Dropping the unplaced entries changes the map unless there are none. */
  lemma PlacedKeepsAll(entries: seq<(nat, SourceLoc)>)
    requires Ascending(entries)
    ensures InsertAll(PlacedEntries(entries)) == InsertAll(entries) <==> forall e :: e in entries ==> Placed(e)
  {
    if forall e :: e in entries ==> Placed(e) {
      PlacedAll(entries);
    } else {
      var i :| 0 <= i < |entries| && !Placed(entries[i]);
      MissingUnplaced(entries, entries[i]);
      InsertAllKeys(entries, entries[i].0);
    }
  }

  lemma WithoutLast(entries: seq<(nat, SourceLoc)>)
    requires entries != [] && Ascending(entries)
    ensures InsertAll(entries) - {Last(entries).0} == InsertAll(Front(entries))
  {
    InsertAllKeys(Front(entries), Last(entries).0);
  }

  lemma MissingUnplaced(entries: seq<(nat, SourceLoc)>, e: (nat, SourceLoc))
    requires Ascending(entries) && e in entries && !Placed(e)
    ensures e.0 !in InsertAll(PlacedEntries(entries))
  {
    var placed := PlacedEntries(entries);
    PlacedOnly(entries);
    InsertAllKeys(placed, e.0);
    forall k | 0 <= k < |placed| ensures placed[k].0 != e.0 {
      assert placed[k] in entries;
    }
  }

  // ----- the first entry

  /** The location of the lowest index, if the map has one. */
  ghost predicate IsFirst(m: SourceMap, first: Option<SourceLoc>) {
    match first
    case None => m == map[]
    case Some(loc) => exists k :: k in m && m[k] == loc && forall i :: i in m ==> k <= i
  }

  method First(m: SourceMap) returns (first: Option<SourceLoc>)
    ensures IsFirst(m, first)
  {
    if m == map[] {
      return None;
    }
    var k :| k in m;
    var todo := m.Keys - {k};
    while todo != {}
      invariant todo <= m.Keys && k in m
      invariant forall i :: i in m && i !in todo ==> k <= i
      decreases |todo|
    {
      var i :| i in todo;
      if i < k {
        k := i;
      }
      todo := todo - {i};
    }
    return Some(m[k]);
  }

  lemma FirstIsUnique(m: SourceMap, a: Option<SourceLoc>, b: Option<SourceLoc>)
    requires IsFirst(m, a) && IsFirst(m, b)
    ensures a == b
  {
    if a.Some? && b.Some? {
      var i :| i in m && m[i] == a.value && forall k :: k in m ==> i <= k;
      var j :| j in m && m[j] == b.value && forall k :: k in m ==> j <= k;
      assert i == j;
    }
  }

  /** Of a map with at least two entries, both forms start a recording at the
      same place; the object form of a one-entry map is empty. */
  lemma FirstSurvivesShift(entries: seq<(nat, SourceLoc)>, first: Option<SourceLoc>)
    requires entries != [] && Ascending(entries)
    requires IsFirst(InsertAll(entries), first)
    ensures |entries| == 1 ==> InsertAll(Front(entries)) == map[]
    ensures |entries| > 1 ==> IsFirst(InsertAll(Front(entries)), first)
  {
    if |entries| > 1 {
      WithoutLast(entries);
      InsertAllKeys(entries, entries[0].0);
      InsertAllKeys(entries, Last(entries).0);
      var m, n := InsertAll(entries), InsertAll(Front(entries));
      assert entries[0].0 in m;
      var k :| k in m && m[k] == first.value && forall i :: i in m ==> k <= i;
      assert k <= entries[0].0 < Last(entries).0;
      assert k in n && n[k] == m[k];
      forall i | i in n ensures k <= i { assert i in m; }
    }
  }
}
