/** Reading a Sway ABI from its JSON value, in the three shapes it comes in. */
module AbiDecoder {
  import opened Prelude

  datatype Json =
    | Null
    | Boolean(b: bool)
    | Number(n: int)
    | Text(s: string)
    | Array(items: seq<Json>)
    | Object(members: map<string, Json>)

  function Member(v: Json, key: string): Json {
    if v.Object? && key in v.members then v.members[key] else Null
  }

  function AsText(v: Json): Option<string> {
    if v.Text? then Some(v.s) else None
  }

  function AsU64(v: Json): Option<nat> {
    if v.Number? && 0 <= v.n < TWO_64 then Some(v.n) else None
  }

  function Items(v: Json): seq<Json> {
    if v.Array? then v.items else []
  }

  datatype AbiParam = AbiParam(name: string, typeName: string)
  datatype AbiFunction = AbiFunction(name: string, inputs: seq<AbiParam>, output: Option<AbiParam>)

  // ----- type tables

  /** `concreteTypes` by id; a later entry replaces an earlier one. */
  function ConcreteTypes(rows: seq<Json>): map<string, string> {
    if rows == [] then map[]
    else
      var id, name := AsText(Member(Last(rows), "concreteTypeId")), AsText(Member(Last(rows), "type"));
      if id.Some? && name.Some? then ConcreteTypes(Front(rows))[id.value := name.value]
      else ConcreteTypes(Front(rows))
  }

  /** `types` by index. */
  function IndexedTypes(rows: seq<Json>): map<nat, string> {
    if rows == [] then map[]
    else
      var id, name := AsU64(Member(Last(rows), "typeId")), AsText(Member(Last(rows), "type"));
      if id.Some? && name.Some? then IndexedTypes(Front(rows))[id.value := name.value]
      else IndexedTypes(Front(rows))
  }

  datatype Tables = Tables(concrete: map<string, string>, indexed: map<nat, string>)

  function TablesOf(doc: Json): Tables {
    Tables(ConcreteTypes(Items(Member(doc, "concreteTypes"))), IndexedTypes(Items(Member(doc, "types"))))
  }

  /** The Sway spelling of a parameter's or an output's type, if it resolves. */
  function TypeName(t: Tables, v: Json): Option<string> {
    if v.Text? && v.s in t.concrete then Some(t.concrete[v.s])
    else
      var id := AsText(Member(v, "concreteTypeId"));
      if id.Some? then if id.value in t.concrete then Some(t.concrete[id.value]) else None
      else
        match Member(v, "type")
        case Text(name) => Some(name)
        case Number(n) => if 0 <= n < TWO_64 && n in t.indexed then Some(t.indexed[n]) else None
        case _ => None
  }

  // ----- functions

  function ReadParam(t: Tables, v: Json): Option<AbiParam> {
    var name, typeName := AsText(Member(v, "name")), TypeName(t, v);
    if typeName.None? then None else Some(AbiParam(if name.Some? then name.value else "", typeName.value))
  }

  /** All the parameters, if each of them resolves. */
  function ReadParams(t: Tables, vs: seq<Json>): Option<seq<AbiParam>> {
    if vs == [] then Some([])
    else
      var before, last := ReadParams(t, Front(vs)), ReadParam(t, Last(vs));
      if before.Some? && last.Some? then Some(before.value + [last.value]) else None
  }

  function ReadOutput(t: Tables, v: Json): Option<Option<AbiParam>> {
    if v.Null? then Some(None)
    else if ReadParam(t, v).Some? then Some(ReadParam(t, v))
    else None
  }

  function ReadFunction(t: Tables, f: Json): Option<AbiFunction> {
    var name := AsText(Member(f, "name"));
    var inputs := ReadParams(t, Items(Member(f, "inputs")));
    var output := ReadOutput(t, Member(f, "output"));
    if name.Some? && inputs.Some? && output.Some? then Some(AbiFunction(name.value, inputs.value, output.value)) else None
  }

  function ReadFunctions(t: Tables, fs: seq<Json>): Option<seq<AbiFunction>> {
    if fs == [] then Some([])
    else
      var before, last := ReadFunctions(t, Front(fs)), ReadFunction(t, Last(fs));
      if before.Some? && last.Some? then Some(before.value + [last.value]) else None
  }

  function Read(doc: Json): Option<seq<AbiFunction>> {
    ReadFunctions(TablesOf(doc), Items(Member(doc, "functions")))
  }

  // ----- what is read, and when

  /** A type resolves as a bare concrete id, by a concrete id, which comes first,
      by its own name, or by an index into the type list; in no other way. */
  lemma TypeTextExactly(t: Tables, v: Json)
    ensures v.Text? ==> TypeName(t, v) == if v.s in t.concrete then Some(t.concrete[v.s]) else None
    ensures v.Object? && "concreteTypeId" in v.members && v.members["concreteTypeId"].Text? ==>
              var id := v.members["concreteTypeId"].s;
              TypeName(t, v) == if id in t.concrete then Some(t.concrete[id]) else None
    ensures v.Object? && !("concreteTypeId" in v.members && v.members["concreteTypeId"].Text?) ==>
              TypeName(t, v) ==
                if "type" !in v.members then None
                else if v.members["type"].Text? then Some(v.members["type"].s)
                else if v.members["type"].Number? && 0 <= v.members["type"].n < TWO_64 && v.members["type"].n in t.indexed
                then Some(t.indexed[v.members["type"].n])
                else None
    ensures !v.Text? && !v.Object? ==> TypeName(t, v) == None
  {
  }

  /** A row with an id and a name replaces what its table said of the id; any
      other row is passed over. */
  lemma RowEntersTable(rows: seq<Json>, row: Json)
    requires row.Object?
    ensures "concreteTypeId" in row.members && row.members["concreteTypeId"].Text?
            && "type" in row.members && row.members["type"].Text? ==>
              ConcreteTypes(rows + [row]) == ConcreteTypes(rows)[row.members["concreteTypeId"].s := row.members["type"].s]
    ensures "typeId" in row.members && row.members["typeId"].Number? && 0 <= row.members["typeId"].n < TWO_64
            && "type" in row.members && row.members["type"].Text? ==>
              IndexedTypes(rows + [row]) == IndexedTypes(rows)[row.members["typeId"].n := row.members["type"].s]
    ensures !("concreteTypeId" in row.members && row.members["concreteTypeId"].Text?) ==>
              ConcreteTypes(rows + [row]) == ConcreteTypes(rows)
    ensures !("typeId" in row.members && row.members["typeId"].Number? && 0 <= row.members["typeId"].n < TWO_64) ==>
              IndexedTypes(rows + [row]) == IndexedTypes(rows)
    ensures !("type" in row.members && row.members["type"].Text?) ==>
              ConcreteTypes(rows + [row]) == ConcreteTypes(rows) && IndexedTypes(rows + [row]) == IndexedTypes(rows)
  {
    assert Front(rows + [row]) == rows;
  }

  /** A function is readable: it has a name, and the types of its parameters and
      of its output, if there is one, resolve. */
  predicate IsReadable(t: Tables, f: Json) {
    && Member(f, "name").Text?
    && (forall i :: 0 <= i < |Items(Member(f, "inputs"))| ==> TypeName(t, Items(Member(f, "inputs"))[i]).Some?)
    && (Member(f, "output").Null? || TypeName(t, Member(f, "output")).Some?)
  }

  lemma {:induction false} ParamsReadable(t: Tables, vs: seq<Json>)
    ensures ReadParams(t, vs).Some? <==> forall i :: 0 <= i < |vs| ==> TypeName(t, vs[i]).Some?
    ensures ReadParams(t, vs).Some? ==>
              |ReadParams(t, vs).value| == |vs| &&
              forall i :: 0 <= i < |vs| ==>
                var p := ReadParams(t, vs).value[i];
                && p.typeName == TypeName(t, vs[i]).value
                && p.name == if Member(vs[i], "name").Text? then Member(vs[i], "name").s else ""
  {
    if vs != [] {
      ParamsReadable(t, Front(vs));
    }
  }

  lemma {:induction false} FunctionReadable(t: Tables, f: Json)
    ensures ReadFunction(t, f).Some? <==> IsReadable(t, f)
  {
    ParamsReadable(t, Items(Member(f, "inputs")));
  }

  lemma {:induction false} FunctionsReadable(t: Tables, fs: seq<Json>)
    ensures ReadFunctions(t, fs).Some? <==> forall i :: 0 <= i < |fs| ==> IsReadable(t, fs[i])
  {
    if fs != [] {
      FunctionsReadable(t, Front(fs));
      FunctionReadable(t, Last(fs));
      if forall i :: 0 <= i < |fs| ==> IsReadable(t, fs[i]) {
        forall i | 0 <= i < |Front(fs)| ensures IsReadable(t, Front(fs)[i]) {
          assert Front(fs)[i] == fs[i];
        }
      }
    }
  }

  /** An ABI is read if and only if every function in it is readable. */
  lemma {:induction false} ReadIffReadable(doc: Json)
    ensures Read(doc).Some? <==>
            forall i :: 0 <= i < |Items(Member(doc, "functions"))| ==>
              IsReadable(TablesOf(doc), Items(Member(doc, "functions"))[i])
  {
    FunctionsReadable(TablesOf(doc), Items(Member(doc, "functions")));
  }

  lemma {:induction false} UnreadableParam(t: Tables, vs: seq<Json>, n: nat)
    requires n <= |vs| && ReadParams(t, vs[..n]).None?
    ensures ReadParams(t, vs).None?
  {
    if n == |vs| {
      assert vs[..n] == vs;
    } else {
      assert Front(vs)[..n] == vs[..n];
      UnreadableParam(t, Front(vs), n);
    }
  }

  lemma {:induction false} UnreadableFunction(t: Tables, fs: seq<Json>, n: nat)
    requires n <= |fs| && ReadFunctions(t, fs[..n]).None?
    ensures ReadFunctions(t, fs).None?
  {
    if n == |fs| {
      assert fs[..n] == fs;
    } else {
      assert Front(fs)[..n] == fs[..n];
      UnreadableFunction(t, Front(fs), n);
    }
  }

  method ReadInputs(t: Tables, vs: seq<Json>) returns (r: Result<seq<AbiParam>>)
    ensures r.Ok? <==> ReadParams(t, vs).Some?
    ensures r.Ok? ==> r.value == ReadParams(t, vs).value
  {
    var inputs: seq<AbiParam> := [];
    for i := 0 to |vs|
      invariant ReadParams(t, vs[..i]) == Some(inputs)
    {
      assert Front(vs[..i + 1]) == vs[..i];
      var input := ReadParam(t, vs[i]);
      if input.None? {
        UnreadableParam(t, vs, i + 1);
        return Err("input without a known type");
      }
      inputs := inputs + [input.value];
    }
    assert vs[..|vs|] == vs;
    return Ok(inputs);
  }

  /** Parses the functions of an ABI; the first one without a name, or with an
      unresolved type, refuses the whole. */
  method FromJson(doc: Json) returns (r: Result<seq<AbiFunction>>)
    ensures r.Ok? <==> Read(doc).Some?
    ensures r.Ok? ==> r.value == Read(doc).value
  {
    var t := TablesOf(doc);
    var fs := Items(Member(doc, "functions"));
    var functions: seq<AbiFunction> := [];
    for i := 0 to |fs|
      invariant ReadFunctions(t, fs[..i]) == Some(functions)
    {
      var f := fs[i];
      assert Front(fs[..i + 1]) == fs[..i];
      var name := AsText(Member(f, "name"));
      if name.None? {
        UnreadableFunction(t, fs, i + 1);
        return Err("function without a name");
      }
      var inputs := ReadInputs(t, Items(Member(f, "inputs")));
      if inputs.Err? {
        UnreadableFunction(t, fs, i + 1);
        return Err(inputs.error);
      }
      var output := ReadOutput(t, Member(f, "output"));
      if output.None? {
        UnreadableFunction(t, fs, i + 1);
        return Err("output without a known type");
      }
      functions := functions + [AbiFunction(name.value, inputs.value, output.value)];
    }
    assert fs[..|fs|] == fs;
    return Ok(functions);
  }

  // ----- lookups

  /** The first function of that name. */
  function FindFunction(fs: seq<AbiFunction>, name: string): Option<AbiFunction> {
    if fs == [] then None else if fs[0].name == name then Some(fs[0]) else FindFunction(fs[1..], name)
  }

  /** Function `i` is the first of that name. */
  predicate IsFirstNamed(fs: seq<AbiFunction>, name: string, i: nat)
    requires i < |fs|
  {
    fs[i].name == name && forall j :: 0 <= j < i ==> fs[j].name != name
  }

  lemma {:induction false} FindsFirstNamed(fs: seq<AbiFunction>, name: string, i: nat)
    requires i < |fs| && IsFirstNamed(fs, name, i)
    ensures FindFunction(fs, name) == Some(fs[i])
  {
    if i > 0 {
      forall j | 0 <= j < i - 1 ensures fs[1..][j].name != name {
        assert fs[1..][j] == fs[j + 1];
      }
      FindsFirstNamed(fs[1..], name, i - 1);
    }
  }

  lemma {:induction false} FindsNone(fs: seq<AbiFunction>, name: string)
    requires forall i :: 0 <= i < |fs| ==> fs[i].name != name
    ensures FindFunction(fs, name) == None
  {
    if fs != [] {
      FindsNone(fs[1..], name);
    }
  }

  function FunctionParams(fs: seq<AbiFunction>, name: string): seq<AbiParam> {
    var f := FindFunction(fs, name);
    if f.Some? then f.value.inputs else []
  }

  function FunctionOutputType(fs: seq<AbiFunction>, name: string): Option<string> {
    var f := FindFunction(fs, name);
    if f.Some? && f.value.output.Some? then Some(f.value.output.value.typeName) else None
  }

  // ----- the three shapes

  /** A type with the two ids it can be referred to by. */
  datatype TypeRow = TypeRow(concreteId: string, typeId: nat, name: string)

  /** A function whose types are rows of the table. */
  datatype Signature = Signature(name: string, inputs: seq<(string, nat)>, output: Option<nat>)

  datatype Shape = ByConcreteId | Inline | ByIndex

  predicate UniqueIds(table: seq<TypeRow>) {
    && (forall i :: 0 <= i < |table| ==> table[i].typeId < TWO_64)
    && (forall i, j :: 0 <= i < j < |table| ==>
          table[i].concreteId != table[j].concreteId && table[i].typeId != table[j].typeId)
  }

  predicate RefersTo(table: seq<TypeRow>, s: Signature) {
    && (forall i :: 0 <= i < |s.inputs| ==> s.inputs[i].1 < |table|)
    && (s.output.Some? ==> s.output.value < |table|)
  }

  function Typed(shape: Shape, name: string, row: TypeRow): Json {
    match shape
    case ByConcreteId => Object(map["name" := Text(name), "concreteTypeId" := Text(row.concreteId)])
    case Inline => Object(map["name" := Text(name), "type" := Text(row.name)])
    case ByIndex => Object(map["name" := Text(name), "type" := Number(row.typeId)])
  }

  /** Only the concrete-id shape writes an output as a bare id. */
  function OutputJson(shape: Shape, row: TypeRow): Json {
    if shape == ByConcreteId then Text(row.concreteId) else Typed(shape, "", row)
  }

  function InputsJson(shape: Shape, table: seq<TypeRow>, inputs: seq<(string, nat)>): (vs: seq<Json>)
    requires forall i :: 0 <= i < |inputs| ==> inputs[i].1 < |table|
    ensures |vs| == |inputs|
  {
    if inputs == [] then []
    else InputsJson(shape, table, Front(inputs)) + [Typed(shape, Last(inputs).0, table[Last(inputs).1])]
  }

  function FunctionJson(shape: Shape, table: seq<TypeRow>, s: Signature): Json
    requires RefersTo(table, s)
  {
    Object(map["name" := Text(s.name), "inputs" := Array(InputsJson(shape, table, s.inputs)),
               "output" := if s.output.Some? then OutputJson(shape, table[s.output.value]) else Null])
  }

  predicate AllRefer(table: seq<TypeRow>, ss: seq<Signature>) {
    forall i :: 0 <= i < |ss| ==> RefersTo(table, ss[i])
  }

  function FunctionsJson(shape: Shape, table: seq<TypeRow>, ss: seq<Signature>): seq<Json>
    requires AllRefer(table, ss)
  {
    if ss == [] then [] else FunctionsJson(shape, table, Front(ss)) + [FunctionJson(shape, table, Last(ss))]
  }

  function ConcreteRow(row: TypeRow): Json {
    Object(map["concreteTypeId" := Text(row.concreteId), "type" := Text(row.name)])
  }

  function IndexedRow(row: TypeRow): Json {
    Object(map["typeId" := Number(row.typeId), "type" := Text(row.name)])
  }

  function ConcreteRows(table: seq<TypeRow>): seq<Json> {
    seq(|table|, i requires 0 <= i < |table| => ConcreteRow(table[i]))
  }

  function IndexedRows(table: seq<TypeRow>): seq<Json> {
    seq(|table|, i requires 0 <= i < |table| => IndexedRow(table[i]))
  }

  function Document(shape: Shape, table: seq<TypeRow>, ss: seq<Signature>): Json
    requires AllRefer(table, ss)
  {
    var functions := Array(FunctionsJson(shape, table, ss));
    match shape
    case ByConcreteId => Object(map["concreteTypes" := Array(ConcreteRows(table)), "functions" := functions])
    case Inline => Object(map["functions" := functions])
    case ByIndex => Object(map["types" := Array(IndexedRows(table)), "functions" := functions])
  }

  function ResolvedInputs(table: seq<TypeRow>, inputs: seq<(string, nat)>): seq<AbiParam>
    requires forall i :: 0 <= i < |inputs| ==> inputs[i].1 < |table|
  {
    if inputs == [] then []
    else ResolvedInputs(table, Front(inputs)) + [AbiParam(Last(inputs).0, table[Last(inputs).1].name)]
  }

  /** What every shape means. */
  function Resolved(table: seq<TypeRow>, s: Signature): AbiFunction
    requires RefersTo(table, s)
  {
    AbiFunction(s.name, ResolvedInputs(table, s.inputs),
                if s.output.Some? then Some(AbiParam("", table[s.output.value].name)) else None)
  }

  function AllResolved(table: seq<TypeRow>, ss: seq<Signature>): seq<AbiFunction>
    requires AllRefer(table, ss)
  {
    if ss == [] then [] else AllResolved(table, Front(ss)) + [Resolved(table, Last(ss))]
  }

  lemma {:induction false} ConcreteLookup(table: seq<TypeRow>, i: nat)
    requires UniqueIds(table) && i < |table|
    ensures var m := ConcreteTypes(ConcreteRows(table));
            table[i].concreteId in m && m[table[i].concreteId] == table[i].name
  {
    var rows := ConcreteRows(table);
    assert Front(rows) == ConcreteRows(Front(table)) && Last(rows) == ConcreteRow(Last(table));
    if i < |table| - 1 {
      ConcreteLookup(Front(table), i);
    }
  }

  lemma {:induction false} IndexedLookup(table: seq<TypeRow>, i: nat)
    requires UniqueIds(table) && i < |table|
    ensures var m := IndexedTypes(IndexedRows(table));
            table[i].typeId in m && m[table[i].typeId] == table[i].name
  {
    var rows := IndexedRows(table);
    assert Front(rows) == IndexedRows(Front(table)) && Last(rows) == IndexedRow(Last(table));
    if i < |table| - 1 {
      IndexedLookup(Front(table), i);
    }
  }

  /** The tables a document of this shape carries. */
  function ShapeTables(shape: Shape, table: seq<TypeRow>): Tables {
    Tables(if shape == ByConcreteId then ConcreteTypes(ConcreteRows(table)) else map[],
           if shape == ByIndex then IndexedTypes(IndexedRows(table)) else map[])
  }

  /** `v` reads as a parameter of this name and type. */
  predicate Reads(t: Tables, v: Json, name: string, typeName: string) {
    ReadParam(t, v) == Some(AbiParam(name, typeName))
  }

  lemma ConcreteIdReads(table: seq<TypeRow>, name: string, i: nat)
    requires UniqueIds(table) && i < |table|
    ensures Reads(ShapeTables(ByConcreteId, table), Typed(ByConcreteId, name, table[i]), name, table[i].name)
    ensures Reads(ShapeTables(ByConcreteId, table), OutputJson(ByConcreteId, table[i]), "", table[i].name)
  {
    ConcreteLookup(table, i);
  }

  lemma TypeIndexReads(table: seq<TypeRow>, name: string, i: nat)
    requires UniqueIds(table) && i < |table|
    ensures Reads(ShapeTables(ByIndex, table), Typed(ByIndex, name, table[i]), name, table[i].name)
  {
    IndexedLookup(table, i);
  }

  lemma InlineReads(table: seq<TypeRow>, name: string, i: nat)
    requires i < |table|
    ensures Reads(ShapeTables(Inline, table), Typed(Inline, name, table[i]), name, table[i].name)
  {
  }

  lemma TypeResolves(shape: Shape, table: seq<TypeRow>, name: string, i: nat)
    requires UniqueIds(table) && i < |table|
    ensures Reads(ShapeTables(shape, table), Typed(shape, name, table[i]), name, table[i].name)
    ensures Reads(ShapeTables(shape, table), OutputJson(shape, table[i]), "", table[i].name)
  {
    match shape {
      case ByConcreteId => ConcreteIdReads(table, name, i);
      case Inline => InlineReads(table, name, i); InlineReads(table, "", i);
      case ByIndex => TypeIndexReads(table, name, i); TypeIndexReads(table, "", i);
    }
  }

  lemma NextParam(t: Tables, vs: seq<Json>, v: Json)
    requires ReadParams(t, vs).Some? && ReadParam(t, v).Some?
    ensures ReadParams(t, vs + [v]) == Some(ReadParams(t, vs).value + [ReadParam(t, v).value])
  {
    assert Front(vs + [v]) == vs;
  }

  lemma NextFunction(t: Tables, fs: seq<Json>, f: Json)
    requires ReadFunctions(t, fs).Some? && ReadFunction(t, f).Some?
    ensures ReadFunctions(t, fs + [f]) == Some(ReadFunctions(t, fs).value + [ReadFunction(t, f).value])
  {
    assert Front(fs + [f]) == fs;
  }

  lemma {:induction false} InputsResolve(shape: Shape, table: seq<TypeRow>, inputs: seq<(string, nat)>)
    requires UniqueIds(table) && forall i :: 0 <= i < |inputs| ==> inputs[i].1 < |table|
    ensures ReadParams(ShapeTables(shape, table), InputsJson(shape, table, inputs)) ==
            Some(ResolvedInputs(table, inputs))
  {
    if inputs != [] {
      InputsResolve(shape, table, Front(inputs));
      TypeResolves(shape, table, Last(inputs).0, Last(inputs).1);
      NextParam(ShapeTables(shape, table), InputsJson(shape, table, Front(inputs)),
                Typed(shape, Last(inputs).0, table[Last(inputs).1]));
    }
  }

  lemma OutputResolves(shape: Shape, table: seq<TypeRow>, output: Option<nat>)
    requires UniqueIds(table) && (output.Some? ==> output.value < |table|)
    ensures ReadOutput(ShapeTables(shape, table),
                       if output.Some? then OutputJson(shape, table[output.value]) else Null) ==
            Some(if output.Some? then Some(AbiParam("", table[output.value].name)) else None)
  {
    if output.Some? {
      TypeResolves(shape, table, "", output.value);
    }
  }

  lemma FunctionResolves(shape: Shape, table: seq<TypeRow>, s: Signature)
    requires UniqueIds(table) && RefersTo(table, s)
    ensures ReadFunction(ShapeTables(shape, table), FunctionJson(shape, table, s)) == Some(Resolved(table, s))
  {
    var f := FunctionJson(shape, table, s);
    assert Member(f, "name") == Text(s.name);
    assert Items(Member(f, "inputs")) == InputsJson(shape, table, s.inputs);
    InputsResolve(shape, table, s.inputs);
    OutputResolves(shape, table, s.output);
  }

  lemma {:induction false} FunctionsResolve(shape: Shape, table: seq<TypeRow>, ss: seq<Signature>)
    requires UniqueIds(table) && AllRefer(table, ss)
    ensures ReadFunctions(ShapeTables(shape, table), FunctionsJson(shape, table, ss)) == Some(AllResolved(table, ss))
  {
    if ss != [] {
      FunctionsResolve(shape, table, Front(ss));
      FunctionResolves(shape, table, Last(ss));
      NextFunction(ShapeTables(shape, table), FunctionsJson(shape, table, Front(ss)),
                   FunctionJson(shape, table, Last(ss)));
    }
  }

  /** Every ABI reads the same from its three shapes. */
  lemma {:induction false} ShapesAgree(shape: Shape, table: seq<TypeRow>, ss: seq<Signature>)
    requires UniqueIds(table) && AllRefer(table, ss)
    ensures Read(Document(shape, table, ss)) == Some(AllResolved(table, ss))
  {
    FunctionsResolve(shape, table, ss);
    DocumentFunctions(shape, table, ss);
    DocumentTables(shape, table, ss);
  }

  lemma DocumentFunctions(shape: Shape, table: seq<TypeRow>, ss: seq<Signature>)
    requires AllRefer(table, ss)
    ensures Items(Member(Document(shape, table, ss), "functions")) == FunctionsJson(shape, table, ss)
  {
  }

  lemma DocumentTables(shape: Shape, table: seq<TypeRow>, ss: seq<Signature>)
    requires AllRefer(table, ss)
    ensures TablesOf(Document(shape, table, ss)) == ShapeTables(shape, table)
  {
    var doc := Document(shape, table, ss);
    assert ConcreteTypes([]) == map[] && IndexedTypes([]) == map[];
    match shape {
      case ByConcreteId =>
        assert Items(Member(doc, "concreteTypes")) == ConcreteRows(table) && Member(doc, "types") == Null;
      case Inline =>
        assert Member(doc, "concreteTypes") == Null && Member(doc, "types") == Null;
      case ByIndex =>
        assert Items(Member(doc, "types")) == IndexedRows(table) && Member(doc, "concreteTypes") == Null;
    }
  }

  /** One function with a reference to an unknown concrete id, in its output or
      in a parameter, refuses the whole ABI. */
  lemma UnknownIdRefused(doc: Json, f: nat, v: Json)
    requires var fs := Items(Member(doc, "functions"));
             f < |fs| && (v == Member(fs[f], "output") || v in Items(Member(fs[f], "inputs")))
    requires v.Object? && Member(v, "concreteTypeId").Text?
    requires Member(v, "concreteTypeId").s !in TablesOf(doc).concrete
    ensures Read(doc).None?
  {
    var t, fs := TablesOf(doc), Items(Member(doc, "functions"));
    assert ReadParam(t, v).None?;
    var inputs := Items(Member(fs[f], "inputs"));
    if v in inputs {
      var i :| 0 <= i < |inputs| && inputs[i] == v;
      assert inputs[..i + 1] == inputs[..i] + [v] && Front(inputs[..i + 1]) == inputs[..i];
      UnreadableParam(t, inputs, i + 1);
    }
    assert ReadFunction(t, fs[f]).None?;
    assert Front(fs[..f + 1]) == fs[..f] && Last(fs[..f + 1]) == fs[f];
    UnreadableFunction(t, fs, f + 1);
  }
}
