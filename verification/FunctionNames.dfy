/** Naming a function from the declaration its entry instruction maps to. */
module FunctionNames {
  import opened Prelude
  import opened TraceLog

  datatype SourceLoc = SourceLoc(path: Path, line: u32, column: u32)

  function PositionOf(loc: SourceLoc): Position {
    Position(loc.path, loc.line)
  }

  predicate IsSpace(c: char) {
    c == ' ' || '\t' <= c <= '\r'
  }

  predicate NotSpace(c: char) {
    !IsSpace(c)
  }

  predicate IsIdent(c: char) {
    'a' <= c <= 'z' || 'A' <= c <= 'Z' || '0' <= c <= '9' || c == '_'
  }

  /** The longest prefix of `s` whose characters satisfy `p`. */
  function TakeWhile(p: char -> bool, s: string): (r: string)
    ensures r <= s
    ensures forall i :: 0 <= i < |r| ==> p(r[i])
    ensures |r| < |s| ==> !p(s[|r|])
  {
    if s == [] || !p(s[0]) then [] else [s[0]] + TakeWhile(p, s[1..])
  }

  function SkipSpaces(s: string): string {
    s[|TakeWhile(IsSpace, s)|..]
  }

  /** The next whitespace-separated word and the text after it. */
  function NextWord(s: string): Option<(string, string)> {
    var t := SkipSpaces(s);
    if t == [] then None
    else
      var w := TakeWhile(NotSpace, t);
      Some((w, t[|w|..]))
  }

  /** The identifier after the word `fn`. */
  function FnName(word: Option<(string, string)>): Option<string> {
    if word.None? || word.value.0 != "fn" then None
    else
      match NextWord(word.value.1)
      case None => None
      case Some((item, _)) =>
        var name := TakeWhile(IsIdent, item);
        if name == [] then None else Some(name)
  }

  /** The name of the `[pub] fn <name>` item that starts `text`. */
  function ItemName(text: string): Option<string> {
    match NextWord(text)
    case None => None
    case Some((word, rest)) => if word == "pub" then FnName(NextWord(rest)) else FnName(Some((word, rest)))
  }

  /** A line from a column on; columns count from one. */
  function FromColumn(line: string, column: u32): string {
    var skipped := if column == 0 then 0 else column - 1;
    if skipped <= |line| then line[skipped..] else []
  }

  /** The name declared at `loc` in a file with these lines. */
  function NameInLines(lines: seq<string>, loc: SourceLoc): Option<string> {
    if loc.line == 0 || loc.line > |lines| then None
    else ItemName(FromColumn(lines[loc.line - 1], loc.column))
  }

  /** The name declared at `loc` by the readable files. */
  function DeclaredName(files: map<Path, seq<string>>, loc: SourceLoc): Option<string> {
    if loc.path in files then NameInLines(files[loc.path], loc) else None
  }

  /** What a call entered at instruction `index` is named after: the
      declaration its entry maps to, or the place. */
  function NameFor(files: map<Path, seq<string>>, loc: Option<SourceLoc>, index: nat): Callee {
    match loc
    case None => AtInstruction(index)
    case Some(l) =>
      match DeclaredName(files, l)
      case Some(name) => Declared(name)
      case None => AtLocation(l.path, l.line)
  }

  lemma {:induction false} TakeWhileStops(p: char -> bool, a: string, b: string)
    requires forall i :: 0 <= i < |a| ==> p(a[i])
    requires b == [] || !p(b[0])
    ensures TakeWhile(p, a + b) == a
  {
    if a == [] {
      assert a + b == b;
    } else {
      TakeWhileStops(p, a[1..], b);
      assert (a + b)[1..] == a[1..] + b;
    }
  }

  /** ASCII whitespace: the space, and tab to carriage return. */
  predicate Spaces(s: string) {
    forall i :: 0 <= i < |s| ==> s[i] == ' ' || '\t' <= s[i] <= '\r'
  }

  predicate NoSpaces(s: string) {
    forall i :: 0 <= i < |s| ==> s[i] != ' ' && !('\t' <= s[i] <= '\r')
  }

  /** What can follow a word. */
  predicate EndsWord(s: string) {
    s != [] ==> s[0] == ' ' || '\t' <= s[0] <= '\r'
  }

  predicate IdentChar(c: char) {
    'a' <= c <= 'z' || 'A' <= c <= 'Z' || '0' <= c <= '9' || c == '_'
  }

  predicate Identifier(s: string) {
    s != [] && forall i :: 0 <= i < |s| ==> IdentChar(s[i])
  }

  predicate EndsIdentifier(s: string) {
    s != [] ==> !IdentChar(s[0])
  }

  lemma NextWordIs(gap: string, word: string, rest: string)
    requires Spaces(gap) && word != [] && NoSpaces(word)
    requires EndsWord(rest)
    ensures NextWord(gap + (word + rest)) == Some((word, rest))
  {
    TakeWhileStops(IsSpace, gap, word + rest);
    assert SkipSpaces(gap + (word + rest)) == word + rest;
    TakeWhileStops(NotSpace, word, rest);
    assert (word + rest)[|word|..] == rest;
  }

  lemma FnNamesIdentifier(gap: string, name: string, tail: string)
    requires Spaces(gap)
    requires Identifier(name) && EndsIdentifier(tail)
    ensures FnName(Some(("fn", gap + (name + tail)))) == Some(name)
  {
    var extra := TakeWhile(NotSpace, tail);
    var more := tail[|extra|..];
    assert name + tail == (name + extra) + more;
    NextWordIs(gap, name + extra, more);
    TakeWhileStops(IsIdent, name, extra);
  }

  lemma FirstWordIs(word: string, rest: string)
    requires word != [] && NoSpaces(word)
    requires rest != [] && EndsWord(rest)
    ensures NextWord(word + rest) == Some((word, rest))
  {
    NextWordIs([], word, rest);
    assert [] + (word + rest) == word + rest;
  }

  /** A declaration `fn name...`, however spaced, names its function whenever
      the name is followed by a non-identifier character. */
  lemma DeclarationNamesItsFunction(gap: string, name: string, tail: string)
    requires gap != [] && Spaces(gap)
    requires Identifier(name) && EndsIdentifier(tail)
    ensures ItemName("fn" + (gap + (name + tail))) == Some(name)
  {
    FnNamesIdentifier(gap, name, tail);
    FirstWordIs("fn", gap + (name + tail));
  }

  lemma FnAfterGap(pubGap: string, gap: string, name: string, tail: string)
    requires Spaces(pubGap)
    requires gap != [] && Spaces(gap)
    requires Identifier(name) && EndsIdentifier(tail)
    ensures FnName(NextWord(pubGap + ("fn" + (gap + (name + tail))))) == Some(name)
  {
    FnNamesIdentifier(gap, name, tail);
    NextWordIs(pubGap, "fn", gap + (name + tail));
  }

  lemma ItemAfterPub(rest: string)
    requires rest != [] && EndsWord(rest)
    ensures ItemName("pub" + rest) == FnName(NextWord(rest))
  {
    FirstWordIs("pub", rest);
  }

  /** ... and so does one after `pub`. */
  lemma PublicDeclarationNamesItsFunction(pubGap: string, gap: string, name: string, tail: string)
    requires pubGap != [] && Spaces(pubGap)
    requires gap != [] && Spaces(gap)
    requires Identifier(name) && EndsIdentifier(tail)
    ensures ItemName("pub" + (pubGap + ("fn" + (gap + (name + tail))))) == Some(name)
  {
    FnAfterGap(pubGap, gap, name, tail);
    ItemAfterPub(pubGap + ("fn" + (gap + (name + tail))));
  }

  // ----- which texts are declarations

  /** The pieces of a declaration: spaces, perhaps `pub` and a gap, `fn`, a gap,
      the name, and what follows it. */
  datatype Declaration = Declaration(lead: string, pubGap: Option<string>, gap: string, name: string, tail: string)

  predicate WellFormed(d: Declaration) {
    && Spaces(d.lead)
    && (d.pubGap.Some? ==> d.pubGap.value != [] && Spaces(d.pubGap.value))
    && d.gap != [] && Spaces(d.gap)
    && Identifier(d.name) && EndsIdentifier(d.tail)
  }

  function TextOf(d: Declaration): string {
    d.lead + (match d.pubGap
              case None => "fn" + (d.gap + (d.name + d.tail))
              case Some(pubGap) => "pub" + (pubGap + ("fn" + (d.gap + (d.name + d.tail)))))
  }

  /** Every declaration names its function. */
  lemma {:induction false} DeclarationNames(d: Declaration)
    requires WellFormed(d)
    ensures ItemName(TextOf(d)) == Some(d.name)
  {
    var fn := d.gap + (d.name + d.tail);
    FnNamesIdentifier(d.gap, d.name, d.tail);
    match d.pubGap {
      case None =>
        NextWordIs(d.lead, "fn", fn);
      case Some(pubGap) =>
        NextWordIs(d.lead, "pub", pubGap + ("fn" + fn));
        FnAfterGap(pubGap, d.gap, d.name, d.tail);
    }
  }

  /** A word is read off the front of a text. */
  lemma {:induction false} WordRead(s: string) returns (gap: string)
    requires NextWord(s).Some?
    ensures var (word, rest) := NextWord(s).value;
            && s == gap + (word + rest) && Spaces(gap) && word != [] && NoSpaces(word)
            && EndsWord(rest)
  {
    gap := TakeWhile(IsSpace, s);
    var t := SkipSpaces(s);
    var word := TakeWhile(NotSpace, t);
    TakenAndLeft(IsSpace, s);
    TakenAndLeft(NotSpace, t);
    assert !IsSpace(t[0]) && word == [t[0]] + TakeWhile(NotSpace, t[1..]);
  }

  lemma {:induction false} TakenAndLeft(p: char -> bool, s: string)
    ensures s == TakeWhile(p, s) + s[|TakeWhile(p, s)|..]
  {
  }

  /** A name is read off a word after `fn`. */
  lemma {:induction false} FnRead(rest: string) returns (gap: string, tail: string)
    requires FnName(Some(("fn", rest))).Some? && EndsWord(rest)
    ensures var name := FnName(Some(("fn", rest))).value;
            && rest == gap + (name + tail) && gap != [] && Spaces(gap)
            && Identifier(name) && EndsIdentifier(tail)
  {
    gap := WordRead(rest);
    var (item, more) := NextWord(rest).value;
    var name := TakeWhile(IsIdent, item);
    TakenAndLeft(IsIdent, item);
    tail := item[|name|..] + more;
    Regroup3(name, item[|name|..], more);
    StartsAfterGap(gap, item, more);
  }

  lemma FirstOfWord(word: string, rest: string)
    requires word != []
    ensures [] + (word + rest) == word + rest && (word + rest)[0] == word[0]
  {
  }

  lemma StartsAfterGap(gap: string, word: string, rest: string)
    requires word != [] && NoSpaces(word) && EndsWord(gap + (word + rest))
    ensures gap != []
  {
    FirstOfWord(word, rest);
  }

  /** ... and nothing else names one. */
  lemma {:induction false} NamesOnlyDeclarations(text: string) returns (d: Declaration)
    requires ItemName(text).Some?
    ensures WellFormed(d) && text == TextOf(d) && d.name == ItemName(text).value
  {
    var lead := WordRead(text);
    var (word, rest) := NextWord(text).value;
    if word == "pub" {
      var pubGap := WordRead(rest);
      var (fn, more) := NextWord(rest).value;
      var gap, tail := FnRead(more);
      d := Declaration(lead, Some(pubGap), gap, ItemName(text).value, tail);
      StartsAfterGap(pubGap, fn, more);
    } else {
      var gap, tail := FnRead(rest);
      d := Declaration(lead, None, gap, ItemName(text).value, tail);
    }
  }

  /** The text is a declaration of `name`. */
  ghost predicate DeclaresIn(text: string, name: string) {
    exists d :: WellFormed(d) && d.name == name && text == TextOf(d)
  }

  /** A text names exactly what it declares. */
  lemma {:induction false} NamedIffDeclared(text: string, name: string)
    ensures ItemName(text) == Some(name) <==> DeclaresIn(text, name)
  {
    if ItemName(text) == Some(name) {
      var d := NamesOnlyDeclarations(text);
    }
    if d :| WellFormed(d) && d.name == name && text == TextOf(d) {
      DeclarationNames(d);
    }
  }

  /** `text` is what the file says at that line from that column on: past the
      end of the line nothing; columns 0 and 1 are the line's start. */
  predicate ReadsAt(lines: seq<string>, line: u32, column: u32, text: string) {
    && 1 <= line <= |lines|
    && (if column <= 1 then text == lines[line - 1]
        else if column - 1 <= |lines[line - 1]| then text == lines[line - 1][column - 1..]
        else text == [])
  }

  /** A readable file declares the function `name` at the place. */
  ghost predicate DeclaresAt(files: map<Path, seq<string>>, loc: SourceLoc, name: string) {
    && loc.path in files
    && exists text :: ReadsAt(files[loc.path], loc.line, loc.column, text) && DeclaresIn(text, name)
  }

  /** The text the recorder reads at a place, and no other is there. */
  lemma ReadAt(lines: seq<string>, loc: SourceLoc, text: string)
    requires 1 <= loc.line <= |lines|
    ensures ReadsAt(lines, loc.line, loc.column, text) <==> text == FromColumn(lines[loc.line - 1], loc.column)
  {
    var line := lines[loc.line - 1];
    assert line[0..] == line;
  }

  lemma {:induction false} DeclaredAtPlace(files: map<Path, seq<string>>, loc: SourceLoc, name: string)
    ensures DeclaredName(files, loc) == Some(name) <==> DeclaresAt(files, loc, name)
  {
    if loc.path in files && 1 <= loc.line <= |files[loc.path]| {
      var lines := files[loc.path];
      var text := FromColumn(lines[loc.line - 1], loc.column);
      NamedIffDeclared(text, name);
      ReadAt(lines, loc, text);
      if other :| ReadsAt(lines, loc.line, loc.column, other) && DeclaresIn(other, name) {
        ReadAt(lines, loc, other);
      }
    }
  }

  /** What a call is named after: exactly the function declared at its entry's
      place by a readable file, if one is; else that place; and the index of an
      entry that is mapped to none. */
  lemma {:induction false} NamedExactly(files: map<Path, seq<string>>, loc: Option<SourceLoc>, index: nat)
    ensures loc.None? ==> NameFor(files, loc, index) == AtInstruction(index)
    ensures loc.Some? ==> forall name ::
              NameFor(files, loc, index) == Declared(name) <==> DeclaresAt(files, loc.value, name)
    ensures loc.Some? && (forall name :: !DeclaresAt(files, loc.value, name)) ==>
              NameFor(files, loc, index) == AtLocation(loc.value.path, loc.value.line)
  {
    if loc.Some? {
      forall name ensures DeclaredName(files, loc.value) == Some(name) <==> DeclaresAt(files, loc.value, name) {
        DeclaredAtPlace(files, loc.value, name);
      }
    }
  }

  /** The namer with its cache of source files; `files` holds the readable
      ones as lists of lines and does not change during a recording. */
  class Namer {
    const files: map<Path, seq<string>>
    var sources: map<Path, Option<seq<string>>>

    ghost predicate Valid()
      reads this
    {
      forall p :: p in sources ==> sources[p] == if p in files then Some(files[p]) else None
    }

    constructor (files: map<Path, seq<string>>)
      ensures Valid() && this.files == files
    {
      this.files := files;
      sources := map[];
    }

    /** The cache never changes an answer. */
    method DeclaredAt(loc: SourceLoc) returns (name: Option<string>)
      requires Valid()
      modifies this
      ensures Valid()
      ensures name == DeclaredName(files, loc)
    {
      if loc.path !in sources {
        sources := sources[loc.path := if loc.path in files then Some(files[loc.path]) else None];
      }
      match sources[loc.path]
      case None => return None;
      case Some(lines) =>
        return NameInLines(lines, loc);
    }

    method NameOf(loc: Option<SourceLoc>, index: nat) returns (callee: Callee)
      requires Valid()
      modifies this
      ensures Valid()
      ensures callee == NameFor(files, loc, index)
    {
      match loc
      case None => return AtInstruction(index);
      case Some(l) =>
        var name := DeclaredAt(l);
        return if name.Some? then Declared(name.value) else AtLocation(l.path, l.line);
    }
  }
}
