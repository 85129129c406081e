/** Recording against a disassembly listing: one line per instruction word. */
module Listing {
  import opened Prelude
  import ContractCalls

  // ----- hexadecimal

  function HexDigit(d: nat): char
    requires d < 16
  {
    if d < 10 then '0' + d as char else 'a' + (d - 10) as char
  }

  /** Two lower-case digits a byte. */
  function Hex(bytes: seq<byte>): (s: string)
    ensures |s| == 2 * |bytes|
  {
    if bytes == [] then [] else [HexDigit(bytes[0] / 16), HexDigit(bytes[0] % 16)] + Hex(bytes[1..])
  }

  function DigitValue(c: char): Option<nat> {
    if '0' <= c <= '9' then Some((c - '0') as nat)
    else if 'a' <= c <= 'f' then Some((c - 'a') as nat + 10)
    else if 'A' <= c <= 'F' then Some((c - 'A') as nat + 10)
    else None
  }

  /** `u8::from_str_radix(_, 16)` on two characters: digits of either case, or
      one digit after a plus sign. */
  function ParseByte(a: char, b: char): Option<byte> {
    if DigitValue(b).None? then None
    else if a == '+' then Some(DigitValue(b).value)
    else if DigitValue(a).None? then None
    else Some(16 * DigitValue(a).value + DigitValue(b).value)
  }

  function WithoutPrefix(s: string): string {
    if |s| >= 2 && s[0] == '0' && s[1] == 'x' then s[2..] else s
  }

  /** Decodes pair by pair; an odd character or an unreadable pair fails. */
  function DecodePairs(s: string): Option<seq<byte>> {
    if s == [] then Some([])
    else if |s| == 1 then None
    else
      var first, rest := ParseByte(s[0], s[1]), DecodePairs(s[2..]);
      if first.Some? then Before([first.value], rest) else None
  }

  /** Decodes an optionally prefixed hex string. */
  method HexDecode(hex: string) returns (r: Option<seq<byte>>)
    ensures r == DecodePairs(WithoutPrefix(hex))
  {
    var s := WithoutPrefix(hex);
    OddFails(s);
    if |s| % 2 != 0 {
      return None;
    }
    var bytes: seq<byte> := [];
    var i := 0;
    assert s[0..] == s;
    BeforeNext([], 0, DecodePairs(s));
    while i < |s|
      invariant 0 <= i <= |s| && i % 2 == 0
      invariant DecodePairs(s) == Before(bytes, DecodePairs(s[i..]))
    {
      var b := ParseByte(s[i], s[i + 1]);
      assert s[i..][2..] == s[i + 2..];
      if b.None? {
        return None;
      }
      BeforeNext(bytes, b.value, DecodePairs(s[i + 2..]));
      bytes := bytes + [b.value];
      i := i + 2;
    }
    assert s[i..] == [] && bytes + [] == bytes;
    return Some(bytes);
  }

  /** The answer for a string whose first pairs read as `bytes`. */
  function Before(bytes: seq<byte>, rest: Option<seq<byte>>): Option<seq<byte>> {
    if rest.Some? then Some(bytes + rest.value) else None
  }

  lemma BeforeNext(bytes: seq<byte>, b: byte, rest: Option<seq<byte>>)
    ensures Before(bytes, Before([b], rest)) == Before(bytes + [b], rest)
    ensures Before([], rest) == rest
  {
    if rest.Some? {
      assert bytes + ([b] + rest.value) == bytes + [b] + rest.value;
      assert [] + rest.value == rest.value;
    }
  }

  lemma {:induction false} OddFails(s: string)
    ensures |s| % 2 != 0 ==> DecodePairs(s).None?
  {
    if |s| >= 2 {
      OddFails(s[2..]);
    }
  }

  lemma HexDigitReads(d: nat)
    requires d < 16
    ensures DigitValue(HexDigit(d)) == Some(d)
    ensures HexDigit(d) != '+' && HexDigit(d) != 'x'
  {
  }

  lemma {:induction false} HexPairs(bytes: seq<byte>)
    ensures DecodePairs(Hex(bytes)) == Some(bytes)
  {
    if bytes != [] {
      HexDigitReads(bytes[0] / 16);
      HexDigitReads(bytes[0] % 16);
      HexPairs(bytes[1..]);
      var h := Hex(bytes);
      assert h[2..] == Hex(bytes[1..]);
      assert ParseByte(h[0], h[1]) == Some(bytes[0]);
      assert [bytes[0]] + bytes[1..] == bytes;
    }
  }

  /** Printed bytes, with or without the prefix, decode to themselves. */
  lemma {:induction false} HexReadsBack(bytes: seq<byte>)
    ensures DecodePairs(WithoutPrefix(Hex(bytes))) == Some(bytes)
    ensures DecodePairs(WithoutPrefix(['0', 'x'] + Hex(bytes))) == Some(bytes)
  {
    HexPairs(bytes);
    assert WithoutPrefix(['0', 'x'] + Hex(bytes)) == Hex(bytes);
    if bytes != [] {
      HexDigitReads(bytes[0] % 16);
      assert Hex(bytes)[1] == HexDigit(bytes[0] % 16);
    }
  }

  /** Either case of a letter stands for the same digit. */
  lemma CaseIgnored(c: char)
    requires 'a' <= c <= 'f'
    ensures DigitValue('A' + (c - 'a')) == DigitValue(c)
  {
  }

  predicate IsHexDigit(c: char) {
    '0' <= c <= '9' || 'a' <= c <= 'f' || 'A' <= c <= 'F'
  }

  /** A digit as `Hex` prints it. */
  predicate IsLowerHexDigit(c: char) {
    '0' <= c <= '9' || 'a' <= c <= 'f'
  }

  /** Two digits, or a plus sign and one digit. */
  predicate IsPair(s: string, i: nat)
    requires 2 * i + 1 < |s|
  {
    (IsHexDigit(s[2 * i]) || s[2 * i] == '+') && IsHexDigit(s[2 * i + 1])
  }

  predicate MadeOfPairs(s: string) {
    |s| % 2 == 0 && forall i :: 0 <= i < |s| / 2 ==> IsPair(s, i)
  }

  predicate MadeOfLower(s: string) {
    forall i :: 0 <= i < |s| ==> IsLowerHexDigit(s[i])
  }

  lemma PairReads(a: char, b: char)
    ensures ParseByte(a, b).Some? <==> (IsHexDigit(a) || a == '+') && IsHexDigit(b)
  {
  }

  lemma PairsSplit(s: string)
    requires |s| >= 2
    ensures MadeOfPairs(s) <==> IsPair(s, 0) && MadeOfPairs(s[2..])
  {
    forall i | 0 < i < |s| / 2 ensures IsPair(s, i) <==> IsPair(s[2..], i - 1) {
    }
    if IsPair(s, 0) && MadeOfPairs(s[2..]) {
      forall i | 0 <= i < |s| / 2 ensures IsPair(s, i) {
        assert i > 0 ==> IsPair(s[2..], i - 1);
      }
    }
    if MadeOfPairs(s) {
      forall i | 0 <= i < |s[2..]| / 2 ensures IsPair(s[2..], i) {
        assert IsPair(s, i + 1);
      }
    }
  }

  /** A string decodes if and only if it is made of pairs of a digit of either
      case, or a plus sign, and a digit. */
  lemma {:induction false} DecodesIffPairs(s: string)
    ensures DecodePairs(s).Some? <==> MadeOfPairs(s)
  {
    if |s| >= 2 {
      PairReads(s[0], s[1]);
      DecodesIffPairs(s[2..]);
      PairsSplit(s);
    }
  }

  lemma PairPrints(a: char, b: char)
    requires ParseByte(a, b).Some?
    ensures var v := ParseByte(a, b).value;
            a == HexDigit(v / 16) && b == HexDigit(v % 16) <==> IsLowerHexDigit(a) && IsLowerHexDigit(b)
  {
  }

  lemma LowerSplit(s: string)
    requires |s| >= 2
    ensures MadeOfLower(s) <==> IsLowerHexDigit(s[0]) && IsLowerHexDigit(s[1]) && MadeOfLower(s[2..])
  {
    if MadeOfLower(s[2..]) {
      forall i | 2 <= i < |s| ensures IsLowerHexDigit(s[i]) {
        assert s[i] == s[2..][i - 2];
      }
    }
  }

  lemma HexSplit(s: string, v: byte, rest: seq<byte>)
    requires |s| >= 2
    ensures Hex([v] + rest) == s <==> s[0] == HexDigit(v / 16) && s[1] == HexDigit(v % 16) && Hex(rest) == s[2..]
  {
    assert ([v] + rest)[1..] == rest;
    assert Hex([v] + rest) == [HexDigit(v / 16), HexDigit(v % 16)] + Hex(rest);
    assert s == [s[0], s[1]] + s[2..];
    assert Hex([v] + rest)[2..] == Hex(rest);
  }

  /** A string that decodes is the printed form of its bytes if and only if all
      its characters are digits as printed: neither upper case nor a plus. */
  lemma {:induction false} PrintedIffLower(s: string)
    requires DecodePairs(s).Some?
    ensures Hex(DecodePairs(s).value) == s <==> MadeOfLower(s)
  {
    if s != [] {
      var v := ParseByte(s[0], s[1]).value;
      PairPrints(s[0], s[1]);
      PrintedIffLower(s[2..]);
      LowerSplit(s);
      HexSplit(s, v, DecodePairs(s[2..]).value);
    }
  }

  /** A plus sign stands for a leading zero. */
  lemma PlusSignDecodes()
    ensures DecodePairs(['+', 'f']) == Some([15]) && Hex([15]) == ['0', 'f']
  {
    var s := ['+', 'f'];
    assert s[2..] == [] && [15] + [] == [15];
    assert ParseByte(s[0], s[1]) == Some(15);
    assert [15][1..] == [];
  }

  // ----- the listing

  /** The `i`-th word, a trailing partial one included. */
  function Word(bytecode: seq<byte>, i: nat): seq<byte>
    requires 4 * i < |bytecode|
  {
    bytecode[4 * i..if 4 * i + 4 <= |bytecode| then 4 * i + 4 else |bytecode|]
  }

  function WordCount(bytecode: seq<byte>): nat {
    (|bytecode| + 3) / 4
  }

  /** The first `n` words in a row. */
  function Joined(bytecode: seq<byte>, n: nat): seq<byte>
    requires n <= WordCount(bytecode)
  {
    if n == 0 then [] else Joined(bytecode, n - 1) + Word(bytecode, n - 1)
  }

  /** Words have four bytes, the last one to four, and they are the bytecode. */
  lemma {:induction false} WordsAreBytecode(bytecode: seq<byte>)
    ensures Joined(bytecode, WordCount(bytecode)) == bytecode
    ensures forall i :: 0 <= i < WordCount(bytecode) - 1 ==> |Word(bytecode, i)| == 4
    ensures bytecode != [] ==> 1 <= |Word(bytecode, WordCount(bytecode) - 1)| <= 4
  {
    JoinedIsPrefix(bytecode, WordCount(bytecode));
  }

  lemma {:induction false} JoinedIsPrefix(bytecode: seq<byte>, n: nat)
    requires n <= WordCount(bytecode)
    ensures Joined(bytecode, n) == bytecode[..if 4 * n <= |bytecode| then 4 * n else |bytecode|]
  {
    if n > 0 {
      JoinedIsPrefix(bytecode, n - 1);
    }
  }

  /** Text made of lines, each ended by a newline. */
  function Unlines(lines: seq<string>): string {
    if lines == [] then [] else Unlines(Front(lines)) + Last(lines) + ['\n']
  }

  /** The `n` first lines of the listing; `render` prints a word at its offset. */
  function ListingLines(bytecode: seq<byte>, render: (nat, seq<byte>) -> string, n: nat): (ls: seq<string>)
    requires n <= WordCount(bytecode)
    ensures |ls| == n
  {
    seq(n, i requires 0 <= i < n && 4 * i < |bytecode| => render(4 * i, Word(bytecode, i)))
  }

  method WriteDisassembly(bytecode: seq<byte>, render: (nat, seq<byte>) -> string) returns (text: string)
    ensures text == Unlines(ListingLines(bytecode, render, WordCount(bytecode)))
  {
    text := [];
    for i := 0 to WordCount(bytecode)
      invariant text == Unlines(ListingLines(bytecode, render, i))
    {
      text := text + (render(4 * i, Word(bytecode, i)) + ['\n']);
      var lines := ListingLines(bytecode, render, i + 1);
      assert Front(lines) == ListingLines(bytecode, render, i);
    }
  }

  /** The text up to the first newline, and the text after it. */
  function FirstLine(text: string): string {
    if text == [] || text[0] == '\n' then [] else [text[0]] + FirstLine(text[1..])
  }

  /** The text's line of this number, counting from one. */
  function LineAt(text: string, number: nat): Option<string>
    requires number >= 1
    decreases number
  {
    if text == [] then None
    else if number == 1 then Some(FirstLine(text))
    else
      var first := FirstLine(text);
      LineAt(if |first| + 1 <= |text| then text[|first| + 1..] else [], number - 1)
  }

  predicate OneLine(s: string) {
    '\n' !in s
  }

  lemma {:induction false} FirstLineIs(line: string, rest: string)
    requires OneLine(line)
    ensures FirstLine(line + (['\n'] + rest)) == line
  {
    var text := line + (['\n'] + rest);
    if line == [] {
      assert text[0] == '\n';
    } else {
      assert text[1..] == line[1..] + (['\n'] + rest);
      FirstLineIs(line[1..], rest);
    }
  }

  lemma {:induction false} UnlinesFirst(lines: seq<string>)
    requires lines != []
    ensures Unlines(lines) == lines[0] + (['\n'] + Unlines(lines[1..]))
  {
    var rest := lines[1..];
    if |lines| == 1 {
      assert Front(lines) == [] && rest == [];
    } else {
      UnlinesFirst(Front(lines));
      assert Front(lines)[1..] == Front(rest) && Last(lines) == Last(rest);
      Regroup5(lines[0], ['\n'], Unlines(Front(rest)), Last(rest), ['\n']);
    }
  }

  lemma {:induction false} LineOfUnlines(lines: seq<string>, i: nat)
    requires i < |lines| && forall l :: l in lines ==> OneLine(l)
    ensures LineAt(Unlines(lines), i + 1) == Some(lines[i])
  {
    var text, rest := Unlines(lines), Unlines(lines[1..]);
    UnlinesFirst(lines);
    FirstLineIs(lines[0], rest);
    if i > 0 {
      assert text[|lines[0]| + 1..] == rest;
      LineOfUnlines(lines[1..], i - 1);
    }
  }

  /** The map of a listing recording: whole words only. */
  function ListingMap(count: nat, path: Path): ContractCalls.LineMap {
    if count == 0 then [] else ListingMap(count - 1, path) + [(count - 1, path, count % 0x1_0000_0000)]
  }

  lemma {:induction false} FindAppended(m: ContractCalls.LineMap, e: (nat, Path, u32), i: nat)
    ensures ContractCalls.Find(m + [e], i) ==
            if ContractCalls.Find(m, i).Some? then ContractCalls.Find(m, i)
            else if e.0 == i then Some((e.1, e.2)) else None
  {
    if m == [] {
      assert m + [e] == [e] && [e][1..] == [];
    } else {
      assert (m + [e])[1..] == m[1..] + [e];
      FindAppended(m[1..], e, i);
    }
  }

  lemma {:induction false} FindInListing(count: nat, path: Path, i: nat)
    ensures ContractCalls.Find(ListingMap(count, path), i) ==
            if i < count then Some((path, (i + 1) % 0x1_0000_0000)) else None
  {
    if count > 0 {
      FindInListing(count - 1, path, i);
      FindAppended(ListingMap(count - 1, path), (count - 1, path, count % 0x1_0000_0000), i);
    }
  }

  /** A listing recording places every instruction index at its line, past the
      end of the map too, and that line of the listing shows the word at that
      index, a trailing partial word included. */
  lemma {:induction false} ListingShowsInstruction(bytecode: seq<byte>, render: (nat, seq<byte>) -> string, path: Path, i: nat)
    requires forall offset, word :: OneLine(render(offset, word))
    ensures ContractCalls.Locate(None, ListingMap(|bytecode| / 4, path), path, i) == (path, (i + 1) % 0x1_0000_0000)
    ensures i < WordCount(bytecode) ==>
              4 * i < |bytecode| &&
              LineAt(Unlines(ListingLines(bytecode, render, WordCount(bytecode))), i + 1) ==
                Some(render(4 * i, Word(bytecode, i)))
  {
    FindInListing(|bytecode| / 4, path, i);
    if i < WordCount(bytecode) {
      var lines := ListingLines(bytecode, render, WordCount(bytecode));
      forall l | l in lines ensures OneLine(l) {
        var k :| 0 <= k < |lines| && lines[k] == l;
        assert l == render(4 * k, Word(bytecode, k));
      }
      LineOfUnlines(lines, i);
    }
  }
}
