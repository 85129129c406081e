/** Decoding LOGD payloads into structured values, and the wire layouts the
    decoders undo. */
module Decoders {
  import opened Prelude
  import opened TraceLog
  import FunctionNames

  // ----- big-endian words

  function Pow256(n: nat): nat {
    if n == 0 then 1 else 256 * Pow256(n - 1)
  }

  function BigEndian(v: nat, n: nat): (bytes: seq<byte>)
    ensures |bytes| == n
  {
    if n == 0 then [] else BigEndian(v / 256, n - 1) + [v % 256]
  }

  function FromBigEndian(bytes: seq<byte>): (v: nat)
    ensures v < Pow256(|bytes|)
  {
    if bytes == [] then 0 else 256 * FromBigEndian(Front(bytes)) + Last(bytes)
  }

  lemma {:induction false} BigEndianReadsBack(v: nat, n: nat)
    requires v < Pow256(n)
    ensures FromBigEndian(BigEndian(v, n)) == v
  {
    if n > 0 {
      BigEndianReadsBack(v / 256, n - 1);
      assert Front(BigEndian(v, n)) == BigEndian(v / 256, n - 1);
    }
  }

  lemma LastByte(high: nat, low: byte)
    ensures (256 * high + low) / 256 == high && (256 * high + low) % 256 == low
  {
  }

  lemma {:induction false} BigEndianWritesBack(bytes: seq<byte>)
    ensures BigEndian(FromBigEndian(bytes), |bytes|) == bytes
  {
    if bytes != [] {
      BigEndianWritesBack(Front(bytes));
      LastByte(FromBigEndian(Front(bytes)), Last(bytes));
      assert bytes == Front(bytes) + [Last(bytes)];
    }
  }

  lemma Pow256Values()
    ensures Pow256(1) == 0x100 && Pow256(2) == 0x1_0000 && Pow256(4) == 0x1_0000_0000 && Pow256(8) == TWO_64
  {
    assert Pow256(3) == 256 * Pow256(2);
    assert Pow256(5) == 256 * Pow256(4);
    assert Pow256(6) == 256 * Pow256(5);
    assert Pow256(7) == 256 * Pow256(6);
  }

  function Word64(bytes: seq<byte>): u64
    requires |bytes| == 8
  {
    Pow256Values();
    FromBigEndian(bytes)
  }

  lemma Word64ReadsBack(v: u64)
    ensures Word64(BigEndian(v, 8)) == v
  {
    Pow256Values();
    BigEndianReadsBack(v, 8);
  }

  /** The `as i64` cast of a u64. */
  function AsI64(v: u64): int {
    if v < 0x8000_0000_0000_0000 then v else v - TWO_64
  }

  /** `n` is the number the 64 bits of `v` stand for when read as signed. */
  predicate Signed(n: int, v: u64) {
    -0x8000_0000_0000_0000 <= n < 0x8000_0000_0000_0000 && (n - v) % 0x1_0000_0000_0000_0000 == 0
  }

  /** A word is shown as that number; below 2^63 it is shown as itself. */
  lemma ShownSigned(v: u64)
    ensures Signed(AsI64(v), v)
    ensures v < 0x8000_0000_0000_0000 ==> AsI64(v) == v
  {
  }

  /** No other number stands for the same bits. */
  lemma SignedUnique(m: int, n: int, v: u64)
    requires Signed(m, v) && Signed(n, v)
    ensures m == n
  {
    assert (m - v) - (n - v) == m - n;
  }

  /** The consecutive words of a payload; a trailing partial word is ignored. */
  function Words(payload: seq<byte>): seq<u64> {
    if |payload| < 8 then [] else [Word64(payload[..8])] + Words(payload[8..])
  }

  method DecodeWords(payload: seq<byte>) returns (words: seq<u64>)
    ensures words == Words(payload)
  {
    words := [];
    var rest := payload;
    while |rest| >= 8
      invariant words + Words(rest) == Words(payload)
      decreases |rest|
    {
      words := words + [Word64(rest[..8])];
      rest := rest[8..];
    }
  }

  function EncodeWords(words: seq<u64>): (bytes: seq<byte>)
    ensures |bytes| == 8 * |words|
  {
    if words == [] then [] else BigEndian(words[0], 8) + EncodeWords(words[1..])
  }

  lemma {:induction false} WordsReadBack(words: seq<u64>)
    ensures Words(EncodeWords(words)) == words
  {
    if words != [] {
      Word64ReadsBack(words[0]);
      var bytes := EncodeWords(words);
      assert bytes[..8] == BigEndian(words[0], 8) && bytes[8..] == EncodeWords(words[1..]);
      WordsReadBack(words[1..]);
    }
  }

  lemma {:induction false} WordsWriteBack(payload: seq<byte>)
    requires |payload| % 8 == 0
    ensures EncodeWords(Words(payload)) == payload
  {
    if payload != [] {
      BigEndianWritesBack(payload[..8]);
      WordsWriteBack(payload[8..]);
      assert Words(payload)[1..] == Words(payload[8..]);
    }
  }

  // ----- the decoders

  datatype Decoder =
    | Plain | TupleShape | OutcomeEnum | OptionEnum | ResultEnum | ArrayShape | WidthsShape | MatchEnum
    | BytesShape | IdentityEnum | AddressShape | B256Shape | ConfigurableShape

  function TrimEnd(s: string): string {
    if s != [] && FunctionNames.IsSpace(Last(s)) then TrimEnd(Front(s)) else s
  }

  /** The decoder of an output type. */
  function DecoderNamed(t: string): Decoder {
    if t == "(u64, b256, bool)" then TupleShape
    else if t == "enum Outcome" then OutcomeEnum
    else if t == "enum Option<u64>" then OptionEnum
    else if t == "enum Result<u64, str>" then ResultEnum
    else if t == "[u64; 4]" then ArrayShape
    else if t == "(u8, u16, u32, u64)" then WidthsShape
    else if t == "enum Match" then MatchEnum
    else if t == "Bytes" then BytesShape
    else if t == "enum Identity" then IdentityEnum
    else if t == "Address" || t == "ContractId" || t == "AssetId" then AddressShape
    else if t == "b256" then B256Shape
    else if t == "configurable_payload" then ConfigurableShape
    else Plain
  }

  /** The decoder selected by the ABI's output type of `main`. */
  function DecoderFor(outputType: Option<string>): Decoder {
    match outputType
    case None => Plain
    case Some(text) => DecoderNamed(TrimEnd(FunctionNames.SkipSpaces(text)))
  }

  function U64Value(v: u64): Value {
    Int(AsI64(v), 64)
  }

  function ByteValues(bytes: seq<byte>): (vs: seq<Value>)
    ensures |vs| == |bytes|
  {
    seq(|bytes|, i requires 0 <= i < |bytes| => Int(bytes[i], 64))
  }

  function WordValues(words: seq<u64>): (vs: seq<Value>)
    ensures |vs| == |words|
  {
    seq(|words|, i requires 0 <= i < |words| => U64Value(words[i]))
  }

  /** What the values of words and of bytes are: signed 64-bit integers, and the
      bytes themselves. */
  predicate ShowsWord(value: Value, v: u64) {
    value.Int? && value.bits == 64 && Signed(value.i, v)
  }

  predicate ShowWords(values: seq<Value>, words: seq<u64>) {
    |values| == |words| && forall i :: 0 <= i < |words| ==> ShowsWord(values[i], words[i])
  }

  predicate ShowBytes(values: seq<Value>, bytes: seq<byte>) {
    |values| == |bytes| && forall i :: 0 <= i < |bytes| ==> values[i] == Int(bytes[i], 64)
  }

  lemma NumbersShown(v: u64, words: seq<u64>, bytes: seq<byte>)
    ensures ShowsWord(U64Value(v), v) && ShowWords(WordValues(words), words) && ShowBytes(ByteValues(bytes), bytes)
  {
    ShownSigned(v);
    forall i | 0 <= i < |words| ensures ShowsWord(WordValues(words)[i], words[i]) {
      ShownSigned(words[i]);
    }
  }

  const UNIT: Value := Tuple([])

  function DecodeOutcome(p: seq<byte>): Value
    requires p != []
  {
    if p[0] == 0 && |p| >= 9 then Variant("Success", U64Value(Word64(p[1..9])))
    else if p[0] == 1 && |p| >= 9 then Variant("Failure", Sequence(ByteValues(p[1..9]), true))
    else if p[0] == 2 then Variant("Skipped", UNIT)
    else Variant("Unknown", Absent)
  }

  function DecodeOption(p: seq<byte>): Value
    requires p != []
  {
    if p[0] == 0 then Variant("None", UNIT)
    else if p[0] == 1 && |p| >= 9 then Variant("Some", U64Value(Word64(p[1..9])))
    else Variant("None", UNIT)
  }

  function DecodeResult(p: seq<byte>): Value
    requires p != []
  {
    if p[0] == 0 && |p| >= 9 then Variant("Ok", U64Value(Word64(p[1..9])))
    else if p[0] == 1 && |p| >= 2 then
      var n := if |p| - 1 < 8 then |p| - 1 else 8;
      Variant("Err", Sequence(ByteValues(p[1..1 + n]), true))
    else Variant("Err", Sequence([], true))
  }

  function DecodeMatch(p: seq<byte>): Value
    requires p != []
  {
    if p[0] == 0 && |p| >= 9 then Variant("Add", U64Value(Word64(p[1..9])))
    else if p[0] == 1 && |p| >= 9 then Variant("Sub", U64Value(Word64(p[1..9])))
    else if p[0] == 2 && |p| >= 9 then Variant("Mul", U64Value(Word64(p[1..9])))
    else if p[0] == 3 then Variant("Noop", UNIT)
    else Variant("Unknown", Absent)
  }

  function DecodeIdentity(p: seq<byte>): Value
    requires |p| >= 33
  {
    Variant(if p[0] == 0 then "Address" else if p[0] == 1 then "ContractId" else "Unknown",
            Sequence(ByteValues(p[1..33]), true))
  }

  function DecodeTuple(p: seq<byte>): Value
    requires |p| == 41
  {
    Tuple([U64Value(Word64(p[..8])), Sequence(ByteValues(p[8..40]), true), Bool(p[40] != 0)])
  }

  function DecodeWidths(p: seq<byte>): Value
    requires |p| == 15
  {
    Tuple([Int(p[0], 8), Int(FromBigEndian(p[1..3]), 16), Int(FromBigEndian(p[3..7]), 32), U64Value(Word64(p[7..15]))])
  }

  /** The additional variable of the selected decoder, if the payload fits it. */
  function Decoded(decoder: Decoder, p: seq<byte>): Option<Variable>
    requires p != []
  {
    match decoder
    case Plain => None
    case TupleShape => if |p| == 41 then Some(Variable("tuple_decoded", DecodeTuple(p))) else None
    case OutcomeEnum => Some(Variable("outcome_variant", DecodeOutcome(p)))
    case OptionEnum => Some(Variable("option_decoded", DecodeOption(p)))
    case ResultEnum => Some(Variable("result_decoded", DecodeResult(p)))
    case ArrayShape => if |p| == 32 then Some(Variable("array_fixed", Sequence(WordValues(Words(p)), true))) else None
    case WidthsShape => if |p| == 15 then Some(Variable("integer_widths_decoded", DecodeWidths(p))) else None
    case MatchEnum => Some(Variable("match_arm_variant", DecodeMatch(p)))
    case BytesShape => Some(Variable("bytes_decoded", Sequence(ByteValues(p), true)))
    case IdentityEnum => if |p| >= 33 then Some(Variable("identity_variant", DecodeIdentity(p))) else None
    case AddressShape => if |p| >= 32 then Some(Variable("address_decoded", Sequence(ByteValues(p[..32]), true))) else None
    case B256Shape => if |p| == 32 then Some(Variable("b256_decoded", Sequence(ByteValues(p), false))) else None
    case ConfigurableShape =>
      if |p| % 8 == 0 then Some(Variable("configurable_decoded", Tuple(WordValues(Words(p))))) else None
  }

  /** The word views of a payload of whole words: a struct of at least two
      fields, and a dynamic vector of at least one element. */
  function WordVariables(p: seq<byte>): seq<Variable> {
    if |p| % 8 != 0 then []
    else
      var values := WordValues(Words(p));
      (if |p| >= 16 then [Variable("logd_struct", Struct(values))] else [])
      + (if |p| >= 8 then [Variable("vec_dynamic", Sequence(values, false))] else [])
  }

  /** Every variable a LOGD payload gives its step. */
  function PayloadVariables(decoder: Decoder, p: seq<byte>): seq<Variable>
    requires p != []
  {
    [Variable("logd_payload", Sequence(ByteValues(p), false))] + WordVariables(p) + TypedVariables(decoder, p)
  }

  function TypedVariables(decoder: Decoder, p: seq<byte>): seq<Variable>
    requires p != []
  {
    var v := Decoded(decoder, p);
    if v.Some? then [v.value] else []
  }

  // ----- the wire layouts

  type B256 = s: seq<byte> | |s| == 32 witness seq(32, _ => 0)
  type Str8 = s: seq<byte> | |s| == 8 witness seq(8, _ => 0)
  type u16 = x: int | 0 <= x < 0x1_0000

  /** The Sway values a program can log under a declared output type. */
  datatype Logged =
    | ATuple(number: u64, hash: B256, flag: bool)
    | Widths(w8: byte, w16: u16, w32: u32, w64: u64)
    | Success(v: u64) | Failure(text: Str8) | Skipped
    | Nothing | Something(v: u64)
    | Fine(v: u64) | Failed(message: seq<byte>)
    | Add(v: u64) | Sub(v: u64) | Mul(v: u64) | Noop
    | AnAddress(hash: B256) | AContract(hash: B256)
    | Array4(a: u64, b: u64, c: u64, d: u64)
    | Constants(words: seq<u64>)
    | RawBytes(bytes: seq<byte>) | Identifier(hash: B256) | Hash(hash: B256)

  function DecoderOf(x: Logged): Decoder {
    match x
    case ATuple(_, _, _) => TupleShape
    case Widths(_, _, _, _) => WidthsShape
    case Success(_) => OutcomeEnum
    case Failure(_) => OutcomeEnum
    case Skipped => OutcomeEnum
    case Nothing => OptionEnum
    case Something(_) => OptionEnum
    case Fine(_) => ResultEnum
    case Failed(_) => ResultEnum
    case Add(_) => MatchEnum
    case Sub(_) => MatchEnum
    case Mul(_) => MatchEnum
    case Noop => MatchEnum
    case AnAddress(_) => IdentityEnum
    case AContract(_) => IdentityEnum
    case Array4(_, _, _, _) => ArrayShape
    case Constants(_) => ConfigurableShape
    case RawBytes(_) => BytesShape
    case Identifier(_) => AddressShape
    case Hash(_) => B256Shape
  }

  /** The tagged big-endian layout. */
  function Encode(x: Logged): seq<byte> {
    match x
    case ATuple(n, h, f) => BigEndian(n, 8) + h + [if f then 1 else 0]
    case Widths(a, b, c, d) => [a] + BigEndian(b, 2) + BigEndian(c, 4) + BigEndian(d, 8)
    case Success(v) => [0] + BigEndian(v, 8)
    case Failure(t) => [1] + t
    case Skipped => [2]
    case Nothing => [0]
    case Something(v) => [1] + BigEndian(v, 8)
    case Fine(v) => [0] + BigEndian(v, 8)
    case Failed(m) => [1] + m
    case Add(v) => [0] + BigEndian(v, 8)
    case Sub(v) => [1] + BigEndian(v, 8)
    case Mul(v) => [2] + BigEndian(v, 8)
    case Noop => [3]
    case AnAddress(h) => [0] + h
    case AContract(h) => [1] + h
    case Array4(a, b, c, d) => EncodeWords([a, b, c, d])
    case Constants(ws) => EncodeWords(ws)
    case RawBytes(bs) => bs
    case Identifier(h) => h
    case Hash(h) => h
  }

  function FirstBytes(s: seq<byte>, n: nat): seq<byte> {
    if |s| <= n then s else s[..n]
  }

  /** The value that stands for a logged one in a trace. */
  function Represent(x: Logged): Value {
    match x
    case ATuple(n, h, f) => Tuple([U64Value(n), Sequence(ByteValues(h), true), Bool(f)])
    case Widths(a, b, c, d) => Tuple([Int(a, 8), Int(b, 16), Int(c, 32), U64Value(d)])
    case Success(v) => Variant("Success", U64Value(v))
    case Failure(t) => Variant("Failure", Sequence(ByteValues(t), true))
    case Skipped => Variant("Skipped", UNIT)
    case Nothing => Variant("None", UNIT)
    case Something(v) => Variant("Some", U64Value(v))
    case Fine(v) => Variant("Ok", U64Value(v))
    case Failed(m) => Variant("Err", Sequence(ByteValues(FirstBytes(m, 8)), true))
    case Add(v) => Variant("Add", U64Value(v))
    case Sub(v) => Variant("Sub", U64Value(v))
    case Mul(v) => Variant("Mul", U64Value(v))
    case Noop => Variant("Noop", UNIT)
    case AnAddress(h) => Variant("Address", Sequence(ByteValues(h), true))
    case AContract(h) => Variant("ContractId", Sequence(ByteValues(h), true))
    case Array4(a, b, c, d) => Sequence(WordValues([a, b, c, d]), true)
    case Constants(ws) => Tuple(WordValues(ws))
    case RawBytes(bs) => Sequence(ByteValues(bs), true)
    case Identifier(h) => Sequence(ByteValues(h), true)
    case Hash(h) => Sequence(ByteValues(h), false)
  }

  lemma TaggedWord(tag: byte, v: u64)
    ensures var p := [tag] + BigEndian(v, 8); |p| == 9 && p[0] == tag && Word64(p[1..9]) == v
  {
    var p := [tag] + BigEndian(v, 8);
    assert p[1..9] == BigEndian(v, 8);
    Word64ReadsBack(v);
  }

  lemma TaggedBytes(tag: byte, s: seq<byte>, n: nat)
    requires n <= |s|
    ensures var p := [tag] + s; |p| == |s| + 1 && p[0] == tag && p[1..1 + n] == s[..n]
  {
  }

  lemma TupleReadsBack(n: u64, h: B256, f: bool)
    ensures var p := Encode(ATuple(n, h, f)); |p| == 41 && DecodeTuple(p) == Represent(ATuple(n, h, f))
  {
    var p := Encode(ATuple(n, h, f));
    assert p[..8] == BigEndian(n, 8) && p[8..40] == h;
    Word64ReadsBack(n);
  }

  lemma WidthsReadBack(a: byte, b: u16, c: u32, d: u64)
    ensures var p := Encode(Widths(a, b, c, d)); |p| == 15 && DecodeWidths(p) == Represent(Widths(a, b, c, d))
  {
    var p := Encode(Widths(a, b, c, d));
    assert p[1..3] == BigEndian(b, 2) && p[3..7] == BigEndian(c, 4) && p[7..15] == BigEndian(d, 8);
    Pow256Values();
    BigEndianReadsBack(b, 2);
    BigEndianReadsBack(c, 4);
    Word64ReadsBack(d);
  }

  /** The variable a value logged under its type is shown as. */
  function ShownName(x: Logged): string {
    match x
    case ATuple(_, _, _) => "tuple_decoded"
    case Widths(_, _, _, _) => "integer_widths_decoded"
    case Success(_) => "outcome_variant"
    case Failure(_) => "outcome_variant"
    case Skipped => "outcome_variant"
    case Nothing => "option_decoded"
    case Something(_) => "option_decoded"
    case Fine(_) => "result_decoded"
    case Failed(_) => "result_decoded"
    case Add(_) => "match_arm_variant"
    case Sub(_) => "match_arm_variant"
    case Mul(_) => "match_arm_variant"
    case Noop => "match_arm_variant"
    case AnAddress(_) => "identity_variant"
    case AContract(_) => "identity_variant"
    case Array4(_, _, _, _) => "array_fixed"
    case Constants(_) => "configurable_decoded"
    case RawBytes(_) => "bytes_decoded"
    case Identifier(_) => "address_decoded"
    case Hash(_) => "b256_decoded"
  }

  predicate Undone(x: Logged) {
    && Encode(x) != []
    && Decoded(DecoderOf(x), Encode(x)).Some?
    && Decoded(DecoderOf(x), Encode(x)).value.value == Represent(x)
  }

  lemma ShownUnderItsName(x: Logged)
    requires Undone(x)
    ensures Decoded(DecoderOf(x), Encode(x)) == Some(Variable(ShownName(x), Represent(x)))
  {
  }

  lemma SuccessReadsBack(v: u64)
    ensures Undone(Success(v))
  {
    TaggedWord(0, v);
  }

  lemma SomethingReadsBack(v: u64)
    ensures Undone(Something(v))
  {
    TaggedWord(1, v);
  }

  lemma FineReadsBack(v: u64)
    ensures Undone(Fine(v))
  {
    TaggedWord(0, v);
  }

  lemma AddReadsBack(v: u64)
    ensures Undone(Add(v))
  {
    TaggedWord(0, v);
  }

  lemma SubReadsBack(v: u64)
    ensures Undone(Sub(v))
  {
    TaggedWord(1, v);
  }

  lemma MulReadsBack(v: u64)
    ensures Undone(Mul(v))
  {
    TaggedWord(2, v);
  }

  lemma TagsReadBack()
    ensures Undone(Skipped) && Undone(Nothing) && Undone(Noop)
  {
  }

  lemma ArrayReadsBack(a: u64, b: u64, c: u64, d: u64)
    ensures Undone(Array4(a, b, c, d))
  {
    WordsReadBack([a, b, c, d]);
  }

  lemma ConstantsReadBack(words: seq<u64>)
    requires words != []
    ensures Undone(Constants(words))
  {
    var p := EncodeWords(words);
    assert |p| % 8 == 0;
    WordsReadBack(words);
    assert Decoded(ConfigurableShape, p) == Some(Variable("configurable_decoded", Tuple(WordValues(words))));
  }

  lemma BytesReadBack(bytes: seq<byte>)
    requires bytes != []
    ensures Undone(RawBytes(bytes))
  {
  }

  lemma PlainHashesReadBack(hash: B256)
    ensures Undone(Identifier(hash)) && Undone(Hash(hash))
  {
    assert hash[..32] == hash;
  }

  lemma HashesReadBack(x: Logged)
    requires x.AnAddress? || x.AContract?
    ensures Undone(x)
  {
    TaggedBytes(if x.AnAddress? then 0 else 1, x.hash, 32);
    assert x.hash[..32] == x.hash;
  }

  lemma TextsReadBack(x: Logged)
    requires x.Failure? || x.Failed?
    ensures Undone(x)
  {
    var text := if x.Failure? then x.text else x.message;
    var n := |FirstBytes(text, 8)|;
    TaggedBytes(1, text, n);
    assert text[..n] == FirstBytes(text, 8);
  }

  /** Decoding a logged value's payload under its own type represents that
      value; the text of a failed result is cut to its first eight bytes. An
      empty list of constants or bytes logs no payload, hence has no variable. */
  lemma DecodingUndoesEncoding(x: Logged)
    requires x != Constants([]) && x != RawBytes([])
    ensures Undone(x)
  {
    if x.ATuple? {
      TupleReadsBack(x.number, x.hash, x.flag);
    } else if x.Widths? {
      WidthsReadBack(x.w8, x.w16, x.w32, x.w64);
    } else if x.Array4? {
      ArrayReadsBack(x.a, x.b, x.c, x.d);
    } else if x.Constants? {
      ConstantsReadBack(x.words);
    } else if x.Failure? || x.Failed? {
      TextsReadBack(x);
    } else if x.AnAddress? || x.AContract? {
      HashesReadBack(x);
    } else if x.RawBytes? {
      BytesReadBack(x.bytes);
    } else if x.Identifier? || x.Hash? {
      PlainHashesReadBack(x.hash);
    } else if x.Success? {
      SuccessReadsBack(x.v);
    } else if x.Something? {
      SomethingReadsBack(x.v);
    } else if x.Fine? {
      FineReadsBack(x.v);
    } else if x.Add? {
      AddReadsBack(x.v);
    } else if x.Sub? {
      SubReadsBack(x.v);
    } else if x.Mul? {
      MulReadsBack(x.v);
    } else {
      TagsReadBack();
    }
  }

  /** The text is an output type under which `x` is logged. */
  predicate Declares(text: string, x: Logged) {
    match x
    case ATuple(_, _, _) => text == "(u64, b256, bool)"
    case Widths(_, _, _, _) => text == "(u8, u16, u32, u64)"
    case Success(_) => text == "enum Outcome"
    case Failure(_) => text == "enum Outcome"
    case Skipped => text == "enum Outcome"
    case Nothing => text == "enum Option<u64>"
    case Something(_) => text == "enum Option<u64>"
    case Fine(_) => text == "enum Result<u64, str>"
    case Failed(_) => text == "enum Result<u64, str>"
    case Add(_) => text == "enum Match"
    case Sub(_) => text == "enum Match"
    case Mul(_) => text == "enum Match"
    case Noop => text == "enum Match"
    case AnAddress(_) => text == "enum Identity"
    case AContract(_) => text == "enum Identity"
    case Array4(_, _, _, _) => text == "[u64; 4]"
    case Constants(_) => text == "configurable_payload"
    case RawBytes(_) => text == "Bytes"
    case Identifier(_) => text == "Address" || text == "ContractId" || text == "AssetId"
    case Hash(_) => text == "b256"
  }

  lemma {:induction false} TrimEndDrops(text: string, after: string)
    requires text != [] && !FunctionNames.IsSpace(Last(text)) && FunctionNames.Spaces(after)
    ensures TrimEnd(text + after) == text
  {
    if after == [] {
      assert text + after == text;
    } else {
      assert Front(text + after) == text + Front(after) && Last(text + after) == Last(after);
      TrimEndDrops(text, Front(after));
    }
  }

  lemma Trimmed(before: string, text: string, after: string)
    requires FunctionNames.Spaces(before) && FunctionNames.Spaces(after)
    requires text != [] && !FunctionNames.IsSpace(text[0]) && !FunctionNames.IsSpace(Last(text))
    ensures TrimEnd(FunctionNames.SkipSpaces(before + (text + after))) == text
  {
    FunctionNames.TakeWhileStops(FunctionNames.IsSpace, before, text + after);
    assert (before + (text + after))[|before|..] == text + after;
    TrimEndDrops(text, after);
  }

  lemma NamesItsDecoder(text: string, x: Logged)
    requires Declares(text, x)
    ensures DecoderNamed(text) == DecoderOf(x)
    ensures text != [] && !FunctionNames.IsSpace(text[0]) && !FunctionNames.IsSpace(Last(text))
  {
  }

  /** A declared output type, spaces around it ignored, selects the decoder
      that reads back the values logged under it. */
  lemma DeclaredTypeSelects(before: string, text: string, after: string, x: Logged)
    requires FunctionNames.Spaces(before) && FunctionNames.Spaces(after) && Declares(text, x)
    ensures DecoderFor(Some(before + (text + after))) == DecoderOf(x)
  {
    NamesItsDecoder(text, x);
    Trimmed(before, text, after);
  }

  // ----- payloads no value is logged as

  /** An unknown tag, or a known one with too few bytes after it. */
  lemma UnknownTags(p: seq<byte>)
    requires p != []
    ensures p[0] > 2 || (p[0] < 2 && |p| < 9) ==> DecodeOutcome(p) == Variant("Unknown", Absent)
    ensures p[0] > 1 || |p| < 9 ==> DecodeOption(p) == Variant("None", UNIT)
    ensures p[0] > 1 || (p[0] == 0 && |p| < 9) || (p[0] == 1 && |p| < 2) ==>
              DecodeResult(p) == Variant("Err", Sequence([], true))
    ensures p[0] > 3 || (p[0] < 3 && |p| < 9) ==> DecodeMatch(p) == Variant("Unknown", Absent)
    ensures p[0] > 1 && |p| >= 33 ==> DecodeIdentity(p) == Variant("Unknown", Sequence(ByteValues(p[1..33]), true))
  {
  }

  /** Payloads of another length give no typed variable. */
  lemma OtherLengths(p: seq<byte>)
    requires p != []
    ensures Decoded(TupleShape, p).Some? <==> |p| == 41
    ensures Decoded(WidthsShape, p).Some? <==> |p| == 15
    ensures Decoded(ArrayShape, p).Some? <==> |p| == 32
    ensures Decoded(B256Shape, p).Some? <==> |p| == 32
    ensures Decoded(IdentityEnum, p).Some? <==> |p| >= 33
    ensures Decoded(AddressShape, p).Some? <==> |p| >= 32
    ensures Decoded(ConfigurableShape, p).Some? <==> |p| % 8 == 0
    ensures Decoded(Plain, p).None?
  {
  }

  lemma TaggedTail(tag: byte, v: u64, tail: seq<byte>)
    ensures var p := [tag] + BigEndian(v, 8) + tail; |p| >= 9 && p[0] == tag && Word64(p[1..9]) == v
  {
    var p := [tag] + BigEndian(v, 8) + tail;
    assert p[1..9] == BigEndian(v, 8);
    Word64ReadsBack(v);
  }

  /** Bytes after a tagged word are ignored. */
  lemma TailIgnored(v: u64, tail: seq<byte>)
    ensures DecodeOutcome([0] + BigEndian(v, 8) + tail) == Variant("Success", U64Value(v))
    ensures DecodeOption([1] + BigEndian(v, 8) + tail) == Variant("Some", U64Value(v))
    ensures DecodeResult([0] + BigEndian(v, 8) + tail) == Variant("Ok", U64Value(v))
    ensures DecodeMatch([0] + BigEndian(v, 8) + tail) == Variant("Add", U64Value(v))
    ensures DecodeMatch([1] + BigEndian(v, 8) + tail) == Variant("Sub", U64Value(v))
    ensures DecodeMatch([2] + BigEndian(v, 8) + tail) == Variant("Mul", U64Value(v))
  {
    TaggedTail(0, v, tail);
    TaggedTail(1, v, tail);
    TaggedTail(2, v, tail);
  }

  /** ... and so are those after a tag alone, a text or a hash. */
  lemma OtherTailsIgnored(s: seq<byte>, tail: seq<byte>)
    ensures DecodeOutcome([2] + tail) == Variant("Skipped", UNIT) && DecodeOption([0] + tail) == Variant("None", UNIT)
    ensures DecodeMatch([3] + tail) == Variant("Noop", UNIT)
    ensures |s| == 8 ==> DecodeOutcome([1] + s + tail) == Variant("Failure", Sequence(ByteValues(s), true))
    ensures |s| == 8 ==> DecodeResult([1] + s + tail) == Variant("Err", Sequence(ByteValues(s), true))
    ensures |s| == 32 ==> DecodeIdentity([0] + s + tail) == Variant("Address", Sequence(ByteValues(s), true))
    ensures |s| == 32 ==> DecodeIdentity([1] + s + tail) == Variant("ContractId", Sequence(ByteValues(s), true))
    ensures |s| == 32 ==> Decoded(AddressShape, s + tail) == Some(Variable("address_decoded", Sequence(ByteValues(s), true)))
  {
    TagThen(0, s, tail);
    TagThen(1, s, tail);
    assert (s + tail)[..|s|] == s;
  }

  lemma TagThen(tag: byte, s: seq<byte>, tail: seq<byte>)
    ensures var p := [tag] + s + tail; p[0] == tag && |p| >= 1 + |s| && p[1..1 + |s|] == s
  {
  }

  // ----- the variables of a payload

  lemma LastShown(decoder: Decoder, p: seq<byte>, v: Variable)
    requires p != [] && Decoded(decoder, p) == Some(v)
    ensures v in PayloadVariables(decoder, p)
  {
    assert Last(PayloadVariables(decoder, p)) == v;
  }

  /** A payload logged under a declared type gives its step a variable of that
      type's name standing for the logged value. */
  lemma LoggedValueShown(before: string, text: string, after: string, x: Logged)
    requires FunctionNames.Spaces(before) && FunctionNames.Spaces(after) && Declares(text, x)
    requires x != Constants([]) && x != RawBytes([])
    ensures Encode(x) != []
    ensures Variable(ShownName(x), Represent(x)) in
              PayloadVariables(DecoderFor(Some(before + (text + after))), Encode(x))
  {
    DeclaredTypeSelects(before, text, after, x);
    DecodingUndoesEncoding(x);
    ShownUnderItsName(x);
    LastShown(DecoderOf(x), Encode(x), Variable(ShownName(x), Represent(x)));
  }

  /** Whatever the declared type, a payload's bytes are shown, and as words if it
      is made of whole words: as a struct from two words on, and as a vector. */
  predicate RawShown(vs: seq<Variable>, p: seq<byte>) {
    && (exists v :: v in vs && v.name == "logd_payload" && v.value.Sequence? && ShowBytes(v.value.elements, p))
    && (|p| % 8 == 0 && |p| >= 16 ==>
          exists v :: v in vs && v.name == "logd_struct" && v.value.Struct? && ShowWords(v.value.fields, Words(p)))
    && (|p| % 8 == 0 && |p| >= 8 ==>
          exists v :: v in vs && v.name == "vec_dynamic" && v.value.Sequence? && ShowWords(v.value.elements, Words(p)))
    && (forall v :: v in vs && v.name == "logd_struct" ==> |p| % 8 == 0 && |p| >= 16)
    && (forall v :: v in vs && v.name == "vec_dynamic" ==> |p| % 8 == 0 && |p| >= 8)
  }

  lemma PayloadStarts(decoder: Decoder, p: seq<byte>)
    requires p != []
    ensures PayloadVariables(decoder, p)[0] == Variable("logd_payload", Sequence(ByteValues(p), false))
    ensures |p| % 8 == 0 && |p| >= 16 ==> |PayloadVariables(decoder, p)| >= 3
    ensures |p| % 8 == 0 && |p| >= 16 ==>
              PayloadVariables(decoder, p)[1] == Variable("logd_struct", Struct(WordValues(Words(p))))
  {
  }

  lemma OnlyDecodedNames(decoder: Decoder, p: seq<byte>, v: Variable)
    requires p != [] && Decoded(decoder, p) == Some(v)
    ensures v.name != "logd_struct" && v.name != "vec_dynamic"
  {
  }

  lemma RawNames(decoder: Decoder, p: seq<byte>)
    requires p != []
    ensures forall v :: v in PayloadVariables(decoder, p) && v.name == "logd_struct" ==> |p| % 8 == 0 && |p| >= 16
    ensures forall v :: v in PayloadVariables(decoder, p) && v.name == "vec_dynamic" ==> |p| % 8 == 0 && |p| >= 8
  {
    forall v | v in TypedVariables(decoder, p) ensures v.name != "logd_struct" && v.name != "vec_dynamic" {
      OnlyDecodedNames(decoder, p, v);
    }
  }

  lemma RawPayloadShown(decoder: Decoder, p: seq<byte>)
    requires p != []
    ensures RawShown(PayloadVariables(decoder, p), p)
  {
    var vs := PayloadVariables(decoder, p);
    NumbersShown(0, Words(p), p);
    PayloadStarts(decoder, p);
    RawNames(decoder, p);
    assert vs[0] in vs;
    if |p| % 8 == 0 && |p| >= 16 {
      assert vs[1] in vs;
    }
    if |p| % 8 == 0 && |p| >= 8 {
      VectorShown(p);
      WordsShown(decoder, p, Variable("vec_dynamic", Sequence(WordValues(Words(p)), false)));
    }
  }

  /** Every non-empty list of words logged is shown as a dynamic vector of
      those words, whatever the declared type. */
  lemma VectorReadsBack(decoder: Decoder, words: seq<u64>)
    requires words != []
    ensures Variable("vec_dynamic", Sequence(WordValues(words), false)) in PayloadVariables(decoder, EncodeWords(words))
  {
    var p := EncodeWords(words);
    WordsReadBack(words);
    WholeWords(words);
    VectorShown(p);
    WordsShown(decoder, p, Variable("vec_dynamic", Sequence(WordValues(words), false)));
  }

  lemma WholeWords(words: seq<u64>)
    requires words != []
    ensures |EncodeWords(words)| >= 8 && |EncodeWords(words)| % 8 == 0
  {
  }

  lemma WordsShown(decoder: Decoder, p: seq<byte>, v: Variable)
    requires p != [] && v in WordVariables(p)
    ensures v in PayloadVariables(decoder, p)
  {
    InMiddle([Variable("logd_payload", Sequence(ByteValues(p), false))], WordVariables(p), TypedVariables(decoder, p), v);
  }

  lemma InMiddle(a: seq<Variable>, b: seq<Variable>, c: seq<Variable>, v: Variable)
    requires v in b
    ensures v in a + b + c
  {
  }

  lemma VectorShown(p: seq<byte>)
    requires |p| >= 8 && |p| % 8 == 0
    ensures Variable("vec_dynamic", Sequence(WordValues(Words(p)), false)) in WordVariables(p)
  {
    assert Last(WordVariables(p)) == Variable("vec_dynamic", Sequence(WordValues(Words(p)), false));
  }

  lemma AsI64Injective(a: u64, b: u64)
    requires AsI64(a) == AsI64(b)
    ensures a == b
  {
  }

  lemma ValuesInjective(a: seq<u64>, b: seq<u64>, s: seq<byte>, t: seq<byte>)
    ensures WordValues(a) == WordValues(b) ==> a == b
    ensures ByteValues(s) == ByteValues(t) ==> s == t
  {
    if WordValues(a) == WordValues(b) {
      forall i | 0 <= i < |a| ensures a[i] == b[i] {
        assert WordValues(a)[i] == WordValues(b)[i];
        AsI64Injective(a[i], b[i]);
      }
    }
    if ByteValues(s) == ByteValues(t) {
      forall i | 0 <= i < |s| ensures s[i] == t[i] {
        assert ByteValues(s)[i] == ByteValues(t)[i];
      }
    }
  }

  /** Two values logged under one type share a representation only when they
      are equal, or failures with the same first eight bytes. */
  lemma RepresentationDetermines(x: Logged, y: Logged)
    requires DecoderOf(x) == DecoderOf(y) && Represent(x) == Represent(y)
    ensures x == y || (x.Failed? && y.Failed? && FirstBytes(x.message, 8) == FirstBytes(y.message, 8))
  {
    if x.Failed? && y.Failed? {
      ValuesInjective([], [], FirstBytes(x.message, 8), FirstBytes(y.message, 8));
    } else if x.Failure? && y.Failure? {
      ValuesInjective([], [], x.text, y.text);
    } else if x.RawBytes? {
      ValuesInjective([], [], x.bytes, y.bytes);
    } else if (x.AnAddress? && y.AnAddress?) || (x.AContract? && y.AContract?) || x.Identifier? || x.Hash? {
      ValuesInjective([], [], x.hash, y.hash);
    } else if x.ATuple? {
      assert Represent(x).elements == Represent(y).elements;
      ValuesInjective([], [], x.hash, y.hash);
    } else if x.Widths? {
      assert Represent(x).elements == Represent(y).elements;
      AsI64Injective(x.w64, y.w64);
    } else if x.Array4? {
      ValuesInjective([x.a, x.b, x.c, x.d], [y.a, y.b, y.c, y.d], [], []);
      assert [x.a, x.b, x.c, x.d] == [y.a, y.b, y.c, y.d];
      assert [x.a, x.b, x.c, x.d][1] == x.b && [x.a, x.b, x.c, x.d][2] == x.c && [x.a, x.b, x.c, x.d][3] == x.d;
    } else if x.Constants? {
      ValuesInjective(x.words, y.words, [], []);
    }
  }
}
