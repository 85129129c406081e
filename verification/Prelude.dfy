/** Shared vocabulary: options, machine words, and decimal numerals. */
module Prelude {

  datatype Option<+T> = None | Some(value: T)

  datatype Result<+T> = Ok(value: T) | Err(error: string)

  const TWO_64: int := 0x1_0000_0000_0000_0000

  type byte = x: int | 0 <= x < 0x100
  type u32 = x: int | 0 <= x < 0x1_0000_0000
  type u64 = x: int | 0 <= x < 0x1_0000_0000_0000_0000

  const U64_MAX: u64 := 0xFFFF_FFFF_FFFF_FFFF

  /** A file path; joining and resolution are not part of this model. */
  type Path = string

  /** The low 64 bits of an unbounded integer. */
  function Wrap64(x: int): u64 {
    x % TWO_64
  }

  function Last<T>(s: seq<T>): T
    requires s != []
  {
    s[|s| - 1]
  }

  function Front<T>(s: seq<T>): seq<T>
    requires s != []
  {
    s[..|s| - 1]
  }

  lemma FrontOfConcat<T>(x: T, middle: seq<T>, tail: seq<T>)
    requires tail != []
    ensures Front([x] + middle + tail) == [x] + (middle + Front(tail))
    ensures Front([x] + tail) == [x] + Front(tail)
  {
  }

  lemma PrefixOfFront<T>(s: seq<T>, n: nat)
    requires n < |s|
    ensures Front(s)[..n] == s[..n]
  {
  }

  lemma LastOfPrefix<T>(s: seq<T>, i: nat)
    requires i < |s|
    ensures s[..i + 1] != [] && Last(s[..i + 1]) == s[i] && Front(s[..i + 1]) == s[..i]
  {
  }

  // ----- concatenations bracketed otherwise

  lemma Regroup3<T>(a: seq<T>, b: seq<T>, c: seq<T>)
    ensures a + (b + c) == a + b + c
  {
  }

  lemma Regroup4<T>(a: seq<T>, b: seq<T>, c: seq<T>, d: seq<T>)
    ensures a + (b + c + d) == a + b + c + d
  {
  }

  lemma Regroup5<T>(a: seq<T>, b: seq<T>, c: seq<T>, d: seq<T>, e: seq<T>)
    ensures a + (b + c + d) + e == a + b + c + d + e
    ensures a + (b + (c + d + e)) == a + b + c + d + e
    ensures a + (b + c) + d + e == a + b + c + d + e
  {
  }

  lemma Regroup6<T>(a: seq<T>, b: seq<T>, c: seq<T>, d: seq<T>, e: seq<T>, f: seq<T>)
    ensures a + b + (c + d + e + f) == a + b + c + d + e + f
    ensures a + (b + c) + d + e + f == a + b + c + d + e + f
    ensures a + (b + (c + d + e) + f) == a + b + c + d + e + f
  {
  }

  lemma Regroup7<T>(a: seq<T>, b: seq<T>, c: seq<T>, d: seq<T>, e: seq<T>, f: seq<T>, g: seq<T>)
    ensures a + (b + (c + d) + e + f + g) == a + b + c + d + e + f + g
  {
  }

  // ----- numerals

  function Digit(d: nat): char
    requires d < 10
  {
    '0' + d as char
  }

  /** The decimal numeral of `n`, without leading zeros. */
  function Decimal(n: nat): (s: string)
    ensures s != [] && forall i :: 0 <= i < |s| ==> '0' <= s[i] <= '9'
  {
    if n < 10 then [Digit(n)] else Decimal(n / 10) + [Digit(n % 10)]
  }

  /** The number a string of decimal digits stands for. */
  function DigitsValue(s: string): nat
    requires forall i :: 0 <= i < |s| ==> '0' <= s[i] <= '9'
  {
    if s == [] then 0 else 10 * DigitsValue(s[..|s| - 1]) + (Last(s) - '0') as nat
  }

  lemma {:induction false} DecimalReadsBack(n: nat)
    ensures DigitsValue(Decimal(n)) == n
  {
    if n >= 10 {
      DecimalReadsBack(n / 10);
      assert Decimal(n)[..|Decimal(n)| - 1] == Decimal(n / 10);
    }
  }

  lemma DecimalInjective(m: nat, n: nat)
    requires Decimal(m) == Decimal(n)
    ensures m == n
  {
    DecimalReadsBack(m);
    DecimalReadsBack(n);
  }
}
