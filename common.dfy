/** Vocabulary shared by every module of the model: optional values, results that
    carry the library's exceptions, Python truthiness of the values the model
    handles, order-preserving filtering and decimal digits. */
module Common {

  datatype Option<+T> = None | Some(value: T)

  /** The exceptions the modelled code raises, one constructor per exception class. */
  datatype Error =
    | InvalidUnits
    | InvalidLowerBound
    | InvalidUpperBound
    | InvalidCombination
    | ValueBoundryError
    | InvalidValueReference
    | ValueReferenceAlreadyAdded
    | AlreadyRegistered
    | ParserError
      /** `int()` applied to a text that is not an integer */
    | ValueError
      /** `int(None)`, or a keyword argument given twice */
    | TypeError
      /** an attribute looked up on `None`, or `.grade` on a reference that has none */
    | AttributeError

  /** A call that returns a value or raises. */
  datatype Result<+T> = Ok(value: T) | Err(error: Error)

  /** A call that returns nothing or raises. */
  datatype Outcome = Pass | Fail(error: Error)

  /** A keyword argument used as an inclusive flag: not given (or None), a bool,
      or some other object, of which only its truthiness matters. */
  datatype PyFlag = Absent | Bool(b: bool) | Other(truthy: bool)

  /** `flag is True` */
  predicate IsTrue(f: PyFlag) { f == Bool(true) }

  /** `bool(flag)` */
  predicate Truthy(f: PyFlag) { f == Bool(true) || f == Other(true) }

  /** Truthiness of an optional number: None and 0 are falsy. */
  predicate IsSet(x: Option<real>) { x.Some? && x.value != 0.0 }

  /** `x or default` for an optional text: None and "" are falsy. */
  function TextOr(x: Option<string>, default: string): (r: string)
    ensures x.Some? && x.value != "" ==> r == x.value
    ensures x.None? || x.value == "" ==> r == default
  {
    if x.Some? && x.value != "" then x.value else default
  }

  /** Python's `[y for y in s if p(y)]`: the elements of `s` satisfying `p`, in order. */
  function Filter<T>(s: seq<T>, p: T -> bool): (r: seq<T>)
    ensures |r| <= |s|
    ensures forall k :: 0 <= k < |r| ==> r[k] in s && p(r[k])
  {
    if s == [] then []
    else
      var init, last := s[..|s| - 1], s[|s| - 1];
      assert s == init + [last];
      Filter(init, p) + (if p(last) then [last] else [])
  }

  /** Every element of `s` satisfying `p` survives the filter. */
  lemma {:induction false} FilterKeeps<T>(s: seq<T>, p: T -> bool, y: T)
    requires y in s && p(y)
    ensures y in Filter(s, p)
  {
    var init, last := s[..|s| - 1], s[|s| - 1];
    assert s == init + [last];
    if y != last {
      FilterKeeps(init, p, y);
    }
  }

  /** Filtering one more element of a prefix. */
  lemma FilterPrefix<T>(s: seq<T>, i: nat, p: T -> bool)
    requires i < |s|
    ensures Filter(s[..i + 1], p) == Filter(s[..i], p) + (if p(s[i]) then [s[i]] else [])
  {
    assert s[..i + 1][..i] == s[..i];
  }

  lemma ConcatAssociative<T>(a: seq<T>, b: seq<T>, c: seq<T>)
    ensures a + (b + c) == (a + b) + c
  {
  }

  lemma FilterSingleton<T>(x: T, p: T -> bool)
    ensures Filter([x], p) == if p(x) then [x] else []
  {
    assert [x][..0] == [];
  }

  /** Filtering distributes over concatenation. */
  lemma {:induction false} FilterAppend<T>(a: seq<T>, b: seq<T>, p: T -> bool)
    ensures Filter(a + b, p) == Filter(a, p) + Filter(b, p)
    decreases |b|
  {
    if b == [] {
      assert a + b == a;
    } else {
      var b', last := b[..|b| - 1], b[|b| - 1];
      assert (a + b)[..|a + b| - 1] == a + b';
      FilterAppend(a, b', p);
    }
  }

  /** Python's `needle in haystack` for strings. */
  predicate IsSubstring(needle: string, haystack: string) {
    needle <= haystack || (haystack != [] && IsSubstring(needle, haystack[1..]))
  }

  predicate IsDigit(c: char) { '0' <= c <= '9' }

  predicate AllDigits(s: string) { forall k :: 0 <= k < |s| ==> IsDigit(s[k]) }

  function DigitValue(c: char): nat
    requires IsDigit(c)
  {
    (c as int - '0' as int) as nat
  }

  function DigitChar(d: nat): (c: char)
    requires d < 10
    ensures IsDigit(c) && DigitValue(c) == d
  {
    ('0' as int + d) as char
  }

  /** The number a string of decimal digits denotes (0 for the empty string). */
  function DigitsValue(s: string): nat
    requires AllDigits(s)
  {
    if s == [] then 0 else DigitsValue(s[..|s| - 1]) * 10 + DigitValue(s[|s| - 1])
  }

  /** `str(n)` for a natural number: its shortest decimal digits. */
  function NatText(n: nat): (r: string)
    ensures |r| > 0 && AllDigits(r)
  {
    if n < 10 then [DigitChar(n)] else NatText(n / 10) + [DigitChar(n % 10)]
  }

  /** Reading back the digits `str` writes gives the number. */
  lemma {:induction false} NatTextValue(n: nat)
    ensures DigitsValue(NatText(n)) == n
  {
    if n >= 10 {
      var t := NatText(n);
      assert t[..|t| - 1] == NatText(n / 10);
      NatTextValue(n / 10);
    }
  }

  function Pow10(k: nat): (r: nat)
    ensures r > 0
  {
    if k == 0 then 1 else 10 * Pow10(k - 1)
  }
}
