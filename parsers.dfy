/** The notation parser (edc_reportable/parsers.py): `parse` reads a phrase
    such as `0.77 <= x < 0.88` into the bounds of a normal range, and
    `unparse` writes bounds, gender and ages back as such a phrase. */
module Parsers {
  import opened Common

  /** The characters the pattern's classes `[\d+\.\d+]` and `[\.\d+]`
      admit: digits, `+` and `.`. */
  predicate IsNumChar(c: char) { IsDigit(c) || c == '+' || c == '.' }

  predicate AllNum(s: string) { forall k :: 0 <= k < |s| ==> IsNumChar(s[k]) }

  /** One or more number characters. */
  predicate NumRun(s: string) { |s| > 0 && AllNum(s) }

  /** The left part of the pattern, `(([\d+\.\d+]|[\.\d+])?(<|<=)?)+`,
      matched against the whole of `s`: a run of tokens, each a number
      character, `<` or `<=`. */
  predicate MatchesLeft(s: string)
    decreases |s|
  {
    if s == [] then true
    else if IsNumChar(s[0]) then MatchesLeft(s[1..])
    else if s[0] == '<' then MatchesLeft(s[1..]) || (|s| > 1 && s[1] == '=' && MatchesLeft(s[2..]))
    else false
  }

  /** The characters of a left side, one at a time: number characters, `<`,
      and `=` only right after a `<`. */
  predicate LeftOk(s: string) {
    forall k {:trigger s[k]} :: 0 <= k < |s| ==> IsNumChar(s[k]) || s[k] == '<' || (s[k] == '=' && k > 0 && s[k - 1] == '<')
  }

  /** Two left sides in a row form a left side: the second does not
      start with `=`. */
  lemma LeftOkAppend(a: string, b: string)
    requires LeftOk(a) && LeftOk(b)
    ensures LeftOk(a + b)
  {
    var s := a + b;
    forall k | 0 <= k < |s|
      ensures IsNumChar(s[k]) || s[k] == '<' || (s[k] == '=' && k > 0 && s[k - 1] == '<')
    {
      if k >= |a| {
        assert (a + b)[k] == b[k - |a|];
        if k > |a| {
          assert (a + b)[k - 1] == b[k - 1 - |a|];
        }
      } else {
        assert (a + b)[k] == a[k];
        if k > 0 {
          assert (a + b)[k - 1] == a[k - 1];
        }
      }
    }
  }

  /** What follows a cut not before an `=` is a left side too. */
  lemma LeftOkSuffix(s: string, n: nat)
    requires LeftOk(s) && n <= |s| && (n < |s| ==> s[n] != '=')
    ensures LeftOk(s[n..])
  {
    var t := s[n..];
    forall k | 0 <= k < |t|
      ensures IsNumChar(t[k]) || t[k] == '<' || (t[k] == '=' && k > 0 && t[k - 1] == '<')
    {
      assert s[n..][k] == s[n + k];
      if k > 0 {
        assert s[n..][k - 1] == s[n + k - 1];
      }
    }
  }

  /** The left part of the pattern accepts exactly the sides whose every `=`
      follows a `<`. */
  lemma {:induction false} MatchesLeftIff(s: string)
    ensures MatchesLeft(s) <==> LeftOk(s)
    decreases |s|
  {
    if s != [] {
      var t := s[1..];
      MatchesLeftIff(t);
      if MatchesLeft(s) {
        assert s == s[..1] + t;
        if IsNumChar(s[0]) || MatchesLeft(t) {
          assert LeftOk(s[..1]);
          LeftOkAppend(s[..1], t);
        } else {
          var u := s[2..];
          MatchesLeftIff(u);
          assert s == s[..2] + u;
          assert LeftOk(s[..2]);
          LeftOkAppend(s[..2], u);
        }
      }
      if LeftOk(s) {
        if |s| > 1 && s[0] == '<' && s[1] == '=' {
          MatchesLeftIff(s[2..]);
          LeftOkSuffix(s, 2);
        } else {
          LeftOkSuffix(s, 1);
        }
      }
    }
  }

  /** The right part of the pattern, `((<|<=)?([\d+\.\d+]|[\.\d+])+)?`,
      matched against the whole of `s`. */
  predicate MatchesRight(s: string) {
    || s == []
    || NumRun(s)
    || (s[0] == '<' && NumRun(s[1..]))
    || (|s| > 1 && s[0] == '<' && s[1] == '=' && NumRun(s[2..]))
  }

  /** The characters a side of an accepted phrase may hold. */
  predicate SideChars(s: string) {
    forall k :: 0 <= k < |s| ==> IsNumChar(s[k]) || s[k] == '<' || s[k] == '='
  }

  lemma RightSideChars(s: string)
    requires MatchesRight(s)
    ensures SideChars(s)
  {
    if s != [] && !NumRun(s) {
      if s[0] == '<' && NumRun(s[1..]) {
        assert forall k :: 1 <= k < |s| ==> s[k] == s[1..][k - 1];
      } else {
        assert forall k :: 2 <= k < |s| ==> s[k] == s[2..][k - 2];
      }
    }
  }

  /** `re.match(pattern, phrase)` matching the whole phrase: a left side, an
      `x` and a right side. */
  predicate FullMatch(p: string) {
    exists i :: 0 <= i < |p| && p[i] == 'x' && MatchesLeft(p[..i]) && MatchesRight(p[i + 1..])
  }

  /** The first position of `c` in `s`. */
  function IndexOf(s: string, c: char): (r: nat)
    requires c in s
    ensures r < |s| && s[r] == c && c !in s[..r]
  {
    if s[0] == c then 0
    else
      var r := 1 + IndexOf(s[1..], c);
      assert s[..r] == [s[0]] + s[1..][..r - 1];
      r
  }

  /** `s.split(sep)`: the texts between the separators, one more than there
      are separators. */
  function Split(s: string, sep: char): (r: seq<string>)
    ensures |r| >= 1 && forall k :: 0 <= k < |r| ==> sep !in r[k]
    decreases |s|
  {
    if sep !in s then [s]
    else
      var i := IndexOf(s, sep);
      [s[..i]] + Split(s[i + 1..], sep)
  }

  /** `sep.join(parts)` */
  function Join(parts: seq<string>, sep: char): string
    requires |parts| >= 1
  {
    if |parts| == 1 then parts[0] else parts[0] + [sep] + Join(parts[1..], sep)
  }

  /** Joining what `split` gives restores the text. */
  lemma {:induction false} SplitJoin(s: string, sep: char)
    ensures Join(Split(s, sep), sep) == s
    decreases |s|
  {
    var parts := Split(s, sep);
    if sep in s {
      var i := IndexOf(s, sep);
      var rest := Split(s[i + 1..], sep);
      assert parts == [s[..i]] + rest;
      assert parts[0] == s[..i] && parts[1..] == rest;
      SplitJoin(s[i + 1..], sep);
      assert Join(parts, sep) == s[..i] + [sep] + Join(rest, sep);
      assert s == s[..i] + [sep] + s[i + 1..];
    } else {
      assert parts == [s];
    }
  }

  /** A text with one separator splits around it. */
  lemma SplitAt(s: string, sep: char, i: nat)
    requires i < |s| && s[i] == sep && sep !in s[..i] && sep !in s[i + 1..]
    ensures Split(s, sep) == [s[..i], s[i + 1..]]
  {
    var j := IndexOf(s, sep);
    assert forall k :: 0 <= k < i ==> s[..i][k] == s[k];
    assert forall k :: 0 <= k < j ==> s[..j][k] == s[k];
    assert j == i;
  }

  /** A full match is a phrase that splits at `x` into an accepted left and
      an accepted right side, and the converse. */
  lemma FullMatchIff(p: string)
    ensures FullMatch(p) <==>
      var parts := Split(p, 'x');
      |parts| == 2 && MatchesLeft(parts[0]) && MatchesRight(parts[1])
  {
    var parts := Split(p, 'x');
    if FullMatch(p) {
      var i :| 0 <= i < |p| && p[i] == 'x' && MatchesLeft(p[..i]) && MatchesRight(p[i + 1..]);
      MatchesLeftIff(p[..i]);
      RightSideChars(p[i + 1..]);
      SplitAt(p, 'x', i);
    }
    if |parts| == 2 && MatchesLeft(parts[0]) && MatchesRight(parts[1]) {
      SplitJoin(p, 'x');
      var i := |parts[0]|;
      assert p == parts[0] + "x" + parts[1];
      assert p[..i] == parts[0] && p[i + 1..] == parts[1];
    }
  }

  /** `s.replace(c, '')`: `s` with every `c` removed. */
  function Without(s: string, c: char): (r: string)
    ensures |r| <= |s| && forall k :: 0 <= k < |r| ==> r[k] != c
  {
    if s == [] then [] else (if s[0] == c then [] else [s[0]]) + Without(s[1..], c)
  }

  /** Every character left is one of the text's. */
  lemma {:induction false} WithoutKeeps(s: string, c: char)
    ensures forall k :: 0 <= k < |Without(s, c)| ==> Without(s, c)[k] in s
  {
    if s != [] {
      WithoutKeeps(s[1..], c);
      var head := if s[0] == c then [] else [s[0]];
      assert Without(s, c) == head + Without(s[1..], c);
      assert forall x :: x in s[1..] ==> x in s;
    }
  }

  lemma {:induction false} WithoutAppend(a: string, b: string, c: char)
    ensures Without(a + b, c) == Without(a, c) + Without(b, c)
  {
    if a != [] {
      assert (a + b)[1..] == a[1..] + b;
      WithoutAppend(a[1..], b, c);
    } else {
      assert a + b == b;
    }
  }

  /** Removing a character the text does not hold leaves it as it was. */
  lemma {:induction false} WithoutAbsent(s: string, c: char)
    requires c !in s
    ensures Without(s, c) == s
  {
    if s != [] {
      assert c !in s[1..];
      WithoutAbsent(s[1..], c);
    }
  }

  /** The number a text of digits, an optional `.` and more digits denotes. */
  function DecimalValue(whole: string, frac: string): (r: real)
    requires AllDigits(whole) && AllDigits(frac)
    ensures r >= 0.0
  {
    DigitsValue(whole) as real + DigitsValue(frac) as real / Pow10(|frac|) as real
  }

  /** `float(t)` for a text of number characters, the only texts `parse`
      gives it: an optional `+`, then digits with at most one `.` and at
      least one digit; anything else raises ValueError, here None. */
  function FloatOf(t: string): (r: Option<real>)
    requires AllNum(t)
    ensures r.Some? ==> r.value >= 0.0
  {
    var body := if |t| > 0 && t[0] == '+' then t[1..] else t;
    if '.' in body then
      var i := IndexOf(body, '.');
      var whole, frac := body[..i], body[i + 1..];
      if AllDigits(whole) && AllDigits(frac) && |whole| + |frac| > 0 then Some(DecimalValue(whole, frac))
      else None
    else if |body| > 0 && AllDigits(body) then Some(DigitsValue(body) as real)
    else None
  }

  /** `float` reads an optional `+`, digits, a `.` and digits as the
      decimal they denote. */
  lemma FloatOfDecimal(sign: string, whole: string, frac: string)
    requires sign == "" || sign == "+"
    requires AllDigits(whole) && AllDigits(frac) && |whole| + |frac| > 0
    ensures AllNum(sign + whole + "." + frac)
    ensures FloatOf(sign + whole + "." + frac) == Some(DecimalValue(whole, frac))
  {
    var t := sign + whole + "." + frac;
    var body := whole + "." + frac;
    assert t == sign + body;
    assert (if |t| > 0 && t[0] == '+' then t[1..] else t) == body;
    assert body[|whole|] == '.';
    assert forall k :: 0 <= k < |whole| ==> body[k] == whole[k];
    assert IndexOf(body, '.') == |whole|;
    assert body[..|whole|] == whole && body[|whole| + 1..] == frac;
  }

  /** `float` reads an optional `+` and digits as the integer they denote. */
  lemma FloatOfInteger(sign: string, digits: string)
    requires sign == "" || sign == "+"
    requires AllDigits(digits) && |digits| > 0
    ensures AllNum(sign + digits)
    ensures FloatOf(sign + digits) == Some(DigitsValue(digits) as real)
  {
    var t := sign + digits;
    assert (if |t| > 0 && t[0] == '+' then t[1..] else t) == digits;
    assert '.' !in digits by {
      assert forall k :: 0 <= k < |digits| ==> digits[k] != '.';
    }
  }

  /** The texts with no digit, `''`, `'.'` and `'+'`, raise; so do a second
      `.` or a `+` after the first character. */
  lemma FloatOfRejects()
    ensures FloatOf("") == None && FloatOf(".") == None && FloatOf("+") == None
    ensures FloatOf("1.2.3") == None && FloatOf("1+2") == None && FloatOf("++1") == None
  {
    assert IndexOf("1.2.3", '.') == 1;
    assert "2.3"[1] == '.';
    assert "1+2"[1] == '+';
    assert "+1"[0] == '+';
  }

  lemma FloatOfReads()
    ensures FloatOf(".7") == Some(0.7)
  {
    FloatOfDecimal("", "", "7");
    assert Pow10(1) == 10;
    assert DigitsValue("7") == 7;
  }

  /** One side of a parsed phrase: its number and its inclusive flag. */
  datatype Side = Side(value: Option<real>, inclusive: Option<bool>)

  /** `_parse(string)` for a side of an accepted phrase: the flag is True
      when the side holds `=` and None otherwise, never False; the number
      is the side without `<` and `=`, read by `float`. */
  function ParseSide(s: string): (r: Side)
    requires SideChars(s)
    ensures r.inclusive == Some(true) <==> '=' in s
    ensures r.inclusive != Some(false)
    ensures s == [] ==> r == Side(None, None)
  {
    var digits := Without(Without(s, '<'), '=');
    WithoutKeeps(s, '<');
    WithoutKeeps(Without(s, '<'), '=');
    assert forall k :: 0 <= k < |digits| ==> digits[k] in s && digits[k] != '<' && digits[k] != '=';
    Side(FloatOf(digits), if '=' in s then Some(true) else None)
  }

  /** A value of the dict `parse` returns: a bound, a flag, or an extra
      keyword argument passed through. */
  datatype Field<V> = Number(n: Option<real>) | Flag(f: Option<bool>) | Given(v: V)

  /** The keys `parse` sets itself. */
  const BoundKeys: seq<string> := ["lower", "lower_inclusive", "upper", "upper_inclusive"]

  /** The keys of a dict's items are distinct. */
  predicate DistinctKeys<T>(items: seq<(string, T)>) {
    forall j, k :: 0 <= j < k < |items| ==> items[j].0 != items[k].0
  }

  /** The four bound items, in the order `parse` builds them. */
  function BoundItems<V>(lower: Side, upper: Side): seq<(string, Field<V>)> {
    [("lower", Number(lower.value)), ("lower_inclusive", Flag(lower.inclusive)),
     ("upper", Number(upper.value)), ("upper_inclusive", Flag(upper.inclusive))]
  }

  function Passed<V>(kwargs: seq<(string, V)>): (r: seq<(string, Field<V>)>)
    ensures |r| == |kwargs| && forall k :: 0 <= k < |r| ==> r[k] == (kwargs[k].0, Given(kwargs[k].1))
  {
    seq(|kwargs|, k requires 0 <= k < |kwargs| => (kwargs[k].0, Given(kwargs[k].1)))
  }

  /** The phrase, spaces removed, splits at its one `x` into sides the
      pattern accepts; `FullMatchIff` shows this is the pattern matching the
      whole phrase. */
  predicate Accepted(p: string) {
    var parts := Split(p, 'x');
    |parts| == 2 && MatchesLeft(parts[0]) && MatchesRight(parts[1])
  }

  /** The two sides of an accepted phrase, each read by `_parse`. */
  function Sides(p: string): (Side, Side)
    requires Accepted(p)
  {
    var parts := Split(p, 'x');
    MatchesLeftIff(parts[0]);
    RightSideChars(parts[1]);
    (ParseSide(parts[0]), ParseSide(parts[1]))
  }

  /** A keyword argument named like one of the bound keys. */
  predicate Clashes<V>(kwargs: seq<(string, V)>) {
    exists k :: 0 <= k < |kwargs| && kwargs[k].0 in BoundKeys
  }

  /** The body of `parse(phrase, **kwargs)`: the items of the dict it
      returns. A missing phrase has no `replace` (AttributeError); a phrase
      that, without its spaces, the pattern does not match as a whole raises
      ParserError; a keyword argument named like a bound key is given twice
      (TypeError). */
  function ParseItems<V>(phrase: Option<string>, kwargs: seq<(string, V)>): (r: Result<seq<(string, Field<V>)>>)
    ensures phrase.None? ==> r == Err(AttributeError)
    ensures r.Ok? ==> |r.value| == 4 + |kwargs| && r.value[4..] == Passed(kwargs)
  {
    if phrase.None? then Err(AttributeError)
    else
      var p := Without(phrase.value, ' ');
      if !Accepted(p) then Err(ParserError)
      else if Clashes(kwargs) then Err(TypeError)
      else
        var sides := Sides(p);
        Ok(BoundItems(sides.0, sides.1) + Passed(kwargs))
  }

  /** The bounds an accepted phrase gives, read off its two sides. */
  lemma ParseSides<V>(phrase: string, kwargs: seq<(string, V)>)
    requires FullMatch(Without(phrase, ' ')) && !Clashes(kwargs)
    ensures var parts := Split(Without(phrase, ' '), 'x');
      && |parts| == 2 && SideChars(parts[0]) && SideChars(parts[1])
      && ParseItems(Some(phrase), kwargs) == Ok(BoundItems(ParseSide(parts[0]), ParseSide(parts[1])) + Passed(kwargs))
  {
    var p := Without(phrase, ' ');
    FullMatchIff(p);
    var parts := Split(p, 'x');
    MatchesLeftIff(parts[0]);
    RightSideChars(parts[1]);
  }

  /** A phrase the pattern does not match, spaces removed, raises
      ParserError whatever the keyword arguments. */
  lemma Unmatched<V>(phrase: string, kwargs: seq<(string, V)>)
    requires !FullMatch(Without(phrase, ' '))
    ensures ParseItems(Some(phrase), kwargs) == Err(ParserError)
  {
    FullMatchIff(Without(phrase, ' '));
  }

  /** A keyword argument named like a bound key is given twice. */
  lemma BoundKeyTwice<V>(phrase: string, kwargs: seq<(string, V)>, j: nat)
    requires FullMatch(Without(phrase, ' ')) && j < |kwargs| && kwargs[j].0 in BoundKeys
    ensures ParseItems(Some(phrase), kwargs) == Err(TypeError)
  {
    FullMatchIff(Without(phrase, ' '));
  }

  /** The four bound items carry the four bound keys, in order. */
  lemma BoundItemKeys<V>(lower: Side, upper: Side)
    ensures var b := BoundItems<V>(lower, upper);
      |b| == 4 && forall j :: 0 <= j < 4 ==> b[j].0 == BoundKeys[j]
    ensures DistinctKeys(BoundItems<V>(lower, upper))
  {
  }

  /** Without a clash, the keys of the result are distinct. */
  lemma ParsedKeysDistinct<V>(phrase: Option<string>, kwargs: seq<(string, V)>)
    requires DistinctKeys(kwargs) && ParseItems(phrase, kwargs).Ok?
    ensures DistinctKeys(ParseItems(phrase, kwargs).value)
  {
    var items := ParseItems(phrase, kwargs).value;
    var sides := Sides(Without(phrase.value, ' '));
    var b, q := BoundItems<V>(sides.0, sides.1), Passed(kwargs);
    assert items == b + q;
    assert !Clashes(kwargs);
    BoundItemKeys<V>(sides.0, sides.1);
    forall j, k | 0 <= j < k < |items|
      ensures items[j].0 != items[k].0
    {
      if k >= 4 && j < 4 {
        assert items[k] == q[k - 4];
        assert items[j] == b[j];
        assert items[j].0 in BoundKeys;
      } else if j >= 4 {
        assert items[j] == q[j - 4] && items[k] == q[k - 4];
      } else {
        assert items[j] == b[j] && items[k] == b[k];
      }
    }
  }

  /** Removing a character twice is removing it once. */
  lemma {:induction false} WithoutTwice(s: string, c: char)
    ensures Without(Without(s, c), c) == Without(s, c)
  {
    WithoutAbsent(Without(s, c), c);
  }

  /** A phrase parses as it does with its spaces removed. */
  lemma ParseStripped<V>(phrase: string, kwargs: seq<(string, V)>)
    ensures ParseItems(Some(phrase), kwargs) == ParseItems(Some(Without(phrase, ' ')), kwargs)
  {
    WithoutTwice(phrase, ' ');
  }

  /** Spaces play no part: a phrase parses as it does with a space removed. */
  lemma ParseIgnoresSpaces<V>(a: string, b: string, kwargs: seq<(string, V)>)
    ensures ParseItems(Some(a + " " + b), kwargs) == ParseItems(Some(a + b), kwargs)
  {
    WithoutAppend(a + " ", b, ' ');
    WithoutAppend(a, " ", ' ');
    WithoutAppend(a, b, ' ');
    assert Without(" ", ' ') == [];
    assert Without(a + " ", ' ') == Without(a, ' ');
    assert Without(a + " " + b, ' ') == Without(a + b, ' ');
  }

  /** The attributes `setattr` gives the dict after the first `n` items:
      one per item, named by its key. */
  ghost predicate AttributedUpTo<T>(items: seq<(string, T)>, n: nat, attributes: map<string, T>)
    requires n <= |items|
  {
    && attributes.Keys == (set k | 0 <= k < n :: items[k].0)
    && forall k :: 0 <= k < n ==> attributes[items[k].0] == items[k].1
  }

  ghost predicate Attributed<T>(items: seq<(string, T)>, attributes: map<string, T>) {
    AttributedUpTo(items, |items|, attributes)
  }

  /** Setting the next item's attribute, its key new since keys are distinct. */
  lemma AttributeStep<T>(items: seq<(string, T)>, i: nat, attributes: map<string, T>)
    requires DistinctKeys(items) && i < |items| && AttributedUpTo(items, i, attributes)
    ensures AttributedUpTo(items, i + 1, attributes[items[i].0 := items[i].1])
  {
    var next := attributes[items[i].0 := items[i].1];
    assert (set k | 0 <= k < i + 1 :: items[k].0) == (set k | 0 <= k < i :: items[k].0) + {items[i].0};
    forall k | 0 <= k < i + 1
      ensures next[items[k].0] == items[k].1
    {
      if k < i {
        assert items[k].0 != items[i].0;
      }
    }
  }

  /** What `parse` returns: the ordered dict, and its attributes. */
  datatype Parsed<V> = Parsed(items: seq<(string, Field<V>)>, attributes: map<string, Field<V>>)

  /** `parse(phrase, **kwargs)`: the items, each then also set as an
      attribute of the dict. */
  method Parse<V>(phrase: Option<string>, kwargs: seq<(string, V)>) returns (r: Result<Parsed<V>>)
    requires DistinctKeys(kwargs)
    ensures ParseItems(phrase, kwargs).Err? ==> r == Err(ParseItems(phrase, kwargs).error)
    ensures ParseItems(phrase, kwargs).Ok? ==> r.Ok? && r.value.items == ParseItems(phrase, kwargs).value
    ensures r.Ok? ==> Attributed(r.value.items, r.value.attributes)
  {
    var built := ParseItems(phrase, kwargs);
    if built.Err? {
      return Err(built.error);
    }
    var items := built.value;
    ParsedKeysDistinct(phrase, kwargs);
    var attributes := map[];
    var i := 0;
    while i < |items|
      invariant i <= |items|
      invariant AttributedUpTo(items, i, attributes)
    {
      AttributeStep(items, i, attributes);
      attributes := attributes[items[i].0 := items[i].1];
      i := i + 1;
    }
    r := Ok(Parsed(items, attributes));
  }

  /** `float` on one digit. */
  lemma FloatOfDigit(c: char)
    requires IsDigit(c)
    ensures AllNum([c]) && FloatOf([c]) == Some(DigitValue(c) as real)
  {
    FloatOfInteger("", [c]);
    assert "" + [c] == [c];
    assert [c][..0] == [];
  }

  /** `float` on `0.` and two digits. */
  lemma FloatOfHundredths(t: string, d1: char, d2: char)
    requires t == ['0', '.', d1, d2] && IsDigit(d1) && IsDigit(d2)
    ensures AllNum(t) && FloatOf(t) == Some((10 * DigitValue(d1) + DigitValue(d2)) as real / 100.0)
  {
    FloatOfDecimal("", "0", [d1, d2]);
    assert "" + "0" + "." + [d1, d2] == t;
    assert [d1, d2][..1] == [d1] && [d1][..0] == [];
    assert DigitsValue("0") == 0;
    assert DigitsValue([d1, d2]) == 10 * DigitValue(d1) + DigitValue(d2);
    assert Pow10(2) == 100;
    assert DecimalValue("0", [d1, d2]) == (10 * DigitValue(d1) + DigitValue(d2)) as real / 100.0;
  }


  /** Removing the spaces between space-free words joins them. */
  lemma {:induction false} WithoutSpaceBetween(a: string, b: string)
    requires ' ' !in a
    ensures Without(a + " " + b, ' ') == a + Without(b, ' ')
  {
    if a == [] {
      assert a + " " + b == [' '] + b;
      assert ([' '] + b)[1..] == b;
    } else {
      assert (a + " " + b)[1..] == a[1..] + " " + b;
      WithoutSpaceBetween(a[1..], b);
    }
  }

  /** A test phrase: `7<=x<8` gives 7 inclusive and 8 exclusive. */
  lemma ParseExample()
    ensures ParseItems<int>(Some("7<=x<8"), []) == Ok(BoundItems(Side(Some(7.0), Some(true)), Side(Some(8.0), None)))
  {
    assert "7" + "<=" + "x" + "<" + "8" == "7<=x<8";
    FloatOfDigit('7');
    FloatOfDigit('8');
    SideOfBound("7", "<=");
    SideOfBound("8", "<");
    PhraseReadsBack("7", "<=", "<", "8");
  }

  /** Removing the spaces after four words leading a phrase. */
  lemma StripFourWordsBefore(phrase: string, w1: string, w2: string, w3: string, w4: string, rest: string)
    requires phrase == w1 + " " + (w2 + " " + (w3 + " " + (w4 + " " + rest)))
    requires ' ' !in w1 && ' ' !in w2 && ' ' !in w3 && ' ' !in w4
    ensures Without(phrase, ' ') == w1 + (w2 + (w3 + (w4 + Without(rest, ' '))))
  {
    WithoutSpaceBetween(w4, rest);
    WithoutSpaceBetween(w3, w4 + " " + rest);
    WithoutSpaceBetween(w2, w3 + " " + (w4 + " " + rest));
    WithoutSpaceBetween(w1, w2 + " " + (w3 + " " + (w4 + " " + rest)));
  }

  /** Removing the spaces of a phrase of five words. */
  lemma StripFiveWords(phrase: string, w1: string, w2: string, w3: string, w4: string, w5: string)
    requires phrase == w1 + " " + (w2 + " " + (w3 + " " + (w4 + " " + w5)))
    requires ' ' !in w1 && ' ' !in w2 && ' ' !in w3 && ' ' !in w4 && ' ' !in w5
    ensures Without(phrase, ' ') == w1 + (w2 + (w3 + (w4 + w5)))
  {
    WithoutAbsent(w5, ' ');
    StripFourWordsBefore(phrase, w1, w2, w3, w4, w5);
  }

  /** Two inclusive bounds. */
  lemma ParseInclusiveExample()
    ensures ParseItems<int>(Some("0.77<=x<=0.88"), [])
      == Ok(BoundItems(Side(Some(0.77), Some(true)), Side(Some(0.88), Some(true))))
  {
    assert "0.77" + "<=" + "x" + "<=" + "0.88" == "0.77<=x<=0.88";
    FloatOfHundredths("0.77", '7', '7');
    FloatOfHundredths("0.88", '8', '8');
    SideOfBound("0.77", "<=");
    SideOfBound("0.88", "<=");
    PhraseReadsBack("0.77", "<=", "<=", "0.88");
  }

  /** A test phrase with spaces: it reads as without them. */
  lemma ParseSpacedExample()
    ensures ParseItems<int>(Some("0.77 <= x <= 0.88"), [])
      == Ok(BoundItems(Side(Some(0.77), Some(true)), Side(Some(0.88), Some(true))))
  {
    var p := "0.77 <= x <= 0.88";
    assert p == "0.77" + " " + ("<=" + " " + ("x" + " " + ("<=" + " " + "0.88")));
    assert "0.77" + ("<=" + ("x" + ("<=" + "0.88"))) == "0.77<=x<=0.88";
    StripFiveWords(p, "0.77", "<=", "x", "<=", "0.88");
    ParseStripped<int>(p, []);
    ParseInclusiveExample();
  }

  /** No lower bound: None for both lower items. */
  lemma ParseUpperOnlyExample()
    ensures ParseItems<int>(Some("x<=0.88"), []) == Ok(BoundItems(Side(None, None), Side(Some(0.88), Some(true))))
  {
    assert "" + "" + "x" + "<=" + "0.88" == "x<=0.88";
    FloatOfHundredths("0.88", '8', '8');
    SideOfBound("0.88", "<=");
    PhraseReadsBack("", "", "<=", "0.88");
  }

  /** No upper bound: `0.77<=x` gives None for both upper items. */
  lemma ParseLowerOnlyExample()
    ensures ParseItems<int>(Some("0.77<=x"), []) == Ok(BoundItems(Side(Some(0.77), Some(true)), Side(None, None)))
  {
    assert "0.77" + "<=" + "x" + "" + "" == "0.77<=x";
    FloatOfHundredths("0.77", '7', '7');
    SideOfBound("0.77", "<=");
    PhraseReadsBack("0.77", "<=", "", "");
  }

  /** Removing the spaces of a phrase of three words. */
  lemma StripThreeWords(phrase: string, w1: string, w2: string, w3: string)
    requires phrase == w1 + " " + (w2 + " " + w3)
    requires ' ' !in w1 && ' ' !in w2 && ' ' !in w3
    ensures Without(phrase, ' ') == w1 + (w2 + w3)
  {
    WithoutAbsent(w3, ' ');
    WithoutSpaceBetween(w2, w3);
    WithoutSpaceBetween(w1, w2 + " " + w3);
  }

  /** The lower-only phrase written with spaces. */
  lemma ParseLowerOnlySpacedExample()
    ensures ParseItems<int>(Some("0.77 <= x"), []) == Ok(BoundItems(Side(Some(0.77), Some(true)), Side(None, None)))
  {
    var p := "0.77 <= x";
    assert p == "0.77" + " " + ("<=" + " " + "x");
    assert "0.77" + ("<=" + "x") == "0.77<=x";
    StripThreeWords(p, "0.77", "<=", "x");
    ParseStripped<int>(p, []);
    ParseLowerOnlyExample();
  }

  /** A text splits at its first separator. */
  lemma SplitFirst(a: string, b: string, sep: char)
    requires sep !in a
    ensures Split(a + [sep] + b, sep) == [a] + Split(b, sep)
  {
    var s := a + [sep] + b;
    assert s[|a|] == sep;
    assert s[..|a|] == a;
    var i := IndexOf(s, sep);
    assert forall k :: 0 <= k < i ==> s[..i][k] == s[k];
    assert i == |a|;
    assert s[i + 1..] == b;
  }

  /** A phrase without an `x` raises ParserError. */
  lemma NoSeparator<V>(phrase: string, kwargs: seq<(string, V)>)
    requires 'x' !in Without(phrase, ' ')
    ensures ParseItems(Some(phrase), kwargs) == Err(ParserError)
  {
  }

  /** A phrase with one `x`, one of whose sides the pattern refuses,
      raises ParserError. */
  lemma RejectedSide<V>(phrase: string, left: string, right: string, kwargs: seq<(string, V)>)
    requires Without(phrase, ' ') == left + "x" + right && 'x' !in left && 'x' !in right
    requires !MatchesLeft(left) || !MatchesRight(right)
    ensures ParseItems(Some(phrase), kwargs) == Err(ParserError)
  {
    SplitFirst(left, right, 'x');
  }

  /** Two sides with no space and no `x`, one of which the pattern refuses,
      joined by an `x`, raise ParserError. */
  lemma RejectedSplit<V>(left: string, right: string, kwargs: seq<(string, V)>)
    requires ' ' !in left && ' ' !in right && 'x' !in left && 'x' !in right
    requires !MatchesLeft(left) || !MatchesRight(right)
    ensures ParseItems(Some(left + "x" + right), kwargs) == Err(ParserError)
  {
    PhraseSplits(left, right);
  }

  /** An `=` that does not follow a `<` is refused on the left. */
  lemma StrayEquals(left: string, i: nat)
    requires 0 < i < |left| && left[i] == '=' && left[i - 1] != '<'
    ensures !MatchesLeft(left)
  {
    MatchesLeftIff(left);
  }

  /** A phrase with a second `x` raises ParserError. */
  lemma SecondSeparator<V>(phrase: string, left: string, right: string, kwargs: seq<(string, V)>)
    requires Without(phrase, ' ') == left + "x" + right && 'x' !in left && 'x' in right
    ensures ParseItems(Some(phrase), kwargs) == Err(ParserError)
  {
    SplitFirst(left, right, 'x');
  }

  /** Phrases the tests reject: no `x` (with `<` or `>` only). */
  lemma NoSeparatorExamples()
    ensures ParseItems<int>(Some("<0.77"), []) == Err(ParserError)
    ensures ParseItems<int>(Some(">77"), []) == Err(ParserError)
  {
    assert ' ' !in "<0.77" && 'x' !in "<0.77";
    assert ' ' !in ">77" && 'x' !in ">77";
    WithoutAbsent("<0.77", ' ');
    WithoutAbsent(">77", ' ');
    NoSeparator<int>("<0.77", []);
    NoSeparator<int>(">77", []);
  }

  /** A phrase the tests reject: `=<` is not an operator. */
  lemma ReversedOperatorExample()
    ensures ParseItems<int>(Some("0.77=<x<0.88"), []) == Err(ParserError)
  {
    var left, right := "0.77=<", "<0.88";
    assert "0.77=<x<0.88" == left + "x" + right;
    StrayEquals(left, 4);
    RejectedSplit<int>(left, right, []);
  }

  /** The same phrase with spaces. */
  lemma ReversedOperatorSpacedExample()
    ensures ParseItems<int>(Some("0.77 =< x < 0.88"), []) == Err(ParserError)
  {
    var p := "0.77 =< x < 0.88";
    assert p == "0.77" + " " + ("=<" + " " + ("x" + " " + ("<" + " " + "0.88")));
    assert "0.77" + ("=<" + ("x" + ("<" + "0.88"))) == "0.77=<x<0.88";
    StripFiveWords(p, "0.77", "=<", "x", "<", "0.88");
    ParseStripped<int>(p, []);
    ReversedOperatorExample();
  }

  /** A phrase the tests reject: `=` is not an operator of its own. */
  lemma BareEqualsExample()
    ensures ParseItems<int>(Some("0.77<=x=0.88"), []) == Err(ParserError)
  {
    var left, right := "0.77<=", "=0.88";
    assert "0.77<=x=0.88" == left + "x" + right;
    assert !IsNumChar(right[0]);
    RejectedSplit<int>(left, right, []);
  }

  /** A phrase the tests reject: two ranges in a row. */
  lemma TwoRangesExample()
    ensures ParseItems<int>(Some("0.77<x<0.88<x<0.88"), []) == Err(ParserError)
  {
    var left, right := "0.77<", "<0.88<x<0.88";
    assert "0.77<x<0.88<x<0.88" == left + "x" + right;
    assert ' ' !in left + "x" + right && 'x' !in left && right[6] == 'x';
    WithoutAbsent(left + "x" + right, ' ');
    SecondSeparator<int>(left + "x" + right, left, right, []);
  }

  /** The spaces of the second of two ranges, removed. */
  lemma StripRangeTail()
    ensures Without("0.88 < x < 0.88", ' ') == "0.88<x<0.88"
  {
    var q := "0.88 < x < 0.88";
    assert q == "0.88" + " " + ("<" + " " + ("x" + " " + ("<" + " " + "0.88")));
    assert "0.88" + ("<" + ("x" + ("<" + "0.88"))) == "0.88<x<0.88";
    StripFiveWords(q, "0.88", "<", "x", "<", "0.88");
  }

  /** The spaces of a phrase opening with `0.77 < x < `, removed. */
  lemma StripRangeHead(rest: string)
    ensures Without("0.77 < x < " + rest, ' ') == "0.77<x<" + Without(rest, ' ')
  {
    assert "0.77 < x < " + rest == "0.77" + " " + ("<" + " " + ("x" + " " + ("<" + " " + rest)));
    assert "0.77" + ("<" + ("x" + ("<" + Without(rest, ' ')))) == "0.77<x<" + Without(rest, ' ');
    StripFourWordsBefore("0.77 < x < " + rest, "0.77", "<", "x", "<", rest);
  }

  /** The spaces of the two ranges the tests write, removed. */
  lemma StripTwoRanges()
    ensures Without("0.77 < x < 0.88 < x < 0.88", ' ') == "0.77<x<0.88<x<0.88"
  {
    assert "0.77 < x < 0.88 < x < 0.88" == "0.77 < x < " + "0.88 < x < 0.88";
    assert "0.77<x<" + "0.88<x<0.88" == "0.77<x<0.88<x<0.88";
    StripRangeHead("0.88 < x < 0.88");
    StripRangeTail();
  }

  /** The same two ranges with spaces, as the tests write them. */
  lemma TwoRangesSpacedExample()
    ensures ParseItems<int>(Some("0.77 < x < 0.88 < x < 0.88"), []) == Err(ParserError)
  {
    StripTwoRanges();
    ParseStripped<int>("0.77 < x < 0.88 < x < 0.88", []);
    TwoRangesExample();
  }

  /** A keyword argument of `unparse` as it renders: the text an f-string
      gives for it and its truthiness. A missing `gender` or age is `''`. */
  datatype Shown = Shown(text: string, truthy: bool)

  datatype UnparseArgs = UnparseArgs(
    lower: Shown, lowerInclusive: PyFlag, upper: Shown, upperInclusive: PyFlag,
    gender: Shown, ageLower: Shown, ageLowerInclusive: PyFlag, ageUpper: Shown, ageUpperInclusive: PyFlag)

  /** `'' if not bound else '<=' if inclusive else '<'` */
  function Operator(bound: Shown, inclusive: PyFlag): (r: string)
    ensures !bound.truthy ==> r == ""
    ensures bound.truthy ==> (r == "<=" <==> Truthy(inclusive)) && (r == "<" <==> !Truthy(inclusive))
  {
    if !bound.truthy then "" else if Truthy(inclusive) then "<=" else "<"
  }

  /** `kwargs.get(bound) or ''` */
  function BoundText(bound: Shown): (r: string)
    ensures !bound.truthy ==> r == ""
  {
    if bound.truthy then bound.text else ""
  }

  /** The age part of `unparse`, empty unless an age bound is truthy. */
  function AgeText(a: UnparseArgs): (r: string)
    ensures !a.ageLower.truthy && !a.ageUpper.truthy ==> r == ""
    ensures a.ageLower.truthy || a.ageUpper.truthy ==> IsSubstring("AGE", r)
  {
    if !a.ageLower.truthy && !a.ageUpper.truthy then ""
    else
      var left := a.ageLower.text + Operator(a.ageLower, a.ageLowerInclusive);
      var r := left + "AGE" + Operator(a.ageUpper, a.ageUpperInclusive) + a.ageUpper.text;
      SubstringAt("AGE", r, |left|);
      r
  }

  lemma {:induction false} SubstringAt(needle: string, haystack: string, i: nat)
    requires i + |needle| <= |haystack| && haystack[i..i + |needle|] == needle
    ensures IsSubstring(needle, haystack)
  {
    if i > 0 {
      assert haystack[1..][i - 1..i - 1 + |needle|] == needle;
      SubstringAt(needle, haystack[1..], i - 1);
    } else {
      assert needle == haystack[..|needle|];
    }
  }

  /** The characters Python's `str.isspace` holds to be whitespace. */
  predicate IsSpace(c: char) {
    var n := c as int;
    || 0x09 <= n <= 0x0d || 0x1c <= n <= 0x20 || n == 0x85 || n == 0xa0 || n == 0x1680
    || 0x2000 <= n <= 0x200a || n == 0x2028 || n == 0x2029 || n == 0x202f || n == 0x205f || n == 0x3000
  }

  /** `s.rstrip()`: the longest prefix not ending in whitespace, with only
      whitespace cut off. */
  function RStrip(s: string): (r: string)
    ensures r <= s && (r == [] || !IsSpace(r[|r| - 1]))
    ensures forall k :: |r| <= k < |s| ==> IsSpace(s[k])
  {
    if s != [] && IsSpace(s[|s| - 1]) then RStrip(s[..|s| - 1]) else s
  }

  /** Stripping whitespace off a text that does not end in whitespace gives it back. */
  lemma {:induction false} RStripTrailing(core: string, tail: string)
    requires core == [] || !IsSpace(core[|core| - 1])
    requires forall k :: 0 <= k < |tail| ==> IsSpace(tail[k])
    ensures RStrip(core + tail) == core
    decreases |tail|
  {
    if tail == [] {
      assert core + tail == core;
    } else {
      var init := tail[..|tail| - 1];
      assert (core + tail)[..|core + tail| - 1] == core + init;
      RStripTrailing(core, init);
    }
  }

  /** `unparse(**kwargs)`: the bounds, the gender and the age part, joined by
      spaces and right-stripped. */
  function Unparse(a: UnparseArgs): string {
    RStrip(BoundText(a.lower) + Operator(a.lower, a.lowerInclusive) + "x"
           + Operator(a.upper, a.upperInclusive) + BoundText(a.upper)
           + " " + a.gender.text + " " + AgeText(a))
  }

  /** The bounds of `unparse` without gender or ages: operators only beside
      truthy bounds, `<=` exactly for truthy flags. */
  lemma UnparseBounds(a: UnparseArgs)
    requires a.gender.text == "" && !a.ageLower.truthy && !a.ageUpper.truthy
    requires a.upper.truthy ==> a.upper.text == [] || !IsSpace(a.upper.text[|a.upper.text| - 1])
    ensures Unparse(a) == BoundText(a.lower) + Operator(a.lower, a.lowerInclusive) + "x"
                          + Operator(a.upper, a.upperInclusive) + BoundText(a.upper)
  {
    var core := BoundText(a.lower) + Operator(a.lower, a.lowerInclusive) + "x"
                + Operator(a.upper, a.upperInclusive) + BoundText(a.upper);
    assert core + " " + a.gender.text + " " + AgeText(a) == core + "  ";
    RStripTrailing(core, "  ");
  }

  /** A phrase written back with a gender: gender and
      the stripped empty age part follow the bounds after one space. */
  lemma UnparseGenderExample()
    ensures Unparse(UnparseArgs(Shown("0.77", true), Bool(true), Shown("0.88", true), Bool(true), Shown("M", true),
                                Shown("", false), Absent, Shown("", false), Absent))
            == "0.77<=x<=0.88 M"
  {
    RStripTrailing("0.77<=x<=0.88 M", " ");
    assert "0.77" + "<=" + "x" + "<=" + "0.88" + " " + "M" + " " + "" == "0.77<=x<=0.88 M" + " ";
  }

  /** The side `parse` gives back for a bound written as `text`, truthy when
      its number is not 0. */
  function ReadBack(text: string, inclusive: PyFlag): Side
    requires AllNum(text) && FloatOf(text).Some?
  {
    if FloatOf(text).value != 0.0 then Side(FloatOf(text), if Truthy(inclusive) then Some(true) else None)
    else Side(None, None)
  }

  lemma SideCharsAppend(a: string, b: string)
    requires SideChars(a) && SideChars(b)
    ensures SideChars(a + b)
  {
    var s := a + b;
    forall k | 0 <= k < |s|
      ensures IsNumChar(s[k]) || s[k] == '<' || s[k] == '='
    {
      if k < |a| {
        assert s[k] == a[k];
      } else {
        assert s[k] == b[k - |a|];
      }
    }
  }

  /** An operator written beside a bound: what it leaves after `<` and
      `=` are removed, and whether it holds `=`. */
  lemma OperatorChars(op: string)
    requires op == "" || op == "<" || op == "<="
    ensures SideChars(op) && Without(Without(op, '<'), '=') == []
    ensures '=' in op <==> op == "<="
  {
    if op == "<=" {
      assert op[1..] == "=" && op[1..][1..] == [];
      assert Without(op[1..], '<') == "=";
      assert Without(op, '<') == "=";
      assert Without("=", '=') == [];
    } else if op == "<" {
      assert Without(op, '<') == [];
    }
  }

  /** A bound text holds neither `<` nor `=`, so removing them leaves it. */
  lemma NumberChars(text: string)
    requires AllNum(text)
    ensures SideChars(text) && Without(Without(text, '<'), '=') == text
    ensures '=' !in text
  {
    assert '<' !in text && '=' !in text;
    WithoutAbsent(text, '<');
    WithoutAbsent(text, '=');
  }

  /** Removing `<` and `=` distributes over a concatenation. */
  lemma WithoutBoth(a: string, b: string)
    ensures Without(Without(a + b, '<'), '=') == Without(Without(a, '<'), '=') + Without(Without(b, '<'), '=')
  {
    WithoutAppend(a, b, '<');
    WithoutAppend(Without(a, '<'), Without(b, '<'), '=');
  }

  /** Bound texts of number characters read back as themselves. */
  lemma SideReadsBack(text: string, op: string)
    requires AllNum(text) && (op == "" || op == "<" || op == "<=")
    ensures SideChars(text + op) && SideChars(op + text)
    ensures Without(Without(text + op, '<'), '=') == text && Without(Without(op + text, '<'), '=') == text
    ensures '=' in text + op <==> op == "<="
    ensures '=' in op + text <==> op == "<="
  {
    NumberChars(text);
    OperatorChars(op);
    SideCharsAppend(text, op);
    SideCharsAppend(op, text);
    WithoutBoth(text, op);
    WithoutBoth(op, text);
    assert text + [] == text && [] + text == text;
  }

  /** A bound text and the operator after it form a left side with no
      space and no `x`. */
  lemma LeftReadsBack(text: string, op: string)
    requires AllNum(text) && (op == "" || op == "<" || op == "<=")
    ensures MatchesLeft(text + op) && ' ' !in text + op && 'x' !in text + op
  {
    var left := text + op;
    assert LeftOk(text) && LeftOk(op);
    LeftOkAppend(text, op);
    MatchesLeftIff(left);
    assert forall k :: 0 <= k < |left| ==> (k < |text| ==> left[k] == text[k]) && (k >= |text| ==> left[k] == op[k - |text|]);
  }

  /** An operator and the bound text after it form a right side with no
      space and no `x`, a bare operator excepted. */
  lemma RightReadsBack(op: string, text: string)
    requires AllNum(text) && (op == "" || op == "<" || op == "<=") && (op != "" ==> text != [])
    ensures MatchesRight(op + text) && ' ' !in op + text && 'x' !in op + text
  {
    var right := op + text;
    if op == "<" {
      assert right[1..] == text;
    } else if op == "<=" {
      assert right[2..] == text;
    } else {
      assert right == text;
    }
    assert forall k :: 0 <= k < |right| ==> (k < |op| ==> right[k] == op[k]) && (k >= |op| ==> right[k] == text[k - |op|]);
  }

  /** Two sides with no space and no `x`, joined by an `x`, split back
      into the two. */
  lemma PhraseSplits(left: string, right: string)
    requires ' ' !in left && ' ' !in right && 'x' !in left && 'x' !in right
    ensures Without(left + "x" + right, ' ') == left + "x" + right
    ensures Split(left + "x" + right, 'x') == [left, right]
  {
    var p := left + "x" + right;
    assert ' ' !in p;
    WithoutAbsent(p, ' ');
    SplitFirst(left, right, 'x');
  }

  /** The phrase written from two bound texts and their operators parses
      into the sides read off either half. */
  lemma PhraseReadsBack(lt: string, lop: string, uop: string, ut: string)
    requires AllNum(lt) && (lop == "" || lop == "<" || lop == "<=")
    requires AllNum(ut) && (uop == "" || uop == "<" || uop == "<=") && (uop != "" ==> ut != [])
    ensures SideChars(lt + lop) && SideChars(uop + ut)
    ensures ParseItems<int>(Some(lt + lop + "x" + uop + ut), [])
      == Ok(BoundItems(ParseSide(lt + lop), ParseSide(uop + ut)))
  {
    var left, right := lt + lop, uop + ut;
    LeftReadsBack(lt, lop);
    RightReadsBack(uop, ut);
    SideReadsBack(lt, lop);
    SideReadsBack(ut, uop);
    var p := left + "x" + right;
    ConcatAssociative(left + "x", uop, ut);
    PhraseSplits(left, right);
    FullMatchIff(p);
    ParseSides<int>(p, []);
    var b := BoundItems<int>(ParseSide(left), ParseSide(right));
    assert b + Passed<int>([]) == b;
  }

  /** A bound text with its operator reads back as its number and a flag
      that is True exactly beside `<=`. */
  lemma SideOfBound(text: string, op: string)
    requires AllNum(text) && (op == "" || op == "<" || op == "<=")
    ensures SideChars(text + op) && SideChars(op + text)
    ensures ParseSide(text + op) == Side(FloatOf(text), if op == "<=" then Some(true) else None)
    ensures ParseSide(op + text) == Side(FloatOf(text), if op == "<=" then Some(true) else None)
  {
    SideReadsBack(text, op);
  }

  /** Round trip: writing bounds with `unparse` and reading the phrase with
      `parse` gives back each bound whose number is not 0, with True for a
      truthy flag and None otherwise; a bound of 0 is not written and reads
      back as None. */
  lemma ParseUnparse(lowerText: string, lowerInclusive: PyFlag, upperText: string, upperInclusive: PyFlag)
    requires AllNum(lowerText) && FloatOf(lowerText).Some?
    requires AllNum(upperText) && FloatOf(upperText).Some?
    ensures var a := UnparseArgs(Shown(lowerText, FloatOf(lowerText).value != 0.0), lowerInclusive,
                                 Shown(upperText, FloatOf(upperText).value != 0.0), upperInclusive,
                                 Shown("", false), Shown("", false), Absent, Shown("", false), Absent);
      ParseItems<int>(Some(Unparse(a)), [])
        == Ok(BoundItems(ReadBack(lowerText, lowerInclusive), ReadBack(upperText, upperInclusive)))
  {
    var a := UnparseArgs(Shown(lowerText, FloatOf(lowerText).value != 0.0), lowerInclusive,
                         Shown(upperText, FloatOf(upperText).value != 0.0), upperInclusive,
                         Shown("", false), Shown("", false), Absent, Shown("", false), Absent);
    var lt, lop := BoundText(a.lower), Operator(a.lower, a.lowerInclusive);
    var uop, ut := Operator(a.upper, a.upperInclusive), BoundText(a.upper);
    assert FloatOf("") == None;
    assert ut != [] || !a.upper.truthy;
    UnparseBounds(a);
    PhraseReadsBack(lt, lop, uop, ut);
    SideOfBound(lt, lop);
    SideOfBound(ut, uop);
    assert ParseSide(lt + lop) == ReadBack(lowerText, lowerInclusive);
    assert ParseSide(uop + ut) == ReadBack(upperText, upperInclusive);
  }
}
