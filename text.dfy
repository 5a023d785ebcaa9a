/**
 * Decimal rendering and parsing of integers, and JavaScript's
 * `String.prototype.split` with a literal separator.
 */
module Text {
  import opened Wrappers

  predicate IsDigit(c: char) { '0' <= c <= '9' }

  predicate AllDigits(s: string) { forall i :: 0 <= i < |s| ==> IsDigit(s[i]) }

  function DigitChar(d: nat): char
    requires d < 10
  {
    ('0' as int + d) as char
  }

  /** The value of a decimal digit (0 for any other character). */
  function DigitValue(c: char): nat
  {
    if IsDigit(c) then c as int - '0' as int else 0
  }

  /** Decimal text of a natural number, without leading zeros. */
  function NatToString(n: nat): (s: string)
    ensures |s| > 0
  {
    if n < 10 then [DigitChar(n)] else NatToString(n / 10) + [DigitChar(n % 10)]
  }

  /** JavaScript's rendering of an integer number. */
  function IntToString(i: int): (s: string)
    ensures |s| > 0
  {
    if i < 0 then "-" + NatToString(-i) else NatToString(i)
  }

  /** The number a string of decimal digits denotes. */
  function DigitsValue(s: string): nat
  {
    if s == [] then 0 else DigitsValue(s[..|s| - 1]) * 10 + DigitValue(s[|s| - 1])
  }

  /** Length of the longest prefix of `s` made of decimal digits. */
  function DigitRun(s: string): (k: nat)
    ensures k <= |s|
  {
    if s == [] || !IsDigit(s[0]) then 0 else 1 + DigitRun(s[1..])
  }

  /**
   * `parseInt(s, 10)` restricted to what the program feeds it: an optional sign
   * followed by the longest run of digits; `None` stands for NaN (no digit).
   */
  function ParseInt(s: string): Option<int>
  {
    if |s| > 0 && (s[0] == '-' || s[0] == '+') then
      var t := s[1..];
      var k := DigitRun(t);
      if k == 0 then None
      else
        var v: int := DigitsValue(t[..k]);
        Some(if s[0] == '-' then -v else v)
    else
      var k := DigitRun(s);
      if k == 0 then None else Some(DigitsValue(s[..k]))
  }

  /** A string that is exactly the decimal rendering of some natural number. */
  predicate Canonical(s: string)
  {
    |s| > 0 && AllDigits(s) && NatToString(DigitsValue(s)) == s
  }

  lemma {:induction false} NatToStringDigits(n: nat)
    ensures AllDigits(NatToString(n))
    ensures |NatToString(n)| > 1 ==> NatToString(n)[0] != '0'
  {
    if n >= 10 {
      NatToStringDigits(n / 10);
    }
  }

  lemma {:induction false} DigitsOfNat(n: nat)
    ensures DigitsValue(NatToString(n)) == n
  {
    if n >= 10 {
      var s := NatToString(n);
      assert s[..|s| - 1] == NatToString(n / 10);
      DigitsOfNat(n / 10);
    }
  }

  lemma {:induction false} DigitRunAll(s: string)
    requires AllDigits(s)
    ensures DigitRun(s) == |s|
  {
    if s != [] {
      DigitRunAll(s[1..]);
    }
  }

  /** The digits of a natural number parse back to it, whether signed or not. */
  lemma ParseDigits(n: nat)
    ensures var t := NatToString(n);
      DigitRun(t) == |t| && DigitsValue(t[..DigitRun(t)]) == n && !(t[0] == '-' || t[0] == '+')
  {
    var t := NatToString(n);
    NatToStringDigits(n);
    DigitRunAll(t);
    DigitsOfNat(n);
    assert t[..|t|] == t;
    assert IsDigit(t[0]);
  }

  /** Rendering then parsing gives back the number. */
  lemma ParseIntToString(i: int)
    ensures ParseInt(IntToString(i)) == Some(i)
  {
    if i < 0 {
      var s := IntToString(i);
      var t := s[1..];
      assert t == NatToString(-i);
      ParseDigits(-i);
      assert s[0] == '-';
    } else {
      ParseDigits(i);
    }
  }

  /** Parsing then rendering gives back canonical decimal text. */
  lemma CanonicalRoundTrip(s: string)
    requires Canonical(s)
    ensures ParseInt(s) == Some(DigitsValue(s))
    ensures IntToString(DigitsValue(s)) == s
  {
    DigitRunAll(s);
    assert s[..|s|] == s;
  }

  lemma NatToStringCanonical(n: nat)
    ensures Canonical(NatToString(n))
  {
    NatToStringDigits(n);
    DigitsOfNat(n);
  }

  // ---------------------------------------------------------------------------
  // `Number(s)` on a string

  /** The white space and line terminators `Number(s)` ignores around a numeral. */
  predicate IsSpace(c: char)
  {
    || c == '\t' || c == '\n' || c == '\U{B}' || c == '\U{C}' || c == '\r' || c == ' '
    || c == '\U{A0}' || c == '\U{1680}' || ('\U{2000}' <= c <= '\U{200A}') || c == '\U{2028}'
    || c == '\U{2029}' || c == '\U{202F}' || c == '\U{205F}' || c == '\U{3000}' || c == '\U{FEFF}'
  }

  /** The index of the first character at or after `k` that is not white space. */
  function SkipSpaces(s: string, k: nat): (r: nat)
    requires k <= |s|
    ensures k <= r <= |s|
    ensures forall i :: k <= i < r ==> IsSpace(s[i])
    ensures r < |s| ==> !IsSpace(s[r])
    decreases |s| - k
  {
    if k < |s| && IsSpace(s[k]) then SkipSpaces(s, k + 1) else k
  }

  /** The end of `s[lo..k]` once its trailing white space is dropped. */
  function SkipSpacesBack(s: string, lo: nat, k: nat): (r: nat)
    requires lo <= k <= |s|
    ensures lo <= r <= k
    ensures forall i :: r <= i < k ==> IsSpace(s[i])
    ensures r > lo ==> !IsSpace(s[r - 1])
    decreases k
  {
    if k > lo && IsSpace(s[k - 1]) then SkipSpacesBack(s, lo, k - 1) else k
  }

  function Pow10(n: nat): (p: nat)
    ensures p > 0
  {
    if n == 0 then 1 else 10 * Pow10(n - 1)
  }

  /** `x` times ten to the power `e`. */
  function Scale(x: real, e: int): real
  {
    if e >= 0 then x * Pow10(e) as real else x / Pow10(-e) as real
  }

  /** The index of the first character at or after `k` that is not a digit. */
  function DigitsEnd(s: string, k: nat): (r: nat)
    requires k <= |s|
    ensures k <= r <= |s|
    ensures forall i :: k <= i < r ==> IsDigit(s[i])
    ensures r < |s| ==> !IsDigit(s[r])
    decreases |s| - k
  {
    if k < |s| && IsDigit(s[k]) then DigitsEnd(s, k + 1) else k
  }

  /** The number the digits `s[lo..hi]` denote. */
  function ValueOf(s: string, lo: nat, hi: nat): nat
    requires lo <= hi <= |s|
    decreases hi - lo
  {
    if hi == lo then 0 else ValueOf(s, lo, hi - 1) * 10 + DigitValue(s[hi - 1])
  }

  /** An exponent filling `s[j..]`: an optional sign and at least one digit. */
  function ExponentAt(s: string, j: nat): Option<int>
    requires j <= |s|
  {
    var neg := j < |s| && s[j] == '-';
    var k := if j < |s| && (s[j] == '-' || s[j] == '+') then j + 1 else j;
    var e := DigitsEnd(s, k);
    if e == k || e < |s| then None
    else Some(if neg then -(ValueOf(s, k, e) as int) else ValueOf(s, k, e))
  }

  /** What follows the digits of a numeral at `s[j..]`: nothing, or an exponent. */
  function TailAt(s: string, j: nat, mantissa: real): Option<real>
    requires j <= |s|
  {
    if j == |s| then Some(mantissa)
    else if s[j] == 'e' || s[j] == 'E' then
      match ExponentAt(s, j + 1)
        case Some(e) => Some(Scale(mantissa, e))
        case None => None
    else None
  }

  /**
   * The unsigned decimal numeral filling `s[k..]`: digits, an optional `.` and
   * fraction digits (at least one digit in all), then an optional exponent;
   * `None` when anything else is left over.
   */
  function NumeralAt(s: string, k: nat): Option<real>
    requires k <= |s|
  {
    var w := DigitsEnd(s, k);
    var whole := ValueOf(s, k, w) as real;
    if w < |s| && s[w] == '.' then
      var f := DigitsEnd(s, w + 1);
      if w == k && f == w + 1 then None
      else TailAt(s, f, whole + ValueOf(s, w + 1, f) as real / Pow10(f - w - 1) as real)
    else if w == k then None
    else TailAt(s, w, whole)
  }

  /** `ValueOf` reads the same digits `DigitsValue` does. */
  lemma {:induction false} ValueOfDigits(s: string, lo: nat, hi: nat)
    requires lo <= hi <= |s|
    ensures ValueOf(s, lo, hi) == DigitsValue(s[lo..hi])
    decreases hi - lo
  {
    if hi > lo {
      ValueOfDigits(s, lo, hi - 1);
      var t := s[lo..hi];
      assert t[..|t| - 1] == s[lo..hi - 1];
      assert t[|t| - 1] == s[hi - 1];
    }
  }

  /** A run of digits filling `s[k..]` is an integer numeral. */
  lemma NumeralAtDigits(s: string, k: nat)
    requires k < |s| && AllDigits(s[k..])
    ensures NumeralAt(s, k) == Some(DigitsValue(s[k..]) as real)
  {
    forall i | k <= i < |s|
      ensures IsDigit(s[i])
    {
      assert s[i] == s[k..][i - k];
    }
    assert DigitsEnd(s, k) == |s|;
    ValueOfDigits(s, k, |s|);
    assert s[k..|s|] == s[k..];
  }

  /** `s` without white space at either end. */
  function Trim(s: string): (t: string)
    ensures |t| <= |s|
    ensures t != [] ==> !IsSpace(t[0]) && !IsSpace(t[|t| - 1])
  {
    var a := SkipSpaces(s, 0);
    s[a..SkipSpacesBack(s, a, |s|)]
  }

  /** A string that neither starts nor ends with white space is its own trimmed form. */
  lemma TrimNone(s: string)
    requires s != [] ==> !IsSpace(s[0]) && !IsSpace(s[|s| - 1])
    ensures Trim(s) == s
  {
    assert s[0..|s|] == s;
  }

  /**
   * `Number(s)` for a string: white space around the numeral is ignored, an
   * empty or blank string is 0, and a sign may precede a decimal numeral;
   * `None` stands for NaN.
   */
  function StringToNumber(s: string): (r: Option<real>)
    ensures Trim(s) == [] ==> r == Some(0.0)
  {
    var t := Trim(s);
    if t == [] then Some(0.0)
    else if t[0] == '-' then
      match NumeralAt(t, 1)
        case Some(x) => Some(-x)
        case None => None
    else if t[0] == '+' then NumeralAt(t, 1)
    else NumeralAt(t, 0)
  }

  /** A run of digits converts to the number it denotes. */
  lemma DigitsNumber(d: string)
    requires d != [] && AllDigits(d)
    ensures StringToNumber(d) == Some(DigitsValue(d) as real)
  {
    assert IsDigit(d[0]) && IsDigit(d[|d| - 1]);
    TrimNone(d);
    assert d[0..] == d;
    NumeralAtDigits(d, 0);
  }

  /** A minus sign and a run of digits convert to the negated number. */
  lemma NegDigitsNumber(d: string)
    requires d != [] && AllDigits(d)
    ensures StringToNumber("-" + d) == Some(-(DigitsValue(d) as real))
  {
    var m := "-" + d;
    assert m[1..] == d && m[0] == '-' && m[|m| - 1] == d[|d| - 1];
    assert IsDigit(d[|d| - 1]);
    TrimNone(m);
    NumeralAtDigits(m, 1);
  }

  /** The decimal text of `n` is a run of digits denoting `n`. */
  lemma NatDigits(n: nat)
    ensures NatToString(n) != [] && AllDigits(NatToString(n))
    ensures DigitsValue(NatToString(n)) == n
  {
    NatToStringDigits(n);
    DigitsOfNat(n);
  }

  /** `Number(String(i))` is `i` for every integer. */
  lemma IntStringNumber(i: int)
    ensures StringToNumber(IntToString(i)) == Some(i as real)
  {
    if i < 0 {
      var d := NatToString(-i);
      NatDigits(-i);
      NegDigitsNumber(d);
      assert IntToString(i) == "-" + d;
    } else {
      NatDigits(i);
      DigitsNumber(NatToString(i));
    }
  }

  /** A fraction: "1.5" is one and a half, however `parseInt` would read it. */
  lemma FractionNumeral()
    ensures StringToNumber("1.5") == Some(1.5)
  {
    var s: string := "1.5";
    TrimNone(s);
    assert DigitsEnd(s, 0) == 1 && DigitsEnd(s, 2) == 3;
    assert ValueOf(s, 0, 1) == 1 && ValueOf(s, 2, 3) == 5;
  }

  /** Leading zeros: "007" is seven. */
  lemma ZerosNumeral()
    ensures StringToNumber("007") == Some(7.0)
  {
    var s: string := "007";
    TrimNone(s);
    assert DigitsEnd(s, 0) == 3;
    assert ValueOf(s, 0, 1) == 0 && ValueOf(s, 0, 2) == 0 && ValueOf(s, 0, 3) == 7;
  }

  /** Blanks around a numeral are ignored: " 5 " is five. */
  lemma BlankNumeral()
    ensures StringToNumber(" 5 ") == Some(5.0)
  {
    var s: string := " 5 ";
    assert SkipSpaces(s, 0) == 1;
    assert SkipSpacesBack(s, 1, 3) == 2;
    var t := Trim(s);
    assert t == s[1..2] == "5";
    assert DigitsEnd(t, 0) == 1 && ValueOf(t, 0, 1) == 5;
  }

  /** An exponent scales the mantissa: "-2e2" is minus two hundred. */
  lemma ExponentNumeral()
    ensures StringToNumber("-2e2") == Some(-200.0)
  {
    var s: string := "-2e2";
    TrimNone(s);
    assert DigitsEnd(s, 1) == 2 && ValueOf(s, 1, 2) == 2;
    assert DigitsEnd(s, 3) == 4 && ValueOf(s, 3, 4) == 2;
    assert ExponentAt(s, 3) == Some(2);
    assert Scale(2.0, 2) == 200.0;
  }

  // ---------------------------------------------------------------------------
  // Literal-separator split

  /** Index of the first occurrence of `sep` in `s`. */
  function Find(s: string, sep: string): (r: Option<nat>)
    requires |sep| > 0
    ensures r.Some? ==> r.value + |sep| <= |s|
  {
    if |s| < |sep| then None
    else if s[..|sep|] == sep then Some(0)
    else match Find(s[1..], sep)
      case None => None
      case Some(j) => Some(j + 1)
  }

  /** `s.split(sep)`: the pieces between occurrences of `sep`. */
  function Split(s: string, sep: string): (parts: seq<string>)
    requires |sep| > 0
    ensures |parts| > 0
    decreases |s|
  {
    if Find(s, sep).None? then [s]
    else [s[..Find(s, sep).value]] + Split(s[Find(s, sep).value + |sep|..], sep)
  }

  predicate Free(s: string, c: char) { forall i :: 0 <= i < |s| ==> s[i] != c }

  lemma {:induction false} FindSound(s: string, sep: string)
    requires |sep| > 0 && Find(s, sep).Some?
    ensures s[Find(s, sep).value..Find(s, sep).value + |sep|] == sep
  {
    if s[..|sep|] != sep {
      FindSound(s[1..], sep);
    }
  }

  /** `sep` occurs in `s` at index `j`. */
  predicate OccursAt(s: string, sep: string, j: nat)
  {
    j + |sep| <= |s| && s[j..j + |sep|] == sep
  }

  /** `indexOf`/`split` find the separator at its first occurrence. */
  lemma {:induction false} FindFirst(s: string, sep: string, k: nat)
    requires |sep| > 0 && OccursAt(s, sep, k)
    requires forall j: nat :: j < k ==> !OccursAt(s, sep, j)
    ensures Find(s, sep) == Some(k)
  {
    if k > 0 {
      assert !OccursAt(s, sep, 0);
      assert s[..|sep|] != sep;
      assert s[1..][k - 1..k - 1 + |sep|] == s[k..k + |sep|];
      forall j: nat | j < k - 1
        ensures !OccursAt(s[1..], sep, j)
      {
        assert !OccursAt(s, sep, j + 1);
        if j + |sep| <= |s[1..]| {
          assert s[1..][j..j + |sep|] == s[j + 1..j + 1 + |sep|];
        }
      }
      FindFirst(s[1..], sep, k - 1);
    }
  }

  /** A text free of the separator's first character holds no occurrence of it. */
  lemma FreeNoOccurrence(s: string, sep: string, k: nat)
    requires |sep| > 0 && k <= |s| && Free(s[..k], sep[0])
    ensures forall j: nat :: j < k ==> !OccursAt(s, sep, j)
  {
    forall j: nat | j < k
      ensures !OccursAt(s, sep, j)
    {
      if j + |sep| <= |s| {
        assert s[j..j + |sep|][0] == s[..k][j];
      }
    }
  }

  lemma {:induction false} FindNone(s: string, sep: string)
    requires |sep| > 0 && Free(s, sep[0])
    ensures Find(s, sep) == None
  {
    if |s| >= |sep| {
      assert s[..|sep|][0] == s[0];
      FindNone(s[1..], sep);
    }
  }

  /** The first piece of a split is a prefix of the text. */
  lemma SplitHead(s: string, sep: string)
    requires |sep| > 0
    ensures Split(s, sep)[0] <= s
  {
  }

  /** A piece free of the separator's first character is split off whole. */
  lemma SplitCons(a: string, sep: string, b: string)
    requires |sep| > 0 && Free(a, sep[0])
    ensures Split(a + sep + b, sep) == [a] + Split(b, sep)
  {
    var s := a + sep + b;
    assert s[..|a|] == a;
    assert s[|a|..|a| + |sep|] == sep;
    FreeNoOccurrence(s, sep, |a|);
    FindFirst(s, sep, |a|);
    assert s[|a| + |sep|..] == b;
  }

  lemma SplitNone(a: string, sep: string)
    requires |sep| > 0 && Free(a, sep[0])
    ensures Split(a, sep) == [a]
  {
    FindNone(a, sep);
  }

  /** Splitting text built by joining three separator-free pieces. */
  lemma SplitThree(a: string, b: string, c: string, sep: char)
    requires Free(a, sep) && Free(b, sep) && Free(c, sep)
    ensures Split(a + [sep] + b + [sep] + c, [sep]) == [a, b, c]
  {
    var bc := b + [sep] + c;
    assert a + [sep] + b + [sep] + c == a + [sep] + bc;
    SplitCons(a, [sep], bc);
    SplitCons(b, [sep], c);
    SplitNone(c, [sep]);
    assert Split(bc, [sep]) == [b, c];
  }

  lemma DigitsFree(s: string, c: char)
    requires AllDigits(s) && !IsDigit(c)
    ensures Free(s, c)
  {
  }

  /** `parts.join(sep)`. */
  function JoinWith(parts: seq<string>, sep: string): string
    requires |parts| > 0
  {
    if |parts| == 1 then parts[0] else parts[0] + sep + JoinWith(parts[1..], sep)
  }

  lemma SplitAt(s: string, sep: string)
    requires |sep| > 0 && Find(s, sep).Some?
    ensures var i := Find(s, sep).value;
      Split(s, sep) == [s[..i]] + Split(s[i + |sep|..], sep)
  {
  }

  lemma Around(s: string, sep: string, i: nat)
    requires i + |sep| <= |s| && s[i..i + |sep|] == sep
    ensures s == s[..i] + sep + s[i + |sep|..]
  {
  }

  lemma JoinCons(head: string, tail: seq<string>, sep: string)
    requires |tail| > 0
    ensures JoinWith([head] + tail, sep) == head + sep + JoinWith(tail, sep)
  {
    assert ([head] + tail)[1..] == tail;
  }

  /** Joining the pieces of a split with the same separator gives back the text. */
  lemma {:induction false} JoinSplit(s: string, sep: string)
    requires |sep| > 0
    ensures JoinWith(Split(s, sep), sep) == s
    decreases |s|
  {
    if Find(s, sep).Some? {
      var i := Find(s, sep).value;
      var head, rest := s[..i], s[i + |sep|..];
      SplitAt(s, sep);
      FindSound(s, sep);
      Around(s, sep, i);
      JoinSplit(rest, sep);
      JoinCons(head, Split(rest, sep), sep);
    }
  }
}
