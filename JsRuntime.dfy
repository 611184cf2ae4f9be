/**
 * The JavaScript built-ins the modelled code leans on, written out so that the rest of the
 * model can use them: the white-space class `\s` (which `String.prototype.trim` also
 * strips), `trim`, `split` on one character, `includes`, ASCII `toLowerCase`, array
 * `indexOf`, `join`, property access on an array (`xs[i]`, `undefined` when out of range),
 * `||` on strings, decimal `toString` of integers, `parseFloat`, and the
 * `parseFloat(x.toFixed(2))` round trip. Numbers are exact reals: binary64 rounding is not
 * modelled.
 */
module JsRuntime {
  import opened Wrappers

  // ---------------------------------------------------------------------------------------
  // Characters

  /** The characters of `\s` in a JavaScript regular expression (WhiteSpace and LineTerminator). */
  predicate IsSpace(c: char) {
    c == '\t' || c == '\n' || c == '\U{B}' || c == '\U{C}' || c == '\r' || c == ' ' ||
    c == '\U{A0}' || c == '\U{1680}' || ('\U{2000}' <= c <= '\U{200A}') ||
    c == '\U{2028}' || c == '\U{2029}' || c == '\U{202F}' || c == '\U{205F}' ||
    c == '\U{3000}' || c == '\U{FEFF}'
  }

  /** The characters `.` does not match in a regular expression without the `s` flag. */
  predicate IsLineTerminator(c: char) {
    c == '\n' || c == '\r' || c == '\U{2028}' || c == '\U{2029}'
  }

  predicate IsDigit(c: char) {
    '0' <= c <= '9'
  }

  predicate NoSpace(s: string) {
    forall i :: 0 <= i < |s| ==> !IsSpace(s[i])
  }

  /** `toLowerCase` on one character, for ASCII letters. */
  function LowerChar(c: char): (r: char)
    ensures IsSpace(r) <==> IsSpace(c)
    ensures 'A' <= c <= 'Z' ==> r as int == c as int + 32
    ensures !('A' <= c <= 'Z') ==> r == c
  {
    if 'A' <= c <= 'Z' then (c as int + 32) as char else c
  }

  /** `String.prototype.toLowerCase`, restricted to ASCII case mapping. */
  function Lower(s: string): (r: string)
    ensures |r| == |s|
    ensures forall i :: 0 <= i < |s| ==> r[i] == LowerChar(s[i])
  {
    seq(|s|, i requires 0 <= i < |s| => LowerChar(s[i]))
  }

  // ---------------------------------------------------------------------------------------
  // trim

  function TrimStart(s: string): (r: string)
    ensures |r| <= |s| && r == s[|s| - |r|..]
    ensures r == [] || !IsSpace(r[0])
    ensures forall i :: 0 <= i < |s| - |r| ==> IsSpace(s[i])
  {
    if |s| > 0 && IsSpace(s[0]) then TrimStart(s[1..]) else s
  }

  function TrimEnd(s: string): (r: string)
    ensures |r| <= |s| && r == s[..|r|]
    ensures r == [] || !IsSpace(r[|r| - 1])
    ensures forall i :: |r| <= i < |s| ==> IsSpace(s[i])
  {
    if |s| > 0 && IsSpace(s[|s| - 1]) then TrimEnd(s[..|s| - 1]) else s
  }

  /** `String.prototype.trim`: the string without its leading and trailing white space. */
  function Trim(s: string): (r: string)
    ensures r == [] || (!IsSpace(r[0]) && !IsSpace(r[|r| - 1]))
    ensures forall c :: c in r ==> c in s
  {
    TrimEnd(TrimStart(s))
  }

  lemma TrimIdempotent(s: string)
    ensures Trim(Trim(s)) == Trim(s)
  {
    var r := Trim(s);
    assert TrimStart(r) == r;
    assert TrimEnd(r) == r;
  }

  /** A string without white space is its own trim. */
  lemma TrimNoSpace(s: string)
    requires NoSpace(s)
    ensures Trim(s) == s
  {
    assert TrimStart(s) == s;
    assert TrimEnd(s) == s;
  }

  /** Trimming never introduces white space. */
  lemma TrimKeepsNoSpace(s: string)
    requires NoSpace(s)
    ensures NoSpace(Trim(s))
  {
    TrimNoSpace(s);
  }

  /** A string made only of white space trims to the empty string. */
  lemma {:induction false} TrimAllSpace(s: string)
    requires forall i :: 0 <= i < |s| ==> IsSpace(s[i])
    ensures Trim(s) == ""
  {
    TrimStartAllSpace(s);
  }

  lemma {:induction false} TrimStartAllSpace(s: string)
    requires forall i :: 0 <= i < |s| ==> IsSpace(s[i])
    ensures TrimStart(s) == ""
  {
    if |s| > 0 {
      assert IsSpace(s[0]);
      TrimStartAllSpace(s[1..]);
    }
  }

  // ---------------------------------------------------------------------------------------
  // Prefixes, includes, split, join

  predicate StartsWith(s: string, prefix: string) {
    |prefix| <= |s| && s[..|prefix|] == prefix
  }

  /** `String.prototype.includes`. */
  predicate Contains(s: string, sub: string)
    decreases |s|
  {
    StartsWith(s, sub) || (|s| > 0 && Contains(s[1..], sub))
  }

  /** `sub` occurs in `s` starting at index `i`. */
  predicate OccursAt(s: string, sub: string, i: int) {
    0 <= i <= |s| - |sub| && s[i..i + |sub|] == sub
  }

  /** `Contains` is the usual "some slice equals `sub`". */
  lemma {:induction false} ContainsAt(s: string, sub: string)
    ensures Contains(s, sub) <==> exists i :: OccursAt(s, sub, i)
  {
    if StartsWith(s, sub) {
      assert OccursAt(s, sub, 0);
    } else if |s| > 0 {
      ContainsAt(s[1..], sub);
      if Contains(s[1..], sub) {
        var i :| OccursAt(s[1..], sub, i);
        assert s[1..][i..i + |sub|] == s[i + 1..i + 1 + |sub|];
        assert OccursAt(s, sub, i + 1);
      }
      forall i | OccursAt(s, sub, i)
        ensures OccursAt(s[1..], sub, i - 1)
      {
        assert i != 0;
        assert s[1..][i - 1..i - 1 + |sub|] == s[i..i + |sub|];
      }
    } else {
      assert |sub| > 0;
    }
  }

  /** A string with a character that `s` lacks cannot occur in `s`. */
  lemma ContainsNeedsChars(s: string, sub: string, c: char)
    requires c in sub && c !in s
    ensures !Contains(s, sub)
  {
    ContainsAt(s, sub);
    var k :| 0 <= k < |sub| && sub[k] == c;
    forall i | 0 <= i <= |s| - |sub|
      ensures !OccursAt(s, sub, i)
    {
      assert s[i + k] in s;
      assert s[i..i + |sub|][k] != sub[k];
    }
  }

  /** `String.prototype.split` with a one-character separator (never empty: `"".split(",")` is `[""]`). */
  function Split(s: string, sep: char): (r: seq<string>)
    ensures |r| >= 1
    ensures forall k :: 0 <= k < |r| ==> sep !in r[k]
  {
    if |s| == 0 then [""]
    else if s[0] == sep then [""] + Split(s[1..], sep)
    else
      var t := Split(s[1..], sep);
      [[s[0]] + t[0]] + t[1..]
  }

  /** Where the separator first occurs, `split` cuts. */
  lemma {:induction false} SplitAt(a: string, sep: char, b: string)
    requires sep !in a
    ensures Split(a + [sep] + b, sep) == [a] + Split(b, sep)
  {
    if |a| > 0 {
      SplitAt(a[1..], sep, b);
      assert (a + [sep] + b)[1..] == a[1..] + [sep] + b;
      assert [a[0]] + a[1..] == a;
    } else {
      assert a + [sep] + b == [sep] + b;
      assert ([sep] + b)[1..] == b;
    }
  }

  /** Without the separator, `split` gives the string back whole. */
  lemma {:induction false} SplitNone(a: string, sep: char)
    requires sep !in a
    ensures Split(a, sep) == [a]
  {
    if |a| > 0 {
      SplitNone(a[1..], sep);
      assert [a[0]] + a[1..] == a;
    }
  }

  /** Joining the pieces by the separator gives the string back. */
  lemma {:induction false} JoinSplit(s: string, sep: char)
    ensures Join(Split(s, sep), [sep]) == s
  {
    if |s| > 0 {
      JoinSplit(s[1..], sep);
      var t := Split(s[1..], sep);
      assert s == [s[0]] + s[1..];
      if s[0] == sep {
        assert ([""] + t)[1..] == t;
      } else if |t| > 1 {
        var r := [[s[0]] + t[0]] + t[1..];
        assert r[1..] == t[1..];
        assert Join(t, [sep]) == t[0] + [sep] + Join(t[1..], [sep]);
      }
    }
  }

  /** `Array.prototype.join`. */
  function Join(xs: seq<string>, sep: string): (r: string)
    ensures xs == [] ==> r == ""
    ensures |xs| == 1 ==> r == xs[0]
  {
    if |xs| == 0 then ""
    else if |xs| == 1 then xs[0]
    else xs[0] + sep + Join(xs[1..], sep)
  }

  /** Joining strings without white space by a separator without white space keeps it out. */
  lemma {:induction false} JoinNoSpace(xs: seq<string>, sep: string)
    requires NoSpace(sep)
    requires forall k :: 0 <= k < |xs| ==> NoSpace(xs[k])
    ensures NoSpace(Join(xs, sep))
  {
    if |xs| > 1 {
      JoinNoSpace(xs[1..], sep);
      var rest := Join(xs[1..], sep);
      assert Join(xs, sep) == xs[0] + sep + rest;
      forall i | 0 <= i < |xs[0] + sep + rest|
        ensures !IsSpace((xs[0] + sep + rest)[i])
      {
        if i < |xs[0]| {
        } else if i < |xs[0]| + |sep| {
          assert (xs[0] + sep + rest)[i] == sep[i - |xs[0]|];
        } else {
          assert (xs[0] + sep + rest)[i] == rest[i - |xs[0]| - |sep|];
        }
      }
    }
  }

  /** `String.prototype.substring(0, n)`. */
  function Take(s: string, n: nat): (r: string)
    ensures |r| == if n < |s| then n else |s|
    ensures StartsWith(s, r)
  {
    if n < |s| then s[..n] else s
  }

  // ---------------------------------------------------------------------------------------
  // Arrays

  /** `xs[i]` on a JavaScript array: `undefined` outside `0 <= i < xs.length`. */
  function At<T>(xs: seq<T>, i: int): (r: Option<T>)
    ensures r.Some? <==> 0 <= i < |xs|
    ensures r.Some? ==> r.value == xs[i]
  {
    if 0 <= i < |xs| then Some(xs[i]) else None
  }

  /** `Array.prototype.indexOf`: the first index holding `x`, or -1. */
  function IndexOf<T(==)>(xs: seq<T>, x: T): (r: int)
    ensures -1 <= r < |xs|
    ensures r == -1 <==> x !in xs
    ensures r >= 0 ==> xs[r] == x && x !in xs[..r]
  {
    if |xs| == 0 then -1
    else if xs[0] == x then 0
    else
      var k := IndexOf(xs[1..], x);
      assert xs[1..][..if k < 0 then 0 else k] == xs[1..if k < 0 then 1 else k + 1];
      if k < 0 then -1 else k + 1
  }

  /** `Array.prototype.lastIndexOf`: the last index holding `x`, or -1. */
  function LastIndexOf<T(==)>(xs: seq<T>, x: T): (r: int)
    ensures -1 <= r < |xs|
    ensures r == -1 <==> x !in xs
    ensures r >= 0 ==> xs[r] == x && x !in xs[r + 1..]
  {
    if |xs| == 0 then -1
    else if xs[|xs| - 1] == x then |xs| - 1
    else
      var init := xs[..|xs| - 1];
      var r := LastIndexOf(init, x);
      assert xs == init + [xs[|xs| - 1]];
      assert r >= 0 ==> xs[r + 1..] == init[r + 1..] + [xs[|xs| - 1]];
      r
  }

  /** `a || b` where both sides are strings or `undefined`: the first unless it is falsy. */
  function OrElse(a: Option<string>, b: Option<string>): (r: Option<string>)
    ensures r == if a.Some? && a.value != "" then a else b
  {
    if a.Some? && a.value != "" then a else b
  }

  // ---------------------------------------------------------------------------------------
  // Decimal text of integers

  function DigitChar(d: nat): (c: char)
    requires d < 10
    ensures IsDigit(c)
  {
    ('0' as int + d) as char
  }

  function DigitValue(c: char): (d: nat)
    requires IsDigit(c)
    ensures d < 10 && DigitChar(d) == c
  {
    c as int - '0' as int
  }

  predicate AllDigits(s: string) {
    forall i :: 0 <= i < |s| ==> IsDigit(s[i])
  }

  /** The number a string of decimal digits denotes. */
  function DigitsValue(s: string): nat
    requires AllDigits(s)
  {
    if |s| == 0 then 0 else 10 * DigitsValue(s[..|s| - 1]) + DigitValue(s[|s| - 1])
  }

  /** `Number.prototype.toString()` on a non-negative integer. */
  function NatToString(n: nat): (s: string)
    ensures |s| >= 1 && AllDigits(s)
    ensures |s| > 1 ==> s[0] != '0'
  {
    if n < 10 then [DigitChar(n)] else NatToString(n / 10) + [DigitChar(n % 10)]
  }

  /** Reading back the decimal text of `n` gives `n`. */
  lemma {:induction false} NatToStringValue(n: nat)
    ensures DigitsValue(NatToString(n)) == n
  {
    if n >= 10 {
      NatToStringValue(n / 10);
      var s := NatToString(n);
      assert s[..|s| - 1] == NatToString(n / 10);
    }
  }

  /** Different numbers have different decimal texts. */
  lemma NatToStringInjective(a: nat, b: nat)
    requires NatToString(a) == NatToString(b)
    ensures a == b
  {
    NatToStringValue(a);
    NatToStringValue(b);
  }

  /** `Number.prototype.toString()` on an integer. */
  function IntToString(n: int): (s: string)
    ensures |s| >= 1
  {
    if n < 0 then "-" + NatToString(-n) else NatToString(n)
  }

  /** `n.toString().padStart(2, '0')`. */
  function Pad2(n: nat): (s: string)
    ensures AllDigits(s)
    ensures n < 100 ==> |s| == 2
  {
    assert 10 <= n < 100 ==> NatToString(n) == NatToString(n / 10) + [DigitChar(n % 10)];
    var t := NatToString(n);
    if |t| < 2 then "0" + t else t
  }

  /** Two-digit padding loses nothing: the padded text still denotes `n`. */
  lemma Pad2Value(n: nat)
    ensures DigitsValue(Pad2(n)) == n
  {
    NatToStringValue(n);
    var t := NatToString(n);
    if |t| < 2 {
      assert ("0" + t)[..1] == "0";
    }
  }

  // ---------------------------------------------------------------------------------------
  // Numbers

  /** A JavaScript number, with reals in place of binary64 values (-0 is folded into 0). */
  datatype JsNumber = Finite(value: real) | Infinite(negative: bool) | NaN

  /** `n > 0`: false for NaN. */
  predicate IsPositive(n: JsNumber) {
    match n
    case Finite(v) => v > 0.0
    case Infinite(neg) => !neg
    case NaN => false
  }

  /** `n < 0`: false for NaN. */
  predicate IsNegative(n: JsNumber) {
    match n
    case Finite(v) => v < 0.0
    case Infinite(neg) => neg
    case NaN => false
  }

  /** JavaScript truthiness of a number: 0 and NaN are falsy. */
  predicate Truthy(n: JsNumber) {
    match n
    case Finite(v) => v != 0.0
    case Infinite(_) => true
    case NaN => false
  }

  function Pow10Nat(k: nat): (r: nat)
    ensures r >= 1
  {
    if k == 0 then 1 else 10 * Pow10Nat(k - 1)
  }

  function Pow10(k: int): (r: real)
    ensures r > 0.0
  {
    if k >= 0 then Pow10Nat(k) as real else 1.0 / Pow10Nat(-k) as real
  }

  /** The digits `n` scaled by ten to the power `e`. */
  function Scaled(n: nat, e: int): (r: real)
    ensures e == 0 ==> r == n as real
  {
    n as real * Pow10(e)
  }

  /** The end of the run of decimal digits starting at `i`. */
  function DigitsEnd(s: string, i: nat): (r: nat)
    requires i <= |s|
    ensures i <= r <= |s|
    ensures AllDigits(s[i..r])
    ensures r == |s| || !IsDigit(s[r])
    decreases |s| - i
  {
    if i < |s| && IsDigit(s[i]) then DigitsEnd(s, i + 1) else i
  }

  /** The exponent of a decimal literal whose exponent part would start at `k`; 0 without one. */
  function ExponentAt(s: string, k: nat): int
    requires k <= |s|
  {
    if k < |s| && (s[k] == 'e' || s[k] == 'E') then
      var neg := k + 1 < |s| && s[k + 1] == '-';
      var j := if k + 1 < |s| && (s[k + 1] == '-' || s[k + 1] == '+') then k + 2 else k + 1;
      var e := DigitsEnd(s, j);
      if e > j then (if neg then -(DigitsValue(s[j..e]) as int) else DigitsValue(s[j..e])) else 0
    else 0
  }

  /**
   * The unsigned decimal literal at the start of `body` (digits, an optional point and
   * fraction, an optional exponent), read as a real; `None` when it has no digit.
   */
  function UnsignedDecimal(body: string): (r: Option<real>)
    ensures r.None? <==> DigitsEnd(body, 0) == 0 && !(|body| > 1 && body[0] == '.' && IsDigit(body[1]))
  {
    var intEnd := DigitsEnd(body, 0);
    var hasDot := intEnd < |body| && body[intEnd] == '.';
    var fracEnd := if hasDot then DigitsEnd(body, intEnd + 1) else intEnd;
    var fracLen := if hasDot then fracEnd - (intEnd + 1) else 0;
    if intEnd == 0 && fracLen == 0 then None
    else
      var digits := body[..intEnd] + (if hasDot then body[intEnd + 1..fracEnd] else "");
      Some(Scaled(DigitsValue(digits), ExponentAt(body, fracEnd) - fracLen))
  }

  /**
   * `parseFloat`: after leading white space, the longest prefix that is an optionally signed
   * `Infinity` or decimal literal; NaN when there is none.
   */
  function ParseFloat(s: string): (r: JsNumber)
    ensures r.NaN? <==> var t := TrimStart(s);
      var body := if |t| > 0 && (t[0] == '-' || t[0] == '+') then t[1..] else t;
      !StartsWith(body, "Infinity") && UnsignedDecimal(body).None?
  {
    var t := TrimStart(s);
    var neg := |t| > 0 && t[0] == '-';
    var body := if |t| > 0 && (t[0] == '-' || t[0] == '+') then t[1..] else t;
    if StartsWith(body, "Infinity") then Infinite(neg)
    else
      match UnsignedDecimal(body)
      case None => NaN
      case Some(v) => Finite(if neg then -v else v)
  }

  /** `parseFloat` reads a lone digit as its value. */
  lemma ParseFloatDigit(d: nat)
    requires d < 10
    ensures ParseFloat([DigitChar(d)]) == Finite(d as real)
  {
    var s := [DigitChar(d)];
    NoLeadingSpace(s);
    assert !StartsWith(s, "Infinity") by {
      assert |s| < |"Infinity"|;
    }
    assert UnsignedDecimal(s) == Some(d as real) by {
      UnsignedDigits(s);
      assert s[..0] == [];
    }
  }

  /** A string that does not start with white space is its own `trimStart`. */
  lemma NoLeadingSpace(s: string)
    requires s != [] && IsDigit(s[0])
    ensures TrimStart(s) == s
  {
  }

  lemma UnsignedDigits(s: string)
    requires |s| >= 1 && AllDigits(s)
    ensures UnsignedDecimal(s) == Some(DigitsValue(s) as real)
  {
    DigitsEndAll(s, 0);
    assert DigitsEnd(s, 0) == |s|;
    assert ExponentAt(s, |s|) == 0;
    assert s[..|s|] + "" == s;
  }

  lemma {:induction false} DigitsEndAll(s: string, i: nat)
    requires i <= |s| && AllDigits(s)
    ensures DigitsEnd(s, i) == |s|
    decreases |s| - i
  {
    if i < |s| {
      DigitsEndAll(s, i + 1);
    }
  }

  /**
   * `Number.prototype.toFixed(2)` read back by `parseFloat`: the value rounded to two
   * decimals, halves away from zero; at 1e21 and beyond `toFixed` prints the number itself.
   */
  function RoundTo2(n: JsNumber): (r: JsNumber)
    ensures r.NaN? <==> n.NaN?
    ensures n.Infinite? ==> r == n
    ensures n.Finite? ==> r.Finite? && -0.005 <= r.value - n.value <= 0.005
  {
    match n
    case Finite(x) =>
      if x >= 1000000000000000000000.0 || x <= -1000000000000000000000.0 then n
      else
        var m := if x >= 0.0 then x else -x;
        var k := (m * 100.0 + 0.5).Floor;
        var a := k as real / 100.0;
        Finite(if x >= 0.0 then a else -a)
    case _ => n
  }

  /** `a + b` on numbers, exact on finite values: NaN absorbs, opposite infinities give NaN. */
  function Add(a: JsNumber, b: JsNumber): (r: JsNumber)
    ensures a.Finite? && b.Finite? ==> r == Finite(a.value + b.value)
    ensures a.NaN? || b.NaN? ==> r.NaN?
    ensures a == Finite(0.0) ==> r == b
    ensures b == Finite(0.0) ==> r == a
  {
    match (a, b)
    case (Finite(x), Finite(y)) => Finite(x + y)
    case (NaN, _) => NaN
    case (_, NaN) => NaN
    case (Infinite(n), Infinite(m)) => if n == m then a else NaN
    case (Infinite(_), Finite(_)) => a
    case (Finite(_), Infinite(_)) => b
  }
}
