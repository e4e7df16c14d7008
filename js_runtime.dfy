/** The few JavaScript built-ins that the meal logger's logic relies on:
    truthiness, `Number(x)`, `Math.round`, `String.prototype.trim` and
    `String.prototype.split` on a one-character separator.

    Numbers are fixed-point: a finite number is held as an integer count of
    hundredths, so `12.5` is `Finite(1250)`. Infinities and `-0` are not
    represented. */
module JsRuntime {

  /** A JavaScript number in hundredths, or NaN. */
  datatype Number = NaN | Finite(hundredths: int)

  /** The values a parsed JSON request body can hold in one field. Arrays and
      nested objects are both `Obj`. */
  datatype Value =
    | Undefined
    | Null
    | Bool(b: bool)
    | Num(n: Number)
    | Str(s: string)
    | Obj

  /** The falsy values: `undefined`, `null`, `false`, `NaN`, `0` and the
      empty string. */
  const FalsyValues: set<Value> := {Undefined, Null, Bool(false), Num(NaN), Num(Finite(0)), Str("")}

  /** JavaScript truthiness, as `!x` and `x || y` test it: a value is truthy
      exactly when it is not one of the six falsy values. */
  predicate Truthy(v: Value): (b: bool)
    ensures b <==> v !in FalsyValues
  {
    match v
    case Undefined => false
    case Null => false
    case Bool(b) => b
    case Num(n) => n.Finite? && n.hundredths != 0
    case Str(s) => s != ""
    case Obj => true
  }

  // ---------------------------------------------------------------------
  // Whitespace and trim
  // ---------------------------------------------------------------------

  /** The characters `trim` removes: ECMAScript WhiteSpace (tab, vertical tab,
      form feed, space, no-break space, byte order mark and the Unicode space
      separators) and LineTerminator (line feed, carriage return, line and
      paragraph separators). */
  predicate IsWhiteSpace(c: char) {
    || c == '\t' || c == '\n' || c == '\U{000B}' || c == '\U{000C}' || c == '\r'
    || c == ' ' || c == '\U{00A0}' || c == '\U{1680}'
    || ('\U{2000}' <= c <= '\U{200A}')
    || c == '\U{2028}' || c == '\U{2029}' || c == '\U{202F}' || c == '\U{205F}'
    || c == '\U{3000}' || c == '\U{FEFF}'
  }

  /** `trimStart`: the longest suffix of `s` that does not start with
      whitespace; everything dropped is whitespace. */
  function TrimStart(s: string): (r: string)
    ensures |r| <= |s| && r == s[|s| - |r|..]
    ensures forall k :: 0 <= k < |s| - |r| ==> IsWhiteSpace(s[k])
    ensures r == [] || !IsWhiteSpace(r[0])
  {
    if s != [] && IsWhiteSpace(s[0]) then TrimStart(s[1..]) else s
  }

  /** `trimEnd`: the longest prefix of `s` that does not end with whitespace;
      everything dropped is whitespace. */
  function TrimEnd(s: string): (r: string)
    ensures |r| <= |s| && r == s[..|r|]
    ensures forall k :: |r| <= k < |s| ==> IsWhiteSpace(s[k])
    ensures r == [] || !IsWhiteSpace(r[|r| - 1])
  {
    if s != [] && IsWhiteSpace(s[|s| - 1]) then TrimEnd(s[..|s| - 1]) else s
  }

  /** `s.trim()`: a middle slice of `s` that neither starts nor ends with
      whitespace, with only whitespace cut away on either side. */
  function Trim(s: string): (r: string)
    ensures r == [] || (!IsWhiteSpace(r[0]) && !IsWhiteSpace(r[|r| - 1]))
    ensures exists i, j ::
      && 0 <= i <= j <= |s| && r == s[i..j]
      && (forall k :: 0 <= k < i ==> IsWhiteSpace(s[k]))
      && (forall k :: j <= k < |s| ==> IsWhiteSpace(s[k]))
  {
    var t := TrimStart(s);
    var r := TrimEnd(t);
    var i := |s| - |t|;
    assert r == s[i..i + |r|];
    forall k | i + |r| <= k < |s| ensures IsWhiteSpace(s[k]) {
      assert s[k] == t[k - i];
    }
    r
  }

  /** Trimming leaves the empty string exactly when the input is all
      whitespace (the empty string included). */
  lemma TrimEmptyIff(s: string)
    ensures Trim(s) == [] <==> forall k :: 0 <= k < |s| ==> IsWhiteSpace(s[k])
  {
    var r := Trim(s);
    var i, j :| && 0 <= i <= j <= |s| && r == s[i..j]
                && (forall k :: 0 <= k < i ==> IsWhiteSpace(s[k]))
                && (forall k :: j <= k < |s| ==> IsWhiteSpace(s[k]));
    if r != [] {
      assert s[i] == r[0];
    }
  }

  /** Trimming twice is trimming once. */
  lemma TrimIdempotent(s: string)
    ensures Trim(Trim(s)) == Trim(s)
  {
    var r := Trim(s);
    if r != [] {
      assert TrimStart(r) == r;
      assert TrimEnd(r) == r;
    }
  }

  // ---------------------------------------------------------------------
  // Number(x) and Math.round
  // ---------------------------------------------------------------------

  predicate IsDigit(c: char) { '0' <= c <= '9' }

  predicate AllDigits(s: string) { forall k :: 0 <= k < |s| ==> IsDigit(s[k]) }

  /** The value of a run of decimal digits, most significant first. */
  function DigitsValue(s: string): (n: nat)
    requires AllDigits(s)
  {
    if s == [] then 0
    else 10 * DigitsValue(s[..|s| - 1]) + (s[|s| - 1] as int - '0' as int)
  }

  /** An optional sign followed by at least one decimal digit. */
  predicate SignedDigits(t: string) {
    |t| > 1 && (t[0] == '+' || t[0] == '-') && AllDigits(t[1..])
  }

  /** `Number(s)` for a string: surrounding whitespace is ignored, the empty
      string is 0, an optionally signed run of decimal digits is that
      integer, anything else is NaN. */
  function StringToNumber(s: string): (n: Number)
    ensures Trim(s) == [] ==> n == Finite(0)
    ensures AllDigits(Trim(s)) ==> n == Finite(100 * DigitsValue(Trim(s)))
    ensures SignedDigits(Trim(s)) ==>
      n == Finite(if Trim(s)[0] == '-' then -100 * DigitsValue(Trim(s)[1..]) else 100 * DigitsValue(Trim(s)[1..]))
    ensures n.NaN? <==> !AllDigits(Trim(s)) && !SignedDigits(Trim(s))
  {
    var t := Trim(s);
    if t == [] then Finite(0)
    else if AllDigits(t) then Finite(100 * DigitsValue(t))
    else if SignedDigits(t) then
      var v := 100 * DigitsValue(t[1..]);
      Finite(if t[0] == '-' then -v else v)
    else NaN
  }

  /** The decimal numeral of `n`, without leading zeros ("0" for zero). */
  function Decimal(n: nat): (s: string)
    ensures s != [] && AllDigits(s)
  {
    var last := ['0' + (n % 10) as char];
    if n < 10 then last else Decimal(n / 10) + last
  }

  /** Reading back the numeral of `n` gives `n`. */
  lemma {:induction false} DigitsValueDecimal(n: nat)
    ensures DigitsValue(Decimal(n)) == n
  {
    var s := Decimal(n);
    if n >= 10 {
      DigitsValueDecimal(n / 10);
      assert s[..|s| - 1] == Decimal(n / 10);
    }
  }

  /** A string without whitespace at either end is its own trim. */
  lemma TrimUnpadded(s: string)
    requires s != [] && !IsWhiteSpace(s[0]) && !IsWhiteSpace(s[|s| - 1])
    ensures Trim(s) == s
  {
    assert TrimStart(s) == s;
  }

  /** `Number` reads the numeral of `n` as `n`: the round trip with
      `String(n)` for whole numbers. */
  lemma StringToNumberDecimal(n: nat)
    ensures StringToNumber(Decimal(n)) == Finite(100 * n)
  {
    DigitsValueDecimal(n);
    TrimUnpadded(Decimal(n));
  }

  /** A sign in front of the numeral of `n` gives `n` or its negation. */
  lemma StringToNumberSigned(n: nat, sign: char)
    requires sign == '+' || sign == '-'
    ensures StringToNumber([sign] + Decimal(n)) == Finite(if sign == '-' then -100 * n else 100 * n)
  {
    var d := Decimal(n);
    var t := [sign] + d;
    DigitsValueDecimal(n);
    TrimUnpadded(t);
    assert t[1..] == d;
    assert !IsDigit(t[0]);
    assert SignedDigits(t);
  }

  /** `Number(v)`: `undefined` and objects give NaN, `null` gives 0, booleans
      give 0 or 1, numbers are themselves and strings are parsed. */
  function NumberOf(v: Value): (n: Number)
    ensures v.Num? ==> n == v.n
    ensures v.Undefined? || v.Obj? ==> n == NaN
    ensures v.Null? ==> n == Finite(0)
    ensures v.Bool? ==> n == Finite(if v.b then 100 else 0)
    ensures v.Str? ==> n == StringToNumber(v.s)
  {
    match v
    case Undefined => NaN
    case Null => Finite(0)
    case Bool(b) => Finite(if b then 100 else 0)
    case Num(n) => n
    case Str(s) => StringToNumber(s)
    case Obj => NaN
  }

  /** `Math.round(num / den)`: the integer nearest to the quotient, halves
      rounded up (towards positive infinity), i.e. floor(num / den + 1/2). */
  function MathRound(num: int, den: int): (r: int)
    requires den > 0
    ensures den * (2 * r - 1) <= 2 * num < den * (2 * r + 1)
  {
    var q := (2 * num + den) / (2 * den);
    assert 2 * den * q <= 2 * num + den < 2 * den * q + 2 * den;
    q
  }

  /** The bounds in `MathRound`'s contract pin the result down: no other
      integer lies within half a unit of the quotient on those terms. */
  lemma MathRoundUnique(num: int, den: int, r: int)
    requires den > 0
    requires den * (2 * r - 1) <= 2 * num < den * (2 * r + 1)
    ensures r == MathRound(num, den)
  {
    var q := MathRound(num, den);
    CancelFactor(den, 2 * r - 1, 2 * q + 1);
    CancelFactor(den, 2 * q - 1, 2 * r + 1);
  }

  /** Dividing both sides of a strict inequality by a positive factor. */
  lemma CancelFactor(d: int, x: int, y: int)
    requires d > 0 && d * x < d * y
    ensures x < y
  {
  }

  // ---------------------------------------------------------------------
  // split and join on a one-character separator
  // ---------------------------------------------------------------------

  /** `s.split(sep)`: the maximal separator-free pieces between separators;
      there is always at least one piece. */
  function Split(s: string, sep: char): (parts: seq<string>)
    ensures |parts| >= 1
    ensures forall i :: 0 <= i < |parts| ==> sep !in parts[i]
  {
    if s == [] then [""]
    else
      var rest := Split(s[1..], sep);
      if s[0] == sep then [""] + rest
      else [[s[0]] + rest[0]] + rest[1..]
  }

  /** `parts.join(sep)`. */
  function Join(parts: seq<string>, sep: char): string
    requires |parts| >= 1
  {
    if |parts| == 1 then parts[0] else parts[0] + [sep] + Join(parts[1..], sep)
  }

  /** Joining the pieces of a split gives back the original string. */
  lemma {:induction false} JoinSplit(s: string, sep: char)
    ensures Join(Split(s, sep), sep) == s
  {
    if s != [] {
      var rest := Split(s[1..], sep);
      JoinSplit(s[1..], sep);
      if s[0] != sep {
        if |rest| == 1 {
          assert Join(Split(s, sep), sep) == [s[0]] + rest[0];
        } else {
          assert Join(Split(s, sep), sep) == [s[0]] + rest[0] + [sep] + Join(rest[1..], sep);
          assert Join(rest, sep) == rest[0] + [sep] + Join(rest[1..], sep);
        }
      }
    }
  }

  /** A separator-free string splits into itself alone. */
  lemma {:induction false} SplitNoSeparator(s: string, sep: char)
    requires sep !in s
    ensures Split(s, sep) == [s]
  {
    if s != [] {
      SplitNoSeparator(s[1..], sep);
      assert [s[0]] + s[1..] == s;
    }
  }

  /** A separator-free piece followed by the separator splits off as the
      first piece. */
  lemma {:induction false} SplitPiece(a: string, sep: char, b: string)
    requires sep !in a
    ensures Split(a + [sep] + b, sep) == [a] + Split(b, sep)
  {
    if a == [] {
      assert a + [sep] + b == [sep] + b;
      assert ([sep] + b)[1..] == b;
    } else {
      assert (a + [sep] + b)[1..] == a[1..] + [sep] + b;
      SplitPiece(a[1..], sep, b);
      assert [a[0]] + a[1..] == a;
    }
  }

  /** Splitting a join of separator-free pieces gives back the pieces. */
  lemma {:induction false} SplitJoin(parts: seq<string>, sep: char)
    requires |parts| >= 1
    requires forall i :: 0 <= i < |parts| ==> sep !in parts[i]
    ensures Split(Join(parts, sep), sep) == parts
  {
    if |parts| == 1 {
      SplitNoSeparator(parts[0], sep);
    } else {
      SplitJoin(parts[1..], sep);
      SplitPiece(parts[0], sep, Join(parts[1..], sep));
      assert [parts[0]] + parts[1..] == parts;
    }
  }
}
