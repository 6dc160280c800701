/** Shared vocabulary: optional values, JavaScript truthiness, and the string
    and number conversions of the JavaScript runtime that the parking API
    relies on (trim, split, case mapping, parseInt, number-to-string). */
module Common {

  datatype Option<+T> = None | Some(value: T)

  datatype Result<+T, +E> = Ok(value: T) | Err(error: E)

  /** A numeric id as JavaScript sees it: absent (undefined) and 0 are falsy. */
  predicate TruthyId(x: Option<int>) {
    x.Some? && x.value != 0
  }

  /** A string-valued field: absent and "" are falsy. */
  predicate TruthyText(x: Option<string>) {
    x.Some? && x.value != ""
  }

  /** A scalar value of a JSON request body (booleans, fractions and
      objects are not modelled). */
  datatype Scalar = Num(n: int) | Str(s: string)

  /** A body field as JavaScript's `if (field)` sees it. */
  predicate TruthyScalar(v: Option<Scalar>) {
    match v
    case None => false
    case Some(Num(n)) => n != 0
    case Some(Str(s)) => s != ""
  }

  // ---------------------------------------------------------------------
  // Characters and case mapping

  /** JavaScript WhiteSpace and LineTerminator code points (the `\s` class of
      regular expressions and the characters String.prototype.trim removes). */
  predicate IsWhite(c: char) {
    c == ' ' || c == '\t' || c == '\n' || c == '\r' || c == '\U{000B}' || c == '\U{000C}'
    || c == '\U{00A0}' || c == '\U{1680}' || ('\U{2000}' <= c <= '\U{200A}')
    || c == '\U{2028}' || c == '\U{2029}' || c == '\U{202F}' || c == '\U{205F}'
    || c == '\U{3000}' || c == '\U{FEFF}'
  }

  function LowerChar(c: char): char {
    if 'A' <= c <= 'Z' then (c as int + 32) as char else c
  }

  /** Upper-casing of the letters that matter here: ASCII, plus the dotless
      i (U+0131) which String.prototype.toUpperCase maps to 'I'. */
  function UpperChar(c: char): char {
    if 'a' <= c <= 'z' then (c as int - 32) as char
    else if c == '\U{0131}' then 'I'
    else c
  }

  function Lower(s: string): (r: string)
    ensures |r| == |s|
    ensures forall i :: 0 <= i < |s| ==> r[i] == LowerChar(s[i])
  {
    if s == [] then [] else [LowerChar(s[0])] + Lower(s[1..])
  }

  function Upper(s: string): (r: string)
    ensures |r| == |s|
    ensures forall i :: 0 <= i < |s| ==> r[i] == UpperChar(s[i])
  {
    if s == [] then [] else [UpperChar(s[0])] + Upper(s[1..])
  }

  // ---------------------------------------------------------------------
  // Substrings

  predicate StartsWith(s: string, p: string) {
    |p| <= |s| && s[..|p|] == p
  }

  /** String.prototype.includes */
  predicate Contains(s: string, p: string) {
    StartsWith(s, p) || (s != [] && Contains(s[1..], p))
  }

  /** `includes` cannot succeed when a character of `p` is missing from `s`. */
  lemma {:induction false} MissingCharNotContained(s: string, p: string, k: int)
    requires 0 <= k < |p| && p[k] !in s
    ensures !Contains(s, p)
  {
    if !StartsWith(s, p) && s != [] {
      MissingCharNotContained(s[1..], p, k);
    }
  }

  // ---------------------------------------------------------------------
  // trim

  function TrimStart(s: string): (r: string)
    ensures |r| <= |s| && r == s[|s| - |r|..]
    ensures r == [] || !IsWhite(r[0])
    ensures forall i :: 0 <= i < |s| - |r| ==> IsWhite(s[i])
  {
    if s != [] && IsWhite(s[0]) then TrimStart(s[1..]) else s
  }

  function TrimEnd(s: string): (r: string)
    ensures |r| <= |s| && r == s[..|r|]
    ensures r == [] || !IsWhite(r[|r| - 1])
    ensures forall i :: |r| <= i < |s| ==> IsWhite(s[i])
  {
    if s != [] && IsWhite(s[|s| - 1]) then TrimEnd(s[..|s| - 1]) else s
  }

  /** String.prototype.trim */
  function Trim(s: string): (r: string)
  {
    TrimEnd(TrimStart(s))
  }

  /** Text that does not start with white space is its own TrimStart. */
  lemma TrimStartUnchanged(s: string)
    requires s != [] && !IsWhite(s[0])
    ensures TrimStart(s) == s
  {
  }

  /** Text without white space at either end is its own trim. */
  lemma TrimUnchanged(s: string)
    requires s == [] || (!IsWhite(s[0]) && !IsWhite(s[|s| - 1]))
    ensures Trim(s) == s
  {
    assert TrimStart(s) == s;
  }

  lemma TrimShape(s: string)
    ensures var r := Trim(s); r == [] || (!IsWhite(r[0]) && !IsWhite(r[|r| - 1]))
  {
    var t := TrimStart(s);
    var r := TrimEnd(t);
    if r != [] {
      assert r[0] == t[0];
    }
  }

  lemma {:induction false} TrimIdempotent(s: string)
    ensures Trim(Trim(s)) == Trim(s)
  {
    var r := Trim(s);
    TrimShape(s);
    assert TrimStart(r) == r;
    assert TrimEnd(r) == r;
  }

  // ---------------------------------------------------------------------
  // split / join on a one-character separator

  /** String.prototype.split with a one-character separator: the pieces
      between separators, empty pieces included. */
  function Split(s: string, c: char): (parts: seq<string>)
    ensures |parts| >= 1
    ensures forall k :: 0 <= k < |parts| ==> c !in parts[k]
  {
    if s == [] then [""]
    else
      var rest := Split(s[1..], c);
      if s[0] == c then [""] + rest
      else [[s[0]] + rest[0]] + rest[1..]
  }

  function Join(parts: seq<string>, c: char): string
  {
    if parts == [] then ""
    else if |parts| == 1 then parts[0]
    else parts[0] + [c] + Join(parts[1..], c)
  }

  lemma {:induction false} JoinSplit(s: string, c: char)
    ensures Join(Split(s, c), c) == s
  {
    if s != [] {
      var rest := Split(s[1..], c);
      JoinSplit(s[1..], c);
      if s[0] == c {
        assert Split(s, c) == [""] + rest;
        assert Join([""] + rest, c) == "" + [c] + Join(rest, c);
        assert s == [s[0]] + s[1..];
      } else {
        var parts := Split(s, c);
        assert parts == [[s[0]] + rest[0]] + rest[1..];
        if |rest| == 1 {
          assert Join(parts, c) == [s[0]] + rest[0];
        } else {
          assert Join(rest, c) == rest[0] + [c] + Join(rest[1..], c);
          assert parts[1..] == rest[1..];
          assert Join(parts, c) == [s[0]] + rest[0] + [c] + Join(rest[1..], c);
        }
        assert s == [s[0]] + s[1..];
      }
    }
  }

  lemma {:induction false} SplitNoSeparator(s: string, c: char)
    requires c !in s
    ensures Split(s, c) == [s]
  {
    if s != [] {
      SplitNoSeparator(s[1..], c);
      assert [s[0]] + s[1..] == s;
    }
  }

  lemma {:induction false} SplitAround(a: string, b: string, c: char)
    ensures Split(a + [c] + b, c) == Split(a, c) + Split(b, c)
  {
    if a == [] {
      assert a + [c] + b == [c] + b;
      assert ([c] + b)[1..] == b;
    } else {
      var s := a + [c] + b;
      assert s[0] == a[0] && s[1..] == a[1..] + [c] + b;
      SplitAround(a[1..], b, c);
      var ra := Split(a[1..], c);
      assert Split(s[1..], c) == ra + Split(b, c);
      if a[0] != c {
        assert (ra + Split(b, c))[0] == ra[0];
        assert (ra + Split(b, c))[1..] == ra[1..] + Split(b, c);
      }
    }
  }

  /** Splitting a join gives the pieces back when none holds the separator. */
  lemma {:induction false} SplitJoin(parts: seq<string>, c: char)
    requires |parts| >= 1
    requires forall k :: 0 <= k < |parts| ==> c !in parts[k]
    ensures Split(Join(parts, c), c) == parts
  {
    if |parts| == 1 {
      SplitNoSeparator(parts[0], c);
    } else {
      SplitJoin(parts[1..], c);
      SplitAround(parts[0], Join(parts[1..], c), c);
      SplitNoSeparator(parts[0], c);
      assert [parts[0]] + parts[1..] == parts;
    }
  }

  /** The first piece of a split is the longest prefix without the
      separator: it is followed by the separator or by the end. */
  lemma {:induction false} FirstPiece(s: string, c: char)
    ensures var r := Split(s, c)[0];
      |r| <= |s| && r == s[..|r|] && (|r| < |s| ==> s[|r|] == c)
  {
    if s != [] && s[0] != c {
      FirstPiece(s[1..], c);
    }
  }

  /** The last piece of `s` split on `c` (Array.prototype.pop after split). */
  function LastPiece(s: string, c: char): (r: string)
    ensures c !in r
  {
    var parts := Split(s, c);
    parts[|parts| - 1]
  }

  lemma LastPieceAfterSeparator(a: string, b: string, c: char)
    requires c !in b
    ensures LastPiece(a + [c] + b, c) == b
  {
    SplitAround(a, b, c);
    SplitNoSeparator(b, c);
  }

  // ---------------------------------------------------------------------
  // Digits, parseInt and number-to-string

  function DigitValue(c: char): int {
    if '0' <= c <= '9' then c as int - '0' as int
    else if 'a' <= c <= 'z' then c as int - 'a' as int + 10
    else if 'A' <= c <= 'Z' then c as int - 'A' as int + 10
    else 36
  }

  predicate IsDigitIn(c: char, base: int) {
    DigitValue(c) < base
  }

  /** The longest prefix of `s` made of digits of the given base. */
  function DigitPrefix(s: string, base: int): (r: string)
    ensures |r| <= |s| && r == s[..|r|]
    ensures forall i :: 0 <= i < |r| ==> IsDigitIn(r[i], base)
    ensures |r| < |s| ==> !IsDigitIn(s[|r|], base)
  {
    if s != [] && IsDigitIn(s[0], base) then [s[0]] + DigitPrefix(s[1..], base) else []
  }

  function DigitsValue(ds: string, base: int): int
  {
    if ds == [] then 0 else DigitsValue(ds[..|ds| - 1], base) * base + DigitValue(ds[|ds| - 1])
  }

  predicate HexPrefixed(u: string) {
    |u| >= 2 && u[0] == '0' && (u[1] == 'x' || u[1] == 'X')
  }

  /** The value of the digits of `base` at the head of `u`; None (NaN) when
      there is none. */
  function ReadDigits(u: string, base: int): Option<int> {
    var ds := DigitPrefix(u, base);
    if ds == [] then None else Some(DigitsValue(ds, base))
  }

  function ParseUnsigned(u: string): Option<int> {
    if HexPrefixed(u) then ReadDigits(u[2..], 16) else ReadDigits(u, 10)
  }

  function Negate(r: Option<int>): Option<int> {
    match r
    case None => None
    case Some(n) => Some(-n)
  }

  lemma NegateSome(r: Option<int>, v: int)
    requires r == Some(v)
    ensures Negate(r) == Some(-v)
  {
  }

  /** JavaScript parseInt(s) with no radix: leading white space is skipped,
      one sign is accepted, a "0x"/"0X" prefix selects base 16, and the
      longest run of digits that follows is read; no digit at all is NaN
      (None). Anything after the digits is ignored. */
  function ParseInt(s: string): Option<int> {
    var t := TrimStart(s);
    if t != [] && t[0] == '-' then Negate(ParseUnsigned(t[1..]))
    else if t != [] && t[0] == '+' then ParseUnsigned(t[1..])
    else ParseUnsigned(t)
  }

  function DigitChar(d: int): char
    requires 0 <= d < 10
  {
    ('0' as int + d) as char
  }

  function NatToString(n: nat): (r: string)
    ensures r != []
    ensures forall i :: 0 <= i < |r| ==> '0' <= r[i] <= '9'
  {
    if n < 10 then [DigitChar(n)] else NatToString(n / 10) + [DigitChar(n % 10)]
  }

  /** Number.prototype.toString for an integer. */
  function IntToString(n: int): (r: string)
    ensures r != []
  {
    if n < 0 then "-" + NatToString(-n) else NatToString(n)
  }

  lemma {:induction false} NatToStringValue(n: nat)
    ensures DigitsValue(NatToString(n), 10) == n
    ensures NatToString(n)[0] == '0' ==> n == 0 && |NatToString(n)| == 1
  {
    var r := NatToString(n);
    if n >= 10 {
      NatToStringValue(n / 10);
      assert r[..|r| - 1] == NatToString(n / 10);
      assert r[0] == NatToString(n / 10)[0];
    }
  }

  lemma {:induction false} DigitsArePrefix(r: string, base: int)
    requires forall i :: 0 <= i < |r| ==> IsDigitIn(r[i], base)
    ensures DigitPrefix(r, base) == r
  {
    if r != [] {
      DigitsArePrefix(r[1..], base);
      assert [r[0]] + r[1..] == r;
    }
  }

  predicate IsDecimal(d: string) {
    d != [] && (forall i :: 0 <= i < |d| ==> '0' <= d[i] <= '9') && (d[0] == '0' ==> |d| == 1)
  }

  lemma ReadDecimal(d: string)
    requires IsDecimal(d)
    ensures ParseUnsigned(d) == Some(DigitsValue(d, 10))
  {
    assert forall i :: 0 <= i < |d| ==> IsDigitIn(d[i], 10);
    DigitsArePrefix(d, 10);
    assert !HexPrefixed(d);
  }

  /** Decimal digits are never white space. */
  lemma DigitNotWhite(c: char)
    requires '0' <= c <= '9'
    ensures !IsWhite(c)
  {
  }

  /** parseInt of "-" followed by text that starts with neither white
      space nor a sign negates the reading of that text. */
  lemma ParseAfterMinus(d: string)
    ensures ParseInt("-" + d) == Negate(ParseUnsigned(d))
  {
    var s := "-" + d;
    assert !IsWhite(s[0]);
    TrimStartUnchanged(s);
    assert s[1..] == d;
  }

  lemma ParseNegative(d: string, v: int)
    requires ParseUnsigned(d) == Some(v)
    ensures ParseInt("-" + d) == Some(-v)
  {
    ParseAfterMinus(d);
    NegateSome(ParseUnsigned(d), v);
  }

  lemma ParseDecimal(d: string)
    requires IsDecimal(d)
    ensures ParseInt(d) == Some(DigitsValue(d, 10))
  {
    ReadDecimal(d);
    DigitNotWhite(d[0]);
    TrimStartUnchanged(d);
  }

  /** parseInt reads back every integer's decimal string. */
  lemma ParseIntToString(n: int)
    ensures ParseInt(IntToString(n)) == Some(n)
  {
    var m: nat := if n < 0 then -n else n;
    var d := NatToString(m);
    NatToStringValue(m);
    if n < 0 {
      ReadDecimal(d);
      ParseNegative(d, m);
    } else {
      ParseDecimal(d);
    }
  }

  /** parseInt applied to a body field: a number is first turned into its
      decimal string. */
  function ParseIntOf(v: Scalar): Option<int> {
    match v
    case Num(n) => ParseInt(IntToString(n))
    case Str(s) => ParseInt(s)
  }

  /** parseInt gives back every integer-valued body field unchanged. */
  lemma ParseIntOfNumber(n: int)
    ensures ParseIntOf(Num(n)) == Some(n)
  {
    ParseIntToString(n);
  }
}
