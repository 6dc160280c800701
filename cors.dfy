/** The cross-origin settings read from the environment. */
module Cors {
  import opened Common

  /** The `origin` option: one origin (or "*"), or a list of origins. */
  datatype Origins = OneOrigin(origin: string) | OriginList(origins: seq<string>)

  /** `getAllowedOrigins`: unset, empty or "*" allows every origin; a value
      with a comma is split into trimmed pieces (empty ones kept); any
      other value is used as it is. */
  function AllowedOrigins(env: Option<string>): (r: Origins)
    ensures !TruthyText(env) || env == Some("*") ==> r == OneOrigin("*")
    ensures TruthyText(env) && env != Some("*") && ',' in env.value ==>
      var parts := Split(env.value, ',');
      r.OriginList? && |r.origins| == |parts| >= 2
      && forall i :: 0 <= i < |parts| ==> r.origins[i] == Trim(parts[i])
    ensures TruthyText(env) && env != Some("*") && ',' !in env.value ==> r == OneOrigin(env.value)
  {
    if !TruthyText(env) || env.value == "*" then OneOrigin("*")
    else if ',' in env.value then
      var parts := Split(env.value, ',');
      assert |parts| >= 2 by { JoinSplit(env.value, ','); }
      OriginList(seq(|parts|, i requires 0 <= i < |parts| => Trim(parts[i])))
    else OneOrigin(env.value)
  }

  /** A list of trimmed origins written with commas between them is read
      back as that list. */
  lemma OriginListRoundTrip(origins: seq<string>)
    requires |origins| >= 2
    requires forall i :: 0 <= i < |origins| ==> ',' !in origins[i] && Trim(origins[i]) == origins[i]
    ensures AllowedOrigins(Some(Join(origins, ','))) == OriginList(origins)
  {
    var env := Join(origins, ',');
    JoinedOrigins(origins);
    SplitJoin(origins, ',');
    var r := AllowedOrigins(Some(env));
    assert r.OriginList? && |r.origins| == |origins|;
    forall i | 0 <= i < |origins| ensures r.origins[i] == origins[i] {
      assert r.origins[i] == Trim(origins[i]);
    }
  }

  lemma JoinedOrigins(origins: seq<string>)
    requires |origins| >= 2
    ensures var env := Join(origins, ',');
      ',' in env && TruthyText(Some(env)) && env != "*"
  {
    var env := Join(origins, ',');
    assert env == origins[0] + [','] + Join(origins[1..], ',');
    assert env[|origins[0]|] == ',';
  }

  /** `credentials`: on unless the variable is exactly "false". */
  function Credentials(env: Option<string>): (b: bool)
    ensures !b <==> env == Some("false")
  {
    env != Some("false")
  }

  predicate AllDigits(d: string) {
    d != [] && forall i :: 0 <= i < |d| ==> '0' <= d[i] <= '9'
  }

  /** `Number(s)` for the forms modelled here: surrounding white space is
      ignored, blank is 0, and an optionally signed run of decimal digits
      is its value; anything else is NaN (None). */
  function NumberValue(s: string): Option<int> {
    var t := Trim(s);
    if t == "" then Some(0)
    else if t[0] == '-' && AllDigits(t[1..]) then Some(-DigitsValue(t[1..], 10))
    else if t[0] == '+' && AllDigits(t[1..]) then Some(DigitsValue(t[1..], 10))
    else if AllDigits(t) then Some(DigitsValue(t, 10))
    else None
  }

  const DefaultMaxAge: int := 86400

  /** `maxAge`: the variable's number when that is truthy (not 0 and not
      NaN), otherwise 86400 seconds. */
  function MaxAge(env: Option<string>): (r: int)
    ensures r != 0
    ensures env.None? ==> r == DefaultMaxAge
    ensures env.Some? && NumberValue(env.value).Some? && NumberValue(env.value).value != 0 ==>
      r == NumberValue(env.value).value
    ensures env.Some? && (NumberValue(env.value).None? || NumberValue(env.value) == Some(0)) ==> r == DefaultMaxAge
  {
    if env.Some? && NumberValue(env.value).Some? && NumberValue(env.value).value != 0
    then NumberValue(env.value).value
    else DefaultMaxAge
  }

  lemma IntToStringTrimmed(n: int)
    ensures Trim(IntToString(n)) == IntToString(n)
  {
    var m: nat := if n < 0 then -n else n;
    var d := NatToString(m);
    var s := IntToString(n);
    assert s[|s| - 1] == d[|d| - 1];
    DigitNotWhite(d[|d| - 1]);
    if n >= 0 {
      DigitNotWhite(d[0]);
    }
    TrimUnchanged(s);
  }

  /** `Number` reads back what `toString` writes for an integer. */
  lemma NumberOfIntToString(n: int)
    ensures NumberValue(IntToString(n)) == Some(n)
  {
    var m: nat := if n < 0 then -n else n;
    var d := NatToString(m);
    NatToStringValue(m);
    var s := IntToString(n);
    IntToStringTrimmed(n);
    assert AllDigits(d);
    if n < 0 {
      assert s[1..] == d;
    } else {
      assert s == d && s[0] != '-' && s[0] != '+';
    }
  }

  /** Any non-zero integer written in decimal is the max age it sets. */
  lemma MaxAgeRoundTrip(n: int)
    requires n != 0
    ensures MaxAge(Some(IntToString(n))) == n
  {
    NumberOfIntToString(n);
  }
}
