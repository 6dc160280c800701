/** The input checks in front of registration and login. */
module Validation {
  import opened Common

  /** A character of the class `[^\s@]`. */
  predicate Plain(c: char) {
    !IsWhite(c) && c != '@'
  }

  /** What `^[^\s@]+@[^\s@]+\.[^\s@]+$` matches, by positions: one `@` at
      `at`, a `.` at `dot`, at least one character before the `@`, between
      the `@` and the `.`, and after the `.`, and every other character
      plain. */
  predicate EmailPattern(e: string) {
    exists at, dot ::
      0 < at && at + 1 < dot && dot + 1 < |e| && e[at] == '@' && e[dot] == '.'
      && forall k :: 0 <= k < |e| && k != at ==> Plain(e[k])
  }

  /** `validateEmail`: no white space, exactly one `@` with something before
      it, and a `.` in the domain that is neither its first nor its last
      character. */
  function ValidateEmail(e: string): bool {
    var parts := Split(e, '@');
    (forall k :: 0 <= k < |e| ==> !IsWhite(e[k]))
    && |parts| == 2 && parts[0] != ""
    && |parts[1]| >= 3 && '.' in parts[1][1..|parts[1]| - 1]
  }

  lemma EmailSplit(e: string)
    requires |Split(e, '@')| == 2
    ensures e == Split(e, '@')[0] + "@" + Split(e, '@')[1]
  {
    var parts := Split(e, '@');
    JoinSplit(e, '@');
    assert Join(parts, '@') == parts[0] + ['@'] + Join(parts[1..], '@');
  }

  /** Every string the check accepts matches the pattern. */
  lemma ValidateEmailSound(e: string)
    requires ValidateEmail(e)
    ensures EmailPattern(e)
  {
    var parts := Split(e, '@');
    EmailSplit(e);
    var local, domain := parts[0], parts[1];
    var inner := domain[1..|domain| - 1];
    var m :| 0 <= m < |inner| && inner[m] == '.';
    var at := |local|;
    var dot := at + 2 + m;
    assert e[at] == '@';
    assert e[dot] == domain[1 + m] == '.';
    forall k | 0 <= k < |e| && k != at
      ensures Plain(e[k])
    {
      if k < at {
        assert e[k] == local[k];
        assert local[k] in local;
      } else {
        assert e[k] == domain[k - at - 1];
        assert domain[k - at - 1] in domain;
      }
    }
  }

  /** A string with a single `@` splits into the text before and after it. */
  lemma SplitAtSingle(e: string, at: int)
    requires 0 <= at < |e| && e[at] == '@'
    requires forall k :: 0 <= k < |e| && k != at ==> e[k] != '@'
    ensures Split(e, '@') == [e[..at], e[at + 1..]]
  {
    var local, domain := e[..at], e[at + 1..];
    assert e == local + ['@'] + domain;
    assert '@' !in local by {
      forall k | 0 <= k < |local| ensures local[k] != '@' { assert local[k] == e[k]; }
    }
    assert '@' !in domain by {
      forall k | 0 <= k < |domain| ensures domain[k] != '@' { assert domain[k] == e[at + 1 + k]; }
    }
    SplitAround(local, domain, '@');
    SplitNoSeparator(local, '@');
    SplitNoSeparator(domain, '@');
  }

  /** Every string matching the pattern is accepted by the check. */
  lemma ValidateEmailComplete(e: string)
    requires EmailPattern(e)
    ensures ValidateEmail(e)
  {
    var at, dot :| 0 < at && at + 1 < dot && dot + 1 < |e| && e[at] == '@' && e[dot] == '.'
      && forall k :: 0 <= k < |e| && k != at ==> Plain(e[k]);
    assert forall k :: 0 <= k < |e| && k != at ==> e[k] != '@';
    SplitAtSingle(e, at);
    var domain := e[at + 1..];
    assert domain[1..|domain| - 1][dot - at - 2] == '.';
    assert forall k :: 0 <= k < |e| ==> !IsWhite(e[k]);
  }

  /** The check accepts exactly the strings the pattern describes. */
  lemma ValidateEmailMatchesPattern(e: string)
    ensures ValidateEmail(e) <==> EmailPattern(e)
  {
    if ValidateEmail(e) {
      ValidateEmailSound(e);
    }
    if EmailPattern(e) {
      ValidateEmailComplete(e);
    }
  }

  /** `validatePassword`: at least six characters. */
  predicate ValidatePassword(p: string) {
    |p| >= 6
  }

  datatype FormFailure = MissingFields | InvalidEmail | PasswordTooShort

  /** `validateRegister`: all three fields present, then the email, then
      the password length. */
  function ValidateRegister(fullName: Option<string>, email: Option<string>, password: Option<string>)
    : (r: Option<FormFailure>)
    ensures r.None? <==>
      TruthyText(fullName) && TruthyText(email) && TruthyText(password)
      && EmailPattern(email.value) && |password.value| >= 6
    ensures r == Some(MissingFields) <==> !(TruthyText(fullName) && TruthyText(email) && TruthyText(password))
    ensures r == Some(PasswordTooShort) ==> EmailPattern(email.value)
  {
    ValidateEmailMatchesPattern(if email.Some? then email.value else "");
    if !TruthyText(fullName) || !TruthyText(email) || !TruthyText(password) then Some(MissingFields)
    else if !ValidateEmail(email.value) then Some(InvalidEmail)
    else if !ValidatePassword(password.value) then Some(PasswordTooShort)
    else None
  }

  /** `validateLogin`: both fields present, then the email; the password
      length is not checked. */
  function ValidateLogin(email: Option<string>, password: Option<string>): (r: Option<FormFailure>)
    ensures r.None? <==> TruthyText(email) && TruthyText(password) && EmailPattern(email.value)
    ensures r != Some(PasswordTooShort)
  {
    ValidateEmailMatchesPattern(if email.Some? then email.value else "");
    if !TruthyText(email) || !TruthyText(password) then Some(MissingFields)
    else if !ValidateEmail(email.value) then Some(InvalidEmail)
    else None
  }

  /** Whoever may register may log in with the same email and password;
      a short password is refused at registration but not at login. */
  lemma RegisterImpliesLogin(fullName: Option<string>, email: Option<string>, password: Option<string>)
    ensures ValidateRegister(fullName, email, password).None? ==> ValidateLogin(email, password).None?
    ensures ValidateRegister(fullName, email, password) == Some(PasswordTooShort) ==>
      ValidateLogin(email, password).None?
  {
  }

  lemma SampleEmails()
    ensures EmailPattern("a@b.co")
    ensures !EmailPattern("a@b.")
    ensures !EmailPattern("a@@b.co")
  {
    assert !Plain("a@@b.co"[1]) && !Plain("a@@b.co"[2]);
    var e := "a@b.co";
    assert 0 < 1 && 1 + 1 < 3 && 3 + 1 < |e| && e[1] == '@' && e[3] == '.';
    assert forall k :: 0 <= k < |e| && k != 1 ==> Plain(e[k]);
  }
}
