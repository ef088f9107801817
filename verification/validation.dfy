/** The input validators of the GraphQL service. Each either returns the
    (possibly normalised) value or rejects it with a user-input error, which
    is `BadRequest` here. */
module Validation {

  import opened Wrappers
  import opened Text

  /** A character any of the three runs of the email pattern may hold:
      neither whitespace nor '@'. */
  predicate Plain(c: char)
  {
    !IsSpace(c) && c != '@'
  }

  predicate AllPlain(s: string)
  {
    forall k :: 0 <= k < |s| ==> Plain(s[k])
  }

  /** The pattern `^[^\s@]+@[^\s@]+\.[^\s@]+$` read as a decomposition: a
      plain run, '@' at `at`, a plain run, '.' at `dot`, a plain run, each run
      non-empty. */
  predicate EmailShapeAt(s: string, at: int, dot: int)
  {
    && 0 < at && at + 1 < dot && dot + 1 < |s|
    && s[at] == '@' && s[dot] == '.'
    && AllPlain(s[..at]) && AllPlain(s[at + 1..dot]) && AllPlain(s[dot + 1..])
  }

  ghost predicate EmailShape(s: string)
  {
    exists at, dot :: EmailShapeAt(s, at, dot)
  }

  /** A '.' strictly inside the domain: neither its first nor its last
      character. */
  predicate InteriorDot(d: string)
  {
    exists j :: 1 <= j < |d| - 1 && d[j] == '.'
  }

  /** The pattern as a single scan: split at the first '@'; the part before
      it is non-empty and plain; the rest is plain and has an interior dot. */
  predicate EmailPattern(s: string)
  {
    var at := IndexOf(s, '@');
    0 < at < |s| && AllPlain(s[..at]) && AllPlain(s[at + 1..]) && InteriorDot(s[at + 1..])
  }

  /** The scan accepts exactly the strings the pattern describes. */
  lemma {:induction false} EmailPatternIsShape(s: string)
    ensures EmailPattern(s) <==> EmailShape(s)
  {
    if EmailShape(s) {
      var at, dot :| EmailShapeAt(s, at, dot);
      assert forall k :: 0 <= k < at ==> s[k] != '@' by {
        assert forall k :: 0 <= k < at ==> s[..at][k] == s[k];
      }
      IndexOfAt(s, '@', at);
      var d := s[at + 1..];
      assert d[dot - at - 1] == '.';
      forall k | 0 <= k < |d|
        ensures Plain(d[k])
      {
        if k < dot - at - 1 {
          assert d[k] == s[at + 1..dot][k];
        } else if k > dot - at - 1 {
          assert d[k] == s[dot + 1..][k - (dot - at)];
        }
      }
    }
    if EmailPattern(s) {
      var at := IndexOf(s, '@');
      var d := s[at + 1..];
      var j :| 1 <= j < |d| - 1 && d[j] == '.';
      var dot := at + 1 + j;
      assert s[dot] == '.';
      var host, tld := s[at + 1..dot], s[dot + 1..];
      assert forall k :: 0 <= k < |host| ==> host[k] == d[k];
      forall k | 0 <= k < |tld|
        ensures Plain(tld[k])
      {
        assert tld[k] == d[j + 1 + k];
      }
      assert EmailShapeAt(s, at, dot);
    }
  }

  /** `validateEmail`: a present email matching the pattern, unchanged. */
  function ValidateEmail(email: Option<string>): (r: Result<string>)
    ensures r.Ok? <==> Truthy(email) && EmailShape(email.value)
    ensures r.Ok? ==> r.value == email.value
    ensures r.Err? ==> r.failure == BadRequest
  {
    if !Truthy(email) || !EmailPattern(email.value) then
      EmailPatternIsShape(email.GetOr(""));
      Err(BadRequest)
    else
      EmailPatternIsShape(email.value);
      Ok(email.value)
  }

  /** An accepted email holds exactly one '@', and has no whitespace. */
  lemma {:induction false} AcceptedEmailSingleAt(email: string)
    requires ValidateEmail(Some(email)).Ok?
    ensures exists at :: 0 < at < |email| - 1 && email[at] == '@'
              && forall k :: 0 <= k < |email| && k != at ==> email[k] != '@'
    ensures forall k :: 0 <= k < |email| ==> !IsSpace(email[k])
  {
    var at, dot :| EmailShapeAt(email, at, dot);
    forall k | 0 <= k < |email| && k != at
      ensures Plain(email[k])
    {
      if k < at {
        assert email[k] == email[..at][k];
      } else if k < dot {
        assert email[k] == email[at + 1..dot][k - at - 1];
      } else if k > dot {
        assert email[k] == email[dot + 1..][k - dot - 1];
      }
    }
  }

  /** A well-formed address is accepted as is. */
  lemma {:induction false} EmailAcceptedExample()
    ensures ValidateEmail(Some("ann@mail.io")) == Ok("ann@mail.io")
  {
    assert EmailShapeAt("ann@mail.io", 3, 8);
  }

  /** Splitting at the first '@' of `local + "@" + rest` gives `rest` as the
      domain when `local` holds no '@'. */
  lemma {:induction false} DomainAfter(local: string, rest: string)
    requires '@' !in local
    ensures var s := local + "@" + rest;
            IndexOf(s, '@') == |local| && s[|local| + 1..] == rest
  {
    var s := local + "@" + rest;
    assert forall k :: 0 <= k < |local| ==> s[k] == local[k];
    assert s[|local|] == '@';
    IndexOfAt(s, '@', |local|);
    assert s[|local| + 1..] == rest;
  }

  /** A dot that ends the domain does not count: a domain whose only dot is
      its last character is refused. */
  lemma {:induction false} EmailTrailingDotRejected(local: string, host: string)
    requires '@' !in local && '.' !in host
    ensures ValidateEmail(Some(local + "@" + host + ".")) == Err(BadRequest)
  {
    var s := local + "@" + host + ".";
    assert s == local + "@" + (host + ".");
    DomainAfter(local, host + ".");
    var d := host + ".";
    assert forall j :: 0 <= j < |host| ==> d[j] == host[j];
    assert !InteriorDot(d);
    EmailPatternIsShape(s);
  }

  /** A dot that starts the domain does not count: a domain whose only dot is
      its first character is refused. */
  lemma {:induction false} EmailLeadingDotRejected(local: string, host: string)
    requires '@' !in local && '.' !in host
    ensures ValidateEmail(Some(local + "@." + host)) == Err(BadRequest)
  {
    var s := local + "@." + host;
    assert s == local + "@" + ("." + host);
    DomainAfter(local, "." + host);
    var d := "." + host;
    assert forall j :: 1 <= j < |d| ==> d[j] == host[j - 1];
    assert !InteriorDot(d);
    EmailPatternIsShape(s);
  }

  /** Whitespace anywhere is refused. */
  lemma {:induction false} EmailSpaceRejected(email: string, k: nat)
    requires k < |email| && IsSpace(email[k])
    ensures ValidateEmail(Some(email)) == Err(BadRequest)
  {
    if ValidateEmail(Some(email)).Ok? {
      AcceptedEmailSingleAt(email);
    }
  }

  /** `validatePassword`: a present password of at least six characters,
      unchanged. */
  function ValidatePassword(password: Option<string>): (r: Result<string>)
    ensures r.Ok? <==> password.Some? && |password.value| >= 6
    ensures r.Ok? ==> r.value == password.value
    ensures r.Err? ==> r.failure == BadRequest
  {
    if !Truthy(password) || |password.value| < 6 then Err(BadRequest) else Ok(password.value)
  }

  /** `validateName`: the trimmed name, when it keeps at least three
      characters. */
  function ValidateName(name: Option<string>): (r: Result<string>)
    ensures r.Ok? <==> name.Some? && |Trim(name.value)| >= 3
    ensures r.Ok? ==> r.value == Trim(name.value)
    ensures r.Err? ==> r.failure == BadRequest
  {
    if !Truthy(name) || |Trim(name.value)| < 3 then Err(BadRequest) else Ok(Trim(name.value))
  }

  /** A validated name has no whitespace at either end and is a slice of the
      input, so validating it again gives it back unchanged. */
  lemma {:induction false} ValidateNameIdempotent(name: Option<string>)
    requires ValidateName(name).Ok?
    ensures var n := ValidateName(name).value;
            && !IsSpace(n[0]) && !IsSpace(n[|n| - 1])
            && (exists i, j :: 0 <= i <= j <= |name.value| && n == name.value[i..j])
            && ValidateName(Some(n)) == Ok(n)
  {
    TrimSlice(name.value);
    TrimIdempotent(name.value);
  }

  /** Validation is idempotent for emails and passwords too. */
  lemma {:induction false} ValidatorsIdempotent(email: Option<string>, password: Option<string>)
    ensures ValidateEmail(email).Ok? ==> ValidateEmail(Some(ValidateEmail(email).value)) == ValidateEmail(email)
    ensures ValidatePassword(password).Ok? ==>
              ValidatePassword(Some(ValidatePassword(password).value)) == ValidatePassword(password)
  {
  }
}
