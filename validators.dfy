/** Form validation helpers of the auth package: an e-mail shape check, e-mail
    sanitising and a password-strength rule with scored feedback. Character
    classes are ASCII (see module Text). */
module Validators {
  import opened Text

  // ---------------------------------------------------------------------
  // E-mail shape

  /** A character of the class `[^\s@]`. */
  predicate EmailChar(c: char) {
    !IsSpace(c) && c != '@'
  }

  predicate AllEmailChars(s: string) {
    forall i :: 0 <= i < |s| ==> EmailChar(s[i])
  }

  predicate NoSpace(s: string) {
    forall i :: 0 <= i < |s| ==> !IsSpace(s[i])
  }

  /** The strings `/^[^\s@]+@[^\s@]+\.[^\s@]+$/` accepts, read off the
      pattern: a non-empty run, `@` at `at`, a non-empty run, `.` at `dot`,
      a non-empty run, and nothing else. */
  ghost predicate MatchesEmailPattern(s: string) {
    exists at, dot ::
      && 0 < at && at + 1 < dot && dot + 1 < |s|
      && s[at] == '@' && s[dot] == '.'
      && AllEmailChars(s[..at]) && AllEmailChars(s[at + 1..dot]) && AllEmailChars(s[dot + 1..])
  }

  /** A domain whose `.` is neither its first nor its last character. */
  predicate DottedDomain(d: string) {
    exists k | 0 < k < |d| - 1 :: d[k] == '.'
  }

  /** `isValidEmail`, computed by a scan rather than by backtracking: no
      whitespace, a non-empty local part before the first `@`, no further
      `@`, and a dotted domain. */
  function IsValidEmail(s: string): bool {
    var at := IndexOf(s, '@');
    && NoSpace(s)
    && at > 0
    && '@' !in s[at + 1..]
    && DottedDomain(s[at + 1..])
  }

  /** The scan accepts exactly the strings the regular expression accepts. */
  lemma IsValidEmailMatchesPattern(s: string)
    ensures IsValidEmail(s) <==> MatchesEmailPattern(s)
  {
    if IsValidEmail(s) {
      ValidEmailMatches(s);
    }
    if MatchesEmailPattern(s) {
      var at, dot :|
        && 0 < at && at + 1 < dot && dot + 1 < |s|
        && s[at] == '@' && s[dot] == '.'
        && AllEmailChars(s[..at]) && AllEmailChars(s[at + 1..dot]) && AllEmailChars(s[dot + 1..]);
      MatchIsValidEmail(s, at, dot);
    }
  }

  lemma ValidEmailMatches(s: string)
    requires IsValidEmail(s)
    ensures MatchesEmailPattern(s)
  {
    var at := IndexOf(s, '@');
    var d := s[at + 1..];
    var k :| 0 < k < |d| - 1 && d[k] == '.';
    var dot := at + 1 + k;
    assert s[at + 1..dot] == d[..k];
    assert s[dot + 1..] == d[k + 1..];
    assert AllEmailChars(s[..at]);
    assert AllEmailChars(s[at + 1..dot]);
    assert AllEmailChars(s[dot + 1..]);
  }

  lemma MatchIsValidEmail(s: string, at: int, dot: int)
    requires 0 < at && at + 1 < dot && dot + 1 < |s|
    requires s[at] == '@' && s[dot] == '.'
    requires AllEmailChars(s[..at]) && AllEmailChars(s[at + 1..dot]) && AllEmailChars(s[dot + 1..])
    ensures IsValidEmail(s)
  {
    assert '@' !in s[..at];
    assert IndexOf(s, '@') == at;
    forall i | 0 <= i < |s| ensures !IsSpace(s[i]) {
      if i < at {
        assert s[i] == s[..at][i];
      } else if at < i < dot {
        assert s[i] == s[at + 1..dot][i - at - 1];
      } else if dot < i {
        assert s[i] == s[dot + 1..][i - dot - 1];
      }
    }
    var d := s[at + 1..];
    var k := dot - at - 1;
    assert d[k] == '.';
    forall i | 0 <= i < |d| ensures d[i] != '@' {
      if i < k {
        assert d[i] == s[at + 1..dot][i];
      } else if i > k {
        assert d[i] == s[dot + 1..][i - k - 1];
      }
    }
  }

  /** The accepted strings, described by their parts: no whitespace, exactly
      one `@`, a non-empty local part, and a domain with a `.` that is neither
      its first nor its last character. */
  lemma IsValidEmailParts(s: string)
    ensures IsValidEmail(s) <==>
      && NoSpace(s)
      && multiset(s)['@'] == 1
      && (var at := IndexOf(s, '@'); at > 0 && DottedDomain(s[at + 1..]))
  {
    var at := IndexOf(s, '@');
    if at >= 0 {
      assert s == s[..at] + [s[at]] + s[at + 1..];
      assert multiset(s)['@'] == multiset(s[..at])['@'] + 1 + multiset(s[at + 1..])['@'];
      assert multiset(s[..at])['@'] == 0;
    } else {
      assert multiset(s)['@'] == 0;
    }
  }

  // ---------------------------------------------------------------------
  // E-mail sanitising

  /** `sanitizeEmail`: `email.toLowerCase().trim()`. The result has no
      upper-case letter and whitespace at neither end. */
  function SanitizeEmail(s: string): (r: string)
    ensures NoUpper(r)
    ensures Trimmed(r)
  {
    var lower := ToLower(s);
    var r := Trim(lower);
    var i, j :| 0 <= i <= j <= |lower| && r == lower[i..j] && AllSpace(lower[..i]) && AllSpace(lower[j..]);
    NoUpperSlice(lower, i, j);
    r
  }

  /** Sanitising twice is sanitising once. */
  lemma SanitizeEmailIdempotent(s: string)
    ensures SanitizeEmail(SanitizeEmail(s)) == SanitizeEmail(s)
  {
    var r := SanitizeEmail(s);
    ToLowerOfNoUpper(r);
    TrimOfTrimmed(r);
  }

  // ---------------------------------------------------------------------
  // Password strength

  const SpecialChars: string := "!@#$%^&*"
  const MinLength: nat := 8

  predicate HasUpper(p: string) { exists i | 0 <= i < |p| :: IsUpper(p[i]) }
  predicate HasLower(p: string) { exists i | 0 <= i < |p| :: IsLower(p[i]) }
  predicate HasDigit(p: string) { exists i | 0 <= i < |p| :: IsDigit(p[i]) }
  predicate HasSpecial(p: string) { exists i | 0 <= i < |p| :: p[i] in SpecialChars }

  /** `isStrongPassword`: the five checks in turn, the first failing one
      answers `false`. */
  function IsStrongPassword(p: string): bool {
    if |p| < MinLength then false
    else if !HasUpper(p) then false
    else if !HasLower(p) then false
    else if !HasDigit(p) then false
    else if !HasSpecial(p) then false
    else true
  }

  /** The outcome of each check, in the order the feedback reports them:
      length, upper case, lower case, digit, special character. */
  function Checks(p: string): (c: seq<bool>)
    ensures |c| == 5
  {
    [|p| >= MinLength, HasUpper(p), HasLower(p), HasDigit(p), HasSpecial(p)]
  }

  /** The feedback message of each check, in the same order. */
  const Messages: seq<string> := [
    "Password should be at least 8 characters",
    "Password should include an uppercase letter",
    "Password should include a lowercase letter",
    "Password should include a digit",
    "Password should include a special character (!@#$%^&*)"
  ]

  /** The messages whose check failed, in check order. */
  function Failed(checks: seq<bool>, messages: seq<string>): (r: seq<string>)
    requires |checks| == |messages|
    decreases |checks|
  {
    if |checks| == 0 then []
    else
      var n := |checks| - 1;
      Failed(checks[..n], messages[..n]) + (if checks[n] then [] else [messages[n]])
  }

  /** The number of checks that passed. */
  function Passed(checks: seq<bool>): nat
    decreases |checks|
  {
    if |checks| == 0 then 0
    else
      var n := |checks| - 1;
      Passed(checks[..n]) + (if checks[n] then 1 else 0)
  }

  /** Every check either scores or reports, and a message is reported
      exactly when its own check failed. */
  lemma {:induction false} PassedPlusFailed(checks: seq<bool>, messages: seq<string>)
    requires |checks| == |messages|
    ensures Passed(checks) + |Failed(checks, messages)| == |checks|
    ensures forall m :: m in Failed(checks, messages) ==> m in messages
    ensures forall k :: 0 <= k < |checks| && !checks[k] ==> messages[k] in Failed(checks, messages)
    decreases |checks|
  {
    if |checks| > 0 {
      var n := |checks| - 1;
      PassedPlusFailed(checks[..n], messages[..n]);
      forall k | 0 <= k < n && !checks[k] ensures messages[k] in Failed(checks, messages) {
        assert checks[..n][k] == checks[k] && messages[..n][k] == messages[k];
      }
    }
  }

  /** With distinct messages, a message is reported only for its own failed
      check. */
  lemma {:induction false} FailedOnlyFailing(checks: seq<bool>, messages: seq<string>, k: nat)
    requires |checks| == |messages| && k < |checks| && checks[k]
    requires forall i, j :: 0 <= i < j < |messages| ==> messages[i] != messages[j]
    ensures messages[k] !in Failed(checks, messages)
    decreases |checks|
  {
    var n := |checks| - 1;
    if k < n {
      assert checks[..n][k] == checks[k] && messages[..n][k] == messages[k];
      FailedOnlyFailing(checks[..n], messages[..n], k);
      assert messages[n] != messages[k];
    } else {
      PassedPlusFailed(checks[..n], messages[..n]);
      assert messages[k] !in messages[..n];
    }
  }

  /** The password is strong exactly when every check passes. */
  lemma StrongIffAllChecks(p: string)
    ensures IsStrongPassword(p) <==> (forall k :: 0 <= k < 5 ==> Checks(p)[k])
  {
    var c := Checks(p);
    assert c[0] == (|p| >= MinLength) && c[1] == HasUpper(p) && c[2] == HasLower(p);
    assert c[3] == HasDigit(p) && c[4] == HasSpecial(p);
  }

  /** One more check extends the score and the feedback of the prefix. */
  lemma CheckStep(checks: seq<bool>, messages: seq<string>, n: nat)
    requires |checks| == |messages| && n < |checks|
    ensures Passed(checks[..n + 1]) == Passed(checks[..n]) + (if checks[n] then 1 else 0)
    ensures Failed(checks[..n + 1], messages[..n + 1])
         == Failed(checks[..n], messages[..n]) + (if checks[n] then [] else [messages[n]])
  {
    assert checks[..n + 1][..n] == checks[..n] && messages[..n + 1][..n] == messages[..n];
    assert checks[..n + 1][n] == checks[n] && messages[..n + 1][n] == messages[n];
  }

  function Point(ok: bool): nat { if ok then 1 else 0 }
  function Report(ok: bool, message: string): seq<string> { if ok then [] else [message] }

  /** Five checks written out one by one. */
  lemma FiveChecks(checks: seq<bool>, messages: seq<string>)
    requires |checks| == 5 && |messages| == 5
    ensures Passed(checks) == Point(checks[0]) + Point(checks[1]) + Point(checks[2])
                              + Point(checks[3]) + Point(checks[4])
    ensures Failed(checks, messages)
         == Report(checks[0], messages[0]) + Report(checks[1], messages[1])
          + Report(checks[2], messages[2]) + Report(checks[3], messages[3])
          + Report(checks[4], messages[4])
  {
    assert checks[..0] == [] && messages[..0] == [];
    CheckStep(checks, messages, 0);
    CheckStep(checks, messages, 1);
    CheckStep(checks, messages, 2);
    CheckStep(checks, messages, 3);
    CheckStep(checks, messages, 4);
    assert checks[..5] == checks && messages[..5] == messages;
  }

  /** The score and the feedback of a password, check by check. */
  lemma ChecksOfPassword(p: string)
    ensures Passed(Checks(p)) == Point(|p| >= MinLength) + Point(HasUpper(p)) + Point(HasLower(p))
                                 + Point(HasDigit(p)) + Point(HasSpecial(p))
    ensures Failed(Checks(p), Messages)
         == Report(|p| >= MinLength, Messages[0]) + Report(HasUpper(p), Messages[1])
          + Report(HasLower(p), Messages[2]) + Report(HasDigit(p), Messages[3])
          + Report(HasSpecial(p), Messages[4])
  {
    var c := Checks(p);
    assert c[0] == (|p| >= MinLength) && c[1] == HasUpper(p) && c[2] == HasLower(p);
    assert c[3] == HasDigit(p) && c[4] == HasSpecial(p);
    FiveChecks(c, Messages);
  }

  /** When every check passes, nothing is reported. */
  lemma {:induction false} NothingFailed(checks: seq<bool>, messages: seq<string>)
    requires |checks| == |messages|
    requires forall k :: 0 <= k < |checks| ==> checks[k]
    ensures Failed(checks, messages) == []
    decreases |checks|
  {
    if |checks| > 0 {
      var n := |checks| - 1;
      assert forall k :: 0 <= k < n ==> checks[..n][k] == checks[k];
      NothingFailed(checks[..n], messages[..n]);
    }
  }

  /** No two messages are equal: their lengths already differ. */
  lemma MessagesDistinct()
    ensures forall i, j :: 0 <= i < j < |Messages| ==> Messages[i] != Messages[j]
  {
    assert |Messages[0]| == 40 && |Messages[1]| == 43 && |Messages[2]| == 42;
    assert |Messages[3]| == 31 && |Messages[4]| == 54;
  }

  /** What the score and the feedback of a password mean. */
  lemma FeedbackMeaning(p: string)
    ensures Passed(Checks(p)) + |Failed(Checks(p), Messages)| == 5
    ensures forall k :: 0 <= k < 5 ==> (Messages[k] in Failed(Checks(p), Messages) <==> !Checks(p)[k])
    ensures IsStrongPassword(p) <==> Passed(Checks(p)) == 5
    ensures IsStrongPassword(p) <==> Failed(Checks(p), Messages) == []
  {
    var c := Checks(p);
    PassedPlusFailed(c, Messages);
    MessagesDistinct();
    forall k | 0 <= k < 5 && c[k] ensures Messages[k] !in Failed(c, Messages) {
      FailedOnlyFailing(c, Messages, k);
    }
    StrongIffAllChecks(p);
    if IsStrongPassword(p) {
      NothingFailed(c, Messages);
    }
    if !IsStrongPassword(p) {
      var k :| 0 <= k < 5 && !c[k];
      assert Messages[k] in Failed(c, Messages);
    }
  }

  /** `getPasswordStrengthFeedback`: one point per passing check, one
      message per failing one, in check order. */
  method GetPasswordStrengthFeedback(p: string) returns (score: int, feedback: seq<string>)
    ensures 0 <= score <= 5 && score + |feedback| == 5
    ensures score == Passed(Checks(p))
    ensures feedback == Failed(Checks(p), Messages)
    ensures forall k :: 0 <= k < 5 ==> (Messages[k] in feedback <==> !Checks(p)[k])
    ensures IsStrongPassword(p) <==> score == 5
    ensures IsStrongPassword(p) <==> feedback == []
  {
    feedback := [];
    score := 0;

    if |p| >= MinLength {
      score := score + 1;
    } else {
      feedback := feedback + [Messages[0]];
    }
    assert score == Point(|p| >= MinLength) && feedback == Report(|p| >= MinLength, Messages[0]);
    if HasUpper(p) {
      score := score + 1;
    } else {
      feedback := feedback + [Messages[1]];
    }
    assert score == Point(|p| >= MinLength) + Point(HasUpper(p))
        && feedback == Report(|p| >= MinLength, Messages[0])
           + Report(HasUpper(p), Messages[1]);
    if HasLower(p) {
      score := score + 1;
    } else {
      feedback := feedback + [Messages[2]];
    }
    assert score == Point(|p| >= MinLength) + Point(HasUpper(p)) + Point(HasLower(p))
        && feedback == Report(|p| >= MinLength, Messages[0])
           + Report(HasUpper(p), Messages[1])
           + Report(HasLower(p), Messages[2]);
    if HasDigit(p) {
      score := score + 1;
    } else {
      feedback := feedback + [Messages[3]];
    }
    assert score == Point(|p| >= MinLength) + Point(HasUpper(p)) + Point(HasLower(p)) + Point(HasDigit(p))
        && feedback == Report(|p| >= MinLength, Messages[0])
           + Report(HasUpper(p), Messages[1])
           + Report(HasLower(p), Messages[2])
           + Report(HasDigit(p), Messages[3]);
    if HasSpecial(p) {
      score := score + 1;
    } else {
      feedback := feedback + [Messages[4]];
    }

    assert score == Point(|p| >= MinLength) + Point(HasUpper(p)) + Point(HasLower(p))
                    + Point(HasDigit(p)) + Point(HasSpecial(p));
    assert feedback == Report(|p| >= MinLength, Messages[0]) + Report(HasUpper(p), Messages[1])
                     + Report(HasLower(p), Messages[2]) + Report(HasDigit(p), Messages[3])
                     + Report(HasSpecial(p), Messages[4]);
    ChecksOfPassword(p);
    assert score == Passed(Checks(p)) && feedback == Failed(Checks(p), Messages);
    FeedbackMeaning(p);
  }
}
