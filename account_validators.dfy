/**
 * The two validators of the account page (pages/3_Account.py): the e-mail
 * check `re.match(r"[^@]+@[^@]+\.[^@]+", email)` and the password check
 * `re.match(r"^(?=.*[A-Z])(?=.*\d)(?=.*[@$!%*?&])[A-Za-z\d@$!%*?&]{8,}$", password)`.
 * Each is written once as what the regular expression matches and proved
 * equal to the rule it stands for in plain words.
 */
module AccountValidators {
  import opened Text

  // ---------------------------------------------------------------------
  // is_valid_email
  // ---------------------------------------------------------------------

  /**
   * What `[^@]+@[^@]+\.[^@]+` matches at the start of `s`: a non-empty local
   * part without '@', the '@', and then `Domain(s[at + 1..], false)`. Whatever
   * follows is ignored, because `re.match` anchors only at the start.
   */
  ghost predicate EmailPattern(s: string) {
    exists at: nat :: 0 < at < |s| && '@' !in s[..at] && s[at] == '@' && DomainPattern(s[at + 1..], false)
  }

  /** A '.' at `dot` with no '@' before it and a character after it that is not '@'. */
  predicate DotAt(d: string, dot: nat) {
    dot + 1 < |d| && '@' !in d[..dot] && d[dot] == '.' && d[dot + 1] != '@'
  }

  /**
   * What is left of the pattern after the '@': `[^@]+\.[^@]`, where the run
   * before the '.' may be empty when `started` says one character of it has
   * already been read.
   */
  ghost predicate DomainPattern(d: string, started: bool) {
    exists dot: nat :: (started || 0 < dot) && DotAt(d, dot)
  }

  /** Scans the part after the '@' for a '.' with a run before it and a non-'@' after it. */
  function DomainMatches(d: string, started: bool): (ok: bool)
    ensures ok <==> DomainPattern(d, started)
  {
    if d == "" || d[0] == '@' then
      assert !DomainPattern(d, started) by {
        forall dot: nat | DotAt(d, dot)
          ensures dot == 0
        {
        }
      }
      false
    else if started && d[0] == '.' && |d| >= 2 && d[1] != '@' then
      assert DotAt(d, 0);
      true
    else
      var ok := DomainMatches(d[1..], true);
      assert ok ==> DomainPattern(d, started) by {
        if ok {
          var dot: nat :| DotAt(d[1..], dot);
          assert d[..dot + 1] == [d[0]] + d[1..][..dot];
          assert DotAt(d, dot + 1);
        }
      }
      assert DomainPattern(d, started) ==> ok by {
        if DomainPattern(d, started) {
          var dot: nat :| (started || 0 < dot) && DotAt(d, dot);
          assert dot > 0;
          assert d[1..][..dot - 1] == d[..dot][1..];
          assert DotAt(d[1..], dot - 1);
        }
      }
      ok
  }

  /** `is_valid_email`, Python's truthiness of the match taken as a boolean. */
  function IsValidEmail(email: string): (ok: bool)
    ensures ok <==> EmailPattern(email)
  {
    var at := IndexOf(email, '@');
    assert forall a: nat :: 0 < a < |email| && '@' !in email[..a] && email[a] == '@' ==> a == at by {
      forall a: nat | 0 < a < |email| && '@' !in email[..a] && email[a] == '@'
        ensures a == at
      {
      }
    }
    if 0 < at < |email| then
      assert '@' !in email[..at];
      DomainMatches(email[at + 1..], false)
    else
      false
  }
  /** An address without '@' is refused. */
  lemma NoAtRefused(email: string)
    requires '@' !in email
    ensures !IsValidEmail(email)
  {
  }

  /** An address that starts with '@' is refused. */
  lemma LeadingAtRefused(email: string)
    requires email != "" && email[0] == '@'
    ensures !IsValidEmail(email)
  {
  }

  /** Whatever follows a valid address is ignored. */
  lemma TrailingIgnored(email: string, tail: string)
    requires IsValidEmail(email)
    ensures IsValidEmail(email + tail)
  {
    var at: nat :| 0 < at < |email| && '@' !in email[..at] && email[at] == '@' && DomainPattern(email[at + 1..], false);
    var dot: nat :| 0 < dot && DotAt(email[at + 1..], dot);
    PatternExtends(email, tail, at, dot);
  }

  /** The witnesses of a match of `email` are witnesses of a match of `email + tail`. */
  lemma PatternExtends(email: string, tail: string, at: nat, dot: nat)
    requires 0 < at < |email| && '@' !in email[..at] && email[at] == '@'
    requires 0 < dot && DotAt(email[at + 1..], dot)
    ensures EmailPattern(email + tail)
  {
    var s := email + tail;
    assert s[..at] == email[..at];
    assert s[at + 1..] == email[at + 1..] + tail;
    DotAtExtends(email[at + 1..], tail, dot);
    assert DomainPattern(s[at + 1..], false);
  }

  /** A '.' found by the domain scan is still found with more text after it. */
  lemma DotAtExtends(d: string, tail: string, dot: nat)
    requires DotAt(d, dot)
    ensures DotAt(d + tail, dot)
  {
    assert (d + tail)[..dot] == d[..dot];
  }

  /** The address used by the integration tests is accepted. */
  lemma TestAddressAccepted(email: string)
    requires email == "testuser1234@gmail.com"
    ensures IsValidEmail(email)
  {
    assert '@' !in email[..12] && email[12] == '@';
    var d := email[13..];
    assert d == "gmail.com";
    assert DotAt(d, 5);
    assert EmailPattern(email);
  }

  // ---------------------------------------------------------------------
  // is_valid_password
  // ---------------------------------------------------------------------

  /** The three character classes the lookaheads ask for. */
  datatype CharClass = Upper | Digit | Special

  /** `[A-Z]`, `\d` (ASCII digits) and `[@$!%*?&]`. */
  predicate InClass(c: char, k: CharClass) {
    match k
    case Upper => 'A' <= c <= 'Z'
    case Digit => '0' <= c <= '9'
    case Special => c in "@$!%*?&"
  }

  /** `[A-Za-z\d@$!%*?&]` */
  predicate IsPasswordChar(c: char) {
    InClass(c, Upper) || ('a' <= c <= 'z') || InClass(c, Digit) || InClass(c, Special)
  }

  /** `(?=.*X)` at the start: a character of class `k` before any line break. */
  predicate LooksAhead(s: string, k: CharClass) {
    exists i :: 0 <= i < |s| && '\n' !in s[..i] && InClass(s[i], k)
  }

  /**
   * `[A-Za-z\d@$!%*?&]{8,}$`: at least eight password characters from the
   * start, then the end of the string or a line break that is its last
   * character (Python's `$` matches before a final '\n').
   */
  predicate RunThenEnd(s: string) {
    exists k: nat :: k <= |s| && RunEndsAt(s, k)
  }

  /** The run covers the first `k` characters and the anchor `$` holds at `k`. */
  predicate RunEndsAt(s: string, k: nat) {
    8 <= k <= |s|
    && (forall i :: 0 <= i < k ==> IsPasswordChar(s[i]))
    && (k == |s| || (k == |s| - 1 && s[k] == '\n'))
  }

  /** The string with one final line break removed, if it has one. */
  function Body(s: string): (b: string)
    ensures if s != "" && s[|s| - 1] == '\n' then b + "\n" == s else b == s
  {
    if s != "" && s[|s| - 1] == '\n' then s[..|s| - 1] else s
  }

  predicate HasClass(s: string, k: CharClass) {
    exists i :: 0 <= i < |s| && InClass(s[i], k)
  }

  /**
   * The password rules in plain words: at least eight characters, all from
   * `[A-Za-z0-9@$!%*?&]`, with an upper-case letter, a digit and a special
   * character among them.
   */
  predicate PasswordRules(b: string) {
    |b| >= 8 && (forall i :: 0 <= i < |b| ==> IsPasswordChar(b[i]))
    && HasClass(b, Upper) && HasClass(b, Digit) && HasClass(b, Special)
  }

  /**
   * `is_valid_password`: the three lookaheads and the anchored run. It holds
   * exactly when the password, less one final line break, keeps the rules.
   */
  function IsValidPassword(password: string): (ok: bool)
    ensures ok <==> PasswordRules(Body(password))
  {
    var ok := LooksAhead(password, Upper) && LooksAhead(password, Digit)
      && LooksAhead(password, Special) && RunThenEnd(password);
    PasswordIff(password);
    ok
  }

  lemma PasswordIff(s: string)
    ensures (LooksAhead(s, Upper) && LooksAhead(s, Digit) && LooksAhead(s, Special) && RunThenEnd(s))
        <==> PasswordRules(Body(s))
  {
    if RunThenEnd(s) {
      var k: nat :| k <= |s| && RunEndsAt(s, k);
      assert 8 <= k;
      assert IsPasswordChar(s[k - 1]);
      assert Body(s) == s[..k];
      LookAheadWithinRun(s, k, Upper);
      LookAheadWithinRun(s, k, Digit);
      LookAheadWithinRun(s, k, Special);
    }
    if PasswordRules(Body(s)) {
      var b := Body(s);
      var k := |b|;
      assert b == s[..k];
      assert forall i :: 0 <= i < k ==> IsPasswordChar(s[i]) by {
        forall i | 0 <= i < k ensures IsPasswordChar(s[i]) {
          assert s[i] == b[i];
        }
      }
      assert k == |s| || (k == |s| - 1 && s[k] == '\n');
      assert RunEndsAt(s, k);
      LookAheadWithinRun(s, k, Upper);
      LookAheadWithinRun(s, k, Digit);
      LookAheadWithinRun(s, k, Special);
    }
  }

  /** Inside a run of password characters, a lookahead sees exactly the run. */
  lemma LookAheadWithinRun(s: string, k: nat, c: CharClass)
    requires k <= |s| && (forall i :: 0 <= i < k ==> IsPasswordChar(s[i]))
    requires k == |s| || s[k] == '\n'
    ensures LooksAhead(s, c) <==> HasClass(s[..k], c)
  {
    if LooksAhead(s, c) {
      var i :| 0 <= i < |s| && '\n' !in s[..i] && InClass(s[i], c);
      LookAheadSeesRun(s, k, c, i);
    }
    if HasClass(s[..k], c) {
      var i :| 0 <= i < k && InClass(s[..k][i], c);
      RunSeenByLookAhead(s, k, c, i);
    }
  }

  /** A character found by the lookahead lies inside the run. */
  lemma LookAheadSeesRun(s: string, k: nat, c: CharClass, i: int)
    requires k <= |s| && (k == |s| || s[k] == '\n')
    requires 0 <= i < |s| && '\n' !in s[..i] && InClass(s[i], c)
    ensures HasClass(s[..k], c)
  {
    assert i < k;
    assert s[..k][i] == s[i];
  }

  /** A character of the run is in reach of the lookahead: no line break comes before it. */
  lemma RunSeenByLookAhead(s: string, k: nat, c: CharClass, i: int)
    requires k <= |s| && (forall j :: 0 <= j < k ==> IsPasswordChar(s[j]))
    requires 0 <= i < k && InClass(s[..k][i], c)
    ensures LooksAhead(s, c)
  {
    assert '\n' !in s[..i] by {
      forall j | 0 <= j < i ensures s[..i][j] != '\n' {
        assert IsPasswordChar(s[j]);
      }
    }
    assert s[i] == s[..k][i];
  }

  /** The password used by the integration tests is accepted. */
  lemma TestPasswordAccepted(password: string)
    requires password == "Test@12345"
    ensures IsValidPassword(password)
  {
    assert Body(password) == password;
    assert InClass(password[0], Upper) && InClass(password[4], Special) && InClass(password[5], Digit);
    assert forall i :: 0 <= i < |password| ==> IsPasswordChar(password[i]);
  }

  /** One final line break is let through, as Python's `$` allows. */
  lemma FinalLineBreakAccepted(password: string)
    requires IsValidPassword(password) && '\n' !in password
    ensures IsValidPassword(password + "\n")
  {
    var s := password + "\n";
    assert s[..|s| - 1] == password;
    assert Body(password) == password by {
      if password != "" {
        assert password[|password| - 1] in password;
      }
    }
  }

  /** A password of fewer than eight characters is refused. */
  lemma ShortPasswordRefused(password: string)
    requires |password| < 8
    ensures !IsValidPassword(password)
  {
  }
}
