/** The login page's two input validators
    (frontend/pages/LoginPage.tsx, `validateEmail` and `validatePassword`). */
module Validators {
  import opened Wrappers
  import opened JsStrings

  /** One character of the regular-expression class `[^\s@]`. */
  predicate Plain(c: char)
  {
    !IsJsSpace(c) && c != '@'
  }

  predicate AllPlain(s: string)
  {
    forall k :: 0 <= k < |s| ==> Plain(s[k])
  }

  /** The domain part holds a '.' that is neither its first nor its last character. */
  predicate HasInnerDot(d: string)
  {
    exists j :: 0 < j < |d| - 1 && d[j] == '.'
  }

  /** What `/^[^\s@]+@[^\s@]+\.[^\s@]+$/` matches, read off the pattern: three
      non-empty runs of `[^\s@]`, separated by '@' at `i` and '.' at `j`. */
  ghost predicate MatchesEmailPattern(s: string)
  {
    exists i, j ::
      && 0 < i && i + 1 < j && j + 1 < |s|
      && s[i] == '@' && s[j] == '.'
      && AllPlain(s[..i]) && AllPlain(s[i + 1..j]) && AllPlain(s[j + 1..])
  }

  /** `validateEmail`, computed constructively: split at the first '@', then
      check the local part and the domain part. */
  function ValidateEmail(s: string): bool
  {
    match IndexOf(s, '@')
    case None => false
    case Some(i) => 0 < i && AllPlain(s[..i]) && AllPlain(s[i + 1..]) && HasInnerDot(s[i + 1..])
  }

  /** The constructive validator accepts exactly the strings the regular
      expression matches. */
  lemma ValidateEmailIsPattern(s: string)
    ensures ValidateEmail(s) <==> MatchesEmailPattern(s)
  {
    if ValidateEmail(s) {
      ValidatedMatches(s);
    }
    if MatchesEmailPattern(s) {
      var i, j :| && 0 < i && i + 1 < j && j + 1 < |s|
                  && s[i] == '@' && s[j] == '.'
                  && AllPlain(s[..i]) && AllPlain(s[i + 1..j]) && AllPlain(s[j + 1..]);
      MatchValidates(s, i, j);
    }
  }

  lemma ValidatedMatches(s: string)
    requires ValidateEmail(s)
    ensures MatchesEmailPattern(s)
  {
    var i := IndexOf(s, '@').value;
    var d := s[i + 1..];
    var j :| 0 < j < |d| - 1 && d[j] == '.';
    assert s[i + 1..i + 1 + j] == d[..j];
    assert s[i + 1 + j + 1..] == d[j + 1..];
    assert s[i + 1 + j] == '.';
  }

  lemma MatchValidates(s: string, i: nat, j: nat)
    requires 0 < i && i + 1 < j && j + 1 < |s|
    requires s[i] == '@' && s[j] == '.'
    requires AllPlain(s[..i]) && AllPlain(s[i + 1..j]) && AllPlain(s[j + 1..])
    ensures ValidateEmail(s)
  {
    assert '@' !in s[..i] by {
      forall k | 0 <= k < i ensures s[..i][k] != '@' {
        assert Plain(s[..i][k]);
      }
    }
    IndexOfFirst(s, '@', i);
    var d := s[i + 1..];
    forall k | 0 <= k < |d| ensures Plain(d[k]) {
      if i + 1 + k < j {
        assert d[k] == s[i + 1..j][k];
      } else if i + 1 + k > j {
        assert d[k] == s[j + 1..][k - (j - i)];
      }
    }
    assert d[j - (i + 1)] == '.';
  }

  /** A valid address has exactly one '@'. */
  lemma ValidEmailHasOneAt(s: string)
    requires ValidateEmail(s)
    ensures multiset(s)['@'] == 1
  {
    var i := IndexOf(s, '@').value;
    assert s == s[..i] + [s[i]] + s[i + 1..];
    NoAtInPlain(s[..i]);
    NoAtInPlain(s[i + 1..]);
    assert multiset(s) == multiset(s[..i]) + multiset([s[i]]) + multiset(s[i + 1..]);
  }

  lemma NoAtInPlain(t: string)
    requires AllPlain(t)
    ensures multiset(t)['@'] == 0
  {
    assert '@' !in t by {
      forall k | 0 <= k < |t| ensures t[k] != '@' {
        assert Plain(t[k]);
      }
    }
  }

  /** The characters of `[!@#$%^&*(),.?":{}|<>]`. */
  const SpecialSymbols: string := "!@#$%^&*(),.?\":{}|<>"

  /** `validatePassword`: at least six UTF-16 code units (JavaScript's
      `length`) and at least one special symbol. */
  function ValidatePassword(p: string): bool
  {
    Utf16Length(p) >= 6 && exists k :: 0 <= k < |p| && p[k] in SpecialSymbols
  }

  /** For a password of Basic Multilingual Plane characters the length test
      counts characters; in general it admits fewer: three characters of
      which at least the excess are above U+FFFF. */
  lemma ValidatePasswordLength(p: string)
    ensures ValidatePassword(p) ==> |p| >= 3
    ensures (forall k :: 0 <= k < |p| ==> p[k] as int < 0x1_0000) ==>
              (ValidatePassword(p) <==> |p| >= 6 && exists k :: 0 <= k < |p| && p[k] in SpecialSymbols)
  {
  }

  /** Four characters, seven code units: the length test passes. */
  lemma AstralPasswordAccepted()
    ensures ValidatePassword("\U{1F600}\U{1F600}\U{1F600}!")
  {
    var p := "\U{1F600}\U{1F600}\U{1F600}!";
    assert p[3] == '!';
  }
}
