/** The two input patterns shared by the server's registration route and the
    client's sign-up form: /^[a-zA-Z0-9_]{3,20}$/ for user names and
    /^[^\s@]+@[^\s@]+\.[^\s@]+$/ for e-mail addresses. */
module Patterns {
  import opened JsText

  /** One character of the class [a-zA-Z0-9_]. */
  predicate IsWordChar(c: char) {
    ('a' <= c <= 'z') || ('A' <= c <= 'Z') || ('0' <= c <= '9') || c == '_'
  }

  /** The user-name pattern: 3 to 20 characters of [a-zA-Z0-9_], anchored
      at both ends. */
  predicate IsValidUsername(u: string) {
    3 <= |u| <= 20 && forall k :: 0 <= k < |u| ==> IsWordChar(u[k])
  }

  /** A matching user name has no whitespace and no '@'. */
  lemma ValidUsernameIsPlain(u: string)
    requires IsValidUsername(u)
    ensures NoSpace(u) && '@' !in u
  {
    forall k | 0 <= k < |u| ensures !IsSpace(u[k]) && u[k] != '@' {
      assert IsWordChar(u[k]);
    }
  }

  /** One character of the class [^\s@]. */
  predicate Plain(c: char) {
    !IsSpace(c) && c != '@'
  }

  predicate AllPlain(t: string) {
    forall k :: 0 <= k < |t| ==> Plain(t[k])
  }

  /** The e-mail pattern as the regex denotes it: the whole string is a@b.c where
      a, b and c are non-empty runs of [^\s@]. */
  predicate IsValidEmail(s: string) {
    exists i, j :: 0 < i && i + 1 < j && j + 1 < |s| && s[i] == '@' && s[j] == '.'
      && AllPlain(s[..i]) && AllPlain(s[i + 1..j]) && AllPlain(s[j + 1..])
  }

  /** A matching address has at least five characters and contains '@'. */
  lemma ValidEmailShape(s: string)
    requires IsValidEmail(s)
    ensures 5 <= |s| && '@' in s
  {
    var i, j :| 0 < i && i + 1 < j && j + 1 < |s| && s[i] == '@' && s[j] == '.';
    assert s[i] in s;
  }

  /** The same language described character by character: no whitespace, exactly
      one '@', something before it, and a '.' after it that is neither the first
      nor the last character of the part after '@'. */
  predicate WellFormedEmail(s: string) {
    NoSpace(s)
    && (exists i :: 0 < i < |s| && s[i] == '@'
          && (forall k :: 0 <= k < |s| && k != i ==> s[k] != '@')
          && (exists j :: i + 1 < j < |s| - 1 && s[j] == '.'))
  }

  /** Every string the regex accepts is well formed. */
  lemma EmailPatternIsWellFormed(s: string)
    requires IsValidEmail(s)
    ensures WellFormedEmail(s)
  {
    var i, j :| 0 < i && i + 1 < j && j + 1 < |s| && s[i] == '@' && s[j] == '.'
      && AllPlain(s[..i]) && AllPlain(s[i + 1..j]) && AllPlain(s[j + 1..]);
    var a, b, c := s[..i], s[i + 1..j], s[j + 1..];
    forall k | 0 <= k < |s|
      ensures !IsSpace(s[k]) && (k != i ==> s[k] != '@')
    {
      if k < i {
        assert a[k] == s[k];
      } else if i < k < j {
        assert b[k - i - 1] == s[k];
      } else if j < k {
        assert c[k - j - 1] == s[k];
      }
    }
    assert i + 1 < j < |s| - 1 && s[j] == '.';
  }

  /** Every well-formed string is accepted by the regex. */
  lemma WellFormedEmailMatches(s: string)
    requires WellFormedEmail(s)
    ensures IsValidEmail(s)
  {
    var i :| 0 < i < |s| && s[i] == '@'
      && (forall k :: 0 <= k < |s| && k != i ==> s[k] != '@')
      && (exists j :: i + 1 < j < |s| - 1 && s[j] == '.');
    var j :| i + 1 < j < |s| - 1 && s[j] == '.';
    var a, b, c := s[..i], s[i + 1..j], s[j + 1..];
    assert AllPlain(a) by {
      forall k | 0 <= k < |a| ensures Plain(a[k]) {
        assert a[k] == s[k];
      }
    }
    assert AllPlain(b) by {
      forall k | 0 <= k < |b| ensures Plain(b[k]) {
        assert b[k] == s[i + 1 + k];
      }
    }
    assert AllPlain(c) by {
      forall k | 0 <= k < |c| ensures Plain(c[k]) {
        assert c[k] == s[j + 1 + k];
      }
    }
  }

  /** The regex accepts exactly the well-formed addresses. */
  lemma EmailPatternCharacterised(s: string)
    ensures IsValidEmail(s) <==> WellFormedEmail(s)
  {
    if IsValidEmail(s) {
      EmailPatternIsWellFormed(s);
    }
    if WellFormedEmail(s) {
      WellFormedEmailMatches(s);
    }
  }

  /** A valid address contains no whitespace, so trimming it changes nothing. */
  lemma ValidEmailTrimsToItself(s: string)
    requires IsValidEmail(s)
    ensures Trim(s) == s && Trim(ToLower(s)) == ToLower(s)
  {
    EmailPatternCharacterised(s);
    TrimNoSpace(s);
    ToLowerNoSpace(s);
    TrimNoSpace(ToLower(s));
  }

  /** A valid user name contains no whitespace, so trimming it changes nothing. */
  lemma ValidUsernameTrimsToItself(u: string)
    requires IsValidUsername(u)
    ensures Trim(u) == u && Trim(ToLower(u)) == ToLower(u)
  {
    ValidUsernameIsPlain(u);
    TrimNoSpace(u);
    ToLowerNoSpace(u);
    TrimNoSpace(ToLower(u));
  }
}
