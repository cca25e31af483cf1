/** The two input validators of src/crypto/crypto.ts. Each regular
    expression is given twice: once in the shape of the expression, and
    once as a condition on the characters, and the two are proved to
    accept the same strings. */
module Validators {
  import opened Text

  // ---------------------------------------------------------------------
  // validatePassword: /^[a-zA-Z0-9]+$/  (lines 107-109)
  // ---------------------------------------------------------------------

  /** The character class `[a-zA-Z0-9]`. */
  predicate IsAlnum(c: char) {
    ('a' <= c <= 'z') || ('A' <= c <= 'Z') || ('0' <= c <= '9')
  }

  /** `[a-zA-Z0-9]+` anchored at both ends: one class character, then
      either the end or another match of the same pattern. */
  predicate PasswordPattern(s: string)
    decreases |s|
  {
    |s| >= 1 && IsAlnum(s[0]) && (|s| == 1 || PasswordPattern(s[1..]))
  }

  /** `validatePassword`, character by character: non-empty, and every
      character ASCII alphanumeric. */
  predicate ValidatePassword(s: string) {
    |s| > 0 && forall i :: 0 <= i < |s| ==> IsAlnum(s[i])
  }

  /** The pattern and the character-wise check accept the same strings. */
  lemma {:induction false} PasswordForms(s: string)
    ensures PasswordPattern(s) <==> ValidatePassword(s)
    decreases |s|
  {
    if |s| > 1 {
      PasswordForms(s[1..]);
      if ValidatePassword(s) {
        assert forall i :: 0 <= i < |s| - 1 ==> s[1..][i] == s[i + 1];
      }
      if PasswordPattern(s) {
        forall i | 0 <= i < |s| ensures IsAlnum(s[i]) {
          if i > 0 {
            assert s[i] == s[1..][i - 1];
          }
        }
      }
    }
  }

  // ---------------------------------------------------------------------
  // validateLetterId: /^[a-z0-9]+(-[a-z0-9]+)*$/  (lines 111-113)
  // ---------------------------------------------------------------------

  /** The character class `[a-z0-9]`. */
  predicate IsIdChar(c: char) {
    ('a' <= c <= 'z') || ('0' <= c <= '9')
  }

  /** A match of `[a-z0-9]+`. */
  predicate IsGroup(g: string) {
    |g| > 0 && forall i :: 0 <= i < |g| ==> IsIdChar(g[i])
  }

  /** The language of the pattern: one or more `[a-z0-9]+` groups joined
      by single hyphens. */
  ghost predicate IdPattern(s: string) {
    exists groups: seq<string> ::
      |groups| >= 1 && (forall k :: 0 <= k < |groups| ==> IsGroup(groups[k])) &&
      Join(groups, '-') == s
  }

  /** The characters of an id and its hyphens: only `[a-z0-9-]`, and no
      hyphen doubled or at the end. A leading hyphen is not excluded
      here. */
  predicate HyphenatedTail(s: string) {
    (forall i :: 0 <= i < |s| ==> IsIdChar(s[i]) || s[i] == '-') &&
    (|s| == 0 || s[|s| - 1] != '-') &&
    (forall i :: 0 <= i < |s| - 1 ==> !(s[i] == '-' && s[i + 1] == '-'))
  }

  /** `validateLetterId`, character by character: non-empty, only
      `[a-z0-9-]`, no leading or trailing hyphen and no `--`. */
  predicate ValidateLetterId(s: string) {
    |s| > 0 && s[0] != '-' && HyphenatedTail(s)
  }

  /** The parts of a split at hyphens of a hyphenated tail are groups,
      except that the first is empty when the string is empty or starts
      with a hyphen. */
  lemma {:induction false} SplitHyphenated(s: string)
    requires HyphenatedTail(s)
    ensures SplitShape(s)
    decreases |s|
  {
    if |s| > 0 {
      HyphenatedSuffix(s);
      SplitHyphenated(s[1..]);
      if s[0] == '-' {
        HyphenStep(s);
      } else {
        IdCharStep(s);
      }
    }
  }

  /** The pieces of `s.split('-')`: groups after the first, the first made of
      id characters, and empty only when `s` is empty or starts with a hyphen. */
  predicate SplitShape(s: string) {
    var parts := Split(s, '-');
    (forall k :: 1 <= k < |parts| ==> IsGroup(parts[k])) &&
    (forall i :: 0 <= i < |parts[0]| ==> IsIdChar(parts[0][i])) &&
    (parts[0] == "" ==> s == "" || s[0] == '-')
  }

  /** Dropping the first character keeps the string well hyphenated; a
      leading hyphen is followed by an id character. */
  lemma HyphenatedSuffix(s: string)
    requires HyphenatedTail(s) && |s| > 0
    ensures HyphenatedTail(s[1..])
    ensures s[0] == '-' ==> |s| > 1 && IsIdChar(s[1])
    ensures s[0] != '-' ==> IsIdChar(s[0])
  {
    var t := s[1..];
    assert forall i :: 0 <= i < |t| ==> t[i] == s[i + 1];
  }

  /** A leading hyphen closes an empty first piece. */
  lemma HyphenStep(s: string)
    requires |s| > 1 && s[0] == '-' && IsIdChar(s[1])
    requires SplitShape(s[1..])
    ensures SplitShape(s)
  {
    var rest := Split(s[1..], '-');
    assert Split(s, '-') == [""] + rest;
    assert s[1..][0] == s[1];
  }

  /** A leading id character joins the first piece. */
  lemma IdCharStep(s: string)
    requires |s| > 0 && IsIdChar(s[0])
    requires SplitShape(s[1..])
    ensures SplitShape(s)
  {
    var rest := Split(s[1..], '-');
    var first := [s[0]] + rest[0];
    assert Split(s, '-') == [first] + rest[1..];
    assert forall i :: 0 < i < |first| ==> first[i] == rest[0][i - 1];
  }

  /** A join of groups is a valid id. */
  lemma {:induction false} JoinedGroupsValid(groups: seq<string>)
    requires |groups| >= 1
    requires forall k :: 0 <= k < |groups| ==> IsGroup(groups[k])
    ensures ValidateLetterId(Join(groups, '-'))
    decreases |groups|
  {
    var g := groups[0];
    if |groups| >= 2 {
      JoinedGroupsValid(groups[1..]);
      var tail := Join(groups[1..], '-');
      var s := Join(groups, '-');
      assert s == g + ['-'] + tail;
      forall i | 0 <= i < |s| ensures IsIdChar(s[i]) || s[i] == '-' {
        if i > |g| {
          assert s[i] == tail[i - |g| - 1];
        }
      }
      assert s[|s| - 1] == tail[|tail| - 1];
      forall i | 0 <= i < |s| - 1 ensures !(s[i] == '-' && s[i + 1] == '-') {
        if i > |g| {
          assert s[i] == tail[i - |g| - 1] && s[i + 1] == tail[i - |g|];
        } else if i == |g| {
          assert s[i + 1] == tail[0];
        }
      }
    }
  }

  /** The pattern and the character-wise check accept the same strings. */
  lemma LetterIdForms(s: string)
    ensures IdPattern(s) <==> ValidateLetterId(s)
  {
    if ValidateLetterId(s) {
      var groups := Split(s, '-');
      SplitHyphenated(s);
      JoinSplit(s, '-');
      assert IsGroup(groups[0]);
      assert |groups| >= 1 && (forall k :: 0 <= k < |groups| ==> IsGroup(groups[k])) &&
        Join(groups, '-') == s;
    }
    if IdPattern(s) {
      var groups :| |groups| >= 1 && (forall k :: 0 <= k < |groups| ==> IsGroup(groups[k])) &&
        Join(groups, '-') == s;
      JoinedGroupsValid(groups);
    }
  }

  // ---------------------------------------------------------------------
  // Examples
  // ---------------------------------------------------------------------

  lemma PasswordExamples()
    ensures ValidatePassword("abc123")
    ensures !ValidatePassword("abc 123")
    ensures !ValidatePassword("")
  {
    assert !IsAlnum("abc 123"[3]);
  }

  lemma LetterIdExamples()
    ensures ValidateLetterId("my-letter-01")
    ensures !ValidateLetterId("My_Letter")
    ensures !ValidateLetterId("my--letter")
    ensures !ValidateLetterId("letter-")
  {
    assert !IsIdChar("My_Letter"[0]);
    assert "my--letter"[2] == '-' && "my--letter"[3] == '-';
  }
}
