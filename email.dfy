/** The email shape the registration validator enforces with the regular
    expression `^[^\s@]+@[^\s@]+\.[^\s@]+$`. */
module Email {
  import opened JsText

  /** The character class `[^\s@]`. */
  predicate InClass(c: char) {
    !IsWhitespace(c) && c != '@'
  }

  /** `[^\s@]*` matching `s[lo..hi]`. */
  predicate ClassBetween(s: string, lo: int, hi: int)
    requires 0 <= lo <= hi <= |s|
  {
    forall n :: lo <= n < hi ==> InClass(s[n])
  }

  /** What the regular expression matches, read as a language: one or more
      class characters, `@`, one or more class characters, `.`, one or more
      class characters, covering the whole string. A match is a choice of the
      positions `i` of the `@` and `j` of the `.`. */
  ghost predicate MatchesEmailRegex(s: string) {
    exists i, j :: EmailSplit(s, i, j)
  }

  ghost predicate EmailSplit(s: string, i: int, j: int) {
    && 0 < i && i + 1 < j && j + 1 < |s|
    && s[i] == '@' && s[j] == '.'
    && ClassBetween(s, 0, i) && ClassBetween(s, i + 1, j) && ClassBetween(s, j + 1, |s|)
  }

  /** The domain contains a `.` with at least one character on each side. */
  predicate HasInnerDot(d: string) {
    exists k :: 0 < k < |d| - 1 && d[k] == '.'
  }

  /** The decision procedure: no whitespace, exactly one `@` (so two pieces
      when split on it), a non-empty local part, and a dotted domain. */
  predicate IsValidEmail(s: string) {
    var parts := Split(s, '@');
    && |parts| == 2
    && parts[0] != []
    && (forall i :: 0 <= i < |s| ==> !IsWhitespace(s[i]))
    && HasInnerDot(parts[1])
  }

  /** The decision procedure accepts exactly the strings the regular
      expression matches. */
  lemma EmailRegexEquivalence(s: string)
    ensures IsValidEmail(s) <==> MatchesEmailRegex(s)
  {
    if IsValidEmail(s) {
      ValidEmailMatches(s);
    }
    if MatchesEmailRegex(s) {
      var i, j :| EmailSplit(s, i, j);
      MatchIsValidEmail(s, i, j);
    }
  }

  lemma ValidEmailMatches(s: string)
    requires IsValidEmail(s)
    ensures MatchesEmailRegex(s)
  {
    var parts := Split(s, '@');
    JoinSplit(s, '@');
    var local, domain := parts[0], parts[1];
    assert s == local + ['@'] + domain;
    var k :| 0 < k < |domain| - 1 && domain[k] == '.';
    var i, j := |local|, |local| + 1 + k;
    assert forall n :: 0 <= n < i ==> s[n] == local[n];
    assert forall n :: i < n < |s| ==> s[n] == domain[n - i - 1];
    assert EmailSplit(s, i, j);
  }

  lemma MatchIsValidEmail(s: string, i: int, j: int)
    requires EmailSplit(s, i, j)
    ensures IsValidEmail(s)
  {
    var local, domain := s[..i], s[i + 1..];
    assert forall n :: 0 <= n < |local| ==> local[n] == s[n];
    assert forall n :: 0 <= n < |domain| ==> domain[n] == s[i + 1 + n];
    assert '@' !in local;
    assert '@' !in domain;
    assert s == local + ['@'] + domain;
    SplitJoin([domain], '@');
    SplitAtFirst(local, '@', domain);
    var parts := Split(s, '@');
    assert parts == [local, domain];
    assert domain[j - i - 1] == '.';
    assert HasInnerDot(parts[1]);
    MatchHasNoWhitespace(s, i, j);
  }

  /** Every character of a match is a class character, `@` or `.`; none is
      whitespace. */
  lemma MatchHasNoWhitespace(s: string, i: int, j: int)
    requires EmailSplit(s, i, j)
    ensures forall n :: 0 <= n < |s| ==> !IsWhitespace(s[n])
  {
    forall n | 0 <= n < |s|
      ensures !IsWhitespace(s[n])
    {
      if n < i {
        assert InClass(s[n]);
      } else if i < n < j {
        assert InClass(s[n]);
      } else if j < n {
        assert InClass(s[n]);
      }
    }
  }

  /** Lower-casing neither creates nor destroys a match: the email the
      handlers store (lower-cased) has the shape the validator checked. */
  lemma LowerKeepsEmailShape(s: string)
    ensures IsValidEmail(ToLower(s)) <==> IsValidEmail(s)
  {
    EmailRegexEquivalence(s);
    EmailRegexEquivalence(ToLower(s));
    LowerKeepsMatch(s);
  }

  lemma LowerKeepsMatch(s: string)
    ensures MatchesEmailRegex(ToLower(s)) <==> MatchesEmailRegex(s)
  {
    if MatchesEmailRegex(s) {
      var i, j :| EmailSplit(s, i, j);
      LowerKeepsSplit(s, i, j);
    }
    if MatchesEmailRegex(ToLower(s)) {
      var i, j :| EmailSplit(ToLower(s), i, j);
      LowerKeepsSplit(s, i, j);
    }
  }

  /** The same positions split a string and its lower case. */
  lemma LowerKeepsSplit(s: string, i: int, j: int)
    ensures EmailSplit(ToLower(s), i, j) <==> EmailSplit(s, i, j)
  {
    var r := ToLower(s);
    forall n | 0 <= n < |s|
      ensures InClass(r[n]) <==> InClass(s[n])
      ensures r[n] == '@' <==> s[n] == '@'
      ensures r[n] == '.' <==> s[n] == '.'
    {
      LowerCharKeepsPunctuation(s[n]);
    }
  }
}
