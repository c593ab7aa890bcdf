/** The syntax check the contact form applies to the submitted address: the
    JavaScript regular expression ^[^\s@]+@[^\s@]+\.[^\s@]+$ (no flags), written
    out by hand. IsValidEmail is the executable check the action calls;
    MatchesEmailRegex is what the regular expression means, stated as a
    decomposition of the address into its three parts. */
module EmailSyntax {
  import opened Strings

  /** ECMAScript's \s class: the WhiteSpace code points (tab, vertical tab,
      form feed, space, no-break space, byte order mark and the Zs category)
      and the LineTerminator code points. */
  predicate IsSpace(c: char)
    // the class is disjoint from the two characters the pattern names
    ensures IsSpace(c) ==> c != '@' && c != '.'
  {
    if c <= ' ' then
      c == '\t' || c == '\n' || c == '\U{000B}' || c == '\U{000C}' || c == '\r' || c == ' '
    else if c < '\U{00A0}' then
      false
    else
      || c == '\U{00A0}' || c == '\U{1680}'
      || ('\U{2000}' <= c <= '\U{200A}')
      || c == '\U{2028}' || c == '\U{2029}' || c == '\U{202F}' || c == '\U{205F}'
      || c == '\U{3000}' || c == '\U{FEFF}'
  }

  /** The character class [^\s@]. */
  predicate IsPlain(c: char) {
    !IsSpace(c) && c != '@'
  }

  /** s matches [^\s@]* . */
  predicate AllPlain(s: string) {
    forall k | 0 <= k < |s| :: IsPlain(s[k])
  }

  /** The domain d has a '.' with at least one character on each side. */
  predicate HasInnerDot(d: string) {
    exists k | 1 <= k < |d| - 1 :: d[k] == '.'
  }

  /** The check as the action runs it: split at the first '@'; the part
      before it must be non-empty and the part after it must hold neither
      whitespace nor a second '@' and must have an inner '.'. */
  predicate IsValidEmail(s: string)
    // the shortest address that passes, such as "a@b.c", has five characters
    ensures IsValidEmail(s) ==> 5 <= |s| && '@' in s
    ensures IsValidEmail(s) ==> s[0] != '@' && s[|s| - 1] != '@'
  {
    var i := IndexOf(s, '@');
    && 0 < i < |s|
    && AllPlain(s[..i])
    && AllPlain(s[i + 1..])
    && HasInnerDot(s[i + 1..])
  }

  /** What ^[^\s@]+@[^\s@]+\.[^\s@]+$ accepts: s is A '@' B '.' C with A, B
      and C non-empty runs of [^\s@]; i is the index of the '@', j that of
      the '.'. */
  ghost predicate MatchesEmailRegex(s: string)
    ensures MatchesEmailRegex(s) ==> 5 <= |s| && s[0] != '@' && s[|s| - 1] != '@'
  {
    exists i, j | 0 < i && i + 1 < j && j + 1 < |s| ::
      && s[i] == '@' && s[j] == '.'
      && AllPlain(s[..i]) && AllPlain(s[i + 1..j]) && AllPlain(s[j + 1..])
  }

  /** A character inside a slice that is all [^\s@] is itself in [^\s@]. */
  lemma PlainInSlice(s: string, lo: nat, hi: nat, k: nat)
    requires lo <= k < hi <= |s|
    requires AllPlain(s[lo..hi])
    ensures IsPlain(s[k])
  {
    assert s[k] == s[lo..hi][k - lo];
  }

  /** A slice of a run of [^\s@] is a run of [^\s@]. */
  lemma PlainSubslice(s: string, lo: nat, hi: nat, lo': nat, hi': nat)
    requires lo <= lo' <= hi' <= hi <= |s|
    requires AllPlain(s[lo..hi])
    ensures AllPlain(s[lo'..hi'])
  {
    forall k | 0 <= k < hi' - lo' ensures IsPlain(s[lo'..hi'][k]) {
      PlainInSlice(s, lo, hi, lo' + k);
    }
  }

  lemma ValidEmailMatchesRegex(s: string)
    requires IsValidEmail(s)
    ensures MatchesEmailRegex(s)
  {
    var i := IndexOf(s, '@');
    var d := s[i + 1..];
    var k :| 1 <= k < |d| - 1 && d[k] == '.';
    var j := i + 1 + k;
    assert s[j] == d[k];
    assert s[i + 1..] == s[i + 1..|s|];
    PlainSubslice(s, i + 1, |s|, i + 1, j);
    PlainSubslice(s, i + 1, |s|, j + 1, |s|);
    assert s[j + 1..] == s[j + 1..|s|];
  }

  /** The domain B '.' C of a decomposition is all [^\s@]. */
  lemma DomainIsPlain(s: string, i: nat, j: nat)
    requires i < j < |s| && s[j] == '.'
    requires AllPlain(s[i + 1..j]) && AllPlain(s[j + 1..])
    ensures AllPlain(s[i + 1..])
  {
    var d := s[i + 1..];
    assert s[j + 1..] == s[j + 1..|s|];
    forall k | 0 <= k < |d| ensures IsPlain(d[k]) {
      assert d[k] == s[i + 1 + k];
      if i + 1 + k < j {
        PlainInSlice(s, i + 1, j, i + 1 + k);
      } else if i + 1 + k > j {
        PlainInSlice(s, j + 1, |s|, i + 1 + k);
      }
    }
  }

  /** A decomposition A '@' B '.' C at indices i and j passes the check. */
  lemma DecompositionPasses(s: string, i: nat, j: nat)
    requires 0 < i && i + 1 < j && j + 1 < |s| && s[i] == '@' && s[j] == '.'
    requires AllPlain(s[..i]) && AllPlain(s[i + 1..j]) && AllPlain(s[j + 1..])
    ensures IsValidEmail(s)
  {
    assert s[..i] == s[0..i];
    forall k | 0 <= k < i ensures s[k] != '@' {
      PlainInSlice(s, 0, i, k);
    }
    IndexOfIs(s, '@', i);
    DomainIsPlain(s, i, j);
    assert s[i + 1..][j - i - 1] == '.';
  }

  lemma RegexMatchesValidEmail(s: string)
    requires MatchesEmailRegex(s)
    ensures IsValidEmail(s)
  {
    var i, j :| 0 < i && i + 1 < j && j + 1 < |s|
      && s[i] == '@' && s[j] == '.'
      && AllPlain(s[..i]) && AllPlain(s[i + 1..j]) && AllPlain(s[j + 1..]);
    DecompositionPasses(s, i, j);
  }

  /** The hand-written check accepts exactly the strings the regular
      expression accepts. */
  lemma EmailCheckMatchesRegex(s: string)
    ensures IsValidEmail(s) <==> MatchesEmailRegex(s)
  {
    if IsValidEmail(s) {
      ValidEmailMatchesRegex(s);
    }
    if MatchesEmailRegex(s) {
      RegexMatchesValidEmail(s);
    }
  }

  /** s holds no character of the class \s. */
  predicate NoSpace(s: string) {
    forall k | 0 <= k < |s| :: !IsSpace(s[k])
  }

  /** An address that passes has no whitespace and a single '@'. */
  lemma ValidEmailShape(s: string)
    requires IsValidEmail(s)
    ensures NoSpace(s) && CountOf(s, '@') == 1
  {
    var i := IndexOf(s, '@');
    CountAfterFirst(s, '@');
    var d := s[i + 1..];
    assert '@' !in d;
    assert s[..i] == s[0..i] && d == s[i + 1..|s|];
    forall k | 0 <= k < |s| ensures !IsSpace(s[k]) {
      if k < i {
        PlainInSlice(s, 0, i, k);
      } else if k > i {
        PlainInSlice(s, i + 1, |s|, k);
      }
    }
  }

  /** An address with no whitespace and a single '@', something before the
      '@' and an inner '.' after it passes. */
  lemma ShapeValidEmail(s: string)
    requires NoSpace(s) && CountOf(s, '@') == 1
    requires 0 < IndexOf(s, '@') && HasInnerDot(s[IndexOf(s, '@') + 1..])
    ensures IsValidEmail(s)
  {
    var i := IndexOf(s, '@');
    assert i < |s|;
    CountAfterFirst(s, '@');
    var a, d := s[..i], s[i + 1..];
    assert '@' !in d;
    forall k | 0 <= k < |a| ensures IsPlain(a[k]) {
      assert a[k] == s[k];
    }
    forall k | 0 <= k < |d| ensures IsPlain(d[k]) {
      assert d[k] == s[i + 1 + k];
    }
  }

  /** The check stated as a shape: no whitespace anywhere, exactly
      one '@', something before it, and after it a '.' with at least one
      character on each side. */
  lemma EmailCheckShape(s: string)
    ensures IsValidEmail(s) <==>
      && NoSpace(s) && CountOf(s, '@') == 1
      && 0 < IndexOf(s, '@') && HasInnerDot(s[IndexOf(s, '@') + 1..])
  {
    if IsValidEmail(s) {
      ValidEmailShape(s);
    }
    if NoSpace(s) && CountOf(s, '@') == 1 && 0 < IndexOf(s, '@') && HasInnerDot(s[IndexOf(s, '@') + 1..]) {
      ShapeValidEmail(s);
    }
  }

  /** Lower-case ASCII letters are in [^\s@]. */
  lemma LettersArePlain(s: string)
    requires forall k | 0 <= k < |s| :: 'a' <= s[k] <= 'z'
    ensures AllPlain(s)
  {
  }

  /** "john@example.com" matches the regular expression and passes the check. */
  lemma ExampleAddressAccepted()
    ensures MatchesEmailRegex("john@example.com")
    ensures IsValidEmail("john@example.com")
  {
    var local, host, tld := "john", "example", "com";
    var s := local + "@" + host + "." + tld;
    assert s == "john@example.com";
    LettersArePlain(local);
    LettersArePlain(host);
    LettersArePlain(tld);
    assert s[..4] == local;
    assert s[5..12] == host;
    assert s[13..] == tld;
    DecompositionPasses(s, 4, 12);
  }

  /** "invalid-email" has no '@' and fails the check. */
  lemma ExampleAddressRejected()
    ensures !IsValidEmail("invalid-email")
  {
    assert '@' !in "invalid-email";
  }
}
