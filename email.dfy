/** The email shape check shared by the campus and the invitation pages: the
    pattern ^[^\s@]+@[^\s@]+\.[^\s@]+$ of JavaScript regular expressions. */
module EmailShape {
  /** The characters JavaScript's \s class matches, by code point. */
  predicate IsJsSpace(c: char)
  {
    var k := c as int;
    (9 <= k <= 13) || k == 32 || k == 0xA0 || k == 0x1680
    || (0x2000 <= k <= 0x200A) || k == 0x2028 || k == 0x2029
    || k == 0x202F || k == 0x205F || k == 0x3000 || k == 0xFEFF
  }

  /** A character the class [^\s@] admits. */
  predicate Plain(c: char)
  {
    !IsJsSpace(c) && c != '@'
  }

  /** A non-empty run of [^\s@], as [^\s@]+ matches. */
  ghost predicate Run(s: string)
  {
    |s| >= 1 && forall k :: 0 <= k < |s| ==> Plain(s[k])
  }

  /** The regular expression read directly: a run, '@', a run, '.', a run,
      covering the whole string. */
  ghost predicate MatchesPattern(s: string)
  {
    exists i, j :: 0 < i && i + 1 < j && j + 1 < |s| && s[i] == '@' && s[j] == '.'
      && Run(s[..i]) && Run(s[i + 1..j]) && Run(s[j + 1..])
  }

  /** The index of the first occurrence of c, or |s| when there is none. */
  function IndexOf(s: string, c: char): (k: nat)
    ensures k <= |s|
    ensures k < |s| ==> s[k] == c
    ensures forall i :: 0 <= i < k ==> s[i] != c
  {
    if |s| == 0 then 0
    else if s[0] == c then 0
    else 1 + IndexOf(s[1..], c)
  }

  function AllPlain(s: string): bool
  {
    forall k :: 0 <= k < |s| ==> Plain(s[k])
  }

  /** The check as a program would do it: cut at the first '@'; the local
      part is a run, and the domain is free of '@' and blanks and has a '.'
      with something on both sides. */
  function ValidEmail(s: string): bool
  {
    var at := IndexOf(s, '@');
    at > 0 && at < |s| && AllPlain(s[..at])
    && var domain := s[at + 1..];
    AllPlain(domain)
    && exists j :: 0 < j < |domain| - 1 && domain[j] == '.'
  }

  /** The check accepts exactly the strings the pattern matches. */
  lemma ValidEmailMatchesPattern(s: string)
    ensures ValidEmail(s) <==> MatchesPattern(s)
  {
    if ValidEmail(s) {
      ValidEmailIsMatch(s);
    }
    if MatchesPattern(s) {
      MatchIsValidEmail(s);
    }
  }

  lemma ValidEmailIsMatch(s: string)
    requires ValidEmail(s)
    ensures MatchesPattern(s)
  {
    var at := IndexOf(s, '@');
    var domain := s[at + 1..];
    var j :| 0 < j < |domain| - 1 && domain[j] == '.';
    var dot := at + 1 + j;
    assert s[at + 1..dot] == domain[..j];
    assert s[dot + 1..] == domain[j + 1..];
    assert Run(s[..at]);
    assert Run(s[at + 1..dot]);
    assert Run(s[dot + 1..]);
    assert s[at] == '@' && s[dot] == '.';
  }

  lemma MatchIsValidEmail(s: string)
    requires MatchesPattern(s)
    ensures ValidEmail(s)
  {
    var i, j :| 0 < i && i + 1 < j && j + 1 < |s| && s[i] == '@' && s[j] == '.'
      && Run(s[..i]) && Run(s[i + 1..j]) && Run(s[j + 1..]);
    FirstAt(s, i);
    var at := i;
    var domain := s[at + 1..];
    DomainPlain(s, i, j);
    assert domain[j - at - 1] == '.';
  }

  /** The '@' the pattern places is the first one. */
  lemma FirstAt(s: string, i: int)
    requires 0 < i < |s| && s[i] == '@' && Run(s[..i])
    ensures IndexOf(s, '@') == i
  {
    forall k | 0 <= k < i
      ensures s[k] != '@'
    {
      assert s[k] == s[..i][k];
    }
  }

  lemma DomainPlain(s: string, i: int, j: int)
    requires 0 < i && i + 1 < j && j + 1 < |s| && s[j] == '.'
    requires Run(s[i + 1..j]) && Run(s[j + 1..])
    ensures AllPlain(s[i + 1..])
  {
    var domain := s[i + 1..];
    forall k | 0 <= k < |domain|
      ensures Plain(domain[k])
    {
      if i + 1 + k < j {
        assert domain[k] == s[i + 1..j][k];
      } else if i + 1 + k > j {
        assert domain[k] == s[j + 1..][k - (j - i)];
      }
    }
  }

  /** What the pattern forces: no blank anywhere, and exactly one '@', which
      is not the first character. */
  lemma PatternShape(s: string)
    requires MatchesPattern(s)
    ensures forall k :: 0 <= k < |s| ==> !IsJsSpace(s[k])
    ensures exists i :: 0 < i < |s| && s[i] == '@' && forall k :: 0 <= k < |s| && k != i ==> s[k] != '@'
  {
    var i, j :| 0 < i && i + 1 < j && j + 1 < |s| && s[i] == '@' && s[j] == '.'
      && Run(s[..i]) && Run(s[i + 1..j]) && Run(s[j + 1..]);
    forall k | 0 <= k < |s| && k != i
      ensures Plain(s[k])
    {
      if k < i {
        assert s[k] == s[..i][k];
      } else if k < j {
        assert s[k] == s[i + 1..j][k - i - 1];
      } else if k > j {
        assert s[k] == s[j + 1..][k - j - 1];
      }
    }
  }
}
