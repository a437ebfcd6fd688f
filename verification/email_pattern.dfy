/** The lead handler's email check, the regular expression
    `^[^\s@]+@[^\s@]+\.[^\s@]+$`, applied to the normalised email.

    `MatchesPattern` states what the expression accepts, piece by piece;
    `IsValidEmail` is an explicit check of four plain conditions; and
    `ValidEmailMatchesPattern` proves the two agree on every string. */
module EmailPattern {
  import opened Text

  /** A character of the class `[^\s@]`. */
  predicate IsAtomChar(c: char) {
    !IsWhitespace(c) && c != '@'
  }

  /** A match of `[^\s@]+`. */
  predicate IsAtom(s: string) {
    |s| > 0 && forall i :: 0 <= i < |s| ==> IsAtomChar(s[i])
  }

  /** `s` matches the expression with its `@` at index `at` and its literal
      `\.` at index `dot`. */
  ghost predicate SplitsAt(s: string, at: int, dot: int) {
    && 0 <= at < dot < |s|
    && s[at] == '@'
    && s[dot] == '.'
    && IsAtom(s[..at])
    && IsAtom(s[at + 1..dot])
    && IsAtom(s[dot + 1..])
  }

  /** The whole string matches the anchored expression. */
  ghost predicate MatchesPattern(s: string) {
    exists at, dot :: SplitsAt(s, at, dot)
  }

  /** The number of occurrences of `c` in `s`. */
  function CountOf(s: string, c: char): nat {
    if s == [] then 0 else (if s[0] == c then 1 else 0) + CountOf(s[1..], c)
  }

  /** The index of the first `c` in `s`, or `|s|` when there is none. */
  function IndexOf(s: string, c: char): (k: nat)
    ensures k <= |s|
    ensures k < |s| ==> s[k] == c
    ensures forall i :: 0 <= i < k ==> s[i] != c
  {
    if s == [] then 0 else if s[0] == c then 0 else 1 + IndexOf(s[1..], c)
  }

  /** The part before the first `@` (the whole string when there is none). */
  function LocalPart(s: string): string {
    s[..IndexOf(s, '@')]
  }

  /** The part after the first `@` (empty when there is none). */
  function Domain(s: string): string {
    var at := IndexOf(s, '@');
    if at < |s| then s[at + 1..] else ""
  }

  /** Some `.` in `d` has at least one character on each side. */
  predicate HasInnerDot(d: string) {
    |d| >= 3 && '.' in d[1..|d| - 1]
  }

  /** The explicit check: exactly one `@`, no whitespace anywhere, a
      non-empty local part, and a domain with an inner `.`. */
  predicate IsValidEmail(s: string) {
    && CountOf(s, '@') == 1
    && NoWhitespace(s)
    && LocalPart(s) != ""
    && HasInnerDot(Domain(s))
  }

  lemma {:induction false} CountAbsent(s: string, c: char)
    ensures CountOf(s, c) == 0 <==> c !in s
  {
    if s != [] {
      CountAbsent(s[1..], c);
      assert s == [s[0]] + s[1..];
    }
  }

  /** Every occurrence of `c` is the first one or comes after it. */
  lemma {:induction false} CountFromFirst(s: string, c: char)
    requires c in s
    ensures IndexOf(s, c) < |s|
    ensures CountOf(s, c) == 1 + CountOf(s[IndexOf(s, c) + 1..], c)
  {
    if s[0] != c {
      assert s == [s[0]] + s[1..];
      assert c in s[1..];
      CountFromFirst(s[1..], c);
      assert s[1..][IndexOf(s[1..], c) + 1..] == s[IndexOf(s, c) + 1..];
    }
  }

  /** Exactly one `@` means: there is a first one and none after it. */
  lemma SingleAt(s: string)
    ensures CountOf(s, '@') == 1 <==> IndexOf(s, '@') < |s| && '@' !in s[IndexOf(s, '@') + 1..]
  {
    if '@' in s {
      CountFromFirst(s, '@');
      CountAbsent(s[IndexOf(s, '@') + 1..], '@');
    } else {
      CountAbsent(s, '@');
    }
  }

  /** The explicit check `IsValidEmail` accepts exactly the strings the regular
      expression matches. */
  lemma ValidEmailMatchesPattern(s: string)
    ensures IsValidEmail(s) <==> MatchesPattern(s)
  {
    SingleAt(s);
    if IsValidEmail(s) {
      ValidEmailSplits(s);
    }
    if MatchesPattern(s) {
      var at, dot :| SplitsAt(s, at, dot);
      SplitIsValidEmail(s, at, dot);
    }
  }

  lemma ValidEmailSplits(s: string)
    requires IsValidEmail(s)
    ensures MatchesPattern(s)
  {
    SingleAt(s);
    SplitAtFirst(s, IndexOf(s, '@'));
  }

  lemma SplitAtFirst(s: string, at: nat)
    requires 0 < at < |s| && s[at] == '@'
    requires forall i :: 0 <= i < at ==> s[i] != '@'
    requires '@' !in s[at + 1..]
    requires NoWhitespace(s)
    requires HasInnerDot(s[at + 1..])
    ensures MatchesPattern(s)
  {
    var d := s[at + 1..];
    var j :| 0 <= j < |d[1..|d| - 1]| && d[1..|d| - 1][j] == '.';
    var dot := at + 2 + j;
    assert s[dot] == '.';
    assert IsAtom(s[..at]) by {
      forall i | 0 <= i < at
        ensures IsAtomChar(s[..at][i])
      {
        assert s[..at][i] == s[i];
      }
    }
    var host, tld := s[at + 1..dot], s[dot + 1..];
    assert IsAtom(host) by {
      forall i | 0 <= i < |host|
        ensures IsAtomChar(host[i])
      {
        assert host[i] == d[i] == s[at + 1 + i];
        assert d[i] in d;
      }
    }
    assert IsAtom(tld) by {
      forall i | 0 <= i < |tld|
        ensures IsAtomChar(tld[i])
      {
        assert tld[i] == d[j + 2 + i] == s[dot + 1 + i];
        assert d[j + 2 + i] in d;
      }
    }
    assert SplitsAt(s, at, dot);
  }

  lemma SplitIsValidEmail(s: string, at: int, dot: int)
    requires SplitsAt(s, at, dot)
    ensures IsValidEmail(s)
  {
    assert forall i :: 0 <= i < at ==> s[i] == s[..at][i];
    assert IndexOf(s, '@') == at;
    var d := s[at + 1..];
    assert '@' !in d by {
      forall i | 0 <= i < |d|
        ensures d[i] != '@'
      {
        if at + 1 + i < dot {
          assert d[i] == s[at + 1..dot][i];
        } else if at + 1 + i > dot {
          assert d[i] == s[dot + 1..][at + i - dot];
        }
      }
    }
    SingleAt(s);
    assert NoWhitespace(s) by {
      forall i | 0 <= i < |s|
        ensures !IsWhitespace(s[i])
      {
        if i < at {
          assert s[i] == s[..at][i];
        } else if at < i < dot {
          assert s[i] == s[at + 1..dot][i - at - 1];
        } else if dot < i {
          assert s[i] == s[dot + 1..][i - dot - 1];
        }
      }
    }
    assert d[1..|d| - 1][dot - at - 2] == '.';
  }

  /** The rejected cases, one at a time: a string with no `@`, with a second
      `@`, with whitespace, with an empty local part, or whose domain lacks a
      `.` with a character on each side does not match. */
  lemma PatternRejects(s: string)
    requires || '@' !in s
             || CountOf(s, '@') > 1
             || !NoWhitespace(s)
             || (s != [] && s[0] == '@')
             || ('@' in s && !HasInnerDot(Domain(s)))
    ensures !MatchesPattern(s)
  {
    ValidEmailMatchesPattern(s);
    if '@' !in s {
      CountAbsent(s, '@');
    }
  }
}
