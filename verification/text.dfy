/** String operations the lead handler applies: JavaScript's `trim` and
    `toLowerCase` to the submitted email and the honeypot field, and
    `includes` to the provider's error message.

    Whitespace is the set ECMAScript's `trim` strips and its regular
    expression class `\s` matches (WhiteSpace and LineTerminator code
    points). Lower-casing is modelled on the ASCII letters only. */
module Text {

  const Whitespace: set<char> := {
    ' ', '\t', '\n', '\r', '\U{000B}', '\U{000C}',
    '\U{00A0}', '\U{1680}',
    '\U{2000}', '\U{2001}', '\U{2002}', '\U{2003}', '\U{2004}', '\U{2005}',
    '\U{2006}', '\U{2007}', '\U{2008}', '\U{2009}', '\U{200A}',
    '\U{2028}', '\U{2029}', '\U{202F}', '\U{205F}', '\U{3000}', '\U{FEFF}'
  }

  predicate IsWhitespace(c: char) {
    c in Whitespace
  }

  predicate AllWhitespace(s: string) {
    forall i :: 0 <= i < |s| ==> IsWhitespace(s[i])
  }

  predicate NoWhitespace(s: string) {
    forall i :: 0 <= i < |s| ==> !IsWhitespace(s[i])
  }

  /** Neither the first nor the last character is whitespace. */
  predicate NoEdgeWhitespace(s: string) {
    |s| > 0 ==> !IsWhitespace(s[0]) && !IsWhitespace(s[|s| - 1])
  }

  predicate IsUpper(c: char) {
    'A' <= c <= 'Z'
  }

  predicate NoUpper(s: string) {
    forall i :: 0 <= i < |s| ==> !IsUpper(s[i])
  }

  /** Only whitespace lies outside `s[i..j]`. */
  ghost predicate Surrounded(s: string, i: int, j: int) {
    && 0 <= i <= j <= |s|
    && AllWhitespace(s[..i])
    && AllWhitespace(s[j..])
  }

  /** `s` is `r` with only whitespace before (the first `i` characters)
      and after it. */
  ghost predicate Encloses(s: string, i: int, r: string) {
    && Surrounded(s, i, i + |r|)
    && s[i..i + |r|] == r
  }

  /** `sub` occurs in `s` starting at index `i`. */
  predicate OccursAt(s: string, sub: string, i: int) {
    0 <= i && i + |sub| <= |s| && s[i..i + |sub|] == sub
  }

  /** `String.prototype.includes`. */
  predicate Contains(s: string, sub: string) {
    exists i | 0 <= i <= |s| - |sub| :: OccursAt(s, sub, i)
  }

  /** The number of whitespace characters `s` starts with: every
      character before it is whitespace, the one at it is not. */
  function LeadingWhitespace(s: string): (k: nat)
    ensures k <= |s|
    ensures forall i :: 0 <= i < k ==> IsWhitespace(s[i])
    ensures k < |s| ==> !IsWhitespace(s[k])
  {
    if |s| > 0 && IsWhitespace(s[0]) then 1 + LeadingWhitespace(s[1..]) else 0
  }

  /** The length of `s` without its trailing whitespace: every character
      from it on is whitespace, the one before it is not. */
  function EndOfContent(s: string): (k: nat)
    ensures k <= |s|
    ensures forall i :: k <= i < |s| ==> IsWhitespace(s[i])
    ensures k > 0 ==> !IsWhitespace(s[k - 1])
  {
    if |s| > 0 && IsWhitespace(s[|s| - 1]) then EndOfContent(s[..|s| - 1]) else |s|
  }

  /** The two contracts above pin their results down. */
  lemma LeadingWhitespaceUnique(s: string, k: nat)
    requires k <= |s|
    requires forall i :: 0 <= i < k ==> IsWhitespace(s[i])
    requires k < |s| ==> !IsWhitespace(s[k])
    ensures LeadingWhitespace(s) == k
  {
  }

  lemma EndOfContentUnique(s: string, k: nat)
    requires k <= |s|
    requires forall i :: k <= i < |s| ==> IsWhitespace(s[i])
    requires k > 0 ==> !IsWhitespace(s[k - 1])
    ensures EndOfContent(s) == k
  {
  }

  /** `trimStart`: the longest suffix of `s` that does not start with
      whitespace, all of what it drops being whitespace. */
  function TrimStart(s: string): (r: string)
    ensures |r| <= |s| && r == s[|s| - |r|..]
    ensures AllWhitespace(s[..|s| - |r|])
    ensures |r| > 0 ==> !IsWhitespace(r[0])
  {
    var k := LeadingWhitespace(s);
    var dropped := s[..k];
    assert AllWhitespace(dropped) by {
      forall j | 0 <= j < |dropped|
        ensures IsWhitespace(dropped[j])
      {
        assert dropped[j] == s[j];
      }
    }
    s[k..]
  }

  /** `trimEnd`: the longest prefix of `s` that does not end with
      whitespace, all of what it drops being whitespace. */
  function TrimEnd(s: string): (r: string)
    ensures |r| <= |s| && r == s[..|r|]
    ensures AllWhitespace(s[|r|..])
    ensures |r| > 0 ==> !IsWhitespace(r[|r| - 1])
  {
    var k := EndOfContent(s);
    var dropped := s[k..];
    assert AllWhitespace(dropped) by {
      forall j | 0 <= j < |dropped|
        ensures IsWhitespace(dropped[j])
      {
        assert dropped[j] == s[k + j];
      }
    }
    s[..k]
  }

  /** `String.prototype.trim`, both ends at once: the result is a slice of
      `s` with only whitespace around it, and it neither starts nor ends
      with whitespace. It is empty exactly when `s` is blank. */
  function Trim(s: string): (r: string)
    ensures NoEdgeWhitespace(r)
    ensures exists i :: Encloses(s, i, r)
    ensures r == "" <==> AllWhitespace(s)
  {
    var t := TrimStart(s);
    var r := TrimEnd(t);
    var i := |s| - |t|;
    assert s[i..i + |r|] == r;
    assert s[i + |r|..] == t[|r|..];
    assert r != [] ==> r[0] == t[0];
    assert Encloses(s, i, r);
    assert r == "" ==> AllWhitespace(s) by {
      if r == "" {
        assert t[|r|..] == t;
        assert s[..i] == s;
      }
    }
    r
  }

  function LowerChar(c: char): char {
    if IsUpper(c) then (c as int + 32) as char else c
  }

  /** `toLowerCase` on the ASCII letters: same length, each upper-case
      letter replaced by the letter 32 code points above it, every other
      character unchanged, and so no upper-case letter left. */
  function ToLower(s: string): (r: string)
    ensures |r| == |s|
    ensures forall i :: 0 <= i < |s| && IsUpper(s[i]) ==> r[i] as int == s[i] as int + 32
    ensures forall i :: 0 <= i < |s| && !IsUpper(s[i]) ==> r[i] == s[i]
    ensures NoUpper(r)
    ensures forall i :: 0 <= i < |s| ==> (IsWhitespace(r[i]) <==> IsWhitespace(s[i]))
  {
    seq(|s|, i requires 0 <= i < |s| => LowerChar(s[i]))
  }

  /** `r` is the lower-cased slice of `s` starting at `i`, with only
      whitespace around that slice. */
  ghost predicate LowersEnclosed(s: string, i: int, r: string) {
    && Surrounded(s, i, i + |r|)
    && r == ToLower(s[i..i + |r|])
  }

  /** The email normalisation `email.trim().toLowerCase()`. Its result is
      the lower-cased content of the input between its leading and trailing
      whitespace; it has no edge whitespace and no upper-case letter, and
      it is empty exactly when the input is blank. */
  function Normalize(s: string): (r: string)
    ensures exists i :: LowersEnclosed(s, i, r)
    ensures NoEdgeWhitespace(r)
    ensures NoUpper(r)
    ensures r == "" <==> AllWhitespace(s)
  {
    var t := Trim(s);
    var r := ToLower(t);
    assert |r| > 0 ==> IsWhitespace(r[0]) == IsWhitespace(t[0])
                       && IsWhitespace(r[|r| - 1]) == IsWhitespace(t[|t| - 1]);
    assert exists i :: LowersEnclosed(s, i, r) by {
      var i :| Encloses(s, i, t);
      assert LowersEnclosed(s, i, r);
    }
    r
  }

  /** `Trim` inverts padding: surrounding a string that has no edge
      whitespace with any whitespace and trimming gives the string back.
      Together with `Trim`'s contract this determines `Trim` completely. */
  lemma TrimPadded(a: string, t: string, b: string)
    requires AllWhitespace(a) && AllWhitespace(b) && NoEdgeWhitespace(t)
    ensures Trim(a + t + b) == t
  {
    var s := a + t + b;
    if t == [] {
      assert forall i :: 0 <= i < |s| ==> IsWhitespace(s[i]) by {
        forall i | 0 <= i < |s|
          ensures IsWhitespace(s[i])
        {
          if i < |a| {
            assert s[i] == a[i];
          } else {
            assert s[i] == b[i - |a|];
          }
        }
      }
      LeadingWhitespaceUnique(s, |s|);
    } else {
      assert forall i :: 0 <= i < |a| ==> IsWhitespace(s[i]) by {
        forall i | 0 <= i < |a|
          ensures IsWhitespace(s[i])
        {
          assert s[i] == a[i];
        }
      }
      assert s[|a|] == t[0];
      LeadingWhitespaceUnique(s, |a|);
      var rest := s[|a|..];
      assert rest == t + b;
      assert forall i :: |t| <= i < |rest| ==> IsWhitespace(rest[i]) by {
        forall i | |t| <= i < |rest|
          ensures IsWhitespace(rest[i])
        {
          assert rest[i] == b[i - |t|];
        }
      }
      assert rest[|t| - 1] == t[|t| - 1];
      EndOfContentUnique(rest, |t|);
      assert rest[..|t|] == t;
    }
  }

  /** A string without edge whitespace is its own trim. */
  lemma TrimFixed(t: string)
    requires NoEdgeWhitespace(t)
    ensures Trim(t) == t
  {
    assert [] + t + [] == t;
    TrimPadded([], t, []);
  }

  lemma ToLowerIdempotent(s: string)
    ensures ToLower(ToLower(s)) == ToLower(s)
  {
  }

  /** Normalisation is idempotent: a normalised email normalises to itself. */
  lemma NormalizeIdempotent(s: string)
    ensures Normalize(Normalize(s)) == Normalize(s)
  {
    var n := Normalize(s);
    TrimFixed(n);
    ToLowerIdempotent(Trim(s));
  }

  /** The worked example: `"  Foo@Bar.COM "` normalises to `"foo@bar.com"`. */
  lemma NormalizeExample()
    ensures Normalize("  Foo@Bar.COM ") == "foo@bar.com"
  {
    TrimExample();
    LowerExample();
  }

  lemma TrimExample()
    ensures Trim("  Foo@Bar.COM ") == "Foo@Bar.COM"
  {
    var t := "Foo@Bar.COM";
    assert !IsWhitespace(t[0]) && !IsWhitespace(t[|t| - 1]);
    assert "  " + t + " " == "  Foo@Bar.COM ";
    TrimPadded("  ", t, " ");
  }

  lemma LowerExample()
    ensures ToLower("Foo@Bar.COM") == "foo@bar.com"
  {
    var l := ToLower("Foo@Bar.COM");
    assert l[0] == 'f' && l[4] == 'b' && l[8] == 'c' && l[9] == 'o' && l[10] == 'm';
  }
}
