/**
 * The Python string builtins the handlers rely on, restricted to ASCII:
 * `str.lower`, `str.title`, `str.strip`, `str.join` and `str.replace`.
 * Characters outside ASCII are never re-cased and never count as white space.
 */
module Text {

  predicate IsUpper(c: char) { 'A' <= c <= 'Z' }

  predicate IsLower(c: char) { 'a' <= c <= 'z' }

  /** A cased character in Python's sense, restricted to ASCII letters. */
  predicate IsLetter(c: char) { IsUpper(c) || IsLower(c) }

  /** The characters `str.isspace` accepts among ASCII: space, tab to carriage return, and 0x1C-0x1F. */
  predicate IsSpace(c: char) {
    c == ' ' || '\t' <= c <= '\r' || '\U{1C}' <= c <= '\U{1F}'
  }

  function LowerChar(c: char): (r: char)
    ensures IsLetter(r) <==> IsLetter(c)
    ensures !IsUpper(r)
    ensures IsUpper(c) ==> IsLower(r) && r as int == c as int + 32
    ensures !IsUpper(c) ==> r == c
  {
    if IsUpper(c) then (c as int + 32) as char else c
  }

  function UpperChar(c: char): (r: char)
    ensures IsLetter(r) <==> IsLetter(c)
    ensures !IsLower(r)
    ensures IsLower(c) ==> IsUpper(r) && r as int == c as int - 32
    ensures !IsLower(c) ==> r == c
  {
    if IsLower(c) then (c as int - 32) as char else c
  }

  lemma CaseRoundTrip(c: char)
    ensures LowerChar(UpperChar(c)) == LowerChar(c)
    ensures UpperChar(LowerChar(c)) == UpperChar(c)
  {
  }

  /** `str.lower()`: every upper-case letter replaced by its lower-case form, all else kept. */
  function Lower(s: string): (r: string)
    ensures |r| == |s|
    ensures forall i :: 0 <= i < |s| ==> r[i] == LowerChar(s[i])
  {
    seq(|s|, i requires 0 <= i < |s| => LowerChar(s[i]))
  }

  /** Text without upper-case letters is its own lower-case form. */
  lemma LowerOfLowerCase(s: string)
    requires forall i :: 0 <= i < |s| ==> !IsUpper(s[i])
    ensures Lower(s) == s
  {
  }

  lemma LowerIdempotent(s: string)
    ensures Lower(Lower(s)) == Lower(s)
  {
  }

  /** At index `i`, a letter is upper-case exactly when it starts a word. */
  predicate WordCaseAt(s: string, i: nat)
    requires i < |s|
  {
    IsLetter(s[i]) ==> (IsUpper(s[i]) <==> (i == 0 || !IsLetter(s[i - 1])))
  }

  /** Every word begins with an upper-case letter and continues in lower case. */
  predicate TitleShaped(s: string) {
    forall i :: 0 <= i < |s| ==> WordCaseAt(s, i)
  }

  /**
   * `str.title()`: a letter that follows a letter is lower-cased, any other
   * letter is upper-cased; characters that are not letters are kept.
   */
  function Title(s: string): (r: string)
    ensures |r| == |s|
    ensures Lower(r) == Lower(s)
    ensures forall i :: 0 <= i < |r| ==> (IsLetter(r[i]) <==> IsLetter(s[i]))
    ensures TitleShaped(r)
  {
    var r := seq(|s|, i requires 0 <= i < |s| =>
      if i > 0 && IsLetter(s[i - 1]) then LowerChar(s[i]) else UpperChar(s[i]));
    assert forall i :: 0 <= i < |s| ==> Lower(r)[i] == Lower(s)[i] by {
      forall i | 0 <= i < |s| ensures Lower(r)[i] == Lower(s)[i] {
        CaseRoundTrip(s[i]);
      }
    }
    r
  }

  /** Two characters with the same lower-case form and the same case are equal. */
  lemma SameCaseSameChar(x: char, y: char)
    requires LowerChar(x) == LowerChar(y) && IsUpper(x) == IsUpper(y)
    ensures x == y
  {
    if IsUpper(x) {
      assert x as int == y as int;
    }
  }

  /**
   * The properties in Title's contract determine its result: two strings
   * that agree up to case and both have title shape are equal.
   */
  lemma {:induction false} TitleShapeUnique(a: string, b: string)
    requires |a| == |b| && Lower(a) == Lower(b)
    requires TitleShaped(a) && TitleShaped(b)
    ensures a == b
  {
    forall i | 0 <= i < |a| ensures a[i] == b[i] {
      assert LowerChar(a[i]) == LowerChar(b[i]) by {
        assert Lower(a)[i] == Lower(b)[i];
      }
      if IsLetter(a[i]) {
        assert IsLetter(b[i]);
        if i > 0 {
          assert LowerChar(a[i - 1]) == LowerChar(b[i - 1]) by {
            assert Lower(a)[i - 1] == Lower(b)[i - 1];
          }
          assert IsLetter(a[i - 1]) == IsLetter(b[i - 1]);
        }
        assert WordCaseAt(a, i) && WordCaseAt(b, i);
      } else {
        assert !IsLetter(b[i]);
      }
      SameCaseSameChar(a[i], b[i]);
    }
  }

  /** Title-casing ignores the case the input was written in. */
  lemma TitleOfLower(s: string)
    ensures Title(Lower(s)) == Title(s)
  {
    var a, b := Title(Lower(s)), Title(s);
    LowerIdempotent(s);
    TitleShapeUnique(a, b);
  }

  /** A word written in lower case gets its first letter capitalised. */
  lemma TitleOfLowerWord(w: string)
    requires w != [] && forall i :: 0 <= i < |w| ==> IsLower(w[i])
    ensures Title(w) == [UpperChar(w[0])] + w[1..]
  {
    var t := Title(w);
    forall i | 0 <= i < |w| ensures t[i] == ([UpperChar(w[0])] + w[1..])[i] {
      if i > 0 {
        assert IsLetter(w[i - 1]);
      }
    }
  }

  lemma TitleIdempotent(s: string)
    ensures Title(Title(s)) == Title(s)
  {
    TitleShapeUnique(Title(Title(s)), Title(s));
  }

  /** `str.lstrip()` with no argument. */
  function StripStart(s: string): (r: string)
    ensures |r| <= |s| && r == s[|s| - |r|..]
    ensures forall i :: 0 <= i < |s| - |r| ==> IsSpace(s[i])
    ensures r == [] || !IsSpace(r[0])
    decreases |s|
  {
    if s != [] && IsSpace(s[0]) then StripStart(s[1..]) else s
  }

  /** `str.rstrip()` with no argument. */
  function StripEnd(s: string): (r: string)
    ensures |r| <= |s| && r == s[..|r|]
    ensures forall i :: |r| <= i < |s| ==> IsSpace(s[i])
    ensures r == [] || !IsSpace(r[|r| - 1])
    decreases |s|
  {
    if s != [] && IsSpace(s[|s| - 1]) then StripEnd(s[..|s| - 1]) else s
  }

  /** `str.strip()` with no argument: leading and trailing white space removed. */
  function Strip(s: string): (r: string)
    ensures |r| <= |s|
    ensures r == [] || (!IsSpace(r[0]) && !IsSpace(r[|r| - 1]))
    ensures (s == [] || (!IsSpace(s[0]) && !IsSpace(s[|s| - 1]))) ==> r == s
  {
    var t := StripStart(s);
    assert t != [] ==> t[0] == StripEnd(t)[0] || StripEnd(t) == [];
    StripEnd(t)
  }

  predicate AllSpace(s: string) { forall i :: 0 <= i < |s| ==> IsSpace(s[i]) }

  lemma {:induction false} StripStartPadded(w: string, s: string)
    requires AllSpace(w)
    ensures StripStart(w + s) == StripStart(s)
    decreases |w|
  {
    if w != [] {
      assert (w + s)[1..] == w[1..] + s;
      StripStartPadded(w[1..], s);
    } else {
      assert w + s == s;
    }
  }

  lemma {:induction false} StripEndPadded(s: string, w: string)
    requires AllSpace(w)
    ensures StripEnd(s + w) == StripEnd(s)
    decreases |w|
  {
    if w != [] {
      assert (s + w)[..|s + w| - 1] == s + w[..|w| - 1];
      StripEndPadded(s, w[..|w| - 1]);
    } else {
      assert s + w == s;
    }
  }

  /** White space around a text does not survive `strip()`. */
  lemma StripPadded(w1: string, s: string, w2: string)
    requires AllSpace(w1) && AllSpace(w2)
    ensures Strip(w1 + s + w2) == Strip(s)
  {
    StripStartLeftPadded(w1, s, w2);
    StripEndRightPadded(s, w2);
  }

  lemma StripStartLeftPadded(w1: string, s: string, w2: string)
    requires AllSpace(w1)
    ensures StripStart(w1 + s + w2) == StripStart(s + w2)
  {
    StripStartPadded(w1, s + w2);
    assert w1 + s + w2 == w1 + (s + w2);
  }

  lemma StripEndRightPadded(s: string, w: string)
    requires AllSpace(w)
    ensures StripEnd(StripStart(s + w)) == StripEnd(StripStart(s))
  {
    if StripStart(s) == [] {
      assert AllSpace(s + w) by {
        assert AllSpace(s);
      }
      StripStartAllSpace(s + w);
    } else {
      StripStartAppend(s, w);
      StripEndPadded(StripStart(s), w);
    }
  }

  lemma {:induction false} StripStartAllSpace(s: string)
    requires AllSpace(s)
    ensures StripStart(s) == []
    decreases |s|
  {
    if s != [] {
      assert AllSpace(s[1..]) by {
        forall i | 0 <= i < |s| - 1 ensures IsSpace(s[1..][i]) {
          assert s[1..][i] == s[i + 1];
        }
      }
      StripStartAllSpace(s[1..]);
    }
  }

  lemma {:induction false} StripStartAppend(s: string, w: string)
    requires StripStart(s) != []
    ensures StripStart(s + w) == StripStart(s) + w
    decreases |s|
  {
    assert s != [] && (s + w)[0] == s[0];
    if IsSpace(s[0]) {
      assert (s + w)[1..] == s[1..] + w;
      StripStartAppend(s[1..], w);
    }
  }

  /** `strip()` applied twice removes nothing more. */
  lemma StripIdempotent(s: string)
    ensures Strip(Strip(s)) == Strip(s)
  {
  }

  /** `sep.join(parts)`. */
  function Join(sep: string, parts: seq<string>): (r: string)
    ensures parts == [] ==> r == ""
    ensures |parts| == 1 ==> r == parts[0]
    decreases |parts|
  {
    if |parts| == 0 then ""
    else if |parts| == 1 then parts[0]
    else parts[0] + sep + Join(sep, parts[1..])
  }

  /** Joining one more part puts exactly one separator before it. */
  lemma {:induction false} JoinAppend(sep: string, parts: seq<string>, p: string)
    requires parts != []
    ensures Join(sep, parts + [p]) == Join(sep, parts) + sep + p
    decreases |parts|
  {
    if |parts| == 1 {
      assert parts + [p] == [parts[0], p];
    } else {
      assert (parts + [p])[1..] == parts[1..] + [p];
      JoinAppend(sep, parts[1..], p);
    }
  }

  /** `pat` occurs in `s` starting at index `i`. */
  predicate OccursAt(s: string, pat: string, i: int) {
    0 <= i && i + |pat| <= |s| && s[i..i + |pat|] == pat
  }

  predicate Contains(s: string, pat: string) {
    exists i :: 0 <= i <= |s| - |pat| && OccursAt(s, pat, i)
  }

  /** An occurrence in `s[1..]` is an occurrence in `s` one position further on. */
  lemma ShiftAt(s: string, pat: string, i: nat)
    requires s != []
    ensures OccursAt(s[1..], pat, i) <==> OccursAt(s, pat, i + 1)
  {
    if i + 1 + |pat| <= |s| {
      assert s[1..][i..i + |pat|] == s[i + 1..i + 1 + |pat|];
    }
  }

  lemma ShiftOccurrence(s: string, pat: string)
    requires s != []
    ensures forall j :: 1 <= j ==> (OccursAt(s, pat, j) <==> OccursAt(s[1..], pat, j - 1))
    ensures forall i :: 0 <= i ==> (OccursAt(s[1..], pat, i) <==> OccursAt(s, pat, i + 1))
  {
    forall j | 1 <= j ensures OccursAt(s, pat, j) <==> OccursAt(s[1..], pat, j - 1) {
      ShiftAt(s, pat, j - 1);
    }
  }

  /**
   * `s.replace(pat, rep)`: scanning left to right, each occurrence of `pat`
   * that does not overlap one already replaced becomes `rep`.
   */
  function ReplaceAll(s: string, pat: string, rep: string): (r: string)
    requires pat != []
    decreases |s|
  {
    if |s| < |pat| then s
    else if s[..|pat|] == pat then rep + ReplaceAll(s[|pat|..], pat, rep)
    else [s[0]] + ReplaceAll(s[1..], pat, rep)
  }

  /** A text in which the pattern does not occur comes back unchanged. */
  lemma {:induction false} ReplaceAllAbsent(s: string, pat: string, rep: string)
    requires pat != [] && !Contains(s, pat)
    ensures ReplaceAll(s, pat, rep) == s
    decreases |s|
  {
    if |s| >= |pat| {
      assert !OccursAt(s, pat, 0);
      ShiftOccurrence(s, pat);
      ReplaceAllAbsent(s[1..], pat, rep);
    }
  }

  /**
   * The leftmost occurrence is the first one replaced: the text before it is
   * kept and the scan resumes right after it.
   */
  lemma {:induction false} ReplaceAllLeftmost(s: string, pat: string, rep: string, i: nat)
    requires pat != [] && OccursAt(s, pat, i)
    requires forall j :: 0 <= j < i ==> !OccursAt(s, pat, j)
    ensures ReplaceAll(s, pat, rep) == s[..i] + rep + ReplaceAll(s[i + |pat|..], pat, rep)
    decreases i
  {
    if i == 0 {
      ReplaceAllAtStart(s, pat, rep);
    } else {
      ReplaceAllKeepsFirst(s, pat, rep);
      LeftmostShifts(s, pat, i);
      ReplaceAllLeftmost(s[1..], pat, rep, i - 1);
      assert s[1..][i - 1 + |pat|..] == s[i + |pat|..];
      Rejoin(s, i, ReplaceAll(s, pat, rep), ReplaceAll(s[1..], pat, rep), rep,
             ReplaceAll(s[i + |pat|..], pat, rep));
    }
  }

  /** Dropping a first character that starts no occurrence moves the leftmost one back by one. */
  lemma LeftmostShifts(s: string, pat: string, i: nat)
    requires 0 < i && OccursAt(s, pat, i)
    requires forall j :: 0 <= j < i ==> !OccursAt(s, pat, j)
    ensures !OccursAt(s, pat, 0) && OccursAt(s[1..], pat, i - 1)
    ensures forall j :: 0 <= j < i - 1 ==> !OccursAt(s[1..], pat, j)
  {
    assert !OccursAt(s, pat, 0);
    ShiftAt(s, pat, i - 1);
    forall j | 0 <= j < i - 1 ensures !OccursAt(s[1..], pat, j) {
      ShiftAt(s, pat, j);
    }
  }

  /** Putting the kept first character back in front of the shifted result. */
  lemma Rejoin(s: string, i: nat, whole: string, tail: string, mid: string, rest: string)
    requires 0 < i <= |s|
    requires whole == [s[0]] + tail && tail == s[1..][..i - 1] + mid + rest
    ensures whole == s[..i] + mid + rest
  {
    assert [s[0]] + s[1..][..i - 1] == s[..i];
  }

  /** No occurrence at the start: the first character is kept and the scan moves on. */
  lemma ReplaceAllKeepsFirst(s: string, pat: string, rep: string)
    requires pat != [] && |s| >= |pat| && !OccursAt(s, pat, 0)
    ensures ReplaceAll(s, pat, rep) == [s[0]] + ReplaceAll(s[1..], pat, rep)
  {
    assert s[..|pat|] != pat;
  }

  lemma ReplaceAllAtStart(s: string, pat: string, rep: string)
    requires pat != [] && OccursAt(s, pat, 0)
    ensures ReplaceAll(s, pat, rep) == s[..0] + rep + ReplaceAll(s[|pat|..], pat, rep)
  {
    assert s[..|pat|] == pat;
    assert s[..0] + rep == rep;
  }

  /** A prefix without the pattern's first character is copied as it is. */
  lemma {:induction false} ReplaceAllKeepsPrefix(a: string, t: string, pat: string, rep: string)
    requires pat != [] && pat[0] !in a
    ensures ReplaceAll(a + t, pat, rep) == a + ReplaceAll(t, pat, rep)
    decreases |a|
  {
    if a != [] {
      var s := a + t;
      if |s| >= |pat| {
        assert s[..|pat|][0] == a[0];
        ReplaceAllKeepsFirst(s, pat, rep);
      }
      assert s[1..] == a[1..] + t;
      ReplaceAllKeepsPrefix(a[1..], t, pat, rep);
      assert [a[0]] + a[1..] == a;
    } else {
      assert a + t == t;
    }
  }

  /**
   * The replacement is purely textual: the first occurrence is rewritten
   * whatever surrounds it, for instance the tail of an identifier.
   */
  lemma ReplaceAllFirstOccurrence(a: string, b: string, pat: string, rep: string)
    requires pat != [] && pat[0] !in a
    ensures ReplaceAll(a + pat + b, pat, rep) == a + rep + ReplaceAll(b, pat, rep)
  {
    assert a + pat + b == a + (pat + b);
    ReplaceAllKeepsPrefix(a, pat + b, pat, rep);
    ReplaceAllPatFirst(pat, b, rep);
  }

  lemma ReplaceAllPatFirst(pat: string, b: string, rep: string)
    requires pat != []
    ensures ReplaceAll(pat + b, pat, rep) == rep + ReplaceAll(b, pat, rep)
  {
    assert OccursAt(pat + b, pat, 0) by { assert (pat + b)[..|pat|] == pat; }
    ReplaceAllAtStart(pat + b, pat, rep);
    assert (pat + b)[|pat|..] == b;
  }

  /** Replacing a pattern by itself changes nothing. */
  lemma {:induction false} ReplaceAllSelf(s: string, pat: string)
    requires pat != []
    ensures ReplaceAll(s, pat, pat) == s
    decreases |s|
  {
    if |s| >= |pat| {
      if s[..|pat|] == pat {
        ReplaceAllSelf(s[|pat|..], pat);
        assert s == s[..|pat|] + s[|pat|..];
      } else {
        ReplaceAllSelf(s[1..], pat);
        assert s == [s[0]] + s[1..];
      }
    }
  }
}
