/**
 * The string operations the dashboard applies to headers and cells: Python's
 * `str.strip()`, `str.title()`, substring search (`str.contains`) and the
 * ordering `sorted` uses on strings.
 *
 * Whitespace and letter case are modelled for ASCII and Latin-1, plus the
 * upper-case forms of `µ` and `ÿ`.
 */
module Text {

  /** Characters `str.strip()` removes, restricted to the first 256 code points. */
  const Whitespace: set<char> :=
    {' ', '\t', '\n', '\r', '\U{0B}', '\U{0C}', '\U{1C}', '\U{1D}', '\U{1E}', '\U{1F}', '\U{85}', '\U{A0}'}

  predicate IsSpace(c: char) {
    c in Whitespace
  }

  /** The end of the run of whitespace starting at `i`. */
  function SpaceRunEnd(s: string, i: nat): (n: nat)
    requires i <= |s|
    ensures i <= n <= |s|
    ensures forall k :: i <= k < n ==> IsSpace(s[k])
    ensures n == |s| || !IsSpace(s[n])
    decreases |s| - i
  {
    if i < |s| && IsSpace(s[i]) then SpaceRunEnd(s, i + 1) else i
  }

  /** The start of the run of whitespace ending at `hi`, not going below `lo`. */
  function SpaceRunStart(s: string, lo: nat, hi: nat): (n: nat)
    requires lo <= hi <= |s|
    ensures lo <= n <= hi
    ensures forall k :: n <= k < hi ==> IsSpace(s[k])
    ensures n == lo || !IsSpace(s[n - 1])
    decreases hi
  {
    if lo < hi && IsSpace(s[hi - 1]) then SpaceRunStart(s, lo, hi - 1) else hi
  }

  /** Where the stripped text starts: after the leading whitespace. */
  function StripStart(s: string): (n: nat)
    ensures n <= |s|
  {
    SpaceRunEnd(s, 0)
  }

  /** Python's `str.strip()`: removes whitespace at both ends. */
  function Strip(s: string): (r: string)
    ensures |r| <= |s|
    ensures r == [] || (!IsSpace(r[0]) && !IsSpace(r[|r| - 1]))
  {
    var lo := StripStart(s);
    s[lo..SpaceRunStart(s, lo, |s|)]
  }

  /**
   * Strip keeps one contiguous slice of its input, the one starting after
   * the leading whitespace, and removes nothing but whitespace.
   */
  lemma StripSlice(s: string)
    ensures var i, r := StripStart(s), Strip(s);
      && i + |r| <= |s|
      && r == s[i..i + |r|]
      && (forall k :: 0 <= k < i ==> IsSpace(s[k]))
      && (forall k :: i + |r| <= k < |s| ==> IsSpace(s[k]))
  {
  }

  /**
   * Strip removes exactly the outer whitespace: a slice with whitespace
   * only outside it and none at its two ends is what `strip` returns.
   */
  lemma StripUnique(s: string, i: nat, j: nat)
    requires i < j <= |s|
    requires forall k :: 0 <= k < i ==> IsSpace(s[k])
    requires forall k :: j <= k < |s| ==> IsSpace(s[k])
    requires !IsSpace(s[i]) && !IsSpace(s[j - 1])
    ensures Strip(s) == s[i..j]
  {
  }

  /** A text made only of whitespace strips to the empty text. */
  lemma StripAllSpace(s: string)
    requires forall k :: 0 <= k < |s| ==> IsSpace(s[k])
    ensures Strip(s) == []
  {
  }

  /** Stripping twice is stripping once. */
  lemma StripIdempotent(s: string)
    ensures Strip(Strip(s)) == Strip(s)
  {
    var r := Strip(s);
    if r != [] {
      StripUnique(r, 0, |r|);
      assert r[0..|r|] == r;
    }
  }

  // ---- letter case (ASCII and Latin-1) ----

  /** Greek capital and small mu: the upper-case form of the micro sign and its lower-case pair. */
  const CapitalMu: char := '\U{039C}'
  const SmallMu: char := '\U{03BC}'
  /** Latin capital Y with diaeresis, the upper-case form of the Latin-1 `ÿ`. */
  const CapitalYDiaeresis: char := '\U{0178}'

  predicate IsUpper(c: char) {
    'A' <= c <= 'Z' || '\U{C0}' <= c <= '\U{D6}' || '\U{D8}' <= c <= '\U{DE}'
    || c == CapitalMu || c == CapitalYDiaeresis
  }

  /** Lower-case letters, including the ordinal indicators `ª` and `º` and the micro sign, which Python counts as cased. */
  predicate IsLower(c: char) {
    'a' <= c <= 'z' || '\U{DF}' <= c <= '\U{F6}' || '\U{F8}' <= c <= '\U{FF}'
    || c == '\U{AA}' || c == '\U{B5}' || c == '\U{BA}' || c == SmallMu
  }

  /** A letter that has case; `str.title()` starts a new word after any other character. */
  predicate IsCased(c: char) {
    IsUpper(c) || IsLower(c)
  }

  /** Lower-case letters that have a one-character upper-case form. */
  predicate HasUpperForm(c: char) {
    'a' <= c <= 'z' || '\U{E0}' <= c <= '\U{F6}' || '\U{F8}' <= c <= '\U{FF}'
    || c == '\U{B5}' || c == SmallMu
  }

  function ToUpper(c: char): (r: char)
    ensures IsCased(r) == IsCased(c)
    ensures !HasUpperForm(r)
    ensures !HasUpperForm(c) ==> r == c
  {
    if c == '\U{B5}' || c == SmallMu then CapitalMu
    else if c == '\U{FF}' then CapitalYDiaeresis
    else if HasUpperForm(c) then (c as int - 32) as char
    else c
  }

  function ToLower(c: char): (r: char)
    ensures IsCased(r) == IsCased(c)
    ensures !IsUpper(r)
    ensures !IsUpper(c) ==> r == c
    ensures IsUpper(c) ==> r != c
  {
    if c == CapitalMu then SmallMu
    else if c == CapitalYDiaeresis then '\U{FF}'
    else if IsUpper(c) then (c as int + 32) as char
    else c
  }

  /**
   * `str.title()` on the rest of a string, given whether the character
   * before it was a cased letter.
   */
  function TitleFrom(afterCased: bool, s: string): (r: string)
    ensures |r| == |s|
    ensures forall i :: 0 <= i < |s| ==> IsCased(r[i]) == IsCased(s[i])
    decreases |s|
  {
    if s == [] then []
    else [if afterCased then ToLower(s[0]) else ToUpper(s[0])] + TitleFrom(IsCased(s[0]), s[1..])
  }

  /** Python's `str.title()`. */
  function Title(s: string): (r: string)
    ensures |r| == |s|
  {
    TitleFrom(false, s)
  }

  /** A string that `str.title()` leaves as it is. */
  predicate IsTitled(s: string) {
    Title(s) == s
  }

  lemma {:induction false} TitleFromAt(afterCased: bool, s: string, i: nat)
    requires i < |s|
    ensures TitleFrom(afterCased, s)[i]
      == if (i == 0 && afterCased) || (i > 0 && IsCased(s[i - 1])) then ToLower(s[i]) else ToUpper(s[i])
    decreases |s|
  {
    var head := if afterCased then ToLower(s[0]) else ToUpper(s[0]);
    var tail := TitleFrom(IsCased(s[0]), s[1..]);
    assert TitleFrom(afterCased, s) == [head] + tail;
    if i > 0 {
      assert TitleFrom(afterCased, s)[i] == tail[i - 1];
      TitleFromAt(IsCased(s[0]), s[1..], i - 1);
      if i > 1 {
        assert s[1..][i - 2] == s[i - 1];
      }
    }
  }

  /**
   * Each character is lower-cased when it follows a cased letter and
   * upper-cased otherwise; nothing else changes.
   */
  lemma TitleAt(s: string, i: nat)
    requires i < |s|
    ensures |Title(s)| == |s|
    ensures Title(s)[i] == if i > 0 && IsCased(s[i - 1]) then ToLower(s[i]) else ToUpper(s[i])
  {
    TitleFromAt(false, s, i);
  }

  lemma {:induction false} TitleFromIdempotent(afterCased: bool, s: string)
    ensures TitleFrom(afterCased, TitleFrom(afterCased, s)) == TitleFrom(afterCased, s)
    decreases |s|
  {
    if s != [] {
      var t := TitleFrom(afterCased, s);
      assert t[1..] == TitleFrom(IsCased(s[0]), s[1..]);
      TitleFromIdempotent(IsCased(s[0]), s[1..]);
    }
  }

  /** Title-casing twice is title-casing once: every result of `Title` is titled. */
  lemma TitleIdempotent(s: string)
    ensures IsTitled(Title(s))
  {
    TitleFromIdempotent(false, s);
  }

  /** A string beginning with two upper-case letters is never a title-cased one. */
  lemma UpperPairNotTitled(s: string)
    requires |s| >= 2 && IsUpper(s[0]) && IsUpper(s[1])
    ensures !IsTitled(s)
  {
    TitleAt(s, 1);
  }

  /**
   * The ordinal indicators are cased, so the letter after them is not
   * upper-cased; the micro sign title-cases to the Greek capital mu.
   */
  lemma TitleCasedSigns()
    ensures Title("\U{BA}a") == "\U{BA}a"
    ensures Title("\U{AA}b") == "\U{AA}b"
    ensures Title("\U{B5}m") == [CapitalMu, 'm']
    ensures Title("\U{FF}") == [CapitalYDiaeresis]
  {
    TitleAt("\U{BA}a", 1);
    TitleAt("\U{AA}b", 1);
    TitleAt("\U{B5}m", 0);
    TitleAt("\U{B5}m", 1);
    TitleAt("\U{FF}", 0);
  }

  // ---- search and order ----

  /** Python's `sub in s` (what `str.contains` tests for a pattern without special characters). */
  predicate Contains(s: string, sub: string) {
    sub <= s || (s != [] && Contains(s[1..], sub))
  }

  /** Searching for a one-character string is asking whether that character occurs. */
  lemma {:induction false} ContainsChar(s: string, c: char)
    ensures Contains(s, [c]) <==> c in s
  {
    if s != [] {
      ContainsChar(s[1..], c);
      assert s == [s[0]] + s[1..];
    }
  }

  /** `sub` starts at position `i` of `s`. */
  predicate OccursAt(s: string, sub: string, i: int) {
    0 <= i && i + |sub| <= |s| && s[i..i + |sub|] == sub
  }

  /** `sub` occurs in `s` exactly when some slice of `s` is `sub`. */
  lemma {:induction false} ContainsIff(s: string, sub: string)
    ensures Contains(s, sub) <==> exists i :: OccursAt(s, sub, i)
  {
    if s == [] {
      if Contains(s, sub) {
        assert OccursAt(s, sub, 0);
      }
    } else {
      ContainsIff(s[1..], sub);
      if sub <= s {
        assert OccursAt(s, sub, 0);
      } else if Contains(s[1..], sub) {
        var j :| OccursAt(s[1..], sub, j);
        assert s[1..][j..j + |sub|] == s[j + 1..j + 1 + |sub|];
        assert OccursAt(s, sub, j + 1);
      }
      if i :| OccursAt(s, sub, i) {
        if i > 0 {
          assert s[1..][i - 1..i - 1 + |sub|] == s[i..i + |sub|];
          assert OccursAt(s[1..], sub, i - 1);
        }
      }
    }
  }

  /** Python's `<` on strings: code point by code point, a proper prefix first. */
  predicate LexLess(a: string, b: string) {
    if a == [] then b != []
    else if b == [] then false
    else a[0] < b[0] || (a[0] == b[0] && LexLess(a[1..], b[1..]))
  }

  lemma {:induction false} LexLessIrreflexive(a: string)
    ensures !LexLess(a, a)
  {
    if a != [] {
      LexLessIrreflexive(a[1..]);
    }
  }

  lemma {:induction false} LexLessTransitive(a: string, b: string, c: string)
    requires LexLess(a, b) && LexLess(b, c)
    ensures LexLess(a, c)
  {
    if a != [] && b != [] && c != [] && a[0] == b[0] && b[0] == c[0] {
      LexLessTransitive(a[1..], b[1..], c[1..]);
    }
  }

  lemma {:induction false} LexLessTotal(a: string, b: string)
    ensures a == b || LexLess(a, b) || LexLess(b, a)
  {
    if a != [] && b != [] && a[0] == b[0] {
      LexLessTotal(a[1..], b[1..]);
      if a[1..] == b[1..] {
        assert a == [a[0]] + a[1..] && b == [b[0]] + b[1..];
      }
    }
  }
}
