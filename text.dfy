/**
 * Character classes and the whitespace handling of the account screens
 * (`formatName` in RegisterViewModel.kt and SettingsViewModel.kt).
 * Characters are classified on ASCII; see README for what that leaves out.
 */
module Text {

  predicate IsUpper(c: char) { 'A' <= c <= 'Z' }
  predicate IsLower(c: char) { 'a' <= c <= 'z' }
  predicate IsLetter(c: char) { IsUpper(c) || IsLower(c) }
  predicate IsDigit(c: char) { '0' <= c <= '9' }

  function DigitValue(c: char): int
    requires IsDigit(c)
  {
    c as int - '0' as int
  }

  /** `\s` in a Java regular expression: space, tab, line feed, vertical tab, form feed, return. */
  predicate IsRegexSpace(c: char) {
    c == ' ' || c == '\t' || c == '\n' || c == '\U{000B}' || c == '\U{000C}' || c == '\r'
  }

  /** Kotlin's `Char.isWhitespace` on ASCII: `\s` plus the four separator controls. */
  predicate IsWhitespace(c: char) {
    IsRegexSpace(c) || '\U{001C}' <= c <= '\U{001F}'
  }

  /** Kotlin's `String.isBlank`. */
  predicate IsBlank(s: string) {
    forall i | 0 <= i < |s| :: IsWhitespace(s[i])
  }

  /** The suffix left after dropping the leading characters that satisfy `p`. */
  function DropLeading(s: string, p: char -> bool): (r: string)
    ensures |r| <= |s| && r == s[|s| - |r|..]
    ensures r == [] || !p(r[0])
    ensures forall i | 0 <= i < |s| - |r| :: p(s[i])
    ensures s != [] && p(s[0]) ==> |r| < |s|
  {
    if s != [] && p(s[0]) then DropLeading(s[1..], p) else s
  }

  /** The prefix left after dropping the trailing characters that satisfy `p`. */
  function DropTrailing(s: string, p: char -> bool): (r: string)
    ensures |r| <= |s| && r == s[..|r|]
    ensures r == [] || !p(r[|r| - 1])
    ensures forall i | |r| <= i < |s| :: p(s[i])
  {
    if s != [] && p(s[|s| - 1]) then DropTrailing(s[..|s| - 1], p) else s
  }

  /** How many whitespace characters `s` starts with. */
  function LeadingWhitespace(s: string): (i: nat)
    ensures i <= |s| && forall k | 0 <= k < i :: IsWhitespace(s[k])
    ensures i == |s| || !IsWhitespace(s[i])
    ensures DropLeading(s, IsWhitespace) == s[i..]
  {
    |s| - |DropLeading(s, IsWhitespace)|
  }

  /**
   * Kotlin's `String.trim()`: the slice of `s` left once the leading and the trailing whitespace
   * are cut, and nothing more.
   */
  function Trim(s: string): (r: string)
    ensures r == [] || (!IsWhitespace(r[0]) && !IsWhitespace(r[|r| - 1]))
    ensures LeadingWhitespace(s) + |r| <= |s| && r == s[LeadingWhitespace(s)..LeadingWhitespace(s) + |r|]
    ensures forall k | 0 <= k < LeadingWhitespace(s) :: IsWhitespace(s[k])
    ensures forall k | LeadingWhitespace(s) + |r| <= k < |s| :: IsWhitespace(s[k])
  {
    var t := DropLeading(s, IsWhitespace);
    var r := DropTrailing(t, IsWhitespace);
    assert r != [] ==> r[0] == t[0];
    CutIsSlice(s, t, r);
    CutTailIsWhitespace(s, t, r);
    r
  }

  /** A prefix of a suffix of `s` is a slice of `s`. */
  lemma CutIsSlice(s: string, t: string, r: string)
    requires |t| <= |s| && t == s[|s| - |t|..]
    requires |r| <= |t| && r == t[..|r|]
    ensures var i := |s| - |t|; i + |r| <= |s| && r == s[i..i + |r|]
  {
  }

  /** Whitespace after `r` in the suffix `t` of `s` is whitespace after the same slice of `s`. */
  lemma CutTailIsWhitespace(s: string, t: string, r: string)
    requires |t| <= |s| && t == s[|s| - |t|..]
    requires |r| <= |t|
    requires forall k | |r| <= k < |t| :: IsWhitespace(t[k])
    ensures var i := |s| - |t|; forall k | i + |r| <= k < |s| :: IsWhitespace(s[k])
  {
    var i := |s| - |t|;
    forall k | i + |r| <= k < |s| ensures IsWhitespace(s[k]) {
      assert s[k] == t[k - i];
    }
  }

  /**
   * Kotlin's `split(Regex("\\s+"))`: the pieces between maximal runs of `\s`; a run at either
   * end leaves an empty piece there, and the empty string splits to one empty piece.
   */
  function SplitOnSpaceRuns(s: string): (words: seq<string>)
    ensures |words| >= 1
    decreases |s|
  {
    if s == [] then [[]]
    else if IsRegexSpace(s[0]) then [[]] + SplitOnSpaceRuns(DropLeading(s, IsRegexSpace))
    else
      var rest := SplitOnSpaceRuns(s[1..]);
      [[s[0]] + rest[0]] + rest[1..]
  }

  /** Kotlin's `joinToString(" ")`. */
  function JoinWithSpace(words: seq<string>): string {
    if |words| == 0 then []
    else if |words| == 1 then words[0]
    else words[0] + " " + JoinWithSpace(words[1..])
  }

  /**
   * `formatName`: trim, split on whitespace runs, join with single spaces. The result has no
   * whitespace at either end and exactly one space between words, and it keeps every word of
   * the trimmed name in order: only extra whitespace is removed.
   */
  function FormatName(name: string): (r: string)
    ensures IsFormattedName(r)
    ensures SplitOnSpaceRuns(r) == SplitOnSpaceRuns(Trim(name))
  {
    JoinedWordsAreFormatted(name);
    JoinedWordsAreKept(name);
    JoinWithSpace(SplitOnSpaceRuns(Trim(name)))
  }

  /** Every `\s` character is a plain space followed by a character that is not `\s`. */
  predicate SingleSpaced(s: string) {
    forall i | 0 <= i < |s| && IsRegexSpace(s[i]) :: s[i] == ' ' && i + 1 < |s| && !IsRegexSpace(s[i + 1])
  }

  /** A formatted name: no whitespace at either end and words separated by exactly one space. */
  predicate IsFormattedName(s: string) {
    && (s == [] || (!IsWhitespace(s[0]) && !IsWhitespace(s[|s| - 1])))
    && SingleSpaced(s)
  }

  predicate NoSpaceIn(w: string) {
    forall j | 0 <= j < |w| :: !IsRegexSpace(w[j])
  }

  lemma {:induction false} SplitWordsHaveNoSpace(s: string)
    ensures forall k | 0 <= k < |SplitOnSpaceRuns(s)| :: NoSpaceIn(SplitOnSpaceRuns(s)[k])
    decreases |s|
  {
    if s == [] {
    } else if IsRegexSpace(s[0]) {
      SplitWordsHaveNoSpace(DropLeading(s, IsRegexSpace));
    } else {
      SplitWordsHaveNoSpace(s[1..]);
    }
  }

  /** When `s` does not end in `\s`, every piece after the first is non-empty. */
  lemma {:induction false} SplitLaterWordsNonEmpty(s: string)
    requires s == [] || !IsRegexSpace(s[|s| - 1])
    ensures forall k | 1 <= k < |SplitOnSpaceRuns(s)| :: SplitOnSpaceRuns(s)[k] != []
    decreases |s|
  {
    if s == [] {
    } else if IsRegexSpace(s[0]) {
      var d := DropLeading(s, IsRegexSpace);
      assert d != [];
      SplitLaterWordsNonEmpty(d);
    } else {
      SplitLaterWordsNonEmpty(s[1..]);
    }
  }

  function Last<T>(s: seq<T>): T
    requires s != []
  {
    s[|s| - 1]
  }

  /** When `s` ends in a character that is not `\s`, so does the last piece. */
  lemma {:induction false} SplitLastWord(s: string)
    requires s != [] && !IsRegexSpace(Last(s))
    ensures Last(SplitOnSpaceRuns(s)) != [] && Last(Last(SplitOnSpaceRuns(s))) == Last(s)
    decreases |s|
  {
    if IsRegexSpace(s[0]) {
      var d := DropLeading(s, IsRegexSpace);
      assert d != [] && Last(d) == Last(s);
      SplitLastWord(d);
      var ws, wd := SplitOnSpaceRuns(s), SplitOnSpaceRuns(d);
      assert ws == [[]] + wd;
      assert Last(ws) == Last(wd);
    } else if |s| > 1 {
      assert Last(s[1..]) == Last(s);
      SplitLastWord(s[1..]);
      LastAfterConsWord(s[0], SplitOnSpaceRuns(s[1..]));
    }
  }

  lemma LastAfterConsWord(c: char, rest: seq<string>)
    requires |rest| >= 1 && Last(rest) != []
    ensures var ws := [[c] + rest[0]] + rest[1..]; Last(ws) != [] && Last(Last(ws)) == Last(Last(rest))
  {
  }

  lemma {:induction false} JoinEnds(ws: seq<string>)
    requires |ws| >= 1 && Last(ws) != []
    ensures JoinWithSpace(ws) != [] && Last(JoinWithSpace(ws)) == Last(Last(ws))
    ensures ws[0] != [] ==> JoinWithSpace(ws)[0] == ws[0][0]
  {
    if |ws| > 1 {
      assert Last(ws[1..]) == Last(ws);
      JoinEnds(ws[1..]);
      assert JoinWithSpace(ws) == ws[0] + " " + JoinWithSpace(ws[1..]);
    }
  }

  /** Joining space-free, non-empty words (the first may be empty) is single-spaced. */
  lemma {:induction false} JoinSingleSpaced(ws: seq<string>)
    requires forall k | 0 <= k < |ws| :: NoSpaceIn(ws[k])
    requires forall k | 1 <= k < |ws| :: ws[k] != []
    ensures SingleSpaced(JoinWithSpace(ws))
  {
    if |ws| > 1 {
      var rest := JoinWithSpace(ws[1..]);
      JoinSingleSpaced(ws[1..]);
      JoinEnds(ws[1..]);
      var j := ws[0] + " " + rest;
      forall i | 0 <= i < |j| && IsRegexSpace(j[i])
        ensures j[i] == ' ' && i + 1 < |j| && !IsRegexSpace(j[i + 1])
      {
        if i < |ws[0]| {
          assert false;
        } else if i > |ws[0]| {
          assert j[i] == rest[i - |ws[0]| - 1];
          assert i + 1 < |j| ==> j[i + 1] == rest[i + 1 - |ws[0]| - 1];
        } else {
          assert j[i + 1] == rest[0];
        }
      }
    }
  }

  /** Putting a character in front of the first word puts it in front of the joined string. */
  lemma JoinConsFirst(c: char, ws: seq<string>)
    requires |ws| >= 1
    ensures JoinWithSpace([[c] + ws[0]] + ws[1..]) == [c] + JoinWithSpace(ws)
  {
    var v := [[c] + ws[0]] + ws[1..];
    if |ws| == 1 {
      assert v == [[c] + ws[0]];
    } else {
      JoinConsLongFirst(c, ws);
    }
  }

  lemma JoinConsLongFirst(c: char, ws: seq<string>)
    requires |ws| > 1
    ensures JoinWithSpace([[c] + ws[0]] + ws[1..]) == [c] + JoinWithSpace(ws)
  {
    var v := [[c] + ws[0]] + ws[1..];
    assert v[0] == [c] + ws[0] && v[1..] == ws[1..];
    UnfoldJoin(v);
    UnfoldJoin(ws);
    ConsBeforeSpace(c, ws[0], JoinWithSpace(ws[1..]));
  }

  lemma UnfoldJoin(ws: seq<string>)
    requires |ws| > 1
    ensures JoinWithSpace(ws) == ws[0] + " " + JoinWithSpace(ws[1..])
  {
  }

  lemma ConsBeforeSpace(c: char, w: string, rest: string)
    ensures ([c] + w) + " " + rest == [c] + (w + " " + rest)
  {
  }

  /** A single-spaced string is rebuilt exactly by splitting it and joining the pieces. */
  lemma {:induction false} SplitThenJoin(s: string)
    requires SingleSpaced(s)
    ensures JoinWithSpace(SplitOnSpaceRuns(s)) == s
    decreases |s|
  {
    if s == [] {
    } else if IsRegexSpace(s[0]) {
      assert s[0] == ' ' && !IsRegexSpace(s[1]);
      var d := DropLeading(s, IsRegexSpace);
      assert d == s[1..];
      assert SingleSpaced(s[1..]) by {
        forall i | 0 <= i < |s[1..]| && IsRegexSpace(s[1..][i])
          ensures s[1..][i] == ' ' && i + 1 < |s[1..]| && !IsRegexSpace(s[1..][i + 1])
        {
          assert s[1..][i] == s[i + 1];
        }
      }
      SplitThenJoin(s[1..]);
      assert s == " " + s[1..];
    } else {
      assert SingleSpaced(s[1..]) by {
        forall i | 0 <= i < |s[1..]| && IsRegexSpace(s[1..][i])
          ensures s[1..][i] == ' ' && i + 1 < |s[1..]| && !IsRegexSpace(s[1..][i + 1])
        {
          assert s[1..][i] == s[i + 1];
        }
      }
      SplitThenJoin(s[1..]);
      JoinConsFirst(s[0], SplitOnSpaceRuns(s[1..]));
      assert s == [s[0]] + s[1..];
    }
  }

  /** Splitting a word followed by nothing or by whitespace glues the word onto the first piece. */
  lemma {:induction false} SplitAfterWord(w: string, r: string)
    requires NoSpaceIn(w)
    requires r == [] || IsRegexSpace(r[0])
    ensures SplitOnSpaceRuns(w + r) == [w + SplitOnSpaceRuns(r)[0]] + SplitOnSpaceRuns(r)[1..]
    decreases |w|
  {
    if w != [] {
      assert (w + r)[0] == w[0] && (w + r)[1..] == w[1..] + r;
      SplitAfterWord(w[1..], r);
      assert [w[0]] + (w[1..] + SplitOnSpaceRuns(r)[0]) == w + SplitOnSpaceRuns(r)[0];
    } else {
      assert w + r == r;
    }
  }

  /** One space before a piece that starts with a non-space opens an empty first piece. */
  lemma SplitAfterSpace(u: string)
    requires u != [] && !IsRegexSpace(u[0])
    ensures SplitOnSpaceRuns(" " + u) == [[]] + SplitOnSpaceRuns(u)
  {
    assert (" " + u)[1..] == u;
    assert DropLeading(" " + u, IsRegexSpace) == u;
  }

  /** Words without whitespace, all but the first non-empty, come back from joining and splitting. */
  lemma {:induction false} JoinThenSplitWords(ws: seq<string>)
    requires |ws| >= 1
    requires forall k | 0 <= k < |ws| :: NoSpaceIn(ws[k])
    requires forall k | 1 <= k < |ws| :: ws[k] != []
    ensures SplitOnSpaceRuns(JoinWithSpace(ws)) == ws
    decreases |ws|
  {
    if |ws| == 1 {
      SplitAfterWord(ws[0], []);
      assert ws[0] + [] == ws[0];
    } else {
      var tail := ws[1..];
      assert forall k | 0 <= k < |tail| :: tail[k] == ws[k + 1];
      JoinThenSplitWords(tail);
      var j := JoinWithSpace(tail);
      assert Last(tail) == ws[|ws| - 1];
      JoinEnds(tail);
      assert j[0] == ws[1][0];
      UnfoldJoin(ws);
      assert ws[0] + " " + j == ws[0] + (" " + j);
      SplitAfterSpace(j);
      SplitAfterWord(ws[0], " " + j);
      assert ws[0] + [] == ws[0];
      assert [ws[0]] + tail == ws;
    }
  }

  /** Joining the words of the trimmed name and splitting again gives back those words, in order. */
  lemma JoinedWordsAreKept(name: string)
    ensures SplitOnSpaceRuns(JoinWithSpace(SplitOnSpaceRuns(Trim(name)))) == SplitOnSpaceRuns(Trim(name))
  {
    var t := Trim(name);
    SplitWordsHaveNoSpace(t);
    SplitLaterWordsNonEmpty(t);
    JoinThenSplitWords(SplitOnSpaceRuns(t));
  }

  /** Trimming, splitting and joining leaves no whitespace at either end and exactly one space between words. */
  lemma JoinedWordsAreFormatted(name: string)
    ensures IsFormattedName(JoinWithSpace(SplitOnSpaceRuns(Trim(name))))
  {
    var t := Trim(name);
    var ws := SplitOnSpaceRuns(t);
    var j := JoinWithSpace(ws);
    SplitWordsHaveNoSpace(t);
    SplitLaterWordsNonEmpty(t);
    JoinSingleSpaced(ws);
    if t != [] {
      assert !IsRegexSpace(Last(t));
      SplitLastWord(t);
      assert ws[0] != [] && ws[0][0] == t[0];
      JoinEnds(ws);
      assert j[0] == t[0] && Last(j) == Last(t);
    } else {
      assert ws == [[]];
    }
  }

  /** A name that is already formatted is left as it is. */
  lemma FormattedNameIsFixpoint(s: string)
    requires IsFormattedName(s)
    ensures FormatName(s) == s
  {
    assert Trim(s) == s by {
      if s != [] {
        assert DropLeading(s, IsWhitespace) == s;
        assert DropTrailing(s, IsWhitespace) == s;
      }
    }
    SplitThenJoin(s);
  }

  /** `formatName` is idempotent. */
  lemma FormatNameIdempotent(name: string)
    ensures FormatName(FormatName(name)) == FormatName(name)
  {
    FormattedNameIsFixpoint(FormatName(name));
  }
}
