/** The string splitting used by the search box and the OCR pipeline, and a
    reference definition they are proved against. A separator class is a
    predicate on characters. */
module Tokens {
  import opened Strings

  function Emit(cur: string): seq<string> {
    if cur == [] then [] else [cur]
  }

  /** Reference definition: the maximal runs of non-separator characters of
      `s`, left to right; `cur` is the run read so far. */
  function WordsFrom(s: string, sep: char -> bool, cur: string): seq<string>
    decreases |s|
  {
    if s == [] then Emit(cur)
    else if sep(s[0]) then Emit(cur) + WordsFrom(s[1..], sep, [])
    else WordsFrom(s[1..], sep, cur + [s[0]])
  }

  function Words(s: string, sep: char -> bool): seq<string> {
    WordsFrom(s, sep, [])
  }

  /** `s.split(c)` for a one-character separator: one piece per separator,
      empty pieces included. */
  function SplitAtFrom(s: string, sep: char -> bool, cur: string): (r: seq<string>)
    ensures |r| >= 1
    decreases |s|
  {
    if s == [] then [cur]
    else if sep(s[0]) then [cur] + SplitAtFrom(s[1..], sep, [])
    else SplitAtFrom(s[1..], sep, cur + [s[0]])
  }

  function SplitAt(s: string, sep: char -> bool): seq<string> {
    SplitAtFrom(s, sep, [])
  }

  /** Drops the leading separators. */
  function DropSeparators(s: string, sep: char -> bool): (r: string)
    ensures |r| <= |s|
  {
    if s != [] && sep(s[0]) then DropSeparators(s[1..], sep) else s
  }

  /** `s.split(/[...]+/)` for a regular expression matching runs of separators:
      one cut per maximal run, so only the two ends can give empty pieces. */
  function SplitRunsFrom(s: string, sep: char -> bool, cur: string): (r: seq<string>)
    ensures |r| >= 1
    decreases |s|
  {
    if s == [] then [cur]
    else if sep(s[0]) then [cur] + SplitRunsFrom(DropSeparators(s[1..], sep), sep, [])
    else SplitRunsFrom(s[1..], sep, cur + [s[0]])
  }

  function SplitRuns(s: string, sep: char -> bool): seq<string> {
    SplitRunsFrom(s, sep, [])
  }

  /** `s.replace(/[...]+/g, ' ')`: every maximal run of separators becomes one space. */
  function Collapse(s: string, sep: char -> bool): (r: string)
    ensures |r| <= |s|
    decreases |s|
  {
    if s == [] then []
    else if sep(s[0]) then [' '] + Collapse(DropSeparators(s[1..], sep), sep)
    else [s[0]] + Collapse(s[1..], sep)
  }

  /** `pieces.filter(Boolean)` on strings: drop the empty ones. */
  function NonEmpty(pieces: seq<string>): seq<string> {
    if pieces == [] then []
    else Emit(pieces[0]) + NonEmpty(pieces[1..])
  }

  lemma {:induction false} NonEmptyConcat(a: seq<string>, b: seq<string>)
    ensures NonEmpty(a + b) == NonEmpty(a) + NonEmpty(b)
  {
    if a != [] {
      assert (a + b)[1..] == a[1..] + b;
      NonEmptyConcat(a[1..], b);
    } else {
      assert a + b == b;
    }
  }

  predicate IsSpaceChar(c: char) {
    c == ' '
  }

  /** Every word is non-empty and free of separators. */
  lemma {:induction false} WordsWellFormed(s: string, sep: char -> bool, cur: string)
    requires forall i :: 0 <= i < |cur| ==> !sep(cur[i])
    ensures forall w :: w in WordsFrom(s, sep, cur) ==> w != [] && forall i :: 0 <= i < |w| ==> !sep(w[i])
    decreases |s|
  {
    if s != [] {
      if sep(s[0]) {
        WordsWellFormed(s[1..], sep, []);
      } else {
        WordsWellFormed(s[1..], sep, cur + [s[0]]);
      }
    }
  }

  /** Splitting at every separator and dropping the empty pieces gives the words. */
  lemma {:induction false} SplitAtWords(s: string, sep: char -> bool, cur: string)
    ensures NonEmpty(SplitAtFrom(s, sep, cur)) == WordsFrom(s, sep, cur)
    decreases |s|
  {
    if s == [] {
      assert NonEmpty([cur]) == Emit(cur) + NonEmpty([]);
    } else if sep(s[0]) {
      SplitAtWords(s[1..], sep, []);
      NonEmptyConcat([cur], SplitAtFrom(s[1..], sep, []));
      assert NonEmpty([cur]) == Emit(cur) + NonEmpty([]);
    } else {
      SplitAtWords(s[1..], sep, cur + [s[0]]);
    }
  }

  /** Leading separators do not change the words when no run is pending. */
  lemma {:induction false} WordsDropSeparators(s: string, sep: char -> bool)
    ensures WordsFrom(DropSeparators(s, sep), sep, []) == WordsFrom(s, sep, [])
    decreases |s|
  {
    if s != [] && sep(s[0]) {
      WordsDropSeparators(s[1..], sep);
    }
  }

  /** Splitting at separator runs and dropping the empty pieces gives the words. */
  lemma {:induction false} SplitRunsWords(s: string, sep: char -> bool, cur: string)
    ensures NonEmpty(SplitRunsFrom(s, sep, cur)) == WordsFrom(s, sep, cur)
    decreases |s|
  {
    if s == [] {
      assert NonEmpty([cur]) == Emit(cur) + NonEmpty([]);
    } else if sep(s[0]) {
      var t := DropSeparators(s[1..], sep);
      SplitRunsWords(t, sep, []);
      WordsDropSeparators(s[1..], sep);
      NonEmptyConcat([cur], SplitRunsFrom(t, sep, []));
      assert NonEmpty([cur]) == Emit(cur) + NonEmpty([]);
    } else {
      SplitRunsWords(s[1..], sep, cur + [s[0]]);
    }
  }

  /** After collapsing, separator runs are single spaces and no other character
      changed, so the words (now cut at spaces) are the same. */
  lemma {:induction false} CollapseWords(s: string, sep: char -> bool, cur: string)
    requires sep(' ')
    ensures WordsFrom(Collapse(s, sep), IsSpaceChar, cur) == WordsFrom(s, sep, cur)
    decreases |s|
  {
    if s != [] {
      if sep(s[0]) {
        var t := DropSeparators(s[1..], sep);
        assert Collapse(s, sep)[1..] == Collapse(t, sep);
        CollapseWords(t, sep, []);
        WordsDropSeparators(s[1..], sep);
      } else {
        assert Collapse(s, sep)[1..] == Collapse(s[1..], sep);
        CollapseWords(s[1..], sep, cur + [s[0]]);
      }
    }
  }

  /** The only whitespace left after collapsing `\s` runs is the plain space. */
  lemma {:induction false} CollapseWhitespace(s: string)
    ensures forall i :: 0 <= i < |Collapse(s, IsWhitespace)| && IsWhitespace(Collapse(s, IsWhitespace)[i]) ==> Collapse(s, IsWhitespace)[i] == ' '
    decreases |s|
  {
    if s != [] {
      if IsWhitespace(s[0]) {
        CollapseWhitespace(DropSeparators(s[1..], IsWhitespace));
      } else {
        CollapseWhitespace(s[1..]);
      }
    }
  }

  lemma {:induction false} WordsAllSeparators(s: string, sep: char -> bool)
    requires forall i :: 0 <= i < |s| ==> sep(s[i])
    ensures WordsFrom(s, sep, []) == []
    decreases |s|
  {
    if s != [] {
      WordsAllSeparators(s[1..], sep);
    }
  }

  lemma {:induction false} WordsTrailingSeparators(s: string, tail: string, sep: char -> bool, cur: string)
    requires forall i :: 0 <= i < |tail| ==> sep(tail[i])
    ensures WordsFrom(s + tail, sep, cur) == WordsFrom(s, sep, cur)
    decreases |s|
  {
    if s == [] {
      assert s + tail == tail;
      if tail != [] {
        WordsAllSeparators(tail[1..], sep);
      }
    } else {
      assert (s + tail)[1..] == s[1..] + tail;
      if sep(s[0]) {
        WordsTrailingSeparators(s[1..], tail, sep, []);
      } else {
        WordsTrailingSeparators(s[1..], tail, sep, cur + [s[0]]);
      }
    }
  }

  /** Every whitespace character of `s` is a separator. */
  predicate SpacesSeparate(s: string, sep: char -> bool) {
    forall i :: 0 <= i < |s| && IsWhitespace(s[i]) ==> sep(s[i])
  }

  lemma SpacesSeparateSuffix(s: string, n: nat, sep: char -> bool)
    requires n <= |s| && SpacesSeparate(s, sep)
    ensures SpacesSeparate(s[n..], sep)
  {
    forall i | 0 <= i < |s| - n && IsWhitespace(s[n..][i]) ensures sep(s[n..][i]) {
      assert s[n..][i] == s[n + i];
    }
  }

  lemma SpacesSeparatePrefix(s: string, n: nat, sep: char -> bool)
    requires n <= |s| && SpacesSeparate(s, sep)
    ensures SpacesSeparate(s[..n], sep)
  {
    forall i | 0 <= i < n && IsWhitespace(s[..n][i]) ensures sep(s[..n][i]) {
      assert s[..n][i] == s[i];
    }
  }

  /** Trimming whitespace does not change the words when whitespace separates. */
  lemma TrimWords(s: string, sep: char -> bool)
    requires SpacesSeparate(s, sep)
    ensures WordsFrom(Trim(s), sep, []) == WordsFrom(s, sep, [])
  {
    var t := TrimStart(s);
    assert WordsFrom(t, sep, []) == WordsFrom(s, sep, []) by {
      TrimStartWords(s, sep);
    }
    assert WordsFrom(TrimEnd(t), sep, []) == WordsFrom(t, sep, []) by {
      SpacesSeparateSuffix(s, |s| - |t|, sep);
      TrimEndWords(t, sep, []);
    }
  }

  lemma {:induction false} TrimStartWords(s: string, sep: char -> bool)
    requires SpacesSeparate(s, sep)
    ensures WordsFrom(TrimStart(s), sep, []) == WordsFrom(s, sep, [])
    decreases |s|
  {
    if s != [] && IsWhitespace(s[0]) {
      assert TrimStart(s) == TrimStart(s[1..]);
      assert WordsFrom(s, sep, []) == WordsFrom(s[1..], sep, []) by {
        assert sep(s[0]);
      }
      SpacesSeparateSuffix(s, 1, sep);
      TrimStartWords(s[1..], sep);
    }
  }

  lemma {:induction false} TrimEndWords(s: string, sep: char -> bool, cur: string)
    requires SpacesSeparate(s, sep)
    ensures WordsFrom(TrimEnd(s), sep, cur) == WordsFrom(s, sep, cur)
    decreases |s|
  {
    if s != [] && IsWhitespace(s[|s| - 1]) {
      var init := s[..|s| - 1];
      assert s == init + [s[|s| - 1]];
      WordsTrailingSeparators(init, [s[|s| - 1]], sep, cur);
      SpacesSeparatePrefix(s, |s| - 1, sep);
      TrimEndWords(init, sep, cur);
    }
  }

  /** Rewriting characters so that exactly the `sep2` characters become `sep`
      characters, and leaving the others as they were, keeps the words. */
  lemma {:induction false} MapCharsWords(s: string, f: char -> char, sep: char -> bool, sep2: char -> bool, cur: string)
    requires forall c :: sep(f(c)) <==> sep2(c)
    requires forall c :: !sep2(c) ==> f(c) == c
    ensures WordsFrom(MapChars(s, f), sep, cur) == WordsFrom(s, sep2, cur)
    decreases |s|
  {
    if s != [] {
      assert MapChars(s, f)[1..] == MapChars(s[1..], f);
      if sep2(s[0]) {
        MapCharsWords(s[1..], f, sep, sep2, []);
      } else {
        MapCharsWords(s[1..], f, sep, sep2, cur + [s[0]]);
      }
    }
  }

  function MapChars(s: string, f: char -> char): (r: string)
    ensures |r| == |s|
    ensures forall i :: 0 <= i < |s| ==> r[i] == f(s[i])
  {
    if s == [] then [] else [f(s[0])] + MapChars(s[1..], f)
  }
}
