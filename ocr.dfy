/** Post-processing of recognised screenshot text (`src/lib/ocr.ts`): the
    smart file name and the tag list. The recognition itself is not part of
    this model; the date of `new Date().toISOString().split('T')[0]` is a
    parameter. */
module Ocr {
  import opened Wrappers
  import opened Strings
  import opened Tokens
  import Seqs

  const MinTextLength: nat := 10
  const MaxWords: nat := 5

  /** `.replace(/[^\w\s]/g, ' ')` on one character. */
  function Blank(c: char): char {
    if IsWordChar(c) || IsWhitespace(c) then c else ' '
  }

  predicate NotWordChar(c: char) {
    !IsWordChar(c)
  }

  predicate Long(w: string) {
    |w| > 3
  }

  /** The text after the last `.` (`name.split('.').pop()`); the whole name
      when it has no `.`. */
  function Extension(name: string): string {
    var pieces := SplitAt(name, (c: char) => c == '.');
    pieces[|pieces| - 1]
  }

  /** `cleanText.split(' ').filter(word => word.length > 3).slice(0, 5)`. */
  function FilenameWords(ocrText: string): seq<string> {
    var clean := Trim(Collapse(MapChars(ocrText, Blank), IsWhitespace));
    Seqs.Take(Seqs.Filter(SplitAt(clean, IsSpaceChar), Long), MaxWords)
  }

  /** `generateSmartFilename(ocrText, originalFilename)` on the day `date`. */
  function SmartFilename(ocrText: string, originalFilename: string, date: string): (r: string)
    ensures |ocrText| < MinTextLength ==> r == originalFilename
  {
    if |ocrText| < MinTextLength then originalFilename
    else
      var words := FilenameWords(ocrText);
      if words == [] then originalFilename
      else ToLower(Join(words, "_")) + "_" + date + "." + Extension(originalFilename)
  }

  /** Dropping pieces that a filter would reject anyway: a filter that only
      keeps non-empty strings sees the same thing after `filter(Boolean)`. */
  lemma {:induction false} FilterNonEmpty(xs: seq<string>, p: string -> bool)
    requires forall w :: p(w) ==> w != []
    ensures Seqs.Filter(xs, p) == Seqs.Filter(NonEmpty(xs), p)
  {
    if xs != [] {
      FilterNonEmpty(xs[1..], p);
      Seqs.FilterConcat(Emit(xs[0]), NonEmpty(xs[1..]), p);
      assert xs == [xs[0]] + xs[1..];
    }
  }

  /** The words of the cleaned text are the maximal runs of `\w` characters
      of the original text. */
  lemma CleanWords(ocrText: string)
    ensures Words(Trim(Collapse(MapChars(ocrText, Blank), IsWhitespace)), IsSpaceChar) == Words(ocrText, NotWordChar)
  {
    var m := MapChars(ocrText, Blank);
    var c := Collapse(m, IsWhitespace);
    MapCharsWords(ocrText, Blank, IsWhitespace, NotWordChar, []);
    CollapseWords(m, IsWhitespace, []);
    CollapseWhitespace(m);
    TrimWords(c, IsSpaceChar);
  }

  /** The file-name words are the first five runs of `\w` characters that are
      longer than three characters. */
  lemma FilenameWordsSpec(ocrText: string)
    ensures FilenameWords(ocrText) == Seqs.Take(Seqs.Filter(Words(ocrText, NotWordChar), Long), MaxWords)
  {
    var clean := Trim(Collapse(MapChars(ocrText, Blank), IsWhitespace));
    FilterNonEmpty(SplitAt(clean, IsSpaceChar), Long);
    SplitAtWords(clean, IsSpaceChar, []);
    CleanWords(ocrText);
  }

  /** The smart name as a reference definition on the words of the text:
      short text or no long word keeps the original name; otherwise at most
      five long words, lower-cased and joined by `_`, then the date and the
      original extension. Each word is made of `\w` characters only. */
  lemma SmartFilenameSpec(ocrText: string, originalFilename: string, date: string)
    ensures var ws := Seqs.Take(Seqs.Filter(Words(ocrText, NotWordChar), Long), MaxWords);
      SmartFilename(ocrText, originalFilename, date) ==
        if |ocrText| < MinTextLength || ws == [] then originalFilename
        else ToLower(Join(ws, "_")) + "_" + date + "." + Extension(originalFilename)
    ensures var ws := Seqs.Take(Seqs.Filter(Words(ocrText, NotWordChar), Long), MaxWords);
      1 <= |ws| <= MaxWords || ws == []
    ensures forall w :: w in Seqs.Take(Seqs.Filter(Words(ocrText, NotWordChar), Long), MaxWords) ==>
      |w| > 3 && forall i :: 0 <= i < |w| ==> IsWordChar(w[i])
  {
    FilenameWordsSpec(ocrText);
    WordsWellFormed(ocrText, NotWordChar, []);
  }

  lemma {:induction false} SplitAtLastNoSep(e: string, sep: char -> bool, cur: string)
    requires forall i :: 0 <= i < |e| ==> !sep(e[i])
    ensures var r := SplitAtFrom(e, sep, cur); r[|r| - 1] == cur + e
    decreases |e|
  {
    if e != [] {
      SplitAtLastNoSep(e[1..], sep, cur + [e[0]]);
      assert cur + [e[0]] + e[1..] == cur + e;
    }
  }

  lemma {:induction false} SplitAtLastPiece(a: string, e: string, sep: char -> bool, cur: string)
    requires sep('.') && forall i :: 0 <= i < |e| ==> !sep(e[i])
    ensures var r := SplitAtFrom(a + "." + e, sep, cur); r[|r| - 1] == e
    decreases |a|
  {
    var s := a + "." + e;
    if a == [] {
      assert s[1..] == e;
      SplitAtLastNoSep(e, sep, []);
    } else {
      assert s[1..] == a[1..] + "." + e;
      if sep(a[0]) {
        SplitAtLastPiece(a[1..], e, sep, []);
      } else {
        SplitAtLastPiece(a[1..], e, sep, cur + [a[0]]);
      }
    }
  }

  /** The extension is what follows the last `.`. */
  lemma ExtensionAfterLastDot(base: string, ext: string)
    requires '.' !in ext
    ensures Extension(base + "." + ext) == ext
  {
    SplitAtLastPiece(base, ext, (c: char) => c == '.', []);
  }

  // ---------------------------------------------------------------------
  // Tags

  const StopWords: set<string> := {
    "the", "be", "to", "of", "and", "a", "in", "that", "have", "i",
    "it", "for", "not", "on", "with", "he", "as", "you", "do", "at",
    "this", "but", "his", "by", "from", "they", "we", "say", "her", "she",
    "or", "an", "will", "my", "one", "all", "would", "there", "their"
  }

  predicate Keyword(w: string) {
    |w| > 3 && w !in StopWords
  }

  /** The candidate words: lower-cased, non-word characters blanked, split
      at whitespace runs, short and stop words dropped. */
  function TagWords(ocrText: string): seq<string> {
    Seqs.Filter(SplitRuns(MapChars(ToLower(ocrText), Blank), IsWhitespace), Keyword)
  }

  lemma TagWordsSpec(ocrText: string)
    ensures TagWords(ocrText) == Seqs.Filter(Words(ToLower(ocrText), NotWordChar), Keyword)
  {
    var m := MapChars(ToLower(ocrText), Blank);
    FilterNonEmpty(SplitRuns(m, IsWhitespace), Keyword);
    SplitRunsWords(m, IsWhitespace, []);
    MapCharsWords(ToLower(ocrText), Blank, IsWhitespace, NotWordChar, []);
  }

  /** One entry of the frequency `Map`. */
  datatype Entry = Entry(word: string, count: nat)

  function EntryCount(e: Entry): int {
    e.count
  }

  /** The frequency map after counting `words`: its keys in insertion order
      (first appearance), each with its number of occurrences. */
  function Frequencies(words: seq<string>): (r: seq<Entry>)
    ensures |r| == |Seqs.Dedup(words)|
  {
    CountsOf(Seqs.Dedup(words), words)
  }

  /** Each of `keys` with its number of occurrences in `words`. */
  function CountsOf(keys: seq<string>, words: seq<string>): (r: seq<Entry>)
    ensures |r| == |keys|
  {
    seq(|keys|, i requires 0 <= i < |keys| => Entry(keys[i], Seqs.Count(words, keys[i])))
  }

  /** Index of the entry with key `k`. */
  function Find(m: seq<Entry>, k: string): (r: Option<nat>)
    ensures r.None? <==> forall j :: 0 <= j < |m| ==> m[j].word != k
    ensures r.Some? ==> r.value < |m| && m[r.value].word == k && forall j :: 0 <= j < r.value ==> m[j].word != k
  {
    if m == [] then None
    else if m[0].word == k then Some(0)
    else
      var r := Find(m[1..], k);
      if r.Some? then Some(r.value + 1) else None
  }

  /** `Map.prototype.get`, with `undefined || 0` folded in. */
  function GetOrZero(m: seq<Entry>, k: string): nat {
    var j := Find(m, k);
    if j.Some? then m[j.value].count else 0
  }

  /** `Map.prototype.set`: an existing key keeps its place, a new one goes last. */
  function SetEntry(m: seq<Entry>, k: string, v: nat): seq<Entry> {
    var j := Find(m, k);
    if j.Some? then m[j.value := Entry(k, v)] else m + [Entry(k, v)]
  }

  /** Counting one more word updates the frequency map as `Frequencies` says:
      a word already counted has its entry bumped in place, a new word gets
      an entry with count 1 at the end. */
  lemma FrequenciesSnoc(ws: seq<string>, w: string, m: seq<Entry>)
    requires m == Frequencies(ws)
    ensures SetEntry(m, w, GetOrZero(m, w) + 1) == Frequencies(ws + [w])
  {
    var d := Seqs.Dedup(ws);
    Seqs.DedupSnoc(ws, w);
    Seqs.DedupSpec(ws);
    assert m == CountsOf(d, ws);
    if w in ws {
      var k := KeyIndex(ws, w);
      CountSeen(d, ws, w, k, m);
      assert Frequencies(ws + [w]) == CountsOf(d, ws + [w]);
    } else {
      assert w !in d;
      CountNew(d, ws, w, m);
      assert Frequencies(ws + [w]) == CountsOf(d + [w], ws + [w]);
    }
  }

  /** Counting a word that sits at `k` among distinct keys bumps that entry. */
  lemma CountSeen(d: seq<string>, ws: seq<string>, w: string, k: nat, m: seq<Entry>)
    requires Seqs.NoDuplicates(d) && k < |d| && d[k] == w && m == CountsOf(d, ws)
    ensures SetEntry(m, w, GetOrZero(m, w) + 1) == CountsOf(d, ws + [w])
  {
    var bumped := m[k := Entry(w, Seqs.Count(ws, w) + 1)];
    assert Find(m, w) == Some(k) by {
      forall i, j | 0 <= i < j < |m| ensures m[i].word != m[j].word {
        assert m[i].word == d[i] && m[j].word == d[j];
      }
      FindDistinct(m, k);
    }
    assert GetOrZero(m, w) == Seqs.Count(ws, w) by {
      assert m[k].count == Seqs.Count(ws, w);
    }
    var m' := CountsOf(d, ws + [w]);
    forall i | 0 <= i < |d| ensures m'[i] == bumped[i] {
      Seqs.CountSnoc(ws, w, d[i]);
    }
  }

  /** Counting a word that is not yet a key adds its entry at the end. */
  lemma CountNew(d: seq<string>, ws: seq<string>, w: string, m: seq<Entry>)
    requires w !in d && m == CountsOf(d, ws)
    requires forall i :: 0 <= i < |d| ==> d[i] in ws
    requires w !in ws
    ensures SetEntry(m, w, GetOrZero(m, w) + 1) == CountsOf(d + [w], ws + [w])
  {
    assert Find(m, w).None? by {
      forall j | 0 <= j < |m| ensures m[j].word != w {
        assert m[j].word == d[j];
      }
    }
    assert Seqs.Count(ws, w) == 0 by {
      Seqs.CountPositive(ws, w);
    }
    var m' := CountsOf(d + [w], ws + [w]);
    var r := m + [Entry(w, 1)];
    forall i | 0 <= i < |d| + 1 ensures m'[i] == r[i] {
      if i < |d| {
        Seqs.CountSnoc(ws, w, d[i]);
      } else {
        Seqs.CountSnoc(ws, w, w);
      }
    }
  }

  /** Where a counted word sits among the keys. */
  lemma KeyIndex(ws: seq<string>, w: string) returns (k: nat)
    requires w in ws
    ensures k < |Seqs.Dedup(ws)| && Seqs.Dedup(ws)[k] == w
  {
    var d := Seqs.Dedup(ws);
    Seqs.DedupSpec(ws);
    var j :| 0 <= j < |ws| && ws[j] == w;
    assert ws[j] in d;
    k :| 0 <= k < |d| && d[k] == w;
  }

  /** With distinct keys, `Find` locates each key at its index. */
  lemma FindDistinct(m: seq<Entry>, k: nat)
    requires k < |m|
    requires forall i, j :: 0 <= i < j < |m| ==> m[i].word != m[j].word
    ensures Find(m, m[k].word) == Some(k)
  {
  }

  /** The `forEach` that fills `wordFrequency`. */
  method CountWords(words: seq<string>) returns (freq: seq<Entry>)
    ensures freq == Frequencies(words)
  {
    freq := [];
    var i := 0;
    while i < |words|
      invariant 0 <= i <= |words|
      invariant freq == Frequencies(words[..i])
    {
      FrequenciesSnoc(words[..i], words[i], freq);
      assert words[..i + 1] == words[..i] + [words[i]];
      freq := SetEntry(freq, words[i], GetOrZero(freq, words[i]) + 1);
      i := i + 1;
    }
    assert words[..i] == words;
  }

  /** The frequency entries sorted by descending count (a stable sort), the
      first five words. */
  function Keywords(words: seq<string>): (r: seq<string>)
    ensures |r| <= MaxWords
  {
    var sorted := Seqs.SortDesc(Frequencies(words), EntryCount);
    var top := Seqs.Take(sorted, MaxWords);
    seq(|top|, i requires 0 <= i < |top| => top[i].word)
  }

  /** The keyword ranking: the sorted entries are the frequency map's
      entries, by non-increasing count, with equal counts in order of first
      appearance; the keywords are the words of the first five of them. */
  lemma KeywordsRanking(words: seq<string>)
    ensures var sorted := Seqs.SortDesc(Frequencies(words), EntryCount);
      && Seqs.SortedDesc(sorted, EntryCount)
      && multiset(sorted) == multiset(Frequencies(words))
      && (forall k :: Seqs.WithKey(sorted, EntryCount, k) == Seqs.WithKey(Frequencies(words), EntryCount, k))
      && |Keywords(words)| == (if |sorted| < MaxWords then |sorted| else MaxWords)
      && forall i :: 0 <= i < |Keywords(words)| ==> Keywords(words)[i] == sorted[i].word
  {
    var e := Frequencies(words);
    Seqs.SortDescCorrect(e, EntryCount);
    forall k {
      Seqs.SortDescStable(e, EntryCount, k);
    }
  }

  /** Every keyword is a long, non-stop word of the text that many times. */
  lemma KeywordsAreCandidates(words: seq<string>)
    ensures forall i :: 0 <= i < |Keywords(words)| ==> Keywords(words)[i] in words
    ensures forall i :: 0 <= i < |Frequencies(words)| ==>
      Frequencies(words)[i].word in words && Frequencies(words)[i].count == Seqs.Count(words, Frequencies(words)[i].word)
  {
    var e := Frequencies(words);
    var sorted := Seqs.SortDesc(e, EntryCount);
    Seqs.SortDescCorrect(e, EntryCount);
    Seqs.DedupSpec(words);
    forall i | 0 <= i < |Keywords(words)| ensures Keywords(words)[i] in words {
      KeywordsRanking(words);
      assert sorted[i] in multiset(e);
      var j :| 0 <= j < |e| && e[j] == sorted[i];
      assert Seqs.Dedup(words)[j] in words;
    }
  }

  /** The content categories, in the order they are tested. */
  datatype Category = Error | Code | Design | Web | Email

  const Categories: seq<Category> := [Error, Code, Design, Web, Email]

  function Name(c: Category): string {
    match c
    case Error => "error"
    case Code => "code"
    case Design => "design"
    case Web => "web"
    case Email => "email"
  }

  /** The substrings that put a category on the text. */
  function Triggers(c: Category): seq<string> {
    match c
    case Error => ["error", "exception", "failed"]
    case Code => ["function", "const", "class", "import"]
    case Design => ["design", "color", "font"]
    case Web => ["http", "www", ".com"]
    case Email => ["email", "@"]
  }

  predicate Triggered(lowerText: string, c: Category) {
    exists i :: 0 <= i < |Triggers(c)| && Contains(lowerText, Triggers(c)[i])
  }

  /** The categories pushed onto `detectedTypes`, in push order. */
  function Detected(lowerText: string): seq<string> {
    Pushed(Triggered(lowerText, Error), Triggered(lowerText, Code), Triggered(lowerText, Design),
      Triggered(lowerText, Web), Triggered(lowerText, Email))
  }

  /** `detectedTypes.push(name)` when `cond` holds. */
  function Push(detected: seq<string>, cond: bool, name: string): seq<string> {
    if cond then detected + [name] else detected
  }

  function Pushed(error: bool, code: bool, design: bool, web: bool, email: bool): seq<string> {
    Push(Push(Push(Push(Push([], error, "error"), code, "code"), design, "design"), web, "web"), email, "email")
  }

  /** Each `if` of the source tests exactly the category's trigger list. */
  lemma CategoryTests(t: string)
    ensures Triggered(t, Error) <==> Contains(t, "error") || Contains(t, "exception") || Contains(t, "failed")
    ensures Triggered(t, Code) <==> Contains(t, "function") || Contains(t, "const") || Contains(t, "class") || Contains(t, "import")
    ensures Triggered(t, Design) <==> Contains(t, "design") || Contains(t, "color") || Contains(t, "font")
    ensures Triggered(t, Web) <==> Contains(t, "http") || Contains(t, "www") || Contains(t, ".com")
    ensures Triggered(t, Email) <==> Contains(t, "email") || Contains(t, "@")
  {
    var e := Triggers(Error);
    assert Triggered(t, Error) <==> Contains(t, e[0]) || Contains(t, e[1]) || Contains(t, e[2]);
    var c := Triggers(Code);
    assert Triggered(t, Code) <==> Contains(t, c[0]) || Contains(t, c[1]) || Contains(t, c[2]) || Contains(t, c[3]);
    var d := Triggers(Design);
    assert Triggered(t, Design) <==> Contains(t, d[0]) || Contains(t, d[1]) || Contains(t, d[2]);
    var w := Triggers(Web);
    assert Triggered(t, Web) <==> Contains(t, w[0]) || Contains(t, w[1]) || Contains(t, w[2]);
    var m := Triggers(Email);
    assert Triggered(t, Email) <==> Contains(t, m[0]) || Contains(t, m[1]);
  }

  /** The `detectedTypes` pushes. */
  method DetectTypes(lowerText: string) returns (detected: seq<string>)
    ensures detected == Detected(lowerText)
  {
    var t := lowerText;
    CategoryTests(t);
    detected := [];
    var isError := Contains(t, "error") || Contains(t, "exception") || Contains(t, "failed");
    if isError {
      detected := detected + ["error"];
    }
    var isCode := Contains(t, "function") || Contains(t, "const") || Contains(t, "class") || Contains(t, "import");
    if isCode {
      detected := detected + ["code"];
    }
    var isDesign := Contains(t, "design") || Contains(t, "color") || Contains(t, "font");
    if isDesign {
      detected := detected + ["design"];
    }
    var isWeb := Contains(t, "http") || Contains(t, "www") || Contains(t, ".com");
    if isWeb {
      detected := detected + ["web"];
    }
    var isEmail := Contains(t, "email") || Contains(t, "@");
    if isEmail {
      detected := detected + ["email"];
    }
  }

  /** A category's name is among the detected ones iff one of its trigger
      substrings occurs in the text. */
  lemma DetectedIff(lowerText: string, c: Category)
    ensures Name(c) in Detected(lowerText) <==> Triggered(lowerText, c)
  {
  }

  /** At most five categories, no name twice. */
  lemma DetectedDistinct(lowerText: string)
    ensures |Detected(lowerText)| <= 5
    ensures Seqs.NoDuplicates(Detected(lowerText))
  {
    var t := lowerText;
    PushedDistinct(Triggered(t, Error), Triggered(t, Code), Triggered(t, Design), Triggered(t, Web), Triggered(t, Email));
  }

  lemma PushedDistinct(error: bool, code: bool, design: bool, web: bool, email: bool)
    ensures |Pushed(error, code, design, web, email)| <= 5
    ensures Seqs.NoDuplicates(Pushed(error, code, design, web, email))
  {
    var d1 := Push([], error, "error");
    var d2 := Push(d1, code, "code");
    assert forall x :: x in d2 ==> x in {"error", "code"};
    if code { AppendFresh(d1, "code"); }
    var d3 := Push(d2, design, "design");
    assert forall x :: x in d3 ==> x in {"error", "code", "design"};
    if design { AppendFresh(d2, "design"); }
    var d4 := Push(d3, web, "web");
    assert forall x :: x in d4 ==> x in {"error", "code", "design", "web"};
    if web { AppendFresh(d3, "web"); }
    if email { AppendFresh(d4, "email"); }
  }

  lemma AppendFresh(d: seq<string>, x: string)
    requires Seqs.NoDuplicates(d) && x !in d
    ensures Seqs.NoDuplicates(d + [x])
  {
    var r := d + [x];
    forall i, j | 0 <= i < j < |r| ensures r[i] != r[j] {
      if j == |d| {
        assert r[i] in d;
      }
    }
  }

  /** `generateTags`. */
  method GenerateTags(ocrText: string) returns (tags: seq<string>)
    ensures |ocrText| < MinTextLength ==> tags == []
    ensures |ocrText| >= MinTextLength ==>
      tags == Seqs.Dedup(Detected(ToLower(ocrText)) + Keywords(TagWords(ocrText)))
  {
    if |ocrText| < MinTextLength {
      return [];
    }
    var words := TagWords(ocrText);
    var freq := CountWords(words);
    var sorted := Seqs.SortDesc(freq, EntryCount);
    var top := Seqs.Take(sorted, MaxWords);
    var sortedWords := seq(|top|, i requires 0 <= i < |top| => top[i].word);
    var detected := DetectTypes(ToLower(ocrText));
    tags := Seqs.Dedup(detected + sortedWords);
  }

  /** The tag list: no duplicates, at most ten, the detected categories
      first in their fixed order, then the keywords not already present. */
  lemma TagsSpec(ocrText: string)
    ensures var detected := Detected(ToLower(ocrText));
      var tags := Seqs.Dedup(detected + Keywords(TagWords(ocrText)));
      && Seqs.NoDuplicates(tags)
      && |tags| <= 10
      && |detected| <= |tags| && tags[..|detected|] == detected
      && (forall t :: t in tags ==> t in detected || t in Keywords(TagWords(ocrText)))
  {
    var detected := Detected(ToLower(ocrText));
    var kw := Keywords(TagWords(ocrText));
    var tags := Seqs.Dedup(detected + kw);
    DetectedDistinct(ToLower(ocrText));
    Seqs.DedupOfDistinct(detected);
    Seqs.DedupPrefix(detected, kw);
    Seqs.DedupSpec(detected + kw);
    forall t | t in tags ensures t in detected || t in kw {
      var i :| 0 <= i < |tags| && tags[i] == t;
      assert t in detected + kw;
    }
  }
}
