/** The screenshot gallery (`src/components/Gallery.tsx`): how the loaded
    rows are ordered, narrowed to the active view and searched, how the
    favourite toggle and the delete button update the list, and the relative
    date labels. Dates are taken already parsed: `parse` plays `Date.parse`
    (`None` for `NaN`), and the current time and the 7-day cut-off are
    inputs. */
module Gallery {
  import opened Wrappers
  import opened Strings
  import opened Tokens
  import Seqs

  /** The columns of a `screenshots` row the gallery reads. A `null` column is
      `None`; tag columns that are not arrays read as empty. */
  datatype Shot = Shot(
    id: string,
    createdAt: Option<string>,
    isFavorite: bool,
    isArchived: bool,
    folderId: Option<string>,
    fileName: Option<string>,
    ocrText: Option<string>,
    aiDescription: Option<string>,
    userNotes: Option<string>,
    customTags: seq<string>,
    aiTags: seq<string>)

  /** The most rows the fallback query keeps. */
  const MaxRows := 1000

  // ---------------------------------------------------------------------
  // Ordering

  /** `new Date(created_at).getTime()`: a `null` column is the epoch, a text
      the parser rejects is `NaN` (`None`). */
  function TimeOf(s: Shot, parse: string -> Option<int>): Option<int> {
    match s.createdAt
    case None => Some(0)
    case Some(t) => parse(t)
  }

  /** `safeTime`: a `NaN` time counts as 0. */
  function SafeTime(s: Shot, parse: string -> Option<int>): int {
    match TimeOf(s, parse)
    case None => 0
    case Some(ms) => ms
  }

  /** `rows.sort((a, b) => safeTime(b) - safeTime(a))`, the runtime's stable sort. */
  function NewestFirst(rows: seq<Shot>, parse: string -> Option<int>): (r: seq<Shot>)
    ensures |r| == |rows|
  {
    Seqs.SortDesc(rows, s => SafeTime(s, parse))
  }

  /** The sorted rows are newest first, are the same rows, and rows with equal
      times keep the order the query returned them in. */
  lemma NewestFirstSpec(rows: seq<Shot>, parse: string -> Option<int>, t: int)
    ensures Seqs.SortedDesc(NewestFirst(rows, parse), s => SafeTime(s, parse))
    ensures multiset(NewestFirst(rows, parse)) == multiset(rows)
    ensures Seqs.WithKey(NewestFirst(rows, parse), s => SafeTime(s, parse), t)
         == Seqs.WithKey(rows, s => SafeTime(s, parse), t)
  {
    Seqs.SortDescCorrect(rows, s => SafeTime(s, parse));
    Seqs.SortDescStable(rows, s => SafeTime(s, parse), t);
  }

  // ---------------------------------------------------------------------
  // The active view

  /** Whether a row belongs to the view: `'favorites'`, `'archived'`,
      `'recent'` (created at or after `cutoff`; a `NaN` time never is),
      `'all'`, or otherwise a folder id. */
  predicate InView(s: Shot, view: string, cutoff: int, parse: string -> Option<int>) {
    if view == "favorites" then s.isFavorite
    else if view == "archived" then s.isArchived
    else if view == "recent" then TimeOf(s, parse).Some? && TimeOf(s, parse).value >= cutoff
    else if view != "all" then s.folderId == Some(view)
    else true
  }

  function ViewFilter(rows: seq<Shot>, view: string, cutoff: int, parse: string -> Option<int>): (r: seq<Shot>)
    ensures forall s :: s in r <==> s in rows && InView(s, view, cutoff, parse)
  {
    Seqs.Filter(rows, s => InView(s, view, cutoff, parse))
  }

  /** `'all'` keeps every row, in order. */
  lemma AllViewKeepsRows(rows: seq<Shot>, cutoff: int, parse: string -> Option<int>)
    ensures ViewFilter(rows, "all", cutoff, parse) == rows
  {
    Seqs.FilterAll(rows, s => InView(s, "all", cutoff, parse));
  }

  /** A folder view holds exactly that folder's rows. */
  lemma FolderView(rows: seq<Shot>, view: string, cutoff: int, parse: string -> Option<int>)
    requires view !in {"favorites", "archived", "recent", "all"}
    ensures forall s :: s in ViewFilter(rows, view, cutoff, parse) <==> s in rows && s.folderId == Some(view)
  {
  }

  /** Filtering keeps the newest-first order. */
  lemma {:induction false} FilterKeepsOrder(rows: seq<Shot>, p: Shot -> bool, key: Shot -> int)
    requires Seqs.SortedDesc(rows, key)
    ensures Seqs.SortedDesc(Seqs.Filter(rows, p), key)
  {
    if rows != [] {
      var rest := Seqs.Filter(rows[1..], p);
      FilterKeepsOrder(rows[1..], p, key);
      if p(rows[0]) {
        var r := [rows[0]] + rest;
        forall i, j | 0 <= i < j < |r| ensures key(r[i]) >= key(r[j]) {
          if i > 0 {
            assert r[i] == rest[i - 1] && r[j] == rest[j - 1];
          } else {
            assert r[j] in rows[1..];
          }
        }
      }
    }
  }

  // ---------------------------------------------------------------------
  // Text search

  /** The search box splits at runs of whitespace and commas. */
  predicate IsSearchSep(c: char) {
    IsWhitespace(c) || c == ','
  }

  /** `qRaw`: the query trimmed and lower-cased. */
  function QueryText(searchQuery: string): string {
    ToLower(Trim(searchQuery))
  }

  /** `t.replace(/^#/, '')`: one leading `#` goes. */
  function DropHash(t: string): (r: string)
    ensures r == t || (t != [] && t[0] == '#' && r == t[1..])
  {
    if t != [] && t[0] == '#' then t[1..] else t
  }

  function StripHash(t: string): string {
    Trim(DropHash(t))
  }

  /** The search tokens of `qRaw`. */
  function Tokenize(qRaw: string): seq<string> {
    NonEmpty(Seqs.Map(SplitRuns(qRaw, IsSearchSep), StripHash))
  }

  lemma {:induction false} NonEmptyOfMap(xs: seq<string>, f: string -> string)
    requires f([]) == []
    ensures NonEmpty(Seqs.Map(xs, f)) == NonEmpty(Seqs.Map(NonEmpty(xs), f))
  {
    if xs != [] {
      NonEmptyOfMap(xs[1..], f);
      if xs[0] == [] {
        assert NonEmpty(xs) == NonEmpty(xs[1..]);
      } else {
        assert NonEmpty(xs) == [xs[0]] + NonEmpty(xs[1..]);
        assert NonEmpty(xs)[1..] == NonEmpty(xs[1..]);
      }
    }
  }

  predicate NoSeparator(w: string) {
    forall i :: 0 <= i < |w| ==> !IsSearchSep(w[i])
  }

  lemma TrimNoSpace(t: string)
    requires NoSeparator(t)
    ensures Trim(t) == t
  {
    assert TrimStart(t) == t;
  }

  /** On words, stripping is `DropHash` alone, and what is left is a token
      free of separators. */
  lemma {:induction false} StripWords(ws: seq<string>)
    requires forall w :: w in ws ==> NoSeparator(w)
    ensures NonEmpty(Seqs.Map(ws, StripHash)) == NonEmpty(Seqs.Map(ws, DropHash))
    ensures forall t :: t in NonEmpty(Seqs.Map(ws, DropHash)) ==> t != [] && NoSeparator(t)
  {
    if ws != [] {
      StripWords(ws[1..]);
      var d := DropHash(ws[0]);
      assert NoSeparator(d) by {
        assert ws[0] in ws;
        if d != ws[0] {
          forall i | 0 <= i < |d| ensures !IsSearchSep(d[i]) {
            assert d[i] == ws[0][i + 1];
          }
        }
      }
      TrimNoSpace(d);
      assert Seqs.Map(ws, StripHash) == [d] + Seqs.Map(ws[1..], StripHash);
      assert Seqs.Map(ws, DropHash) == [d] + Seqs.Map(ws[1..], DropHash);
    }
  }

  /** The tokens are the words of the query (maximal runs without whitespace
      or commas) with one leading `#` removed, the ones that became empty
      dropped; none is empty and none holds a separator. */
  lemma TokenizeSpec(qRaw: string)
    ensures Tokenize(qRaw) == NonEmpty(Seqs.Map(Words(qRaw, IsSearchSep), DropHash))
    ensures forall t :: t in Tokenize(qRaw) ==> t != [] && NoSeparator(t)
  {
    var pieces := SplitRuns(qRaw, IsSearchSep);
    SplitRunsWords(qRaw, IsSearchSep, []);
    assert StripHash([]) == [];
    NonEmptyOfMap(pieces, StripHash);
    var ws := Words(qRaw, IsSearchSep);
    WordsWellFormed(qRaw, IsSearchSep, []);
    StripWords(ws);
  }

  /** `norm`: a string column lower-cased, anything else empty. */
  function Norm(v: Option<string>): string {
    match v
    case None => []
    case Some(t) => ToLower(t)
  }

  /** The searchable text: file name, OCR text, description and notes. */
  function TextFields(s: Shot): string {
    Join([Norm(s.fileName), Norm(s.ocrText), Norm(s.aiDescription), Norm(s.userNotes)], " ")
  }

  /** `pickTags`: custom then AI tags, lower-cased. */
  function PickTags(s: Shot): (r: seq<string>)
    ensures |r| == |s.customTags| + |s.aiTags|
  {
    Seqs.Map(s.customTags + s.aiTags, ToLower)
  }

  /** `tags.some((t) => t.includes(q))`. */
  predicate SomeTagContains(tags: seq<string>, q: string) {
    exists i :: 0 <= i < |tags| && Contains(tags[i], q)
  }

  /** `s.replace(pat, '')` with a string pattern: the first occurrence goes. */
  function RemoveFirst(s: string, pat: string): string
    decreases |s|
  {
    if StartsWith(s, pat) then s[|pat|..]
    else if s == [] then []
    else [s[0]] + RemoveFirst(s[1..], pat)
  }

  const TagPrefix := "tag:"

  /** One token against one row: `tag:x` asks for a tag containing `x`; any
      other token for the text or a tag containing it. */
  predicate TokenMatches(token: string, text: string, tags: seq<string>) {
    if StartsWith(token, TagPrefix) then SomeTagContains(tags, RemoveFirst(token, TagPrefix))
    else Contains(text, token) || SomeTagContains(tags, token)
  }

  /** `tokens.every(...)`. */
  predicate RowMatches(tokens: seq<string>, s: Shot) {
    forall i :: 0 <= i < |tokens| ==> TokenMatches(tokens[i], TextFields(s), PickTags(s))
  }

  function Search(rows: seq<Shot>, tokens: seq<string>): (r: seq<Shot>)
    ensures forall s :: s in r <==> s in rows && RowMatches(tokens, s)
  {
    Seqs.Filter(rows, s => RowMatches(tokens, s))
  }

  /** The text filter: none for an empty query, else every token must match. */
  function TextFilter(rows: seq<Shot>, qRaw: string): seq<Shot> {
    if qRaw == [] then rows else Search(rows, Tokenize(qRaw))
  }

  /** A query without tokens (only separators and lone `#`s) keeps every row. */
  lemma NoTokensKeepRows(rows: seq<Shot>, qRaw: string)
    requires Tokenize(qRaw) == []
    ensures TextFilter(rows, qRaw) == rows
  {
    SearchNoTokens(rows);
  }

  lemma SearchNoTokens(rows: seq<Shot>)
    ensures Search(rows, []) == rows
  {
    Seqs.FilterAll(rows, s => RowMatches([], s));
  }

  lemma RowMatchesConcat(a: seq<string>, b: seq<string>, s: Shot)
    ensures RowMatches(a + b, s) <==> RowMatches(a, s) && RowMatches(b, s)
  {
    if RowMatches(a, s) && RowMatches(b, s) {
      forall i | 0 <= i < |a + b| ensures TokenMatches((a + b)[i], TextFields(s), PickTags(s)) {
        if i >= |a| {
          assert (a + b)[i] == b[i - |a|];
        }
      }
    }
    if RowMatches(a + b, s) {
      forall i | 0 <= i < |a| ensures TokenMatches(a[i], TextFields(s), PickTags(s)) {
        assert (a + b)[i] == a[i];
      }
      forall i | 0 <= i < |b| ensures TokenMatches(b[i], TextFields(s), PickTags(s)) {
        assert (a + b)[|a| + i] == b[i];
      }
    }
  }

  /** Searching for more tokens is searching the earlier result for the
      extra ones. */
  lemma {:induction false} SearchConcat(rows: seq<Shot>, a: seq<string>, b: seq<string>)
    ensures Search(rows, a + b) == Search(Search(rows, a), b)
  {
    if rows != [] {
      SearchConcat(rows[1..], a, b);
      RowMatchesConcat(a, b, rows[0]);
      if RowMatches(a, rows[0]) {
        assert Search(rows, a) == [rows[0]] + Search(rows[1..], a);
        assert Search(rows, a)[1..] == Search(rows[1..], a);
      } else {
        assert Search(rows, a) == Search(rows[1..], a);
      }
    }
  }

  /** Adding a token never enlarges the result. */
  lemma MoreTokensFewerRows(rows: seq<Shot>, a: seq<string>, b: seq<string>)
    ensures |Search(rows, a + b)| <= |Search(rows, a)|
    ensures forall s :: s in Search(rows, a + b) ==> s in Search(rows, a)
  {
    SearchConcat(rows, a, b);
  }

  /** A `tag:` token matches exactly when some lower-cased tag contains what
      follows the prefix; the text fields play no part. */
  lemma TagToken(token: string, s: Shot)
    requires StartsWith(token, TagPrefix)
    ensures TokenMatches(token, TextFields(s), PickTags(s))
        <==> exists i :: 0 <= i < |s.customTags + s.aiTags| && Contains(ToLower((s.customTags + s.aiTags)[i]), token[|TagPrefix|..])
  {
    var tags := PickTags(s);
    forall i | 0 <= i < |tags| ensures tags[i] == ToLower((s.customTags + s.aiTags)[i]) {
      MapAt(s.customTags + s.aiTags, ToLower, i);
    }
  }

  lemma {:induction false} MapAt<A, B>(xs: seq<A>, f: A -> B, i: nat)
    requires i < |xs|
    ensures Seqs.Map(xs, f)[i] == f(xs[i])
  {
    if i > 0 {
      MapAt(xs[1..], f, i - 1);
    }
  }

  lemma SpaceInWindow(a: string, b: string, t: string, i: nat)
    requires i <= |a| < i + |t| <= |a| + 1 + |b|
    requires (a + " " + b)[i..i + |t|] == t
    ensures ' ' in t
  {
    assert t[|a| - i] == (a + " " + b)[|a|];
  }

  /** A word without spaces occurs in `a + " " + b` iff it occurs in `a` or in `b`. */
  lemma ContainsAcrossSpace(a: string, b: string, t: string)
    requires t != [] && ' ' !in t
    ensures Contains(a + " " + b, t) <==> Contains(a, t) || Contains(b, t)
  {
    var s := a + " " + b;
    if Contains(s, t) {
      var i := ContainsWitness(s, t);
      if i + |t| <= |a| {
        assert s[i..i + |t|] == a[i..i + |t|];
        ContainsAt(a, t, i);
      } else if i > |a| {
        var k := i - |a| - 1;
        var w1, w2 := s[i..i + |t|], b[k..k + |t|];
        forall m | 0 <= m < |t| ensures w1[m] == w2[m] {
          assert s == (a + " ") + b;
          assert s[i + m] == b[k + m];
        }
        assert w1 == w2;
        ContainsAt(b, t, k);
      } else {
        SpaceInWindow(a, b, t, i);
        assert false;
      }
    }
    if Contains(a, t) {
      ContainsInPrefix(a, " " + b, t);
      assert a + (" " + b) == s;
    }
    if Contains(b, t) {
      ContainsInConcat(a + " ", b, t);
    }
  }

  lemma JoinFour(w: string, x: string, y: string, z: string)
    ensures Join([w, x, y, z], " ") == w + " " + (x + " " + (y + " " + z))
  {
    var p := [w, x, y, z];
    assert p[1..] == [x, y, z] && p[1..][1..] == [y, z] && [y, z][1..] == [z];
    assert Join([z], " ") == z;
    assert Join([y, z], " ") == y + " " + z;
    assert Join([x, y, z], " ") == x + " " + (y + " " + z);
  }

  /** A plain search token (one `Tokenize` yields) matches a row exactly when
      it occurs in one of the four lower-cased text fields or in a
      lower-cased tag: joining the fields with spaces cannot make a token
      match across two of them. */
  lemma PlainToken(token: string, s: Shot)
    requires token != [] && NoSeparator(token) && !StartsWith(token, TagPrefix)
    ensures TokenMatches(token, TextFields(s), PickTags(s)) <==>
      (|| Contains(Norm(s.fileName), token) || Contains(Norm(s.ocrText), token)
       || Contains(Norm(s.aiDescription), token) || Contains(Norm(s.userNotes), token)
       || SomeTagContains(PickTags(s), token))
  {
    assert ' ' !in token by {
      assert IsSearchSep(' ');
    }
    var d := Norm(s.aiDescription) + " " + Norm(s.userNotes);
    var o := Norm(s.ocrText) + " " + d;
    JoinFour(Norm(s.fileName), Norm(s.ocrText), Norm(s.aiDescription), Norm(s.userNotes));
    ContainsAcrossSpace(Norm(s.aiDescription), Norm(s.userNotes), token);
    ContainsAcrossSpace(Norm(s.ocrText), d, token);
    ContainsAcrossSpace(Norm(s.fileName), o, token);
  }

  // ---------------------------------------------------------------------
  // Loading

  /** The rows the gallery shows after a load, or `None` when the fallback
      query failed and the list is left as it was. `primary` is the first
      query's data (empty when it was not an array); `fallback` is the
      unfiltered query, run only when `primary` is empty. */
  function Shown(primary: seq<Shot>, fallback: Result<seq<Shot>>, view: string, searchQuery: string,
                 cutoff: int, parse: string -> Option<int>): Option<seq<Shot>>
  {
    var rows := NewestFirst(primary, parse);
    if rows == [] && fallback.Failure? then None
    else
      var rows' := if rows != [] then rows else FallbackRows(fallback.value, parse);
      Some(TextFilter(ViewFilter(rows', view, cutoff, parse), QueryText(searchQuery)))
  }

  /** The view filter and then the text filter keep the order and keep
      exactly the rows in the view that match every token. */
  lemma ViewThenText(rows: seq<Shot>, view: string, qRaw: string, cutoff: int,
                     parse: string -> Option<int>, key: Shot -> int, s: Shot)
    requires Seqs.SortedDesc(rows, key)
    ensures var r := TextFilter(ViewFilter(rows, view, cutoff, parse), qRaw);
      && Seqs.SortedDesc(r, key)
      && (s in r <==> (s in rows && InView(s, view, cutoff, parse) && (qRaw == [] || RowMatches(Tokenize(qRaw), s))))
  {
    var v := ViewFilter(rows, view, cutoff, parse);
    FilterKeepsOrder(rows, x => InView(x, view, cutoff, parse), key);
    if qRaw != [] {
      var tokens := Tokenize(qRaw);
      SearchKeepsOrder(v, tokens, key);
    }
  }

  lemma SearchKeepsOrder(rows: seq<Shot>, tokens: seq<string>, key: Shot -> int)
    requires Seqs.SortedDesc(rows, key)
    ensures Seqs.SortedDesc(Search(rows, tokens), key)
  {
    FilterKeepsOrder(rows, x => RowMatches(tokens, x), key);
  }

  /** A row is shown iff it came back from the query, is in the view and
      matches every token, and the rows shown are newest first. */
  lemma ShownSpec(primary: seq<Shot>, fallback: Result<seq<Shot>>, view: string, searchQuery: string,
                  cutoff: int, parse: string -> Option<int>, s: Shot)
    requires primary != []
    ensures var r := Shown(primary, fallback, view, searchQuery, cutoff, parse);
      && r.Some?
      && Seqs.SortedDesc(r.value, x => SafeTime(x, parse))
      && (s in r.value <==>
            (s in primary && InView(s, view, cutoff, parse)
             && (QueryText(searchQuery) == [] || RowMatches(Tokenize(QueryText(searchQuery)), s))))
  {
    var rows := NewestFirst(primary, parse);
    NewestFirstSpec(primary, parse, 0);
    assert s in rows <==> s in primary by {
      assert s in multiset(rows) <==> s in multiset(primary);
    }
    ViewThenText(rows, view, QueryText(searchQuery), cutoff, parse, x => SafeTime(x, parse), s);
  }

  /** The rows the fallback query keeps: its newest `MaxRows` rows. */
  function FallbackRows(fallback: seq<Shot>, parse: string -> Option<int>): (r: seq<Shot>)
    ensures |r| <= MaxRows && |r| <= |fallback|
    ensures |fallback| <= MaxRows ==> multiset(r) == multiset(fallback)
    ensures forall x :: x in r ==> x in fallback
  {
    NewestFirstSpec(fallback, parse, 0);
    var r := Seqs.Take(NewestFirst(fallback, parse), MaxRows);
    assert forall x :: x in r ==> x in multiset(NewestFirst(fallback, parse));
    r
  }

  /** The kept fallback rows are newest first, and none of the rows beyond
      the limit is newer than a kept one. */
  lemma FallbackNewest(fallback: seq<Shot>, parse: string -> Option<int>, s: Shot, t: Shot)
    ensures Seqs.SortedDesc(FallbackRows(fallback, parse), x => SafeTime(x, parse))
    ensures s in FallbackRows(fallback, parse) && t in fallback && t !in FallbackRows(fallback, parse) ==>
      SafeTime(s, parse) >= SafeTime(t, parse)
  {
    var sorted := NewestFirst(fallback, parse);
    var kept := FallbackRows(fallback, parse);
    NewestFirstSpec(fallback, parse, 0);
    assert kept == sorted[..|kept|];
    forall i, j | 0 <= i < j < |kept|
      ensures SafeTime(kept[i], parse) >= SafeTime(kept[j], parse)
    {
      assert kept[i] == sorted[i] && kept[j] == sorted[j];
    }
    if s in kept && t in fallback && t !in kept {
      assert t in multiset(sorted);
      var j :| 0 <= j < |sorted| && sorted[j] == t;
      var i :| 0 <= i < |kept| && kept[i] == s;
      assert sorted[i] == s;
    }
  }

  /** With an empty first result, the gallery shows exactly the kept
      fallback rows that are in the view and match every token, newest
      first; below the limit those are all the fallback rows. */
  lemma FallbackSpec(fallback: seq<Shot>, view: string, searchQuery: string,
                     cutoff: int, parse: string -> Option<int>, s: Shot)
    ensures var r := Shown([], Success(fallback), view, searchQuery, cutoff, parse);
      var kept := FallbackRows(fallback, parse);
      && r.Some? && |r.value| <= MaxRows
      && Seqs.SortedDesc(r.value, x => SafeTime(x, parse))
      && (s in r.value <==>
            (s in kept && InView(s, view, cutoff, parse)
             && (QueryText(searchQuery) == [] || RowMatches(Tokenize(QueryText(searchQuery)), s))))
      && (|fallback| <= MaxRows ==> (s in kept <==> s in fallback))
  {
    var kept := FallbackRows(fallback, parse);
    FallbackNewest(fallback, parse, s, s);
    ViewThenText(kept, view, QueryText(searchQuery), cutoff, parse, x => SafeTime(x, parse), s);
    if |fallback| <= MaxRows {
      assert s in kept <==> s in multiset(fallback);
    }
  }

  // ---------------------------------------------------------------------
  // List updates

  function SetFavorite(s: Shot, id: string, v: bool): Shot {
    if s.id == id then s.(isFavorite := v) else s
  }

  /** `prev.map((s) => (s.id === id ? { ...s, is_favorite: v } : s))`. */
  function WithFavorite(rows: seq<Shot>, id: string, v: bool): (r: seq<Shot>)
    ensures |r| == |rows|
    ensures forall i :: 0 <= i < |rows| ==> r[i] == SetFavorite(rows[i], id, v)
  {
    if rows == [] then [] else [SetFavorite(rows[0], id, v)] + WithFavorite(rows[1..], id, v)
  }

  /** `prev.filter((s) => s.id !== id)`. */
  function Without(rows: seq<Shot>, id: string): (r: seq<Shot>)
    ensures forall s :: s in r <==> s in rows && s.id != id
  {
    Seqs.Filter(rows, (s: Shot) => s.id != id)
  }

  /** Setting the flag twice keeps the second value. */
  lemma WithFavoriteTwice(rows: seq<Shot>, id: string, v: bool, w: bool)
    ensures WithFavorite(WithFavorite(rows, id, v), id, w) == WithFavorite(rows, id, w)
  {
  }

  /** Rolling back to the clicked row's own flag restores the list when every
      row with that id showed that flag. */
  lemma RollbackRestores(rows: seq<Shot>, shot: Shot)
    requires forall i :: 0 <= i < |rows| && rows[i].id == shot.id ==> rows[i].isFavorite == shot.isFavorite
    ensures WithFavorite(rows, shot.id, shot.isFavorite) == rows
  {
  }

  /** Dropping a row after changing its flag drops the same rows. */
  lemma {:induction false} WithoutAfterFavorite(rows: seq<Shot>, id: string, v: bool)
    ensures Without(WithFavorite(rows, id, v), id) == Without(rows, id)
  {
    if rows != [] {
      WithoutAfterFavorite(rows[1..], id, v);
      assert WithFavorite(rows, id, v)[1..] == WithFavorite(rows[1..], id, v);
    }
  }

  // ---------------------------------------------------------------------
  // Relative dates

  const DayMs := 1000 * 60 * 60 * 24

  /** Whole days between now and the date, either way round. */
  function DiffDays(nowMs: int, dateMs: int): nat {
    (if nowMs >= dateMs then nowMs - dateMs else dateMs - nowMs) / DayMs
  }

  /** `formatDate`. A date the parser rejects (`None`) fails every comparison
      and falls through to `localeDate`, the runtime's `toLocaleDateString`. */
  function FormatDate(date: Option<int>, nowMs: int, localeDate: string): string {
    if date.None? then localeDate
    else
      var d := DiffDays(nowMs, date.value);
      if d == 0 then "Today"
      else if d == 1 then "Yesterday"
      else if d < 7 then NatToDecimal(d) + " days ago"
      else if d < 30 then NatToDecimal(d / 7) + " weeks ago"
      else localeDate
  }

  /** Under a week the label names the day count, one digit, and reading it
      back gives that count; from a week to 29 days it names 1 to 4 weeks. */
  lemma RelativeLabels(dateMs: int, nowMs: int, localeDate: string)
    ensures var d := DiffDays(nowMs, dateMs); var r := FormatDate(Some(dateMs), nowMs, localeDate);
      && (2 <= d < 7 ==> |r| == 10 && r[1..] == " days ago" && IsDigit(r[0]) && DigitValue(r[0]) == d)
      && (7 <= d < 30 ==> |r| == 11 && r[1..] == " weeks ago" && IsDigit(r[0]) && 1 <= DigitValue(r[0]) <= 4
                          && DigitValue(r[0]) * 7 <= d < DigitValue(r[0]) * 7 + 7)
  {
    var d := DiffDays(nowMs, dateMs);
    if 2 <= d < 7 {
      DecimalRoundTrip(d);
      DigitRoundTrip(d);
    } else if 7 <= d < 30 {
      DigitRoundTrip(d / 7);
    }
  }

  lemma DigitRoundTrip(n: nat)
    requires n < 10
    ensures NatToDecimal(n) == [DigitChar(n)] && DigitValue(DigitChar(n)) == n
  {
  }

  /** "Today" means less than a day apart (when the locale text is not
      itself "Today"). */
  lemma TodayWithinADay(dateMs: int, nowMs: int, localeDate: string)
    requires localeDate != "Today"
    ensures FormatDate(Some(dateMs), nowMs, localeDate) == "Today"
        <==> -DayMs < nowMs - dateMs < DayMs
  {
    var d := DiffDays(nowMs, dateMs);
    var r := FormatDate(Some(dateMs), nowMs, localeDate);
    if 2 <= d < 7 {
      assert |r| == |NatToDecimal(d)| + 9;
    } else if 7 <= d < 30 {
      assert |r| == |NatToDecimal(d / 7)| + 10;
    }
  }

  // ---------------------------------------------------------------------
  // The component's list state

  class GalleryState {
    var screenshots: seq<Shot>
    var loading: bool

    /** The list starts empty and loading. */
    constructor ()
      ensures screenshots == [] && loading
    {
      screenshots := [];
      loading := true;
    }

    /** `loadScreenshots`: the list becomes the shown rows, or stays as it was
        when the fallback query failed; loading ends either way. */
    method LoadScreenshots(primary: seq<Shot>, fallback: Result<seq<Shot>>, view: string, searchQuery: string,
                           cutoff: int, parse: string -> Option<int>)
      modifies this
      ensures !loading
      ensures var r := Shown(primary, fallback, view, searchQuery, cutoff, parse);
        screenshots == if r.Some? then r.value else old(screenshots)
    {
      loading := true;
      var qRaw := QueryText(searchQuery);
      var rows := NewestFirst(primary, parse);
      if rows == [] {
        if fallback.Failure? {
          loading := false;
          return;
        }
        rows := FallbackRows(fallback.value, parse);
      }
      var filtered := ViewFilter(rows, view, cutoff, parse);
      if qRaw != [] {
        var tokens := Tokenize(qRaw);
        filtered := Search(filtered, tokens);
      }
      screenshots := filtered;
      loading := false;
    }

    /** `toggleFavorite`: the row's flag flips at once and flips back when the
        update fails; in the favourites view a row that stopped being a
        favourite leaves the list. */
    method ToggleFavorite(shot: Shot, view: string, updateFailed: bool)
      modifies this
      ensures loading == old(loading)
      ensures updateFailed ==> screenshots == WithFavorite(old(screenshots), shot.id, shot.isFavorite)
      ensures !updateFailed && view == "favorites" && shot.isFavorite ==> screenshots == Without(old(screenshots), shot.id)
      ensures !updateFailed && !(view == "favorites" && shot.isFavorite) ==>
        screenshots == WithFavorite(old(screenshots), shot.id, !shot.isFavorite)
    {
      var next := !shot.isFavorite;
      screenshots := WithFavorite(screenshots, shot.id, next);
      if updateFailed {
        WithFavoriteTwice(old(screenshots), shot.id, next, !next);
        screenshots := WithFavorite(screenshots, shot.id, !next);
        return;
      }
      if view == "favorites" && !next {
        WithoutAfterFavorite(old(screenshots), shot.id, next);
        screenshots := Without(screenshots, shot.id);
      }
    }

    /** `deleteScreenshot`: nothing unless confirmed; the row leaves the list
        at once and the old list comes back when the delete fails. */
    method DeleteScreenshot(shot: Shot, confirmed: bool, deleteFailed: bool)
      modifies this
      ensures loading == old(loading)
      ensures confirmed && !deleteFailed ==> screenshots == Without(old(screenshots), shot.id)
      ensures !confirmed || deleteFailed ==> screenshots == old(screenshots)
    {
      if !confirmed {
        return;
      }
      var prevState := screenshots;
      screenshots := Without(screenshots, shot.id);
      if deleteFailed {
        screenshots := prevState;
      }
    }
  }
}
