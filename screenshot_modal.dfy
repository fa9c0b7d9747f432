/** The screenshot detail dialog (`src/components/ScreenshotModal.tsx`): the
    favourite toggle, the note history, the custom tags and the timestamp
    normalisation used when dates are shown. Each database update is taken
    as its outcome (`updateFailed`); the clock is an input. */
module ScreenshotModal {
  import opened Wrappers
  import opened Strings
  import Seqs

  datatype Note = Note(text: string, timestamp: string)

  // ---------------------------------------------------------------------
  // The new lists

  /** The history after adding the draft note at `now`, or `None` for a
      blank draft: the trimmed text goes in front, the older notes follow in
      their order. */
  function WithNote(history: seq<Note>, draft: string, now: string): (r: Option<seq<Note>>)
    ensures r.None? <==> IsBlank(draft)
    ensures r.Some? ==>
      && |r.value| == |history| + 1 && r.value[1..] == history
      && r.value[0].timestamp == now && r.value[0].text == Trim(draft)
      && r.value[0].text != [] && !IsWhitespace(r.value[0].text[0])
      && !IsWhitespace(r.value[0].text[|r.value[0].text| - 1])
  {
    TrimEmptyIffBlank(draft);
    TrimEnds(draft);
    if Trim(draft) == [] then None else Some([Note(Trim(draft), now)] + history)
  }

  lemma TrimEnds(s: string)
    ensures Trim(s) != [] ==> !IsWhitespace(Trim(s)[0]) && !IsWhitespace(Trim(s)[|Trim(s)| - 1])
  {
    var t := TrimStart(s);
    if Trim(s) != [] {
      assert Trim(s)[0] == t[0];
    }
  }

  /** The tags after adding the draft tag, or `None` for a blank draft: the
      trimmed tag is appended even when already present. */
  function WithTag(tags: seq<string>, draft: string): (r: Option<seq<string>>)
    ensures r.None? <==> IsBlank(draft)
    ensures r.Some? ==> |r.value| == |tags| + 1 && r.value[..|tags|] == tags && r.value[|tags|] == Trim(draft)
  {
    TrimEmptyIffBlank(draft);
    if Trim(draft) == [] then None else Some(tags + [Trim(draft)])
  }

  /** Adding a tag adds one occurrence of it and leaves every other count. */
  lemma WithTagCounts(tags: seq<string>, draft: string, x: string)
    requires !IsBlank(draft)
    ensures Seqs.Count(WithTag(tags, draft).value, x) == Seqs.Count(tags, x) + (if x == Trim(draft) then 1 else 0)
  {
    Seqs.CountSnoc(tags, Trim(draft), x);
  }

  /** `custom_tags.filter((tag) => tag !== tagToRemove)`. */
  function WithoutTag(tags: seq<string>, tag: string): (r: seq<string>)
    ensures tag !in r
    ensures forall x :: x in r <==> x in tags && x != tag
  {
    Seqs.Filter(tags, x => x != tag)
  }

  /** Every copy of the tag goes, the other tags keep their counts, and the
      removal works piecewise, so the remaining tags keep their order. */
  lemma {:induction false} WithoutTagSpec(a: seq<string>, b: seq<string>, tag: string, x: string)
    ensures Seqs.Count(WithoutTag(a, tag), x) == if x == tag then 0 else Seqs.Count(a, x)
    ensures WithoutTag(a + b, tag) == WithoutTag(a, tag) + WithoutTag(b, tag)
  {
    Seqs.FilterConcat(a, b, y => y != tag);
    if a != [] {
      WithoutTagSpec(a[1..], b, tag, x);
      var head := if a[0] != tag then [a[0]] else [];
      assert WithoutTag(a, tag) == head + WithoutTag(a[1..], tag);
      Seqs.CountConcat(head, WithoutTag(a[1..], tag), x);
    }
  }

  /** Removing a tag after adding it leaves no copy of it at all. */
  lemma AddThenRemove(tags: seq<string>, draft: string)
    requires !IsBlank(draft)
    ensures WithoutTag(WithTag(tags, draft).value, Trim(draft)) == WithoutTag(tags, Trim(draft))
  {
    var t := Trim(draft);
    WithoutTagSpec(tags, [t], t, t);
    assert WithoutTag([t], t) == [] by {
      assert [t][1..] == [];
    }
  }

  // ---------------------------------------------------------------------
  // Favourite

  /** The flag after one click and what the dashboard is told: the flag flips
      and `+1`/`-1` is reported on success; on failure the flag is restored
      and nothing is reported. */
  function Toggled(favorite: bool, updateFailed: bool): (r: (bool, Option<int>))
    ensures updateFailed ==> r == (favorite, None)
    ensures !updateFailed ==> r.0 == !favorite && r.1.Some? && (r.1.value == 1 <==> r.0) && (r.1.value == -1 <==> !r.0)
  {
    var next := !favorite;
    if updateFailed then (!next, None) else (next, Some(if next then 1 else -1))
  }

  /** Two successful clicks restore the flag, and the counts reported cancel. */
  lemma ToggleTwice(favorite: bool)
    ensures var first := Toggled(favorite, false); var second := Toggled(first.0, false);
      second.0 == favorite && first.1.value + second.1.value == 0
  {
  }

  // ---------------------------------------------------------------------
  // Timestamps

  /** A timestamp with neither `Z` nor `+` (SQLite's `YYYY-MM-DD HH:MM:SS`) is
      read as UTC: its first space becomes `T` and `Z` is appended. */
  function NormalizeTimestamp(ts: string): string {
    if !Contains(ts, "Z") && !Contains(ts, "+") then ReplaceFirst(ts, ' ', 'T') + "Z" else ts
  }

  /** A timestamp that carries a zone is left alone; any other one gets `Z`.
      Either way the result carries a zone, so normalising again changes
      nothing. */
  lemma NormalizeSpec(ts: string)
    ensures ('Z' in ts || '+' in ts) ==> NormalizeTimestamp(ts) == ts
    ensures !('Z' in ts || '+' in ts) ==> |NormalizeTimestamp(ts)| == |ts| + 1 && NormalizeTimestamp(ts)[|ts|] == 'Z'
    ensures 'Z' in NormalizeTimestamp(ts) || '+' in NormalizeTimestamp(ts)
    ensures NormalizeTimestamp(NormalizeTimestamp(ts)) == NormalizeTimestamp(ts)
  {
    var r := NormalizeTimestamp(ts);
    ContainsChar(ts, 'Z');
    ContainsChar(ts, '+');
    if !('Z' in ts || '+' in ts) {
      assert r[|ts|] == 'Z';
    }
    ContainsChar(r, 'Z');
    ContainsChar(r, '+');
  }

  /** `"YYYY-MM-DD HH:MM:SS"` becomes `"YYYY-MM-DDTHH:MM:SSZ"`. */
  lemma SqliteTimestamp(date: string, time: string)
    requires ' ' !in date && 'Z' !in date + time && '+' !in date + time
    ensures NormalizeTimestamp(date + " " + time) == date + "T" + time + "Z"
  {
    var ts := date + " " + time;
    ContainsChar(ts, 'Z');
    ContainsChar(ts, '+');
    assert 'Z' !in ts && '+' !in ts;
    ReplaceFirstAt(date, time, ' ', 'T');
  }

  lemma {:induction false} ReplaceFirstAt(a: string, b: string, c: char, d: char)
    requires c !in a
    ensures ReplaceFirst(a + [c] + b, c, d) == a + [d] + b
  {
    if a != [] {
      assert (a + [c] + b)[1..] == a[1..] + [c] + b;
      ReplaceFirstAt(a[1..], b, c, d);
    }
  }

  // ---------------------------------------------------------------------
  // The dialog's state

  datatype Action = AddNoteAction | AddTagAction

  /** Enter outside an IME composition runs the field's action. */
  predicate Fires(key: string, isComposing: bool) {
    key == "Enter" && !isComposing
  }

  /** The dialog's state: the input boxes, the favourite flag, the note
      history, and `customTags`, the shown screenshot's `custom_tags`, which
      the dialog assigns in place. The `updated` results say when `onUpdate`
      is called. */
  class ModalState {
    var newTag: string
    var isFavorite: bool
    var newNote: string
    var noteHistory: seq<Note>
    var customTags: seq<string>

    /** Opening on a screenshot: empty inputs; a missing history reads as empty. */
    constructor (isFavorite: bool, noteHistory: Option<seq<Note>>, customTags: seq<string>)
      ensures newTag == [] && newNote == [] && this.isFavorite == isFavorite
      ensures this.noteHistory == (if noteHistory.Some? then noteHistory.value else [])
      ensures this.customTags == customTags
    {
      newTag := [];
      this.isFavorite := isFavorite;
      newNote := [];
      this.noteHistory := if noteHistory.Some? then noteHistory.value else [];
      this.customTags := customTags;
    }

    /** `toggleFavorite`: flips at once, reverts on failure; on success
        reports the change to the dashboard and syncs the parent. */
    method ToggleFavorite(updateFailed: bool) returns (delta: Option<int>, updated: bool)
      modifies this
      ensures (isFavorite, delta) == Toggled(old(isFavorite), updateFailed)
      ensures updated == !updateFailed
      ensures newTag == old(newTag) && newNote == old(newNote)
      ensures noteHistory == old(noteHistory) && customTags == old(customTags)
    {
      var nextState := !isFavorite;
      isFavorite := nextState;
      if updateFailed {
        isFavorite := !nextState;
        delta := None;
        updated := false;
      } else {
        delta := Some(if nextState then 1 else -1);
        updated := true;
      }
    }

    /** `addNote`: the history and the input box change only when the draft
        is not blank and the update succeeds. */
    method AddNote(now: string, updateFailed: bool) returns (updated: bool)
      modifies this
      ensures var h := WithNote(old(noteHistory), old(newNote), now);
        if h.Some? && !updateFailed then noteHistory == h.value && newNote == [] && updated
        else noteHistory == old(noteHistory) && newNote == old(newNote) && !updated
      ensures newTag == old(newTag) && isFavorite == old(isFavorite) && customTags == old(customTags)
    {
      if Trim(newNote) == [] {
        TrimEmptyIffBlank(newNote);
        return false;
      }
      var entry := Note(Trim(newNote), now);
      var updatedHistory := [entry] + noteHistory;
      updated := false;
      if !updateFailed {
        noteHistory := updatedHistory;
        newNote := [];
        updated := true;
      }
    }

    /** `addTag`: the trimmed draft is appended only when it is not blank and
        the update succeeds, and the input box is then cleared. */
    method AddTag(updateFailed: bool) returns (updated: bool)
      modifies this
      ensures var t := WithTag(old(customTags), old(newTag));
        if t.Some? && !updateFailed then customTags == t.value && newTag == [] && updated
        else customTags == old(customTags) && newTag == old(newTag) && !updated
      ensures newNote == old(newNote) && isFavorite == old(isFavorite) && noteHistory == old(noteHistory)
    {
      if Trim(newTag) == [] {
        TrimEmptyIffBlank(newTag);
        return false;
      }
      var updatedTags := customTags + [Trim(newTag)];
      updated := false;
      if !updateFailed {
        customTags := updatedTags;
        newTag := [];
        updated := true;
      }
    }

    /** `removeTag`: every copy of the tag goes, only when the update succeeds. */
    method RemoveTag(tagToRemove: string, updateFailed: bool) returns (updated: bool)
      modifies this
      ensures customTags == if updateFailed then old(customTags) else WithoutTag(old(customTags), tagToRemove)
      ensures updated == !updateFailed
      ensures newTag == old(newTag) && newNote == old(newNote)
      ensures isFavorite == old(isFavorite) && noteHistory == old(noteHistory)
    {
      var updatedTags := WithoutTag(customTags, tagToRemove);
      updated := false;
      if !updateFailed {
        customTags := updatedTags;
        updated := true;
      }
    }

    /** `handleKeyDown`: Enter outside an IME composition runs the field's
        action; any other key changes nothing. */
    method HandleKeyDown(key: string, isComposing: bool, action: Action, now: string, updateFailed: bool)
      returns (updated: bool)
      modifies this
      ensures !Fires(key, isComposing) ==>
        && !updated && newTag == old(newTag) && newNote == old(newNote) && isFavorite == old(isFavorite)
        && noteHistory == old(noteHistory) && customTags == old(customTags)
      ensures Fires(key, isComposing) && action == AddNoteAction ==>
        var h := WithNote(old(noteHistory), old(newNote), now);
        && newTag == old(newTag) && customTags == old(customTags)
        && (if h.Some? && !updateFailed then noteHistory == h.value && newNote == [] && updated
            else noteHistory == old(noteHistory) && newNote == old(newNote) && !updated)
      ensures Fires(key, isComposing) && action == AddTagAction ==>
        var t := WithTag(old(customTags), old(newTag));
        && newNote == old(newNote) && noteHistory == old(noteHistory)
        && (if t.Some? && !updateFailed then customTags == t.value && newTag == [] && updated
            else customTags == old(customTags) && newTag == old(newTag) && !updated)
    {
      updated := false;
      if Fires(key, isComposing) {
        match action
        case AddNoteAction =>
          updated := AddNote(now, updateFailed);
        case AddTagAction =>
          updated := AddTag(updateFailed);
      }
    }
  }
}
