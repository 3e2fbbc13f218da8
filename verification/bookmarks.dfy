/**
 * The bookmark list page (src/components/bookmarks/BookmarksList.js): removing
 * a bookmark, editing its note, the list written back to the store after an
 * edit, and the identifier strings that tie a card to the note being edited.
 *
 * Every operation builds a new list; the store write itself is I/O and only
 * the list handed to it is modelled.  A bookmark is identified by chapter,
 * verse and the seconds of its timestamp.
 */
module Bookmarks {
  import opened Wrappers
  import opened Text
  import opened Lists

  datatype Timestamp = Timestamp(seconds: int)

  /** A stored bookmark: the verse's fields, the user's note and when it was saved (possibly absent). */
  datatype Bookmark = Bookmark(
    chapter: string,
    verse: string,
    sanskrit: string,
    transliteration: string,
    englishMeaning: string,
    application: string,
    note: string,
    timestamp: Option<Timestamp>)

  predicate SameVerse(b: Bookmark, target: Bookmark)
  {
    b.chapter == target.chapter && b.verse == target.verse
  }

  /**
   * The comparison reads `timestamp.seconds` on both sides only once chapter
   * and verse agree; there a missing timestamp throws a TypeError.
   */
  predicate CompareThrows(b: Bookmark, target: Bookmark)
  {
    SameVerse(b, target) && (b.timestamp.None? || target.timestamp.None?)
  }

  /** The identity test `(chapter, verse, timestamp.seconds)` where it does not throw. */
  predicate SameBookmark(b: Bookmark, target: Bookmark)
  {
    SameVerse(b, target) && b.timestamp.Some? && target.timestamp.Some?
    && b.timestamp.value.seconds == target.timestamp.value.seconds
  }

  /** Running the identity test over the list throws on some entry; the handler then catches and leaves the local list as it was. */
  predicate ListThrows(bookmarks: seq<Bookmark>, target: Bookmark)
  {
    exists k :: 0 <= k < |bookmarks| && CompareThrows(bookmarks[k], target)
  }

  /** `handleRemoveBookmark`: the local list after removing `target`. */
  function Remove(signedIn: bool, bookmarks: seq<Bookmark>, target: Bookmark): (r: seq<Bookmark>)
    ensures |r| <= |bookmarks|
    ensures !signedIn ==> r == bookmarks
    ensures signedIn && ListThrows(bookmarks, target) ==> r == bookmarks
  {
    if !signedIn || ListThrows(bookmarks, target) then bookmarks
    else
      FilterMembers(b => !SameBookmark(b, target), bookmarks);
      Filter(b => !SameBookmark(b, target), bookmarks)
  }

  /** Removal drops exactly the entries with the target's identity. */
  lemma RemoveMembers(bookmarks: seq<Bookmark>, target: Bookmark)
    requires !ListThrows(bookmarks, target)
    ensures forall b :: b in Remove(true, bookmarks, target) <==> b in bookmarks && !SameBookmark(b, target)
  {
    FilterMembers(x => !SameBookmark(x, target), bookmarks);
  }

  /** Removal keeps the order of what it keeps: removing from a concatenation removes from each part. */
  lemma RemoveSplits(a: seq<Bookmark>, b: seq<Bookmark>, target: Bookmark)
    requires !ListThrows(a + b, target)
    ensures !ListThrows(a, target) && !ListThrows(b, target)
    ensures Remove(true, a + b, target) == Remove(true, a, target) + Remove(true, b, target)
  {
    forall k | 0 <= k < |a| ensures !CompareThrows(a[k], target) { assert a[k] == (a + b)[k]; }
    forall k | 0 <= k < |b| ensures !CompareThrows(b[k], target) { assert b[k] == (a + b)[|a| + k]; }
    FilterAppend(x => !SameBookmark(x, target), a, b);
  }

  /** A list without the target's identity is left exactly as it was. */
  lemma RemoveAbsent(bookmarks: seq<Bookmark>, target: Bookmark)
    requires forall k :: 0 <= k < |bookmarks| ==> !SameVerse(bookmarks[k], target)
    ensures Remove(true, bookmarks, target) == bookmarks
  {
    FilterKeepsAll(x => !SameBookmark(x, target), bookmarks);
  }

  /** The copy of `target` with the edited note (`{...bookmark, note: editedNote}`). */
  function Updated(target: Bookmark, editedNote: string): Bookmark
  {
    target.(note := editedNote)
  }

  /** `saveEditedNote`, local state: entries with the target's identity become the updated copy. */
  function EditLocal(signedIn: bool, bookmarks: seq<Bookmark>, target: Bookmark, editedNote: string): (r: seq<Bookmark>)
    ensures |r| == |bookmarks|
    ensures !signedIn ==> r == bookmarks
    ensures forall k :: 0 <= k < |r| ==>
              r[k].chapter == bookmarks[k].chapter && r[k].verse == bookmarks[k].verse
              && r[k].timestamp == bookmarks[k].timestamp
    ensures forall k :: 0 <= k < |r| && !SameBookmark(bookmarks[k], target) ==> r[k] == bookmarks[k]
    ensures signedIn && !ListThrows(bookmarks, target) ==>
              forall k :: 0 <= k < |r| && SameBookmark(bookmarks[k], target) ==> r[k] == Updated(target, editedNote)
  {
    if !signedIn || ListThrows(bookmarks, target) then bookmarks
    else Map(b => if SameBookmark(b, target) then Updated(target, editedNote) else b, bookmarks)
  }

  /**
   * `saveEditedNote`, the rebuilt list of the second write to the store: the
   * other entries in order, then the updated copy.  This second write does
   * not happen when signed out or when the identity test throws; the first
   * write, which removes the target from the stored array, is not modelled.
   */
  function EditStored(signedIn: bool, bookmarks: seq<Bookmark>, target: Bookmark, editedNote: string): (r: Option<seq<Bookmark>>)
    ensures r.Some? <==> signedIn && !ListThrows(bookmarks, target)
    ensures r.Some? ==> 1 <= |r.value| <= |bookmarks| + 1 && r.value[|r.value| - 1] == Updated(target, editedNote)
  {
    if !signedIn || ListThrows(bookmarks, target) then None
    else Some(Remove(true, bookmarks, target) + [Updated(target, editedNote)])
  }

  /** Before the updated copy, the stored list holds exactly the entries without the target's identity. */
  lemma EditStoredMembers(bookmarks: seq<Bookmark>, target: Bookmark, editedNote: string)
    requires !ListThrows(bookmarks, target)
    ensures var r := EditStored(true, bookmarks, target, editedNote).value;
            forall b :: b in r[..|r| - 1] <==> b in bookmarks && !SameBookmark(b, target)
  {
    var kept := Remove(true, bookmarks, target);
    var r := EditStored(true, bookmarks, target, editedNote).value;
    assert r[..|r| - 1] == kept;
    RemoveMembers(bookmarks, target);
  }

  /** With a single entry of the target's identity, removal drops exactly that entry. */
  lemma {:induction false} RemoveSingle(bookmarks: seq<Bookmark>, target: Bookmark, i: nat)
    requires i < |bookmarks| && SameBookmark(bookmarks[i], target)
    requires forall k :: 0 <= k < |bookmarks| && k != i ==> !SameVerse(bookmarks[k], target)
    requires target.timestamp.Some?
    ensures !ListThrows(bookmarks, target)
    ensures Remove(true, bookmarks, target) == bookmarks[..i] + bookmarks[i + 1..]
  {
    var pre := bookmarks[..i];
    var post := bookmarks[i + 1..];
    assert bookmarks == pre + [bookmarks[i]] + post;
    assert !ListThrows(bookmarks, target) by {
      forall k | 0 <= k < |bookmarks| ensures !CompareThrows(bookmarks[k], target) {
        if k == i { assert bookmarks[i].timestamp.Some?; }
      }
    }
    RemoveSplits(pre + [bookmarks[i]], post, target);
    RemoveSplits(pre, [bookmarks[i]], target);
    forall k | 0 <= k < |pre| ensures !SameVerse(pre[k], target) { assert pre[k] == bookmarks[k]; }
    forall k | 0 <= k < |post| ensures !SameVerse(post[k], target) { assert post[k] == bookmarks[i + 1 + k]; }
    RemoveAbsent(pre, target);
    RemoveAbsent(post, target);
    assert Remove(true, [bookmarks[i]], target) == [] by {
      assert [bookmarks[i]][..0] == [];
    }
    assert pre + [] + post == pre + post;
  }

  /**
   * When exactly one entry carries the target's identity, the stored list and
   * the local list hold the same bookmarks; only the updated one's position differs.
   */
  lemma EditStoredIsLocalReordered(bookmarks: seq<Bookmark>, target: Bookmark, editedNote: string, i: nat)
    requires i < |bookmarks| && SameBookmark(bookmarks[i], target)
    requires forall k :: 0 <= k < |bookmarks| && k != i ==> !SameVerse(bookmarks[k], target)
    requires target.timestamp.Some?
    ensures EditStored(true, bookmarks, target, editedNote).Some?
    ensures multiset(EditStored(true, bookmarks, target, editedNote).value)
            == multiset(EditLocal(true, bookmarks, target, editedNote))
  {
    var u := Updated(target, editedNote);
    var pre := bookmarks[..i];
    var post := bookmarks[i + 1..];
    RemoveSingle(bookmarks, target, i);
    var local := EditLocal(true, bookmarks, target, editedNote);
    assert local == pre + [u] + post;
    assert EditStored(true, bookmarks, target, editedNote).value == pre + post + [u];
  }

  /** `startEditingNote`: `chapter-verse-seconds`; reading the seconds of a missing timestamp throws. */
  function EditId(b: Bookmark): (r: Option<string>)
    ensures r.Some? <==> b.timestamp.Some?
    ensures r.Some? ==> StartsWith(r.value, b.chapter + "-" + b.verse + "-")
  {
    if b.timestamp.None? then None
    else Some(b.chapter + "-" + b.verse + "-" + IntToString(b.timestamp.value.seconds))
  }

  /** The card key: the seconds, or the list index when they are missing or zero (`seconds || index`). */
  function RenderKey(b: Bookmark, index: nat): (r: string)
    ensures StartsWith(r, b.chapter + "-" + b.verse + "-")
  {
    var tail := if b.timestamp.Some? && b.timestamp.value.seconds != 0 then IntToString(b.timestamp.value.seconds)
                else NatToString(index);
    assert (b.chapter + "-" + b.verse + "-" + tail)[..|b.chapter + "-" + b.verse + "-"|] == b.chapter + "-" + b.verse + "-";
    b.chapter + "-" + b.verse + "-" + tail
  }

  /** A card whose timestamp has non-zero seconds is the one shown in edit mode after `startEditingNote`. */
  lemma EditIdIsRenderKey(b: Bookmark, index: nat)
    requires b.timestamp.Some? && b.timestamp.value.seconds != 0
    ensures EditId(b) == Some(RenderKey(b, index))
  {
  }

  /** A timestamp of zero seconds makes the key fall back to the index, so the card at index > 0 never enters edit mode. */
  lemma ZeroSecondsNeverEditing(b: Bookmark, index: nat)
    requires b.timestamp == Some(Timestamp(0)) && index > 0
    ensures EditId(b) != Some(RenderKey(b, index))
  {
    var p := b.chapter + "-" + b.verse + "-";
    if EditId(b) == Some(RenderKey(b, index)) {
      assert p + NatToString(0) == p + NatToString(index);
      assert NatToString(0) == (p + NatToString(0))[|p|..];
      assert NatToString(index) == (p + NatToString(index))[|p|..];
      DigitsValueOfNat(0);
      DigitsValueOfNat(index);
    }
  }
}
