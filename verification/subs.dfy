/** The subtitles API's bookkeeping: the selection of events (always kept
    sorted, and re-indexed when events are removed), the remembered video
    path stored in the script's metadata, and the path of the loaded file. */
module Subs {
  import opened Wrappers
  import opened Ass
  import AssWriter
  import FrameSnapping

  // ----- sorting -----

  /** Puts `x` before the first element it does not exceed. */
  function Insert(x: int, s: seq<int>): seq<int> {
    if s == [] then [x]
    else if x <= s[0] then [x] + s
    else [s[0]] + Insert(x, s[1..])
  }

  /** `sorted(s)`, as an insertion sort. */
  function Sort(s: seq<int>): seq<int> {
    if s == [] then [] else Insert(s[0], Sort(s[1..]))
  }

  lemma {:induction false} InsertMultiset(x: int, s: seq<int>)
    ensures multiset(Insert(x, s)) == multiset(s) + multiset{x}
  {
    if s != [] && x > s[0] {
      InsertMultiset(x, s[1..]);
      assert s == [s[0]] + s[1..];
    }
  }

  /** A bound below `x` and every element of `s` is below every element
      of `Insert(x, s)`. */
  lemma {:induction false} InsertAbove(x: int, s: seq<int>, b: int)
    requires b <= x && forall k :: 0 <= k < |s| ==> b <= s[k]
    ensures forall k :: 0 <= k < |Insert(x, s)| ==> b <= Insert(x, s)[k]
  {
    if s != [] && x > s[0] {
      InsertAbove(x, s[1..], b);
      assert Insert(x, s) == [s[0]] + Insert(x, s[1..]);
    }
  }

  lemma {:induction false} InsertSorted(x: int, s: seq<int>)
    requires FrameSnapping.Sorted(s)
    ensures FrameSnapping.Sorted(Insert(x, s))
  {
    if s != [] && x > s[0] {
      var t := s[1..];
      TailSorted(s);
      InsertSorted(x, t);
      HeadBelowTail(s);
      InsertAbove(x, t, s[0]);
      ConsSorted(s[0], Insert(x, t));
      assert Insert(x, s) == [s[0]] + Insert(x, t);
    }
  }

  /** The head of a sorted list is at most every later element. */
  lemma HeadBelowTail(s: seq<int>)
    requires FrameSnapping.Sorted(s) && s != []
    ensures forall k :: 0 <= k < |s[1..]| ==> s[0] <= s[1..][k]
  {
    forall k | 0 <= k < |s[1..]| ensures s[0] <= s[1..][k] {
      assert s[1..][k] == s[k + 1];
    }
  }

  /** A sorted list stays sorted with an element in front that is at most
      each of its elements. */
  lemma ConsSorted(a: int, r: seq<int>)
    requires FrameSnapping.Sorted(r) && forall k :: 0 <= k < |r| ==> a <= r[k]
    ensures FrameSnapping.Sorted([a] + r)
  {
    var q := [a] + r;
    forall i, j | 0 <= i < j < |q| ensures q[i] <= q[j] {
      assert q[j] == r[j - 1];
      if i > 0 {
        assert q[i] == r[i - 1];
      }
    }
  }

  lemma TailSorted(s: seq<int>)
    requires FrameSnapping.Sorted(s) && s != []
    ensures FrameSnapping.Sorted(s[1..])
  {
    forall i, j | 0 <= i < j < |s| - 1 ensures s[1..][i] <= s[1..][j] {
      assert s[1..][i] == s[i + 1] && s[1..][j] == s[j + 1];
    }
  }

  /** The sort returns the same elements in ascending order. */
  lemma {:induction false} SortSpec(s: seq<int>)
    ensures FrameSnapping.Sorted(Sort(s))
    ensures multiset(Sort(s)) == multiset(s)
  {
    if s != [] {
      SortSpec(s[1..]);
      InsertSorted(s[0], Sort(s[1..]));
      InsertMultiset(s[0], Sort(s[1..]));
      assert s == [s[0]] + s[1..];
    }
  }

  /** The least element of a sorted non-empty list comes first. */
  lemma HeadIsLeast(s: seq<int>, y: int)
    requires FrameSnapping.Sorted(s) && s != [] && y in multiset(s)
    ensures s[0] <= y
  {
    assert y in s;
    var k :| 0 <= k < |s| && s[k] == y;
  }

  /** There is only one sorted arrangement of a multiset of integers. */
  lemma {:induction false} SortedUnique(a: seq<int>, b: seq<int>)
    requires FrameSnapping.Sorted(a) && FrameSnapping.Sorted(b) && multiset(a) == multiset(b)
    ensures a == b
  {
    if a != [] {
      assert a[0] in multiset(a);
      assert b != [];
      assert b[0] in multiset(b);
      HeadIsLeast(a, b[0]);
      HeadIsLeast(b, a[0]);
      assert a[0] == b[0];
      assert a == [a[0]] + a[1..] && b == [b[0]] + b[1..];
      assert multiset(a) == multiset{a[0]} + multiset(a[1..]);
      assert multiset(b) == multiset{b[0]} + multiset(b[1..]);
      assert multiset(a[1..]) == multiset(a) - multiset{a[0]};
      assert multiset(b[1..]) == multiset(b) - multiset{b[0]};
      TailSorted(a);
      TailSorted(b);
      SortedUnique(a[1..], b[1..]);
    } else {
      assert |multiset(b)| == 0;
    }
  }

  /** Sorting a list that is already sorted returns it unchanged, and a list
      equals the sort of another exactly when it is a sorted rearrangement
      of it. */
  lemma SortCharacterised(s: seq<int>, t: seq<int>)
    ensures t == Sort(s) <==> FrameSnapping.Sorted(t) && multiset(t) == multiset(s)
    ensures FrameSnapping.Sorted(s) ==> Sort(s) == s
  {
    SortSpec(s);
    if FrameSnapping.Sorted(t) && multiset(t) == multiset(s) {
      SortedUnique(t, Sort(s));
    }
    if FrameSnapping.Sorted(s) {
      SortedUnique(s, Sort(s));
    }
  }

  // ----- re-indexing after removal -----

  /** One pass of the loop in `_on_items_removed`: drops `i` and shifts
      every index above it down by one. */
  function RemoveOne(s: seq<int>, i: int): (r: seq<int>)
    ensures |r| <= |s|
  {
    if s == [] then []
    else if s[0] == i then RemoveOne(s[1..], i)
    else [if s[0] > i then s[0] - 1 else s[0]] + RemoveOne(s[1..], i)
  }

  /** What removing `count` events at `idx` means for a selection: indexes
      in the removed range go, those past it move down by `count`, those
      before it stay. */
  function Adjust(s: seq<int>, idx: int, count: nat): (r: seq<int>)
    ensures |r| <= |s|
  {
    if s == [] then []
    else if idx <= s[0] < idx + count then Adjust(s[1..], idx, count)
    else [if s[0] >= idx + count then s[0] - count else s[0]] + Adjust(s[1..], idx, count)
  }

  /** Removing nothing changes nothing. */
  lemma {:induction false} AdjustNothing(s: seq<int>, idx: int)
    ensures Adjust(s, idx, 0) == s
  {
    if s != [] {
      AdjustNothing(s[1..], idx);
      assert s == [s[0]] + s[1..];
    }
  }

  /** Removing one more event just below a removed range is one more pass
      of the loop. */
  lemma {:induction false} AdjustStep(s: seq<int>, i: int, count: nat)
    ensures Adjust(s, i - 1, count + 1) == RemoveOne(Adjust(s, i, count), i - 1)
  {
    if s != [] {
      AdjustStep(s[1..], i, count);
      var a := Adjust(s, i, count);
      if !(i <= s[0] < i + count) {
        assert a[0] == (if s[0] >= i + count then s[0] - count else s[0]);
        assert a[1..] == Adjust(s[1..], i, count);
      }
    }
  }

  /** Every index left after the removal comes from an index outside the
      removed range: one below it kept as it is, or one past it moved
      down by `count`. */
  lemma {:induction false} AdjustOrigins(s: seq<int>, idx: int, count: nat)
    ensures forall y {:trigger y in Adjust(s, idx, count)} :: y in Adjust(s, idx, count) ==>
      (y < idx && y in s) || (y >= idx && y + count in s)
  {
    if s != [] {
      AdjustOrigins(s[1..], idx, count);
      var r, rest := Adjust(s, idx, count), Adjust(s[1..], idx, count);
      assert forall x :: x in s[1..] ==> x in s;
      if !(idx <= s[0] < idx + count) {
        var h := if s[0] >= idx + count then s[0] - count else s[0];
        assert r == [h] + rest;
        assert s[0] in s;
      }
    }
  }

  /** Indexes below the removed range survive as they are, and indexes
      past it survive moved down by `count`. */
  lemma {:induction false} AdjustSurvivors(s: seq<int>, idx: int, count: nat)
    ensures forall x :: x in s && x < idx ==> x in Adjust(s, idx, count)
    ensures forall x :: x in s && x >= idx + count ==> x - count in Adjust(s, idx, count)
  {
    if s != [] {
      AdjustSurvivors(s[1..], idx, count);
      var r, rest := Adjust(s, idx, count), Adjust(s[1..], idx, count);
      assert s == [s[0]] + s[1..];
      assert forall x :: x in s ==> x == s[0] || x in s[1..];
      if !(idx <= s[0] < idx + count) {
        var h := if s[0] >= idx + count then s[0] - count else s[0];
        assert r == [h] + rest;
        assert forall y :: y in rest ==> y in r;
        assert h in r;
      }
    }
  }

  /** Survivors keep their order, so a sorted selection stays sorted. */
  lemma {:induction false} AdjustSorted(s: seq<int>, idx: int, count: nat)
    requires FrameSnapping.Sorted(s)
    ensures FrameSnapping.Sorted(Adjust(s, idx, count))
  {
    if s != [] {
      var t := s[1..];
      TailSorted(s);
      AdjustSorted(t, idx, count);
      var r := Adjust(s, idx, count);
      var rest := Adjust(t, idx, count);
      if !(idx <= s[0] < idx + count) {
        var h := if s[0] >= idx + count then s[0] - count else s[0];
        assert r == [h] + rest;
        AdjustOrigins(t, idx, count);
        forall k | 0 <= k < |rest| ensures h <= rest[k] {
          var y := rest[k];
          assert y in rest;
          if y < idx {
            assert y in t;
            var m :| 0 <= m < |t| && t[m] == y;
            assert s[0] <= s[m + 1];
          } else {
            assert y + count in t;
            var m :| 0 <= m < |t| && t[m] == y + count;
            assert s[0] <= s[m + 1];
          }
        }
        forall i, j | 0 <= i < j < |r| ensures r[i] <= r[j] {
          if i == 0 {
            assert r[j] == rest[j - 1];
          } else {
            assert r[i] == rest[i - 1] && r[j] == rest[j - 1];
          }
        }
      }
    }
  }

  // ----- the remembered video path -----

  /** Path operations on the file system: the parent directory of a path,
      and a path joined onto a directory. */
  datatype PathOps = PathOps(parent: string -> string, join: (string, string) -> string)

  const VIDEO_FILE := "Video File"
  const AUDIO_FILE := "Audio File"

  /** The video path the script remembers: none when the metadata names no
      video or no script path is known, otherwise the metadata's value
      relative to the directory of the script. */
  function RememberedVideoPath(info: Info, path: Option<string>, ops: PathOps): (r: Option<string>)
    ensures r.None? <==> Get(info, VIDEO_FILE, "") == "" || path.None?
  {
    var video := Get(info, VIDEO_FILE, "");
    if video == "" then None
    else if path.None? then None
    else Some(ops.join(ops.parent(path.value), video))
  }

  /** Remembering a video path stores it as both the video and the audio
      file. */
  function RememberVideoPath(info: Info, video: string): Info {
    Put(Put(info, VIDEO_FILE, video), AUDIO_FILE, video)
  }

  /** After remembering a path, both keys read it back, every other key
      reads as before, and the remembered path of a saved script is that
      path next to the script. */
  lemma RememberedVideoPathRoundTrip(info: Info, video: string, path: Option<string>, ops: PathOps)
    ensures var r := RememberVideoPath(info, video);
      && Get(r, VIDEO_FILE, "") == video
      && Get(r, AUDIO_FILE, "") == video
      && (forall k :: k != VIDEO_FILE && k != AUDIO_FILE ==> Get(r, k, "") == Get(info, k, ""))
      && (video != "" && path.Some? ==> RememberedVideoPath(r, path, ops) == Some(ops.join(ops.parent(path.value), video)))
  {
    var r1 := Put(info, VIDEO_FILE, video);
    var r := Put(r1, AUDIO_FILE, video);
    assert VIDEO_FILE[0] != AUDIO_FILE[0];
    GetPutSame(info, VIDEO_FILE, video, "");
    GetPutOther(r1, AUDIO_FILE, video, VIDEO_FILE, "");
    GetPutSame(r1, AUDIO_FILE, video, "");
    forall k | k != VIDEO_FILE && k != AUDIO_FILE ensures Get(r, k, "") == Get(info, k, "") {
      GetPutOther(info, VIDEO_FILE, video, k, "");
      GetPutOther(r1, AUDIO_FILE, video, k, "");
    }
  }

  /** Python list indexing: a negative index counts from the end. */
  function PyIndex(n: nat, k: int): Option<nat> {
    if 0 <= k < n then Some(k)
    else if -(n as int) <= k < 0 then Some(n + k)
    else None
  }

  /** `[events[idx] for idx in selection]`: None when an index is out of
      range (Python raises `IndexError`). */
  function SelectedEventsOf(events: seq<Event>, selection: seq<int>): (r: Option<seq<Event>>)
    ensures r.Some? <==> forall k :: 0 <= k < |selection| ==> PyIndex(|events|, selection[k]).Some?
    ensures r.Some? ==> (|r.value| == |selection|
      && forall k :: 0 <= k < |selection| ==> PyIndex(|events|, selection[k]).Some? && r.value[k] == events[PyIndex(|events|, selection[k]).value])
  {
    if selection == [] then Some([])
    else match PyIndex(|events|, selection[0])
      case None => None
      case Some(i) =>
        var rest := SelectedEventsOf(events, selection[1..]);
        assert forall k :: 1 <= k < |selection| ==> selection[1..][k - 1] == selection[k];
        if rest.None? then None else Some([events[i]] + rest.value)
  }

  class SubtitlesApi {
    var path: Option<string>
    var selectedIndexes: seq<int>
    var info: Info
    var styles: seq<Style>
    var events: seq<Event>

    /** A new API holds an empty script with the one style "Default". */
    constructor ()
      ensures path.None? && selectedIndexes == [] && info == [] && events == []
      ensures styles == [NewStyle("Default")]
    {
      path := None;
      selectedIndexes := [];
      info := [];
      styles := [NewStyle("Default")];
      events := [];
    }

    /** The `selected_indexes` setter: stores the selection sorted and says
        whether that differs from the selection before. */
    method SetSelectedIndexes(newSelection: seq<int>) returns (changed: bool)
      modifies this
      ensures selectedIndexes == Sort(newSelection)
      ensures changed <==> Sort(newSelection) != old(selectedIndexes)
      ensures path == old(path) && info == old(info) && styles == old(styles) && events == old(events)
    {
      var sorted := Sort(newSelection);
      changed := sorted != selectedIndexes;
      selectedIndexes := sorted;
    }

    /** `has_selection`. */
    predicate HasSelection(): (r: bool)
      reads this
      ensures r <==> selectedIndexes != []
    {
      |selectedIndexes| > 0
    }

    /** `selected_events`: the events at the selected indexes, or `None`
        where Python's indexing would raise. */
    function SelectedEvents(): Option<seq<Event>>
      reads this
    {
      SelectedEventsOf(events, selectedIndexes)
    }

    /** The `remembered_video_path` getter. */
    function GetRememberedVideoPath(ops: PathOps): Option<string>
      reads this
    {
      RememberedVideoPath(info, path, ops)
    }

    /** The `remembered_video_path` setter. */
    method SetRememberedVideoPath(video: string)
      modifies this
      ensures info == RememberVideoPath(old(info), video)
      ensures path == old(path) && selectedIndexes == old(selectedIndexes)
      ensures styles == old(styles) && events == old(events)
    {
      info := RememberVideoPath(info, video);
    }

    /** `unload`: an empty script with the one style "Default" and no path. */
    method Unload()
      modifies this
      ensures path.None? && selectedIndexes == [] && info == [] && events == []
      ensures styles == [NewStyle("Default")]
    {
      path := None;
      var _ := SetSelectedIndexes([]);
      info := [];
      events := [];
      styles := [NewStyle("Default")];
    }

    /** `load_ass`: the reader fills the script (its result is `loaded`),
        the selection is cleared and the path is remembered. */
    method LoadAss(p: string, loaded: Document)
      requires p != ""
      modifies this
      ensures path == Some(p) && selectedIndexes == []
      ensures info == loaded.info && styles == loaded.styles && events == loaded.events
    {
      info, styles, events := loaded.info, loaded.styles, loaded.events;
      var _ := SetSelectedIndexes([]);
      path := Some(p);
    }

    /** `save_ass`: the path is remembered only when asked, before the
        script is written; `output` is what the writer produces. */
    method SaveAss(p: string, rememberPath: bool, h: AssWriter.Helpers)
      returns (output: Result<seq<string>, AssWriter.WriteError>)
      requires p != ""
      modifies this
      ensures path == if rememberPath then Some(p) else old(path)
      ensures selectedIndexes == old(selectedIndexes) && info == old(info)
      ensures styles == old(styles) && events == old(events)
      ensures output == AssWriter.WriteAss(Document(info, styles, events), h)
    {
      if rememberPath {
        path := Some(p);
      }
      output := AssWriter.WriteAss(Document(info, styles, events), h);
    }

    /** `_on_items_removed`: `count` events at `idx` are gone; the loop
        takes the removed indexes from the highest down, each time dropping
        it from the selection and shifting the indexes above it. */
    method OnItemsRemoved(idx: int, count: int) returns (changed: bool)
      modifies this
      ensures count > 0 ==> selectedIndexes == Adjust(Sort(old(selectedIndexes)), idx, count)
      ensures count <= 0 ==> selectedIndexes == Sort(old(selectedIndexes))
      ensures changed <==> selectedIndexes != old(selectedIndexes)
      ensures path == old(path) && info == old(info) && styles == old(styles) && events == old(events)
    {
      var start := Sort(selectedIndexes);
      var newIndexes := start;
      if count > 0 {
        var i := idx + count;
        AdjustNothing(start, i);
        while i > idx
          invariant idx <= i <= idx + count
          invariant newIndexes == Adjust(start, i, idx + count - i)
          modifies {}
          decreases i - idx
        {
          AdjustStep(start, i, idx + count - i);
          i := i - 1;
          newIndexes := RemoveOne(newIndexes, i);
        }
        assert Sort(newIndexes) == newIndexes by {
          SortSpec(selectedIndexes);
          AdjustSorted(start, idx, count);
          SortCharacterised(newIndexes, newIndexes);
        }
      } else {
        assert Sort(newIndexes) == newIndexes by {
          SortSpec(selectedIndexes);
          SortCharacterised(newIndexes, newIndexes);
        }
      }
      changed := SetSelectedIndexes(newIndexes);
    }
  }
}
