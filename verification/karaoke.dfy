/** The karaoke commands: splitting a subtitle into one subtitle per
    karaoke syllable, and merging several subtitles into one with karaoke
    tags. The tag parser is a parameter; of its tokens only the ones the
    split tells apart are distinguished. */
module Karaoke {
  import opened Wrappers
  import opened Strings
  import Subs
  import FrameSnapping

  /** The tokens of the tag parser that the split distinguishes; any other
      token carries its own ASS text. */
  datatype Item = Karaoke(duration: int) | ListOpening | ListEnding | Other(text: string)

  predicate IsListTag(item: Item) {
    item.ListOpening? || item.ListEnding?
  }

  /** The tag parser's `parse_ass`, which may fail. */
  datatype TagParser = TagParser(parse: string -> Result<seq<Item>, string>)

  /** `compose_ass` of a chunk: the ASS texts of its tokens, one after the
      other. */
  function Compose(chunk: seq<Item>): string {
    if chunk == [] then ""
    else Compose(chunk[..|chunk| - 1]) + (if chunk[|chunk| - 1].Other? then chunk[|chunk| - 1].text else "")
  }

  datatype Syllable = Syllable(text: string, duration: int)

  // ----- syllables -----

  /** The `durations` and `chunks` lists after the items seen so far: a
      karaoke tag opens a new chunk with its duration, list tags are
      dropped, anything else goes into the last chunk. */
  function Chunks(items: seq<Item>): (r: (seq<int>, seq<seq<Item>>))
    ensures |r.0| == |r.1| >= 1
  {
    if items == [] then ([0], [[]])
    else
      var prev := Chunks(items[..|items| - 1]);
      var d, c := prev.0, prev.1;
      var item := items[|items| - 1];
      if item.Karaoke? then (d + [item.duration], c + [[]])
      else if IsListTag(item) then (d, c)
      else (d, c[..|c| - 1] + [c[|c| - 1] + [item]])
  }

  /** The durations of the karaoke tags, in order. */
  function KaraokeDurations(items: seq<Item>): seq<int> {
    if items == [] then []
    else KaraokeDurations(items[..|items| - 1]) + (if items[|items| - 1].Karaoke? then [items[|items| - 1].duration] else [])
  }

  /** The items that are neither karaoke nor list tags, in order. */
  function Texts(items: seq<Item>): seq<Item> {
    if items == [] then []
    else Texts(items[..|items| - 1]) + (if items[|items| - 1].Other? then [items[|items| - 1]] else [])
  }

  function Flatten(chunks: seq<seq<Item>>): seq<Item> {
    if chunks == [] then [] else Flatten(chunks[..|chunks| - 1]) + chunks[|chunks| - 1]
  }

  lemma FlattenSnoc(init: seq<seq<Item>>, y: seq<Item>)
    ensures Flatten(init + [y]) == Flatten(init) + y
  {
    var c := init + [y];
    assert c[..|c| - 1] == init && c[|c| - 1] == y;
  }

  /** Growing the last chunk by `x` grows the flattening by `x`. */
  lemma FlattenGrowLast(init: seq<seq<Item>>, last: seq<Item>, x: seq<Item>)
    ensures Flatten(init + [last + x]) == Flatten(init + [last]) + x
  {
    FlattenSnoc(init, last + x);
    FlattenSnoc(init, last);
    assert Flatten(init) + (last + x) == Flatten(init) + last + x;
  }

  /** The first duration is 0 and the others are the karaoke tags' in
      order; the chunks, read one after the other, are exactly the text
      items in order, so no chunk holds a karaoke or list tag. */
  lemma ChunksSpec(items: seq<Item>)
    ensures var (d, c) := Chunks(items);
      && d == [0] + KaraokeDurations(items)
      && Flatten(c) == Texts(items)
      && forall k, j :: 0 <= k < |c| && 0 <= j < |c[k]| ==> c[k][j].Other?
  {
    ChunksDurations(items);
    ChunksFlatten(items);
    ChunksOther(items);
  }

  lemma {:induction false} ChunksDurations(items: seq<Item>)
    ensures Chunks(items).0 == [0] + KaraokeDurations(items)
  {
    if items != [] {
      var init := items[..|items| - 1];
      ChunksDurations(init);
      var item := items[|items| - 1];
      if item.Karaoke? {
        assert [0] + KaraokeDurations(init) + [item.duration] == [0] + (KaraokeDurations(init) + [item.duration]);
      }
    }
  }

  lemma {:induction false} ChunksFlatten(items: seq<Item>)
    ensures Flatten(Chunks(items).1) == Texts(items)
  {
    if items != [] {
      var init := items[..|items| - 1];
      ChunksFlatten(init);
      var c := Chunks(init).1;
      var item := items[|items| - 1];
      if item.Karaoke? {
        FlattenSnoc(c, []);
        assert Flatten(c) + [] == Flatten(c);
      } else if !IsListTag(item) {
        FlattenGrowLast(c[..|c| - 1], c[|c| - 1], [item]);
        assert c[..|c| - 1] + [c[|c| - 1]] == c;
      }
    }
  }

  lemma {:induction false} ChunksOther(items: seq<Item>)
    ensures forall k, j :: 0 <= k < |Chunks(items).1| && 0 <= j < |Chunks(items).1[k]| ==> Chunks(items).1[k][j].Other?
  {
    if items != [] {
      var init := items[..|items| - 1];
      ChunksOther(init);
      var c := Chunks(init).1;
      var item := items[|items| - 1];
      if item.Karaoke? {
        var c': seq<seq<Item>> := c + [[]];
        forall k, j | 0 <= k < |c'| && 0 <= j < |c'[k]| ensures c'[k][j].Other? {
          assert c'[k] == c[k];
        }
      } else if !IsListTag(item) {
        var c': seq<seq<Item>> := c[..|c| - 1] + [c[|c| - 1] + [item]];
        forall k, j | 0 <= k < |c'| && 0 <= j < |c'[k]| ensures c'[k][j].Other? {
          if k < |c| - 1 {
            assert c'[k] == c[k];
          } else if j < |c[|c| - 1]| {
            assert c'[k][j] == c[|c| - 1][j];
          }
        }
      }
    }
  }

  /** The stripping loop: drops leading pairs of an empty chunk and a zero
      duration. */
  function StripLeading(d: seq<int>, c: seq<seq<Item>>): (r: (seq<int>, seq<seq<Item>>))
    requires |d| == |c|
    ensures |r.0| == |r.1|
  {
    if d != [] && c[0] == [] && d[0] == 0 then StripLeading(d[1..], c[1..]) else (d, c)
  }

  /** Stripping removes some leading pairs, each of an empty chunk and a
      zero duration, and stops at the first pair that is not such a pair;
      nothing after it is touched. */
  lemma {:induction false} StripLeadingSpec(d: seq<int>, c: seq<seq<Item>>)
    requires |d| == |c|
    ensures var (d', c') := StripLeading(d, c);
      var n := |d| - |d'|;
      && 0 <= n <= |d|
      && d' == d[n..] && c' == c[n..]
      && (forall k :: 0 <= k < n ==> c[k] == [] && d[k] == 0)
      && (n < |d| ==> !(c[n] == [] && d[n] == 0))
  {
    if d != [] && c[0] == [] && d[0] == 0 {
      StripLeadingSpec(d[1..], c[1..]);
      var (d', c') := StripLeading(d, c);
      var n := |d| - |d'|;
      assert d[1..][n - 1..] == d[n..] && c[1..][n - 1..] == c[n..];
      forall k | 0 <= k < n ensures c[k] == [] && d[k] == 0 {
        if k > 0 {
          assert c[k] == c[1..][k - 1] && d[k] == d[1..][k - 1];
        }
      }
      if n < |d| {
        assert c[n] == c[1..][n - 1] && d[n] == d[1..][n - 1];
      }
    }
  }

  /** One syllable per pair, in order: the composed chunk and its duration. */
  function Syllables(d: seq<int>, c: seq<seq<Item>>): (s: seq<Syllable>)
    requires |d| == |c|
    ensures |s| == |d|
  {
    if d == [] then []
    else Syllables(d[..|d| - 1], c[..|c| - 1]) + [Syllable(Compose(c[|c| - 1]), d[|d| - 1])]
  }

  /** Syllable `i` is chunk `i` composed, with duration `i`. */
  lemma {:induction false} SyllablesAt(d: seq<int>, c: seq<seq<Item>>)
    requires |d| == |c|
    ensures forall i :: 0 <= i < |d| ==> Syllables(d, c)[i] == Syllable(Compose(c[i]), d[i])
  {
    if d != [] {
      SyllablesAt(d[..|d| - 1], c[..|c| - 1]);
    }
  }

  /** What `_get_syllables` yields for a text, or the parse error. */
  function SyllablesOf(text: string, p: TagParser): Result<seq<Syllable>, string> {
    var parsed := p.parse(text);
    if parsed.Failure? then Failure(parsed.error)
    else
      var chunks := Chunks(parsed.value);
      var stripped := StripLeading(chunks.0, chunks.1);
      Success(Syllables(stripped.0, stripped.1))
  }

  /** `_get_syllables`: chunk the parsed items, strip the leading empty
      pairs, compose each chunk. */
  method GetSyllables(text: string, p: TagParser) returns (r: Result<seq<Syllable>, string>)
    ensures r == SyllablesOf(text, p)
  {
    var parsed := p.parse(text);
    if parsed.Failure? {
      return Failure(parsed.error);
    }
    var items := parsed.value;
    var chunks: seq<seq<Item>> := [[]];
    var durations: seq<int> := [0];
    for k := 0 to |items|
      invariant (durations, chunks) == Chunks(items[..k])
    {
      assert items[..k + 1][..k] == items[..k];
      var item := items[k];
      if item.Karaoke? {
        durations := durations + [item.duration];
        chunks := chunks + [[]];
      } else if !IsListTag(item) {
        chunks := chunks[..|chunks| - 1] + [chunks[|chunks| - 1] + [item]];
      }
    }
    assert items[..|items|] == items;
    ghost var all := (durations, chunks);
    while chunks != [] && durations != [] && chunks[0] == [] && durations[0] == 0
      invariant |durations| == |chunks|
      invariant StripLeading(durations, chunks) == StripLeading(all.0, all.1)
      decreases |chunks|
    {
      chunks := chunks[1..];
      durations := durations[1..];
    }
    var syllables: seq<Syllable> := [];
    for i := 0 to |durations|
      invariant syllables == Syllables(durations[..i], chunks[..i])
    {
      assert durations[..i + 1][..i] == durations[..i] && chunks[..i + 1][..i] == chunks[..i];
      syllables := syllables + [Syllable(Compose(chunks[i]), durations[i])];
    }
    assert StripLeading(durations, chunks) == (durations, chunks);
    assert durations[..|durations|] == durations && chunks[..|chunks|] == chunks;
    r := Success(syllables);
  }

  // ----- splitting -----

  /** A subtitle as the karaoke commands see it (`bubblesub.fmt.ass.event`,
      with whole-millisecond times); `copy` carries every field. */
  datatype Event = Event(
    start: int,
    end: int,
    text: string,
    note: string,
    layer: int,
    style: string,
    actor: string,
    effect: string,
    marginLeft: int,
    marginRight: int,
    marginVertical: int,
    isComment: bool)

  function Min(a: int, b: int): int {
    if a <= b then a else b
  }

  /** The pieces of `e` for the syllables, the first starting at `start`;
      only the first piece (`first`) keeps the note. */
  function Pieces(e: Event, syllables: seq<Syllable>, start: int, first: bool): (p: seq<Event>)
    ensures |p| == |syllables|
  {
    if syllables == [] then []
    else
      var end := Min(e.end, start + syllables[0].duration);
      [e.(start := start, end := end, text := syllables[0].text, note := if first then e.note else "")]
        + Pieces(e, syllables[1..], end, false)
  }

  function SplitEvent(e: Event, syllables: seq<Syllable>): seq<Event> {
    Pieces(e, syllables, e.start, true)
  }

  /** Each piece is a copy of the event with the syllable's text; each
      ends at its start plus the syllable's duration, but never after the
      event's end; each starts where the one before it ends. */
  lemma PiecesSpec(e: Event, syllables: seq<Syllable>, start: int, first: bool)
    ensures var p := Pieces(e, syllables, start, first);
      && (p != [] ==> p[0].start == start && p[0].note == (if first then e.note else ""))
      && (forall i :: 0 <= i < |p| ==>
            && p[i].end == Min(e.end, p[i].start + syllables[i].duration)
            && p[i].end <= e.end
            && p[i].text == syllables[i].text
            && (i > 0 ==> p[i].note == "")
            && p[i].(start := e.start, end := e.end, text := e.text, note := e.note) == e)
      && (forall i :: 0 <= i < |p| - 1 ==> p[i + 1].start == p[i].end)
  {
    PiecesFields(e, syllables, start, first);
    PiecesChained(e, syllables, start, first);
  }

  lemma {:induction false} PiecesFields(e: Event, syllables: seq<Syllable>, start: int, first: bool)
    ensures var p := Pieces(e, syllables, start, first);
      forall i :: 0 <= i < |p| ==>
        && p[i].end == Min(e.end, p[i].start + syllables[i].duration)
        && p[i].end <= e.end
        && p[i].text == syllables[i].text
        && (i > 0 ==> p[i].note == "")
        && p[i].(start := e.start, end := e.end, text := e.text, note := e.note) == e
  {
    if syllables != [] {
      var end := Min(e.end, start + syllables[0].duration);
      PiecesFields(e, syllables[1..], end, false);
      var p := Pieces(e, syllables, start, first);
      var rest := Pieces(e, syllables[1..], end, false);
      assert p == [p[0]] + rest;
      forall i | 1 <= i < |p| ensures p[i] == rest[i - 1] && syllables[i] == syllables[1..][i - 1] { }
    }
  }

  lemma {:induction false} PiecesChained(e: Event, syllables: seq<Syllable>, start: int, first: bool)
    ensures var p := Pieces(e, syllables, start, first);
      forall i :: 0 <= i < |p| - 1 ==> p[i + 1].start == p[i].end
  {
    if syllables != [] {
      var end := Min(e.end, start + syllables[0].duration);
      PiecesChained(e, syllables[1..], end, false);
      assert var q := Pieces(e, syllables[1..], end, false); forall j :: 0 <= j < |q| - 1 ==> q[j + 1].start == q[j].end;
      var p := Pieces(e, syllables, start, first);
      var rest := Pieces(e, syllables[1..], end, false);
      assert p == [p[0]] + rest;
      forall i | 0 <= i < |p| - 1 ensures p[i + 1].start == p[i].end {
        assert p[i + 1] == rest[i];
        if i > 0 {
          assert p[i] == rest[i - 1];
        } else {
          assert p[0].end == end && rest[0].start == end;
        }
      }
    }
  }

  /** With non-negative durations, the pieces stay inside the event and
      follow each other in time. */
  lemma {:induction false} PiecesBounded(e: Event, syllables: seq<Syllable>, start: int, first: bool)
    requires start <= e.end
    requires forall i :: 0 <= i < |syllables| ==> syllables[i].duration >= 0
    ensures forall i :: 0 <= i < |syllables| ==>
      start <= Pieces(e, syllables, start, first)[i].start <= Pieces(e, syllables, start, first)[i].end <= e.end
  {
    if syllables != [] {
      var end := Min(e.end, start + syllables[0].duration);
      PiecesBounded(e, syllables[1..], end, false);
      var p := Pieces(e, syllables, start, first);
      var rest := Pieces(e, syllables[1..], end, false);
      assert start <= end;
      forall i | 1 <= i < |p| ensures start <= p[i].start <= p[i].end <= e.end {
        var q := rest[i - 1];
        assert p[i] == q;
        assert end <= q.start <= q.end <= e.end;
      }
    }
  }

  /** The pieces of a split event start at its start; with non-negative
      durations they lie inside it. */
  lemma SplitEventSpec(e: Event, syllables: seq<Syllable>)
    ensures var p := SplitEvent(e, syllables);
      && |p| == |syllables|
      && (p != [] ==> p[0].start == e.start && p[0].note == e.note)
      && (forall i :: 0 <= i < |p| ==> p[i].end <= e.end && p[i].text == syllables[i].text)
      && (forall i :: 0 <= i < |p| - 1 ==> p[i + 1].start == p[i].end)
    ensures e.start <= e.end && (forall i :: 0 <= i < |syllables| ==> syllables[i].duration >= 0) ==>
      var p := SplitEvent(e, syllables);
      forall i :: 0 <= i < |p| ==> e.start <= p[i].start <= p[i].end <= e.end
  {
    PiecesSpec(e, syllables, e.start, true);
    if e.start <= e.end && (forall i :: 0 <= i < |syllables| ==> syllables[i].duration >= 0) {
      PiecesBounded(e, syllables, e.start, true);
    }
  }

  /** The inner loop of the split command. */
  method SplitPieces(e: Event, syllables: seq<Syllable>) returns (pieces: seq<Event>)
    ensures pieces == SplitEvent(e, syllables)
  {
    pieces := [];
    var start := e.start;
    for i := 0 to |syllables|
      invariant pieces + Pieces(e, syllables[i..], start, i == 0) == SplitEvent(e, syllables)
    {
      assert syllables[i..][1..] == syllables[i + 1..];
      var copy := e.(start := start, end := Min(e.end, start + syllables[i].duration), text := syllables[i].text);
      if i > 0 {
        copy := copy.(note := "");
      }
      start := copy.end;
      pieces := pieces + [copy];
    }
  }

  /** The split command only touches events whose text has a `\k` tag:
      a backslash followed by a `k`. */
  predicate HasKaraoke(text: string)
    decreases |text|
  {
    |text| >= 2 && ((text[0] == '\\' && text[1] == 'k') || HasKaraoke(text[1..]))
  }

  /** `HasKaraoke` is the substring test `"\\k" in text`. */
  lemma {:induction false} HasKaraokeContains(text: string)
    ensures HasKaraoke(text) <==> Contains(text, "\\k")
    decreases |text|
  {
    var pat := "\\k";
    if |text| >= 2 {
      assert pat <= text <==> text[0] == '\\' && text[1] == 'k';
      HasKaraokeContains(text[1..]);
    } else {
      assert !(pat <= text);
      if text != [] {
        assert !(pat <= text[1..]);
        assert !Contains(text[1..], pat);
      }
    }
  }

  /** A target event splits cleanly: it has no `\k` tag, or its text parses. */
  predicate SplitsCleanly(e: Event, p: TagParser) {
    !HasKaraoke(e.text) || p.parse(e.text).Success?
  }

  /** What an event becomes: its pieces when it is a target with a `\k`
      tag whose text parses, the event itself otherwise. */
  function Replacement(e: Event, isTarget: bool, p: TagParser): seq<Event> {
    if isTarget && HasKaraoke(e.text) && p.parse(e.text).Success? then
      SplitEvent(e, SyllablesOf(e.text, p).value)
    else [e]
  }

  /** What each event of the list becomes, in order. */
  function Replacements(events: seq<Event>, targets: seq<nat>, p: TagParser): (r: seq<seq<Event>>)
    ensures |r| == |events|
  {
    if events == [] then []
    else
      var n := |events| - 1;
      Replacements(events[..n], targets, p) + [Replacement(events[n], n in targets, p)]
  }

  /** List `i` is what event `i` becomes. */
  lemma {:induction false} ReplacementsAt(events: seq<Event>, targets: seq<nat>, p: TagParser, i: nat)
    requires i < |events|
    ensures Replacements(events, targets, p)[i] == Replacement(events[i], i in targets, p)
  {
    var n := |events| - 1;
    if i < n {
      ReplacementsAt(events[..n], targets, p, i);
    }
  }

  /** The first `n` lists, one after another. */
  function Joined(reps: seq<seq<Event>>, n: nat): seq<Event>
    requires n <= |reps|
  {
    if n == 0 then [] else Joined(reps, n - 1) + reps[n - 1]
  }

  /** Where every list between `lo` and `hi` holds just the event at its
      position, joining them adds those events unchanged. */
  lemma {:induction false} JoinedUntouched(reps: seq<seq<Event>>, events: seq<Event>, lo: nat, hi: nat)
    requires |reps| == |events| && lo <= hi <= |events|
    requires forall i :: lo <= i < hi ==> reps[i] == [events[i]]
    ensures Joined(reps, hi) == Joined(reps, lo) + events[lo..hi]
  {
    if hi > lo {
      JoinedUntouched(reps, events, lo, hi - 1);
      assert events[lo..hi] == events[lo..hi - 1] + [events[hi - 1]];
    }
  }

  /** The indexes the split selects: the positions of the pieces of every
      target that has a `\k` tag, in target order. */
  function SplitSelection(events: seq<Event>, targets: seq<nat>, p: TagParser, k: nat): seq<int>
    requires k <= |targets|
    requires forall j :: 0 <= j < |targets| ==> targets[j] < |events|
  {
    if k == 0 then []
    else
      var t, reps := targets[k - 1], Replacements(events, targets, p);
      SplitSelection(events, targets, p, k - 1)
        + if HasKaraoke(events[t].text) then Range(|Joined(reps, t)|, |Joined(reps, t + 1)|) else []
  }

  /** Ascending targets leave no target between one and the next. */
  lemma GapFree(targets: seq<nat>, k: nat, pos: nat)
    requires forall i, j :: 0 <= i < j < |targets| ==> targets[i] < targets[j]
    requires k < |targets|
    requires k > 0 ==> pos == targets[k - 1] + 1
    requires k == 0 ==> pos == 0
    ensures forall i :: pos <= i < targets[k] ==> i !in targets
  {
    forall m | 0 <= m < |targets| ensures targets[m] < pos || targets[m] >= targets[k] {
      if m < k - 1 {
        assert targets[m] < targets[k - 1];
      } else if m > k {
        assert targets[k] < targets[m];
      }
    }
  }

  /** Past the last target there is no target. */
  lemma PastTargets(targets: seq<nat>, pos: nat)
    requires forall i, j :: 0 <= i < j < |targets| ==> targets[i] < targets[j]
    requires targets != [] && pos == targets[|targets| - 1] + 1
    ensures forall i :: pos <= i ==> i !in targets
  {
    forall m | 0 <= m < |targets| ensures targets[m] < pos {
      if m < |targets| - 1 {
        assert targets[m] < targets[|targets| - 1];
      }
    }
  }

  /** Past the last target every event stays as it is, so the list is
      complete. */
  lemma TailInPlace(orig: seq<Event>, reps: seq<seq<Event>>, targets: seq<nat>, p: TagParser, pos: nat)
    requires ValidTargets(orig, targets) && targets != [] && pos == targets[|targets| - 1] + 1
    requires reps == Replacements(orig, targets, p)
    ensures Joined(reps, pos) + orig[pos..] == Joined(reps, |orig|)
  {
    PastTargets(targets, pos);
    forall i | pos <= i < |orig|
      ensures reps[i] == [orig[i]]
    {
      ReplacementsAt(orig, targets, p, i);
    }
    JoinedUntouched(reps, orig, pos, |orig|);
    assert orig[pos..] == orig[pos..|orig|];
  }

  /** Replacing the element at position |a| of a + [x] + rest, by removing
      it and inserting `rep` where it was. */
  lemma Splice<T>(a: seq<T>, x: T, rest: seq<T>, rep: seq<T>)
    ensures var c := a + [x] + rest;
      var removed := c[..|a|] + c[|a| + 1..];
      removed[..|a|] + rep + removed[|a|..] == a + rep + rest
  {
    var c := a + [x] + rest;
    assert c[..|a|] == a;
    assert c[|a| + 1..] == rest;
  }

  function Range(lo: int, hi: int): (r: seq<int>)
    ensures |r| == if lo <= hi then hi - lo else 0
    ensures forall j :: 0 <= j < |r| ==> r[j] == lo + j
    decreases hi - lo
  {
    if lo >= hi then [] else [lo] + Range(lo + 1, hi)
  }

  /** Targets as the selection yields them: valid positions, ascending. */
  predicate ValidTargets(events: seq<Event>, targets: seq<nat>) {
    && (forall j :: 0 <= j < |targets| ==> targets[j] < |events|)
    && (forall i, j :: 0 <= i < j < |targets| ==> targets[i] < targets[j])
  }

  datatype CommandFailure = CommandUnavailable(message: string) | CommandError(message: string)

  /** The subtitle list and the selection the commands work on. */
  class Subtitles {
    var events: seq<Event>
    var selectedIndexes: seq<int>

    constructor (events0: seq<Event>)
      ensures events == events0 && selectedIndexes == []
    {
      events := events0;
      selectedIndexes := [];
    }
  }

  /** The split after some of its passes: the list as it stands, the
      positions of the pieces made so far, how far the events after the
      last target handled have moved, the parse error that stopped it, if
      any, and the positions from which an event was removed, pass by
      pass (each removal is reported to the selection hook). */
  datatype SplitState = SplitState(events: seq<Event>, selection: seq<int>, shift: int, error: Option<string>,
                                   removed: seq<int>)

  /** The selection after the removal hook has seen one event go at each
      of `removed` in turn: each time it is sorted and re-indexed as
      `_on_items_removed` does. */
  function AfterRemovals(sel: seq<int>, removed: seq<int>): seq<int> {
    if removed == [] then sel
    else Subs.Adjust(Subs.Sort(AfterRemovals(sel, removed[..|removed| - 1])), removed[|removed| - 1], 1)
  }

  /** One more removal is one more run of the hook. */
  lemma AfterRemovalsSnoc(sel: seq<int>, removed: seq<int>, x: int)
    ensures AfterRemovals(sel, removed + [x]) == Subs.Adjust(Subs.Sort(AfterRemovals(sel, removed)), x, 1)
  {
    assert (removed + [x])[..|removed|] == removed;
  }

  /** A pass removes at most the event at its target's position. */
  lemma SplitStepRemoves(s: SplitState, t: nat, p: TagParser)
    ensures SplitStep(s, t, p).removed == s.removed || SplitStep(s, t, p).removed == s.removed + [t + s.shift]
  {
  }

  /** After a pass, the hook has left the selection as before when nothing
      was removed, and has run once more at the target's position when the
      target was removed. */
  lemma AfterRemovalsStep(sel: seq<int>, s: SplitState, t: nat, p: TagParser)
    ensures var r := SplitStep(s, t, p).removed;
      AfterRemovals(sel, r) == if r == s.removed then AfterRemovals(sel, s.removed)
                               else Subs.Adjust(Subs.Sort(AfterRemovals(sel, s.removed)), t + s.shift, 1)
  {
    SplitStepRemoves(s, t, p);
    AfterRemovalsSnoc(sel, s.removed, t + s.shift);
  }

  /** Once the hook has run, the selection is sorted. */
  lemma {:induction false} AfterRemovalsSorted(sel: seq<int>, removed: seq<int>)
    requires removed != []
    ensures FrameSnapping.Sorted(AfterRemovals(sel, removed))
  {
    var prev := AfterRemovals(sel, removed[..|removed| - 1]);
    Subs.SortSpec(prev);
    Subs.AdjustSorted(Subs.Sort(prev), removed[|removed| - 1], 1);
  }

  /** One pass of the split loop, for the target at position `t` of the
      original list, now at `t + shift`: a target without a `\k` tag is
      kept; otherwise it is removed and its pieces are inserted where it
      stood, or the parse error stops the split. (The position is never
      out of range for valid targets; see `SplitRunInPlace`.) */
  function SplitStep(s: SplitState, t: nat, p: TagParser): SplitState {
    var idx := t + s.shift;
    if s.error.Some? || !(0 <= idx < |s.events|) || !HasKaraoke(s.events[idx].text) then s
    else
      var sub := s.events[idx];
      var syllables := SyllablesOf(sub.text, p);
      if syllables.Failure? then s.(error := Some(syllables.error))
      else
        var pieces := SplitEvent(sub, syllables.value);
        SplitState(s.events[..idx] + pieces + s.events[idx + 1..],
                   s.selection + Range(idx, idx + |pieces|), s.shift + |pieces| - 1, None, s.removed + [idx])
  }

  /** The split after its first `k` passes. */
  function SplitRun(orig: seq<Event>, targets: seq<nat>, p: TagParser, k: nat): SplitState
    requires k <= |targets|
  {
    if k == 0 then SplitState(orig, [], 0, None, [])
    else SplitStep(SplitRun(orig, targets, p, k - 1), targets[k - 1], p)
  }

  /** Where the untouched part of the original list begins after `k`
      passes: just past the last target handled. */
  function SplitPos(targets: seq<nat>, k: nat): nat
    requires k <= |targets|
  {
    if k == 0 then 0 else targets[k - 1] + 1
  }

  /** The state of the split after `k` passes, while no error has
      stopped it: the replacements of everything before `pos`, then the
      original list from `pos` on; `shift` is how much longer the first
      part has become; the selection holds the pieces made so far. */
  predicate InPlace(s: SplitState, orig: seq<Event>, targets: seq<nat>, p: TagParser, k: nat)
    requires ValidTargets(orig, targets) && k <= |targets|
  {
    var reps, pos := Replacements(orig, targets, p), SplitPos(targets, k);
    && pos <= |orig|
    && s.events == Joined(reps, pos) + orig[pos..]
    && |Joined(reps, pos)| == pos + s.shift
    && s.selection == SplitSelection(orig, targets, p, k)
  }

  /** At the start of pass `k` of the split, the target stands after the
      replacements of everything before it, `shift` places from where it
      began. */
  lemma TargetInPlace(events: seq<Event>, orig: seq<Event>, reps: seq<seq<Event>>, targets: seq<nat>,
                      p: TagParser, k: nat, pos: nat, shift: int)
    requires ValidTargets(orig, targets) && k < |targets| && pos == SplitPos(targets, k)
    requires reps == Replacements(orig, targets, p)
    requires events == Joined(reps, pos) + orig[pos..]
    requires |Joined(reps, pos)| == pos + shift
    ensures var t := targets[k];
      && events == Joined(reps, t) + [orig[t]] + orig[t + 1..]
      && |Joined(reps, t)| == t + shift
  {
    var t := targets[k];
    if k > 0 {
      assert targets[k - 1] < targets[k];
    }
    GapFree(targets, k, pos);
    forall i | pos <= i < t
      ensures reps[i] == [orig[i]]
    {
      ReplacementsAt(orig, targets, p, i);
    }
    JoinedUntouched(reps, orig, pos, t);
    assert orig[pos..] == orig[pos..t] + [orig[t]] + orig[t + 1..];
  }

  /** The facts a pass starts from: the target stands, unchanged, after
      the replacements of everything before it. */
  predicate AtTarget(s0: SplitState, orig: seq<Event>, targets: seq<nat>, p: TagParser, k: nat)
    requires ValidTargets(orig, targets) && k < |targets|
  {
    var reps, t := Replacements(orig, targets, p), targets[k];
    && s0.error.None?
    && s0.events == Joined(reps, t) + [orig[t]] + orig[t + 1..]
    && |Joined(reps, t)| == t + s0.shift
    && s0.selection == SplitSelection(orig, targets, p, k)
  }

  /** A target without a `\k` tag stays as it is. */
  lemma KeptInPlace(s0: SplitState, orig: seq<Event>, targets: seq<nat>, p: TagParser, k: nat)
    requires ValidTargets(orig, targets) && k < |targets| && AtTarget(s0, orig, targets, p, k)
    requires !HasKaraoke(orig[targets[k]].text)
    ensures SplitStep(s0, targets[k], p) == s0
    ensures InPlace(s0, orig, targets, p, k + 1)
  {
    var reps, t := Replacements(orig, targets, p), targets[k];
    assert s0.events[t + s0.shift] == orig[t];
    ReplacementsAt(orig, targets, p, t);
    assert Joined(reps, t + 1) == Joined(reps, t) + [orig[t]];
  }

  /** A target whose text does not parse stops the split and leaves the
      list as it was. */
  lemma StoppedInPlace(s0: SplitState, orig: seq<Event>, targets: seq<nat>, p: TagParser, k: nat)
    requires ValidTargets(orig, targets) && k < |targets| && AtTarget(s0, orig, targets, p, k)
    requires HasKaraoke(orig[targets[k]].text) && p.parse(orig[targets[k]].text).Failure?
    ensures SplitStep(s0, targets[k], p).error.Some?
    ensures SplitStep(s0, targets[k], p).events
      == Joined(Replacements(orig, targets, p), targets[k]) + orig[targets[k]..]
  {
    var t := targets[k];
    assert s0.events[t + s0.shift] == orig[t];
    assert orig[t..] == [orig[t]] + orig[t + 1..];
  }

  /** A target with a `\k` tag whose text parses is replaced by its
      pieces, which join the selection. */
  lemma PiecesStep(s0: SplitState, orig: seq<Event>, targets: seq<nat>, p: TagParser, k: nat)
    requires ValidTargets(orig, targets) && k < |targets| && AtTarget(s0, orig, targets, p, k)
    requires HasKaraoke(orig[targets[k]].text) && p.parse(orig[targets[k]].text).Success?
    ensures var s, reps, t := SplitStep(s0, targets[k], p), Replacements(orig, targets, p), targets[k];
      && s.error.None?
      && s.events == Joined(reps, t + 1) + orig[t + 1..]
      && |Joined(reps, t + 1)| == t + 1 + s.shift
      && s.selection == s0.selection + Range(|Joined(reps, t)|, |Joined(reps, t + 1)|)
  {
    var reps, t := Replacements(orig, targets, p), targets[k];
    var before := Joined(reps, t);
    var idx := t + s0.shift;
    assert s0.events[idx] == orig[t];
    ReplacementsAt(orig, targets, p, t);
    var pieces := SplitEvent(orig[t], SyllablesOf(orig[t].text, p).value);
    assert s0.events[..idx] == before && s0.events[idx + 1..] == orig[t + 1..];
    assert Joined(reps, t + 1) == before + pieces;
  }

  /** After such a target the state is in place for the next pass. */
  lemma PiecesInPlace(s0: SplitState, orig: seq<Event>, targets: seq<nat>, p: TagParser, k: nat)
    requires ValidTargets(orig, targets) && k < |targets| && AtTarget(s0, orig, targets, p, k)
    requires HasKaraoke(orig[targets[k]].text) && p.parse(orig[targets[k]].text).Success?
    ensures SplitStep(s0, targets[k], p).error.None?
    ensures InPlace(SplitStep(s0, targets[k], p), orig, targets, p, k + 1)
  {
    PiecesStep(s0, orig, targets, p, k);
  }

  /** One pass keeps the state in place: the target is replaced by its
      replacement, or the pass stops at a target that does not split
      cleanly and leaves the list as it was. */
  lemma SplitStepInPlace(s0: SplitState, orig: seq<Event>, targets: seq<nat>, p: TagParser, k: nat, n: nat)
    requires ValidTargets(orig, targets) && k < |targets| && n == k + 1
    requires s0.error.None? && InPlace(s0, orig, targets, p, k)
    ensures var s := SplitStep(s0, targets[k], p);
      && (s.error.None? <==> SplitsCleanly(orig[targets[k]], p))
      && (s.error.None? ==> InPlace(s, orig, targets, p, n))
      && (s.error.Some? ==> s.events == Joined(Replacements(orig, targets, p), targets[k]) + orig[targets[k]..])
  {
    var t := targets[k];
    TargetInPlace(s0.events, orig, Replacements(orig, targets, p), targets, p, k, SplitPos(targets, k), s0.shift);
    if !HasKaraoke(orig[t].text) {
      KeptInPlace(s0, orig, targets, p, k);
    } else if p.parse(orig[t].text).Failure? {
      StoppedInPlace(s0, orig, targets, p, k);
    } else {
      PiecesInPlace(s0, orig, targets, p, k);
    }
  }

  /** The split stopped at the first target that does not split
      cleanly, one of the first `k`, with the targets before it already
      replaced. */
  predicate Stopped(s: SplitState, orig: seq<Event>, targets: seq<nat>, p: TagParser, k: nat)
    requires ValidTargets(orig, targets)
  {
    exists j: nat :: FirstUnclean(orig, targets, p, j) && j < k
      && s.events == Joined(Replacements(orig, targets, p), targets[j]) + orig[targets[j]..]
  }

  /** The first `k` targets split cleanly. */
  predicate CleanUpTo(orig: seq<Event>, targets: seq<nat>, p: TagParser, k: nat)
    requires ValidTargets(orig, targets) && k <= |targets|
  {
    forall j :: 0 <= j < k ==> SplitsCleanly(orig[targets[j]], p)
  }

  /** What holds after `k` passes: no error exactly when the first `k`
      targets split cleanly; then the state is in place, otherwise the
      split stopped. */
  predicate SplitInvariant(s: SplitState, orig: seq<Event>, targets: seq<nat>, p: TagParser, k: nat)
    requires ValidTargets(orig, targets) && k <= |targets|
  {
    && (s.error.None? <==> CleanUpTo(orig, targets, p, k))
    && (s.error.None? ==> InPlace(s, orig, targets, p, k))
    && (s.error.Some? ==> Stopped(s, orig, targets, p, k))
  }

  /** Every pass keeps the invariant. */
  lemma SplitStepKeeps(s0: SplitState, orig: seq<Event>, targets: seq<nat>, p: TagParser, k: nat, n: nat)
    requires ValidTargets(orig, targets) && k < |targets| && n == k + 1
    requires SplitInvariant(s0, orig, targets, p, k)
    ensures SplitInvariant(SplitStep(s0, targets[k], p), orig, targets, p, n)
  {
    var s := SplitStep(s0, targets[k], p);
    if s0.error.None? {
      SplitStepInPlace(s0, orig, targets, p, k, n);
      if s.error.Some? {
        assert FirstUnclean(orig, targets, p, k);
      }
    } else {
      assert s == s0;
      var j: nat :| FirstUnclean(orig, targets, p, j) && j < k
        && s.events == Joined(Replacements(orig, targets, p), targets[j]) + orig[targets[j]..];
      assert !SplitsCleanly(orig[targets[j]], p);
    }
  }

  /** Before the first pass the invariant holds. */
  lemma SplitRunStart(orig: seq<Event>, targets: seq<nat>, p: TagParser)
    requires ValidTargets(orig, targets)
    ensures SplitInvariant(SplitRun(orig, targets, p, 0), orig, targets, p, 0)
  {
    assert Joined(Replacements(orig, targets, p), 0) == [];
  }

  /** After `k` passes the invariant holds. */
  lemma {:induction false} SplitRunInPlace(orig: seq<Event>, targets: seq<nat>, p: TagParser, k: nat)
    requires ValidTargets(orig, targets) && k <= |targets|
    ensures SplitInvariant(SplitRun(orig, targets, p, k), orig, targets, p, k)
  {
    if k == 0 {
      SplitRunStart(orig, targets, p);
    } else {
      var prev := SplitRun(orig, targets, p, k - 1);
      SplitRunInPlace(orig, targets, p, k - 1);
      SplitStepKeeps(prev, orig, targets, p, k - 1, k);
      assert SplitRun(orig, targets, p, k) == SplitStep(prev, targets[k - 1], p);
    }
  }

  /** Target `j` is the first one that does not split cleanly. */
  predicate FirstUnclean(orig: seq<Event>, targets: seq<nat>, p: TagParser, j: nat)
    requires ValidTargets(orig, targets)
  {
    && j < |targets|
    && !SplitsCleanly(orig[targets[j]], p)
    && forall i :: 0 <= i < j ==> SplitsCleanly(orig[targets[i]], p)
  }

  /** Once an error has stopped the split, later passes change nothing. */
  lemma {:induction false} SplitRunStopped(orig: seq<Event>, targets: seq<nat>, p: TagParser, k: nat, n: nat)
    requires k <= n <= |targets|
    requires SplitRun(orig, targets, p, k).error.Some?
    ensures SplitRun(orig, targets, p, n) == SplitRun(orig, targets, p, k)
    decreases n - k
  {
    if k < n {
      SplitRunStopped(orig, targets, p, k, n - 1);
    }
  }

  /** The pass the loop is about to make finds the target, unchanged,
      at `target + shift`. */
  lemma SplitRunIndex(orig: seq<Event>, targets: seq<nat>, p: TagParser, k: nat)
    requires ValidTargets(orig, targets) && k < |targets|
    requires SplitRun(orig, targets, p, k).error.None?
    ensures var s := SplitRun(orig, targets, p, k);
      0 <= targets[k] + s.shift < |s.events| && s.events[targets[k] + s.shift] == orig[targets[k]]
  {
    var s := SplitRun(orig, targets, p, k);
    SplitRunInPlace(orig, targets, p, k);
    TargetInPlace(s.events, orig, Replacements(orig, targets, p), targets, p, k, SplitPos(targets, k), s.shift);
  }

  /** The whole split: it succeeds exactly when every target splits
      cleanly, and then the list is every event's replacement in order
      and the selection the positions of the pieces; otherwise the first
      target that does not split cleanly stopped it, with the targets
      before it already replaced. */
  lemma SplitRunResult(orig: seq<Event>, targets: seq<nat>, p: TagParser)
    requires ValidTargets(orig, targets) && targets != []
    ensures var s := SplitRun(orig, targets, p, |targets|);
      && (s.error.None? <==> forall k :: 0 <= k < |targets| ==> SplitsCleanly(orig[targets[k]], p))
      && (s.error.None? ==>
            s.events == Joined(Replacements(orig, targets, p), |orig|)
            && s.selection == SplitSelection(orig, targets, p, |targets|))
      && (s.error.Some? ==>
            exists k: nat :: FirstUnclean(orig, targets, p, k)
              && s.events == Joined(Replacements(orig, targets, p), targets[k]) + orig[targets[k]..])
  {
    var s := SplitRun(orig, targets, p, |targets|);
    SplitRunInPlace(orig, targets, p, |targets|);
    if s.error.None? {
      TailInPlace(orig, Replacements(orig, targets, p), targets, p, SplitPos(targets, |targets|));
    }
  }

  /** The body of the split loop for one target: `SplitStep`, with the
      target removed from the list and its pieces inserted in its place. */
  method SplitPass(s: SplitState, t: nat, p: TagParser) returns (next: SplitState)
    requires s.error.None? && 0 <= t + s.shift < |s.events|
    ensures next == SplitStep(s, t, p)
  {
    var idx := t + s.shift;
    var sub := s.events[idx];
    if !HasKaraoke(sub.text) {
      return s;
    }
    var syllables := GetSyllables(sub.text, p);
    if syllables.Failure? {
      return s.(error := Some(syllables.error));
    }
    var events := s.events[..idx] + s.events[idx + 1..];
    var pieces := SplitPieces(sub, syllables.value);
    assert events[..idx] == s.events[..idx] && events[idx..] == s.events[idx + 1..];
    events := events[..idx] + pieces + events[idx..];
    next := SplitState(events, s.selection + Range(idx, idx + |pieces|), s.shift + |pieces| - 1, None, s.removed + [idx]);
  }

  /** `sub-split-karaoke`: every target with a `\k` tag is replaced, where
      it stands, by its pieces, and the pieces become the selection. A
      parse error stops the command with the targets before it already
      split, and the selection as the removal hook left it after each of
      their removals. */
  method SplitKaraoke(subs: Subtitles, targets: seq<nat>, p: TagParser) returns (r: Result<(), CommandFailure>)
    requires ValidTargets(subs.events, targets)
    modifies subs
    ensures targets == [] ==> r == Failure(CommandUnavailable("nothing to split")) && subs.events == old(subs.events)
    ensures targets != [] ==>
      var s := SplitRun(old(subs.events), targets, p, |targets|);
      && subs.events == s.events
      && (r.Success? <==> s.error.None?)
      && (r.Success? ==> subs.selectedIndexes == Subs.Sort(s.selection))
      && (r.Failure? ==> r.error == CommandError(s.error.value))
    ensures targets == [] ==> subs.selectedIndexes == old(subs.selectedIndexes)
    ensures targets != [] && r.Failure? ==>
      subs.selectedIndexes == AfterRemovals(old(subs.selectedIndexes), SplitRun(old(subs.events), targets, p, |targets|).removed)
  {
    if targets == [] {
      return Failure(CommandUnavailable("nothing to split"));
    }
    var state, selection := SplitLoop(subs.events, subs.selectedIndexes, targets, p);
    subs.events := state.events;
    if state.error.Some? {
      subs.selectedIndexes := selection;
      return Failure(CommandError(state.error.value));
    }
    subs.selectedIndexes := Subs.Sort(state.selection);
    r := Success(());
  }

  /** The loop of `sub-split-karaoke` over the targets, stopping at the
      first parse error, with the selection the removal hook keeps up to
      date as it goes. */
  method SplitLoop(orig: seq<Event>, selected: seq<int>, targets: seq<nat>, p: TagParser)
    returns (state: SplitState, selection: seq<int>)
    requires ValidTargets(orig, targets)
    ensures state == SplitRun(orig, targets, p, |targets|)
    ensures selection == AfterRemovals(selected, state.removed)
  {
    state := SplitState(orig, [], 0, None, []);
    selection := selected;
    var k := 0;
    while k < |targets| && state.error.None?
      invariant 0 <= k <= |targets|
      invariant state == SplitRun(orig, targets, p, k)
      invariant selection == AfterRemovals(selected, state.removed)
    {
      state, selection := SplitTurn(orig, selected, targets, p, k, state, selection);
      k := k + 1;
    }
    if state.error.Some? {
      SplitRunStopped(orig, targets, p, k, |targets|);
    }
  }

  /** One turn of the split loop: the pass for target `k`, and the
      selection as the removal hook leaves it after that pass. */
  method SplitTurn(orig: seq<Event>, selected: seq<int>, targets: seq<nat>, p: TagParser, k: nat,
                   state: SplitState, selection: seq<int>)
    returns (next: SplitState, nextSelection: seq<int>)
    requires ValidTargets(orig, targets) && k < |targets|
    requires state == SplitRun(orig, targets, p, k) && state.error.None?
    requires selection == AfterRemovals(selected, state.removed)
    ensures next == SplitRun(orig, targets, p, k + 1)
    ensures nextSelection == AfterRemovals(selected, next.removed)
  {
    SplitRunIndex(orig, targets, p, k);
    next := SplitPass(state, targets[k], p);
    AfterRemovalsStep(selected, state, targets[k], p);
    nextSelection := selection;
    if next.removed != state.removed {
      nextSelection := Subs.Adjust(Subs.Sort(selection), targets[k] + state.shift, 1);
    }
  }

  // ----- merging -----

  /** `"%.01f" % (d / 10)` for a whole number `d`: the sign, the tens, a
      point and the last digit. */
  function FormatTenths(d: int): string {
    var a := if d < 0 then -d else d;
    (if d < 0 then "-" else "") + Digits(a / 10) + "." + [DigitChar(a % 10)]
  }

  /** The formatted value reads back as `d` tenths: a minus sign exactly
      when `d` is negative, a point before the last digit, and the digits
      around it give |d|. */
  lemma FormatTenthsValue(d: int)
    ensures var s := FormatTenths(d);
      var a := if d < 0 then -d else d;
      var sign := if d < 0 then 1 else 0;
      && |s| >= sign + 3
      && (s[0] == '-' <==> d < 0)
      && s[|s| - 2] == '.'
      && (forall k :: sign <= k < |s| - 2 ==> IsDigit(s[k]))
      && IsDigit(s[|s| - 1])
      && 10 * DecimalValue(s[sign..|s| - 2]) + DigitValue(s[|s| - 1]) == a
  {
    var a := if d < 0 then -d else d;
    var sign := if d < 0 then 1 else 0;
    var s := FormatTenths(d);
    var whole := Digits(a / 10);
    assert s[sign..|s| - 2] == whole;
    DigitsRoundTrip(a / 10);
    assert s[|s| - 1] == DigitChar(a % 10);
    if d >= 0 {
      assert IsDigit(s[0]);
    }
  }

  /** The text of the events to merge, each preceded by a `\k` tag with its
      duration in hundredths of a second. */
  function KaraokeText(subs: seq<Event>): string {
    if subs == [] then ""
    else KaraokeText(subs[..|subs| - 1]) + KTag(subs[|subs| - 1]) + subs[|subs| - 1].text
  }

  function KTag(e: Event): string {
    "{\\k" + FormatTenths(e.end - e.start) + "}"
  }

  /** The tag the invisible variant puts before the event at offset `pos`
      from the first event's start. */
  function AlphaTag(pos: int): string {
    "{\\alpha&HFF&\\t(" + FormatInt(pos, 0) + "," + FormatInt(pos, 0) + ",\\alpha&H00&)}"
  }

  /** What the invisible variant puts after event `i`: the tag for the
      next event, or nothing after the last. */
  function Separator(subs: seq<Event>, i: nat): string
    requires i < |subs|
  {
    if i != |subs| - 1 then AlphaTag(subs[i + 1].start - subs[0].start) else ""
  }

  /** The invisible variant's text for the first `n` events. */
  function InvisibleText(subs: seq<Event>, n: nat): string
    requires n <= |subs|
  {
    if n == 0 then "" else InvisibleText(subs, n - 1) + subs[n - 1].text + Separator(subs, n - 1)
  }

  function Notes(subs: seq<Event>): string {
    if subs == [] then "" else Notes(subs[..|subs| - 1]) + subs[|subs| - 1].note
  }

  function Pick(events: seq<Event>, targets: seq<nat>): (r: seq<Event>)
    requires forall j :: 0 <= j < |targets| ==> targets[j] < |events|
    ensures |r| == |targets| && forall j :: 0 <= j < |targets| ==> r[j] == events[targets[j]]
  {
    seq(|targets|, j requires 0 <= j < |targets| => events[targets[j]])
  }

  /** Ascending distinct targets span at least as many positions as they number. */
  lemma {:induction false} TargetsSpan(events: seq<Event>, targets: seq<nat>, k: nat)
    requires ValidTargets(events, targets) && k < |targets|
    ensures targets[0] + k <= targets[k]
  {
    if k > 0 {
      TargetsSpan(events, targets, k - 1);
      assert targets[k - 1] < targets[k];
    }
  }

  /** The loop of the invisible variant. */
  method InvisibleMergeText(picked: seq<Event>) returns (text: string)
    ensures text == InvisibleText(picked, |picked|)
  {
    text := "";
    for i := 0 to |picked|
      invariant text == InvisibleText(picked, i)
    {
      text := text + picked[i].text + Separator(picked, i);
    }
  }

  /** The merged text of either variant. */
  method MergeText(picked: seq<Event>, invisible: bool) returns (text: string)
    ensures text == if invisible then InvisibleText(picked, |picked|) else KaraokeText(picked)
  {
    if invisible {
      text := InvisibleMergeText(picked);
    } else {
      text := KaraokeText(picked);
    }
  }

  /** The first target with the merged text, all the notes and the last
      target's end. */
  function MergedEvent(events: seq<Event>, targets: seq<nat>, invisible: bool): Event
    requires ValidTargets(events, targets) && targets != []
  {
    var picked, n := Pick(events, targets), |targets|;
    events[targets[0]].(text := if invisible then InvisibleText(picked, n) else KaraokeText(picked),
                        note := Notes(picked), end := picked[n - 1].end)
  }

  /** The list after the merge: the merged event written over the first
      target, and the events that follow it, as many as there are other
      targets, removed by position. */
  method MergedList(events: seq<Event>, targets: seq<nat>, invisible: bool) returns (remaining: seq<Event>)
    requires ValidTargets(events, targets) && targets != []
    ensures var t0, n := targets[0], |targets|;
      && t0 + n <= |events|
      && remaining == events[..t0] + [MergedEvent(events, targets, invisible)] + events[t0 + n..]
  {
    var merged := MergeFirst(events, targets, invisible);
    var t0, n := targets[0], |targets|;
    MergeShape(events, targets, merged);
    var updated := events[t0 := merged];
    remaining := updated[..t0 + 1] + updated[t0 + 1 + (n - 1)..];
  }

  /** The first target as the merge leaves it: the merged text, the notes
      of all targets in order, and the last target's end. */
  method MergeFirst(events: seq<Event>, targets: seq<nat>, invisible: bool) returns (merged: Event)
    requires ValidTargets(events, targets) && targets != []
    ensures merged == MergedEvent(events, targets, invisible)
  {
    var picked := Pick(events, targets);
    var text := MergeText(picked, invisible);
    merged := picked[0].(text := text, note := Notes(picked), end := picked[|targets| - 1].end);
    MergedEventIs(events, targets, invisible, text);
  }

  /** The first picked event with the merged text, all the notes and the
      last picked end is the merged event. */
  lemma MergedEventIs(events: seq<Event>, targets: seq<nat>, invisible: bool, text: string)
    requires ValidTargets(events, targets) && targets != []
    requires text == if invisible then InvisibleText(Pick(events, targets), |targets|) else KaraokeText(Pick(events, targets))
    ensures var picked := Pick(events, targets);
      picked[0].(text := text, note := Notes(picked), end := picked[|targets| - 1].end)
        == MergedEvent(events, targets, invisible)
  {
    assert Pick(events, targets)[0] == events[targets[0]];
  }

  /** `sub-merge-karaoke`: the first target takes the merged text, all the
      notes and the last target's end; the events that follow it, as many
      as there are other targets, are removed; the first target becomes
      the selection. */
  method MergeKaraoke(subs: Subtitles, targets: seq<nat>, invisible: bool) returns (r: Result<(), CommandFailure>)
    requires ValidTargets(subs.events, targets)
    modifies subs
    ensures targets == [] ==>
      r == Failure(CommandUnavailable("nothing to merge"))
      && subs.events == old(subs.events) && subs.selectedIndexes == old(subs.selectedIndexes)
    ensures targets != [] ==>
      var t0, n := targets[0], |targets|;
      && r.Success?
      && t0 + n <= |old(subs.events)|
      && subs.events == old(subs.events)[..t0] + [MergedEvent(old(subs.events), targets, invisible)]
        + old(subs.events)[t0 + n..]
      && subs.selectedIndexes == [t0]
  {
    if targets == [] {
      return Failure(CommandUnavailable("nothing to merge"));
    }
    var remaining := MergedList(subs.events, targets, invisible);
    SortSingle(targets[0]);
    subs.events := remaining;
    subs.selectedIndexes := Subs.Sort([targets[0]]);
    r := Success(());
  }

  /** Writing the merged event over the first target and removing the
      events after it, one fewer than the targets, leaves the events before
      the first target, the merged event, and the events from `t0 + n` on. */
  lemma MergeShape(events: seq<Event>, targets: seq<nat>, merged: Event)
    requires ValidTargets(events, targets) && targets != []
    ensures var t0, n := targets[0], |targets|;
      && t0 + n <= |events|
      && events[t0 := merged][..t0 + 1] + events[t0 := merged][t0 + 1 + (n - 1)..]
        == events[..t0] + [merged] + events[t0 + n..]
  {
    var t0, n := targets[0], |targets|;
    TargetsSpan(events, targets, n - 1);
    var updated := events[t0 := merged];
    assert updated[..t0 + 1] == events[..t0] + [merged];
    assert updated[t0 + 1 + (n - 1)..] == events[t0 + n..];
  }

  /** Setting a one-element selection keeps it as it is. */
  lemma SortSingle(x: int)
    ensures Subs.Sort([x]) == [x]
  {
    assert [x][1..] == [];
    assert Subs.Sort([]) == [];
    assert Subs.Insert(x, []) == [x];
  }

  /** When the targets are consecutive, the events removed by the merge are
      exactly the other targets; the merged event lasts from the first
      target's start to the last target's end. */
  lemma MergeContiguous(events: seq<Event>, targets: seq<nat>)
    requires ValidTargets(events, targets) && targets != []
    requires forall j :: 0 <= j < |targets| ==> targets[j] == targets[0] + j
    ensures var t0, n := targets[0], |targets|;
      && (forall i :: t0 < i < t0 + n <==> i in targets[1..])
      && t0 + n <= |events|
      && Pick(events, targets) == events[t0..t0 + n]
  {
    var t0, n := targets[0], |targets|;
    assert targets[n - 1] == t0 + n - 1;
    forall i | t0 < i < t0 + n ensures i in targets[1..] {
      assert targets[1..][i - t0 - 1] == i;
    }
  }
}
