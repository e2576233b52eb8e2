/** The video band under the audio view: a worker that decodes one thin
    column of pixels per video frame, keeps the columns in an in-memory cache
    backed by a persistent one, and the drawing routine that fills each
    horizontal pixel of the band from that cache. */
module VideoPreview {
  import opened Wrappers

  /** Rows of a band column (`_BAND_Y_RESOLUTION`). */
  const BAND_Y_RESOLUTION: nat := 30

  /** A column: BAND_Y_RESOLUTION rows of three colour bytes. */
  type Column = seq<seq<int>>

  predicate IsColumn(c: Column) {
    |c| == BAND_Y_RESOLUTION && forall r :: 0 <= r < |c| ==> |c[r]| == 3
  }

  /** `reshape(_BAND_Y_RESOLUTION, 3)` of the decoder's 1-pixel-wide frame. */
  function Reshape(flat: seq<int>): (c: Column)
    requires |flat| == 3 * BAND_Y_RESOLUTION
    ensures IsColumn(c)
    ensures forall r, k :: 0 <= r < BAND_Y_RESOLUTION && 0 <= k < 3 ==> c[r][k] == flat[3 * r + k]
  {
    seq(BAND_Y_RESOLUTION, r requires 0 <= r < BAND_Y_RESOLUTION => flat[3 * r..3 * r + 3])
  }

  /** An all-zero column, what the band shows left of the first cached frame. */
  function ZeroColumn(): (c: Column)
    ensures IsColumn(c)
  {
    seq(BAND_Y_RESOLUTION, r => [0, 0, 0])
  }

  /** The persistent cache: cache name to the saved index-to-column map. */
  type Disk = map<string, map<int, Column>>

  /** `_cache_name`: none without a media path, otherwise the sanitised path
      with "-video-band" appended. */
  function CacheName(mediaPath: Option<string>, sanitize: string -> string): (name: Option<string>)
    ensures name.Some? <==> mediaPath.Some?
    ensures name.Some? ==> |name.value| >= 11 && name.value[|name.value| - 11..] == "-video-band"
  {
    if mediaPath.None? then None else Some(sanitize(mediaPath.value) + "-video-band")
  }

  /** `_save_to_cache`: stores the cache under its name; nothing without a name. */
  function SaveToCache(disk: Disk, name: Option<string>, cache: map<int, Column>): (d: Disk)
    ensures name.None? ==> d == disk
    ensures name.Some? ==> name.value in d && d[name.value] == cache
    ensures forall k :: k in disk && (name.None? || k != name.value) ==> k in d && d[k] == disk[k]
  {
    if name.None? then disk else disk[name.value := cache]
  }

  /** `_load_from_cache`: the saved map, or an empty one when there is none. */
  function LoadFromCache(disk: Disk, name: Option<string>): (cache: map<int, Column>)
    ensures name.Some? && name.value in disk ==> cache == disk[name.value]
    ensures name.None? || name.value !in disk ==> cache == map[]
  {
    if name.Some? && name.value in disk then disk[name.value] else map[]
  }

  /** Saving and loading under the same name gives the cache back. */
  lemma SaveLoadRoundTrip(disk: Disk, name: Option<string>, cache: map<int, Column>)
    requires name.Some?
    ensures LoadFromCache(SaveToCache(disk, name, cache), name) == cache
  {
  }

  /** The frame indices below `n` that are not cache keys, ascending: what
      `_on_video_parse` enqueues. */
  function Missing(cache: map<int, Column>, n: nat): seq<Option<int>>
  {
    if n == 0 then []
    else Missing(cache, n - 1) + (if n - 1 in cache then [] else [Some(n - 1)])
  }

  /** Every enqueued entry is an uncached index below `n`, never a
      sentinel, and they come in strictly ascending order (so each once). */
  lemma {:induction false} MissingSound(cache: map<int, Column>, n: nat)
    ensures var q := Missing(cache, n);
      && |q| <= n
      && (forall k :: 0 <= k < |q| ==> q[k].Some? && 0 <= q[k].value < n && q[k].value !in cache)
      && (forall j, k :: 0 <= j < k < |q| ==> q[j].value < q[k].value)
  {
    if n > 0 {
      MissingSound(cache, n - 1);
    }
  }

  /** Every uncached index below `n` is enqueued. */
  lemma {:induction false} MissingComplete(cache: map<int, Column>, n: nat)
    ensures forall i :: 0 <= i < n && i !in cache ==> Some(i) in Missing(cache, n)
  {
    if n > 0 {
      MissingComplete(cache, n - 1);
      var p, q := Missing(cache, n - 1), Missing(cache, n);
      if n - 1 !in cache {
        assert q == p + [Some(n - 1)];
        assert q[|p|] == Some(n - 1);
      }
    }
  }

  /** Parsing is not idempotent: a second `_on_video_parse` before the
      worker has taken anything from the queue enqueues every uncached
      index once more, so it stands in the queue twice and its frame is
      read twice. */
  lemma ParseTwiceDuplicates(cache: map<int, Column>, n: nat, i: int)
    requires 0 <= i < n && i !in cache
    ensures multiset(Missing(cache, n) + Missing(cache, n))[Some(i)] == 2
  {
    var q := Missing(cache, n);
    var k: int;
    assert Some(i) in q by {
      MissingComplete(cache, n);
    }
    k :| 0 <= k < |q| && q[k] == Some(i);
    assert forall j :: 0 <= j < |q| && j != k ==> q[j] != Some(i) by {
      MissingSound(cache, n);
    }
    OnceOnly(q, k);
    assert multiset(q + q) == multiset(q) + multiset(q);
  }

  /** An element found at `k` and nowhere else occurs once. */
  lemma {:induction false} OnceOnly<T>(q: seq<T>, k: nat)
    requires k < |q| && forall j :: 0 <= j < |q| && j != k ==> q[j] != q[k]
    ensures multiset(q)[q[k]] == 1
  {
    assert q == q[..k] + [q[k]] + q[k + 1..];
    assert q[k] !in q[..k] && q[k] !in q[k + 1..];
  }

  /** What one iteration of the worker's run loop did. */
  datatype StepOutcome =
    | Stopped            // `_running` is false: the loop is over
    | Waiting            // the queue is being cleared: the iteration does nothing
    | Blocked            // the queue is empty: `get()` waits
    | Sentinel           // `None` was dequeued: the loop breaks
    | Processed(index: int)

  class VideoBandWorker {
    /** The FIFO queue: frame indices, or `None` to end the run loop. */
    var queue: seq<Option<int>>
    var running: bool
    var clearing: bool
    var anythingToSave: bool
    /** The in-memory cache: frame index to column. */
    var cache: map<int, Column>
    /** The persistent cache that `_save_to_cache`/`_load_from_cache` use. */
    var disk: Disk

    constructor (disk0: Disk)
      ensures queue == [] && !running && !clearing && !anythingToSave && cache == map[] && disk == disk0
    {
      queue := [];
      running := false;
      clearing := false;
      anythingToSave := false;
      cache := map[];
      disk := disk0;
    }

    /** The start of `run`. */
    method Start()
      modifies this
      ensures running
      ensures queue == old(queue) && cache == old(cache) && disk == old(disk)
      ensures clearing == old(clearing) && anythingToSave == old(anythingToSave)
    {
      running := true;
    }

    /** One iteration of the `run` loop: takes the next index off the queue,
        decodes its column into the cache, marks the cache dirty, and saves
        it once the queue is drained; a `None` entry ends the loop. */
    method Step(name: Option<string>, getFrame: int -> seq<int>) returns (outcome: StepOutcome)
      requires forall i :: |getFrame(i)| == 3 * BAND_Y_RESOLUTION
      modifies this
      ensures running == old(running) && clearing == old(clearing)
      ensures !old(running) ==> outcome == Stopped
      ensures old(running) && old(clearing) ==> outcome == Waiting
      ensures old(running) && !old(clearing) && old(queue) == [] ==> outcome == Blocked
      ensures old(running) && !old(clearing) && old(queue) != [] && old(queue)[0].None? ==>
        outcome == Sentinel && queue == old(queue)[1..]
      ensures old(running) && !old(clearing) && old(queue) != [] && old(queue)[0].Some? ==>
        var i := old(queue)[0].value;
        && outcome == Processed(i)
        && queue == old(queue)[1..]
        && cache == old(cache)[i := Reshape(getFrame(i))]
        && anythingToSave
        && disk == if queue == [] then SaveToCache(old(disk), name, cache) else old(disk)
      ensures !outcome.Processed? && !outcome.Sentinel? ==> queue == old(queue)
      ensures !outcome.Processed? ==>
        cache == old(cache) && disk == old(disk) && anythingToSave == old(anythingToSave)
    {
      if !running {
        return Stopped;
      }
      if clearing {
        return Waiting;
      }
      if queue == [] {
        return Blocked;
      }
      var frameIdx := queue[0];
      queue := queue[1..];
      if frameIdx.None? {
        return Sentinel;
      }
      var i := frameIdx.value;
      cache := cache[i := Reshape(getFrame(i))];
      anythingToSave := true;
      if queue == [] {
        disk := SaveToCache(disk, name, cache);
      }
      outcome := Processed(i);
    }

    /** `_clear_queue`: drains the queue while `clearing` is raised. */
    method ClearQueue()
      modifies this
      ensures queue == [] && !clearing
      ensures running == old(running) && anythingToSave == old(anythingToSave)
      ensures cache == old(cache) && disk == old(disk)
    {
      clearing := true;
      while queue != []
        invariant clearing
        invariant running == old(running) && anythingToSave == old(anythingToSave)
        invariant cache == old(cache) && disk == old(disk)
        decreases |queue|
      {
        queue := queue[1..];
      }
      clearing := false;
    }

    /** `stop`: clears the queue and ends the run loop. */
    method Stop()
      modifies this
      ensures queue == [] && !clearing && !running
      ensures anythingToSave == old(anythingToSave) && cache == old(cache) && disk == old(disk)
    {
      ClearQueue();
      running := false;
    }

    /** The media was unloaded: a dirty cache is saved first, then the cache
        and the queue are emptied; the dirty flag stays as it was. */
    method OnUnloaded(name: Option<string>)
      modifies this
      ensures disk == if old(anythingToSave) then SaveToCache(old(disk), name, old(cache)) else old(disk)
      ensures cache == map[] && queue == [] && !clearing
      ensures anythingToSave == old(anythingToSave) && running == old(running)
    {
      if anythingToSave {
        disk := SaveToCache(disk, name, cache);
      }
      cache := map[];
      ClearQueue();
    }

    /** New media is loading: the queue is emptied, the dirty flag cleared,
        and the cache replaced by what the persistent cache holds for it. */
    method OnLoading(name: Option<string>)
      modifies this
      ensures queue == [] && !clearing && !anythingToSave
      ensures cache == LoadFromCache(old(disk), name)
      ensures disk == old(disk) && running == old(running)
    {
      ClearQueue();
      anythingToSave := false;
      cache := LoadFromCache(disk, name);
    }

    /** `_on_video_parse`: enqueues, in ascending order, every frame index
        below the number of timecodes that is not in the cache. */
    method OnParse(frameCount: nat)
      modifies this
      ensures queue == old(queue) + Missing(cache, frameCount)
      ensures cache == old(cache) && disk == old(disk)
      ensures running == old(running) && clearing == old(clearing) && anythingToSave == old(anythingToSave)
    {
      var i := 0;
      while i < frameCount
        invariant 0 <= i <= frameCount
        invariant queue == old(queue) + Missing(cache, i)
        invariant cache == old(cache) && disk == old(disk)
        invariant running == old(running) && clearing == old(clearing) && anythingToSave == old(anythingToSave)
      {
        if i !in cache {
          queue := queue + [Some(i)];
        }
        i := i + 1;
      }
    }
  }

  // ----- drawing the band -----

  /** The column drawn at horizontal position `x`: the cached column of its
      frame, or else the one drawn just left of it, or zeros at the left
      edge. */
  function BandColumn(cache: map<int, Column>, frameOf: nat -> int, x: nat): Column {
    if frameOf(x) in cache then cache[frameOf(x)]
    else if x == 0 then ZeroColumn()
    else BandColumn(cache, frameOf, x - 1)
  }

  /** Each drawn column is the column of its own frame when cached; else the
      column of the nearest position to its left whose frame is cached; else
      zeros when no position up to it has a cached frame. */
  lemma {:induction false} BandColumnCases(cache: map<int, Column>, frameOf: nat -> int, x: nat)
    ensures frameOf(x) in cache ==> BandColumn(cache, frameOf, x) == cache[frameOf(x)]
    ensures (forall y :: 0 <= y <= x ==> frameOf(y) !in cache) ==> BandColumn(cache, frameOf, x) == ZeroColumn()
    ensures forall y :: 0 <= y < x && frameOf(y) in cache && (forall z :: y < z <= x ==> frameOf(z) !in cache) ==>
              BandColumn(cache, frameOf, x) == cache[frameOf(y)]
  {
    if x > 0 {
      BandColumnCases(cache, frameOf, x - 1);
    }
  }

  /** The column carried into position `x`: that of the position before
      it, or zeros at the left edge. */
  function Carried(cache: map<int, Column>, frameOf: nat -> int, x: nat): Column {
    if x == 0 then ZeroColumn() else BandColumn(cache, frameOf, x - 1)
  }

  /** `_draw_video_band`: fills the band left to right, carrying the last
      cached column forward over positions whose frame is not cached. */
  method DrawVideoBand(pixels: array<Column>, cache: map<int, Column>, frameOf: nat -> int)
    modifies pixels
    ensures forall x {:trigger pixels[x]} :: 0 <= x < pixels.Length ==> pixels[x] == BandColumn(cache, frameOf, x)
  {
    var prevColumn := ZeroColumn();
    var x := 0;
    while x < pixels.Length
      invariant 0 <= x <= pixels.Length
      invariant forall y {:trigger pixels[y]} :: 0 <= y < x ==> pixels[y] == BandColumn(cache, frameOf, y)
      invariant prevColumn == Carried(cache, frameOf, x)
    {
      var frameIdx := frameOf(x);
      var column;
      if frameIdx !in cache {
        column := prevColumn;
      } else {
        column := cache[frameIdx];
      }
      assert column == BandColumn(cache, frameOf, x);
      prevColumn := column;
      pixels[x] := column;
      x := x + 1;
    }
  }
}
