/** The video API's timecode lifecycle: the background task that loads a
    video's frame timecodes and keyframes (from the persistent cache when it
    can, from the decoder otherwise), and the API object that forgets them
    when new media loads and accepts a loaded result only for the media
    that is current. */
module Video {
  import opened Wrappers
  import FrameSnapping

  /** The frame timecodes and keyframes of a video, in milliseconds. */
  datatype Tracks = Tracks(timecodes: seq<int>, keyframes: seq<int>)

  /** What the timecode task hands back: the path it worked on and the tracks. */
  datatype TimecodesResult = TimecodesResult(path: string, timecodes: seq<int>, keyframes: seq<int>)

  /** The persistent cache, by cache name. */
  type Store = map<string, Tracks>

  /** The collaborators of the task: the path digest, whether the file
      exists, and what the decoder reports for it. */
  datatype Env = Env(hashDigest: string -> string, fileExists: string -> bool, decode: string -> Tracks)

  /** `index-{hash}-video`. */
  function CacheName(path: string, env: Env): string {
    "index-" + env.hashDigest(path) + "-video"
  }

  /** Two paths share a cache entry exactly when their digests agree. */
  lemma CacheNameSeparates(p: string, q: string, env: Env)
    ensures CacheName(p, env) == CacheName(q, env) <==> env.hashDigest(p) == env.hashDigest(q)
  {
    var a, b := env.hashDigest(p), env.hashDigest(q);
    if CacheName(p, env) == CacheName(q, env) {
      assert |a| == |b|;
      assert a == CacheName(p, env)[6..6 + |a|];
      assert b == CacheName(q, env)[6..6 + |b|];
    }
  }

  /** `TimecodesWorker._do_work`: the result (None when the file is missing)
      and the persistent cache afterwards. */
  function DoWork(path: string, store: Store, env: Env): (Option<TimecodesResult>, Store) {
    var name := CacheName(path, env);
    if name in store then
      (Some(TimecodesResult(path, store[name].timecodes, store[name].keyframes)), store)
    else if !env.fileExists(path) then
      (None, store)
    else
      var t := env.decode(path);
      (Some(TimecodesResult(path, t.timecodes, t.keyframes)), store[name := t])
  }

  /** A cache hit returns the cached tracks and leaves the cache alone,
      whatever the file system and the decoder would say. */
  lemma DoWorkCacheHit(path: string, store: Store, env: Env, other: Env)
    requires CacheName(path, env) in store
    requires other.hashDigest == env.hashDigest
    ensures var t := store[CacheName(path, env)];
      DoWork(path, store, env) == (Some(TimecodesResult(path, t.timecodes, t.keyframes)), store)
    ensures DoWork(path, store, env) == DoWork(path, store, other)
  {
    assert CacheName(path, other) == CacheName(path, env);
  }

  /** On a miss, a missing file yields no result and no cache change;
      otherwise the decoder's tracks are returned and saved under the name. */
  lemma DoWorkCacheMiss(path: string, store: Store, env: Env)
    requires CacheName(path, env) !in store
    ensures !env.fileExists(path) ==> DoWork(path, store, env) == (None, store)
    ensures env.fileExists(path) ==>
      var t, r := env.decode(path), DoWork(path, store, env);
      && r.0 == Some(TimecodesResult(path, t.timecodes, t.keyframes))
      && r.1 == store[CacheName(path, env) := t]
      && r.1.Keys == store.Keys + {CacheName(path, env)}
  {
  }

  /** Every result echoes the path of its task, and the cache only grows:
      entries already there are never changed. */
  lemma DoWorkEchoesPath(path: string, store: Store, env: Env)
    ensures var r := DoWork(path, store, env);
      && (r.0.Some? ==> r.0.value.path == path)
      && store.Keys <= r.1.Keys
      && forall k :: k in store ==> r.1[k] == store[k]
  {
  }

  /** Once a task has loaded a file, the same task is a cache hit and gives
      the same result again, without touching the cache. */
  lemma DoWorkWarm(path: string, store: Store, env: Env)
    requires DoWork(path, store, env).0.Some?
    ensures var (r, s) := DoWork(path, store, env);
      && CacheName(path, env) in s
      && DoWork(path, s, env) == (r, s)
  {
  }

  /** What the media API says when it reports a load: whether media is
      loaded and its path. */
  datatype Media = Media(isLoaded: bool, path: Option<string>)

  class VideoApi {
    var timecodes: seq<int>
    var keyframes: seq<int>

    constructor ()
      ensures timecodes == [] && keyframes == []
    {
      timecodes := [];
      keyframes := [];
    }

    /** `_on_media_load`: forgets the tracks and returns the timecode task
        to schedule, which is the media's path, when media is loaded. */
    method OnMediaLoad(media: Media) returns (task: Option<Option<string>>)
      modifies this
      ensures timecodes == [] && keyframes == []
      ensures task == if media.isLoaded then Some(media.path) else None
    {
      timecodes := [];
      keyframes := [];
      task := if media.isLoaded then Some(media.path) else None;
    }

    /** `_got_timecodes`: takes a result only when it belongs to the media
        that is current, and then takes its tracks wholesale; `updated` says
        whether it did. */
    method GotTimecodes(result: Option<TimecodesResult>, mediaPath: Option<string>) returns (updated: bool)
      modifies this
      ensures updated <==> result.Some? && mediaPath == Some(result.value.path)
      ensures updated ==> timecodes == result.value.timecodes && keyframes == result.value.keyframes
      ensures !updated ==> timecodes == old(timecodes) && keyframes == old(keyframes)
    {
      updated := result.Some? && mediaPath == Some(result.value.path);
      if updated {
        timecodes := result.value.timecodes;
        keyframes := result.value.keyframes;
      }
    }

    /** `align_pts_to_next_frame`: a linear search for the first timecode
        that is not below `pts`. */
    method AlignPtsToNextFrame(pts: int) returns (r: int)
      ensures r == FrameSnapping.NextFrame(timecodes, pts)
    {
      var i := 0;
      while i < |timecodes|
        invariant 0 <= i <= |timecodes|
        invariant FrameSnapping.NextFrame(timecodes[i..], pts) == FrameSnapping.NextFrame(timecodes, pts)
      {
        assert timecodes[i..][1..] == timecodes[i + 1..];
        if timecodes[i] >= pts {
          return timecodes[i];
        }
        i := i + 1;
      }
      return pts;
    }
  }
}
