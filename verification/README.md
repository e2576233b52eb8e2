# bubblesub core, modelled in Dafny

This project models the core of bubblesub, an editor for Advanced
SubStation Alpha (ASS) subtitles, and proves properties of that model.
The parts modelled are:

- **The video band** (`VideoPreview`, video_preview.dfy).
  - `VideoBandWorker` is a class over its queue, its flags, its cache of
    one-pixel-wide frame columns and the persistent cache on disk.
  - `DrawVideoBand` fills the band's pixel array left to right. Where a
    frame is not cached, it carries the last cached column forward.
- **Video timecodes** (`Video`, video.dfy).
  - The timecode task either hits the persistent cache or decodes the
    file.
  - `VideoApi` keeps the timecodes and keyframes and snaps a timestamp to
    the next frame.
- **Frame snapping** (`FrameSnapping`, frame_snapping.dfy).
  - Next, previous and nearest frame, and the frame index of a timestamp.
  - Each is characterised in general and checked against the tables over
    the timecodes `[0, 10, 20]` in the repository's test suite.
- **The spectrogram column** (`Spectrogram`, spectrogram.dfy).
  - The window of samples and the normalisation of each sample format.
  - The post-processing of the transform's magnitudes into bytes.
- **The subtitles API** (`Subs`, subs.dfy).
  - The sorted selection and its re-indexing when events are removed.
  - The remembered video path, load, save and unload.
- **The karaoke commands** (`Karaoke`, karaoke.dfy).
  - The split replaces each subtitle holding `\k` tags by one subtitle per
    syllable.
  - The merge joins subtitles into one with `\k` (or alpha) tags.
- **The menu configuration** (`Menu`, menu.dfy).
  - The line loop that gathers each context's text.
  - The indentation-driven tree reader.
- **The ASS writer** (`AssWriter`, writer.dfy, over the document of
  ass.dfy).
  - Colours, timestamps, the info block, style lines and event lines.
  - The layout of the whole file.

`Strings` (strings.dfy) defines the Python string operations these modules
use, such as `split`, `join`, `strip`, `count` and `replace`. `Wrappers`
holds `Option` and `Result`.

State that the source mutates is modelled by classes:

- `VideoBandWorker`, `VideoApi`, `SubtitlesApi`, `MenuConfig`,
  `SpectrumProviderContext`, and the karaoke commands' `Subtitles`.
- The loops that change state step by step are methods, each proved
  equal to a specification function: the karaoke split, syllable and
  invisible-merge loops, the menu reader's line loop and tree reader,
  the selection re-indexing of `SubtitlesApi`, the frame snapping of
  `VideoApi`, the worker's queue handling, the band drawing and the
  spectrogram's buffer fill.
- The properties are then proved about those functions.

Other loops are modelled by what they produce:

- The ASS writer's loops (writer.py:46, 60, 99 and 135) print one line
  per item. They are functions that return the list of lines printed.
- The two loops over the menu contexts (menu.py:88 and 140) are a single
  map assignment in `MenuConfig.Clear` and one `AddSection` call per
  context in `MenuConfig.Loads`. Each context's list is independent of
  the others, so the order of the calls does not matter.
- The `\k` generator of the merge (karaoke.py:146-149) is the function
  `KaraokeText`.

Collaborators the sources call but do not define are parameters of the
model:

- the decoder, the tag parser, the path digest and the file-name
  sanitiser;
- the cache store and file-system path operations;
- `ms_to_times`, `escape_ass_tag` and Python's float formatting;
- the FFT.

Four places where the model follows the code rather than what a reader
might expect:

- **`_on_video_parse` does not look at the queue** (video_preview.py:95-99).
  A second parse notification before the worker has drained the queue
  enqueues every uncached index again, and its frame is decoded twice.
  `VideoPreview.ParseTwiceDuplicates` proves this.
- **The merge removes by position** (karaoke.py:156). It removes the
  `len(subs) - 1` events that follow the first target, whichever they
  are. Only for consecutive targets are those the other targets
  (`Karaoke.MergeContiguous`).
- **Menu depth is the number of spaces anywhere in a line**
  (menu.py:123). A command whose label holds a space is read one level
  deeper (`Menu.InnerSpacesDeepen`).
- **32-bit samples are divided by 2^32** (spectrogram.py:44-45).
  `SpectrumProviderContext.Work` normalises with `NormalizeAsWritten`.
  The corrected normalisation of "## Findings" (`Normalize`) is proved
  on its own and is not used by `Work`.

## Model

| member | source | states |
|---|---|---|
| VideoPreview.Reshape | bubblesub/ui/audio/video_preview.py:59-65 | A column has exactly 30 rows of 3 channels, taken row by row from the decoder's flat frame. |
| VideoPreview.ZeroColumn | bubblesub/ui/audio/video_preview.py:187 | The initial carried column is a well-formed column with every channel 0. |
| VideoPreview.CacheName | bubblesub/ui/audio/video_preview.py:111-115 | There is a name exactly when there is a media path, and the name then ends in "-video-band". |
| VideoPreview.SaveToCache | bubblesub/ui/audio/video_preview.py:121-124 | Without a name the disk is unchanged. With one, only that entry changes, and it holds the cache. |
| VideoPreview.LoadFromCache | bubblesub/ui/audio/video_preview.py:117-119 | The load gives the saved map when there is one under the name, and the empty map otherwise. |
| VideoPreview.SaveLoadRoundTrip | bubblesub/ui/audio/video_preview.py:117-124 | Saving a cache under a name and loading under the same name gives the same cache back. |
| VideoPreview.MissingSound | bubblesub/ui/audio/video_preview.py:95-99 | Every entry the parse enqueues is an uncached frame index below the frame count and never the `None` sentinel. The entries are strictly ascending. |
| VideoPreview.Missing | bubblesub/ui/audio/video_preview.py:95-99 | Specification of what `_on_video_parse` enqueues, with no contract of its own. `MissingSound` and `MissingComplete` prove it is exactly the uncached indexes below the frame count, ascending. |
| VideoPreview.MissingComplete | bubblesub/ui/audio/video_preview.py:95-99 | Every uncached frame index below the frame count is enqueued. |
| VideoPreview.ParseTwiceDuplicates | bubblesub/ui/audio/video_preview.py:95-99 | Two parses before the worker dequeues leave every uncached index in the queue exactly twice. |
| VideoPreview.VideoBandWorker.constructor | bubblesub/ui/audio/video_preview.py:38-45 | The worker starts with an empty queue and cache, not running, not clearing and with nothing to save. |
| VideoPreview.VideoBandWorker.Start | bubblesub/ui/audio/video_preview.py:50-51 | `run` sets the running flag and changes nothing else. |
| VideoPreview.VideoBandWorker.Step | bubblesub/ui/audio/video_preview.py:52-74 | One turn of the run loop, case by case. Stopped or clearing: nothing changes. An empty queue blocks. `None` dequeued: the loop ends. An index dequeued: its column goes into the cache, the cache is marked dirty, and it is saved exactly when the queue is left empty. |
| VideoPreview.VideoBandWorker.ClearQueue | bubblesub/ui/audio/video_preview.py:101-109 | The queue ends empty, the clearing flag is lowered again, and nothing else changes. |
| VideoPreview.VideoBandWorker.Stop | bubblesub/ui/audio/video_preview.py:76-78 | The queue is emptied and the run loop will stop. The cache, the disk and the dirty flag are kept. |
| VideoPreview.VideoBandWorker.OnUnloaded | bubblesub/ui/audio/video_preview.py:80-87 | A dirty cache is saved before the cache and the queue are emptied. A clean cache is not saved. The dirty flag is not reset. |
| VideoPreview.VideoBandWorker.OnLoading | bubblesub/ui/audio/video_preview.py:88-93 | The queue is emptied and the dirty flag cleared. The cache becomes what the disk holds for the new media. |
| VideoPreview.VideoBandWorker.OnParse | bubblesub/ui/audio/video_preview.py:95-99 | The queue grows by exactly the uncached indexes below the frame count, in ascending order. The cache and the flags are unchanged. |
| VideoPreview.BandColumnCases | bubblesub/ui/audio/video_preview.py:185-195 | A drawn column is one of three things. It is the frame's own column when that is cached. Otherwise it is the column of the nearest position to its left whose frame is cached. Otherwise it is zeros. |
| VideoPreview.BandColumn | bubblesub/ui/audio/video_preview.py:185-195 | Specification of the column drawn at one position, with no contract of its own. `BandColumnCases` states its three cases and `DrawVideoBand` is proved equal to it. |
| VideoPreview.DrawVideoBand | bubblesub/ui/audio/video_preview.py:185-195 | After the loop, every pixel column of the array is the band column of its position. |
| Video.CacheNameSeparates | bubblesub/api/media/video.py:63-64 | Two paths share a timecode cache entry exactly when their digests are equal. |
| Video.DoWorkCacheHit | bubblesub/api/media/video.py:66-68 | On a cache hit, the cached tracks are returned whatever the file system and the decoder say, and the cache is unchanged. |
| Video.DoWork | bubblesub/api/media/video.py:53-80 | Specification of `_do_work`, with no contract of its own. The result and the cache afterwards are characterised by `DoWorkCacheHit`, `DoWorkCacheMiss`, `DoWorkEchoesPath` and `DoWorkWarm`. |
| Video.DoWorkCacheMiss | bubblesub/api/media/video.py:69-80 | On a miss, a missing file gives `None` and no cache change. Otherwise the decoder's tracks are returned and saved under the cache name. |
| Video.DoWorkEchoesPath | bubblesub/api/media/video.py:53-80 | Every result carries the task's own path. Existing cache entries are never changed. |
| Video.DoWorkWarm | bubblesub/api/media/video.py:63-80 | After a successful run, the same task is a cache hit with the same result. |
| Video.VideoApi.constructor | bubblesub/api/media/video.py:104-105 | The API starts with no timecodes and no keyframes. |
| Video.VideoApi.OnMediaLoad | bubblesub/api/media/video.py:170-177 | Timecodes and keyframes are emptied. The media path is scheduled exactly when media is loaded. |
| Video.VideoApi.GotTimecodes | bubblesub/api/media/video.py:179-186 | A result is taken exactly when it is present and its path is the current media path. When taken, both lists are replaced by it; otherwise both are unchanged. |
| Video.VideoApi.AlignPtsToNextFrame | bubblesub/api/media/video.py:139-150 | The search loop returns `NextFrame` of the current timecodes. |
| FrameSnapping.NextFrameSpec | bubblesub/api/media/video.py:139-150 | The next frame is never below `pts`. It is the first timecode in list order that is not below `pts`, or `pts` when there is none. |
| FrameSnapping.NextFrame | bubblesub/api/media/video.py:139-150 | Specification of `align_pts_to_next_frame`, with no contract of its own. `NextFrameSpec`, `NextFrameSmallest` and `NextFrameTable` state its meaning. |
| FrameSnapping.NextFrameSmallest | bubblesub/api/media/video.py:139-150 | On ascending timecodes, the next frame is the smallest timecode not below `pts`. |
| FrameSnapping.PrevFrameLargest | bubblesub/tests/api/test_video_stream.py:54-78 | On ascending timecodes, the previous frame is the largest timecode not above `pts`, or `pts` when all are above it. |
| FrameSnapping.PrevFrame | bubblesub/tests/api/test_video_stream.py:54-78 | Specification of the previous frame, with no contract of its own. `PrevFrameLargest`, `PrevFrameAtIndex` and `PrevFrameTable` state its meaning. |
| FrameSnapping.NearIndex | bubblesub/tests/api/test_video_stream.py:108-136 | The index is valid and no timecode is strictly closer to `pts`. |
| FrameSnapping.NearFrameSpec | bubblesub/tests/api/test_video_stream.py:108-136 | The nearest frame is a timecode and no other is closer. On a tie the earlier one wins. Below the first frame it is the first frame; above the last frame, the last. |
| FrameSnapping.NearFrame | bubblesub/tests/api/test_video_stream.py:108-136 | Specification of the nearest frame, with no contract of its own. `NearFrameSpec` and `NearFrameTable` state its meaning. |
| FrameSnapping.LastAtMost | bubblesub/tests/api/test_video_stream.py:139-176 | The result is -1 or an index whose timecode is not above `pts`, and every later timecode is above `pts`. |
| FrameSnapping.FrameIdxSpec | bubblesub/tests/api/test_video_stream.py:139-176 | Without timecodes the index is -1. Otherwise it is a valid index: 0 before the first frame, and on ascending timecodes the frame whose interval holds `pts`. |
| FrameSnapping.FrameIdxFromPts | bubblesub/tests/api/test_video_stream.py:139-176 | Specification of the frame index of a timestamp, with no contract of its own. `FrameIdxSpec` and `FrameIdxTable` state its meaning. |
| FrameSnapping.PrevFrameAtIndex | bubblesub/tests/api/test_video_stream.py:54-78 | On ascending timecodes starting at or before `pts`, the previous frame is the timecode at the frame index. |
| FrameSnapping.PrevFrameTable | bubblesub/tests/api/test_video_stream.py:54-68 | Every row of the previous-frame table over [0, 10, 20] holds. |
| FrameSnapping.NextFrameTable | bubblesub/tests/api/test_video_stream.py:81-95 | Every row of the next-frame table over [0, 10, 20] holds. |
| FrameSnapping.NearIndexTC | bubblesub/tests/api/test_video_stream.py:108-126 | Over [0, 10, 20], the nearest index is 0 up to 5, 1 from 6 to 15, and 2 from 16. |
| FrameSnapping.NearFrameTable | bubblesub/tests/api/test_video_stream.py:108-126 | Every row of the nearest-frame table over [0, 10, 20] holds. |
| FrameSnapping.FrameIdxTable | bubblesub/tests/api/test_video_stream.py:139-157 | Every integer row of the frame-index table holds, for both the empty timecodes and [0, 10, 20]. |
| Spectrogram.Sizes | bubblesub/ui/spectrogram.py:22-25 | The window step is 64 samples, the input buffer holds 2048 samples and the output has 1025 bins. |
| Spectrogram.WindowStartAligned | bubblesub/ui/spectrogram.py:32-35 | The window starts at the multiple of 64 at or below the audio frame, at most 63 samples before it. |
| Spectrogram.SameWindow | bubblesub/ui/spectrogram.py:33-34 | Two audio frames share a window exactly when they agree after the right shift. |
| Spectrogram.NormalizeAsWritten | bubblesub/ui/spectrogram.py:40-47 | As written: the normalisation fails exactly for a format outside S16, S32, float and double. 16-bit samples are divided by 32768 and 32-bit samples by 4294967296, so each times that divisor gives the sample back. Float samples pass through. `Work` uses this version. |
| Spectrogram.S32AsWrittenHalfRange | bubblesub/ui/spectrogram.py:44-45 | As written, 32-bit samples land in [-0.5, 0.5), and the full-scale sample -2^31 gives -0.5 rather than -1. |
| Spectrogram.Normalize | bubblesub/ui/spectrogram.py:40-47 | The corrected normalisation fails exactly for a format outside S16, S32, float and double. Each normalised integer sample times its format's full scale (2^15 or 2^31) gives the sample back. Float samples pass through. |
| Spectrogram.NormalizeRange | bubblesub/ui/spectrogram.py:42-45 | Corrected, every integer format lands in [-1, 1), and its full-scale negative sample on exactly -1. |
| Spectrogram.Clip | bubblesub/ui/spectrogram.py:60 | The value is clipped into [0, 255] and is left alone when already there. |
| Spectrogram.ToByte | bubblesub/ui/spectrogram.py:62 | The fraction is dropped: the byte is the largest integer not above the value, in [0, 255]. |
| Spectrogram.PostProcess | bubblesub/ui/spectrogram.py:59-62 | There is one byte per magnitude. |
| Spectrogram.PostProcessSpec | bubblesub/ui/spectrogram.py:59-62 | Every byte is in [0, 255]. Position i holds bin \|mags\|-1-i, so the highest frequency comes first. A magnitude whose scaled value lies in [0, 255] gives the floor of that value. Magnitudes scaling to 255 or more give 255, and those scaling below 0 give 0. |
| Spectrogram.ZeroColumn | bubblesub/ui/spectrogram.py:40-41 | The column has n entries, all zero. |
| Spectrogram.SpectrumProviderContext.constructor | bubblesub/ui/spectrogram.py:19-25 | A fresh input buffer of 2048 samples. |
| Spectrogram.SpectrumProviderContext.Work | bubblesub/ui/spectrogram.py:29-63 | A success echoes `pts` with 1025 bytes. Without a format, it returns zeros and leaves the buffer alone. An unknown format fails, with the buffer unchanged. Otherwise the samples, normalised as written (`NormalizeAsWritten`, 32-bit samples divided by 2^32), overwrite the start of the buffer, the rest keeps earlier contents, and the column is the post-processed transform of the buffer. |
| Subs.SortSpec | bubblesub/api/subs.py:140 | `sorted` returns a permutation of its input in ascending order. |
| Subs.Sort | bubblesub/api/subs.py:140 | Specification of `sorted` on the selection, with no contract of its own. `SortSpec` and `SortCharacterised` prove it is the ascending permutation. |
| Subs.SortedUnique | bubblesub/api/subs.py:140 | Two ascending lists with the same elements are equal. |
| Subs.SortCharacterised | bubblesub/api/subs.py:140-141 | A list equals the sort of another exactly when it is a sorted rearrangement of it, and sorting a sorted list changes nothing. |
| Subs.RemoveOne | bubblesub/api/subs.py:201-203 | One pass never lengthens the selection. Its effect is stated by `AdjustStep`. |
| Subs.Adjust | bubblesub/api/subs.py:199-204 | Re-indexing never lengthens the selection. `AdjustOrigins`, `AdjustSurvivors` and `AdjustSorted` characterise it. |
| Subs.AdjustOrigins | bubblesub/api/subs.py:198-204 | Every index left after a removal comes from outside the removed range. One below it is kept as it was; one past it is moved down by `count`. |
| Subs.AdjustSurvivors | bubblesub/api/subs.py:198-204 | Every index below the removed range survives unchanged, and every index past it survives moved down by `count`. |
| Subs.AdjustSorted | bubblesub/api/subs.py:198-204 | Re-indexing keeps a sorted selection sorted. |
| Subs.AdjustStep | bubblesub/api/subs.py:200-203 | Removing one more index just below a removed range is one more pass of the loop. |
| Subs.RememberedVideoPath | bubblesub/api/subs.py:83-95 | There is no remembered path exactly when the metadata has no "Video File" value or the script has no path. |
| Subs.RememberedVideoPathRoundTrip | bubblesub/api/subs.py:83-104 | After the setter, "Video File" and "Audio File" both read back the path, and every other key reads as before. The getter then gives that path next to the script. |
| Subs.RememberVideoPath | bubblesub/api/subs.py:97-104 | Specification of the setter's metadata update, with no contract of its own. `RememberedVideoPathRoundTrip` proves the getter reads the path back and other keys are untouched. |
| Subs.SelectedEventsOf | bubblesub/api/subs.py:145-152 | There is a result exactly when every selected index is in range under Python indexing, negative indexes included. It is then the events at those indexes, in selection order. |
| Subs.SubtitlesApi.constructor | bubblesub/api/subs.py:43-52 | The API starts with no path, no selection, no metadata, no events, and the single style "Default". |
| Subs.SubtitlesApi.SetSelectedIndexes | bubblesub/api/subs.py:133-143 | The stored selection is the sort of the new one. `changed` holds exactly when it differs from the old selection. Nothing else changes. |
| Subs.SubtitlesApi.HasSelection | bubblesub/api/subs.py:115-122 | Holds exactly when the selection is not empty. |
| Subs.SubtitlesApi.SetRememberedVideoPath | bubblesub/api/subs.py:97-104 | The metadata gets the path under both keys, and nothing else changes. |
| Subs.SubtitlesApi.GetRememberedVideoPath | bubblesub/api/subs.py:83-95 | The getter, with no contract of its own. It applies `RememberedVideoPath` to the object's metadata and path, whose contract states when there is a path. |
| Subs.SubtitlesApi.SelectedEvents | bubblesub/api/subs.py:145-152 | `selected_events`, with no contract of its own. It applies `SelectedEventsOf` to the object's events and selection, whose contract states the result and the `IndexError` case. |
| Subs.SubtitlesApi.Unload | bubblesub/api/subs.py:154-162 | Afterwards there is no path, no selection, no metadata and no events, and the single style "Default". |
| Subs.SubtitlesApi.LoadAss | bubblesub/api/subs.py:164-177 | The loaded document replaces metadata, styles and events, the selection is cleared, and the path is remembered. |
| Subs.SubtitlesApi.SaveAss | bubblesub/api/subs.py:179-196 | The path is replaced exactly when `remember_path` is set. The document is unchanged, and the output is the writer's output for it. |
| Subs.SubtitlesApi.OnItemsRemoved | bubblesub/api/subs.py:198-204 | The loop leaves the sorted old selection re-indexed by `Adjust`: removed indexes dropped and later ones shifted down. `changed` says whether the selection differs. Nothing else changes. |
| Ass.NewStyle | bubblesub/api/subs.py:50 | The new style carries the given name. |
| Ass.Get | bubblesub/api/subs.py:90 | The value of the first pair with the key, or the default when no pair has it. |
| Ass.PutAbsent | bubblesub/ass/writer.py:44 | Assigning a key that is absent appends the pair. |
| Ass.PutPresent | bubblesub/ass/writer.py:45 | Assigning a present key replaces the value of its first pair and leaves every other pair where and as it was. |
| Ass.PutReplaces | bubblesub/ass/writer.py:45 | On a dictionary, assigning the key held at position i changes only that pair's value. |
| Ass.PutSpec | bubblesub/ass/writer.py:42-45 | On a dictionary, assignment stores the value under the key and leaves the other pairs in place. An absent key is appended, and keys stay unique. |
| Ass.GetPutSame | bubblesub/api/subs.py:90-104 | Reading the key just assigned gives the assigned value. |
| Ass.GetPutOther | bubblesub/api/subs.py:90-104 | Assigning one key does not change what any other key reads. |
| Karaoke.Chunks | bubblesub/cmd/karaoke.py:83-97 | The duration and chunk lists always have the same, non-zero, length. |
| Karaoke.ChunksSpec | bubblesub/cmd/karaoke.py:83-97 | The durations are 0 followed by the karaoke tags' durations in order. The chunks, read one after another, are exactly the text items in order, so no chunk holds a karaoke or list tag. |
| Karaoke.StripLeading | bubblesub/cmd/karaoke.py:99-101 | The stripped lists stay the same length as each other. |
| Karaoke.StripLeadingSpec | bubblesub/cmd/karaoke.py:99-101 | Only a leading run of pairs, each an empty chunk with a zero duration, is removed. Stripping stops at the first other pair and leaves the rest untouched. |
| Karaoke.Syllables | bubblesub/cmd/karaoke.py:103-105 | There is one syllable per duration and chunk pair. |
| Karaoke.SyllablesAt | bubblesub/cmd/karaoke.py:103-105 | Syllable i is chunk i composed, with duration i. |
| Karaoke.GetSyllables | bubblesub/cmd/karaoke.py:82-105 | The three loops yield exactly `SyllablesOf`, or the parse error. |
| Karaoke.SyllablesOf | bubblesub/cmd/karaoke.py:82-105 | Specification of `_get_syllables`, with no contract of its own. `ChunksSpec`, `StripLeadingSpec` and `SyllablesAt` state its parts, and `GetSyllables` is proved equal to it. |
| Karaoke.PiecesSpec | bubblesub/cmd/karaoke.py:64-73 | Each piece is a copy of the event with its syllable's text. It ends at its start plus the duration, never after the event's end, and each piece starts where the previous one ends. Only the first keeps the note. |
| Karaoke.PiecesBounded | bubblesub/cmd/karaoke.py:64-73 | With non-negative durations, the pieces stay inside the event and follow each other in time. |
| Karaoke.SplitEventSpec | bubblesub/cmd/karaoke.py:54-73 | The pieces of a split event start at its start. With non-negative durations, they lie inside it. |
| Karaoke.SplitEvent | bubblesub/cmd/karaoke.py:54-73 | Specification of the pieces one event splits into, with no contract of its own. `PiecesSpec`, `PiecesBounded` and `SplitEventSpec` state its meaning. |
| Karaoke.SplitPieces | bubblesub/cmd/karaoke.py:64-73 | The inner loop produces `SplitEvent`. |
| Karaoke.HasKaraokeContains | bubblesub/cmd/karaoke.py:51 | The `\k` test is the substring test `"\\k" in text`. |
| Karaoke.ReplacementsAt | bubblesub/cmd/karaoke.py:50-76 | List i is what event i becomes. |
| Karaoke.AfterRemovalsSorted | bubblesub/api/subs.py:198-204 | Once the removal hook has run, the selection is sorted. |
| Karaoke.AfterRemovalsStep | bubblesub/api/subs.py:198-204 | If a split pass removes nothing, the selection after it is unchanged. If the pass removes the target, the hook sorts the selection and shifts it once more at the target's current position. |
| Karaoke.SplitStepInPlace | bubblesub/cmd/karaoke.py:50-76 | One pass either replaces the target, where it stands, by its replacement, or stops at a target that does not split cleanly and leaves the list as it was. |
| Karaoke.SplitStep | bubblesub/cmd/karaoke.py:50-76 | Specification of one pass of the split loop, with no contract of its own. `SplitStepInPlace` states its effect and `SplitPass` is proved equal to it. |
| Karaoke.SplitRunStopped | bubblesub/cmd/karaoke.py:56-59 | Once a parse error has stopped the split, later passes change nothing. |
| Karaoke.SplitRunResult | bubblesub/cmd/karaoke.py:43-80 | The split succeeds exactly when every target splits cleanly. The list is then every event's replacement in order, and the selection is the positions of the pieces. Otherwise the first unclean target stopped it, with the targets before it already replaced. |
| Karaoke.SplitRun | bubblesub/cmd/karaoke.py:43-80 | Specification of the split loop after k passes, with no contract of its own. `SplitRunStopped` and `SplitRunResult` state its meaning. |
| Karaoke.SplitPass | bubblesub/cmd/karaoke.py:51-76 | One loop body computes `SplitStep`: the target removed and its pieces inserted at its position. |
| Karaoke.SplitLoop | bubblesub/cmd/karaoke.py:50-76 | The loop ends in `SplitRun`'s state. The selection is what the removal hook left after each removal. |
| Karaoke.SplitTurn | bubblesub/cmd/karaoke.py:50-76 | One pass over target k moves the state from `SplitRun` at k to `SplitRun` at k + 1. It keeps the selection equal to what the removal hook leaves. |
| Karaoke.SplitKaraoke | bubblesub/cmd/karaoke.py:43-80 | No targets: "nothing to split" and nothing changes. Otherwise the list is the split's result. On success, the selection is the sorted positions of the pieces. On a parse error, it is a `CommandError`, and the selection is as the hook left it after the completed removals. |
| Karaoke.FormatTenthsValue | bubblesub/cmd/karaoke.py:147 | `%.01f` of d/10 reads back as d tenths: a minus sign exactly for negative d, a point before the last digit, and the digits giving \|d\|. |
| Karaoke.Pick | bubblesub/cmd/karaoke.py:127 | One event per target, each the event at that target. |
| Karaoke.MergeText | bubblesub/cmd/karaoke.py:134-149 | The merged text of either variant: the alpha-tag text for `--invisible`, the `\k` text otherwise. |
| Karaoke.KaraokeText | bubblesub/cmd/karaoke.py:146-149 | Specification of the `\k` generator, with no contract of its own. `FormatTenthsValue` states what each tag's number reads as. |
| Karaoke.InvisibleMergeText | bubblesub/cmd/karaoke.py:134-144 | The loop of the invisible variant produces the text of all picked events. |
| Karaoke.InvisibleText | bubblesub/cmd/karaoke.py:134-144 | Specification of the invisible variant's text, with no contract of its own. `InvisibleMergeText` is proved equal to it. |
| Karaoke.MergedList | bubblesub/cmd/karaoke.py:131-156 | The list after the merge is the events before the first target, the merged event, and the events from `t0 + n` on. |
| Karaoke.MergedEventIs | bubblesub/cmd/karaoke.py:146-152 | The merged event is the first target with the merged text, all notes in order and the last target's end. |
| Karaoke.MergeFirst | bubblesub/cmd/karaoke.py:146-152 | Builds the first target as the merge leaves it. The result equals `MergedEvent`: the merged text, every target's note in order, and the last target's end. |
| Karaoke.MergedEvent | bubblesub/cmd/karaoke.py:146-152 | Specification of the merged event, with no contract of its own. `MergedEventIs` states its fields and `MergeFirst` is proved equal to it. |
| Karaoke.MergeKaraoke | bubblesub/cmd/karaoke.py:126-157 | No targets: "nothing to merge" and nothing changes. Otherwise the first target is replaced by the merged event, the `n - 1` events after it are removed, and the selection is `[t0]`. |
| Karaoke.MergeContiguous | bubblesub/cmd/karaoke.py:152-156 | For consecutive targets, the removed events are exactly the other targets, and the picked events are the events from t0 to t0 + n. |
| Menu.ContextOf | bubblesub/cfg/menu.py:28-32 | A context is found exactly when the value spells it. |
| Menu.HeaderName | bubblesub/cfg/menu.py:100 | A header exactly when the line is bracketed, and the name is the text between the brackets. |
| Menu.Classify | bubblesub/cfg/menu.py:96-100 | Specification of what the line loop makes of one line, with no contract of its own. `ScanCollects` and `ScanFails` state its effect. |
| Menu.ScanText | bubblesub/cfg/menu.py:92-111 | The line loop computes `ScanLines`. |
| Menu.ScanLines | bubblesub/cfg/menu.py:92-111 | Specification of the line loop, with no contract of its own. `ScanCollects`, `NoHeaderIsMain`, `ScanFails`, `ScanFirstError` and `ScanStaysFailed` state its meaning, and `ScanText` is proved equal to it. |
| Menu.ScanCollects | bubblesub/cfg/menu.py:92-111 | The loop ends in the context of the last valid header. Each context gathers exactly the content lines it governs, in order, each followed by a newline. Lines before any header go to the main menu. |
| Menu.NoHeaderIsMain | bubblesub/cfg/menu.py:93 | Without headers, everything is gathered for the main menu. |
| Menu.ScanFails | bubblesub/cfg/menu.py:100-107 | The loop fails exactly when some line is a header naming no context. |
| Menu.ScanFirstError | bubblesub/cfg/menu.py:103-107 | The error names the first bad header. |
| Menu.ScanStaysFailed | bubblesub/cfg/menu.py:105-107 | After a failure, later lines are not looked at. |
| Menu.Analysed | bubblesub/cfg/menu.py:119-127 | There is one analysed line per source line. |
| Menu.Analyse | bubblesub/cfg/menu.py:119-127 | Specification of a line as `_recurse_tree` reads it, with no contract of its own. `InnerSpacesDeepen` states how its depth is counted. |
| Menu.Tree | bubblesub/cfg/menu.py:113-138 | Reading never goes backwards. It returns no item exactly when it consumes no line. |
| Menu.Item | bubblesub/cfg/menu.py:127-138 | Each item consumes at least its own line. |
| Menu.RecurseTree | bubblesub/cfg/menu.py:113-138 | The while loop, with its recursion, computes `Tree`: the items and the position left for the caller. |
| Menu.ReadItem | bubblesub/cfg/menu.py:127-138 | The loop body computes `Item`. |
| Menu.TreeStep | bubblesub/cfg/menu.py:118-138 | A deep enough line gives an item, and reading goes on after it. |
| Menu.ReadBack | bubblesub/cfg/menu.py:113-142 | A writable menu, written one item per line with depth given in spaces and followed by the section's final empty line, is read back as itself. |
| Menu.InnerSpacesDeepen | bubblesub/cfg/menu.py:123-135 | The lines `a` and `c d\|y` give one sub-menu `a` holding the command `c d`, because the inner space counts towards depth. |
| Menu.MenuConfig.constructor | bubblesub/cfg/menu.py:80-84 | Every context starts with an empty list. |
| Menu.MenuConfig.Get | bubblesub/cfg/menu.py:156-163 | `__getitem__`, with no contract of its own. It returns the context's list. |
| Menu.MenuConfig.Clear | bubblesub/cfg/menu.py:87-89 | Every context's list is emptied. |
| Menu.MenuConfig.AddSection | bubblesub/cfg/menu.py:140-142 | Only the context's list changes, and it gets the items read from its gathered text appended. |
| Menu.SectionItems | bubblesub/cfg/menu.py:140-142 | Specification of the items read from one context's text, with no contract of its own. `TreeStep` and `ReadBack` state what the tree reader reads. |
| Menu.MenuConfig.Loads | bubblesub/cfg/menu.py:91-142 | On a bad header, the error is returned and the menus are unchanged. Otherwise each context's list gets the items of its gathered text appended. |
| Strings.RStrip | bubblesub/cfg/menu.py:96 | The result is a prefix that does not end in whitespace, and everything removed is whitespace. |
| Strings.Count | bubblesub/cfg/menu.py:123 | The count is at most the length, and it is 0 exactly when the character does not occur. |
| Strings.IndexOf | bubblesub/cfg/menu.py:137 | The character is at the index and nowhere before it. |
| Strings.SplitJoin | bubblesub/cfg/menu.py:141 | Splitting what was joined on a separator found in no part gives the parts back. |
| Strings.Replace | bubblesub/ass/writer.py:110 | No occurrence of the character is left when the replacement text does not hold it, and a string without it is unchanged. |
| Strings.Hex2RoundTrip | bubblesub/ass/writer.py:33 | The two hex digits of a byte read back as the byte. |
| Strings.TwoDigits | bubblesub/ass/writer.py:38 | `{n:02d}` of 0 <= n < 100 is two digits that read back as n. |
| AssWriter.SerializeColor | bubblesub/ass/writer.py:32-33 | A colour is ten characters: "&H", then upper-case hex digits. |
| AssWriter.ColorRoundTrip | bubblesub/ass/writer.py:32-33 | A serialised colour reads back as the same colour, so no channel is lost or swapped. |
| AssWriter.TimestampRoundTrip | bubblesub/ass/writer.py:36-38 | For in-range parts, `H:MM:SS.CC` reads back as the same hours, minutes and seconds, and the milliseconds floored to centiseconds. |
| AssWriter.Timestamp | bubblesub/ass/writer.py:36-38 | Specification of the timestamp text, with no contract of its own. `TimestampRoundTrip` proves it reads back. |
| AssWriter.InfoBlockOrder | bubblesub/ass/writer.py:41-45 | The printed info has ScriptType first, with value v4.00+, followed by every other key of the document in its own order. |
| AssWriter.InfoBlock | bubblesub/ass/writer.py:41-45 | Specification of the dictionary `_write_info` prints, with no contract of its own. `InfoBlockOrder` states its order and contents. |
| AssWriter.InfoBlockLines | bubblesub/ass/writer.py:41-47 | The first info line is "ScriptType: v4.00+", followed by a "key: value" line per other key, in order. |
| AssWriter.BoolFieldValues | bubblesub/ass/writer.py:73-76 | A flag is written as -1 exactly when set, and as 0 otherwise. |
| AssWriter.StyleLineSplits | bubblesub/ass/writer.py:64-89 | A style line is "Style: " followed by its fields joined by commas. When no field holds a comma, splitting gives the fields back. |
| AssWriter.StyleLine | bubblesub/ass/writer.py:64-89 | Specification of `_write_style`, with no contract of its own. `StyleLineSplits`, `StyleFieldColors` and `StyleFieldFlags` state its fields. |
| AssWriter.StyleFieldColors | bubblesub/ass/writer.py:65-72 | There are 23 fields. The name comes first, then the font, and the four colours are at positions 3 to 6. |
| AssWriter.StyleFieldFlags | bubblesub/ass/writer.py:73-76 | Fields 7 to 10 are the bold, italic, underline and strike-out flags. |
| AssWriter.TimePrefixShape | bubblesub/ass/writer.py:106-107 | The text carries a `{TIME:...}` prefix exactly when both times are set. |
| AssWriter.NoteSuffixShape | bubblesub/ass/writer.py:109-110 | The text carries a `{NOTE:...}` suffix exactly when the note is not empty, and the escaped note holds no newline. |
| AssWriter.EventTextLayout | bubblesub/ass/writer.py:104-110 | The event's own text stands unchanged between the prefix and the suffix. |
| AssWriter.EventText | bubblesub/ass/writer.py:104-110 | Specification of the text field, with no contract of its own. `TimePrefixShape`, `NoteSuffixShape` and `EventTextLayout` state its three parts. |
| AssWriter.EventLineHead | bubblesub/ass/writer.py:112-113 | An event line starts with "Comment: " for a comment and "Dialogue: " otherwise. |
| AssWriter.EventLineTail | bubblesub/ass/writer.py:113-124 | An event line has ten fields and ends with a comma and the text field. |
| AssWriter.EventLine | bubblesub/ass/writer.py:112-124 | Specification of `_write_event`, with no contract of its own. `EventLineHead` and `EventLineTail` state its shape. |
| AssWriter.FirstUntimed | bubblesub/ass/writer.py:99-100 | The first event that cannot be written: every event before it has both times. |
| AssWriter.NoticeLinesSplit | bubblesub/ass/writer.py:135-136 | The notice lines are "; " followed by each line that NOTICE (line 29) splits into. |
| AssWriter.InfoSectionLayout | bubblesub/ass/writer.py:134-138 | The file starts with "[Script Info]", the two notice lines, "ScriptType: v4.00+" and the other keys in order. |
| AssWriter.WriteAssFails | bubblesub/ass/writer.py:127-140 | Writing fails exactly when some event lacks a time, naming the first such event. Otherwise it gives the file's lines. |
| AssWriter.WriteAss | bubblesub/ass/writer.py:127-140 | Specification of `write_ass`, with no contract of its own. `WriteAssFails`, `InfoSectionLayout` and the three `Assemble` lemmas state its failure and its layout. |
| AssWriter.AssembleLayout | bubblesub/ass/writer.py:50-98 | After the info section come a blank line, "[V4+ Styles]" and the style format line, then later a blank line, "[Events]" and the event format line. |
| AssWriter.AssembleStyleLines | bubblesub/ass/writer.py:60-61 | The style lines of the file are those of the document's styles, in order. |
| AssWriter.AssembleEventLines | bubblesub/ass/writer.py:99-100 | The event lines of the file are those of the document's events, in order, and they close the file. |

## Left out

- Threads, locks, Qt signals and the `cache_updated` / `timecodes_updated` / `selection_changed` notifications are not modelled. The worker's loop is modelled one iteration at a time (`Step`), and `queue.get()` blocking is an outcome rather than a wait.
- The implementations of `align_pts_to_prev_frame`, `align_pts_to_near_frame` and `frame_idx_from_pts` are not part of this model. `PrevFrame`, `NearFrame` and `FrameIdxFromPts` are defined from the test tables they must meet. The tables' rows with float and numpy-array timestamps are not modelled; timestamps are whole milliseconds.
- `get_frame`, the decoder (`ffms`), `hash_digest`, `sanitize_file_name`, `load_cache`/`save_cache`, `parse_ass`, `ms_to_times`, `escape_ass_tag`, float formatting and the file-system path operations are parameters. Their own behaviour is not modelled.
- The spectrogram's FFT, logarithm and square root are a parameter `transform`. The model states what happens to its output, not how the magnitudes are computed. `np.mean` over channels is folded into `getSamples`.
- Spectrogram.SpectrumProviderContext.Work: requires the transform to yield 1025 magnitudes, which is the size of the preallocated output buffer. It also requires at most 2048 samples, the input buffer's size.
- Karaoke.KTag: the `duration` property of an event, which is not part of this model, is taken to be `end - start`.
- Karaoke.Compose: `compose_ass` of a chunk is taken to be the concatenation of its tokens' ASS texts. The tag parser's own composer is not part of this model.
- Subs.SubtitlesApi.Unload: the style class's defaults are not part of this model. The "Default" style is `NewStyle("Default")`, whose fields other than the name are fixed neutral values. The same holds for `Subs.SubtitlesApi.constructor`.
- AssWriter.WriteAss: an event without a start or end is reported as a `MissingTime` failure with no lines. In the source, `ms_to_times(None)` fails after the header, the styles and the earlier events have already been printed to the stream. That partial output is not modelled.
- The karaoke commands see events as `Karaoke.Event`, with whole-millisecond start and end. The writer's `Ass.Event`, of the ASS document, allows absent times. Two versions of the event class are modelled. The karaoke commands' `Subtitles` has only the event list and the selection; the removal hook is applied through `Subs.Adjust`.
- Undo capture, `throttle_updates`, `begin_update`/`end_update`, `is_enabled` and argument parsing of the commands are not modelled.
- `create_example_file`, `__iter__` of the menu configuration and the `SubConfig` base class are not modelled.
- The ASS reader (`load_ass`) is not part of this model. `LoadAss` takes the loaded document as a parameter.
- Python's float formatting of the style's numeric fields (`f"{x:}"`) is a parameter. The writer's round trips cover colours, flags and timestamps, not the float fields.
- The painter calls that draw the band image (video_preview.py:197-209) and the mapping from a pixel column to a frame index (`frame_idx_from_x`) are not modelled. The mapping is a parameter `frameOf`.

## Findings

| source | as written | input that shows it | evidently intended | confidence | as-written member | corrected member |
|---|---|---|---|---|---|---|
| bubblesub/ui/spectrogram.py:44-45 | 32-bit samples are divided by 4294967296 (2^32) | the full-scale S32 sample -2147483648 becomes -0.5, while the full-scale S16 sample -32768 becomes -1.0 | divide by 2147483648 (2^31), so every integer format lands in [-1, 1) like S16 | medium; not executed | Spectrogram.S32AsWrittenHalfRange | Spectrogram.NormalizeRange |
