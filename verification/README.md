# Verified models of the Vela voice assistant

Dafny models of the parts of the repository whose correctness rests on an invariant, a refinement or an
interleaving argument. Classes with fields stand where the source keeps mutable state, loops where it loops,
and each method is proved against a specification function or predicate. The properties of those
specifications are then proved as lemmas, over all inputs, all runs or all interleavings.

| module | models |
|---|---|
| `AssetContainer`, `AssetReader` | the packer of `assets.bin` and the firmware code that checks, indexes and serves it |
| `AssetDownload` | replacing that image on NOR flash sector by sector, with a failure or power cut at any operation |
| `Sse` | the incremental parser of server-sent events (HTML Living Standard, section 9.2.6) |
| `Resampler`, `CanonicalDownlink` | the 48 to 24 kHz decimator and the pipeline that fades, converts, frames and pads provider audio |
| `VadSegmenter` | the voice activity hysteresis |
| `Enrollment` | the window search and quality gate for enrollment clips |
| `Wav` | the browser's WAV encoder and resampler, and the server's reading of the upload |
| `Lifecycle`, `RuntimeLifecycle` | ordered shutdown: gate, drain registry, controlled close, archival flush |
| `DeviceControl`, `Application`, `Conversations` | the firmware's device state machine, main-loop handlers and scheduled tasks, and whole conversations over them |
| `MainLoop` | how scheduling wakes the main loop, step by step against other threads |
| `ToolPager` | paginated `tools/list` (Model Context Protocol 2024-11-05, "Pagination" utility) |
| `IdempotencyLedger` | the admin control plane's FIFO idempotency ledger |
| `Basics`, `Bytes`, `Sequences` | the option type, little-endian integers and sequence facts the others share |

Where a promise turns out not to hold of the code, the code is modelled as it is, a lemma exhibits an input or
run on which the promise fails, and the condition under which it holds is proved as an equivalence:

* The enrollment search returns the best window, and keeps the extractor's limit, for every clip if and only if
  the window is a whole number of 20 ms frames.
* A chunked SSE read agrees with a whole read as long as every empty chunk that arrives after a CR is followed by
  text, and that text does not start with LF while an event is pending. In any one state an empty chunk makes no
  difference to whatever text may follow if and only if no CR is waiting or nothing is pending. The size cap also
  applies to the incomplete line held between two chunks, so the same text can pass whole and throw chunked.
* A download of exactly 12 bytes erases nothing. Cutting power is safe after each of its bytes if and only if it
  is safe after the first one that changes a cell and leaves an acceptable length; over an accepted old image that
  is: it was the only cell to change and took its value, or it emptied the length. A packed image of no files is
  refused by the reader.
* Whatever is done to publish the session counts that are still waiting, the published count ends as the number
  of sessions if and only if every waiting count is that number. Atomic registration meets this in every state.
  The code publishes after unlocking, and a run of its steps leaves zero published, for good, with a session live:
  shutdown drains at once and stops without ever asking that session to close. Even with atomic registration a
  session whose registration completes after the gate has closed can be missed, and only such a session.
* `tools/list` can be followed to the end if and only if something is visible and each visible tool fits a page
  alone. The announced 8000 bytes hold for all tool lists with names of at most n bytes if and only if n <= 13.
* A WAV sample survives decoding and re-encoding unchanged if and only if it is at most half scale. A whole clip
  reaches the server if and only if it has fewer than 2^31 samples; of a longer one the remainder modulo 2^31.

Samples, coefficients and probabilities are exact reals, with a separate value for a non-finite float where the
code rejects one. Machine integers are written out where they can wrap or underflow. Text is a sequence of UTF-16
units, as in the browser. Flash cells, HTTP bodies and chunkings, clocks, concurrent requests and encoder input
are parameters, quantified over.

## Model

| member | source | states |
|---|---|---|
| AssetContainer.PackAssetsSimple | firmware/esp32/scripts/build_default_assets.py:421-474 | an image is produced exactly when every size and offset fits its 32-bit field, and then it is header, table and magic-prefixed data of the listed regular files other than `config.json`, in listing order |
| AssetContainer.MergeFiles | firmware/esp32/scripts/build_default_assets.py:434-452 | the first loop yields the merged data and records each file's name, size and offset within it |
| AssetContainer.BuildTable | firmware/esp32/scripts/build_default_assets.py:456-465 | the second loop yields the table of those records, failing only if some number does not fit |
| AssetContainer.MergedCovers | firmware/esp32/scripts/build_default_assets.py:445-452 | at the offset recorded for any file lie its magic and then exactly its bytes |
| AssetContainer.TableCovers | firmware/esp32/scripts/build_default_assets.py:457-465 | the 44 bytes at any table index are that file's entry |
| AssetReader.CalculateChecksum | firmware/esp32/main/assets.cc:141-147 | the wrapping 32-bit byte sum, masked, equals the packer's unbounded sum, masked |
| AssetReader.OneChangedByteIsRefused | firmware/esp32/main/assets.cc:209-215 | an accepted image with one byte of its checked data changed is refused |
| AssetReader.ExchangedBytesPass | firmware/esp32/main/assets.cc:141-147 | the checksum does not see two bytes change places |
| AssetReader.LvglStrategy.InitializePartition | firmware/esp32/main/assets.cc:149-227 | for any flash contents: which of the guards decides, and after success the mapping and index that are installed; a refusal leaves no index |
| AssetReader.LvglStrategy.IndexTable | firmware/esp32/main/assets.cc:219-225 | the index built entry by entry is the specified one, or some entry lies outside the mapping |
| AssetReader.LvglStrategy.GetAssetData | firmware/esp32/main/assets.cc:240-256 | lookup returns the indexed bytes behind the magic, or says that the name or the magic is missing |
| AssetReader.LvglStrategy.UnApplyPartition | firmware/esp32/main/assets.cc:229-238 | drops index and mapping |
| AssetReader.EntryReadsBack | firmware/esp32/main/assets.cc:220-224 | a table entry decodes to the name, size and offset the packer wrote, for names that leave room for the NUL |
| AssetReader.FullLengthNameReadsBack | firmware/esp32/main/assets.cc:224 | a name filling all 32 bytes reads back if and only if the size is a multiple of 256 |
| AssetReader.HeaderReadsBack | firmware/esp32/main/assets.cc:167-175 | file count, checksum and length read back from a packed image; the length is zero only for no files |
| AssetReader.MappingIsWholePages | firmware/esp32/main/assets.cc:177-182 | what is mapped is the image rounded up to whole 64 KiB pages, or the partition where that is shorter |
| AssetReader.PagesDecide | firmware/esp32/main/assets.cc:184-194 | an image whose length and checksum are right is refused exactly when it needs more free pages than there are |
| AssetReader.IndexIsExact | firmware/esp32/main/assets.cc:219-225 | indexing a packed image with distinct readable names gives each file its own size and place and nothing else |
| AssetReader.PackedImageIsServed | firmware/esp32/main/assets.cc:149-256 | round trip: for all distinct ASCII names of 1 to 31 bytes the reader accepts the packed image, returns exactly each file's bytes and finds no other name; the image of no files is refused |
| AssetDownload.Partition.EraseRange | firmware/esp32/main/assets.cc:605 | an erase sets one sector to 0xFF, or fails and changes nothing |
| AssetDownload.Partition.Write | firmware/esp32/main/assets.cc:619-620 | programming clears bits byte by byte; a failure leaves a programmed prefix |
| AssetDownload.ErasedTakesAnyValue | firmware/esp32/main/assets.cc:588-620 | an erased cell takes any byte exactly, which is why erasing first suffices |
| AssetDownload.ProgramBitsAt | firmware/esp32/main/assets.cc:619-620 | bit by bit, a programmed cell keeps exactly the ones that both the cell and the value have |
| AssetDownload.BitsDecide | firmware/esp32/main/assets.cc:619-620 | those eight bits decide the byte |
| AssetDownload.Assets.CollectHeader | firmware/esp32/main/assets.cc:578-585 | across any reads the header buffer holds the first 12 bytes of the body and the payload starts right behind them |
| AssetDownload.Assets.EraseFor | firmware/esp32/main/assets.cc:593-613 | the erase loop reaches exactly the needed sectors, keeping all payload already written, or stops at a fault or the end of the partition |
| AssetDownload.Assets.StorePayload | firmware/esp32/main/assets.cc:588-628 | one read's payload is appended, `current_sector` being the ceiling of (12 + written) over the sector size once payload exists |
| AssetDownload.Assets.ReceivePayload | firmware/esp32/main/assets.cc:553-646 | the read loop, for every chunking: success means the whole body was collected and programmed behind the header; without a fault it succeeds |
| AssetDownload.EraseStep | firmware/esp32/main/assets.cc:594-613 | erasing the next sector keeps the payload written so far and never touches a written byte |
| AssetDownload.ProgramSteps | firmware/esp32/main/assets.cc:619-620 | after any prefix of a programming operation the flash holds the payload so far, each byte in a cell erased in this run and programmed once |
| AssetDownload.HeaderStaysBlank | firmware/esp32/main/assets.cc:588-620 | at every operation from the first erase until the header is written the header cells read 0xFF |
| AssetDownload.PayloadIsSafe | firmware/esp32/main/assets.cc:562-646 | cutting power after any operation of the payload phase leaves the old image or one whose length is refused |
| AssetDownload.HeaderIsSafe | firmware/esp32/main/assets.cc:655-662 | cutting power after any byte of the header write leaves a refused length until the last byte completes the new image |
| AssetDownload.Assets.WriteImage | firmware/esp32/main/assets.cc:553-667 | for every body, chunking and fault: when the body is longer than 12 bytes, or all header and meets `StaysSafe`, every intermediate flash state is the old image, a refused one or the whole new image; a header-only download that was written was safe throughout exactly when it does; success means flash equals the body; without faults and with the announced length it succeeds |
| AssetDownload.Assets.Download | firmware/esp32/main/assets.cc:489-681 | the same from the content-length guards to re-initialization: guards change nothing, the result says exactly whether the new image was accepted, and past the guards a download that fails leaves no index and no mapping, unless the flash then holds an image whose table leaves its mapping |
| AssetDownload.DownloadThenLookUp | firmware/esp32/main/assets.cc:489-681 | a lookup after a download, whatever was installed before: once a download has failed past its guards every name is answered with not found, unless the flash then holds an image whose table leaves its mapping; a body that breaks off or differs in length always fails |
| AssetDownload.InstallPackage | firmware/esp32/main/assets.cc:489-681 | end to end: a packed image fetched in any chunks without a fault is installed and serves every packed file |
| AssetDownload.HeaderOnlyDownload | firmware/esp32/main/assets.cc:588-662 | with content length 12 the header arrives intact if and only if every old cell already has its bits |
| AssetDownload.HeaderOnlyIsSafeIff | firmware/esp32/main/assets.cc:588-662 | with content length 12, cutting power is safe after every byte if and only if the first state that differs from the old image and has an acceptable length is safe |
| AssetDownload.FirstChangeDecides | firmware/esp32/main/assets.cc:588-662 | over an accepted old image that is: the first changing cell is the only one to change and takes its value, or its change empties the length |
| AssetDownload.NoChangeIsSafe | firmware/esp32/main/assets.cc:588-662 | a header that changes no cell is always safe |
| AssetDownload.HeaderLogIsSafe | firmware/esp32/main/assets.cc:655-662 | the same for a header write cut off by a fault |
| AssetDownload.HeaderOnlyDownloadCanMix | firmware/esp32/main/assets.cc:588-662 | a concrete 12-byte download whose result is none of the safe states |
| Sse.SseParser.Consume | apps/admin-web/src/api/sse.ts:18-54 | one call yields the frames, final state or error of the reference parse of buffer plus normalized chunk |
| Sse.SseParser.ApplyLine | apps/admin-web/src/api/sse.ts:33-50 | the effect of one line: dispatch, comment, `event`, `data` with its size cap, or unknown field |
| Sse.DataLineCap | apps/admin-web/src/api/sse.ts:44-49 | a data line is kept whole, or throws exactly when the characters of the event, line breaks not counted, exceed the cap; a first data line exactly when it alone is longer than the cap |
| Sse.FramesFit | apps/admin-web/src/api/sse.ts:44-52 | over any run of calls no returned frame has more characters than the cap, its line breaks not counted |
| Sse.JoinLength | apps/admin-web/src/api/sse.ts:35-48 | the joined text has the characters of its parts and one line break between neighbours |
| Sse.OptionalSpace | apps/admin-web/src/api/sse.ts:40-42 | exactly one space after the colon is dropped, and space and colon may be missing |
| Sse.EventAndBlankLines | apps/admin-web/src/api/sse.ts:33-43 | an event line of any length names the event; a blank line dispatches what is pending, unnamed as `message`, and starts afresh |
| Sse.OtherLinesAreIgnored | apps/admin-web/src/api/sse.ts:39-50 | comments and fields of any other name leave the state as it was |
| Sse.NormalizeSplit | apps/admin-web/src/api/sse.ts:24-26 | normalizing line ends distributes over any cut of the text, CR and LF apart included |
| Sse.ConsumeSplit | apps/admin-web/src/api/sse.ts:18-54 | two consecutive calls against one call on the joined text: same outcome, state and frames |
| Sse.ChunkIndependence | apps/admin-web/src/api/sse.ts:18-54 | for every list of chunks in which each empty chunk after a CR is followed by text that does not start with LF while an event is pending: the chunked run succeeds if and only if the whole call does and no held line exceeds the cap, and then frames and state agree |
| Sse.NoEmptyChunkIsHarmless | apps/admin-web/src/api/sse.ts:18-25 | chunk lists without an empty chunk after a CR, non-empty chunks in particular, always qualify |
| Sse.CallsKeepBetweenCalls | apps/admin-web/src/api/sse.ts:24-52 | every call that does not throw leaves an incomplete line within the cap, empty after a CR, as the next call assumes |
| Sse.EmptyChunkNeverMattersIff | apps/admin-web/src/api/sse.ts:24-38 | in any state between calls, an empty chunk makes no difference to any following text if and only if no CR is waiting or no event name and no data are pending |
| Sse.ForgettingCrIsHarmless | apps/admin-web/src/api/sse.ts:24-38 | per text: none if it does not start with LF, or nothing is pending |
| Sse.EmptyChunkIsInvisible | apps/admin-web/src/api/sse.ts:24-25 | an empty chunk changes nothing if and only if no CR is pending |
| Sse.EmptyChunkInsideCrlf | apps/admin-web/src/api/sse.ts:24-38 | with an event name or data pending, an empty chunk between CR and LF dispatches the event a line early |
| Sse.CapDependsOnChunking | apps/admin-web/src/api/sse.ts:52 | every comment longer than the cap passes whole with its newline and throws when cut before it |
| Sse.DrainPrinted | apps/admin-web/src/api/sse.ts:29-51 | the line loop on printed frames returns them and an empty state |
| Sse.ParsePrinted | apps/admin-web/src/api/sse.ts:18-54 | one call on printed frames returns them, unnamed events as `message` |
| Sse.ParsePrintedWithAnyEnding | apps/admin-web/src/api/sse.ts:24-26 | the same frames come back from the same text with every line ended by LF, CRLF or CR |
| Sse.RoundTrip | apps/admin-web/src/api/sse.ts:18-54 | any non-throwing chunking of printed frames returns them; exactly those frames if and only if every event is named |
| Resampler.DownlinkResampler.Process | crates/vela-server/src/audio/resampler.rs:47-69 | accepts exactly finite input; the output extends the batch convolution of everything admitted so far, and a rejected chunk admits its finite prefix |
| Resampler.DownlinkResampler.Admit | crates/vela-server/src/audio/resampler.rs:53-66 | one sample extends the batch result, by one output at even global index and by none at odd |
| Resampler.ProcessChunks | crates/vela-server/src/audio/resampler.rs:47-69 | for every chunking the joined output is the batch convolution of the joined input, of half its length rounded up |
| Resampler.DotIsConvolve | crates/vela-server/src/audio/resampler.rs:58-63 | the delay line's dot product is the sum of h[j] times x[n - 62 + j], zeros before the start |
| Resampler.ImpulseResponse | crates/vela-server/src/audio/resampler.rs:53-66 | one full-scale sample in silence comes out as the taps, latest first, seen at every second sample |
| Resampler.FilterIsLinear | crates/vela-server/src/audio/resampler.rs:53-66 | filtering a weighted mix is mixing what was filtered, so the impulse response determines every output |
| Resampler.BatchAppend | crates/vela-server/src/audio/resampler.rs:57-66 | one more sample extends the batch result only at even global index |
| Resampler.ConvolveIsCausal | crates/vela-server/src/audio/resampler.rs:58-63 | later input never changes an output already given |
| Resampler.NormalizeTaps | crates/vela-server/src/audio/resampler.rs:37-39 | the normalized taps keep their ratios and sum to one |
| Resampler.ConstantPasses | crates/vela-server/src/audio/resampler.rs:20-69 | a constant signal passes unchanged once the delay line is full |
| CanonicalDownlink.CanonicalDownlinkPipeline.PushProviderPcm | crates/vela-server/src/audio/canonical_downlink.rs:32-68 | refusals change nothing; an accepted push sends the frames that keep the pipeline equal to the reference of everything received, with a tail under 1440; non-finite input gives the rate's error and sends nothing |
| CanonicalDownlink.CanonicalDownlinkPipeline.Admit | crates/vela-server/src/audio/canonical_downlink.rs:47-67 | the same for the body past the guard |
| CanonicalDownlink.CanonicalDownlinkPipeline.ToDownlinkRate | crates/vela-server/src/audio/canonical_downlink.rs:55-64 | 48 kHz is decimated with generation-global state, 24 kHz is passed through, both only if finite |
| CanonicalDownlink.CanonicalDownlinkPipeline.TakeCompletePackets | crates/vela-server/src/audio/canonical_downlink.rs:86-99 | full frames and remaining tail join to the old tail, and the tail is shorter than a frame |
| CanonicalDownlink.CanonicalDownlinkPipeline.Finish | crates/vela-server/src/audio/canonical_downlink.rs:70-84 | pads and never truncates; everything sent is the reference framing of everything received |
| CanonicalDownlink.FadeInChunk | crates/vela-server/src/audio/canonical_downlink.rs:48-54 | the fade-in loop is the linear ramp over the first min(384, length) samples |
| CanonicalDownlink.FadeOutTail | crates/vela-server/src/audio/canonical_downlink.rs:106-116 | in place: the last min(480, length) samples ramped to zero, a single sample untouched |
| CanonicalDownlink.FadeOutShape | crates/vela-server/src/audio/canonical_downlink.rs:106-116 | a straight line down to silence at the very last sample, each sample within half a step of it, nothing before the last 480 samples touched |
| CanonicalDownlink.FadeInShape | crates/vela-server/src/audio/canonical_downlink.rs:48-54 | a straight line up from silence over the fade, and nothing behind it touched |
| CanonicalDownlink.QuantizerShape | crates/vela-server/src/audio/canonical_downlink.rs:102-104 | full scale is 32767 and silence 0, the sign carries over, and louder never quantizes below quieter |
| CanonicalDownlink.QuantizerError | crates/vela-server/src/audio/canonical_downlink.rs:102-104 | every sample in range goes to the nearest step, a half away from zero |
| CanonicalDownlink.ScaledStaysInRange | crates/vela-server/src/audio/canonical_downlink.rs:112-115 | scaling by a gain in [0, 1] never leaves the 16-bit range |
| CanonicalDownlink.FadedIsOneRamp | crates/vela-server/src/audio/canonical_downlink.rs:48-54 | the faded chunks join to the whole input under one ramp whose length is set by the first chunk |
| CanonicalDownlink.DeliverGeneration | crates/vela-server/src/audio/canonical_downlink.rs:32-99 | pushing any chunks and finishing sends a function of rate and chunks alone |
| CanonicalDownlink.FramesDependOnFirstLengthOnly | crates/vela-server/src/audio/canonical_downlink.rs:49-54 | two chunkings of the same audio whose fades are equally long give the same frames; from 384 samples on they always are |
| CanonicalDownlink.StreamsAgreeIffFadesAgree | crates/vela-server/src/audio/canonical_downlink.rs:49-54 | at 24 kHz two first-chunk lengths give the same stream for all audio if and only if their fades are equally long |
| CanonicalDownlink.FramesAreFull | crates/vela-server/src/audio/canonical_downlink.rs:70-99 | every frame has 1440 samples and their number is the ceiling of samples over 1440 |
| CanonicalDownlink.FramesJoinToStream | crates/vela-server/src/audio/canonical_downlink.rs:70-99 | the frames join to the stream with its remainder faded and zero-padded, nothing dropped or repeated |
| CanonicalDownlink.StreamLength | crates/vela-server/src/audio/canonical_downlink.rs:55-66 | every provider sample at 24 kHz and one of two at 48 kHz reaches the stream |
| VadSegmenter.Segmenter.constructor | crates/vela-server/src/audio/vad_segmenter.rs:45-61 | a valid configuration starts silent with an empty history |
| VadSegmenter.Segmenter.Observe | crates/vela-server/src/audio/vad_segmenter.rs:63-109 | rejects exactly malformed or discontiguous observations, leaving the state unchanged; otherwise history and log stay exact |
| VadSegmenter.Segmenter.SeekStart | crates/vela-server/src/audio/vad_segmenter.rs:78-94 | the silent half: candidate and verdict, with no u64 underflow |
| VadSegmenter.Segmenter.SeekEnd | crates/vela-server/src/audio/vad_segmenter.rs:96-108 | the active half, dually |
| VadSegmenter.Segmenter.Reset | crates/vela-server/src/audio/vad_segmenter.rs:111-116 | back to the start |
| VadSegmenter.Step | crates/vela-server/src/audio/vad_segmenter.rs:76-109 | one transition of candidates and mode keeps the log exact |
| VadSegmenter.VerdictFromCandidate | crates/vela-server/src/audio/vad_segmenter.rs:79-107 | deciding by the candidate alone is deciding by all runs of the phase: a boundary exactly when some run opens and closes decisively, is never broken, and is long enough |
| VadSegmenter.EarliestIsLongest | crates/vela-server/src/audio/vad_segmenter.rs:80-83 | if any run is long enough the earliest open one is |
| VadSegmenter.CandidateIsPast | crates/vela-server/src/audio/vad_segmenter.rs:83-100 | no candidate lies after the next observation, so lengths never underflow |
| VadSegmenter.VerdictsAreUnique | crates/vela-server/src/audio/vad_segmenter.rs:63-109 | the accepted history determines every verdict |
| VadSegmenter.VerdictAt | crates/vela-server/src/audio/vad_segmenter.rs:76-109 | out of the observations and the four configured numbers alone: an observation reports a boundary exactly when a long enough run of this phase ends with it, dated at the beginning of the earliest |
| VadSegmenter.PhaseIs | crates/vela-server/src/audio/vad_segmenter.rs:84-107 | a phase begins right behind the latest boundary and is active behind a start |
| VadSegmenter.BoundaryIsInsideItsPhase | crates/vela-server/src/audio/vad_segmenter.rs:86-103 | a boundary is dated after the observation that ended the previous phase, and far enough before the one that reveals it |
| VadSegmenter.BoundariesAlternateAndAreSpaced | crates/vela-server/src/audio/vad_segmenter.rs:63-116 | between resets boundaries alternate from a start, utterances span the speech minimum and pauses the silence minimum |
| VadSegmenter.SpansInSamples | crates/vela-server/src/audio/vad_segmenter.rs:63-116 | between resets every utterance spans at least `min_speech_samples` and every pause at least `end_silence_samples` |
| Enrollment.SelectWindow | crates/vela-server/src/audio/enrollment.rs:146-183 | the whole clip, or the slice at the first maximum over all frame-aligned windows |
| Enrollment.SelectFromLongClip | crates/vela-server/src/audio/enrollment.rs:157-182 | the same past the early returns, with every slice in range |
| Enrollment.ScoreFrames | crates/vela-server/src/audio/enrollment.rs:158-164 | one score of 0 or 1 for each frame, the last one partial |
| Enrollment.LoudIsSpeech | crates/vela-server/src/audio/enrollment.rs:202-207 | a frame whose samples all have magnitude 0.001 or more is speech; one whose samples all lie below, or an empty one, is not |
| Enrollment.SignsDoNotMatter | crates/vela-server/src/audio/enrollment.rs:202-207 | changing the sign of any samples changes no verdict |
| Enrollment.ClickIsSpeech | crates/vela-server/src/audio/enrollment.rs:202-207 | a single sample v among n - 1 silent ones is speech exactly when v squared is at least n times 0.001 squared |
| Enrollment.LoudClipIsAllSpeech | crates/vela-server/src/audio/enrollment.rs:186-200 | a clip loud throughout is credited with all its complete frames, a quiet one with none |
| Enrollment.LoudStretchIsSelected | crates/vela-server/src/audio/enrollment.rs:146-183 | a loud stretch of one window on a frame boundary is selected exactly, however long the silence before and after it |
| Enrollment.FirstBestWindow | crates/vela-server/src/audio/enrollment.rs:170-179 | the sliding loop finds the first maximum of the naive search, with no u32 underflow |
| Enrollment.Slide | crates/vela-server/src/audio/enrollment.rs:174 | after a slide the running sum is the sum of the shifted window |
| Enrollment.CountSpeechFrames | crates/vela-server/src/audio/enrollment.rs:191-198 | counts the complete frames that reach the floor |
| Enrollment.SpeechMs | crates/vela-server/src/audio/enrollment.rs:186-200 | 20 ms for each such frame, zero when a frame has no samples |
| Enrollment.SelectedWindowIsBest | crates/vela-server/src/audio/enrollment.rs:146-200 | with whole-frame windows no aligned window has more countable speech than the selected one; otherwise it loses at most one frame |
| Enrollment.AlwaysSelectsBestIffWholeFrames | crates/vela-server/src/audio/enrollment.rs:146-200 | the selection is best for every clip if and only if the window is whole frames |
| Enrollment.CutShortWitness | crates/vela-server/src/audio/enrollment.rs:166-182 | for every other window length, a clip whose selected window is beaten |
| Enrollment.WindowFitsIffWholeFrames | crates/vela-server/src/audio/enrollment.rs:166-182 | the result never exceeds the limit if and only if the window is whole frames |
| Enrollment.NoWindowReachesIffSelectedFails | crates/vela-server/src/audio/enrollment.rs:131-135 | with whole-frame windows the selected window misses the floor exactly when every aligned window does |
| Enrollment.WholeFramesCreditIsScore | crates/vela-server/src/audio/enrollment.rs:166-199 | when clip and window are whole frames every aligned window, the last included, is credited with its full score |
| Enrollment.SelectedSpeechIsMaximum | crates/vela-server/src/audio/enrollment.rs:131-200 | then `speech_ms` of the selected window is 20 times the maximum over all aligned windows |
| Enrollment.WindowFitsSum | crates/vela-server/src/audio/enrollment.rs:131-170 | a window of at most six seconds has at most 600 frames, so the u32 sum never overflows, for clips of any length |
| Enrollment.SelectAndMeasure | crates/vela-server/src/audio/enrollment.rs:131-132 | the window judged and the speech credited to it |
| Enrollment.Analyze | crates/vela-server/src/audio/enrollment.rs:111-143 | each refusal exactly in its case, in order; an accepted clip comes with the selected window and its credited speech, and with whole-frame windows a clip is refused for speech exactly when every aligned window misses the floor |
| Enrollment.AnalyzeSixLoudSeconds | crates/vela-server/src/audio/enrollment.rs:111-143 | six loud seconds at 16 kHz anywhere in a quiet clip: exactly those six seconds and 6000 ms of speech are accepted, or too little audio when more is asked for |
| Enrollment.ClippedShare | crates/vela-server/src/audio/enrollment.rs:122-130 | a clip is refused for clipping exactly when more than one sample in twenty has magnitude 0.999 or more, wherever they lie |
| Enrollment.CountsAreQuotients | crates/vela-server/src/audio/enrollment.rs:166-193 | the frame counts used here are the rounded-up and rounded-down quotients |
| Enrollment.WholeFramesAt16kHz | crates/vela-server/src/audio/enrollment.rs:149-153 | at 16 kHz the condition is a window of a multiple of 20 ms |
| Wav.QuantizationError | apps/admin-web/src/lib/wav.ts:44-47 | a sample read back differs from the clamped one by at most half a step, or one and a half above zero |
| Wav.QuantizationKeepsOrder | apps/admin-web/src/lib/wav.ts:44-47 | louder never encodes below quieter |
| Wav.ReencodeIsStable | apps/admin-web/src/lib/wav.ts:44-47 | decode then encode is the identity exactly up to half scale and loses one step above |
| Wav.SetUint32 | apps/admin-web/src/lib/wav.ts:55-66 | writes four little-endian bytes modulo 2^32 and nothing else |
| Wav.WriteAscii | apps/admin-web/src/lib/wav.ts:73-75 | writes the text's bytes and nothing else |
| Wav.WriteHeader | apps/admin-web/src/lib/wav.ts:54-66 | the thirteen writes, in order, leave the canonical header |
| Wav.EncodeWavPcm16 | apps/admin-web/src/lib/wav.ts:50-71 | the file is the canonical header followed by the quantized samples |
| Wav.HeaderDescribes | apps/admin-web/src/lib/wav.ts:54-66 | read back, that header is mono 16-bit integer PCM of the stated rate and size |
| Wav.HeaderSizes | apps/admin-web/src/lib/wav.ts:54-66 | RIFF size, bytes per second and block align read back as the file less 8 bytes, twice the rate, and 2 |
| Wav.TagBytes | apps/admin-web/src/lib/wav.ts:54-75 | the four tags as bytes |
| Wav.DecodedPcm16 | crates/vela-server/src/audio/enrollment.rs:83-89 | the encoder's data bytes decode to exactly the quantized samples, in order |
| Wav.UploadedClip | crates/vela-server/src/audio/enrollment.rs:73-98 | browser to server for every clip and rate: the samples received are all of them if and only if there are fewer than 2^31; they are refused for rate, emptiness or more than 12 s, each exactly then, and otherwise accepted with their number, their duration, and every sample within 1.5/32768 |
| Wav.PositionIsInside | apps/admin-web/src/lib/wav.ts:32-37 | the interpolation loop never indexes out of range |
| Wav.ResampleLinear | apps/admin-web/src/lib/wav.ts:28-42 | empty, copied or interpolated at the scaled position, for all rates |
| Wav.ResampleFrom48k | apps/admin-web/src/lib/wav.ts:28-42 | a 48 kHz recording at 16 kHz is exactly every third sample, rounded down in number |
| Wav.DoubledRate | apps/admin-web/src/lib/wav.ts:31-39 | at twice the rate every sample is kept and the mean of its neighbours put between two |
| Wav.InterpolationBetween | apps/admin-web/src/lib/wav.ts:34-39 | interpolation meets every input sample, weighs the two neighbours between them, and holds the last one past the end |
| Wav.DurationIsKept | apps/admin-web/src/lib/wav.ts:31-32 | the output lasts as long as the input to within one output sample |
| Wav.InterpolationStaysInRange | apps/admin-web/src/lib/wav.ts:35-39 | no output sample leaves the range of the input samples |
| Wav.LineIsKept | apps/admin-web/src/lib/wav.ts:35-39 | a straight line is resampled to itself |
| Lifecycle.OneCloseReports | crates/vela-server/src/lifecycle.rs:121-123 | over every run exactly one close reports the transition, and none before it |
| Lifecycle.NothingIsTakenBack | crates/vela-server/src/lifecycle.rs:106-124 | the gate never reopens and no signal is withdrawn |
| Lifecycle.SignalsHaveCauses | crates/vela-server/src/lifecycle.rs:345-400 | in every run listener, gate and hard stop are up exactly when some caller has raised them |
| Lifecycle.CallerCanFinish | crates/vela-server/src/lifecycle.rs:363-446 | shutdown is never blocked: from any state any caller comes to its end by its own steps and the passing of time alone |
| Lifecycle.StepKeepsSessions | crates/vela-server/src/lifecycle.rs:176-210 | under every step the map holds exactly the sessions live or becoming live, and no identifier is reused |
| Lifecycle.StepKeepsCallers | crates/vela-server/src/lifecycle.rs:345-408 | callers keep their order, and the hard stop is raised exactly when one has finished |
| Lifecycle.CallersAreAccounted | crates/vela-server/src/lifecycle.rs:363-446 | every caller past its drain observed a count of zero, or read a positive count no earlier than its grace deadline and then made a controlled close of the number of sessions it reports; a failed flush ended no earlier than the deadline |
| Lifecycle.CallerFollowsProgram | crates/vela-server/src/lifecycle.rs:363-408 | whatever runs beside it, each caller takes exactly the steps of the shutdown in order, and its report says which |
| Lifecycle.StopIsOrdered | crates/vela-server/src/lifecycle.rs:345-408 | when the hard stop is raised listener and gate are closed, and a zero count was observed or every session in the map at a controlled close holds a cancelled token |
| Lifecycle.SignalledAtAControlledClose | crates/vela-server/src/lifecycle.rs:225-235 | a session's token is cancelled if and only if it was in the map at a controlled close |
| Lifecycle.LeftIsNeverSignalled | crates/vela-server/src/lifecycle.rs:199-235 | sessions gone before that step are never signalled |
| Lifecycle.CountsWereSizes | crates/vela-server/src/lifecycle.rs:183-209 | for the fine-grained steps, every published count was the size of the map right after some critical section |
| Lifecycle.CountComesRightIff | crates/vela-server/src/lifecycle.rs:183-209 | in any state: however the waiting counts are published, the published count ends as the number of sessions if and only if every waiting count is that number (with none waiting, the published one is) |
| Lifecycle.AtomicCountComesRight | crates/vela-server/src/lifecycle.rs:176-210 | atomic registration meets that condition in every state of every run |
| Lifecycle.AtomicCountIsExact | crates/vela-server/src/lifecycle.rs:176-210 | with atomic registration and nothing waiting the published count is the size of the map, which is the live sessions |
| Lifecycle.AtomicCountCoversLive | crates/vela-server/src/lifecycle.rs:213-220 | with atomic registration the count is positive while any session is live, so a drain ends only when none is |
| Lifecycle.LiveAreSignalled | crates/vela-server/src/lifecycle.rs:363-408 | with atomic registration, past any caller's drain every live session has been signalled, or completed its registration after the gate had closed |
| Lifecycle.EverySessionIsSignalled | crates/vela-server/src/lifecycle.rs:363-408 | if moreover nobody registers once the gate is closed, the hard stop finds no session that was not asked to close |
| Lifecycle.LateRegistrationIsAbandoned | crates/vela-server/src/lifecycle.rs:176-192 | that assumption is needed: an atomic run in which a session registers after the drain and meets the hard stop unsignalled |
| Lifecycle.StaleCount | crates/vela-server/src/lifecycle.rs:183-209 | a run of the code's own steps that publishes zero with one session live |
| Lifecycle.StaleCountAbandonsASession | crates/vela-server/src/lifecycle.rs:363-428 | that run goes on to raise the hard stop with a live session never signalled |
| RuntimeLifecycle.AdmissionGate.Close | crates/vela-server/src/lifecycle.rs:121-123 | closes, and reports whether it was open |
| RuntimeLifecycle.RegisteredIsCounted | crates/vela-server/src/lifecycle.rs:176-192 | issuing, inserting and publishing in one go adds one fresh live session and publishes the exact count |
| RuntimeLifecycle.DrainRegistry.Register | crates/vela-server/src/lifecycle.rs:176-192 | the object follows those three steps, with a fresh uncancelled token of its own |
| RuntimeLifecycle.DrainRegistry.Unregister | crates/vela-server/src/lifecycle.rs:199-210 | follows removal and publication; leaving twice changes nothing |
| RuntimeLifecycle.DrainRegistry.ControlledCloseAll | crates/vela-server/src/lifecycle.rs:225-235 | cancels every registered session's token, at the time of the call, and no other, and reports how many |
| RuntimeLifecycle.RuntimeLifecycle.BeginShutdown | crates/vela-server/src/lifecycle.rs:345-356 | listener, gate and provider runtime are closed at once, and the transition is reported once |
| RuntimeLifecycle.RuntimeLifecycle.DrainUntil | crates/vela-server/src/lifecycle.rs:410-423 | drained exactly when zero was read at the start, at a wake-up before the deadline, or at the deadline, and then at the first such read; otherwise the count read at the deadline |
| RuntimeLifecycle.RuntimeLifecycle.DrainOrClose | crates/vela-server/src/lifecycle.rs:376-393 | a controlled close of every registered session exactly when the deadline was reached, and none otherwise |
| RuntimeLifecycle.RuntimeLifecycle.Shutdown | crates/vela-server/src/lifecycle.rs:363-408 | the listener is cancelled and the gate closed when shutdown begins, session tokens exactly when the drain ends at the deadline, and the hard stop at the end of the flush; all waiting ends within one grace period, and outcome, closes and `history_flushed` follow from what the waits saw |
| RuntimeLifecycle.RuntimeLifecycle.FlushUntil | crates/vela-server/src/lifecycle.rs:430-446 | succeeds exactly when some look finds the writer settled, stops at the first, never outlasts the deadline, counts a drop exactly on failure |
| RuntimeLifecycle.SettledIsSeen | crates/vela-server/src/lifecycle.rs:430-446 | a writer settled at the deadline, or for 20 ms before it, is seen; one never settled until then is not |
| Application.DeviceStateMachine.TransitionTo | firmware/esp32/main/device_state_machine.cc:113-135 | succeeds exactly on a valid transition and otherwise leaves the state |
| DeviceControl.FatalErrorIsIsolated | firmware/esp32/main/device_state_machine.cc:35-105 | no sequence of requests enters or leaves the fatal state |
| DeviceControl.IdleIsReachable | firmware/esp32/main/device_state_machine.cc:35-105 | requests can lead to idle from a state if and only if it is not the fatal one |
| DeviceControl.ContinuationDecides | firmware/esp32/main/application.cc:822-842 | a continuation run in Connecting always leaves it, whatever other threads request meanwhile, and without interference ends in Listening or Idle as the channel opens or not |
| DeviceControl.HandledExtends | firmware/esp32/main/application.cc:780-932 | every handler schedules at most one task, and enters Connecting only together with a continuation that finds its protocol |
| DeviceControl.ConnectsWithItsContinuation | firmware/esp32/main/application.cc:780-956 | only the two talk buttons and the wake word make a device connect, from Idle or Notifying and with a protocol, each leaving the continuation that carries its own mode |
| DeviceControl.RanExtends | firmware/esp32/main/application.cc:822-842 | the same for every scheduled task |
| DeviceControl.StepKeepsWaiting | firmware/esp32/main/application.cc:265-272 | until it runs, a queued continuation keeps its place and moves up one for each task run |
| DeviceControl.StepKeepsInv | firmware/esp32/main/application.cc:806-842 | every step of every thread keeps: connecting implies a queued continuation, and tasks that need the protocol have it |
| DeviceControl.NoStuckConnecting | firmware/esp32/main/application.cc:806-993 | in every run from start-up a connecting device has a continuation queued and a protocol |
| DeviceControl.ConnectingIsBounded | firmware/esp32/main/application.cc:265-272 | under every interleaving a device that stays connecting has run only tasks queued ahead of its continuation |
| DeviceControl.ConnectingEnds | firmware/esp32/main/application.cc:265-272 | once as many tasks have run as were pending, the device has left Connecting |
| DeviceControl.BatchRuns | firmware/esp32/main/application.cc:265-272 | a batch can always be run to its end, tasks scheduled meanwhile waiting for the next round |
| Application.Application.RunScheduledTasks | firmware/esp32/main/application.cc:265-272 | one round runs exactly the queued tasks in order, keeps the invariant, and gets a connecting device out of Connecting on the way |
| Application.Application.Schedule | firmware/esp32/main/application.cc:1167-1173 | appends one task |
| Application.Application.ContinueOpenAudioChannel | firmware/esp32/main/application.cc:822-842 | ignored unless still connecting, otherwise Listening with the given mode or Idle |
| Application.Application.ContinueWakeWordInvoke | firmware/esp32/main/application.cc:958-993 | the same with the default mode |
| Application.Application.BeginWakeWordInvoke | firmware/esp32/main/application.cc:934-956 | always passes through Connecting, dropped when that is refused, continued at once when the channel is open |
| Application.Application.HandleToggleChatEvent | firmware/esp32/main/application.cc:780-820 | keeps the invariant of `StepKeepsInv` under any interference; if it leaves the device connecting, the continuation with the default mode was queued last |
| Application.Application.HandleStartListeningEvent | firmware/esp32/main/application.cc:844-878 | keeps the invariant of `StepKeepsInv` under any interference; if it leaves the device connecting, the continuation with manual stop was queued last |
| Application.Application.HandleStopListeningEvent | firmware/esp32/main/application.cc:880-895 | keeps the invariant of `StepKeepsInv` under any interference, schedules nothing, and without interference leaves none of Listening, Notifying and AudioTesting |
| Application.Application.HandleWakeWordDetectedEvent | firmware/esp32/main/application.cc:897-932 | keeps the invariant of `StepKeepsInv` under any interference; if it leaves the device connecting, the wake-word continuation was queued last |
| Application.Application.HandleNetworkConnectedEvent | firmware/esp32/main/application.cc:289-314 | keeps the invariant of `StepKeepsInv` under any interference, schedules nothing, and without interference leaves neither Starting nor WifiConfiguring |
| Application.Application.HandleNetworkDisconnectedEvent | firmware/esp32/main/application.cc:316-331 | keeps the invariant of `StepKeepsInv` under any interference; a conversation's channel is closed, and the state itself changes only from Notifying to Idle |
| Application.Application.HandleErrorEvent | firmware/esp32/main/application.cc:190-197 | keeps the invariant of `StepKeepsInv` under any interference, schedules nothing, and without interference ends in Idle from every state that may go there |
| Application.Application.HandleActivationDoneEvent | firmware/esp32/main/application.cc:333-337 | keeps the invariant of `StepKeepsInv` under any interference, schedules nothing, and without interference ends activation in Idle |
| Application.Application.StartNotificationPlayback | firmware/esp32/main/application.cc:1101-1145 | Notifying only from Idle, when not busy and once playback has started |
| Application.Application.Execute | firmware/esp32/main/application.cc:562-640 | every scheduled task does what its reference transition says |
| Application.Application.Serve | firmware/esp32/main/application.cc:190-255 | one event bit: its handler and no other runs, only if the bit is set, as one step of the control model |
| Application.Application.ServeEvents | firmware/esp32/main/application.cc:190-255 | the handlers of one turn run in the order in which the loop looks at the bits, as a run of the control model |
| Application.Application.RunTurn | firmware/esp32/main/application.cc:187-272 | one turn of the main loop is a run of the control model that keeps the invariant, and a device connecting when the schedule bit is served leaves Connecting |
| Application.PressAndReleaseInOneTurn | firmware/esp32/main/application.cc:190-255 | press and release of the talk button served in one turn end in Idle |
| Application.ErrorBeforeRetryInOneTurn | firmware/esp32/main/application.cc:190-255 | an error and the chat button served in one turn: the error ends the conversation, the button starts the next |
| Conversations.ConversationContinues | firmware/esp32/main/application.cc:780-993 | from idle or notifying, over a channel that was open or opens: the answer to push to talk ends in Idle, that to the chat button or the wake word in Listening unless the default mode stops by hand |
| Conversations.PushToTalk | firmware/esp32/main/application.cc:844-895 | press, release, answer: the device ends idle with the channel open |
| Conversations.FailedOpenEndsIdle | firmware/esp32/main/application.cc:822-993 | a conversation whose channel does not open ends in Idle with nothing queued |
| Conversations.Interruption | firmware/esp32/main/application.cc:844-932 | talking over the answer: the talk button makes the rest push to talk, the wake word returns to the default mode, the chat button changes neither |
| Conversations.ModeIsChosen | firmware/esp32/main/application.cc:800-993 | the chat button fixes the listening mode when pressed, the wake word when its channel opens |
| Conversations.EarlierRequestWins | firmware/esp32/main/application.cc:800-993 | a request that wins the race before Connecting stands: the wake word is dropped, a talk button opens no channel |
| Conversations.LaterRequestWins | firmware/esp32/main/application.cc:822-993 | a request that ends Connecting before the continuation runs stands, and no channel is opened |
| Conversations.HangUp | firmware/esp32/main/application.cc:316-331 | hanging up, losing the network and closing the channel each end a conversation in Idle with the channel closed |
| Conversations.NetworkLossElsewhere | firmware/esp32/main/application.cc:316-331 | outside a conversation losing the network ends a notification and changes nothing else, whatever other threads do |
| Conversations.SpeechTasks | firmware/esp32/main/application.cc:622-638 | speech starts exactly from Idle, Listening and Speaking, and stops only where it was |
| Conversations.ChannelCloses | firmware/esp32/main/application.cc:570-577 | a closed channel ends every activity that may end in Idle |
| Conversations.NotificationPlays | firmware/esp32/main/application.cc:1101-1165 | a notification plays from Idle until it is finished, and not at all when its start fails |
| Conversations.NotificationIsIgnored | firmware/esp32/main/application.cc:1101-1165 | a start in any other state or while busy, and a report that is stale or late, change nothing |
| Conversations.Invocations | firmware/esp32/main/application.cc:1267-1298 | the wake-word invocations of other threads start the same conversation, each from its own state only |
| Conversations.StartUp | firmware/esp32/main/application.cc:289-363 | from power-up over a network and activation to Idle |
| Conversations.FirstConversation | firmware/esp32/main/application.cc:289-363 | once there is a protocol each of the three ways to talk leads from there to Listening |
| Conversations.NoConversationWithoutProtocol | firmware/esp32/main/application.cc:780-932 | in every run before that the device never connects and no channel opens |
| Conversations.WifiSetUp | firmware/esp32/main/application.cc:780-820 | pressing the chat button twice in Wi-Fi set-up tests the audio and returns to it; a network then activates |
| Conversations.OutsideConversations | firmware/esp32/main/application.cc:780-932 | talking ends a running activation; in Wi-Fi set-up only the talk buttons start the audio test, and only chat button and release end it |
| Conversations.NothingStarts | firmware/esp32/main/application.cc:780-932 | without a protocol, while connecting, updating or broken, the three ways to talk change nothing |
| Conversations.TransitionsByTarget | firmware/esp32/main/device_state_machine.cc:35-105 | for every state, exactly the states it may be entered from |
| MainLoop.StepKeepsAnnounced | firmware/esp32/main/application.cc:1167-1173 | with push, set-bit, wake and take as separate steps: a queued task is announced by the bit, about to be announced by its poster, or about to be taken by the loop |
| MainLoop.StepKeepsAccounted | firmware/esp32/main/application.cc:265-272 | every task ever queued has run, is in the batch or is in the queue, once and in that order |
| MainLoop.NoTaskIsLost | firmware/esp32/main/application.cc:187-272 | in every history since start-up: when the loop is blocked, no bit set and no poster under way, every task ever scheduled has run, exactly once and in order, and the device is not connecting |
| MainLoop.PostedTaskIsAnnounced | firmware/esp32/main/application.cc:1167-1173 | a task another thread schedules is last in the queue and the bit set once that thread is done |
| MainLoop.AnnouncedTaskIsServed | firmware/esp32/main/application.cc:187-272 | one announced task: the loop wakes, takes it, runs it and blocks again, with the bit set exactly if the task scheduled another |
| MainLoop.WakingTakesTheQueue | firmware/esp32/main/application.cc:265-272 | woken by the bit, the loop takes everything queued, in order |
| ToolPager.McpServer.AddTool | firmware/esp32/main/mcp_server.cc:329-340 | appends unless the name is taken |
| ToolPager.McpServer.AddCommonTools | firmware/esp32/main/mcp_server.cc:28-122 | common tools first, the earlier ones spliced in behind them unchecked |
| ToolPager.AddedIsDistinct | firmware/esp32/main/mcp_server.cc:329-340 | adding one by one keeps names distinct and loses none |
| ToolPager.SpliceIsDistinct | firmware/esp32/main/mcp_server.cc:119-121 | the splice keeps names distinct if and only if no common tool reuses one |
| ToolPager.McpServer.FillPage | firmware/esp32/main/mcp_server.cc:510-540 | the loop lists the visible tools from the cursor's tool up to the first that does not fit, and names that one |
| ToolPager.McpServer.GetToolsList | firmware/esp32/main/mcp_server.cc:505-562 | the reply: a page with or without `nextCursor`, or the error naming the tool that does not fit |
| ToolPager.ReplyReadsBack | firmware/esp32/main/mcp_server.cc:505-562 | for tools that print JSON objects, every page read as JSON is an object with exactly the listed tools, in order, and the cursor of the reply |
| ToolPager.CursorResolves | firmware/esp32/main/mcp_server.cc:516-523 | a cursor leads back to its own tool if and only if the name is non-empty and not used earlier |
| ToolPager.EndOfFacts | firmware/esp32/main/mcp_server.cc:514-540 | why a page ends where it does, and that what it lists keeps the size limit |
| ToolPager.PageLength | firmware/esp32/main/mcp_server.cc:507-561 | the exact length of every page that lists something |
| ToolPager.PageSize | firmware/esp32/main/mcp_server.cc:507-561 | a last page has at most 7971 bytes, any other at most 7987 plus its cursor |
| ToolPager.LimitHoldsIffShortNames | firmware/esp32/main/mcp_server.cc:507-561 | every page of every list of usable tools with names of at most n bytes keeps the announced 8000 bytes if and only if n is at most 13 |
| ToolPager.OverlongPage | firmware/esp32/main/mcp_server.cc:530-558 | for every n from 14 on, two tools whose first page has 7987 + n bytes |
| ToolPager.WalkIsComplete | firmware/esp32/main/mcp_server.cc:505-562 | following cursors reaches a last page if and only if something is visible and every visible tool fits alone, and then has listed every visible tool once and in order |
| ToolPager.FollowCursors | firmware/esp32/main/mcp_server.cc:505-562 | a client loop over the real replies terminates, ends without an error exactly then, and has then listed every visible tool once and in order |
| IdempotencyLedger.AdminTaskControlState.GetIdempotent | crates/vela-server/src/app/state.rs:46-48 | the key's latest submission if it is among the latest 256 admissions, else nothing |
| IdempotencyLedger.AdminTaskControlState.InsertIdempotent | crates/vela-server/src/app/state.rs:50-60 | the queue stays duplicate-free, bounded by 256 and exactly the map's keys, for the history with one more insert |
| IdempotencyLedger.AdmitKeepsWindow | crates/vela-server/src/app/state.rs:51-58 | what the reference window becomes: unchanged for a resident key, else shifted by one |
| IdempotencyLedger.ReadmissionNeedsEviction | crates/vela-server/src/app/state.rs:51-58 | two admissions of one key lie more than 256 admissions apart |
| IdempotencyLedger.LifetimeIsExactly256Admissions | crates/vela-server/src/app/state.rs:51-59 | an admitted key answers through the 256th admission, re-submitted or not, and is gone at the next |
| IdempotencyLedger.SubmittedWasAdmitted | crates/vela-server/src/app/state.rs:50-60 | a key was ever submitted if and only if it was ever admitted |
| IdempotencyLedger.NothingForgottenWithin256 | crates/vela-server/src/app/state.rs:46-60 | up to 256 admissions, lookup is the plain map of latest submissions |

## Left out

- HTTP, NVS, partition lookup and memory-mapping calls, and their error returns: the body is any sequence of chunks that may break off, and flash is an array of cells with a budget of operations that may run out anywhere.
- The flash sector size is fixed at 4096 bytes, and partitions are at most 0xFF000000 bytes, so that a length field with a blank top byte exceeds them.
- Alignment and page limits of flash programming: cells are programmed byte by byte.
- The packer's directory sort and file system access: the listing is any sequence of entries.
- Names that are not ASCII, which the packer pads in characters rather than bytes.
- The Opus encoder and its failures: frames are the recorded PCM, and encoding always succeeds.
- IEEE rounding: samples, coefficients and probabilities are reals, and 0.05, 0.001 and 0.999 are exact; nothing is claimed about bit equality.
- The values of the filter taps beyond their normalization (sine and cosine).
- Enrollment.SelectWindow: called with a window of 2^32 frames or more, where its u32 sum could overflow, it is not claimed; `analyze` never does.
- Enrollment.Analyze: root mean squares are compared through their squares, and the embedding functions are not modelled.
- Wav.ParseWav: the WAV library is not part of this model, so other chunk layouts than the encoder's own are simply refused.
- Wav.ClampToInt16: NaN, which the browser writes as zero; `downmixToMono`, a plain average.
- Waiting for the provider runtime to shut down, past closing it, and the readiness report.
- The history writer: whether it is settled is a function of time, and time passes only in sleeps.
- RuntimeLifecycle.RuntimeLifecycle.Shutdown: the published count is a function of time, and the registry object stands still while the shutdown waits; how sessions interleave with it is the subject of `Lifecycle`.
- RuntimeLifecycle.DrainRegistry.Register: the object's methods run without interference; the interleavings are those of the steps in `Lifecycle`.
- Memory ordering and lock poisoning in the shutdown code: steps are sequentially consistent.
- `ResetProtocol` and `Reboot`, which drop the protocol: runs with them are not claimed free of stuck states.
- Display, sound, LED and power effects of the firmware handlers, and sending audio: `Display` stands for tasks with only such effects.
- Application.DeviceStateMachine.TransitionTo: its load and store are one atomic step; listeners are not modelled.
- MainLoop.Next: a handler or task that schedules pushes and sets the bit in one step, since only the loop itself clears bits; event bits other than the schedule bit may wake the loop at any time.
- Tool descriptions and JSON escaping in `tools/list`: a tool's JSON is any text of an object, and lengths count characters.
- `AddUserOnlyTools` and tool calls, which only use `AddTool`.
- The separate event-stream loop of the system log page.
