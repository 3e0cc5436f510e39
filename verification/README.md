# Anivar, verified

A Dafny model of the algorithms and state machines inside Anivar's Rust backend, with proofs of what
they are for. Anivar records cameras; between its I/O layers sit small programs that cut a byte pipe
into images, decide when a person is climbing a fence, group sounds into events, train a face
classifier, guard a login, keep secrets through key changes, and move images out of a database while
anything may fail. Each of them is modelled here in the form it has in the source, and related to a
description of its purpose over all inputs or all runs.

`dafny verify dfyconfig.toml` checks the project.

## How it is laid out

A part of the source that changes state is a class or a method over arrays; its `ensures` equate what
it does with a specification function. A run is a fold of that function over a list of steps, and the
theorems are lemmas about runs. Folds take the last element off first, so a loop and its fold grow
together.

| files | source | subject |
|---|---|---|
| JpegSplitter, JpegRuns, DetectionGate | dshow.rs | cutting images out of a chunked pipe; the reader's detection gate |
| Behaviour, BehaviourRuns, BehaviourVisits, BehaviourPersons, BehaviourClimbing, ClimbingSamples, BehaviourCrowd | behaviour.rs | the rule engine, non-interference of tracks, and each alert exactly |
| FenceGeometry, FootSpeed, PoseChecks | behaviour.rs | which side of a fence, how fast, and when to look for a pose |
| AudioEvents, AudioSessions, AudioImpulses, AudioThreshold, PcmRing, MicClaims, MicOverlaps | audio_cmds.rs | sustained audio events as a batch split; when impulses and high pitch alarm; the PCM ring; one detector per microphone |
| EditDistance, PlateMatcher, PlateLetters, PlateFormatting | alpr.rs | Levenshtein's two rows; whose plate it is, however it is written |
| Upsampling, GradientDescent, TrainingDirection, TrainingObjective, FaceTraining | face_classifier.rs | balanced training, what it conserves, where it goes and where it rests; prediction |
| Nms, BoxOverlap, YoloDecoder, DetrDecoder, BoxGeometry, Detections | face.rs, inference.rs | suppression and overlap; tensor layouts, boxes and detections |
| Identity | face.rs, inference.rs | best and runner-up, one identity per frame, votes |
| Auth, AuthRuns, AuthChecks, AuthPasswords | auth.rs, auth_cmds.rs | send throttle, challenges, openings, lockout, password checks in a span of time; which password and which codes count |
| Secrets | crypto.rs | the `enc:` format; secrets through boots and saves |
| BlobStore, MigrationSteps | blobstore.rs | storing, migrating and sweeping images |
| DepthWorker, DepthEmissions | depth.rs | the single-in-flight worker under any interleaving, and what it sends |
| Options, Seqs, Numbers, Arithmetic | | helpers |

## What is assumed

Times come from one clock per run that does not go back, read once per step; `f32` is exact. AES-GCM,
hashing, password verification, base64 and `exp` are parameters: the cipher opens what it sealed under
the same key and nothing sealed under another, base64 (section 4 of RFC 4648) decodes only canonical
text, `exp` is positive (and increasing, or turns sums into products, or lies above its tangent at zero,
where a lemma says so). Ids drawn
at random are fresh. Each result states which of these it needs as a `requires`.

## Results that differ from the source's own words

- `next_jpeg` throws its buffer away above 8 MiB. `JpegRuns.FaithfulExactlyWhenImagesFit` gives the
  exact condition for the splitter to hand out every image: no unfinished image exceeds 8 MiB at a chunk
  boundary. `JpegRuns.ResetLosesTheImage` shows the image that is lost otherwise.
- `match_known_plate` promises a name when exactly one known plate is one misread away
  (alpr.rs:45-46). It counts lines, not plates: `PlateMatcher.DuplicateLineHidesTheOwner` is an input on
  which a plate listed twice is not named, and `PlateMatcher.FuzzyPromiseExactly` says when the promise holds.
- The comments want gunshots and explosions to notify as critical (audio_cmds.rs:237-239). What a group of
  hits notifies as is settled by its first two: `AudioImpulses.AlarmExactly` gives the condition,
  `AudioImpulses.ImpulseExactly` says for an impulse at each place of a group when the group alarms, and
  `AudioImpulses.PromiseExactly` when two hits make the promise safe whatever follows.
  `AudioImpulses.QuieterGunshotRun` is a run whose gunshot scores below the sound before it, and
  `AudioImpulses.ThirdGunshotRun` one whose gunshot scores above everything but comes third.
- A send exactly ten minutes after another no longer counts it, so four sends fit a closed span of ten
  minutes (`AuthRuns.FourSendsFitTenMinutes`); half-open spans hold three.
- The lockout bounds failed logins by time (`AuthChecks.WrongLoginsAreFew`), not password checks: a change of
  password checks the current one without counting (auth_cmds.rs:108-113), so any number of checks fit one
  instant (`AuthChecks.UncountedChecks`). `AuthChecks.BoundCoversExactly` says when the bound holds for all checks.
- A microphone claim that a restart of the same camera has replaced no longer protects: when the newer
  detector stops first, another camera is granted the microphone while the older one has not released
  (`MicClaims.ReplacedDetectorMayOverlap`). Two cameras can end up on one microphone, even if from now on
  every camera releases before it claims again, exactly when some grant is neither released nor standing
  (`MicOverlaps.TidyOverlapExactly`); without that discipline, exactly when any grant is unreleased
  (`MicOverlaps.OverlapExactly`); and if every camera keeps to it from the start, never
  (`MicOverlaps.TidyRunsNeverOverlap`).
- A climb is meant to take two pose samples (behaviour.rs:448). The fences of a camera share one set of flags,
  so one sample can count twice: `ClimbingSamples.OneSampleAlert` is such an input,
  `ClimbingSamples.OneSampleExactly` says when a climb owes nothing to an earlier sample, and
  `ClimbingSamples.OneSamplePossibleExactly` for which fences that can happen.
- A depth inference that panics keeps the busy flag, and the worker then repeats one frame for good
  (`DepthWorker.DeathIsForGood`), or stays silent if it was the first (`DepthWorker.SilentAfterFirstDeath`).
- The YOLO decoder is to read both export layouts. A channels-last tensor with 84 anchors has the shape of a
  channels-first one and is read as its transpose: `YoloDecoder.SquareIsMisread` is an input on which a
  detection is missed, and `YoloDecoder.LayoutDoesNotMatterExactly` shows that 84 is the only such number.
- The migration keeps every image, however its calls end, if and only if no cell refers to a file that a row
  has yet to write (`BlobStore.MigrationKeepsExactly`); rows that refer only to their own files never do
  (`BlobStore.OwnRefsAliasNothing`).
- The sweep spares young files only if their metadata can be read (blobstore.rs:104-106): an unreferenced file
  just written is removed if it cannot (`BlobStore.UnreadableYoungFileIsSwept`). `BlobStore.SweepKeepsMeaning`
  speaks of files whose time is known.

## Model

| member | source | states |
|---|---|---|
| JpegSplitter.Splitter.NextJpeg | src-tauri/src/dshow.rs:33-60 | One call returns the first image of the whole-stream reading of the buffer and leaves a buffer that reads as the rest; `None` means the buffer holds no image, and it is then the tail (emptied above 8 MiB). The resume index never steps over an EOI, half-markers at chunk edges included |
| JpegSplitter.Splitter.CutSpan | src-tauri/src/dshow.rs:46-58 | Resuming the search one byte before the scanned end finds the EOI that a search from the SOI would find |
| JpegSplitter.Splitter.Ingest | src-tauri/src/dshow.rs:342-348 | One read drains exactly the images of held bytes plus chunk |
| JpegRuns.ReadPipe | src-tauri/src/dshow.rs:342-348 | The reader loop over any list of chunks hands out what `Run` specifies |
| JpegSplitter.Resume | src-tauri/src/dshow.rs:28-32 | Reading a stream can stop anywhere: the tail alone determines what later bytes yield |
| JpegSplitter.ImagesComeBack | src-tauri/src/dshow.rs:28-32 | Round trip: images written back to back are cut apart again with nothing left over |
| JpegRuns.ChunkedRunIsWholeStream | src-tauri/src/dshow.rs:33-60 | For every chunking, the images handed out are those of the whole stream, if unfinished images fit the buffer |
| JpegRuns.ChunkingDoesNotMatter | src-tauri/src/dshow.rs:33-60 | Two chunkings of one stream end in the same images and the same held bytes |
| JpegSplitter.FramesAreImages | src-tauri/src/dshow.rs:28-32 | Every image handed out starts at an SOI, ends at the first EOI after it, and has 100 bytes or more |
| JpegSplitter.ImageInBytes | src-tauri/src/dshow.rs:28-32 | That is, in bytes: FF D8 in front, FF D9 at the end and nowhere between |
| JpegRuns.BufferIsBounded | src-tauri/src/dshow.rs:51-54 | With no proviso, at most 8 MiB are held between reads and one read more while draining |
| JpegRuns.ResetLosesTheImage | src-tauri/src/dshow.rs:51-54 | After an overflow, closing the image gives one image fewer than the stream has |
| JpegRuns.FaithfulExactlyWhenImagesFit | src-tauri/src/dshow.rs:33-60 | Every continuation of a run is faithful if and only if no unfinished image exceeds 8 MiB at a chunk boundary |
| DetectionGate.Reader.OnFrame | src-tauri/src/dshow.rs:378-391 | A frame opens the gate 140 ms after the last start if nothing is running, and is dropped otherwise |
| DetectionGate.DetectionsAreSpaced | src-tauri/src/dshow.rs:378-391 | Over any run, at most one detection is running and starts are 140 ms apart |
| DetectionGate.FrameStartsExactly | src-tauri/src/dshow.rs:378-391 | A frame is looked at if and only if all earlier looks have ended and the last began 140 ms ago or more |
| Behaviour.CamState.Step | src-tauri/src/behaviour.rs:149-263 | One frame on the mutable tables is the specified step of every track in view, of the forgetting, and of the crowd rule, alerts in order |
| Behaviour.CamState.PoseDue | src-tauri/src/behaviour.rs:137-146 | The pose question on the mutable table, with the entry it creates and the note it leaves |
| Behaviour.CamState.WalkFences | src-tauri/src/behaviour.rs:224-239 | The walk that stops at the confirming fence is the fold over all fences; FenceGeometry says which side of a line each foot is on |
| FenceGeometry.LineIsStraight | src-tauri/src/behaviour.rs:285-290 | A fence has a line at x exactly within its span, ends at least 1e-4 apart, and the y returned there is the one on the straight line through both ends |
| FenceGeometry.EndsSwap | src-tauri/src/behaviour.rs:285-290 | Drawing a fence from its other end changes no answer |
| BehaviourClimbing.SidesAtLine | src-tauri/src/behaviour.rs:226-237 | The side of the straight line is the comparison with that y, a margin of 0.01 belonging to neither |
| FootSpeed.MeasuredExactly | src-tauri/src/behaviour.rs:269-275 | There is a speed if and only if the box has 24 pixels, three recent points span a second, and some step takes more than 10 ms |
| FootSpeed.RecentExactly | src-tauri/src/behaviour.rs:271-272 | The recent points are the end of the history that is at most 1.5 s old |
| FootSpeed.SpeedsExactly | src-tauri/src/behaviour.rs:276-281 | There is one speed for each step of more than 10 ms, in order; with time and body height it covers the way the foot went |
| FootSpeed.EvenMotionIsMeasured | src-tauri/src/behaviour.rs:269-283 | A foot that moves evenly is measured at just its speed |
| PoseChecks.PoseDueExactly | src-tauri/src/behaviour.rs:137-146 | Over any run the answer is yes if and only if a pose rule is on, the last yes is a second old or more, and the person is new, below 0.65 of the largest height of the visit, perhaps down, or on a camera with a fence |
| BehaviourRuns.NonInterference | src-tauri/src/behaviour.rs:149-241 | The alerts of a track over any run are those of a run on its own observations alone, whoever else is in view, whenever it is forgotten, and whatever pose checks are made |
| BehaviourRuns.SameViewSameAlerts | src-tauri/src/behaviour.rs:149-241 | Two runs that agree on one person raise the same alerts about that person |
| BehaviourRuns.TrackIgnoresPose | src-tauri/src/behaviour.rs:137-146 | No rule depends on when the last pose sample was taken |
| BehaviourVisits.AlertsAreFired | src-tauri/src/behaviour.rs:149-241 | Ties the per-observation results to whole runs: a run's alerts about a track are what its observations confirmed, in order |
| BehaviourVisits.OncePerVisit | src-tauri/src/behaviour.rs:151-158 | A first time happens at most once between two absences of a minute |
| BehaviourVisits.IntrusionExactly | src-tauri/src/behaviour.rs:160-170 | One intrusion alert for a zone at the first observation of the visit with max(inertia, 1) inside observations in a row, none otherwise |
| BehaviourVisits.ZoneLoiteringExactly | src-tauri/src/behaviour.rs:164-175 | One loitering alert at the first observation where the gaps between inside observations, each capped at 2 s, add up to the threshold; it reports that sum |
| BehaviourVisits.ZoneTable | src-tauri/src/behaviour.rs:161-180 | The zone table holds exactly that run length and that sum, for every zone after any observations |
| BehaviourPersons.InViewExactly | src-tauri/src/behaviour.rs:183-189 | Whole-frame loitering fires at the first observation that long after the visit began, once |
| BehaviourPersons.RunningExactly | src-tauri/src/behaviour.rs:192-199 | Running fires at the first observation of the visit whose median speed reaches the bar, once |
| BehaviourPersons.MedianMeansHalf | src-tauri/src/behaviour.rs:267-283 | The sorted middle reaches a bar if and only if at least half of the steps, rounded up, do |
| BehaviourPersons.PersonDownExactly | src-tauri/src/behaviour.rs:202-223 | Person-down fires once, at the first observation where the visit shows an upright sample, then three unexcused flat ones over 10 s with none below 45 degrees since the first, and reports the time since that first one |
| BehaviourPersons.EvidenceIsCounted | src-tauri/src/behaviour.rs:206-221 | The counters hold that evidence if and only if the trace has it |
| BehaviourPersons.NoDownWhenOff | src-tauri/src/behaviour.rs:203-203 | With the rule off there is no such alert |
| BehaviourPersons.NoDownWhereIgnored | src-tauri/src/behaviour.rs:203-206 | A sample is flat if and only if it leans 60 degrees or more and the foot is in no zone that ignores falls; in such a zone the rule does not fire |
| BehaviourClimbing.ClimbingExactly | src-tauri/src/behaviour.rs:224-239 | Climbing fires once, at the first observation by which the visit shows ankles below some line and then twice above some line with none below between, and names the fence of the above-side that completes this; a side is the sign of the turn at the ankles from one end of the fence to the other |
| BehaviourClimbing.ConfirmsOnce | src-tauri/src/behaviour.rs:229-234 | That above-side is unique |
| BehaviourClimbing.WatchMeans | src-tauri/src/behaviour.rs:226-237 | The three climbing fields recognise exactly those sequences of sides |
| ClimbingSamples.OneSampleExactly | src-tauri/src/behaviour.rs:226-237 | A climb owes nothing to the above-sides of earlier observations if and only if its last observation holds both of them, with no below-side between |
| ClimbingSamples.TwoSamplesIfApart | src-tauri/src/behaviour.rs:226-237 | If the last observation has a line of at most one fence at its place, two observations were needed |
| ClimbingSamples.OneSamplePossibleExactly | src-tauri/src/behaviour.rs:226-237 | Some observations make a climb with one above-sample if and only if two fences of the camera have a line at one x |
| ClimbingSamples.OneSampleAlert | src-tauri/src/behaviour.rs:226-237 | Two level fences, one observation below both lines and one above both raise the alert, for the second fence |
| BehaviourCrowd.CrowdSeesCountsOnly | src-tauri/src/behaviour.rs:244-261 | The crowd alerts of a run depend on its headcounts alone |
| BehaviourCrowd.CrowdExactly | src-tauri/src/behaviour.rs:244-261 | A frame raises the alert if and only if it ends a chain of over-threshold frames spanning 5 s with gaps of at most 3 s and every earlier alert was followed by calm |
| BehaviourCrowd.AlertsAreApart | src-tauri/src/behaviour.rs:257-260 | Between two alerts lies an under-threshold frame at least 30 s after the last over-threshold one |
| BehaviourCrowd.HeadcountExactly | src-tauri/src/behaviour.rs:244-246 | The headcount is the number of persons in view that have a track |
| EditDistance.Levenshtein | src-tauri/src/alpr.rs:71-85 | The two swapped rows give the cost of the cheapest script of insertions, deletions and substitutions |
| EditDistance.DistIsCheapest | src-tauri/src/alpr.rs:70-85 | Some script costs the recurrence's value and none costs less |
| EditDistance.ZeroIffEqual | src-tauri/src/alpr.rs:70-85 | Distance zero means equal strings |
| EditDistance.Symmetric | src-tauri/src/alpr.rs:70-85 | The distance is symmetric |
| EditDistance.Triangle | src-tauri/src/alpr.rs:70-85 | Triangle inequality, by composing scripts |
| EditDistance.OneIffMisread | src-tauri/src/alpr.rs:43-46 | Distance one is exactly one character replaced, added or left out |
| PlateMatcher.MatchNamesTheOwner | src-tauri/src/alpr.rs:49-68 | The first line with the very plate is named; failing that the only line one misread away, both plates of four characters or more; nobody otherwise |
| PlateFormatting.SameNormExactly | src-tauri/src/alpr.rs:50-51 | Two plates have the same normal form if and only if some number of edits makes one into the other, each putting in or leaving out a character that is no letter or digit, or changing the case of a letter |
| PlateMatcher.EntryExactly | src-tauri/src/alpr.rs:53-57 | A line counts if and only if it has an '=' with a letter or digit before the first one and a name behind it; the name is trimmed |
| PlateMatcher.TrimExactly | src-tauri/src/alpr.rs:55-55 | Trimming takes the blanks at both ends and nothing else |
| PlateLetters.AlnumExactly | src-tauri/src/alpr.rs:50-50 | The characters that count are the ten digits and the letters of either case |
| PlateLetters.UpperExactly | src-tauri/src/alpr.rs:51-51 | A small letter counts as its capital |
| PlateFormatting.FormattingDoesNotMatter | src-tauri/src/alpr.rs:43-44 | Such edits of the plate read and of the plates on the lines of the setting change no answer |
| PlateMatcher.FuzzyPromiseExactly | src-tauri/src/alpr.rs:44-46 | Without an exact match, "named if and only if exactly one known plate is that close" holds if and only if that plate is not on several lines |
| PlateMatcher.DuplicateLineHidesTheOwner | src-tauri/src/alpr.rs:62-67 | A concrete setting on which that promise fails |
| PcmRing.Ring.Push | src-tauri/src/audio_cmds.rs:99-105 | Pushing a window drops from the front while older than 240 s before it |
| PcmRing.Ring.Extract | src-tauri/src/audio_cmds.rs:110-126 | The walk with skip and break collects the specified windows, their bytes and the first one's start |
| PcmRing.RingIsRecentHistory | src-tauri/src/audio_cmds.rs:99-105 | On a clock that does not go back, the ring is the part of the full history from 240 s before its newest window on |
| PcmRing.RingSpan | src-tauri/src/audio_cmds.rs:86-105 | No window is older than that, and the newest is always there |
| PcmRing.PrunedRingAnswersLikeHistory | src-tauri/src/audio_cmds.rs:110-126 | A request starting at least 1 s inside the span gets the bytes and first timestamp the unpruned history would give |
| PcmRing.PrunedAnswersExactly | src-tauri/src/audio_cmds.rs:110-126 | For a given start, every end is answered alike if and only if no dropped window reaches to within 1 s of the start |
| PcmRing.ChosenExactly | src-tauri/src/audio_cmds.rs:116-123 | The windows taken are exactly those that end at most a second outside the request, one stretch of the ring |
| PcmRing.ReplyExactly | src-tauri/src/audio_cmds.rs:116-125 | There is an answer if and only if they hold 16000 bytes; it is their bytes in order, from the start of the first |
| AudioEvents.AudioLog.NoteHit | src-tauri/src/audio_cmds.rs:214-354 | One hit on the open map, the table and the notifications; other cameras are untouched. AudioThreshold says which classes of a hit make it high-pitched |
| AudioEvents.AudioLog.Window | src-tauri/src/audio_cmds.rs:519-557 | One window closes quiet events on every camera, then takes this camera's hit |
| AudioEvents.AudioLog.CloseForCam | src-tauri/src/audio_cmds.rs:372-400 | Teardown closes this camera's event only |
| AudioEvents.Replay | src-tauri/src/audio_cmds.rs:505-563 | Over many cameras, each camera's rows and alerts are a run of its own |
| AudioSessions.OwnHitsArrive | src-tauri/src/audio_cmds.rs:505-563 | Each camera gets its own hits, in order, and no others |
| AudioSessions.SessionsAreGapSplit | src-tauri/src/audio_cmds.rs:356-368 | The groups lose and reorder no hit; inside a group gaps are below 30 s, between groups 30 s or more or a teardown |
| AudioSessions.OnlineIsBatch | src-tauri/src/audio_cmds.rs:214-374 | After any run the camera has one row per group, its peak, label, chips and flag those of the group's hits although writes were skipped, its loudness that of the hits up to the last one that rewrote it; the open event is the last group; the alerts are the groups' alerts |
| AudioSessions.AlertsOncePerGroup | src-tauri/src/audio_cmds.rs:271-277 | A group alerts exactly once if it has two hits or a critical first one, else never |
| AudioSessions.LaterHitsAreSilent | src-tauri/src/audio_cmds.rs:271-277 | From the second hit on nothing alerts again |
| AudioImpulses.AlarmExactly | src-tauri/src/audio_cmds.rs:271-277 | A group notifies as critical if and only if its first hit is critical, or its second window is high-pitched (AudioThreshold) or an impulse that scores above the first |
| AudioImpulses.ImpulseExactly | src-tauri/src/audio_cmds.rs:237-277 | An impulse heard first alarms; heard second, if and only if the first hit is critical, its window is high-pitched or it scores higher; heard later, the first two hits decide as if it had not been heard |
| AudioImpulses.PromiseExactly | src-tauri/src/audio_cmds.rs:237-277 | After two hits, every continuation that holds an impulse has alarmed if and only if the two have settled it |
| AudioImpulses.GroupInRun | src-tauri/src/audio_cmds.rs:214-374 | In any run the notices of each group stand in place among those of the run, and hold an alarm under that condition |
| AudioThreshold.QuietClassesDoNotMatter | src-tauri/src/audio_cmds.rs:225-226 | Renaming the top classes that score below the threshold changes no notice and no stored high-pitch flag of any run |
| AudioThreshold.FirstHitExactly | src-tauri/src/audio_cmds.rs:239-277 | A group's first hit notifies by itself if and only if it is an impulse or a top class at or above the threshold is on the high-pitch list |
| AudioThreshold.FirstHitInRun | src-tauri/src/audio_cmds.rs:239-277 | In any run, a hit that joins no open event adds that alarm and nothing else |
| AudioThreshold.HigherAlarmsLess | src-tauri/src/audio_cmds.rs:226-226 | Raising the threshold adds no alarm to a first hit |
| AudioThreshold.QuietScreamIsSilent | src-tauri/src/audio_cmds.rs:226-277 | Speech with a scream far below the threshold notifies nothing when heard first |
| AudioImpulses.QuieterGunshotRun | src-tauri/src/audio_cmds.rs:273-277 | A run whose gunshot, heard second and scored lower, notifies as an ordinary sound |
| AudioImpulses.ThirdGunshotRun | src-tauri/src/audio_cmds.rs:273-277 | A run whose gunshot, heard third and scored highest, does |
| MicClaims.Microphones.ClaimMic | src-tauri/src/audio_cmds.rs:427-435 | A claim on the mutable list, refused while another camera is on it |
| MicClaims.HeldExactly | src-tauri/src/audio_cmds.rs:421-439 | After any run the list holds exactly the grants that no newer grant of the microphone and no release of their own token has ended |
| MicClaims.OneStands | src-tauri/src/audio_cmds.rs:421-424 | No two claims of one microphone stand |
| MicClaims.ClaimExactly | src-tauri/src/audio_cmds.rs:426-430 | A camera gets the microphone if and only if no other camera's claim stands |
| MicClaims.StaleReleaseIsHarmless | src-tauri/src/audio_cmds.rs:421-424 | A release by a replaced detector does not free the claim that replaced it |
| MicClaims.ReplacedDetectorMayOverlap | src-tauri/src/audio_cmds.rs:427-439 | A run in which another camera is granted the microphone while a replaced detector has not released |
| MicOverlaps.TidyOverlapExactly | src-tauri/src/audio_cmds.rs:427-439 | Some continuation in which every camera releases before it claims again grants a microphone beside a running detector of another camera if and only if some grant so far is neither released nor standing |
| MicOverlaps.OverlapExactly | src-tauri/src/audio_cmds.rs:427-439 | Some continuation of any kind grants the microphone of a running detector to another camera if and only if some grant so far is unreleased |
| MicOverlaps.TidyRunsNeverOverlap | src-tauri/src/audio_cmds.rs:464-467 | A run in which every camera releases before it claims again never has two cameras' detectors on one microphone |
| Upsampling.Upsample | src-tauri/src/face_classifier.rs:209-217 | The nested loops draw round robin from every class up to the largest count |
| Upsampling.UpsamplingBalances | src-tauri/src/face_classifier.rs:209-217 | Each non-empty class gives as many samples as the largest, each embedding the floor or ceiling of an equal share, earlier ones first |
| GradientDescent.Train | src-tauri/src/face_classifier.rs:219-262 | The array loops are 250 steps of descent on the batch gradient from zero, and every column of the result sums to zero over the classes; TrainingDirection and TrainingObjective say where the steps go |
| GradientDescent.AddPoint | src-tauri/src/face_classifier.rs:235-252 | One point's forward and backward pass adds exactly its derivative to the flat gradient |
| GradientDescent.ErrorsCancel | src-tauri/src/face_classifier.rs:247-248 | The errors of one point add up to zero over the classes |
| GradientDescent.GradientsCancel | src-tauri/src/face_classifier.rs:245-252 | So does every column of the batch gradient |
| GradientDescent.ColumnsStayZero | src-tauri/src/face_classifier.rs:231-262 | Conservation: after any number of iterations each weight column and the bias column sum to zero, for any samples and any positive `exp` |
| TrainingDirection.StepGoesDown | src-tauri/src/face_classifier.rs:253-262 | For every weights and batch, the step taken has an inner product with the averaged gradient plus decay that is never positive, and zero exactly if every factor is zero; only then does it stand still |
| TrainingDirection.TwiceIsTheSame | src-tauri/src/face_classifier.rs:228-262 | A step follows the average: giving every sample twice changes no weight |
| TrainingDirection.InnerOfGradient | src-tauri/src/face_classifier.rs:233-252 | The batch gradient along any direction is the sum, over points and classes, of the error times the score of that direction |
| TrainingDirection.FirstStepLearns | src-tauri/src/face_classifier.rs:231-262 | The first step raises the own-class scores of the samples, summed, unless the gradient at zero vanishes |
| TrainingObjective.ObjectiveBelowTangent | src-tauri/src/face_classifier.rs:242-262 | The likelihood of the labels, discounted for large weights, lies below the exponential of its slope along the gradient that the loops compute, between any two weights |
| TrainingObjective.RestIsBest | src-tauri/src/face_classifier.rs:253-262 | Where a step changes nothing, no other weights make the labels likelier after that discount |
| GradientDescent.Predict | src-tauri/src/face_classifier.rs:60-81 | `None` only for a wrong length or no classes; else the first class with the highest linear score, with its softmax probability, at least an equal share |
| GradientDescent.ProbsFollowScores | src-tauri/src/face_classifier.rs:71-79 | Softmax keeps the order of the scores |
| GradientDescent.ShiftingIsHarmless | src-tauri/src/face_classifier.rs:71-73 | Subtracting the largest score first changes no probability |
| FaceTraining.TrainModel | src-tauri/src/face_classifier.rs:192-265 | End to end: the reject class, balancing, and descent on samples that all exist; the result is balanced column by column |
| FaceTraining.PointsAreOwn | src-tauri/src/face_classifier.rs:192-217 | Every training point is an embedding of the person whose class it bears, or one of at least 12 negatives under the reject class |
| FaceTraining.EveryEmbeddingTrains | src-tauri/src/face_classifier.rs:192-217 | Every embedding of every person is trained on under that person's class, and every negative under the reject class as soon as there are twelve |
| Nms.IouIsAFraction | src-tauri/src/face.rs:1139-1149 | For all boxes, inverted ones too, the overlap is symmetric and between 0 and 1, and 1 with itself if the box has area |
| BoxOverlap.IouIsShareOfPixels | src-tauri/src/face.rs:1139-1149 | For boxes on whole pixels it is the number of pixels in both over the number in either |
| BoxOverlap.IouScales | src-tauri/src/face.rs:1139-1149 | It does not depend on the scale of the picture |
| BoxOverlap.ClashExactly | src-tauri/src/inference.rs:136-138 | Two labelled boxes compete if and only if their labels agree and they share more than half of the pixels either covers |
| Nms.Suppress | src-tauri/src/face.rs:1128-1137 | Sort, keep unless overlapping a kept box, stop at the cap |
| Nms.SortedSorts | src-tauri/src/face.rs:1129-1129 | The order is by score, and a permutation |
| Nms.KeptAreApart | src-tauri/src/face.rs:1130-1136 | Kept boxes do not clash, come in score order, and respect the cap |
| Nms.DroppedHasAReason | src-tauri/src/face.rs:1132-1134 | A dropped box clashes with a kept box of at least its score, or the cap was reached |
| Nms.SuppressingTwice | src-tauri/src/face.rs:1128-1137 | Suppressing again changes nothing |
| Nms.GreedyIsTheSelection | src-tauri/src/inference.rs:131-142 | The result is the selection in which a box is in exactly when no earlier selected box clashes with it, up to the cap |
| Nms.SelectionExists | src-tauri/src/inference.rs:131-142 | For every list of boxes, clash and cap there is such a selection, and only one |
| Nms.SuppressFaces | src-tauri/src/face.rs:1128-1137 | The face caller keeps at most 20 of its boxes, in score order, no two overlapping by more than the threshold; below 20, each box left out overlaps a kept one of at least its score by more |
| Nms.LabelsDoNotCompete | src-tauri/src/inference.rs:136-139 | Below the cap, each label's survivors are those of its own boxes |
| YoloDecoder.Decode | src-tauri/src/inference.rs:69-143 | Unknown shapes give nothing; else the suppressed, score-ordered detections of all anchors |
| YoloDecoder.LayoutDoesNotMatterExactly | src-tauri/src/inference.rs:85-105 | Every tensor of 84 channels and n anchors decodes alike from the shapes [1, 84, n] and [1, n, 84], and without the batch axis, if and only if n is not 84 |
| YoloDecoder.SquareIsMisread | src-tauri/src/inference.rs:94-100 | A tensor of 84 anchors whose one detection is found channels first and missed channels last |
| YoloDecoder.IndexIsOneToOne | src-tauri/src/inference.rs:102-105 | No two tensor places share a buffer element |
| YoloDecoder.BestIsFirstMax | src-tauri/src/inference.rs:113-119 | The class taken is the first with the highest positive score |
| BoxGeometry.YoloBoxExactly | src-tauri/src/inference.rs:120-128 | A point of the frame is in the box if and only if the point of the 640 by 640 picture that it shows is within half a size of the centre, on both axes |
| Detections.LayoutExactly | src-tauri/src/inference.rs:85-100 | A shape is read channels first if it has 84 rows, channels last if only its columns are 84, with or without a batch of one, and not at all otherwise |
| Detections.AnchorsExactly | src-tauri/src/inference.rs:107-128 | There is one detection for each anchor whose best score is not below the floor, in order, with that class's name, that score and that box |
| DetrDecoder.SigmoidOrders | src-tauri/src/inference.rs:206-207 | The two-branch sigmoid orders scores as logits, across the branches too |
| DetrDecoder.BestIsFirstLargestLogit | src-tauri/src/inference.rs:200-209 | A proposal's class is its first largest logit, and its score that logit's sigmoid |
| DetrDecoder.Decode | src-tauri/src/inference.rs:156-238 | Shapes that do not go together, or buffers too short for them, give nothing; else the suppressed, score-ordered detections of all proposals |
| Detections.ProposalsExactly | src-tauri/src/inference.rs:163-190 | The pair of tensors is accepted if and only if both have as many rows, the boxes four columns, the logits one or more, and neither buffer is too short |
| Detections.DetectionsExactly | src-tauri/src/inference.rs:199-228 | There is one detection for each proposal whose best score is not below the floor, in order, with that class's name, that score and the box of its row |
| BoxGeometry.DetrBoxExactly | src-tauri/src/inference.rs:214-226 | A point of the frame is in the box if and only if its share of the frame is within half a size of the centre, on both axes |
| Identity.BestTwo | src-tauri/src/face.rs:495-521 | The loop with `continue` on unreadable rows is the specified walk; an empty id means no match |
| Identity.WalkFindsBestTwo | src-tauri/src/face.rs:502-518 | The walk ends with the first person of the highest own maximum, and the highest maximum of anybody else |
| Identity.ScoresAreOrderFree | src-tauri/src/face.rs:502-518 | Permuting the roster changes neither score |
| Identity.DuplicateIdentities | src-tauri/src/face.rs:1065-1079 | The demoted indices, ascending, are exactly those faces that do not hold their identity |
| Identity.OneHolder | src-tauri/src/face.rs:1057-1064 | Each identity of a frame has exactly one holder, its highest score, earliest on ties |
| Identity.FaceTrack.Confirm | src-tauri/src/inference.rs:1309-1320 | A flip of identity starts the vote again; the verdict is the shared policy on the new vote |
| Identity.Follow | src-tauri/src/inference.rs:1304-1320 | At every tick the verdict is the policy on the count, sum and maximum of the latest unbroken run of one person, and of nothing before it |
| Identity.ConfirmedExactly | src-tauri/src/face.rs:411-415 | A tracked face is confirmed if and only if its latest unbroken run has two scores averaging 0.95 of the threshold, or one 0.07 above it |
| Identity.StreakIsLatest | src-tauri/src/inference.rs:1304-1320 | That run reaches back to the last tick of anybody else |
| Auth.AuthState.CheckSendThrottle | src-tauri/src/auth.rs:99-114 | Pruning, the two refusals, and the record of an accepted send; a refused send still prunes |
| Auth.AuthState.NewChallenge | src-tauri/src/auth.rs:118-131 | Only an accepted send drops expired challenges and adds one |
| Auth.AuthState.VerifyChallenge | src-tauri/src/auth.rs:135-151 | The five outcomes and what each does to the challenge |
| Auth.AuthState.RecordFail | src-tauri/src/auth.rs:80-91 | Saturating count, and the lockout it sets |
| Auth.RunLogin | src-tauri/src/auth_cmds.rs:162-192 | The login command on the mutable gate |
| Auth.RunReset | src-tauri/src/auth_cmds.rs:262-282 | The recovery command; its code is spent even if the new password is refused. AuthPasswords.SettingsAreInForce and ResetTakesEffect say what an accepted one changes |
| Auth.Replay | src-tauri/src/auth_cmds.rs:96-282 | Any run of commands on the mutable gate gives the specified replies, settings and state |
| AuthRuns.SendsAreSpaced | src-tauri/src/auth.rs:99-114 | Over any run, two sends are 60 s apart and a send and the third after it 600 s |
| AuthRuns.ThrottleExactly | src-tauri/src/auth.rs:99-114 | The pruned list decides as the full record would: accepted if and only if no send in the last minute and at most two in the last ten |
| AuthRuns.FourSendsFitTenMinutes | src-tauri/src/auth.rs:102-110 | A run of four recovery requests, all sent, whose times fit ten minutes with both ends counted |
| AuthRuns.FewChallenges | src-tauri/src/auth.rs:118-131 | No run ever stores more than three challenges, expired ones included |
| AuthRuns.GuessesAreFew | src-tauri/src/auth.rs:135-151 | At most five codes are ever compared with a challenge and at most one fits |
| AuthRuns.GuessesAreInTime | src-tauri/src/auth.rs:137-140 | Every comparison answers an earlier send that has not expired |
| AuthRuns.CodesAreEarned | src-tauri/src/auth_cmds.rs:162-210 | Every opening by code follows, within its lifetime, the login with the then correct password and two-factor on (or the recovery request) that was sent that code |
| AuthRuns.OpeningsAreEarned | src-tauri/src/auth_cmds.rs:96-282 | A closed gate opens only by password with two-factor off, by an earned code, by a known device, or by setting a password with the old one |
| AuthRuns.LockoutSchedule | src-tauri/src/auth.rs:80-91 | 30 s doubling to 480 s, then 900 s: non-decreasing, capped, no overflowing shift |
| AuthRuns.LockoutExactly | src-tauri/src/auth_cmds.rs:162-165 | A login is turned away unheard if and only if it falls in the lockout of the current streak of failures |
| AuthRuns.FailuresTakeTime | src-tauri/src/auth_cmds.rs:162-183 | m failures in a row since the last reset, m at least 10, take at least 930 + 900 (m - 10) seconds |
| AuthChecks.WrongLoginsAreFew | src-tauri/src/auth_cmds.rs:162-183 | In any stretch of any run that resets nothing, failed logins number at most `MaxChecks` of the time it takes: 5 below 30 s, 6 below 90 s, 7 below 210 s, 8 below 450 s, 9 below 930 s, then one more every 900 s |
| AuthChecks.MaxChecksIsLargest | src-tauri/src/auth.rs:80-91 | n failures fit a span if and only if n is at most that bound |
| AuthChecks.BoundIsMet | src-tauri/src/auth_cmds.rs:162-183 | The bound is reached for every n, by a run that waits out each lockout |
| AuthChecks.UncountedChecks | src-tauri/src/auth_cmds.rs:96-118 | Any number of changes of password with a wrong current one are checked at one instant, none counted |
| AuthChecks.BoundCoversExactly | src-tauri/src/auth_cmds.rs:96-183 | The bound holds for all password checks of a stretch, however often its changes of password are asked for, if and only if none of them has a wrong current password |
| AuthPasswords.SettingsAreInForce | src-tauri/src/auth_cmds.rs:96-282 | After any run the settings are those of the last accepted reset, accepted change of password, or configuration |
| AuthPasswords.LoginExactly | src-tauri/src/auth_cmds.rs:162-192 | A login that no lockout turns away is refused as wrong if and only if its password does not verify against the hash in force, and otherwise opens the gate or, with two-factor on, sends a code |
| AuthPasswords.ResetTakesEffect | src-tauri/src/auth_cmds.rs:262-282 | Right after an accepted reset the new password counts, the old one does not, and no lockout is left |
| AuthPasswords.ChangeExactly | src-tauri/src/auth_cmds.rs:96-118 | A change is accepted if and only if Telegram is set up, the current password verifies against the hash in force or there is none, and the new one is usable |
| AuthPasswords.RefusalsExactly | src-tauri/src/auth_cmds.rs:164-183 | A refused login is told the time left of the lockout, that the password is wrong, or, from the fifth failure in a row on, the lockout that begins |
| AuthPasswords.SendsExactly | src-tauri/src/auth_cmds.rs:184-257 | A code is sent if and only if a correct two-factor login or a recovery request is due one and the record of sends has room |
| AuthPasswords.CodesExactly | src-tauri/src/auth_cmds.rs:195-282 | A code is accepted if and only if it is that of a send of the right kind that has not expired, has not fitted before, and has seen fewer than five wrong codes |
| AuthPasswords.RefusedCodesExactly | src-tauri/src/auth_cmds.rs:195-282 | When a refused code is called wrong, of the wrong kind, or the new password unusable |
| AuthPasswords.OpenExactly | src-tauri/src/auth_cmds.rs:96-282 | The gate is open if and only if some answer since the last lock opened it |
| Secrets.RoundTrip | src-tauri/src/crypto.rs:62-88 | The same key reads a secret back, another key reads nothing |
| Secrets.NoDoubleWrap | src-tauri/src/crypto.rs:64-65 | Encrypting an encrypted value leaves it as it is |
| Secrets.ReadsExactly | src-tauri/src/crypto.rs:76-89 | A value that was never encrypted reads as itself; an encrypted one reads as a text if and only if its two parts decode and open to it |
| Secrets.Vault.EncryptSettings | src-tauri/src/crypto.rs:136-150 | The walk in place: entered values are sealed, empty ones get the kept ciphertext, the list loses what was entered |
| Secrets.Vault.DecryptSettings | src-tauri/src/crypto.rs:152-165 | The walk in place: readable values are opened, the others are emptied and listed |
| Secrets.Replay | src-tauri/src/boot.rs:393-395 | Any sequence of starts and saves on the mutable vault is the specified run |
| Secrets.SecretSurvives | src-tauri/src/crypto.rs:90-94 | A secret sealed under a key and never entered anew stays sealed under that key through starts under any keys, saves of anything else, and failed writes |
| Secrets.SecretReturns | src-tauri/src/crypto.rs:136-165 | So the next start under that key reads it |
| Secrets.EnteringSeals | src-tauri/src/crypto.rs:145-148 | Entering a secret seals it under the run's key and forgets the unreadable one |
| Secrets.NothingPlainOnDisk | src-tauri/src/crypto.rs:134-150 | After a successful save every secret on disk is empty or encrypted |
| Secrets.PlainIsAdopted | src-tauri/src/crypto.rs:72-165 | A secret left in the clear is read at the start and sealed by the next save that leaves it alone |
| Secrets.DiskIsThatOfLastWrite | src-tauri/src/boot.rs:393-395 | Starts and failed writes leave the disk alone, whatever else they change |
| BlobStore.FaceStore.Store | src-tauri/src/blobstore.rs:28-42 | The stored value and files for every way the write can end |
| BlobStore.StoreNeverLoses | src-tauri/src/blobstore.rs:25-42 | However the write ends, the value handed back shows the image handed in |
| BlobStore.WriteIsSafeExactly | src-tauri/src/blobstore.rs:28-54 | A write is harmless to another cell in every outcome if and only if the cell does not refer to its path |
| BlobStore.FaceStore.MigrateRow | src-tauri/src/blobstore.rs:137-152 | One row on the disk: its end state, and every state after a file write or row update on the way |
| BlobStore.RowKeeps | src-tauri/src/blobstore.rs:137-152 | In each of these, failed or not, every cell of the table shows what it showed, and no new alias has come up |
| BlobStore.FaceStore.Migrate | src-tauri/src/blobstore.rs:120-154 | The paged loop ends, and has gone past each row once in id order up to the page whose query fails; its states are those of the specified run |
| BlobStore.MigrationKeepsExactly | src-tauri/src/blobstore.rs:114-154 | Every cell keeps its meaning at the end and at every state on the way (so at any crash), however the writes, updates and queries end, if and only if no cell refers to a file that a row with a non-empty id has yet to write |
| MigrationSteps.RowsExactly | src-tauri/src/blobstore.rs:120-154 | What every row holds afterwards: a reference for each cell that was written if the row was reached and its update done, and what it held otherwise |
| MigrationSteps.FilesExactly | src-tauri/src/blobstore.rs:137-146 | What the path of every movable cell of a reached row holds afterwards: the image, what was there, or what a failed write left |
| MigrationSteps.OtherFilesStay | src-tauri/src/blobstore.rs:137-146 | Every other path is as it was |
| MigrationSteps.StatesLead | src-tauri/src/blobstore.rs:137-152 | The states on the way miss nothing: between neighbours lies one write of one file or one update of one row, and they lead to the end state |
| BlobStore.SeekIsNext | src-tauri/src/blobstore.rs:129-138 | The cursor query resumes exactly behind the last row dealt with |
| MigrationSteps.LessExactly | src-tauri/src/blobstore.rs:129-131 | The ids it compares are in dictionary order |
| BlobStore.CleanRunFinishes | src-tauri/src/blobstore.rs:120-154 | A run without failures moves every decodable image of a row with a non-empty id, and leaves nothing to move |
| BlobStore.MigrateTwice | src-tauri/src/blobstore.rs:114-119 | A second run then changes neither row nor file, whatever fails in it |
| BlobStore.OwnRefsAliasNothing | src-tauri/src/face.rs:721-722 | Rows that refer only to their own files meet the migration's condition |
| BlobStore.Sweep | src-tauri/src/blobstore.rs:77-112 | The directory walk removes the specified files; no known reference, or a failed query, removes none |
| BlobStore.SweepKeepsMeaning | src-tauri/src/blobstore.rs:73-112 | The sweep changes no cell's meaning and removes no file with a time within the hour |
| BlobStore.UnreadableYoungFileIsSwept | src-tauri/src/blobstore.rs:102-108 | A file just written and not yet referenced is removed if its metadata cannot be read, and kept if its time is known or unknown |
| BlobStore.SweepExactly | src-tauri/src/blobstore.rs:77-112 | A file survives if and only if each entry for it could not be removed, is referenced, is younger than an hour, or has no time |
| DepthWorker.Shared.Loop | src-tauri/src/depth.rs:244-281 | Each atomic action of the loop on the shared state |
| DepthWorker.Shared.Infer | src-tauri/src/depth.rs:260-266 | Each atomic action of an inference thread; DepthEmissions says what of it is sent |
| DepthWorker.SingleFlight | src-tauri/src/depth.rs:250-270 | Under every interleaving at most one inference runs, and busy means that one is due or running if and only if none has died |
| DepthWorker.EmissionsFollowArrivals | src-tauri/src/depth.rs:272-281 | Everything emitted is the depth image of a raw frame received, and origins never go back in arrival order |
| DepthWorker.StartsMoveOn | src-tauri/src/depth.rs:250-267 | No raw frame is inferred twice: each start is on a newer frame than the last |
| DepthWorker.DeathIsForGood | src-tauri/src/depth.rs:260-266 | After one inference dies nothing is ever started or stored again |
| DepthWorker.SilentAfterFirstDeath | src-tauri/src/depth.rs:260-281 | A run whose first inference dies emits nothing, whatever follows |
| DepthEmissions.EmissionExactly | src-tauri/src/depth.rs:250-275 | Told from the log of steps: a due emission sends the depth image of the raw frame of the latest inference that succeeded, and nothing if and only if none has; no other step sends |
| DepthEmissions.NewFrameGetsOut | src-tauri/src/depth.rs:250-275 | From a waiting loop with a live reader and a free flag, a new frame is sent in the next round if the model makes an image of it |
| DepthEmissions.RoundEnds | src-tauri/src/depth.rs:244-275 | Whatever the loop is at, one round brings it back to waiting, with or without a frame |
| DepthEmissions.NothingAfterRetiring | src-tauri/src/depth.rs:248-248 | A loop that has found the reader gone starts and sends nothing more |

## Left out

- Process spawning, HTTP, Telegram, language models, Tauri commands that only forward, the React code: no logic to prove.
- ONNX inference, image decoding and warping: their outputs are arbitrary inputs here.
- `f32` rounding and NaN: arithmetic is exact, so a comparison at a rounding edge may differ from the program's.
- `u32` overflow of the behaviour engine's and the votes' counters: counters are unbounded there; the failure count of the login gate does saturate in the model.
- Texts: alert texts, refusal texts and rounded class scores are kept as the values they are made from.
- Behaviour.CamState.Step: the point-in-polygon test of a zone is any function of the point (`covers`), and masks are not parsed.
- BehaviourPersons.RunningExactly: speeds are compared as squares, which avoids the square root and orders them alike.
- AudioEvents.AudioLog.Window: a hit and the reaping before it share one clock reading; failed database writes, thumbnails and clips are not modelled, nor are rows left open by an earlier session.
- MicOverlaps.TidyOverlapExactly: camera numbers are unbounded there, while the program has 256 of them.
- `is_recent_duplicate`, `evict_oldest_half`, `match_face` and mask filtering: small members beside the ones modelled.
- YoloDecoder.Decode: negative dimensions in a shape are treated as an unknown layout; a buffer shorter than its shape is excluded, where the program would stop.
- DetrDecoder.Decode: negative dimensions are treated as shapes that do not fit.
- FaceTraining.TrainModel: embeddings have the classifier's length, as the loader guarantees; names and the persisted model are not kept.
- Identity.BestTwo: the roster arrives with its cosines computed; a failed query is an empty roster.
- Identity.FaceTrack.Confirm: one tracklet at a time; the eviction of old tracklets is left out.
- Auth.Replay: commands are atomic, so a lockout is not claimed for logins checked at the same time; the remembered-device table is the answer it gives (`known`), and a challenge's two clock readings are one.
- Secrets.SecretSurvives: needs a secret that is not empty and does not begin with `enc:`, because such a text is stored as it stands.
- Secrets.Vault.EncryptSettings: a failing cipher, and the creation and reading of the key file, are left out; a run's key is given.
- BlobStore.FaceStore.Migrate: one writer; a page is read when its rows are dealt with; SQLite's `LIKE`, which ignores case, is the program's own prefix test; the final `VACUUM` is left out.
- DepthWorker.Shared.Loop: channel capacities, rates and logging; a full pipe drops frames after the point modelled.
