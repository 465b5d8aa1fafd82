# FretMaster Pro, modelled in Dafny

FretMaster Pro is a guitar practice app. This project models its deterministic
core in Dafny and proves properties of that model:

- the look-ahead metronome scheduler and the microphone strum detector of
  `services/audioService.ts`;
- the practice-history store with its CSV import (`services/historyService.ts`);
- the practice targets, the "mastered" test and the recommendation list
  (`services/recommendationService.ts`);
- the construction of the chord database `CHORD_DB` (`constants.ts`);
- the data logic inside the four screens: history, library, metronome and
  trainer (`components/*.tsx`).

Every component is a pure function over immutable values. The pieces of the
environment the code reads are parameters:

- the audio clock, as `now` in seconds;
- `Date.now()`, as `nowMs`;
- the analyser's spectrum snapshot, as a sequence of bytes;
- what `localStorage` holds, as a `Stored`, `StoredFavorites` or
  `TargetItems` value;
- `crypto.randomUUID`, as a function `mint` from an index to an id;
- `localeCompare`, as an abstract comparison `le` on names;
- `new Date().toISOString()`, as the text `iso`.

A Web Audio note becomes a `Note` record (beat, time, pitch, visual delay).
A host timer or animation frame becomes one more call of a step function.

Files, by module:

| file | module | models |
|---|---|---|
| util.dfy | `Util` | `Option`, filtering, modular wrap-around |
| text.dfy | `Text` | `trim`, `toLowerCase`, `includes`, `split`/`join`, `replace`, `endsWith`, `Array.prototype.sort` order, `parseInt`, number to text |
| types.dfy | `Types` | the records of `types.ts` |
| metronome.dfy | `Metronome` | `MetronomeEngine` |
| strum.dfy | `Strum` | `StrumDetector` |
| chord_table.dfy, chord_gen.dfy, chord_lookup.dfy, chord_fix.dfy, chord_variation.dfy, chord_finish.dfy, chord_db.dfy, chord_data.dfy | `ChordTable` … `ChordData` | the generation and patching of `CHORD_DB`, with the literal tables |
| history_service.dfy | `HistoryService` | `getHistory`, `addSession`, `importCSV` |
| targets.dfy | `TargetBpm` | `getGlobalTargets`, `setGlobalTargets`, `getTargetBpm` |
| mastery.dfy | `Mastery` | `isPairMastered` |
| recommendation.dfy | `Recommend` | `getRecommendations` |
| history_view.dfy, library_view.dfy, metronome_view.dfy, trainer_view.dfy | `HistoryView` … `TrainerView` | the screens' data logic and state |

Some behaviours of the code are easy to misread; the model keeps them as
written:

- The strum detector's last strum time starts at 0, not at minus infinity.
  So on a clock that starts at 0, no sample in the first 300 ms fires. Levels
  20 at 0 ms, 0 at 50 ms and 20 at 400 ms give one strum, at 400 ms: the
  300 ms debounce from the initial strum time 0 blocks the rise at 0 ms
  (`Strum.SpikesAtZeroAndFourHundred`).
- A sustained loud signal strums once in all, not once per debounce window.
  The latch is cleared only by an average below 10
  (`Strum.SustainedSignalStrumsOnce`).
- The detector's `start` swallows a microphone failure and returns nothing.
  It does not reset the latch or the last strum time either
  (`Strum.Start`, `Strum.RestartKeepsLatch`).
- The recommendation list names the pairs `F#` and `Bb`, but the database ids
  are `Fsharp` and `Asharp`. Those pairs never resolve to chords
  (`ChordData.SharpAndFlatMissing`).

## Model

| member | source | states |
|---|---|---|
| Metronome.SecondsPerBeat | services/audioService.ts:66 | a positive tempo gives a positive beat interval of 60/bpm seconds |
| Metronome.ScheduleNote | services/audioService.ts:74-97 | beat 0 and only beat 0 gets 1000 Hz, every other beat 800 Hz; the visual delay is never negative, is 0 exactly when the note is not in the future, and never fires before the note's time |
| Metronome.NextNote | services/audioService.ts:65-72 | only the time and the beat index change; the time advances by exactly one interval at the current tempo; after the step the index lies in [0, beatsPerBar), and it wraps to 0 once it reaches the bar length |
| Metronome.RunPass | services/audioService.ts:56-59 | the loop terminates for a positive tempo; afterwards the next note time is at least clock + 0.1, so every beat due in the window is emitted however late the pass runs; no note is emitted exactly when none is due; every note lies inside the window; the first note carries the old index, and indices continue cyclically |
| Metronome.PassTiming | services/audioService.ts:56-59 | the k-th note of a pass lies k intervals after the first, and the pass leaves the clock one interval after its last note |
| Metronome.Scheduler | services/audioService.ts:55-63 | a pass emits the loop's notes and re-arms the timer only while playing; tempo, bar length and playing flag are untouched |
| Metronome.Start | services/audioService.ts:35-45 | while playing it changes nothing; otherwise it sets playing, arms the timer, and emits first beat 0 at clock + 0.05 with the accent and a 50 ms visual delay |
| Metronome.Stop | services/audioService.ts:47-53 | clears playing and the timer and keeps tempo, bar length, index and clock |
| Metronome.SetBpm | services/audioService.ts:27-29 | only the tempo changes, with no range check |
| Metronome.SetTimeSignature | services/audioService.ts:31-33 | only the bar length changes; the current index is not pulled into range |
| Metronome.PassTimesIncrease | services/audioService.ts:57-67 | note times within a pass strictly increase |
| Metronome.PassWithin | services/audioService.ts:56-67 | a pass's notes lie between the clock it starts from and the clock it leaves behind |
| Metronome.TempoChangeAppliesToLaterBeats | services/audioService.ts:27-29 | after a tempo change between two passes, the first new note is still one old interval after the last emitted note, later notes use the new interval, and all notes of both passes strictly increase |
| Metronome.BeatsCycleAcrossPasses | services/audioService.ts:68-71 | with the bar length fixed, beat indices run c, c+1, … modulo the bar length across consecutive passes |
| Metronome.ShrunkBarEmitsStaleBeatOnce | services/audioService.ts:57-71 | when the bar shrinks below the current index, the next pass emits the stale index once, then 0, 1, … within the new bar |
| Metronome.StartEmitsOneAccent | services/audioService.ts:35-44 | at any tempo up to 1200 bpm, `start` emits exactly one note, the accented beat 0 at clock + 0.05 |
| Metronome.BeatNoShorterThanLead | services/audioService.ts:43-66 | up to 1200 bpm a beat is at least as long as the 0.05 s start lead |
| Metronome.StopIdempotent | services/audioService.ts:47-53 | stopping twice is stopping once |
| Metronome.StoppedPassDoesNotRearm | services/audioService.ts:60-62 | a pass that still runs after `stop` neither re-arms the timer nor resumes playing |
| Strum.Sum | services/audioService.ts:150-153 | the sum of byte bins is at most 255 times their number |
| Strum.LevelsAreAverages | services/audioService.ts:154-169 | for a non-empty snapshot, the integer tests sum > 15·n and sum < 10·n are exactly the source's tests average > 15 and average < 10 |
| Strum.LoudIsNotQuiet | services/audioService.ts:165-169 | no snapshot is both above the trigger level and below the reset level |
| Strum.Listen | services/audioService.ts:144-174 | the callback runs iff the detector is listening with an analyser, is not triggered, the average exceeds 15 and more than 300 ms have passed; then the latch is set and the strum time becomes now, otherwise the strum time is kept; the latch ends set iff it fired, or it was set and the sample was not quiet; a next frame is requested iff listening |
| Strum.Start | services/audioService.ts:113-132 | once the microphone request settles: a refused one leaves the detector unchanged; a granted one starts listening with an analyser, requests a frame, and fires on the first snapshot under the same rule with the old latch and strum time |
| Strum.Stop | services/audioService.ts:134-142 | stops listening and cancels the frame, keeping the latch and the last strum time |
| Strum.StopDuringRequestUndone | services/audioService.ts:113-136 | a `stop` that runs while the microphone request is pending is undone by the grant: the detector listens again, requests a frame, and the first snapshot fires under the usual rule |
| Strum.Run | services/audioService.ts:144-173 | a run of frames never changes whether the detector listens or has an analyser; a detector that is not listening with an analyser keeps its latch and last strum time |
| Strum.LatchHolds | services/audioService.ts:165-171 | after a strum the latch stays set until a quiet sample arrives |
| Strum.LastHolds | services/audioService.ts:165-166 | without a strum in between, the last strum time stays that of the earlier strum |
| Strum.QuietBetweenStrums | services/audioService.ts:165-171 | between any two strums there is a sample with average below 10 |
| Strum.StrumsDebounced | services/audioService.ts:165 | consecutive strums are more than 300 ms apart |
| Strum.SustainedSignalStrumsOnce | services/audioService.ts:165-171 | a signal that never drops below 10 strums at most once |
| Strum.NoStrumInFirstWindow | services/audioService.ts:108 | with the last strum time at its initial 0, no sample up to 300 ms fires |
| Strum.StoppedStaysSilent | services/audioService.ts:145 | after `stop`, frames that still arrive never fire and never request another frame |
| Strum.StopIdempotent | services/audioService.ts:134-142 | stopping twice is stopping once |
| Strum.RestartKeepsLatch | services/audioService.ts:111-132 | restarting a triggered detector on a sample that is not quiet does not fire, because `start` resets neither the latch nor the strum time |
| Strum.Level | services/audioService.ts:121-123 | the 128-bin snapshot at a constant level has that level as its average |
| Strum.SpikesAtZeroAndFourHundred | services/audioService.ts:108-168 | level 20 at 0 ms and level 0 at 50 ms do not strum, and level 20 at 400 ms does |
| HistoryService.InitialHistoryShape | constants.ts:128-133 | the demonstration history is four G/C sessions of 60 s each, with rising tempo and distinct ids |
| HistoryService.GetHistory | services/historyService.ts:7-17 | a stored history is returned as stored; an empty result means an empty history was stored |
| HistoryService.GetHistoryFallback | services/historyService.ts:7-17 | with nothing stored, or a store that cannot be read, the demonstration history is returned |
| HistoryService.AddSession | services/historyService.ts:19-28 | the current history stays an unchanged prefix, exactly one session with the fresh id follows, and the result is saved |
| HistoryService.AddThenGet | services/historyService.ts:25-27 | what `addSession` returns is what the next `getHistory` reads |
| HistoryService.AddTwice | services/historyService.ts:19-28 | two calls in a row append both sessions in call order |
| HistoryService.ParseLine | services/historyService.ts:43-57 | a blank line yields nothing; a session comes only from a trimmed line of at least five comma-separated fields, lasts 60 s, and has date and chords free of ',' |
| HistoryService.IsHeader | services/historyService.ts:38 | only a line of at least four characters can be a header |
| HistoryService.DataLines | services/historyService.ts:33-42 | the data lines are the text's lines, either all of them or all but the first |
| HistoryService.ImportedCount | services/historyService.ts:42-59 | the text yields one session per accepted data line, so no more than there are data lines |
| HistoryService.ParseLineAccepts | services/historyService.ts:43-47 | a line yields a session iff, trimmed, it has at least four commas, and such a session lasts 60 s |
| HistoryService.ParseLineOfFields | services/historyService.ts:43-57 | a line of at least five comma-free fields, with any white space around them, yields trimmed fields 0 to 2, bpm from field 4, count from field 3, duration 60; fields past the fifth are ignored |
| HistoryService.ParseLineOfSplit | services/historyService.ts:43-57 | a line whose trimmed text splits into at least five pieces reads as those pieces' first five fields |
| HistoryService.FirstLine | services/historyService.ts:36-44 | the first line is skipped exactly when it is a header, that is when it contains "date" in lower case; otherwise it is parsed like any other line |
| HistoryService.Stamp | services/historyService.ts:49-50 | the j-th new session is the j-th accepted line stamped with the j-th fresh id |
| HistoryService.Append | services/historyService.ts:62-63 | the current history stays an unchanged prefix, followed by the new sessions in order, the j-th with the j-th fresh id |
| HistoryService.ImportCsv | services/historyService.ts:30-68 | the current history stays an unchanged prefix; after it come the accepted lines' sessions in line order with fresh ids; with no accepted line nothing changes, otherwise the result is saved |
| HistoryService.ImportCount | services/historyService.ts:42-63 | the history grows by the number of accepted data lines |
| HistoryService.ImportThenGet | services/historyService.ts:61-67 | what the import returns is what the next `getHistory` reads |
| HistoryService.ImportNothing | services/historyService.ts:61-67 | a text with no accepted data line returns the current history and leaves the store as it was |
| HistoryService.ReadLines | services/historyService.ts:42-59 | the loop over the lines pushes exactly the stamped sessions of the accepted lines, in order |
| HistoryService.ImportCsvLoop | services/historyService.ts:30-68 | the loop form of the import computes the same update as the functional one |
| ChordTable.TableRow | constants.ts:31 | the inner `forEach` yields one entry per suffix, in suffix order |
| ChordTable.TableAt | constants.ts:30-31 | in key-major order, entry k·9 + s is built from key k and suffix s |
| ChordTable.TableLength | constants.ts:30-31 | the nested loops yield one entry per key and suffix |
| ChordGen.ChordId | constants.ts:33 | without a '#' the id is key + suffix; with one it is four characters longer, '#' becoming "sharp" |
| ChordGen.Row | constants.ts:31-56 | one chord per suffix of the key, in suffix order |
| ChordGen.Grid | constants.ts:30-58 | generation yields as many chords as keys times suffixes |
| ChordGen.MakeChord | constants.ts:33-56 | the id is key + suffix with the first '#' replaced by "sharp"; key and suffix are copied; the type is barre iff the difficulty is not basic or the key is one of F, B, F#, C#, G#, D#, A#; never power |
| ChordGen.GridLayout | constants.ts:30-58 | generation gives 9 chords per key in key-major order, entry k·9 + s built from key k and suffix s |
| ChordGen.BuildGrid | constants.ts:30-58 | the loop that pushes chords one by one builds exactly the generated table |
| ChordGen.IdShape | constants.ts:33 | for keys of one letter with an optional '#', the id is the letter, then "sharp" when the key is sharp, then the suffix |
| ChordGen.DecodeChordId | constants.ts:33 | an id gives back its key and suffix, and contains no '#' and no '_' |
| ChordGen.GridIdsDistinct | constants.ts:30-58 | the generated ids are pairwise distinct |
| ChordGen.GridLacksAt | constants.ts:30-58 | an id whose suffix part is no listed suffix is not generated |
| ChordLookup.FindIndex | constants.ts:62 | `findIndex` gives the first position with the id, or none exactly when no entry has it |
| ChordLookup.Find | services/recommendationService.ts:48-49 | `find` gives an entry with the id exactly when one exists |
| ChordLookup.FindAt | constants.ts:99 | with distinct ids, looking up an entry's id finds that entry |
| ChordLookup.FindIndexByIds | constants.ts:62-65 | lookups see only the ids, so patching other fields does not move them |
| ChordLookup.RenameFirst | constants.ts:99-100 | renaming changes only the name of the first entry with the id, or nothing when there is none |
| ChordLookup.RenameEffect | constants.ts:99-100 | with distinct ids, exactly the entry with the id is renamed |
| ChordFix.Patch | constants.ts:64-65 | `fixChord` replaces the first position, sets the type from the barre flag, and keeps id, key, suffix, name, difficulty and the other positions |
| ChordFix.PatchTwice | constants.ts:61-67 | patching twice is patching with the second fix |
| ChordFix.FixChord | constants.ts:61-67 | on a present id only the first matching entry is patched; on an absent id nothing changes; ids are kept |
| ChordFix.FixChordElsewhere | constants.ts:62-63 | entries with another id are untouched |
| ChordFix.FixAll | constants.ts:70-81 | the fixes keep the database's length and every entry's id |
| ChordFix.FixAllEffect | constants.ts:70-81 | with distinct ids, each fixed entry gets its fix and every other entry is untouched |
| ChordVariation.BarreVariation | constants.ts:103-117 | the id is id + "_barre"; the key is the id with its first 'm' removed; the suffix is "m" iff the id ends in 'm'; the name is name + " (Barre)"; type barre, difficulty advanced; a single position with the given frets, fingers and base fret and no barres |
| ChordVariation.MinorBarreKey | constants.ts:106-107 | for a minor id such as Am or Em, the key is the root (A, E) and the suffix "m" |
| ChordVariation.AddVariations | constants.ts:119-125 | each call appends one variation at the end, in call order, and keeps everything before it |
| ChordVariation.VariationIdsDiffer | constants.ts:105 | distinct variation ids give distinct barre ids |
| ChordFinish.Finish | constants.ts:84-125 | after the fixed and renamed entries comes F_open, then one barre variation per listed variation, in order |
| ChordFinish.OpenDistinct | constants.ts:84-96 | adding F_open keeps the ids distinct |
| ChordFinish.FinishAt | constants.ts:84-125 | after the fixes come the renamed entries, then F_open, then the seven variations |
| ChordFinish.FinishIds | constants.ts:84-125 | the finished database keeps ids distinct and free of '#' |
| ChordFinish.FinishLacksAt | constants.ts:84-125 | the last steps add no id other than F_open and the barre variations |
| ChordDb.Build | constants.ts:30-125 | the database's size is one entry per key and suffix, plus F_open, plus one per variation |
| ChordDb.BuildLength | constants.ts:30-125 | the database has 12·9 generated entries, then one, then one per variation |
| ChordDb.BuildIds | constants.ts:30-125 | all ids of the database are distinct and free of '#' |
| ChordDb.BuildKeepsGenerated | constants.ts:30-100 | a generated entry keeps its id, key, suffix and difficulty; only the "F" entry is renamed "F Major (Barre)"; an unfixed entry keeps its positions and type |
| ChordDb.BuildEntry | constants.ts:30-100 | entry k·9 + s has the generated id, key, suffix and difficulty, the barre rule for its type, and the name "key suffix-name", except "F Major (Barre)" |
| ChordDb.BuildFixed | constants.ts:61-81 | a fixed entry has exactly the fix's position and the type of its barre flag |
| ChordDb.FindFixed | constants.ts:61-81 | looking up a fixed id finds the fixed chord |
| ChordDb.BuildLacks | constants.ts:30-125 | an id with no '_' whose suffix part is no listed suffix is not in the database |
| ChordData.LiteralsWellShaped | constants.ts:11-22 | 12 distinct keys of one letter and an optional '#', and 9 distinct suffixes |
| ChordData.VariationsLiteralOk | constants.ts:119-125 | the seven variation ids are distinct and free of '#' and '_' |
| ChordData.FixIdsDistinct | constants.ts:70-81 | the ten fixed ids are distinct |
| ChordData.FixKeepsType | constants.ts:70-81 | every fix's barre flag agrees with the type generation gave the chord |
| ChordData.FixIdsGenerated | constants.ts:70-81 | every fixed id is a generated id |
| ChordData.Database | constants.ts:30-125 | `CHORD_DB` has 116 entries |
| ChordData.DatabaseSize | constants.ts:30-125 | the database holds 108 + 1 + 7 = 116 chords |
| ChordData.DatabaseIds | constants.ts:30-125 | all 116 ids are distinct and free of '#' |
| ChordData.FindDatabase | constants.ts:30-125 | looking up any entry's id finds that entry |
| ChordData.SharpAndFlatMissing | services/recommendationService.ts:24 | the ids "F#" and "Bb" used by the progression list are not in the database |
| ChordData.MinorFixesOpen | constants.ts:75-76 | the Am and Em fixes are open and patch entries 82 and 37 |
| ChordData.GeneratedFRenamed | constants.ts:99-100 | entry 45 is "F", renamed "F Major (Barre)", and of type barre |
| TargetBpm.TargetsRoundTrip | services/recommendationService.ts:29-45 | targets that were set read back as the same numbers |
| TargetBpm.StoredTarget | services/recommendationService.ts:34-35 | an absent or empty item falls back to the default; a non-empty item without digits reads as NaN |
| TargetBpm.GetGlobalTargets | services/recommendationService.ts:29-40 | a store that throws gives 100 and 80; a target is NaN only when its item is present, non-empty and unreadable |
| TargetBpm.SetGlobalTargets | services/recommendationService.ts:42-45 | both items are stored, as non-empty texts |
| TargetBpm.GetTargetBpm | services/recommendationService.ts:47-53 | the result is one of the two global targets, the open one when neither id resolves |
| TargetBpm.TargetsFallback | services/recommendationService.ts:29-39 | an absent item, or a store that throws, falls back to 100 for open and 80 for barre |
| TargetBpm.TargetBpmChoice | services/recommendationService.ts:47-53 | the barre target applies iff either id resolves to a barre chord, otherwise the open target |
| TargetBpm.TargetBpmSymmetric | services/recommendationService.ts:47-53 | the target does not depend on the order of the two ids |
| TargetBpm.UnknownIdsOpen | services/recommendationService.ts:48-52 | ids that resolve to no chord count as non-barre |
| Mastery.PairHistory | services/recommendationService.ts:58-62 | the pair history holds only sessions of the pair, keyed by the sorted ids |
| Mastery.PairHistoryMembers | services/recommendationService.ts:58-62 | the pair history holds every session of the pair, in either order of its ids, and nothing else |
| Mastery.PairHistoryConcat | services/recommendationService.ts:58-62 | filtering keeps history order across a concatenation |
| Mastery.IsPairMastered | services/recommendationService.ts:55-72 | a mastered pair has at least three sessions in its pair history and a target that is a number |
| Mastery.MasteredSymmetric | services/recommendationService.ts:55-72 | the mastered test does not depend on the order the pair is given in |
| Mastery.FewSessionsNotMastered | services/recommendationService.ts:64 | fewer than three sessions of the pair never make it mastered |
| Mastery.LastThreeSuffix | services/recommendationService.ts:68-71 | only the last three sessions of a pair history count |
| Mastery.MasteredIgnoresEarlier | services/recommendationService.ts:66-71 | once a later stretch of history holds three sessions of the pair, earlier history is irrelevant |
| Mastery.MasteredIgnoresOtherPairs | services/recommendationService.ts:58-62 | a session of another pair does not change whether a pair is mastered |
| Recommend.MasteredFlags | services/recommendationService.ts:85-89 | one mastered flag per progression pair, in list order |
| Recommend.CollectKeys | services/recommendationService.ts:84-89 | the mastered set holds exactly the "a-b" keys of the mastered pairs, each once |
| Recommend.FirstCollected | services/recommendationService.ts:84-89 | the first key of the set is that of the first mastered pair in list order |
| Recommend.Candidates | services/recommendationService.ts:100 | the candidates are exactly the pairs whose key is not mastered, in list order and with their repetitions |
| Recommend.CandidatesNoneMastered | services/recommendationService.ts:100 | with nothing mastered, every pair is a candidate |
| Recommend.Suggest | services/recommendationService.ts:103-115 | the suggestions are the candidates whose two ids both resolve, in candidate order, each with its two chords, reason "Suggested for you", level 1, not mastered |
| Recommend.SuggestAllFound | services/recommendationService.ts:103-115 | when both ids of each candidate resolve, there is one suggestion per candidate, in order |
| Recommend.SuggestSkips | services/recommendationService.ts:106 | a candidate with an unresolved id is skipped |
| Recommend.Review | services/recommendationService.ts:117-131 | at most one review entry, only when something is mastered, marked mastered with reason "Review Review" and both chords found |
| Recommend.ReviewOfPair | services/recommendationService.ts:119-131 | the review entry is that of the first key split at '-', when both of its ids resolve |
| Recommend.KeySplit | services/recommendationService.ts:87-119 | splitting a pair's key at '-' gives back its two ids when they have no '-' |
| Recommend.ProgressionKeysSplit | services/recommendationService.ts:16-25 | every progression pair's key splits back into its two ids |
| Recommend.Assemble | services/recommendationService.ts:133-140 | the result has 1 to 5 entries; it is the suggestions followed by the review unless both are empty, in which case it is the single "Start Here" entry |
| Recommend.Recommendations | services/recommendationService.ts:74-141 | 1 to 5 entries; all but the last are unmastered suggestions with both chords found; a last entry "Start Here" is the whole list |
| Recommend.SuggestionsInOrder | services/recommendationService.ts:99-140 | the list is the suggestions for the resolving pairs among the first four unmastered ones, in list order, then the review entry if any; with neither it is the "Start Here" entry |
| Recommend.GetRecommendations | services/recommendationService.ts:74-141 | 1 to 5 entries; a last entry "Start Here" is the whole list |
| Recommend.ReviewIsFirstMastered | services/recommendationService.ts:117-131 | a last entry marked mastered is the review of the first mastered pair in list order |
| Recommend.NothingMastered | services/recommendationService.ts:99-140 | with nothing mastered, the result is the suggestions for the first four pairs, or "Start Here" when none resolves |
| Recommend.EmptyHistoryMastersNothing | services/recommendationService.ts:64 | an empty history masters no pair |
| Recommend.FreshInstall | services/recommendationService.ts:74-141 | on an empty history, with the first four pairs resolving, the result is exactly their four suggestions |
| HistoryView.PairKeyOf | components/HistoryView.tsx:25-26 | the pair key joins the sorted ids with '-' |
| HistoryView.PairKeyOfSymmetric | components/HistoryView.tsx:40 | (a, b) and (b, a) give the same key |
| HistoryView.PairKeySplits | components/HistoryView.tsx:83 | splitting a key at '-' gives the sorted ids back when they have no '-' |
| HistoryView.PairKeyInjective | components/HistoryView.tsx:25-35 | two pairs of dash-free ids share a key iff they are the same pair up to order |
| HistoryView.DefaultSelection | components/HistoryView.tsx:16-19 | a selection is kept; with none, the first session's key is selected when there is one |
| HistoryView.DefaultShowsFirst | components/HistoryView.tsx:16-37 | the default selection is a listed pair and shows the first session |
| HistoryView.UniquePairs | components/HistoryView.tsx:22-29 | the listed keys are exactly the sessions' keys, each once |
| HistoryView.UniquePairsPrefix | components/HistoryView.tsx:22-29 | the keys of a prefix of the data start the list, so keys appear in first-occurrence order |
| HistoryView.UniquePairsFirst | components/HistoryView.tsx:22-29 | the first listed key is that of the first session |
| HistoryView.FilteredData | components/HistoryView.tsx:31-37 | empty when nothing is selected; otherwise exactly the sessions whose key is the selection |
| HistoryView.FilteredIsPairHistory | components/HistoryView.tsx:31-37 | for dash-free ids, the filtered data is the pair history the mastered test uses, in history order |
| HistoryView.SelectShowsSession | components/HistoryView.tsx:39-44 | selecting a session's pair shows that session and every other session of the pair |
| HistoryView.PairLabelOfKey | components/HistoryView.tsx:81-85 | the label of a key shows the sorted ids joined by " ⇄ " |
| HistoryView.PairLabel | components/HistoryView.tsx:81-85 | "Select Pair" exactly when nothing is selected; otherwise the label holds the ⇄ sign |
| HistoryView.MaxBpm | components/HistoryView.tsx:87-90 | 0 for no sessions; otherwise a bpm of one of the sessions and at least every bpm |
| HistoryView.Rows | components/HistoryView.tsx:48 | one row per session, in order |
| HistoryView.Row | components/HistoryView.tsx:48 | a row starts with the session's date followed by a comma |
| HistoryView.RowShape | components/HistoryView.tsx:48 | a row of an exportable session has five fields free of ',' and newlines |
| HistoryView.ExportCsv | components/HistoryView.tsx:46-49 | the export starts with the header line; with no sessions it is that line alone |
| HistoryView.ExportLines | components/HistoryView.tsx:46-49 | the export splits into the header line followed by one line per session |
| HistoryView.HeaderIsHeader | components/HistoryView.tsx:47 | the export header is recognised as a header by the import |
| HistoryView.RowReadsBack | components/HistoryView.tsx:48 | importing one row gives back the session's five fields, with duration 60 |
| HistoryView.ExportThenImport | components/HistoryView.tsx:46-49 | importing an export yields one session per exported one with the same date, chords, count and bpm, and duration 60 |
| HistoryView.ExportThenImportCsv | components/HistoryView.tsx:46-49 | importing an export appends the exported sessions, in order, after the current history, with fresh ids and duration 60 |
| LibraryView.LoadFavorites | components/LibraryView.tsx:8-13 | the stored list, or none when nothing is stored or it cannot be parsed |
| LibraryView.ToggleFavorite | components/LibraryView.tsx:15-24 | afterwards the id is a favourite iff it was not before; other ids keep their status; an absent id is appended at the end |
| LibraryView.ToggleKeepsDistinct | components/LibraryView.tsx:18-20 | toggling keeps a repeat-free list repeat-free |
| LibraryView.ToggleTwice | components/LibraryView.tsx:18-20 | toggling an absent id twice restores the list |
| LibraryView.FilterOutKeepsOrder | components/LibraryView.tsx:19 | removing an id that is not there changes nothing |
| LibraryView.FilteredChords | components/LibraryView.tsx:26-36 | a chord is listed iff it is in the database, its name contains the search text ignoring case, and it passes the filter |
| LibraryView.ShowAll | components/LibraryView.tsx:28-30 | an empty search with "all" lists the whole database, in order |
| LibraryView.SearchIgnoresCase | components/LibraryView.tsx:28 | the case of the search text does not matter |
| LibraryView.FiltersPartition | components/LibraryView.tsx:29-33 | the open and barre lists share no chord, together with the power chords they make up the unfiltered list, and the favourites list lies within it |
| LibraryView.SearchNarrows | components/LibraryView.tsx:28 | a longer search text lists no chord a shorter one it extends did not |
| LibraryView.Rendered | components/LibraryView.tsx:71 | at most the first 50 chords are rendered |
| LibraryView.RenderAll | components/LibraryView.tsx:28-71 | with 50 chords or more, the unfiltered listing renders the first 50 of the database |
| LibraryView.Initial | components/LibraryView.tsx:6-13 | the first render lists the whole database |
| LibraryView.Step | components/LibraryView.tsx:15-36 | a toggle changes the favourites and leaves the memoised list as it was |
| LibraryView.StepCurrentOffFavorites | components/LibraryView.tsx:26-36 | away from the favourites filter, the list stays current after any action |
| LibraryView.StaleFavorite | components/LibraryView.tsx:36 | under the favourites filter, removing the only favourite leaves it listed |
| LibraryView.StepFixed | components/LibraryView.tsx:15-36 | with the favourites among the memo's inputs, the list is current after every action and each action changes only its own field |
| LibraryView.StepFixedAgrees | components/LibraryView.tsx:26-36 | wherever the screen's own list stays current, the corrected step does the same |
| LibraryView.RunFixedCurrent | components/LibraryView.tsx:26-36 | under the corrected step, the list is current in every reachable state |
| MetronomeView.BeatsPerBarIsNumerator | components/MetronomeView.tsx:24-27 | every time signature's text parses to its numerator, 4, 3, 6 or 2, never NaN |
| MetronomeView.NumeratorReads | components/MetronomeView.tsx:43 | a one-digit numerator before '/' parses to its value |
| MetronomeView.BeatsPerBar | components/MetronomeView.tsx:43 | the beats per bar parse to the signature's numerator |
| MetronomeView.Nudged | components/MetronomeView.tsx:39-41 | the tempo stays within 30 to 300, is prev + delta when that is in range, and saturates at the nearer end otherwise |
| MetronomeView.NudgeUpDown | components/MetronomeView.tsx:39-41 | below the ceiling, +1 then -1 returns to the same tempo |
| MetronomeView.NudgeSaturates | components/MetronomeView.tsx:39-41 | at the ends of the range, a step outward does nothing |
| MetronomeView.NoteBeats | services/audioService.ts:94-96 | one queued visual callback per emitted note, carrying its beat |
| MetronomeView.Initial | components/MetronomeView.tsx:8-27 | the first render is stopped and dark, at 120 bpm in 4/4, pushed into the engine |
| MetronomeView.Step | components/MetronomeView.tsx:20-41 | every action keeps screen and engine consistent; only the play button flips playing; the active beat changes only by a fired callback or by stopping, which sets it to -1 |
| MetronomeView.StepConsistent | components/MetronomeView.tsx:20-41 | every action keeps the engine's tempo within 30 to 300 and agreeing with the screen, its bar length the numerator of the signature, its playing flag the screen's, and no timer while stopped |
| MetronomeView.ToggleEffect | components/MetronomeView.tsx:29-37 | the play button flips playing; stopping clears the active beat to -1 and the timer; starting queues beat 0 |
| MetronomeView.StaleBeatAfterStop | components/MetronomeView.tsx:29-37 | start, stop, then a late visual callback: the stopped screen lights beat 0 again |
| MetronomeView.StepFixed | components/MetronomeView.tsx:29-37 | with the queued callbacks dropped on stop, the screen stays consistent, and stopping leaves nothing queued and no dot lit |
| MetronomeView.StepFixedQuiet | components/MetronomeView.tsx:29-37 | under the corrected step, a stopped screen stays dark whatever happens next |
| MetronomeView.RunFixedQuiet | components/MetronomeView.tsx:8-37 | from the first render on, the corrected screen is dark whenever it is stopped |
| TrainerView.Tick | components/TrainerView.tsx:46-51 | a tick at 1 or below finishes with 0 left, otherwise it counts down by one; never negative |
| TrainerView.Countdown | components/TrainerView.tsx:43-53 | n ticks from t finish iff n ≥ 1 and n ≥ t, leaving 0; otherwise t - n is left |
| TrainerView.CountdownRuns | components/TrainerView.tsx:43-53 | n ticks from t leave t - n, and finish exactly at the t-th tick |
| TrainerView.FullSession | components/TrainerView.tsx:43-53 | from 60 s the session finishes after exactly 60 ticks |
| TrainerView.Pressed | components/TrainerView.tsx:164-168 | plus adds one; minus subtracts one but never goes below 0 |
| TrainerView.PressesStayNatural | components/TrainerView.tsx:164-168 | any presses keep the counter between 0 and start + presses |
| TrainerView.PlusMinus | components/TrainerView.tsx:164-168 | plus then minus restores the count |
| TrainerView.SavedDuration | components/TrainerView.tsx:98-99 | 60 - timeLeft, replaced by 60 when below 5; always at least 5, and at most 60 for a non-negative time left |
| TrainerView.RoundNearest | components/TrainerView.tsx:101 | rounding gives the integer within half of the value, halves rounding up |
| TrainerView.SavedBpm | components/TrainerView.tsx:101 | the saved bpm is the integer (120·count + duration) div (2·duration), the rate per minute rounded half up |
| TrainerView.SavedBpmExact | components/TrainerView.tsx:101 | the saved bpm is count·60/duration rounded to the nearest integer, halves up, which is (120·count + duration) div (2·duration) |
| TrainerView.SavedSession | components/TrainerView.tsx:97-110 | the date has no 'T', chords and count are copied, the duration lies in [5, 60], and the bpm is the rounded rate per minute |
| TrainerView.SavedExamples | components/TrainerView.tsx:97-110 | 30 changes in a full minute save 30 bpm; 20 in 20 s save 60 bpm; a 2 s session counts as 60 s |
| TrainerView.SaveAppends | components/TrainerView.tsx:103-110 | saving appends one session with the chords and count, a duration in [5, 60], after the unchanged history |
| TrainerView.Insert | components/TrainerView.tsx:127-131 | inserting a chord adds exactly it to the list |
| TrainerView.InsertSorted | components/TrainerView.tsx:127-131 | inserting into a sorted list keeps it sorted by name |
| TrainerView.SortByName | components/TrainerView.tsx:127-131 | sorting is a reordering |
| TrainerView.SortByNameSorted | components/TrainerView.tsx:127-131 | sorting by name gives a list sorted by name |
| TrainerView.Groups | components/TrainerView.tsx:123-133 | the open, barre and other groups hold exactly the database's chords of each kind |
| TrainerView.PartitionByType | components/TrainerView.tsx:124-126 | the three filters partition the database: together they hold each chord as often as it occurs |
| TrainerView.GroupsPartition | components/TrainerView.tsx:123-133 | the sorted groups together are a reordering of the database |
| TrainerView.GroupsSorted | components/TrainerView.tsx:127-131 | each group is sorted by name |
| Text.Trim | services/historyService.ts:43 | the result is the slice of the text that has only white space before and after it and none at its own ends, and it is empty iff the text is all white space |
| Text.TrimUnique | services/historyService.ts:43 | any slice with only white space around it and none at its ends is the trimmed text, so `trim` drops exactly the white space at both ends |
| Text.ToLower | services/historyService.ts:38 | lower-casing keeps the length and maps each character |
| Text.Split | services/historyService.ts:33 | one piece more than separators, and no piece holds the separator |
| Text.Join | components/HistoryView.tsx:48-49 | the join starts with the first piece, followed by the separator when there is a second piece |
| Text.Contains | components/LibraryView.tsx:28 | `includes` of a longer text is false, and of the empty text is true |
| Text.JoinSplit | components/HistoryView.tsx:48-49 | joining the pieces of a split restores the text |
| Text.SplitJoin | services/historyService.ts:46 | splitting a join of separator-free pieces gives the pieces back |
| Text.TrimJoin | services/historyService.ts:43 | trimming a join on a visible separator cuts white space only from the start of the first piece and the end of the last |
| Text.SplitTrimJoin | services/historyService.ts:43-46 | splitting the trimmed join of separator-free pieces gives the pieces back with only the outer two cut |
| Text.ReplaceFirst | constants.ts:33 | `replace` with a character changes only its first occurrence |
| Text.SortPair | components/HistoryView.tsx:25 | the two-element sort returns the same two values, the first not after the second in UTF-16 code-unit order |
| Text.StrLessIsUnitOrder | components/HistoryView.tsx:25 | the string order is the lexicographic order of the UTF-16 code units, as JavaScript's default sort compares |
| Text.AstralBeforeHighBmp | services/recommendationService.ts:59-60 | a character above U+FFFF, written as the surrogates D83D DE00, sorts before U+FF01, as in JavaScript |
| Text.SortPairSymmetric | services/recommendationService.ts:59-60 | sorting a pair does not depend on its order |
| Text.ParseIntOfIntToString | services/recommendationService.ts:34-43 | `parseInt` reads back a number's decimal text |
| Text.ParseInt | services/recommendationService.ts:34 | a text without a digit parses to NaN |
| Text.ParseIntLeadingDecimal | services/historyService.ts:54-55 | after white space and an optional sign, decimal digits that are not a `0x` prefix, followed by any text that does not go on with a digit, parse to their value, negated after '-' |
| Text.ParseIntLeadingHex | services/historyService.ts:54-55 | after white space and an optional sign, `0x` or `0X` and hexadecimal digits followed by any text that does not go on with one parse to their radix-16 value, negated after '-' |
| Text.ParseIntWhiteTail | services/historyService.ts:54-55 | white space after a text does not change what `parseInt` reads from it |
| Text.ParseIntTrimEnd | services/historyService.ts:54-55 | `parseInt` of a field reads the same with its trailing white space cut |
| Text.ParseIntNaN | services/historyService.ts:54-55 | `parseInt` gives NaN exactly when, past the white space and the sign, no digit of the selected radix follows (for `0x`, none right after the prefix) |
| Text.ParseIntTrailingSpace | services/historyService.ts:54-55 | an untrimmed CSV field "12 " parses to 12 |
| Text.ParseIntTrailingUnit | services/historyService.ts:54-55 | "35bpm" parses to 35 |
| Text.ParseIntSignedAfterSpace | services/historyService.ts:54-55 | " -7" parses to -7 |
| Text.ParseIntLetterFirst | services/historyService.ts:54-55 | "abc1" parses to NaN |
| Text.ParseIntSignedHex | services/historyService.ts:54-55 | "-0x1A" parses to -26 |
| Text.IntOrZero | services/historyService.ts:54-55 | the fallback to 0 for count and bpm gives 0 exactly for NaN and 0, and otherwise the parsed number |
| Util.Filter | components/LibraryView.tsx:19 | `filter` keeps exactly the elements that pass, in order |
| Util.FilterPartition3 | components/TrainerView.tsx:124-126 | three filters on predicates of which each element meets exactly one together hold every element as often as it occurs |

## Left out

- Web Audio and microphone APIs are left out: oscillators, gain envelopes, `connect`, `resume`, `close`, `getUserMedia` and `getByteFrequencyData`. A scheduled click is a `Note`; a spectrum snapshot is a sequence of bytes.
- Host timing is left out: the 25 ms look-ahead timer, `requestAnimationFrame` and `setInterval`. Each firing is one call of a step function with an explicit clock value.
- The metronome's visual callbacks are modelled only on the metronome screen, as a queue of beats fired oldest first; their real delays are not compared.
- Times are exact `real`s, not IEEE doubles. So the drift that accumulates in `nextNoteTime += 60/bpm` is not captured, nor the float division before `Math.round` in the saved bpm.
- `localStorage`, `JSON.parse`/`JSON.stringify`, `crypto.randomUUID`, `FileReader` and `alert` are I/O. They are parameters: a stored value, a function that mints ids, the CSV text.
- A stored favourites text that parses to something other than an array of ids is not distinguished from an array.
- HistoryService.GetHistory: a stored history text whose JSON is not an array, such as "null", is returned as it parses (services/historyService.ts:10-11). The model's stored value is already a list of sessions, so this case is not distinguished, as with the favourites.
- `localeCompare` is an abstract comparison; only its being a total preorder is assumed where sortedness is proved.
- `Array.prototype.sort` is modelled as insertion sort. Only its specification is claimed: a sorted reordering. The engine's particular order of equal names is not modelled.
- `toLowerCase` lower-cases ASCII letters only; Unicode case mapping is not modelled.
- The CSV download prefix `data:text/csv;charset=utf-8,`, `encodeURI` and the DOM link are left out; the model covers the CSV text.
- `new Date().toISOString()` is the parameter `iso`; only the cut at the first 'T' is modelled.
- TrainerView.Groups: the fact that the "other" group is empty for this database is not proved.
- Rendering and UI plumbing are left out: JSX, effects other than those named above, App.tsx, Fretboard.tsx and the charts. `capacitor.config.ts` is configuration only.
- `MetronomeEngine.init` and `setCallback` only create the audio context and store the callback, so they are not modelled. In a browser without `AudioContext` or `webkitAudioContext`, `init` throws (services/audioService.ts:17-19), and so does `start` at line 37, before it sets `isPlaying`. That failure is left out with the rest of the Web Audio API: `Metronome.Start` always has a clock.
- Metronome.RunPass: requires a positive tempo. `setBpm` (services/audioService.ts:26-28) has no range check. At bpm 0 the interval `60 / bpm` is Infinity, so a pass emits one note and never another. At a negative bpm the loop at lines 56-59 never ends. The metronome screen clamps the tempo to 30-300, so neither case can be reached from the UI.
- Recommend.Recommendations: the `level` and `lastBpm` fields are left as in the source (always 1, and never set).
- Strum.Start: the pending microphone request is not a state of its own. `Start` is the part of `start` after the `await`, applied to the detector as the steps during the request left it; so a `stop` during the request is undone by the grant (`Strum.StopDuringRequestUndone`). A second `start` during the request, with its second stream and audio context, is not modelled.
- HistoryView.ExportThenImport: counts, bpm values and targets are unbounded integers here, while JavaScript numbers are doubles. `String` writes a number of 1e21 or more in exponent form ("1e+21"), which `parseInt` reads as 1, and `parseInt` rounds values above 2^53 to the nearest double. So the exact read-back is proved for the integer model only, not for numbers that large; the number inputs (components/HistoryView.tsx:167-171 and 186-190) and a CSV import can reach them.
- HistoryView.ExportThenImportCsv: the same gap as HistoryView.ExportThenImport: counts, bpm values and targets are unbounded integers here, while JavaScript numbers are doubles. `String` writes a number of 1e21 or more in exponent form ("1e+21"), which `parseInt` reads as 1, and `parseInt` rounds values above 2^53 to the nearest double. So the exact read-back is proved for the integer model only, not for numbers that large; the number inputs (components/HistoryView.tsx:167-171 and 186-190) and a CSV import can reach them.
- HistoryView.RowReadsBack: the same gap as HistoryView.ExportThenImport: counts, bpm values and targets are unbounded integers here, while JavaScript numbers are doubles. `String` writes a number of 1e21 or more in exponent form ("1e+21"), which `parseInt` reads as 1, and `parseInt` rounds values above 2^53 to the nearest double. So the exact read-back is proved for the integer model only, not for numbers that large; the number inputs (components/HistoryView.tsx:167-171 and 186-190) and a CSV import can reach them.
- Text.ParseIntOfIntToString: the same gap: counts, bpm values and targets are unbounded integers here, while JavaScript numbers are doubles. `String` writes a number of 1e21 or more in exponent form ("1e+21"), which `parseInt` reads as 1, and `parseInt` rounds values above 2^53 to the nearest double. So the exact read-back is proved for the integer model only, not for numbers that large; the number inputs (components/HistoryView.tsx:167-171 and 186-190) and a CSV import can reach them.
- Text.ParseIntLeadingDecimal: the value is the exact integer of the digits; `parseInt` rounds it to a double above 2^53, and the model does not.
- Text.ParseIntLeadingHex: the value is the exact integer of the hexadecimal digits; `parseInt` rounds it to a double above 2^53, and the model does not.
- TargetBpm.TargetsRoundTrip: the same gap: counts, bpm values and targets are unbounded integers here, while JavaScript numbers are doubles. `String` writes a number of 1e21 or more in exponent form ("1e+21"), which `parseInt` reads as 1, and `parseInt` rounds values above 2^53 to the nearest double. So the exact read-back is proved for the integer model only, not for numbers that large; the number inputs (components/HistoryView.tsx:167-171 and 186-190) and a CSV import can reach them.
- TargetBpm.SetGlobalTargets: takes integers only. A NaN target is not modelled: after an unreadable stored item `getGlobalTargets` gives NaN for it, the screen passes it back on the other input's blur (components/HistoryView.tsx:171 and 189), and it is stored as "NaN", which reads back as NaN.
- Text.StrLess: JavaScript strings may hold lone surrogates, which a Dafny string cannot; the code-unit order is modelled for well-formed text only.

## Findings

| source | as written | input that shows it | evidently intended | confidence | as-written member | corrected member |
|---|---|---|---|---|---|---|
| components/LibraryView.tsx:26-36 | `filteredChords` is memoised on the search text and the filter only, though it reads the favourites | filter "favorites", favourites ["C"], then un-favourite "C": the list still shows C | the favourites among the memo's inputs, so the list follows every toggle | not executed | LibraryView.StaleFavorite | LibraryView.RunFixedCurrent |
| services/audioService.ts:94-96 | `stop` does not cancel the visual callbacks already queued with `setTimeout`, and the stop button's reset to -1 runs before they fire | start, stop 10 ms later, then the queued callback for beat 0 fires: the stopped metronome lights beat 0 | a stopped metronome shows no active beat | not executed | MetronomeView.StaleBeatAfterStop | MetronomeView.RunFixedQuiet |
