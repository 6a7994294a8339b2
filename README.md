# Song Guesser game state, modelled in Dafny

The music guessing game keeps its whole state in one React state cell, a `GameState`
record: the current song, the unlocked listening duration, the attempt counter, the
playback flags `play` and `isPlaying`, the win flag, the guess text, and the loaded track
list with its URIs. A handful of handlers overwrite the cell:

- `unlockNextSegment` steps the duration through the fixed schedule
  `timeSegments = [0.1, 0.5, 1, 2, 5, 10]` and counts an attempt.
- `handlePlay` turns playback on and schedules a cutoff timer.
- The player callback turns playback off.
- `submitGuess` compares the lower-cased guess with the lower-cased song name.
- `resetGame` clears the counters.
- `loadLikedSongs` and `handleSearch` install a fetched track list.

The project has five modules:

- `Wrappers`: `Option`, for `null`/`undefined`.
- `Text`: `trim` with ECMAScript's WhiteSpace and LineTerminator set, and an ASCII `toLowerCase`.
- `Schedule`: the schedule, `find`, and the count of entries a duration has reached.
- `Game`: the record, each updater as a pure function, the invariant `Inv`, events, runs of events, and the lemmas.
- `Controller`: the class `MusicGuessingGame`. It holds the state cell and the cutoff timers that are still pending. Each handler is a method, tied to the pure updater it performs.

`unlockedDuration` is a `real` over the schedule's own literals. It is only ever 0 or a
schedule entry, and it is only compared with them.

The central invariant `Game.Inv` says four things:
- the duration is 0 or a schedule entry;
- `attempts` is the number of entries that are at most the duration, so it is at most 6, and 6 exactly at the last segment;
- `play == isPlaying`;
- the current song and the URIs are those of the loaded list.

Every event keeps `Inv`, so every reachable state satisfies it. The class adds one more
invariant: while playback is on, a cutoff timer is pending.

In these places the code behaves differently from what a reader might expect; the model follows the code:
- The guess is compared untrimmed. Only the blank check trims.
- A wrong guess keeps the guess text.
- Unlocking is not blocked after a win.
- Cutoff timers are never cancelled. An older timer that fires stops a newer playback (`CutoffElapsed`).
- `resetGame` keeps the track list and the current song, then reloads the liked songs. The new current song is the first liked track; nothing is chosen at random and there is no error on an empty list. With an empty list the song becomes absent.
- `unlockNextSegment`'s `if (!nextSegment)` also rejects a found value of 0. No schedule entry is 0 (`Schedule.TimeSegmentsWellFormed`), so the model tests only "not found".

## Model

| member | source | states |
|---|---|---|
| Schedule.TimeSegmentsWellFormed | src/components/MusicGuessingGame.tsx:22 | the schedule is strictly increasing, positive, and ends at 10 seconds |
| Schedule.FindFirstAbove | src/components/MusicGuessingGame.tsx:71 | `find` returns nothing exactly when no entry exceeds the duration, otherwise the entry at the first index that does |
| Schedule.FoundIsSmallestAbove | src/components/MusicGuessingGame.tsx:71 | on the increasing schedule the found entry is a schedule entry, above the duration, and the smallest such |
| Schedule.CountAtNextSegment | src/components/MusicGuessingGame.tsx:74-78 | moving to the found entry reaches exactly one more schedule entry, which is why one attempt is counted per unlock |
| Schedule.CountAtMostNone | src/components/MusicGuessingGame.tsx:27-28 | a duration below every entry (the initial 0) has reached no entry |
| Schedule.CountAtMostAll | src/components/MusicGuessingGame.tsx:22 | a duration at the last entry has reached all of them |
| Text.TrimStart | src/components/MusicGuessingGame.tsx:89 | drops exactly the leading whitespace: the result is a suffix starting with a non-whitespace character |
| Text.TrimEnd | src/components/MusicGuessingGame.tsx:89 | drops exactly the trailing whitespace: the result is a prefix ending with a non-whitespace character |
| Text.Trim | src/components/MusicGuessingGame.tsx:89 | the trimmed guess is empty exactly when the guess is blank; otherwise it is the slice of it left after dropping whitespace only, at both ends, and it neither starts nor ends with whitespace |
| Text.TrimDropsOnlyWhitespace | src/components/MusicGuessingGame.tsx:89 | trimming keeps the slice that starts after the leading whitespace, and every character before or after that slice is whitespace |
| Text.ToLower | src/components/MusicGuessingGame.tsx:91 | same length, no upper-case ASCII letter left, each upper-case letter becomes the same letter in lower case, every other character is kept |
| Text.SameIgnoringCase | src/components/MusicGuessingGame.tsx:91 | two strings compare equal after lower-casing exactly when they have the same length and agree character by character up to case |
| Game.First | src/components/MusicGuessingGame.tsx:51 | `tracks[0]` is present exactly for a non-empty list and is then its first track |
| Game.UrisOf | src/components/MusicGuessingGame.tsx:50 | the URI list has one entry per track, each that track's `uri` |
| Game.StartPlayback | src/components/MusicGuessingGame.tsx:64 | both playback flags on, every other field unchanged |
| Game.StopPlayback | src/components/MusicGuessingGame.tsx:66 | both playback flags off, every other field unchanged |
| Game.Unlock | src/components/MusicGuessingGame.tsx:70-80 | unlocking never touches the win flag, guess, current song or track list |
| Game.PlayerUpdate | src/components/MusicGuessingGame.tsx:165-167 | a "not playing" report turns both flags off and nothing else; a "playing" report changes nothing |
| Game.EvaluateGuess | src/components/MusicGuessingGame.tsx:88-106 | only the win flag can change; it becomes true exactly when the guess is not blank, a song is present and guess and name agree after lower-casing, and it is never cleared |
| Game.ResetCounters | src/components/MusicGuessingGame.tsx:108-117 | the result is the initial state except for the kept current song, search results and URIs |
| Game.LoadTracks | src/components/MusicGuessingGame.tsx:47-51 | the list becomes the search results, its first track (absent if empty) the current song, its URIs the queue; nothing else changes |
| Game.Search | src/components/MusicGuessingGame.tsx:54-61 | an empty query changes nothing; otherwise the state is exactly that of loading the results (list, first track as current song, URIs, every other field unchanged), so attempts and duration are untouched |
| Game.InitialState | src/components/MusicGuessingGame.tsx:25-35 | the initial state has duration 0, no attempts, no playback, no win, an empty guess, no song, and satisfies the invariant |
| Game.InvBoundsAttempts | src/components/MusicGuessingGame.tsx:22 | in every reachable state attempts are at most 6, and equal 6 exactly when the 10-second segment is unlocked |
| Game.UnlockAdvances | src/components/MusicGuessingGame.tsx:71-80 | below the last segment an unlock moves to the smallest schedule entry above the duration (strictly larger), adds exactly one attempt, starts playback and changes nothing else |
| Game.UnlockAtLastIsNoOp | src/components/MusicGuessingGame.tsx:71-72 | at the last segment an unlock leaves the whole state unchanged and starts no playback |
| Game.UnlockNoOpIffLast | src/components/MusicGuessingGame.tsx:71-78 | in a reachable state an unlock is a no-op exactly at the last segment |
| Game.UnlockPreservesInv | src/components/MusicGuessingGame.tsx:74-78 | an unlock keeps the duration in the schedule and the attempts equal to the entries reached |
| Game.WrongGuessChangesNothing | src/components/MusicGuessingGame.tsx:99-105 | a guess that does not match the song name up to case leaves the whole state unchanged, the guess text included |
| Game.EvaluateGuessIdempotent | src/components/MusicGuessingGame.tsx:88-106 | submitting twice has the effect of submitting once |
| Game.UntrimmedGuessDoesNotWin | src/components/MusicGuessingGame.tsx:89-91 | "Chime " against "Chime" passes the blank check yet does not win, since the comparison is untrimmed |
| Game.ResetPreservesInv | src/components/MusicGuessingGame.tsx:108-117 | a reset keeps the invariant and resetting twice equals resetting once |
| Game.LoadTracksPreservesInv | src/components/MusicGuessingGame.tsx:58-60 | loading a list keeps the invariant and never touches attempts or duration |
| Game.StepPreservesInv | src/components/MusicGuessingGame.tsx:47-119 | every handler keeps the invariant |
| Game.RunPreservesInv | src/components/MusicGuessingGame.tsx:47-119 | every sequence of events keeps the invariant, so every reachable state satisfies it |
| Game.AttemptsCountUnlocks | src/components/MusicGuessingGame.tsx:74-78 | without a reset, attempts grow by exactly the number of successful unlocks and the duration never decreases |
| Game.WonUntilReset | src/components/MusicGuessingGame.tsx:94 | once won, the game stays won over any run without a reset |
| Game.ResetThenReload | src/components/MusicGuessingGame.tsx:108-119 | reset followed by the liked-songs reload gives zero counters, no playback, no win, an empty guess and the first liked track as current song |
| Game.ChimeScenario | src/components/MusicGuessingGame.tsx:70-94 | three unlocks reach 1 second with 3 attempts; the guess "chime" then wins against "Chime" with attempts still 3 |
| Controller.MusicGuessingGame.constructor | src/components/MusicGuessingGame.tsx:25-35 | the component starts in the initial state with no timer pending |
| Controller.MusicGuessingGame.HandlePlay | src/components/MusicGuessingGame.tsx:63-68 | playback flags on, and a cutoff for the given duration is queued behind the pending ones |
| Controller.MusicGuessingGame.CutoffElapsed | src/components/MusicGuessingGame.tsx:65-67 | any pending cutoff that fires turns playback off, even while a newer cutoff is still pending, and is removed |
| Controller.MusicGuessingGame.PlayerCallback | src/components/MusicGuessingGame.tsx:165-167 | the state becomes the player update of the old state; timers untouched |
| Controller.MusicGuessingGame.UnlockNextSegment | src/components/MusicGuessingGame.tsx:70-86 | the state becomes the unlock of the old state, and a cutoff for the new segment is queued only when a segment was unlocked |
| Controller.MusicGuessingGame.SubmitGuess | src/components/MusicGuessingGame.tsx:88-106 | the state becomes the guess evaluation of the old state |
| Controller.MusicGuessingGame.ResetGame | src/components/MusicGuessingGame.tsx:108-117 | the state becomes the reset of the old state; pending timers are not cancelled |
| Controller.MusicGuessingGame.LoadLikedSongs | src/components/MusicGuessingGame.tsx:47-52 | the state becomes the old state with the liked tracks loaded |
| Controller.MusicGuessingGame.HandleSearch | src/components/MusicGuessingGame.tsx:54-61 | the state becomes the search update of the old state |

## Left out

- Rendering, toasts and the login link: presentation only.
- Spotify API calls: `getMySavedTracks`, `searchTracks`, the `limit` arguments and the `useEffect` that loads on a token. The fetched tracks are a parameter. A failed fetch never delivers its update.
- The `SpotifyPlayer` SDK. Only its callback's report is modelled.
- Real timer timing (`duration * 1000` ms). Any pending cutoff may fire, chosen by the caller.
- React's batching and stale closures: each handler runs to completion.
- Editing the guess: its input handler sits in the elided JSX (src/components/MusicGuessingGame.tsx:171-173). Guesses are evaluated on whatever the state holds.
- Text.ToLower: ASCII letters only, not full Unicode case mapping.
- Game.Track: only `name` and `uri` of a track object.
- Schedule.FindFirstAbove: the falsy-0 case of `!nextSegment` is omitted, because no entry is 0.
- Floating point: durations are exact reals. `attempts` is unbounded, but stays at most 6.
- src/pages/Login.tsx, src/pages/Callback.tsx, src/hooks/useSpotify.ts, server.js and vite.config.ts are not part of this model (OAuth redirects, the token relay, the SDK wrapper, build settings).
