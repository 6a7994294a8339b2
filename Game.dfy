/**
 * The `GameState` record of the music guessing game and the record-to-record updaters
 * its handlers pass to `setGameState`, with the properties they keep.
 */
module Game {
  import opened Wrappers
  import opened Text
  import opened Schedule

  /** The two fields of a streaming-service track that the game reads. */
  datatype Track = Track(name: string, uri: string)

  datatype GameState = GameState(
    currentSong: Option<Track>,
    unlockedDuration: real,
    attempts: nat,
    isPlaying: bool,
    isGameWon: bool,
    guess: string,
    searchResults: seq<Track>,
    play: bool,
    uris: seq<string>)

  /** The value the component's state cell starts with. */
  function Initial(): GameState
  {
    GameState(
      currentSong := None,
      unlockedDuration := 0.0,
      attempts := 0,
      isPlaying := false,
      isGameWon := false,
      guess := "",
      searchResults := [],
      play := false,
      uris := [])
  }

  /** `tracks[0]`, which is `undefined` on an empty list. */
  function First(tracks: seq<Track>): (r: Option<Track>)
    ensures r.Some? <==> |tracks| > 0
    ensures r.Some? ==> r.value == tracks[0]
  {
    if tracks == [] then None else Some(tracks[0])
  }

  /** `tracks.map(track => track.uri)`. */
  function UrisOf(tracks: seq<Track>): (r: seq<string>)
    ensures |r| == |tracks|
    ensures forall k :: 0 <= k < |tracks| ==> r[k] == tracks[k].uri
  {
    seq(|tracks|, k requires 0 <= k < |tracks| => tracks[k].uri)
  }

  // ---------------------------------------------------------------------------------------
  // The updaters
  // ---------------------------------------------------------------------------------------

  /** The update `handlePlay` makes when playback starts: both flags on, nothing else. */
  function StartPlayback(s: GameState): (r: GameState)
    ensures r.play && r.isPlaying
    ensures r.(play := s.play, isPlaying := s.isPlaying) == s
  {
    s.(play := true, isPlaying := true)
  }

  /** The update made when the cutoff timer fires or the player reports it stopped:
    * both flags off, nothing else. */
  function StopPlayback(s: GameState): (r: GameState)
    ensures !r.play && !r.isPlaying
    ensures r.(play := s.play, isPlaying := s.isPlaying) == s
  {
    s.(play := false, isPlaying := false)
  }

  /** `unlockNextSegment`: when the schedule has an entry above the current duration,
    * move to it, count one more attempt and start playback; otherwise do nothing. */
  function Unlock(s: GameState): (r: GameState)
    ensures r.isGameWon == s.isGameWon && r.guess == s.guess && r.currentSong == s.currentSong
    ensures r.searchResults == s.searchResults && r.uris == s.uris
  {
    match FindFirstAbove(TimeSegments, s.unlockedDuration)
    case None => s
    case Some(next) =>
      StartPlayback(s.(unlockedDuration := next, attempts := s.attempts + 1))
  }

  /** The `SpotifyPlayer` callback: a report that the player is not playing stops playback. */
  function PlayerUpdate(s: GameState, playerIsPlaying: bool): (r: GameState)
    ensures r.(play := s.play, isPlaying := s.isPlaying) == s
    ensures playerIsPlaying ==> r == s
    ensures !playerIsPlaying ==> !r.play && !r.isPlaying
  {
    if !playerIsPlaying then StopPlayback(s) else s
  }

  /**
   * `submitGuess`: ignored for a blank guess or a missing song; otherwise the guess wins
   * when it equals the song name after lower-casing both. Only `isGameWon` can change, and
   * only from false to true.
   */
  function EvaluateGuess(s: GameState): (r: GameState)
    ensures r.(isGameWon := s.isGameWon) == s
    ensures r.isGameWon <==>
      || s.isGameWon
      || (!IsBlank(s.guess) && s.currentSong.Some?
          && ToLower(s.guess) == ToLower(s.currentSong.value.name))
  {
    if Trim(s.guess) == [] || s.currentSong.None? then s
    else if ToLower(s.guess) == ToLower(s.currentSong.value.name) then s.(isGameWon := true)
    else s
  }

  /** `resetGame`'s update: the counters, flags and guess go back to their initial values,
    * the track list and the current song stay. */
  function ResetCounters(s: GameState): (r: GameState)
    ensures r == Initial().(currentSong := s.currentSong, searchResults := s.searchResults, uris := s.uris)
  {
    s.(unlockedDuration := 0.0, attempts := 0, isPlaying := false, isGameWon := false,
       guess := "", play := false)
  }

  /** The update `loadLikedSongs` and `handleSearch` make with a fetched track list: the list
    * becomes the search results, its first track the current song, its URIs the player's
    * queue; nothing else changes. */
  function LoadTracks(s: GameState, tracks: seq<Track>): (r: GameState)
    ensures r.searchResults == tracks
    ensures r.currentSong.Some? <==> |tracks| > 0
    ensures r.currentSong.Some? ==> r.currentSong.value == tracks[0]
    ensures |r.uris| == |tracks| && forall k :: 0 <= k < |tracks| ==> r.uris[k] == tracks[k].uri
    ensures r.(searchResults := s.searchResults, currentSong := s.currentSong, uris := s.uris) == s
  {
    s.(searchResults := tracks, currentSong := First(tracks), uris := UrisOf(tracks))
  }

  /** `handleSearch`: an empty query returns before anything is fetched; otherwise the
    * fetched results are loaded. */
  function Search(s: GameState, query: string, results: seq<Track>): (r: GameState)
    ensures query == "" ==> r == s
    ensures query != "" ==> r == LoadTracks(s, results)
    ensures query != "" ==>
      r.searchResults == results && r.attempts == s.attempts && r.unlockedDuration == s.unlockedDuration
  {
    if query == "" then s else LoadTracks(s, results)
  }

  // ---------------------------------------------------------------------------------------
  // The invariant
  // ---------------------------------------------------------------------------------------

  /**
   * What holds of every state the component reaches: the duration is 0 or a schedule
   * entry, the attempts are the number of entries reached, the two playback flags agree,
   * and the current song and URIs are those of the loaded track list.
   */
  predicate Inv(s: GameState)
  {
    && (s.unlockedDuration == 0.0 || s.unlockedDuration in TimeSegments)
    && s.attempts == CountAtMost(TimeSegments, s.unlockedDuration)
    && s.play == s.isPlaying
    && s.currentSong == First(s.searchResults)
    && s.uris == UrisOf(s.searchResults)
  }

  /** The initial state has zero counters, no playback, no win, an empty guess and no song,
    * and satisfies the invariant. */
  lemma InitialState()
    ensures Inv(Initial())
    ensures Initial().unlockedDuration == 0.0 && Initial().attempts == 0
    ensures !Initial().isPlaying && !Initial().play && !Initial().isGameWon
    ensures Initial().guess == "" && Initial().currentSong.None?
  {
    TimeSegmentsWellFormed();
    CountAtMostNone(TimeSegments, 0.0);
  }

  /** A reachable state has used at most six attempts, and all six exactly when the last
    * segment is unlocked. */
  lemma InvBoundsAttempts(s: GameState)
    requires Inv(s)
    ensures s.attempts <= |TimeSegments| == 6
    ensures s.attempts == |TimeSegments| <==> s.unlockedDuration == LastSegment
  {
    TimeSegmentsWellFormed();
    if s.unlockedDuration == LastSegment {
      CountAtMostAll(TimeSegments, s.unlockedDuration);
    } else {
      assert TimeSegments[5] > s.unlockedDuration;
      CountAtNextSegment(TimeSegments, s.unlockedDuration);
      FoundIsSmallestAbove(TimeSegments, s.unlockedDuration);
    }
  }

  // ---------------------------------------------------------------------------------------
  // Unlocking
  // ---------------------------------------------------------------------------------------

  /**
   * Below the last segment, unlocking moves to the smallest schedule entry above the
   * current duration, adds exactly one attempt, starts playback and changes nothing else.
   */
  lemma UnlockAdvances(s: GameState)
    requires s.unlockedDuration < LastSegment
    ensures var r := Unlock(s);
      && r.unlockedDuration in TimeSegments
      && r.unlockedDuration > s.unlockedDuration
      && (forall k :: 0 <= k < |TimeSegments| && TimeSegments[k] > s.unlockedDuration ==>
            r.unlockedDuration <= TimeSegments[k])
      && r == s.(unlockedDuration := r.unlockedDuration, attempts := s.attempts + 1,
                 play := true, isPlaying := true)
  {
    TimeSegmentsWellFormed();
    assert TimeSegments[5] > s.unlockedDuration;
    FoundIsSmallestAbove(TimeSegments, s.unlockedDuration);
  }

  /** At (or past) the last segment, unlocking is a no-op: nothing changes and no playback
    * starts. */
  lemma UnlockAtLastIsNoOp(s: GameState)
    requires s.unlockedDuration >= LastSegment
    ensures Unlock(s) == s
  {
    TimeSegmentsWellFormed();
    assert FindFirstAbove(TimeSegments, s.unlockedDuration).None?;
  }

  /** In a reachable state, unlocking is a no-op exactly when the last segment is unlocked. */
  lemma UnlockNoOpIffLast(s: GameState)
    requires Inv(s)
    ensures Unlock(s) == s <==> s.unlockedDuration == LastSegment
  {
    if s.unlockedDuration == LastSegment {
      UnlockAtLastIsNoOp(s);
    } else {
      InvBoundsAttempts(s);
      TimeSegmentsWellFormed();
      assert s.unlockedDuration < LastSegment;
      UnlockAdvances(s);
    }
  }

  /** Unlocking keeps the invariant. */
  lemma UnlockPreservesInv(s: GameState)
    requires Inv(s)
    ensures Inv(Unlock(s))
  {
    TimeSegmentsWellFormed();
    if FindFirstAbove(TimeSegments, s.unlockedDuration).Some? {
      FoundIsSmallestAbove(TimeSegments, s.unlockedDuration);
      CountAtNextSegment(TimeSegments, s.unlockedDuration);
    }
  }

  // ---------------------------------------------------------------------------------------
  // Guessing
  // ---------------------------------------------------------------------------------------

  /** A guess that is not the song name up to case leaves the whole state unchanged, the
    * guess text included, however often it is submitted. */
  lemma WrongGuessChangesNothing(s: GameState)
    requires s.currentSong.Some? ==> ToLower(s.guess) != ToLower(s.currentSong.value.name)
    ensures EvaluateGuess(s) == s
  {
  }

  /** Submitting twice has the effect of submitting once. */
  lemma EvaluateGuessIdempotent(s: GameState)
    ensures EvaluateGuess(EvaluateGuess(s)) == EvaluateGuess(s)
  {
  }

  /** The comparison uses the untrimmed guess: a correct title followed by a space is blank-
    * checked as non-empty but does not match. */
  lemma UntrimmedGuessDoesNotWin(s: GameState)
    requires s.currentSong == Some(Track("Chime", "spotify:track:chime"))
    requires s.guess == "Chime " && !s.isGameWon
    ensures !EvaluateGuess(s).isGameWon
  {
    assert ToLower(s.guess)[5] == ' ';
  }

  // ---------------------------------------------------------------------------------------
  // Reset and track lists
  // ---------------------------------------------------------------------------------------

  /** Resetting keeps the invariant and is idempotent. */
  lemma ResetPreservesInv(s: GameState)
    requires Inv(s)
    ensures Inv(ResetCounters(s))
    ensures ResetCounters(ResetCounters(s)) == ResetCounters(s)
  {
    InitialState();
  }

  /** Loading a track list keeps the invariant and leaves the attempts and duration alone. */
  lemma LoadTracksPreservesInv(s: GameState, tracks: seq<Track>)
    requires Inv(s)
    ensures Inv(LoadTracks(s, tracks))
    ensures LoadTracks(s, tracks).attempts == s.attempts
    ensures LoadTracks(s, tracks).unlockedDuration == s.unlockedDuration
  {
  }

  // ---------------------------------------------------------------------------------------
  // Runs of events
  // ---------------------------------------------------------------------------------------

  /** Everything that can change the state: the user's clicks, the cutoff timer, the player's
    * report, and the arrival of a fetched track list. */
  datatype Event =
    | UnlockClicked
    | PlayRequested(duration: real)
    | CutoffElapsed
    | PlayerReported(playerIsPlaying: bool)
    | GuessSubmitted
    | ResetClicked
    | LikedSongsLoaded(tracks: seq<Track>)
    | SearchCompleted(query: string, results: seq<Track>)

  /** The state after one event, each handler run to completion. */
  function Step(s: GameState, e: Event): GameState
  {
    match e
    case UnlockClicked => Unlock(s)
    case PlayRequested(_) => StartPlayback(s)
    case CutoffElapsed => StopPlayback(s)
    case PlayerReported(playing) => PlayerUpdate(s, playing)
    case GuessSubmitted => EvaluateGuess(s)
    case ResetClicked => ResetCounters(s)
    case LikedSongsLoaded(tracks) => LoadTracks(s, tracks)
    case SearchCompleted(query, results) => Search(s, query, results)
  }

  /** The state after a sequence of events, in order. */
  function Run(s: GameState, es: seq<Event>): GameState
    decreases |es|
  {
    if es == [] then s else Run(Step(s, es[0]), es[1..])
  }

  /** The number of unlock clicks in a run that found a further segment. */
  function SuccessfulUnlocks(s: GameState, es: seq<Event>): nat
    decreases |es|
  {
    if es == [] then 0
    else
      (if es[0].UnlockClicked? && FindFirstAbove(TimeSegments, s.unlockedDuration).Some? then 1 else 0)
      + SuccessfulUnlocks(Step(s, es[0]), es[1..])
  }

  /** Every event keeps the invariant. */
  lemma StepPreservesInv(s: GameState, e: Event)
    requires Inv(s)
    ensures Inv(Step(s, e))
  {
    match e
    case UnlockClicked => UnlockPreservesInv(s);
    case ResetClicked => ResetPreservesInv(s);
    case _ =>
  }

  /** Every run from a state satisfying the invariant ends in one; in particular every state
    * reachable from `Initial()` satisfies it. */
  lemma {:induction false} RunPreservesInv(s: GameState, es: seq<Event>)
    requires Inv(s)
    ensures Inv(Run(s, es))
    decreases |es|
  {
    if es != [] {
      StepPreservesInv(s, es[0]);
      RunPreservesInv(Step(s, es[0]), es[1..]);
    }
  }

  /** Without a reset, the attempts grow by exactly the number of successful unlocks, and
    * the unlocked duration never decreases. */
  lemma {:induction false} AttemptsCountUnlocks(s: GameState, es: seq<Event>)
    requires ResetClicked !in es
    ensures Run(s, es).attempts == s.attempts + SuccessfulUnlocks(s, es)
    ensures Run(s, es).unlockedDuration >= s.unlockedDuration
    decreases |es|
  {
    if es != [] {
      assert es[0] != ResetClicked;
      assert ResetClicked !in es[1..] by {
        assert forall k :: 0 <= k < |es[1..]| ==> es[1..][k] == es[k + 1];
      }
      if es[0].UnlockClicked? && FindFirstAbove(TimeSegments, s.unlockedDuration).Some? {
        var i :| FirstAboveAt(TimeSegments, s.unlockedDuration, i)
          && TimeSegments[i] == FindFirstAbove(TimeSegments, s.unlockedDuration).value;
      }
      AttemptsCountUnlocks(Step(s, es[0]), es[1..]);
    }
  }

  /** Once won, the game stays won until a reset. */
  lemma {:induction false} WonUntilReset(s: GameState, es: seq<Event>)
    requires s.isGameWon
    requires ResetClicked !in es
    ensures Run(s, es).isGameWon
    decreases |es|
  {
    if es != [] {
      assert es[0] != ResetClicked;
      assert ResetClicked !in es[1..] by {
        assert forall k :: 0 <= k < |es[1..]| ==> es[1..][k] == es[k + 1];
      }
      WonUntilReset(Step(s, es[0]), es[1..]);
    }
  }

  /** A reset followed by the reload it requests zeroes the counters and flags and makes the
    * first liked track the current song. */
  lemma ResetThenReload(s: GameState, liked: seq<Track>)
    requires Inv(s)
    ensures var r := Run(s, [ResetClicked, LikedSongsLoaded(liked)]);
      && Inv(r)
      && r.unlockedDuration == 0.0 && r.attempts == 0
      && !r.isPlaying && !r.play && !r.isGameWon && r.guess == ""
      && r.currentSong == First(liked) && r.searchResults == liked
  {
    var es := [ResetClicked, LikedSongsLoaded(liked)];
    var r0 := ResetCounters(s);
    assert es[1..] == [LikedSongsLoaded(liked)] && es[1..][1..] == [];
    calc {
      Run(s, es);
      Run(Step(s, es[0]), es[1..]);
      Run(r0, [LikedSongsLoaded(liked)]);
      Run(Step(r0, LikedSongsLoaded(liked)), []);
      LoadTracks(r0, liked);
    }
    RunPreservesInv(s, es);
  }

  /** Three unlocks on a freshly loaded track reach the one-second segment with three
    * attempts; the guess "chime" then wins against "Chime" and the attempts stay three. */
  lemma ChimeScenario()
    ensures var s0 := LoadTracks(Initial(), [Track("Chime", "spotify:track:chime")]);
      var s3 := Run(s0, [UnlockClicked, UnlockClicked, UnlockClicked]);
      var won := EvaluateGuess(s3.(guess := "chime"));
      && s3.unlockedDuration == 1.0 && s3.attempts == 3
      && won.isGameWon && won.attempts == 3
  {
    var s0 := LoadTracks(Initial(), [Track("Chime", "spotify:track:chime")]);
    TimeSegmentsWellFormed();
    assert FirstAboveAt(TimeSegments, 0.0, 0);
    var s1 := Unlock(s0);
    assert s1.unlockedDuration == 0.1;
    assert FirstAboveAt(TimeSegments, 0.1, 1);
    var s2 := Unlock(s1);
    assert s2.unlockedDuration == 0.5;
    assert FirstAboveAt(TimeSegments, 0.5, 2);
    var s3 := Unlock(s2);
    assert s3.unlockedDuration == 1.0;
    assert Run(s0, [UnlockClicked, UnlockClicked, UnlockClicked]) == s3 by {
      assert [UnlockClicked, UnlockClicked, UnlockClicked][1..] == [UnlockClicked, UnlockClicked];
      assert [UnlockClicked, UnlockClicked][1..] == [UnlockClicked];
      assert [UnlockClicked][1..] == [];
    }
    var g := s3.(guess := "chime");
    assert !IsBlank(g.guess) by { assert !IsWhitespace(g.guess[0]); }
    assert ToLower("chime") == ToLower("Chime") by {
      SameIgnoringCase("chime", "Chime");
    }
  }
}
