/**
 * The component itself: one mutable state cell holding a `GameState`, overwritten by the
 * handlers, plus the cutoff timers `handlePlay` has scheduled and that have not fired yet.
 */
module Controller {
  import opened Wrappers
  import opened Schedule
  import opened Game

  class MusicGuessingGame {
    /** The value held by the component's `useState` cell. */
    var state: GameState
    /** The durations of the cutoff timers scheduled and not yet fired, oldest first. No
      * handler ever cancels one. */
    var pendingCutoffs: seq<real>

    /** The state invariant, and: while playback is on, some cutoff timer is pending. */
    ghost predicate Valid()
      reads this
    {
      Inv(state) && (state.isPlaying ==> pendingCutoffs != [])
    }

    /** The component mounts with the initial state and no timer. */
    constructor ()
      ensures Valid()
      ensures state == Initial() && pendingCutoffs == []
    {
      state := Initial();
      pendingCutoffs := [];
      InitialState();
    }

    /** `handlePlay(duration)`: playback starts at once and a cutoff for `duration` seconds
      * is scheduled behind any still pending. */
    method HandlePlay(duration: real)
      requires Valid()
      modifies this
      ensures Valid()
      ensures state == StartPlayback(old(state))
      ensures pendingCutoffs == old(pendingCutoffs) + [duration]
    {
      state := StartPlayback(state);
      pendingCutoffs := pendingCutoffs + [duration];
    }

    /** The `k`-th pending cutoff timer fires: playback stops whatever newer cutoff is still
      * pending, and that timer is gone. */
    method CutoffElapsed(k: nat)
      requires Valid()
      requires k < |pendingCutoffs|
      modifies this
      ensures Valid()
      ensures state == StopPlayback(old(state))
      ensures !state.isPlaying
      ensures pendingCutoffs == old(pendingCutoffs[..k] + pendingCutoffs[k + 1..])
    {
      state := StopPlayback(state);
      pendingCutoffs := pendingCutoffs[..k] + pendingCutoffs[k + 1..];
    }

    /** The `SpotifyPlayer` callback with the player's reported playing status. */
    method PlayerCallback(playerIsPlaying: bool)
      requires Valid()
      modifies this
      ensures Valid()
      ensures state == PlayerUpdate(old(state), playerIsPlaying)
      ensures pendingCutoffs == old(pendingCutoffs)
    {
      if !playerIsPlaying {
        state := StopPlayback(state);
      }
    }

    /** `unlockNextSegment`: find the next segment; if there is none, return; otherwise move
      * to it, count the attempt and play the new segment. */
    method UnlockNextSegment()
      requires Valid()
      modifies this
      ensures Valid()
      ensures state == Unlock(old(state))
      ensures pendingCutoffs == old(pendingCutoffs) +
        match FindFirstAbove(TimeSegments, old(state).unlockedDuration)
        case None => []
        case Some(next) => [next]
    {
      var nextSegment := FindFirstAbove(TimeSegments, state.unlockedDuration);
      if nextSegment.None? {
        return;
      }
      UnlockPreservesInv(state);
      state := state.(unlockedDuration := nextSegment.value, attempts := state.attempts + 1);
      HandlePlay(nextSegment.value);
    }

    /** `submitGuess`. */
    method SubmitGuess()
      requires Valid()
      modifies this
      ensures Valid()
      ensures state == EvaluateGuess(old(state))
      ensures pendingCutoffs == old(pendingCutoffs)
    {
      var trimmed := Text.Trim(state.guess);
      if trimmed == [] || state.currentSong.None? {
        assert EvaluateGuess(state) == state;
        return;
      }
      var isCorrect := Text.ToLower(state.guess) == Text.ToLower(state.currentSong.value.name);
      if isCorrect {
        assert EvaluateGuess(state) == state.(isGameWon := true);
        state := state.(isGameWon := true);
      } else {
        assert EvaluateGuess(state) == state;
      }
    }

    /** `resetGame`: counters, flags and guess back to their initial values; the pending
      * timers are not cancelled. The liked-songs reload it starts arrives later through
      * `LoadLikedSongs`. */
    method ResetGame()
      requires Valid()
      modifies this
      ensures Valid()
      ensures state == ResetCounters(old(state))
      ensures pendingCutoffs == old(pendingCutoffs)
    {
      ResetPreservesInv(state);
      state := ResetCounters(state);
    }

    /** The state update of `loadLikedSongs`, given the fetched liked tracks. */
    method LoadLikedSongs(tracks: seq<Track>)
      requires Valid()
      modifies this
      ensures Valid()
      ensures state == LoadTracks(old(state), tracks)
      ensures pendingCutoffs == old(pendingCutoffs)
    {
      var uris := UrisOf(tracks);
      state := state.(searchResults := tracks, currentSong := First(tracks), uris := uris);
    }

    /** `handleSearch` with the query and the tracks the search would return. */
    method HandleSearch(query: string, results: seq<Track>)
      requires Valid()
      modifies this
      ensures Valid()
      ensures state == Search(old(state), query, results)
      ensures pendingCutoffs == old(pendingCutoffs)
    {
      if query == "" {
        return;
      }
      var uris := UrisOf(results);
      state := state.(searchResults := results, currentSong := First(results), uris := uris);
    }
  }
}
