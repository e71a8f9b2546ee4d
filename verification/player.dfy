/**
 * The mock podcast player (script.js, class PodcastPlayer): which episode is
 * selected, whether it is playing, the playback position in seconds, and the
 * one-second progress ticker that advances the position while playing.
 */
module Player {
  import opened Wrappers
  import TimeFormat

  /** The duration every episode is given, in seconds (35:42). */
  const DefaultDuration: real := 2142.0

  /** The part of the player state that one firing of the ticker reads and writes. */
  datatype Progress = Progress(time: real, playing: bool, ticking: bool)

  /**
   * The body of the interval callback installed by startProgress: at or past
   * the end, rewind to 0, stop playing and cancel the ticker; otherwise
   * advance by one second.
   */
  function TickStep(p: Progress, duration: real): Progress {
    if p.time >= duration then Progress(0.0, false, false)
    else p.(time := p.time + 1.0)
  }

  /** k successive firings of the ticker. */
  function Ticks(p: Progress, duration: real, k: nat): Progress {
    if k == 0 then p else TickStep(Ticks(p, duration, k - 1), duration)
  }

  /** The invariant the player keeps: a ticker runs exactly while playing, and the position stays near the episode. */
  predicate Consistent(p: Progress, duration: real) {
    0.0 <= p.time < duration + 1.0 && (p.ticking <==> p.playing)
  }

  predicate IsWhole(t: real) { t == t.Floor as real }

  // ---------------------------------------------------------------- lemmas

  /** A tick at the end rewinds and stops; before the end it adds one second and changes nothing else. */
  lemma TickCases(p: Progress, duration: real)
    ensures p.time >= duration ==> TickStep(p, duration) == Progress(0.0, false, false)
    ensures p.time < duration ==>
      TickStep(p, duration).time == p.time + 1.0
      && TickStep(p, duration).playing == p.playing
      && TickStep(p, duration).ticking == p.ticking
  {
  }

  /** A tick keeps the player's invariant. */
  lemma TickKeepsConsistent(p: Progress, duration: real)
    requires duration >= 0.0 && Consistent(p, duration)
    ensures Consistent(TickStep(p, duration), duration)
  {
  }

  /** A whole-second position in [0, duration] stays a whole second in [0, duration]. */
  lemma TickKeepsWholeRange(p: Progress, duration: real)
    requires IsWhole(p.time) && IsWhole(duration) && 0.0 <= p.time <= duration
    ensures IsWhole(TickStep(p, duration).time)
    ensures 0.0 <= TickStep(p, duration).time <= duration
  {
    if p.time < duration {
      var a, b := p.time.Floor, duration.Floor;
      assert a < b;
      assert p.time + 1.0 == (a + 1) as real;
      assert (p.time + 1.0).Floor == a + 1;
    }
  }

  /** Playing from second t, the ticker reaches second t + k after k firings, still playing. */
  lemma {:induction false} PlaysOn(t: nat, duration: nat, k: nat)
    requires t + k <= duration
    ensures Ticks(Progress(t as real, true, true), duration as real, k)
         == Progress((t + k) as real, true, true)
  {
    if k > 0 {
      PlaysOn(t, duration, k - 1);
    }
  }

  /**
   * Playback from a whole second t runs to the end after duration - t ticks,
   * and the next tick rewinds to 0 and stops the ticker.
   */
  lemma PlaysToEndThenStops(t: nat, duration: nat)
    requires t <= duration
    ensures Ticks(Progress(t as real, true, true), duration as real, duration - t)
         == Progress(duration as real, true, true)
    ensures Ticks(Progress(t as real, true, true), duration as real, duration - t + 1)
         == Progress(0.0, false, false)
  {
    PlaysOn(t, duration, duration - t);
  }

  // ---------------------------------------------------------------- the player

  class PodcastPlayer {
    var currentEpisode: Option<string>
    var isPlaying: bool
    var currentTime: real
    const duration: real
    /** Whether a progress interval is live (progressInterval not yet cleared). */
    var ticking: bool
    /** How many progress intervals the browser is running for this player. */
    ghost var live: nat
    /** The text of the time display element. */
    var display: string

    function State(): Progress
      reads this
    {
      Progress(currentTime, isPlaying, ticking)
    }

    ghost predicate Valid()
      reads this
    {
      && duration == DefaultDuration && Consistent(State(), duration)
      && live == (if ticking then 1 else 0)
    }

    /** A fresh player: nothing selected, stopped at 0; `shown` is what the page displays initially. */
    constructor (shown: string)
      ensures Valid()
      ensures currentEpisode == None && !isPlaying && currentTime == 0.0 && !ticking && live == 0
      ensures display == shown
    {
      currentEpisode := None;
      isPlaying := false;
      currentTime := 0.0;
      duration := DefaultDuration;
      ticking := false;
      live := 0;
      display := shown;
    }

    /** Clears the interval the player refers to, if any: afterwards none is running. */
    method StopProgress()
      requires live == (if ticking then 1 else 0)
      modifies this`ticking, this`live
      ensures !ticking && live == 0
    {
      if ticking {
        ticking := false;
        live := live - 1;
      }
    }

    /**
     * Clears any live interval first, then installs a new one: exactly one is
     * running afterwards, however many starts came before.
     */
    method StartProgress()
      requires live == (if ticking then 1 else 0)
      modifies this`ticking, this`live
      ensures ticking && live == 1
    {
      StopProgress();
      ticking := true;
      live := live + 1;
    }

    /** Writes the `MM:SS / MM:SS` text for the current position. */
    method UpdateProgress()
      requires currentTime >= 0.0 && duration >= 0.0
      modifies this`display
      ensures display == TimeFormat.TimeDisplay(currentTime, duration)
    {
      display := TimeFormat.TimeDisplay(currentTime, duration);
    }

    method Play(episode: string)
      requires Valid()
      modifies this
      ensures Valid()
      ensures currentEpisode == Some(episode) && isPlaying && ticking && live == 1
      ensures currentTime == old(currentTime) && display == old(display)
    {
      currentEpisode := Some(episode);
      isPlaying := true;
      StartProgress();
    }

    method Pause()
      requires Valid()
      modifies this
      ensures Valid()
      ensures !isPlaying && !ticking && live == 0
      ensures currentEpisode == old(currentEpisode) && currentTime == old(currentTime)
      ensures display == old(display)
    {
      isPlaying := false;
      StopProgress();
    }

    /** Pauses exactly when this episode is the one playing; otherwise plays it. */
    method TogglePlay(episode: string)
      requires Valid()
      modifies this
      ensures Valid()
      ensures isPlaying == !old(currentEpisode == Some(episode) && isPlaying)
      ensures ticking == isPlaying && live == (if isPlaying then 1 else 0)
      ensures currentEpisode == if old(currentEpisode == Some(episode) && isPlaying)
                                then old(currentEpisode) else Some(episode)
      ensures currentTime == old(currentTime) && display == old(display)
    {
      if currentEpisode == Some(episode) && isPlaying {
        Pause();
      } else {
        Play(episode);
      }
    }

    /** Jumps to the given fraction of the episode and refreshes the display. */
    method Seek(percent: real)
      requires Valid() && 0.0 <= percent <= 1.0
      modifies this
      ensures Valid()
      ensures currentTime == duration * percent && 0.0 <= currentTime <= duration
      ensures display == TimeFormat.TimeDisplay(currentTime, duration)
      ensures currentEpisode == old(currentEpisode) && isPlaying == old(isPlaying)
      ensures ticking == old(ticking) && live == old(live)
    {
      currentTime := duration * percent;
      UpdateProgress();
    }

    /**
     * One firing of the progress interval. At the end the display is left as
     * it was (the source does not refresh it there); otherwise it is refreshed.
     */
    method Tick()
      requires Valid() && ticking
      modifies this
      ensures Valid()
      ensures State() == TickStep(old(State()), duration)
      ensures live == if old(currentTime) >= duration then 0 else 1
      ensures currentEpisode == old(currentEpisode)
      ensures display == if old(currentTime) >= duration then old(display)
                         else TimeFormat.TimeDisplay(currentTime, duration)
    {
      if currentTime >= duration {
        currentTime := 0.0;
        isPlaying := false;
        StopProgress();
        return;
      }
      currentTime := currentTime + 1.0;
      UpdateProgress();
    }
  }
}
