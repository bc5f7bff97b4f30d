/** The round controller of the aim trainer's main screen: the phase of the round, the two
    click counters, the seconds left on the countdown and the player's settings, changed in
    place by one method per event. Every method follows RoundRules.Step. */
module App {
  import opened Types
  import opened RoundRules

  class RoundController {
    var phase: GamePhase
    var score: nat
    var misses: nat
    var timeLeft: int
    var settings: Settings

    /** The controller's fields as a value of the rules. */
    function State(): RoundState
      reads this
    {
      RoundState(phase, score, misses, timeLeft, settings)
    }

    /** A fresh controller: idle, nothing counted, default settings, and the default round
        length on the countdown. */
    constructor ()
      ensures phase == Idle && score == 0 && misses == 0
      ensures settings == DefaultSettings && timeLeft == 30
      ensures State() == Initial()
    {
      phase := Idle;
      score := 0;
      misses := 0;
      settings := DefaultSettings;
      timeLeft := DefaultSettings.gameTime;
    }

    /** The start (or play-again) button: whatever the phase, a new round begins with both
        counters at 0 and the full round length on the countdown. */
    method StartGame()
      modifies this
      ensures phase == Playing && score == 0 && misses == 0
      ensures timeLeft == settings.gameTime && settings == old(settings)
      ensures State() == Step(old(State()), Start)
    {
      phase := Playing;
      score := 0;
      misses := 0;
      timeLeft := settings.gameTime;
    }

    /** A click on the target: counted as a hit while a round is on, ignored otherwise. */
    method HandleTargetClick()
      modifies this
      ensures old(phase) == Playing ==> score == old(score) + 1
      ensures old(phase) != Playing ==> score == old(score)
      ensures phase == old(phase) && misses == old(misses)
      ensures timeLeft == old(timeLeft) && settings == old(settings)
      ensures State() == Step(old(State()), TargetHit)
    {
      if phase == Playing {
        score := score + 1;
      }
    }

    /** A click in the game area off the target: counted as a miss while a round is on,
        ignored otherwise. */
    method HandleMiss()
      modifies this
      ensures old(phase) == Playing ==> misses == old(misses) + 1
      ensures old(phase) != Playing ==> misses == old(misses)
      ensures phase == old(phase) && score == old(score)
      ensures timeLeft == old(timeLeft) && settings == old(settings)
      ensures State() == Step(old(State()), Miss)
    {
      if phase == Playing {
        misses := misses + 1;
      }
    }

    /** One firing of the one-second countdown, which runs only while a round is on with time
        left. With more than one second left it takes one second off; otherwise it ends the
        round at 0 seconds and asks for the session to be saved (`saveRequested`). */
    method Tick() returns (saveRequested: bool)
      requires phase == Playing && timeLeft > 0
      modifies this
      ensures old(timeLeft) > 1 ==> phase == Playing && timeLeft == old(timeLeft) - 1
      ensures old(timeLeft) <= 1 ==> phase == Ended && timeLeft == 0
      ensures saveRequested <==> phase == Ended
      ensures 0 <= timeLeft < old(timeLeft)
      ensures score == old(score) && misses == old(misses) && settings == old(settings)
      ensures State() == Step(old(State()), CountdownTick)
    {
      if timeLeft <= 1 {
        phase := Ended;
        saveRequested := true;
        timeLeft := 0;
      } else {
        saveRequested := false;
        timeLeft := timeLeft - 1;
      }
    }

    /** The player's stored settings, as read from the store: when a row came back, it becomes
        the settings and its round length goes on the countdown; on an error or a missing row
        nothing changes. */
    method LoadSettings(stored: Option<Settings>)
      modifies this
      ensures stored.Some? ==> settings == stored.value && timeLeft == stored.value.gameTime
      ensures stored.None? ==> settings == old(settings) && timeLeft == old(timeLeft)
      ensures phase == old(phase) && score == old(score) && misses == old(misses)
      ensures State() == if stored.Some? then Step(old(State()), Loaded(stored.value)) else old(State())
    {
      if stored.Some? {
        settings := stored.value;
        timeLeft := stored.value.gameTime;
      }
    }

    /** Settings saved from the settings form replace the current ones; the round, its counters
        and its countdown are left as they are, so the new round length applies from the next
        start. */
    method SaveSettings(chosen: Settings)
      modifies this
      ensures settings == chosen
      ensures phase == old(phase) && score == old(score) && misses == old(misses)
      ensures timeLeft == old(timeLeft)
      ensures State() == Step(old(State()), Saved(chosen))
    {
      settings := chosen;
    }
  }

  /** The countdown interval: it fires once a second for as long as the round is on with time
      left. `ticks` is the number of times it fired. A round with time left is over after exactly
      that many seconds; in any other state the interval never fires. */
  method Countdown(c: RoundController) returns (ticks: nat)
    modifies c
    ensures c.State() == Run(old(c.State()), Ticks(ticks))
    ensures old(TickEnabled(c.State())) ==> ticks == old(c.timeLeft) && c.phase == Ended && c.timeLeft == 0
    ensures !old(TickEnabled(c.State())) ==> ticks == 0 && c.State() == old(c.State())
    ensures c.score == old(c.score) && c.misses == old(c.misses) && c.settings == old(c.settings)
  {
    ticks := 0;
    ghost var enabled, length := TickEnabled(c.State()), c.timeLeft;
    while c.phase == Playing && c.timeLeft > 0
      invariant c.State() == Run(old(c.State()), Ticks(ticks))
      invariant c.score == old(c.score) && c.misses == old(c.misses) && c.settings == old(c.settings)
      invariant !enabled ==> ticks == 0
      invariant enabled ==> || (c.phase == Playing && c.timeLeft == length - ticks > 0)
                            || (c.phase == Ended && c.timeLeft == 0 && ticks == length)
      decreases c.timeLeft
    {
      var _ := c.Tick();
      RunSnoc(old(c.State()), Ticks(ticks), CountdownTick);
      TicksSnoc(ticks);
      ticks := ticks + 1;
    }
  }
}
