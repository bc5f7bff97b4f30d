/** The rules of one round of the aim trainer, stated on values: the round state, the events
    that change it, the result of a sequence of events, and the accuracy shown and stored.
    The class in module App follows these rules one event at a time. */
module RoundRules {
  import opened Types

  /** What the round controller keeps between events. */
  datatype RoundState = RoundState(
    phase: GamePhase,
    score: nat,
    misses: nat,
    timeLeft: int,
    settings: Settings)

  /** Everything that changes the round state: the start button, a click on the target,
      a click elsewhere in the game area, one tick of the one-second countdown, settings
      read from the store, and settings saved from the settings form. */
  datatype Event =
    | Start
    | TargetHit
    | Miss
    | CountdownTick
    | Loaded(stored: Settings)
    | Saved(chosen: Settings)

  /** The state of a fresh controller: idle, nothing counted, the default round length. */
  function Initial(): RoundState
  {
    RoundState(Idle, 0, 0, DefaultSettings.gameTime, DefaultSettings)
  }

  /** The countdown interval exists only while a round is being played with time left. */
  predicate TickEnabled(r: RoundState)
  {
    r.phase == Playing && r.timeLeft > 0
  }

  /** The effect of one event. A tick that arrives while the countdown is not enabled is never
      delivered, because no interval is running then; it changes nothing. */
  function Step(r: RoundState, e: Event): RoundState
  {
    match e
    case Start =>
      r.(phase := Playing, score := 0, misses := 0, timeLeft := r.settings.gameTime)
    case TargetHit =>
      if r.phase == Playing then r.(score := r.score + 1) else r
    case Miss =>
      if r.phase == Playing then r.(misses := r.misses + 1) else r
    case CountdownTick =>
      if !TickEnabled(r) then r
      else if r.timeLeft <= 1 then r.(phase := Ended, timeLeft := 0)
      else r.(timeLeft := r.timeLeft - 1)
    case Loaded(s) =>
      r.(settings := s, timeLeft := s.gameTime)
    case Saved(s) =>
      r.(settings := s)
  }

  /** The state after the events of `es`, in order, starting from `r`. */
  function Run(r: RoundState, es: seq<Event>): RoundState
    decreases |es|
  {
    if es == [] then r else Run(Step(r, es[0]), es[1..])
  }

  /** `k` consecutive countdown ticks. */
  function Ticks(k: nat): seq<Event>
  {
    if k == 0 then [] else [CountdownTick] + Ticks(k - 1)
  }

  /** `k` ticks hold `k` tick events and nothing else. */
  lemma {:induction false} TicksOnly(k: nat)
    ensures |Ticks(k)| == k && multiset(Ticks(k))[CountdownTick] == k
    ensures multiset(Ticks(k))[TargetHit] == 0 && multiset(Ticks(k))[Miss] == 0
    ensures forall e | e in Ticks(k) :: e == CountdownTick
  {
    if k > 0 {
      TicksOnly(k - 1);
      assert multiset(Ticks(k)) == multiset([CountdownTick]) + multiset(Ticks(k - 1));
    }
  }

  /** No event in `es` starts a round. */
  predicate NoStart(es: seq<Event>)
  {
    Start !in es
  }

  /** No event in `es` loads stored settings. */
  predicate NoLoad(es: seq<Event>)
  {
    forall e | e in es :: !e.Loaded?
  }

  /** Every settings value that `es` loads or saves has a round length of at least 0. */
  predicate NonNegativeGameTimes(es: seq<Event>)
  {
    forall e | e in es :: (e.Loaded? ==> e.stored.gameTime >= 0) && (e.Saved? ==> e.chosen.gameTime >= 0)
  }

  /** The accuracy stored with a finished session: the share of clicks that hit the target,
      as a percentage, and 0 before any click. */
  function Accuracy(score: nat, misses: nat): (a: real)
    ensures 0.0 <= a <= 100.0
    ensures score + misses == 0 ==> a == 0.0
    ensures score + misses > 0 ==> a * ((score + misses) as real) == 100.0 * (score as real)
    ensures a == 0.0 <==> score == 0
    ensures a == 100.0 <==> score > 0 && misses == 0
  {
    if score + misses == 0 then 0.0
    else
      var total := (score + misses) as real;
      var ratio := score as real / total;
      assert ratio * total == score as real;
      assert 0.0 <= ratio <= 1.0;
      ratio * 100.0
  }

  /** The accuracy shown during play: the exact accuracy rounded to the nearest whole percent,
      halves rounded up, as Math.round does on exact values. */
  function DisplayedAccuracy(score: nat, misses: nat): (p: int)
    ensures 0 <= p <= 100
    ensures score + misses == 0 ==> p == 0
    ensures (p as real) - 0.5 <= Accuracy(score, misses) < (p as real) + 0.5
  {
    var n := score + misses;
    if n == 0 then 0
    else
      var p := (200 * score + n) / (2 * n);
      RoundedPercent(score, n, p);
      p
  }

  /** `p` is the quotient of (200 * score + n) by 2n; it lies within half a percent of the exact
      accuracy 100 * score / n. */
  lemma RoundedPercent(score: nat, n: nat, p: int)
    requires score <= n && n > 0
    requires p == (200 * score + n) / (2 * n)
    ensures 0 <= p <= 100
    ensures (p as real) - 0.5 <= (score as real / n as real) * 100.0 < (p as real) + 0.5
  {
    var q := 200 * score + n;
    var rem := q % (2 * n);
    assert q == p * (2 * n) + rem && 0 <= rem < 2 * n;
    assert p * (2 * n) <= 201 * n && p * (2 * n) > -(2 * n);
    QuotientBounds(p, 2 * n);
    var x := (score as real / n as real) * 100.0;
    var d := x - (p as real) + 0.5;
    assert x * (n as real) == 100.0 * (score as real);
    assert 2.0 * (n as real) * d == rem as real;
    FractionBounds(d, 2 * n, rem);
  }

  /** From -m < p * m <= 201 * m / 2 with m > 0 follows 0 <= p <= 100. */
  lemma QuotientBounds(p: int, m: int)
    requires m > 0 && -m < p * m && 2 * (p * m) <= 201 * m
    ensures 0 <= p <= 100
  {
  }

  /** From m * d == rem with 0 <= rem < m follows 0 <= d < 1. */
  lemma FractionBounds(d: real, m: nat, rem: int)
    requires m > 0 && 0 <= rem < m && (m as real) * d == rem as real
    ensures 0.0 <= d < 1.0
  {
  }

  /** Running `a` and then `b` is running `a + b`. */
  lemma {:induction false} RunAppend(r: RoundState, a: seq<Event>, b: seq<Event>)
    ensures Run(r, a + b) == Run(Run(r, a), b)
    decreases |a|
  {
    if a == [] {
      assert a + b == b;
    } else {
      assert (a + b)[0] == a[0] && (a + b)[1..] == a[1..] + b;
      RunAppend(Step(r, a[0]), a[1..], b);
    }
  }

  /** Running `es` and then one more event `e`. */
  lemma RunSnoc(r: RoundState, es: seq<Event>, e: Event)
    ensures Run(r, es + [e]) == Step(Run(r, es), e)
  {
    RunAppend(r, es, [e]);
  }

  /** One more tick goes at the end as well as at the front. */
  lemma {:induction false} TicksSnoc(k: nat)
    ensures Ticks(k + 1) == Ticks(k) + [CountdownTick]
  {
    if k > 0 {
      TicksSnoc(k - 1);
    }
  }

  /** Outside a round nothing but a start puts the controller back into play, and no click or
      tick changes the phase or the counters; the time left changes only by loading settings. */
  lemma {:induction false} FrozenOutsidePlay(r: RoundState, es: seq<Event>)
    requires r.phase != Playing && NoStart(es)
    ensures Run(r, es).phase == r.phase
    ensures Run(r, es).score == r.score && Run(r, es).misses == r.misses
    ensures NoLoad(es) ==> Run(r, es).timeLeft == r.timeLeft
    decreases |es|
  {
    if es != [] {
      assert es[0] in es && forall e | e in es[1..] :: e in es;
      FrozenOutsidePlay(Step(r, es[0]), es[1..]);
    }
  }

  /** The time left never becomes negative, provided every round length the controller is
      given is at least 0. */
  lemma {:induction false} TimeLeftNonNegative(r: RoundState, es: seq<Event>)
    requires r.timeLeft >= 0 && r.settings.gameTime >= 0
    requires NonNegativeGameTimes(es)
    ensures Run(r, es).timeLeft >= 0 && Run(r, es).settings.gameTime >= 0
    decreases |es|
  {
    if es != [] {
      assert es[0] in es && forall e | e in es[1..] :: e in es;
      TimeLeftNonNegative(Step(r, es[0]), es[1..]);
    }
  }

  /** During a round with `t` >= 1 seconds left, and with no start and no load in between, the
      countdown is driven by the ticks alone: after `c` ticks, in any interleaving with clicks and
      saved settings, the round is still on with t - c seconds left when c < t, and over with
      0 seconds left when c >= t. */
  lemma {:induction false} CountdownByTicks(r: RoundState, es: seq<Event>)
    requires r.phase == Playing && r.timeLeft >= 1
    requires NoStart(es) && NoLoad(es)
    ensures var c := multiset(es)[CountdownTick];
      && (c < r.timeLeft ==> Run(r, es).phase == Playing && Run(r, es).timeLeft == r.timeLeft - c)
      && (c >= r.timeLeft ==> Run(r, es).phase == Ended && Run(r, es).timeLeft == 0)
    decreases |es|
  {
    if es != [] {
      var e, rest := es[0], es[1..];
      assert es == [e] + rest;
      assert multiset(es)[CountdownTick] == multiset([e])[CountdownTick] + multiset(rest)[CountdownTick];
      assert e in es && forall x | x in rest :: x in es;
      var s := Step(r, e);
      if s.phase == Playing {
        CountdownByTicks(s, rest);
      } else {
        assert e == CountdownTick && r.timeLeft == 1;
        FrozenOutsidePlay(s, rest);
      }
    }
  }

  /** Starting a round of `n` >= 1 seconds, the round is over after exactly `n` ticks, with
      0 seconds left and the counters untouched; after fewer ticks it is still on. */
  lemma CountdownFromStart(r: RoundState, k: nat)
    requires r.settings.gameTime >= 1
    ensures var after := Run(r, [Start] + Ticks(k));
      && after.score == 0 && after.misses == 0
      && (k < r.settings.gameTime <==> after.phase == Playing)
      && (k >= r.settings.gameTime <==> after.phase == Ended)
      && after.timeLeft == if k < r.settings.gameTime then r.settings.gameTime - k else 0
  {
    var s := Step(r, Start);
    RunAppend(r, [Start], Ticks(k));
    assert Run(r, [Start]) == s;
    TicksOnly(k);
    CountdownByTicks(s, Ticks(k));
    ClicksBounded(s, Ticks(k));
  }

  /** A round whose length is 0 or less never ends: the countdown is never enabled, so the round
      stays on, with its time left unchanged, until the next start or load. */
  lemma {:induction false} NonPositiveRoundNeverEnds(r: RoundState, es: seq<Event>)
    requires r.phase == Playing && r.timeLeft <= 0
    requires NoStart(es) && NoLoad(es)
    ensures Run(r, es).phase == Playing && Run(r, es).timeLeft == r.timeLeft
    decreases |es|
  {
    if es != [] {
      assert es[0] in es && forall e | e in es[1..] :: e in es;
      NonPositiveRoundNeverEnds(Step(r, es[0]), es[1..]);
    }
  }

  /** The only way out of such a stuck round: the start button is not shown while a round is
      on, so it takes a load of stored settings with a round length of at least 1 to enable the
      countdown again, and then that many ticks end the round. */
  lemma LoadRestartsStuckRound(r: RoundState, stored: Settings)
    requires r.phase == Playing && r.timeLeft <= 0 && stored.gameTime >= 1
    ensures TickEnabled(Step(r, Loaded(stored)))
    ensures Run(r, [Loaded(stored)] + Ticks(stored.gameTime)).phase == Ended
  {
    var s := Step(r, Loaded(stored));
    RunAppend(r, [Loaded(stored)], Ticks(stored.gameTime));
    assert Run(r, [Loaded(stored)]) == s;
    TicksOnly(stored.gameTime);
    CountdownByTicks(s, Ticks(stored.gameTime));
  }

  /** While a round is on, every click counts: if a round that is being played is still being
      played after `es` (with no start in between), its score grew by exactly the number of
      target hits in `es` and its misses by exactly the number of misses in `es`. */
  lemma {:induction false} ClicksCounted(r: RoundState, es: seq<Event>)
    requires r.phase == Playing && NoStart(es)
    requires Run(r, es).phase == Playing
    ensures Run(r, es).score == r.score + multiset(es)[TargetHit]
    ensures Run(r, es).misses == r.misses + multiset(es)[Miss]
    decreases |es|
  {
    if es != [] {
      var e, rest := es[0], es[1..];
      assert es == [e] + rest;
      assert multiset(es)[TargetHit] == multiset([e])[TargetHit] + multiset(rest)[TargetHit];
      assert multiset(es)[Miss] == multiset([e])[Miss] + multiset(rest)[Miss];
      assert e in es && forall x | x in rest :: x in es;
      var s := Step(r, e);
      if s.phase == Playing {
        ClicksCounted(s, rest);
      } else {
        FrozenOutsidePlay(s, rest);
      }
    }
  }

  /** Whatever happens in a round, a click is counted at most once: without a start in between,
      the score and the misses grow by at most the number of hits and misses in `es`. */
  lemma {:induction false} ClicksBounded(r: RoundState, es: seq<Event>)
    requires NoStart(es)
    ensures r.score <= Run(r, es).score <= r.score + multiset(es)[TargetHit]
    ensures r.misses <= Run(r, es).misses <= r.misses + multiset(es)[Miss]
    decreases |es|
  {
    if es != [] {
      var e, rest := es[0], es[1..];
      assert es == [e] + rest;
      assert multiset(es)[TargetHit] == multiset([e])[TargetHit] + multiset(rest)[TargetHit];
      assert multiset(es)[Miss] == multiset([e])[Miss] + multiset(rest)[Miss];
      assert e in es && forall x | x in rest :: x in es;
      ClicksBounded(Step(r, e), rest);
    }
  }

  /** With settings chosen on the settings form, a started round always ends, after the chosen
      number of seconds. */
  lemma SliderRoundEnds(r: RoundState)
    requires InSliderRanges(r.settings)
    ensures Run(r, [Start] + Ticks(r.settings.gameTime)).phase == Ended
  {
    CountdownFromStart(r, r.settings.gameTime);
  }

  /** The clicks of the example round below: three hits and two misses. */
  function ExampleClicks(): (es: seq<Event>)
    ensures multiset(es)[TargetHit] == 3 && multiset(es)[Miss] == 2 && multiset(es)[CountdownTick] == 0
    ensures NoStart(es) && NoLoad(es)
  {
    var es := [TargetHit, TargetHit, Miss, TargetHit, Miss];
    assert multiset(es) == multiset{TargetHit, TargetHit, TargetHit, Miss, Miss};
    es
  }

  /** A round with three hits and two misses before the countdown runs out (ten seconds long,
      say) ends with score 3, 2 misses and an accuracy of 60 percent. */
  lemma ThreeHitsTwoMisses(r: RoundState)
    requires r.settings.gameTime >= 1
    ensures var after := Run(r, [Start] + ExampleClicks() + Ticks(r.settings.gameTime));
      && after.phase == Ended && after.timeLeft == 0
      && after.score == 3 && after.misses == 2
      && Accuracy(after.score, after.misses) == 60.0
  {
    var n := r.settings.gameTime;
    var clicks := ExampleClicks();
    var started := Step(r, Start);
    RunAppend(r, [Start], clicks);
    RunAppend(r, [Start] + clicks, Ticks(n));
    assert Run(r, [Start]) == started;
    CountdownByTicks(started, clicks);
    ClicksCounted(started, clicks);
    var s := Run(started, clicks);
    TicksOnly(n);
    CountdownByTicks(s, Ticks(n));
    ClicksBounded(s, Ticks(n));
    assert Accuracy(3, 2) == 60.0;
  }
}
