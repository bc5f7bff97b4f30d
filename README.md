# Aim trainer round controller

A model of the round controller of the FPS Aim Trainer web application (`src/App.tsx`).
A round has a phase (`idle`, `playing` or `ended`), a score (target hits), a count of misses
(clicks in the game area off the target), the seconds left on a one-second countdown, and
the player's settings: target size, target speed and round length. Six events change this state:

- the start button, which also serves as "play again";
- a click on the target;
- a click elsewhere in the game area;
- one firing of the countdown interval;
- settings read from the store;
- settings saved from the settings form.

The project has three modules:

- `Types` (`types.dfy`) holds the phase, the settings record and the default settings,
  as declared in `src/types.ts` and at the top of `src/App.tsx`.
- `RoundRules` (`round_rules.dfy`) states the rules on values. `Step` gives the effect of one
  event, and `Run` gives the effect of a sequence of events. The module also defines the
  stored accuracy (`Accuracy`) and the displayed accuracy (`DisplayedAccuracy`). Its lemmas
  prove what holds of every sequence of events:
  - outside a round no click or tick changes anything;
  - the time left never goes negative, as long as every loaded or saved round length is
    at least 0;
  - the countdown is driven by ticks alone and ends the round after exactly the round
    length in seconds;
  - a round of length 0 or less never ends until settings with a positive round length
    are loaded;
  - while a round is on, every click is counted exactly once.
- `App` (`app.dfy`) is the controller itself. It is a class whose fields the event handlers
  overwrite in place, one method per event. `Countdown` models the interval: it fires
  `Tick` for as long as the round is on with time left. Every method states its new fields
  outright. It also states that its new state is `RoundRules.Step` of its old state, which
  is how the lemmas about `Step` and `Run` apply to the class.

Three behaviours of the code are worth stating outright:

- Settings can be saved at any time, and a load of stored settings puts their round length
  on the countdown even in the middle of a round (src/App.tsx:38-45, src/App.tsx:212).
- The phase becomes `ended` when the time left reaches 0 only for a round length of at
  least 1. The countdown runs only while the time left is positive (src/App.tsx:95). So a
  round started with a length of 0 or less stays in `playing` (`NonPositiveRoundNeverEnds`).
  The start and play-again buttons are not shown while a round is on (src/App.tsx:161,
  src/App.tsx:172). Such a round stays stuck until settings with a positive round length are
  loaded (`LoadRestartsStuckRound`).
- The 20–80, 500–2000 and 10–60 ranges are only the settings form's slider bounds. Nothing
  checks them, so the settings are plain integers, and the ranges appear only as the
  hypothesis of `SliderRoundEnds`.

## Model

| member | source | states |
|---|---|---|
| `App.RoundController.constructor` | src/App.tsx:9-21 | a fresh controller is idle, with both counters at 0, the default settings (40 px, 1000 ms, 30 s) and 30 seconds on the countdown |
| `App.RoundController.StartGame` | src/App.tsx:64-70 | from any phase: the phase becomes playing, score and misses become 0, the time left becomes the settings' round length, and the settings are kept |
| `App.RoundController.HandleTargetClick` | src/App.tsx:80-85 | while playing, the score grows by exactly 1; in idle or ended it is unchanged; misses, time left, phase and settings never change |
| `App.RoundController.HandleMiss` | src/App.tsx:87-91 | while playing, misses grow by exactly 1; in idle or ended they are unchanged; score, time left, phase and settings never change |
| `App.RoundController.Tick` | src/App.tsx:95-104 | runs only while playing with time left; with more than 1 second left it takes 1 off and stays playing; otherwise the time left becomes 0, the phase becomes ended and a save is requested; the time left stays at least 0 and strictly drops; score, misses and settings are untouched |
| `App.RoundController.LoadSettings` | src/App.tsx:38-45 | a returned row replaces the settings and puts its round length on the countdown; an error or a missing row changes nothing; phase and counters are untouched |
| `App.RoundController.SaveSettings` | src/App.tsx:212 | replaces the settings only; phase, score, misses and time left are unchanged |
| `App.Countdown` | src/App.tsx:93-108 | the interval fires exactly as many times as there were seconds left when the round is on with time left, and then the round is ended at 0 seconds; in any other state it never fires; the result is `Run` over that many ticks; counters and settings are untouched |
| `RoundRules.Accuracy` | src/App.tsx:51 | lies in [0, 100]; is 0 when there were no clicks; otherwise accuracy × clicks = 100 × score; is 0 exactly when the score is 0 and 100 exactly when there was a hit and no miss |
| `RoundRules.DisplayedAccuracy` | src/App.tsx:147 | lies in [0, 100]; is 0 before any click; lies within half a percent of `Accuracy`, with halves rounded up as Math.round does |
| `RoundRules.FrozenOutsidePlay` | src/App.tsx:80-104 | in idle or ended, with no start in between, no sequence of clicks, ticks or settings changes alters the phase or the counters; without a load it does not alter the time left either |
| `RoundRules.TimeLeftNonNegative` | src/App.tsx:38-104 | if every round length the controller is given is at least 0, the time left never becomes negative, whatever the events |
| `RoundRules.CountdownByTicks` | src/App.tsx:93-108 | during a round with t >= 1 seconds left, with no start or load in between, after c ticks interleaved with any clicks and saves: still playing with t - c seconds left if c < t, ended with 0 seconds left if c >= t |
| `RoundRules.CountdownFromStart` | src/App.tsx:64-108 | after a start with round length n >= 1 followed by k ticks: playing exactly when k < n, ended exactly when k >= n, the time left is n - k or 0, and both counters are 0 |
| `RoundRules.NonPositiveRoundNeverEnds` | src/App.tsx:93-108 | a round being played with 0 or fewer seconds left stays playing with its time left unchanged over any events with no start and no load, because the countdown never fires |
| `RoundRules.LoadRestartsStuckRound` | src/App.tsx:38-45 | a round being played with 0 or fewer seconds left gets its countdown back from a load of settings with round length n >= 1, and n ticks then end it |
| `RoundRules.ClicksCounted` | src/App.tsx:80-91 | if a round being played is still being played after a sequence of events with no start, its score grew by exactly the number of target hits and its misses by exactly the number of misses in the sequence |
| `RoundRules.ClicksBounded` | src/App.tsx:80-91 | with no start in between, the score and the misses never decrease and grow by at most the number of target hits and misses delivered |
| `RoundRules.SliderRoundEnds` | src/components/Settings.tsx:73-94 | with settings in the form's slider ranges, a start followed by round-length many ticks always reaches ended |
| `RoundRules.ThreeHitsTwoMisses` | src/App.tsx:48-104 | a round with three hits and two misses, followed by round-length many ticks, ends at 0 seconds with score 3, 2 misses and an accuracy of 60 percent |

## Left out

- Network calls to the hosted store are not modelled. These are the settings query, the
  session insert and the settings update (src/App.tsx:31-62, src/App.tsx:201-211). A loaded
  row is a parameter of `LoadSettings`, and the settings update is not modelled.
- App.RoundController.Tick: it says only that a save is requested when the round ends, not
  what the saved record holds. The insert reads the score and misses captured by the render
  that set up the interval, which is React closure behaviour.
- Target placement is not modelled (`getRandomPosition`, `moveTarget` in
  src/components/Target.tsx and the target-position state). It draws floating-point
  coordinates with `Math.random` from window and element sizes, and the code guarantees no
  bounds.
- Timer scheduling, interval cleanup and effect re-runs are not modelled. One firing of the
  countdown is an explicit `Tick` call. In the value model `Step`, a tick with no running
  interval is never delivered, so it changes nothing.
- RoundRules.Accuracy: it computes with exact real numbers, while the code computes an IEEE
  double. For 1 hit and 2 misses the stored value is a binary fraction near 33.33, not
  exactly 100/3, so `accuracy × clicks = 100 × score` holds of the model only.
- Settings and the time left are whole numbers here, while the code holds them as JavaScript
  numbers. The defaults and the form's sliders give whole numbers. A fractional stored round
  length such as 2.5 would end after three ticks (2.5, 1.5, 0.5, 0), and the model cannot
  express it.
- RoundRules.DisplayedAccuracy: it models Math.round on exact real values and makes no claim
  about IEEE floating-point rounding.
- Sign-in, sign-out, the settings modal's visibility and all rendering are left out as
  user-interface behaviour.
