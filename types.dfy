/** The shared types of the aim trainer: the phase of a round and the player's settings. */
module Types {

  /** A value that may be missing, such as a settings row the store did not return. */
  datatype Option<T> = None | Some(value: T)

  /** The phase of a round: before the first start, during a round, after the countdown ran out. */
  datatype GamePhase = Idle | Playing | Ended

  /** Target diameter in pixels, target move period in milliseconds, round length in seconds.
      The settings form offers 20..80, 500..2000 and 10..60, but nothing checks those ranges,
      and settings read from the store are taken as they are; so the fields may be any
      integer. They are whole numbers because the defaults are and the form's sliders step
      by whole numbers; a fractional value written to the store by other means is outside
      this model. */
  datatype Settings = Settings(targetSize: int, targetSpeed: int, gameTime: int)

  /** The settings a player has before any stored settings are loaded. */
  const DefaultSettings: Settings := Settings(40, 1000, 30)

  /** The ranges the settings form's sliders allow. */
  predicate InSliderRanges(s: Settings)
  {
    && 20 <= s.targetSize <= 80
    && 500 <= s.targetSpeed <= 2000
    && 10 <= s.gameTime <= 60
  }
}
