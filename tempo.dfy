/**
 * The tempo conversion of `Duration::to_seconds` in src/time.rs: a tempo is a
 * beat note value and a number of beats per minute.
 */
module Tempo {
  import Time
  import opened NoteValues

  /** A beat note value and a beats-per-minute count, `(NoteDuration, u32)` in the source. */
  type Tempo = (NoteDuration, U32)

  /**
   * The seconds one whole note lasts at `tempo`, computed as the source
   * does: whole notes per minute, then per second, then inverted. A zero
   * beats-per-minute count makes the source divide by a zero ratio, so it is
   * excluded.
   */
  function SecondsPerWholeNote(tempo: Tempo): (f: real)
    requires tempo.1 > 0
    ensures f > 0.0
  {
    var wholeNotesPerMinute := ToDuration(tempo.0).ToRatio() * (tempo.1 as real);
    var wholeNotesPerSecond := wholeNotesPerMinute / 60.0;
    1.0 / wholeNotesPerSecond
  }

  /**
   * Converts whole notes to seconds: the seconds, times the whole notes
   * played per minute, are sixty times the whole notes converted.
   */
  function DurationToSeconds(d: Time.Duration, tempo: Tempo): (s: Time.Seconds)
    requires tempo.1 > 0
    ensures s.ratio * ToDuration(tempo.0).ratio * (tempo.1 as real) == d.ratio * 60.0
  {
    var f := SecondsPerWholeNote(tempo);
    var p := ToDuration(tempo.0).ratio * (tempo.1 as real);
    assert f * p == 60.0;
    assert d.ratio * f * ToDuration(tempo.0).ratio * (tempo.1 as real) == d.ratio * (f * p);
    Time.Seconds(d.ratio * f)
  }

  /** The conversion is additive: converting a sum adds the converted parts. */
  lemma ToSecondsAdditive(a: Time.Duration, b: Time.Duration, tempo: Tempo)
    requires tempo.1 > 0
    ensures DurationToSeconds(a.Add(b), tempo) == DurationToSeconds(a, tempo).Add(DurationToSeconds(b, tempo))
  {
    var f := SecondsPerWholeNote(tempo);
    assert (a.ratio + b.ratio) * f == a.ratio * f + b.ratio * f;
  }

  /** One whole note at sixty quarter notes per minute lasts exactly four seconds. */
  lemma WholeNoteAtQuarterSixty()
    ensures DurationToSeconds(Time.WHOLE_NOTE, (NoteDuration(Quarter, false), 60)) == Time.Seconds(4.0)
  {
    assert ToDuration(NoteDuration(Quarter, false)).ratio == 1.0 / 4.0;
    assert SecondsPerWholeNote((NoteDuration(Quarter, false), 60)) == 4.0;
  }

  /** Longer durations last longer: the conversion is monotone. */
  lemma ToSecondsMonotone(a: Time.Duration, b: Time.Duration, tempo: Tempo)
    requires tempo.1 > 0
    requires a.ratio <= b.ratio
    ensures DurationToSeconds(a, tempo).ratio <= DurationToSeconds(b, tempo).ratio
  {
    var f := SecondsPerWholeNote(tempo);
    assert a.ratio * f <= b.ratio * f;
  }
}
