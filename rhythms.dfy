/**
 * The rhythm tree of src/rhythm.rs: a sequence of segments (notes, tied
 * notes, rests and tuplets), its as-written duration, and the validating
 * tuplet constructor.
 */
module Rhythms {
  import opened Wrappers
  import Time
  import opened NoteValues

  datatype Rhythm = Rhythm(segments: seq<RhythmSegment>) {
    /** The rhythm's length: the sum of its segments' durations. */
    function Duration(): (d: Time.Duration)
      ensures segments == [] ==> d == Time.ZERO
      ensures |segments| == 1 ==> d == segments[0].Duration()
    {
      SegmentsDuration(segments)
    }
  }

  /**
   * A segment. A `Tuplet` places `actual` notes of `noteDuration` in the
   * space of `normal` of them; the source only builds one through
   * `NewTuplet`, which is what `Valid` records.
   */
  datatype RhythmSegment =
    | Note(dur: NoteDuration)
    | TiedNote(durs: seq<NoteDuration>)
    | Rest(dur: NoteDuration)
    | Tuplet(actual: U32, normal: U32, noteDuration: NoteDuration, rhythm: Rhythm)
  {
    /**
     * The as-written duration; a tuplet occupies `noteDuration * normal`.
     * A note or rest always lasts, a lone tied value lasts as long as the
     * plain note, and an empty tie lasts nothing.
     */
    function Duration(): (d: Time.Duration)
      ensures (Note? || Rest?) ==> d.ratio > 0.0
    {
      match this
      case Note(d) => ToDuration(d)
      case TiedNote(ds) => Time.Sum(WrittenDurations(ds))
      case Rest(d) => ToDuration(d)
      case Tuplet(_, normal, noteDuration, _) => ToDuration(noteDuration).Mul(normal as real)
    }
  }

  /** The error of `NewTuplet`: the inner rhythm's duration and the duration it should have had. */
  datatype TupletInnerDurationMismatch = TupletInnerDurationMismatch(actual: Time.Duration, expected: Time.Duration)

  /** The realised durations of a run of written notes, in order. */
  function WrittenDurations(ds: seq<NoteDuration>): (r: seq<Time.Duration>)
    ensures |r| == |ds|
    ensures forall i :: 0 <= i < |ds| ==> r[i] == ToDuration(ds[i])
  {
    seq(|ds|, i requires 0 <= i < |ds| => ToDuration(ds[i]))
  }

  /** Each segment's duration, in order. */
  function SegmentDurations(segs: seq<RhythmSegment>): (r: seq<Time.Duration>)
    ensures |r| == |segs|
    ensures forall i :: 0 <= i < |segs| ==> r[i] == segs[i].Duration()
  {
    seq(|segs|, i requires 0 <= i < |segs| => segs[i].Duration())
  }

  function SegmentsDuration(segs: seq<RhythmSegment>): Time.Duration {
    Time.Sum(SegmentDurations(segs))
  }

  /** The factor `normal / actual` by which a tuplet rescales its contents. */
  function ScaleFactor(normal: U32, actual: U32): Time.URatio
    requires actual > 0
  {
    normal as real / actual as real
  }

  /** Scaling `actual` units by the factor gives `normal` units. */
  lemma ScaleFactorCancels(normal: U32, actual: U32)
    requires actual > 0
    ensures (actual as real) * ScaleFactor(normal, actual) == normal as real
  {
  }

  /**
   * The tuplet constructor: it succeeds exactly when the inner rhythm lasts
   * `noteDuration * actual`, and otherwise reports both durations.
   */
  function NewTuplet(actual: U32, normal: U32, noteDuration: NoteDuration, rhythm: Rhythm)
    : (r: Result<RhythmSegment, TupletInnerDurationMismatch>)
    ensures r.Ok? <==> rhythm.Duration() == ToDuration(noteDuration).Mul(actual as real)
    ensures r.Ok? ==> r.value.Tuplet? && r.value.actual == actual && r.value.normal == normal
                      && r.value.noteDuration == noteDuration && r.value.rhythm == rhythm
    ensures r.Err? ==> r.error.actual == rhythm.Duration()
                       && r.error.expected == ToDuration(noteDuration).Mul(actual as real)
  {
    var actualInnerDuration := rhythm.Duration();
    var expectedInnerDuration := ToDuration(noteDuration).Mul(actual as real);
    if actualInnerDuration == expectedInnerDuration then
      Ok(Tuplet(actual, normal, noteDuration, rhythm))
    else
      Err(TupletInnerDurationMismatch(actualInnerDuration, expectedInnerDuration))
  }

  /** `P` holds of every segment of `r`, at every depth of tuplet nesting. */
  predicate Everywhere(r: Rhythm, P: RhythmSegment -> bool)
    decreases r
  {
    forall i :: 0 <= i < |r.segments| ==>
      P(r.segments[i]) && (r.segments[i].Tuplet? ==> Everywhere(r.segments[i].rhythm, P))
  }

  /** The invariant `NewTuplet` establishes for a tuplet segment. */
  predicate TupletValid(s: RhythmSegment) {
    s.Tuplet? ==> s.rhythm.Duration() == ToDuration(s.noteDuration).Mul(s.actual as real)
  }

  /** Every tuplet in the tree, at any depth, could have come from `NewTuplet`. */
  predicate Valid(r: Rhythm) {
    Everywhere(r, TupletValid)
  }

  /** A tuplet segment holds the `NewTuplet` invariant exactly when `NewTuplet` would have built it. */
  lemma NewTupletBuildsValid(actual: U32, normal: U32, noteDuration: NoteDuration, rhythm: Rhythm)
    ensures NewTuplet(actual, normal, noteDuration, rhythm).Ok?
        <==> TupletValid(Tuplet(actual, normal, noteDuration, rhythm))
  {
  }

  /** A rhythm extended by one segment is valid exactly when both parts are. */
  lemma ValidSnoc(segs: seq<RhythmSegment>, s: RhythmSegment)
    ensures Valid(Rhythm(segs + [s])) <==>
      Valid(Rhythm(segs)) && TupletValid(s) && (s.Tuplet? ==> Valid(s.rhythm))
  {
    var r := Rhythm(segs + [s]);
    assert r.segments[|segs|] == s;
    if Valid(Rhythm(segs)) && TupletValid(s) && (s.Tuplet? ==> Valid(s.rhythm)) {
      forall i | 0 <= i < |r.segments|
        ensures TupletValid(r.segments[i]) && (r.segments[i].Tuplet? ==> Valid(r.segments[i].rhythm))
      {
        if i < |segs| {
          assert r.segments[i] == Rhythm(segs).segments[i];
        }
      }
    }
    if Valid(r) {
      forall i | 0 <= i < |segs|
        ensures TupletValid(segs[i]) && (segs[i].Tuplet? ==> Valid(segs[i].rhythm))
      {
        assert r.segments[i] == segs[i];
      }
    }
  }

  /** A segment's duration: notes and rests are written values, ties add up, a tuplet is `noteDuration * normal` whatever it holds. */
  lemma SegmentDurationCases(s: RhythmSegment, actual': U32, rhythm': Rhythm)
    ensures (s.Note? || s.Rest?) ==> s.Duration() == ToDuration(s.dur)
    ensures s.TiedNote? ==> s.Duration() == Time.Sum(WrittenDurations(s.durs))
    ensures s.TiedNote? && |s.durs| == 1 ==> s.Duration() == ToDuration(s.durs[0])
    ensures s.TiedNote? ==> forall i :: 0 <= i < |s.durs| ==> ToDuration(s.durs[i]).ratio <= s.Duration().ratio
    ensures s.Tuplet? ==> s.Duration() == ToDuration(s.noteDuration).Mul(s.normal as real)
    ensures s.Tuplet? ==> s.Duration() == Tuplet(actual', s.normal, s.noteDuration, rhythm').Duration()
  {
    if s.TiedNote? {
      var ws := WrittenDurations(s.durs);
      if |s.durs| == 1 {
        assert ws == [ws[0]];
      }
      forall i | 0 <= i < |s.durs|
        ensures ToDuration(s.durs[i]).ratio <= s.Duration().ratio
      {
        Time.SumBoundsSummand(ws, i);
      }
    }
  }

  /** Extending a segment list by one segment adds that segment's duration. */
  lemma SegmentsDurationSnoc(segs: seq<RhythmSegment>, n: nat)
    requires n < |segs|
    ensures SegmentsDuration(segs[..n + 1]) == SegmentsDuration(segs[..n]).Add(segs[n].Duration())
  {
    assert SegmentDurations(segs[..n + 1])[..n] == SegmentDurations(segs[..n]);
  }

  /** The empty rhythm lasts zero, and concatenating segment lists adds durations. */
  lemma DurationAppend(a: seq<RhythmSegment>, b: seq<RhythmSegment>)
    ensures Rhythm([]).Duration() == Time.ZERO
    ensures Rhythm(a + b).Duration() == Rhythm(a).Duration().Add(Rhythm(b).Duration())
  {
    assert SegmentDurations(a + b) == SegmentDurations(a) + SegmentDurations(b);
    Time.SumAppend(SegmentDurations(a), SegmentDurations(b));
  }

  /** A tuplet's inner length rescaled by `normal / actual` is the tuplet's own length. */
  lemma TupletLengthRescaled(s: RhythmSegment)
    requires s.Tuplet? && TupletValid(s) && s.actual > 0
    ensures s.rhythm.Duration().Mul(ScaleFactor(s.normal, s.actual)) == s.Duration()
  {
    RescaleDuration(s.rhythm.Duration(), ToDuration(s.noteDuration), s.normal, s.actual);
    SegmentDurationCases(s, 0, s.rhythm);
  }

  /** `note * actual`, rescaled by `normal / actual`, is `note * normal`. */
  lemma RescaleDuration(inner: Time.Duration, note: Time.Duration, normal: U32, actual: U32)
    requires actual > 0 && inner == note.Mul(actual as real)
    ensures inner.Mul(ScaleFactor(normal, actual)) == note.Mul(normal as real)
  {
    var f := ScaleFactor(normal, actual);
    ScaleFactorCancels(normal, actual);
    assert (note.ratio * (actual as real)) * f == note.ratio * ((actual as real) * f);
  }
}
