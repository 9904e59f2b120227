/**
 * Flattening a rhythm into timed start/stop events, and the approximation
 * error between two rhythms (src/polyrhythm.rs).
 */
module Polyrhythm {
  import opened Wrappers
  import opened Time
  import opened NoteValues
  import opened Rhythms

  /** What the page shows: an optional pulse, then each original rhythm with its approximations. */
  datatype Polyrhythm = Polyrhythm(pulse: Option<Rhythm>, rhythms: seq<RhythmLine>)

  datatype RhythmLine = RhythmLine(original: Rhythm, approximations: seq<Rhythm>)

  datatype EventKind = Start | Stop

  /** An event at a time measured in whole notes from the start of the rhythm. */
  datatype Event = Event(kind: EventKind, time: URatio)

  /** The number of events the first `n` segments of `r` yield: one per note, tied group or rest, and a tuplet's inner count. */
  function CountPrefix(r: Rhythm, n: nat): nat
    requires n <= |r.segments|
    decreases r, n
  {
    if n == 0 then 0
    else CountPrefix(r, n - 1) + match r.segments[n - 1]
      case Tuplet(_, _, _, inner) => CountPrefix(inner, |inner.segments|)
      case _ => 1
  }

  function EventCount(r: Rhythm): nat {
    CountPrefix(r, |r.segments|)
  }

  /** The source builds `normal / actual` once per inner event, so a zero `actual` is harmless only when the tuplet yields nothing. */
  predicate TupletScalable(s: RhythmSegment) {
    s.Tuplet? && s.actual == 0 ==> EventCount(s.rhythm) == 0
  }

  /** Flattening `r` never builds a ratio with a zero denominator. */
  predicate Flattenable(r: Rhythm) {
    Everywhere(r, TupletScalable)
  }

  /** The start time of segment `n`: the running sum of the durations of the segments before it. */
  function StartOf(r: Rhythm, n: nat): URatio
    requires n <= |r.segments|
  {
    if n == 0 then 0.0 else StartOf(r, n - 1) + r.segments[n - 1].Duration().ratio
  }

  /** The running start time is the duration of the segments before it. */
  lemma {:induction false} StartOfIsPrefixDuration(r: Rhythm, n: nat)
    requires n <= |r.segments|
    ensures StartOf(r, n) == SegmentsDuration(r.segments[..n]).ratio
  {
    if n == 0 {
      assert r.segments[..0] == [];
    } else {
      StartOfIsPrefixDuration(r, n - 1);
      SegmentsDurationSnoc(r.segments, n - 1);
    }
  }

  /** Where an inner event at `t` lands: rescaled by `normal / actual`, then moved to the tuplet's start. */
  function PlacedTime(t: URatio, normal: U32, actual: U32, start: URatio): URatio
    requires actual > 0
  {
    t * ScaleFactor(normal, actual) + start
  }

  /** Tuplet events: each inner event, kind kept, at its placed time. */
  function Place(es: seq<Event>, normal: U32, actual: U32, start: URatio): (placed: seq<Event>)
    requires es != [] ==> actual > 0
    ensures |placed| == |es|
    ensures forall i :: 0 <= i < |es| ==> placed[i].kind == es[i].kind
  {
    seq(|es|, i requires 0 <= i < |es| => Event(es[i].kind, PlacedTime(es[i].time, normal, actual, start)))
  }

  /** The placed copy of event `k`. */
  lemma PlaceAt(es: seq<Event>, normal: U32, actual: U32, start: URatio, k: nat)
    requires k < |es| && actual > 0
    ensures Place(es, normal, actual, start)[k].kind == es[k].kind
    ensures Place(es, normal, actual, start)[k].time == PlacedTime(es[k].time, normal, actual, start)
  {
  }

  /** Placing one more event appends its placed copy. */
  lemma PlaceSnoc(es: seq<Event>, j: nat, normal: U32, actual: U32, start: URatio)
    requires j < |es| && actual > 0
    ensures Place(es[..j + 1], normal, actual, start)
      == Place(es[..j], normal, actual, start) + [Event(es[j].kind, PlacedTime(es[j].time, normal, actual, start))]
  {
    var a := Place(es[..j + 1], normal, actual, start);
    var b := Place(es[..j], normal, actual, start) + [Event(es[j].kind, PlacedTime(es[j].time, normal, actual, start))];
    assert |a| == |b|;
    forall k | 0 <= k < |a| ensures a[k] == b[k] {
      if k < j {
        assert es[..j + 1][k] == es[..j][k];
      }
    }
  }

  /** The events of the first `n` segments of `r`, each segment's at that segment's start time. */
  function FlattenPrefix(r: Rhythm, n: nat): (es: seq<Event>)
    requires n <= |r.segments| && Flattenable(r)
    ensures |es| == CountPrefix(r, n)
    decreases r, n
  {
    if n == 0 then [] else FlattenPrefix(r, n - 1) + SegmentEvents(r, n - 1)
  }

  /** The events of segment `i` of `r`, placed at its start time. */
  function SegmentEvents(r: Rhythm, i: nat): (es: seq<Event>)
    requires i < |r.segments| && Flattenable(r)
    ensures |es| == CountPrefix(r, i + 1) - CountPrefix(r, i)
    decreases r, i
  {
    var start := StartOf(r, i);
    match r.segments[i]
    case Note(_) => [Event(Start, start)]
    case TiedNote(_) => [Event(Start, start)]
    case Rest(_) => [Event(Stop, start)]
    case Tuplet(actual, normal, _, inner) =>
      Place(FlattenPrefix(inner, |inner.segments|), normal, actual, start)
  }

  function Flatten(r: Rhythm): seq<Event>
    requires Flattenable(r)
  {
    FlattenPrefix(r, |r.segments|)
  }

  /** The inner loop of the tuplet case: push each inner event, rescaled and moved to `start`. */
  method PushPlaced(events: seq<Event>, subEvents: seq<Event>, normal: U32, actual: U32, start: URatio)
    returns (pushed: seq<Event>)
    requires subEvents != [] ==> actual > 0
    ensures pushed == events + Place(subEvents, normal, actual, start)
  {
    pushed := events;
    for j := 0 to |subEvents|
      invariant pushed == events + Place(subEvents[..j], normal, actual, start)
    {
      PlaceSnoc(subEvents, j, normal, actual, start);
      var time := subEvents[j].time * ScaleFactor(normal, actual);
      pushed := pushed + [Event(subEvents[j].kind, time + start)];
    }
    assert subEvents[..|subEvents|] == subEvents;
  }

  /** `flatten_rhythm`: one pass over the segments with a running start time, recursing into tuplets. */
  method FlattenRhythm(r: Rhythm) returns (events: seq<Event>)
    requires Flattenable(r)
    ensures events == Flatten(r)
    decreases r
  {
    var currentTime: URatio := 0.0;
    events := [];
    for i := 0 to |r.segments|
      invariant currentTime == StartOf(r, i)
      invariant events == FlattenPrefix(r, i)
    {
      var segment := r.segments[i];
      match segment {
        case Note(_) =>
          events := events + [Event(Start, currentTime)];
        case TiedNote(_) =>
          events := events + [Event(Start, currentTime)];
        case Rest(_) =>
          events := events + [Event(Stop, currentTime)];
        case Tuplet(actual, normal, _, rhythm) =>
          var subEvents := FlattenRhythm(rhythm);
          events := PushPlaced(events, subEvents, normal, actual, currentTime);
      }
      currentTime := currentTime + segment.Duration().ToRatio();
    }
    assert r.segments[..|r.segments|] == r.segments;
  }

  // ---------------------------------------------------------------------
  // Where each segment's events land
  // ---------------------------------------------------------------------

  /** One more segment appends that segment's events. */
  lemma FlattenPrefixSnoc(r: Rhythm, i: nat)
    requires i < |r.segments| && Flattenable(r)
    ensures FlattenPrefix(r, i + 1) == FlattenPrefix(r, i) + SegmentEvents(r, i)
  {
  }

  /** Flattening a longer prefix only appends events. */
  lemma {:induction false} FlattenPrefixExtends(r: Rhythm, m: nat, n: nat)
    requires m <= n <= |r.segments| && Flattenable(r)
    ensures CountPrefix(r, m) <= CountPrefix(r, n)
    ensures forall j :: 0 <= j < CountPrefix(r, m) ==> FlattenPrefix(r, n)[j] == FlattenPrefix(r, m)[j]
    decreases n
  {
    if m < n {
      FlattenPrefixExtends(r, m, n - 1);
      FlattenPrefixSnoc(r, n - 1);
    }
  }


  /**
   * A note, tied group or rest yields one event at the duration of the
   * segments before it (zero for the first): a `Start`, or a `Stop` for a rest.
   */
  lemma TopLevelEvent(r: Rhythm, i: nat)
    requires Flattenable(r) && i < |r.segments| && !r.segments[i].Tuplet?
    ensures StartOf(r, 0) == 0.0
    ensures CountPrefix(r, i) < |Flatten(r)|
    ensures Flatten(r)[CountPrefix(r, i)] == Event(if r.segments[i].Rest? then Stop else Start, StartOf(r, i))
  {
    assert SegmentEvents(r, i) == [Event(if r.segments[i].Rest? then Stop else Start, StartOf(r, i))];
    SegmentEventAt(r, i, SegmentEvents(r, i), 0);
    assert r.segments[..0] == [];
  }

  /** Event `k` of segment `i` sits at position `CountPrefix(r, i) + k` of the whole flattening. */
  lemma SegmentEventAt(r: Rhythm, i: nat, events: seq<Event>, k: nat)
    requires Flattenable(r) && i < |r.segments| && events == SegmentEvents(r, i) && k < |events|
    ensures CountPrefix(r, i) + k < |Flatten(r)|
    ensures Flatten(r)[CountPrefix(r, i) + k] == events[k]
  {
    FlattenPrefixSnoc(r, i);
    PrefixEventAt(r, i, events, k);
  }

  lemma PrefixEventAt(r: Rhythm, i: nat, events: seq<Event>, k: nat)
    requires Flattenable(r) && i < |r.segments| && k < |events|
    requires FlattenPrefix(r, i + 1) == FlattenPrefix(r, i) + events
    ensures CountPrefix(r, i) + k < |Flatten(r)|
    ensures Flatten(r)[CountPrefix(r, i) + k] == events[k]
  {
    FlattenPrefixExtends(r, i + 1, |r.segments|);
    ExtendedConcatAt(Flatten(r), FlattenPrefix(r, i + 1), FlattenPrefix(r, i), events, k);
  }

  /** In a sequence that extends `a + b`, element `k` of `b` sits at position `|a| + k`. */
  lemma ExtendedConcatAt<T>(whole: seq<T>, prefix: seq<T>, a: seq<T>, b: seq<T>, k: nat)
    requires prefix == a + b && |prefix| <= |whole| && k < |b|
    requires forall j :: 0 <= j < |prefix| ==> whole[j] == prefix[j]
    ensures |a| + k < |whole| && whole[|a| + k] == b[k]
  {
    assert prefix[|a| + k] == b[k];
  }

  /**
   * A tuplet contributes exactly its inner rhythm's events, in order and with
   * their kinds, each inner time `t` placed at `t * normal / actual` past the
   * tuplet's start.
   */
  lemma TupletEvents(r: Rhythm, i: nat)
    requires Flattenable(r) && i < |r.segments| && r.segments[i].Tuplet?
    ensures Flattenable(r.segments[i].rhythm)
    ensures CountPrefix(r, i + 1) == CountPrefix(r, i) + |Flatten(r.segments[i].rhythm)| <= |Flatten(r)|
    ensures forall k :: 0 <= k < |Flatten(r.segments[i].rhythm)| ==>
      && r.segments[i].actual > 0
      && Flatten(r)[CountPrefix(r, i) + k].kind == Flatten(r.segments[i].rhythm)[k].kind
      && Flatten(r)[CountPrefix(r, i) + k].time
         == PlacedTime(Flatten(r.segments[i].rhythm)[k].time, r.segments[i].normal, r.segments[i].actual, StartOf(r, i))
  {
    assert TupletScalable(r.segments[i]) && Flattenable(r.segments[i].rhythm);
    FlattenPrefixExtends(r, i + 1, |r.segments|);
    forall k | 0 <= k < |Flatten(r.segments[i].rhythm)|
      ensures r.segments[i].actual > 0
      ensures Flatten(r)[CountPrefix(r, i) + k].kind == Flatten(r.segments[i].rhythm)[k].kind
      ensures Flatten(r)[CountPrefix(r, i) + k].time
        == PlacedTime(Flatten(r.segments[i].rhythm)[k].time, r.segments[i].normal, r.segments[i].actual, StartOf(r, i))
    {
      TupletEventAt(r, i, k);
      PlaceAt(Flatten(r.segments[i].rhythm), r.segments[i].normal, r.segments[i].actual, StartOf(r, i), k);
    }
  }

  lemma TupletEventAt(r: Rhythm, i: nat, k: nat)
    requires Flattenable(r) && i < |r.segments| && r.segments[i].Tuplet?
    requires Flattenable(r.segments[i].rhythm) && k < |Flatten(r.segments[i].rhythm)|
    ensures r.segments[i].actual > 0 && CountPrefix(r, i) + k < |Flatten(r)|
    ensures Flatten(r)[CountPrefix(r, i) + k]
      == Place(Flatten(r.segments[i].rhythm), r.segments[i].normal, r.segments[i].actual, StartOf(r, i))[k]
  {
    assert TupletScalable(r.segments[i]);
    assert SegmentEvents(r, i) == Place(Flatten(r.segments[i].rhythm), r.segments[i].normal, r.segments[i].actual, StartOf(r, i));
    SegmentEventAt(r, i, SegmentEvents(r, i), k);
  }

  /** Three eighth notes in a 3:2 eighth-note tuplet start at 0, 1/12 and 1/6 of a whole note. */
  lemma EighthTripletTimes()
    ensures var e := NoteDuration(Eighth, false);
            var inner := Rhythm([Note(e), Note(e), Note(e)]);
            && NewTuplet(3, 2, e, inner) == Ok(Tuplet(3, 2, e, inner))
            && Flattenable(Rhythm([Tuplet(3, 2, e, inner)]))
            && Flatten(Rhythm([Tuplet(3, 2, e, inner)]))
               == [Event(Start, 0.0), Event(Start, 1.0 / 12.0), Event(Start, 1.0 / 6.0)]
  {
    var e := NoteDuration(Eighth, false);
    var segs := [Note(e), Note(e), Note(e)];
    var inner := Rhythm(segs);
    var eighth := ToDuration(e);
    assert eighth.ratio == 1.0 / 8.0;
    // The inner rhythm lasts three eighths, so the tuplet is valid.
    StartOfIsPrefixDuration(inner, 3);
    assert segs[..3] == segs;
    assert StartOf(inner, 1) == 1.0 / 8.0;
    assert StartOf(inner, 2) == 2.0 / 8.0;
    assert StartOf(inner, 3) == 3.0 / 8.0;
    assert inner.Duration().ratio == 3.0 / 8.0;
    var outer := Rhythm([Tuplet(3, 2, e, inner)]);
    assert CountPrefix(inner, 1) == 1 && CountPrefix(inner, 2) == 2 && CountPrefix(inner, 3) == 3;
    assert Flattenable(outer);
    // The inner events start at 0, 1/8 and 1/4.
    FlattenPrefixSnoc(inner, 0);
    FlattenPrefixSnoc(inner, 1);
    FlattenPrefixSnoc(inner, 2);
    assert SegmentEvents(inner, 0) == [Event(Start, 0.0)];
    assert SegmentEvents(inner, 1) == [Event(Start, 1.0 / 8.0)];
    assert SegmentEvents(inner, 2) == [Event(Start, 2.0 / 8.0)];
    assert Flatten(inner) == [Event(Start, 0.0), Event(Start, 1.0 / 8.0), Event(Start, 2.0 / 8.0)];
    // Rescaled by 2/3 from the tuplet's start at 0.
    assert ScaleFactor(2, 3) == 2.0 / 3.0;
    FlattenPrefixSnoc(outer, 0);
  }

  // ---------------------------------------------------------------------
  // Ordering of the flattened events
  // ---------------------------------------------------------------------

  /** A segment as `NewTuplet` and the parser build it: tuplets valid with positive counts, tied groups non-empty. */
  predicate ProperSegment(s: RhythmSegment) {
    && TupletValid(s)
    && (s.Tuplet? ==> s.actual > 0 && s.normal > 0)
    && (s.TiedNote? ==> s.durs != [])
  }

  predicate WellFormed(r: Rhythm) {
    Everywhere(r, ProperSegment)
  }

  predicate Sorted(es: seq<Event>) {
    forall i, j :: 0 <= i < j < |es| ==> es[i].time <= es[j].time
  }

  lemma {:induction false} WellFormedIsFlattenable(r: Rhythm)
    requires WellFormed(r)
    ensures Flattenable(r) && Valid(r)
    decreases r
  {
    forall i | 0 <= i < |r.segments|
      ensures TupletScalable(r.segments[i]) && TupletValid(r.segments[i])
      ensures r.segments[i].Tuplet? ==> Flattenable(r.segments[i].rhythm) && Valid(r.segments[i].rhythm)
    {
      if r.segments[i].Tuplet? {
        WellFormedIsFlattenable(r.segments[i].rhythm);
      }
    }
  }

  lemma MulMonotone(x: real, y: real, f: real)
    requires x <= y && 0.0 <= f
    ensures x * f <= y * f
  {
  }

  lemma MulStrictMonotone(x: real, y: real, f: real)
    requires x < y && 0.0 < f
    ensures x * f < y * f
  {
  }

  /** Placing sorted events that lie before `inner` puts them, still sorted, from `start` up to `start + inner * normal / actual`. */
  lemma PlaceOrdered(es: seq<Event>, normal: U32, actual: U32, start: URatio, inner: Duration)
    requires actual > 0 && Sorted(es)
    requires forall k :: 0 <= k < |es| ==> es[k].time < inner.ratio
    ensures Sorted(Place(es, normal, actual, start))
    ensures forall k :: 0 <= k < |es| ==>
      start <= Place(es, normal, actual, start)[k].time <= start + inner.Mul(ScaleFactor(normal, actual)).ratio
  {
    var f := ScaleFactor(normal, actual);
    var placed := Place(es, normal, actual, start);
    forall i, j | 0 <= i < j < |es| ensures placed[i].time <= placed[j].time {
      MulMonotone(es[i].time, es[j].time, f);
    }
    forall k | 0 <= k < |es| ensures start <= placed[k].time <= start + inner.Mul(f).ratio {
      MulMonotone(0.0, es[k].time, f);
      MulMonotone(es[k].time, inner.ratio, f);
    }
  }

  /** With a positive `normal`, events before the inner rhythm's end stay strictly before the tuplet's end. */
  lemma PlaceStrictlyBefore(es: seq<Event>, normal: U32, actual: U32, start: URatio, inner: Duration)
    requires actual > 0 && normal > 0
    requires forall k :: 0 <= k < |es| ==> es[k].time < inner.ratio
    ensures forall k :: 0 <= k < |es| ==>
      Place(es, normal, actual, start)[k].time < start + inner.Mul(ScaleFactor(normal, actual)).ratio
  {
    var f := ScaleFactor(normal, actual);
    forall k | 0 <= k < |es| ensures Place(es, normal, actual, start)[k].time < start + inner.Mul(f).ratio {
      MulStrictMonotone(es[k].time, inner.ratio, f);
    }
  }

  /** Sorted events before `mid`, followed by sorted events from `mid` to before `end`, are sorted and before `end`. */
  lemma ConcatOrdered(a: seq<Event>, b: seq<Event>, mid: real, end: real)
    requires Sorted(a) && Sorted(b) && mid <= end
    requires forall k :: 0 <= k < |a| ==> a[k].time < mid
    requires forall k :: 0 <= k < |b| ==> mid <= b[k].time < end
    ensures Sorted(a + b)
    ensures forall k :: 0 <= k < |a + b| ==> (a + b)[k].time < end
  {
  }

  /** A proper note, tied group or rest lasts a positive time. */
  lemma ProperSegmentPositive(s: RhythmSegment)
    requires ProperSegment(s) && !s.Tuplet?
    ensures s.Duration().ratio > 0.0
  {
    SegmentDurationCases(s, 0, Rhythm([]));
    if s.TiedNote? {
      assert 0.0 < ToDuration(s.durs[0]).ratio <= s.Duration().ratio;
    }
  }

  /**
   * The events of one segment of a well-formed rhythm are in order and lie
   * from the segment's start to before its end.
   */
  lemma {:induction false} SegmentEventsOrdered(r: Rhythm, i: nat)
    requires WellFormed(r) && i < |r.segments|
    ensures Flattenable(r)
    ensures Sorted(SegmentEvents(r, i))
    ensures forall k :: 0 <= k < |SegmentEvents(r, i)| ==>
      StartOf(r, i) <= SegmentEvents(r, i)[k].time < StartOf(r, i + 1)
    decreases r, i + 1, 0
  {
    WellFormedIsFlattenable(r);
    var seg := r.segments[i];
    assert ProperSegment(seg);
    if seg.Tuplet? {
      FlattenOrdered(seg.rhythm);
      var placed := Place(Flatten(seg.rhythm), seg.normal, seg.actual, StartOf(r, i));
      assert SegmentEvents(r, i) == placed;
      PlaceOrdered(Flatten(seg.rhythm), seg.normal, seg.actual, StartOf(r, i), seg.rhythm.Duration());
      PlaceStrictlyBefore(Flatten(seg.rhythm), seg.normal, seg.actual, StartOf(r, i), seg.rhythm.Duration());
      TupletLengthRescaled(seg);
    } else {
      ProperSegmentPositive(seg);
      assert SegmentEvents(r, i) == [Event(if seg.Rest? then Stop else Start, StartOf(r, i))];
    }
  }

  /**
   * For a well-formed rhythm the events of the first `n` segments are in
   * non-decreasing time order and lie before the start of segment `n`.
   */
  lemma {:induction false} FlattenPrefixOrdered(r: Rhythm, n: nat)
    requires WellFormed(r) && n <= |r.segments|
    ensures Flattenable(r)
    ensures Sorted(FlattenPrefix(r, n))
    ensures forall k :: 0 <= k < |FlattenPrefix(r, n)| ==> FlattenPrefix(r, n)[k].time < StartOf(r, n)
    decreases r, n, 1
  {
    WellFormedIsFlattenable(r);
    if n > 0 {
      FlattenPrefixOrdered(r, n - 1);
      SegmentEventsOrdered(r, n - 1);
      ConcatOrdered(FlattenPrefix(r, n - 1), SegmentEvents(r, n - 1), StartOf(r, n - 1), StartOf(r, n));
    }
  }

  /** The events of a well-formed rhythm are in non-decreasing time order and lie in `[0, r.Duration())`. */
  lemma {:induction false} FlattenOrdered(r: Rhythm)
    requires WellFormed(r)
    ensures Flattenable(r)
    ensures Sorted(Flatten(r))
    ensures forall k :: 0 <= k < |Flatten(r)| ==> 0.0 <= Flatten(r)[k].time < r.Duration().ratio
    decreases r, |r.segments| + 1, 0
  {
    FlattenPrefixOrdered(r, |r.segments|);
    StartOfIsPrefixDuration(r, |r.segments|);
    assert r.segments[..|r.segments|] == r.segments;
  }

  // ---------------------------------------------------------------------
  // Approximation error
  // ---------------------------------------------------------------------

  function AbsDiff(x: real, y: real): (d: real)
    ensures d >= 0.0
    ensures d == 0.0 <==> x == y
  {
    if x < y then y - x else x - y
  }

  /**
   * The summed time differences of events paired by index, up to the
   * shorter sequence; kinds are not compared.
   */
  function PairwiseError(o: seq<Event>, a: seq<Event>): (e: real)
    ensures e >= 0.0
  {
    if o == [] || a == [] then 0.0
    else AbsDiff(o[0].time, a[0].time) + PairwiseError(o[1..], a[1..])
  }

  /**
   * `score_error`: how far the approximation's events are from the
   * original's, summed pair by pair, with the difference of each pair taken
   * as an absolute value.
   */
  function ScoreError(original: Rhythm, approx: Rhythm): (e: real)
    requires Flattenable(original) && Flattenable(approx)
    ensures e >= 0.0
  {
    PairwiseError(Flatten(original), Flatten(approx))
  }

  /**
   * The pairwise error as the source computes it: each difference is an
   * unsigned subtraction, which fails (`None`) as soon as an approximate
   * event comes later than its original.
   */
  function PairwiseErrorAsWritten(o: seq<Event>, a: seq<Event>): (r: Option<real>)
    ensures r.Some? ==> r.value >= 0.0
    ensures r.None? ==> exists i :: 0 <= i < |o| && i < |a| && o[i].time < a[i].time
  {
    if o == [] || a == [] then Some(0.0)
    else if o[0].time < a[0].time then None
    else match PairwiseErrorAsWritten(o[1..], a[1..])
      case None => None
      case Some(rest) => Some(o[0].time - a[0].time + rest)
  }

  /** Whenever the source's computation does not underflow, it gives the intended error. */
  function ScoreErrorAsWritten(original: Rhythm, approx: Rhythm): (r: Option<real>)
    requires Flattenable(original) && Flattenable(approx)
    ensures r.Some? ==> r.value == ScoreError(original, approx)
  {
    AsWrittenAgrees(Flatten(original), Flatten(approx));
    PairwiseErrorAsWritten(Flatten(original), Flatten(approx))
  }

  /** The error is zero exactly when the paired events share their times. */
  lemma {:induction false} PairwiseErrorZeroIff(o: seq<Event>, a: seq<Event>)
    ensures PairwiseError(o, a) == 0.0 <==>
      forall i :: 0 <= i < |o| && i < |a| ==> o[i].time == a[i].time
  {
    if o != [] && a != [] {
      PairwiseErrorZeroIff(o[1..], a[1..]);
      if PairwiseError(o, a) == 0.0 {
        forall i | 0 <= i < |o| && i < |a| ensures o[i].time == a[i].time {
          if i > 0 {
            assert o[1..][i - 1] == o[i] && a[1..][i - 1] == a[i];
          }
        }
      } else if forall i :: 0 <= i < |o| && i < |a| ==> o[i].time == a[i].time {
        forall i | 0 <= i < |o| - 1 && i < |a| - 1 ensures o[1..][i].time == a[1..][i].time {
          assert o[1..][i] == o[i + 1] && a[1..][i] == a[i + 1];
        }
        assert false;
      }
    }
  }

  /** Pairing is symmetric: swapping the two sequences gives the same error. */
  lemma {:induction false} PairwiseErrorSymmetric(o: seq<Event>, a: seq<Event>)
    ensures PairwiseError(o, a) == PairwiseError(a, o)
  {
    if o != [] && a != [] {
      PairwiseErrorSymmetric(o[1..], a[1..]);
    }
  }

  /** Only the times of the first `min(|o|, |a|)` pairs count: kinds and surplus events are ignored. */
  lemma {:induction false} PairwiseErrorTimesOnly(o: seq<Event>, a: seq<Event>, o': seq<Event>, a': seq<Event>)
    requires |o'| == |o| && |a'| == |a|
    requires forall i :: 0 <= i < |o| && i < |a| ==> o'[i].time == o[i].time && a'[i].time == a[i].time
    ensures PairwiseError(o', a') == PairwiseError(o, a)
  {
    if o != [] && a != [] {
      forall i | 0 <= i < |o| - 1 && i < |a| - 1
        ensures o'[1..][i].time == o[1..][i].time && a'[1..][i].time == a[1..][i].time
      {
        assert o'[1..][i] == o'[i + 1] && o[1..][i] == o[i + 1];
        assert a'[1..][i] == a'[i + 1] && a[1..][i] == a[i + 1];
      }
      PairwiseErrorTimesOnly(o[1..], a[1..], o'[1..], a'[1..]);
    }
  }

  /** Events past the end of the shorter sequence are ignored. */
  lemma {:induction false} PairwiseErrorIgnoresSurplus(o: seq<Event>, a: seq<Event>, extra: seq<Event>)
    requires |o| <= |a|
    ensures PairwiseError(o, a + extra) == PairwiseError(o, a)
    ensures PairwiseError(a + extra, o) == PairwiseError(a, o)
  {
    if o != [] {
      assert (a + extra)[1..] == a[1..] + extra;
      PairwiseErrorIgnoresSurplus(o[1..], a[1..], extra);
    }
  }

  /** A rhythm has no error against itself. */
  lemma ScoreErrorSelf(r: Rhythm)
    requires Flattenable(r)
    ensures ScoreError(r, r) == 0.0
    ensures ScoreErrorAsWritten(r, r) == Some(0.0)
  {
    PairwiseErrorZeroIff(Flatten(r), Flatten(r));
    AsWrittenAgrees(Flatten(r), Flatten(r));
  }

  /** The error does not depend on which rhythm is called the original. */
  lemma ScoreErrorSymmetric(original: Rhythm, approx: Rhythm)
    requires Flattenable(original) && Flattenable(approx)
    ensures ScoreError(original, approx) == ScoreError(approx, original)
  {
    PairwiseErrorSymmetric(Flatten(original), Flatten(approx));
  }

  /**
   * The source's computation succeeds exactly when no approximate event is
   * later than its original, and then it agrees with the absolute-value
   * error.
   */
  lemma {:induction false} AsWrittenAgrees(o: seq<Event>, a: seq<Event>)
    ensures PairwiseErrorAsWritten(o, a).Some? <==>
      forall i :: 0 <= i < |o| && i < |a| ==> a[i].time <= o[i].time
    ensures PairwiseErrorAsWritten(o, a).Some? ==> PairwiseErrorAsWritten(o, a).value == PairwiseError(o, a)
  {
    if o != [] && a != [] {
      AsWrittenAgrees(o[1..], a[1..]);
      if forall i :: 0 <= i < |o| && i < |a| ==> a[i].time <= o[i].time {
        forall i | 0 <= i < |o| - 1 && i < |a| - 1 ensures a[1..][i].time <= o[1..][i].time {
          assert o[1..][i] == o[i + 1] && a[1..][i] == a[i + 1];
        }
      }
      if PairwiseErrorAsWritten(o, a).Some? {
        forall i | 0 <= i < |o| && i < |a| ensures a[i].time <= o[i].time {
          if i > 0 {
            assert o[1..][i - 1] == o[i] && a[1..][i - 1] == a[i];
          }
        }
      }
    }
  }

  /**
   * Two quarter notes approximated by a half note and a quarter note: the
   * second approximate event (at 1/2) is later than the original's (at 1/4),
   * so the source's unsigned subtraction fails, while the error is 1/4.
   */
  lemma LateApproximationUnderflows()
    ensures var q := NoteDuration(Quarter, false);
            var h := NoteDuration(Half, false);
            && Flattenable(Rhythm([Note(q), Note(q)]))
            && Flattenable(Rhythm([Note(h), Note(q)]))
            && ScoreErrorAsWritten(Rhythm([Note(q), Note(q)]), Rhythm([Note(h), Note(q)])) == None
            && ScoreError(Rhythm([Note(q), Note(q)]), Rhythm([Note(h), Note(q)])) == 1.0 / 4.0
  {
    var q := NoteDuration(Quarter, false);
    var h := NoteDuration(Half, false);
    var o := Rhythm([Note(q), Note(q)]);
    var a := Rhythm([Note(h), Note(q)]);
    assert ToDuration(q).ratio == 1.0 / 4.0;
    assert ToDuration(h).ratio == 1.0 / 2.0;
    FlattenPrefixSnoc(o, 0);
    FlattenPrefixSnoc(o, 1);
    FlattenPrefixSnoc(a, 0);
    FlattenPrefixSnoc(a, 1);
    assert StartOf(o, 1) == 1.0 / 4.0;
    assert StartOf(a, 1) == 1.0 / 2.0;
    assert Flatten(o) == [Event(Start, 0.0), Event(Start, 1.0 / 4.0)];
    assert Flatten(a) == [Event(Start, 0.0), Event(Start, 1.0 / 2.0)];
    assert Flatten(o)[1..] == [Event(Start, 1.0 / 4.0)];
    assert Flatten(a)[1..] == [Event(Start, 1.0 / 2.0)];
  }
}
