/**
 * The flattening the renderer draws from (src/drawing.rs): each note and
 * rest of a rhythm, at its time in whole notes, with its written value.
 * It follows the same timing as the event flattening of src/polyrhythm.rs.
 */
module Drawing {
  import opened Time
  import opened NoteValues
  import opened Rhythms
  import opened Polyrhythm

  /** A note or rest to draw: where it starts, whether it is a rest, and its written value. */
  datatype FlattenedNote = FlattenedNote(time: URatio, isRest: bool, duration: NoteDuration)

  /**
   * The renderer's flattening handles notes, rests and tuplets only, and
   * builds `normal / actual` once per inner note.
   */
  predicate DrawableSegment(s: RhythmSegment) {
    !s.TiedNote? && TupletScalable(s)
  }

  predicate Drawable(r: Rhythm) {
    Everywhere(r, DrawableSegment)
  }

  lemma {:induction false} DrawableIsFlattenable(r: Rhythm)
    requires Drawable(r)
    ensures Flattenable(r)
    decreases r
  {
    forall i | 0 <= i < |r.segments|
      ensures TupletScalable(r.segments[i])
      ensures r.segments[i].Tuplet? ==> Flattenable(r.segments[i].rhythm)
    {
      if r.segments[i].Tuplet? {
        DrawableIsFlattenable(r.segments[i].rhythm);
      }
    }
  }

  /** Tuplet notes: each inner note, rest flag and value kept, at its placed time. */
  function PlaceNotes(ns: seq<FlattenedNote>, normal: U32, actual: U32, start: URatio): (placed: seq<FlattenedNote>)
    requires ns != [] ==> actual > 0
    ensures |placed| == |ns|
    ensures forall i :: 0 <= i < |ns| ==>
      placed[i].isRest == ns[i].isRest && placed[i].duration == ns[i].duration
  {
    seq(|ns|, i requires 0 <= i < |ns| =>
      FlattenedNote(PlacedTime(ns[i].time, normal, actual, start), ns[i].isRest, ns[i].duration))
  }

  /** Placing one more note appends its placed copy. */
  lemma PlaceNotesSnoc(ns: seq<FlattenedNote>, j: nat, normal: U32, actual: U32, start: URatio)
    requires j < |ns| && actual > 0
    ensures PlaceNotes(ns[..j + 1], normal, actual, start)
      == PlaceNotes(ns[..j], normal, actual, start)
         + [FlattenedNote(PlacedTime(ns[j].time, normal, actual, start), ns[j].isRest, ns[j].duration)]
  {
    var a := PlaceNotes(ns[..j + 1], normal, actual, start);
    var b := PlaceNotes(ns[..j], normal, actual, start)
      + [FlattenedNote(PlacedTime(ns[j].time, normal, actual, start), ns[j].isRest, ns[j].duration)];
    assert |a| == |b|;
    forall k | 0 <= k < |a| ensures a[k] == b[k] {
      if k < j {
        assert ns[..j + 1][k] == ns[..j][k];
      }
    }
  }

  /** The notes of the first `n` segments of `r`, each segment's at that segment's start time. */
  function NotesPrefix(r: Rhythm, n: nat): (ns: seq<FlattenedNote>)
    requires n <= |r.segments| && Drawable(r)
    ensures |ns| == CountPrefix(r, n)
    decreases r, n
  {
    if n == 0 then [] else NotesPrefix(r, n - 1) + SegmentNotes(r, n - 1)
  }

  /** The notes of segment `i` of `r`, placed at its start time. */
  function SegmentNotes(r: Rhythm, i: nat): (ns: seq<FlattenedNote>)
    requires i < |r.segments| && Drawable(r)
    ensures |ns| == CountPrefix(r, i + 1) - CountPrefix(r, i)
    decreases r, i
  {
    var start := StartOf(r, i);
    match r.segments[i]
    case Note(d) => [FlattenedNote(start, false, d)]
    case Rest(d) => [FlattenedNote(start, true, d)]
    case Tuplet(actual, normal, _, inner) =>
      PlaceNotes(NotesPrefix(inner, |inner.segments|), normal, actual, start)
  }

  function Notes(r: Rhythm): seq<FlattenedNote>
    requires Drawable(r)
  {
    NotesPrefix(r, |r.segments|)
  }

  /** The inner loop of the tuplet case: rescale each inner note, then push it moved to `start`. */
  method PushPlacedNotes(notes: seq<FlattenedNote>, subNotes: seq<FlattenedNote>, normal: U32, actual: U32, start: URatio)
    returns (pushed: seq<FlattenedNote>)
    requires subNotes != [] ==> actual > 0
    ensures pushed == notes + PlaceNotes(subNotes, normal, actual, start)
  {
    pushed := notes;
    for j := 0 to |subNotes|
      invariant pushed == notes + PlaceNotes(subNotes[..j], normal, actual, start)
    {
      PlaceNotesSnoc(subNotes, j, normal, actual, start);
      var scaled := FlattenedNote(subNotes[j].time * ScaleFactor(normal, actual), subNotes[j].isRest, subNotes[j].duration);
      pushed := pushed + [FlattenedNote(scaled.time + start, scaled.isRest, scaled.duration)];
    }
    assert subNotes[..|subNotes|] == subNotes;
  }

  /** `flatten_rhythm` of the renderer: one pass over the segments with a running start time, recursing into tuplets. */
  method FlattenRhythm(r: Rhythm) returns (notes: seq<FlattenedNote>)
    requires Drawable(r)
    ensures notes == Notes(r)
    decreases r
  {
    var currentTime: URatio := 0.0;
    notes := [];
    for i := 0 to |r.segments|
      invariant currentTime == StartOf(r, i)
      invariant notes == NotesPrefix(r, i)
    {
      var segment := r.segments[i];
      match segment {
        case Note(d) =>
          notes := notes + [FlattenedNote(currentTime, false, d)];
        case TiedNote(_) =>
          assert false;
        case Rest(d) =>
          notes := notes + [FlattenedNote(currentTime, true, d)];
        case Tuplet(actual, normal, _, rhythm) =>
          var subNotes := FlattenRhythm(rhythm);
          notes := PushPlacedNotes(notes, subNotes, normal, actual, currentTime);
      }
      currentTime := currentTime + segment.Duration().ToRatio();
    }
    assert r.segments[..|r.segments|] == r.segments;
  }

  // ---------------------------------------------------------------------
  // Where each segment's notes land
  // ---------------------------------------------------------------------

  lemma NotesPrefixSnoc(r: Rhythm, i: nat)
    requires i < |r.segments| && Drawable(r)
    ensures NotesPrefix(r, i + 1) == NotesPrefix(r, i) + SegmentNotes(r, i)
  {
  }

  /** Flattening a longer prefix only appends notes. */
  lemma {:induction false} NotesPrefixExtends(r: Rhythm, m: nat, n: nat)
    requires m <= n <= |r.segments| && Drawable(r)
    ensures CountPrefix(r, m) <= CountPrefix(r, n)
    ensures forall j :: 0 <= j < CountPrefix(r, m) ==> NotesPrefix(r, n)[j] == NotesPrefix(r, m)[j]
    decreases n
  {
    if m < n {
      NotesPrefixExtends(r, m, n - 1);
      NotesPrefixSnoc(r, n - 1);
    }
  }

  /** Note `k` of segment `i` sits at position `CountPrefix(r, i) + k` of the whole flattening. */
  lemma SegmentNoteAt(r: Rhythm, i: nat, ns: seq<FlattenedNote>, k: nat)
    requires Drawable(r) && i < |r.segments| && ns == SegmentNotes(r, i) && k < |ns|
    ensures CountPrefix(r, i) + k < |Notes(r)|
    ensures Notes(r)[CountPrefix(r, i) + k] == ns[k]
  {
    NotesPrefixExtends(r, i + 1, |r.segments|);
    NotesPrefixSnoc(r, i);
    ExtendedConcatAt(Notes(r), NotesPrefix(r, i + 1), NotesPrefix(r, i), ns, k);
  }

  /** A note or rest is drawn once, at its start time, with its rest flag and its written value. */
  lemma TopLevelNote(r: Rhythm, i: nat)
    requires Drawable(r) && i < |r.segments| && !r.segments[i].Tuplet?
    ensures r.segments[i].Note? || r.segments[i].Rest?
    ensures CountPrefix(r, i) < |Notes(r)|
    ensures Notes(r)[CountPrefix(r, i)] == FlattenedNote(StartOf(r, i), r.segments[i].Rest?, r.segments[i].dur)
  {
    assert DrawableSegment(r.segments[i]);
    assert SegmentNotes(r, i) == [FlattenedNote(StartOf(r, i), r.segments[i].Rest?, r.segments[i].dur)];
    SegmentNoteAt(r, i, SegmentNotes(r, i), 0);
  }

  /**
   * A tuplet contributes its inner rhythm's notes, in order, with their rest
   * flags and written values, each inner time `t` placed at
   * `t * normal / actual` past the tuplet's start.
   */
  lemma TupletNotes(r: Rhythm, i: nat)
    requires Drawable(r) && i < |r.segments| && r.segments[i].Tuplet?
    ensures Drawable(r.segments[i].rhythm)
    ensures CountPrefix(r, i + 1) == CountPrefix(r, i) + |Notes(r.segments[i].rhythm)| <= |Notes(r)|
    ensures forall k :: 0 <= k < |Notes(r.segments[i].rhythm)| ==>
      && r.segments[i].actual > 0
      && Notes(r)[CountPrefix(r, i) + k].isRest == Notes(r.segments[i].rhythm)[k].isRest
      && Notes(r)[CountPrefix(r, i) + k].duration == Notes(r.segments[i].rhythm)[k].duration
      && Notes(r)[CountPrefix(r, i) + k].time
         == PlacedTime(Notes(r.segments[i].rhythm)[k].time, r.segments[i].normal, r.segments[i].actual, StartOf(r, i))
  {
    assert DrawableSegment(r.segments[i]) && Drawable(r.segments[i].rhythm);
    NotesPrefixExtends(r, i + 1, |r.segments|);
    forall k | 0 <= k < |Notes(r.segments[i].rhythm)|
      ensures r.segments[i].actual > 0
      ensures Notes(r)[CountPrefix(r, i) + k].isRest == Notes(r.segments[i].rhythm)[k].isRest
      ensures Notes(r)[CountPrefix(r, i) + k].duration == Notes(r.segments[i].rhythm)[k].duration
      ensures Notes(r)[CountPrefix(r, i) + k].time
        == PlacedTime(Notes(r.segments[i].rhythm)[k].time, r.segments[i].normal, r.segments[i].actual, StartOf(r, i))
    {
      TupletNoteAt(r, i, k);
    }
  }

  lemma TupletNoteAt(r: Rhythm, i: nat, k: nat)
    requires Drawable(r) && i < |r.segments| && r.segments[i].Tuplet?
    requires Drawable(r.segments[i].rhythm) && k < |Notes(r.segments[i].rhythm)|
    ensures r.segments[i].actual > 0 && CountPrefix(r, i) + k < |Notes(r)|
    ensures Notes(r)[CountPrefix(r, i) + k]
      == PlaceNotes(Notes(r.segments[i].rhythm), r.segments[i].normal, r.segments[i].actual, StartOf(r, i))[k]
  {
    assert DrawableSegment(r.segments[i]);
    assert SegmentNotes(r, i)
      == PlaceNotes(Notes(r.segments[i].rhythm), r.segments[i].normal, r.segments[i].actual, StartOf(r, i));
    SegmentNoteAt(r, i, SegmentNotes(r, i), k);
  }

  // ---------------------------------------------------------------------
  // Agreement with the event flattening
  // ---------------------------------------------------------------------

  /** The event a drawn note stands for: a rest stops sound, anything else starts it. */
  function ToEvents(ns: seq<FlattenedNote>): (es: seq<Event>)
    ensures |es| == |ns|
    ensures forall i :: 0 <= i < |ns| ==>
      es[i].time == ns[i].time && (es[i].kind == Stop <==> ns[i].isRest)
  {
    seq(|ns|, i requires 0 <= i < |ns| => Event(if ns[i].isRest then Stop else Start, ns[i].time))
  }

  /** Placing commutes with forgetting the written values. */
  lemma ToEventsPlace(ns: seq<FlattenedNote>, normal: U32, actual: U32, start: URatio)
    requires ns != [] ==> actual > 0
    ensures ToEvents(PlaceNotes(ns, normal, actual, start)) == Place(ToEvents(ns), normal, actual, start)
  {
  }

  lemma {:induction false} SegmentNotesAgree(r: Rhythm, i: nat)
    requires Drawable(r) && i < |r.segments|
    ensures Flattenable(r)
    ensures ToEvents(SegmentNotes(r, i)) == SegmentEvents(r, i)
    decreases r, i + 1, 0
  {
    DrawableIsFlattenable(r);
    var seg := r.segments[i];
    assert DrawableSegment(seg);
    if seg.Tuplet? {
      NotesAgree(seg.rhythm);
      ToEventsPlace(Notes(seg.rhythm), seg.normal, seg.actual, StartOf(r, i));
    }
  }

  lemma {:induction false} NotesPrefixAgree(r: Rhythm, n: nat)
    requires Drawable(r) && n <= |r.segments|
    ensures Flattenable(r)
    ensures ToEvents(NotesPrefix(r, n)) == FlattenPrefix(r, n)
    decreases r, n, 1
  {
    DrawableIsFlattenable(r);
    if n > 0 {
      NotesPrefixAgree(r, n - 1);
      SegmentNotesAgree(r, n - 1);
      assert ToEvents(NotesPrefix(r, n)) == ToEvents(NotesPrefix(r, n - 1)) + ToEvents(SegmentNotes(r, n - 1));
    }
  }

  /**
   * The renderer draws exactly the events `score_error` compares: the same
   * number, at the same times, a rest where there is a `Stop`.
   */
  lemma {:induction false} NotesAgree(r: Rhythm)
    requires Drawable(r)
    ensures Flattenable(r)
    ensures ToEvents(Notes(r)) == Flatten(r)
    decreases r, |r.segments| + 1, 0
  {
    NotesPrefixAgree(r, |r.segments|);
  }

  /** For a well-formed rhythm the drawn notes are in time order and lie within the rhythm's length. */
  lemma NotesOrdered(r: Rhythm)
    requires Drawable(r) && WellFormed(r)
    ensures forall i, j :: 0 <= i < j < |Notes(r)| ==> Notes(r)[i].time <= Notes(r)[j].time
    ensures forall k :: 0 <= k < |Notes(r)| ==> 0.0 <= Notes(r)[k].time < r.Duration().ratio
  {
    NotesAgree(r);
    FlattenOrdered(r);
    var es := ToEvents(Notes(r));
    assert forall k :: 0 <= k < |Notes(r)| ==> Notes(r)[k].time == es[k].time;
  }
}
