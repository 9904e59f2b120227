/**
 * The timing inputs of the page layout (src/drawing/layout.rs): the
 * written length of every note and rest on the page, the shortest of them
 * and the longest rhythm, each defaulting to a whole note when there is
 * nothing to measure.
 */
module Layout {
  import opened Wrappers
  import opened Time
  import opened NoteValues
  import opened Rhythms
  import Polyrhythm

  /** The number of lengths the first `n` segments yield: one per note or rest, one per tied value, a tuplet's inner count. */
  function EntryCountPrefix(r: Rhythm, n: nat): nat
    requires n <= |r.segments|
    decreases r, n
  {
    if n == 0 then 0
    else EntryCountPrefix(r, n - 1) + match r.segments[n - 1]
      case TiedNote(ds) => |ds|
      case Tuplet(_, _, _, inner) => EntryCountPrefix(inner, |inner.segments|)
      case _ => 1
  }

  function EntryCount(r: Rhythm): nat {
    EntryCountPrefix(r, |r.segments|)
  }

  /** The source builds `normal / actual` once per inner length, so a zero `actual` is harmless only for a tuplet with none. */
  predicate EntriesScalable(s: RhythmSegment) {
    s.Tuplet? && s.actual == 0 ==> EntryCount(s.rhythm) == 0
  }

  predicate Scalable(r: Rhythm) {
    Everywhere(r, EntriesScalable)
  }

  /** Every length rescaled by `normal / actual`. */
  function ScaleAll(ds: seq<Duration>, normal: U32, actual: U32): (scaled: seq<Duration>)
    requires ds != [] ==> actual > 0
    ensures |scaled| == |ds|
  {
    if ds == [] then [] else seq(|ds|, i requires 0 <= i < |ds| => ds[i].Mul(ScaleFactor(normal, actual)))
  }

  /** The lengths of the first `n` segments of `r`, in order. */
  function EntriesPrefix(r: Rhythm, n: nat): (ds: seq<Duration>)
    requires n <= |r.segments| && Scalable(r)
    ensures |ds| == EntryCountPrefix(r, n)
    decreases r, n
  {
    if n == 0 then [] else EntriesPrefix(r, n - 1) + SegmentEntries(r, n - 1)
  }

  /** The lengths segment `i` yields: its written value, each tied value, or its tuplet's rescaled lengths. */
  function SegmentEntries(r: Rhythm, i: nat): (ds: seq<Duration>)
    requires i < |r.segments| && Scalable(r)
    ensures |ds| == EntryCountPrefix(r, i + 1) - EntryCountPrefix(r, i)
    decreases r, i
  {
    match r.segments[i]
    case Note(d) => [ToDuration(d)]
    case TiedNote(ds) => WrittenDurations(ds)
    case Rest(d) => [ToDuration(d)]
    case Tuplet(actual, normal, _, inner) => ScaleAll(EntriesPrefix(inner, |inner.segments|), normal, actual)
  }

  function Entries(r: Rhythm): seq<Duration>
    requires Scalable(r)
  {
    EntriesPrefix(r, |r.segments|)
  }

  /** `flatten_rhythm_to_durations`: one pass over the segments, looping over tied values and recursing into tuplets. */
  method FlattenRhythmToDurations(r: Rhythm) returns (notes: seq<Duration>)
    requires Scalable(r)
    ensures notes == Entries(r)
    decreases r
  {
    notes := [];
    for i := 0 to |r.segments|
      invariant notes == EntriesPrefix(r, i)
    {
      match r.segments[i] {
        case Note(dur) =>
          notes := notes + [ToDuration(dur)];
        case TiedNote(durs) =>
          var before := notes;
          for j := 0 to |durs|
            invariant notes == before + WrittenDurations(durs[..j])
          {
            assert WrittenDurations(durs[..j + 1]) == WrittenDurations(durs[..j]) + [ToDuration(durs[j])];
            notes := notes + [ToDuration(durs[j])];
          }
          assert durs[..|durs|] == durs;
        case Rest(dur) =>
          notes := notes + [ToDuration(dur)];
        case Tuplet(actual, normal, _, rhythm) =>
          var subDurations := FlattenRhythmToDurations(rhythm);
          var before := notes;
          for j := 0 to |subDurations|
            invariant notes == before + ScaleAll(subDurations[..j], normal, actual)
          {
            assert ScaleAll(subDurations[..j + 1], normal, actual)
              == ScaleAll(subDurations[..j], normal, actual) + [subDurations[j].Mul(ScaleFactor(normal, actual))];
            notes := notes + [subDurations[j].Mul(ScaleFactor(normal, actual))];
          }
          assert subDurations[..|subDurations|] == subDurations;
      }
    }
    assert r.segments[..|r.segments|] == r.segments;
  }

  // ---------------------------------------------------------------------
  // Where each segment's lengths land
  // ---------------------------------------------------------------------

  lemma EntriesPrefixSnoc(r: Rhythm, i: nat)
    requires i < |r.segments| && Scalable(r)
    ensures EntriesPrefix(r, i + 1) == EntriesPrefix(r, i) + SegmentEntries(r, i)
  {
  }

  /** Measuring a longer prefix only appends lengths. */
  lemma {:induction false} EntriesPrefixExtends(r: Rhythm, m: nat, n: nat)
    requires m <= n <= |r.segments| && Scalable(r)
    ensures EntryCountPrefix(r, m) <= EntryCountPrefix(r, n)
    ensures forall j :: 0 <= j < EntryCountPrefix(r, m) ==> EntriesPrefix(r, n)[j] == EntriesPrefix(r, m)[j]
    decreases n
  {
    if m < n {
      EntriesPrefixExtends(r, m, n - 1);
      EntriesPrefixSnoc(r, n - 1);
    }
  }

  /** Length `k` of segment `i` sits at position `EntryCountPrefix(r, i) + k` of the whole list. */
  lemma SegmentEntryAt(r: Rhythm, i: nat, ds: seq<Duration>, k: nat)
    requires Scalable(r) && i < |r.segments| && ds == SegmentEntries(r, i) && k < |ds|
    ensures EntryCountPrefix(r, i) + k < |Entries(r)|
    ensures Entries(r)[EntryCountPrefix(r, i) + k] == ds[k]
  {
    EntriesPrefixSnoc(r, i);
    PrefixEntryAt(r, i, ds, k);
  }

  lemma PrefixEntryAt(r: Rhythm, i: nat, ds: seq<Duration>, k: nat)
    requires Scalable(r) && i < |r.segments| && k < |ds|
    requires EntriesPrefix(r, i + 1) == EntriesPrefix(r, i) + ds
    ensures EntryCountPrefix(r, i) + k < |Entries(r)|
    ensures Entries(r)[EntryCountPrefix(r, i) + k] == ds[k]
  {
    EntriesPrefixExtends(r, i + 1, |r.segments|);
    Polyrhythm.ExtendedConcatAt(Entries(r), EntriesPrefix(r, i + 1), EntriesPrefix(r, i), ds, k);
  }

  /** A note or a rest yields one length, its written value. */
  lemma NoteOrRestEntry(r: Rhythm, i: nat)
    requires Scalable(r) && i < |r.segments| && (r.segments[i].Note? || r.segments[i].Rest?)
    ensures EntryCountPrefix(r, i + 1) == EntryCountPrefix(r, i) + 1
    ensures EntryCountPrefix(r, i + 1) <= |Entries(r)|
    ensures Entries(r)[EntryCountPrefix(r, i)] == ToDuration(r.segments[i].dur)
  {
    EntriesPrefixExtends(r, i + 1, |r.segments|);
    SegmentEntryAt(r, i, SegmentEntries(r, i), 0);
  }

  /** A tied group yields one length per written value, in order, unlike the event flattening. */
  lemma TiedNoteEntries(r: Rhythm, i: nat)
    requires Scalable(r) && i < |r.segments| && r.segments[i].TiedNote?
    ensures EntryCountPrefix(r, i + 1) == EntryCountPrefix(r, i) + |r.segments[i].durs|
    ensures EntryCountPrefix(r, i + 1) <= |Entries(r)|
    ensures forall k :: 0 <= k < |r.segments[i].durs| ==>
      Entries(r)[EntryCountPrefix(r, i) + k] == ToDuration(r.segments[i].durs[k])
  {
    EntriesPrefixExtends(r, i + 1, |r.segments|);
    forall k | 0 <= k < |r.segments[i].durs|
      ensures Entries(r)[EntryCountPrefix(r, i) + k] == ToDuration(r.segments[i].durs[k])
    {
      SegmentEntryAt(r, i, SegmentEntries(r, i), k);
    }
  }

  /** A tuplet yields its inner rhythm's lengths, in order, each rescaled by `normal / actual`. */
  lemma TupletEntries(r: Rhythm, i: nat)
    requires Scalable(r) && i < |r.segments| && r.segments[i].Tuplet?
    ensures Scalable(r.segments[i].rhythm)
    ensures EntryCountPrefix(r, i + 1) == EntryCountPrefix(r, i) + |Entries(r.segments[i].rhythm)|
    ensures EntryCountPrefix(r, i + 1) <= |Entries(r)|
    ensures forall k :: 0 <= k < |Entries(r.segments[i].rhythm)| ==>
      && r.segments[i].actual > 0
      && Entries(r)[EntryCountPrefix(r, i) + k]
         == Entries(r.segments[i].rhythm)[k].Mul(ScaleFactor(r.segments[i].normal, r.segments[i].actual))
  {
    assert EntriesScalable(r.segments[i]) && Scalable(r.segments[i].rhythm);
    EntriesPrefixExtends(r, i + 1, |r.segments|);
    forall k | 0 <= k < |Entries(r.segments[i].rhythm)|
      ensures r.segments[i].actual > 0
      ensures Entries(r)[EntryCountPrefix(r, i) + k]
        == Entries(r.segments[i].rhythm)[k].Mul(ScaleFactor(r.segments[i].normal, r.segments[i].actual))
    {
      SegmentEntryAt(r, i, SegmentEntries(r, i), k);
    }
  }

  // ---------------------------------------------------------------------
  // The lengths add up to the rhythm
  // ---------------------------------------------------------------------

  /** A tuplet with a positive `actual` that `NewTuplet` could have built; other segments as they are. */
  predicate MeasuredSegment(s: RhythmSegment) {
    TupletValid(s) && (s.Tuplet? ==> s.actual > 0)
  }

  predicate Measured(r: Rhythm) {
    Everywhere(r, MeasuredSegment)
  }

  lemma {:induction false} MeasuredIsScalable(r: Rhythm)
    requires Measured(r)
    ensures Scalable(r) && Valid(r)
    decreases r
  {
    forall i | 0 <= i < |r.segments|
      ensures EntriesScalable(r.segments[i]) && TupletValid(r.segments[i])
      ensures r.segments[i].Tuplet? ==> Scalable(r.segments[i].rhythm) && Valid(r.segments[i].rhythm)
    {
      if r.segments[i].Tuplet? {
        MeasuredIsScalable(r.segments[i].rhythm);
      }
    }
  }

  /** Rescaling every length rescales their sum. */
  lemma ScaleAllSum(ds: seq<Duration>, normal: U32, actual: U32)
    requires actual > 0
    ensures Sum(ScaleAll(ds, normal, actual)) == Sum(ds).Mul(ScaleFactor(normal, actual))
  {
    SumMul(ds, ScaleFactor(normal, actual));
  }

  /** The lengths of one segment add up to its duration. */
  lemma {:induction false} SegmentEntriesSum(r: Rhythm, i: nat)
    requires Measured(r) && i < |r.segments|
    ensures Scalable(r)
    ensures Sum(SegmentEntries(r, i)) == r.segments[i].Duration()
    decreases r, i + 1, 0
  {
    MeasuredIsScalable(r);
    var seg := r.segments[i];
    assert MeasuredSegment(seg);
    if seg.Tuplet? {
      EntriesSum(seg.rhythm);
      ScaleAllSum(Entries(seg.rhythm), seg.normal, seg.actual);
      TupletLengthRescaled(seg);
    } else if !seg.TiedNote? {
      assert SegmentEntries(r, i) == [ToDuration(seg.dur)];
    }
  }

  lemma {:induction false} EntriesPrefixSum(r: Rhythm, n: nat)
    requires Measured(r) && n <= |r.segments|
    ensures Scalable(r)
    ensures Sum(EntriesPrefix(r, n)).ratio == Polyrhythm.StartOf(r, n)
    decreases r, n, 1
  {
    MeasuredIsScalable(r);
    if n > 0 {
      EntriesPrefixSum(r, n - 1);
      SegmentEntriesSum(r, n - 1);
      var before, entries := EntriesPrefix(r, n - 1), SegmentEntries(r, n - 1);
      assert Sum(entries) == r.segments[n - 1].Duration();
      SumExtends(before, entries, Polyrhythm.StartOf(r, n - 1), r.segments[n - 1].Duration());
    }
  }

  /** A running total extended by a run of lengths grows by their sum. */
  lemma SumExtends(a: seq<Duration>, b: seq<Duration>, total: real, d: Duration)
    requires Sum(a).ratio == total && Sum(b) == d
    ensures Sum(a + b).ratio == total + d.ratio
  {
    SumAppend(a, b);
  }

  /**
   * The lengths the layout measures add up to the rhythm's duration: tied
   * values add up to their group, and a tuplet's rescaled inner lengths to
   * the tuplet's written length.
   */
  lemma {:induction false} EntriesSum(r: Rhythm)
    requires Measured(r)
    ensures Scalable(r)
    ensures Sum(Entries(r)) == r.Duration()
    decreases r, |r.segments| + 1, 0
  {
    MeasuredIsScalable(r);
    var n := |r.segments|;
    assert Sum(Entries(r)).ratio == r.Duration().ratio by {
      EntriesPrefixSum(r, n);
      Polyrhythm.StartOfIsPrefixDuration(r, n);
      assert r.segments[..n] == r.segments;
    }
  }

  // ---------------------------------------------------------------------
  // Shortest length and longest rhythm
  // ---------------------------------------------------------------------

  /** Every rhythm on the page, in drawing order: the pulse if any, then each original followed by its approximations. */
  function AllRhythms(p: Polyrhythm.Polyrhythm): seq<Rhythm> {
    (if p.pulse.Some? then [p.pulse.value] else []) + LineRhythms(p.rhythms)
  }

  function LineRhythms(lines: seq<Polyrhythm.RhythmLine>): seq<Rhythm> {
    if lines == [] then [] else [lines[0].original] + lines[0].approximations + LineRhythms(lines[1..])
  }

  /** The page holds exactly the pulse, the originals and the approximations. */
  lemma {:induction false} AllRhythmsMembers(p: Polyrhythm.Polyrhythm, r: Rhythm)
    ensures r in AllRhythms(p) <==>
      p.pulse == Some(r) || exists l :: l in p.rhythms && (r == l.original || r in l.approximations)
  {
    LineRhythmsMembers(p.rhythms, r);
  }

  lemma {:induction false} LineRhythmsMembers(lines: seq<Polyrhythm.RhythmLine>, r: Rhythm)
    ensures r in LineRhythms(lines) <==> exists l :: l in lines && (r == l.original || r in l.approximations)
  {
    if lines != [] {
      LineRhythmsMembers(lines[1..], r);
      if exists l :: l in lines && (r == l.original || r in l.approximations) {
        var l :| l in lines && (r == l.original || r in l.approximations);
        if l != lines[0] {
          assert l in lines[1..];
        }
      }
    }
  }

  /** The lengths of all rhythms, one rhythm after another (`flat_map`). */
  function AllEntries(rhythms: seq<Rhythm>): (ds: seq<Duration>)
    requires forall k :: 0 <= k < |rhythms| ==> Scalable(rhythms[k])
  {
    if rhythms == [] then [] else Entries(rhythms[0]) + AllEntries(rhythms[1..])
  }

  /** A length is on the page exactly when some rhythm yields it. */
  lemma {:induction false} AllEntriesMembers(rhythms: seq<Rhythm>, d: Duration)
    requires forall k :: 0 <= k < |rhythms| ==> Scalable(rhythms[k])
    ensures d in AllEntries(rhythms) <==> exists k :: 0 <= k < |rhythms| && d in Entries(rhythms[k])
  {
    if rhythms != [] {
      AllEntriesMembers(rhythms[1..], d);
      if exists k :: 0 <= k < |rhythms| && d in Entries(rhythms[k]) {
        var k :| 0 <= k < |rhythms| && d in Entries(rhythms[k]);
        if k > 0 {
          assert rhythms[1..][k - 1] == rhythms[k];
        }
      }
      if d in AllEntries(rhythms[1..]) {
        var k :| 0 <= k < |rhythms| - 1 && d in Entries(rhythms[1..][k]);
        assert rhythms[1..][k] == rhythms[k + 1];
      }
    }
  }

  /** The least of a non-empty list of durations (`min`). */
  function Minimum(ds: seq<Duration>): (m: Duration)
    requires ds != []
    ensures m in ds
    ensures forall k :: 0 <= k < |ds| ==> m.ratio <= ds[k].ratio
  {
    if |ds| == 1 then ds[0]
    else
      var rest := Minimum(ds[1..]);
      if rest.ratio < ds[0].ratio then rest else ds[0]
  }

  /** The greatest of a non-empty list of durations (`max`). */
  function Maximum(ds: seq<Duration>): (m: Duration)
    requires ds != []
    ensures m in ds
    ensures forall k :: 0 <= k < |ds| ==> ds[k].ratio <= m.ratio
  {
    if |ds| == 1 then ds[0]
    else
      var rest := Maximum(ds[1..]);
      if ds[0].ratio <= rest.ratio then rest else ds[0]
  }

  /** The shortest length on the page, or a whole note when there is none. */
  function ShortestDuration(rhythms: seq<Rhythm>): (d: Duration)
    requires forall k :: 0 <= k < |rhythms| ==> Scalable(rhythms[k])
    ensures AllEntries(rhythms) == [] ==> d == WHOLE_NOTE
    ensures AllEntries(rhythms) != [] ==> d in AllEntries(rhythms)
    ensures forall e :: e in AllEntries(rhythms) ==> d.ratio <= e.ratio
  {
    var all := AllEntries(rhythms);
    if all == [] then WHOLE_NOTE else Minimum(all)
  }

  /** The durations of the rhythms, in order. */
  function RhythmDurations(rhythms: seq<Rhythm>): (ds: seq<Duration>)
    ensures |ds| == |rhythms|
    ensures forall k :: 0 <= k < |rhythms| ==> ds[k] == rhythms[k].Duration()
  {
    seq(|rhythms|, k requires 0 <= k < |rhythms| => rhythms[k].Duration())
  }

  /** The length of the longest rhythm, or a whole note when there is none. */
  function LongestRhythm(rhythms: seq<Rhythm>): (d: Duration)
    ensures rhythms == [] ==> d == WHOLE_NOTE
    ensures rhythms != [] ==> exists k :: 0 <= k < |rhythms| && d == rhythms[k].Duration()
    ensures forall k :: 0 <= k < |rhythms| ==> rhythms[k].Duration().ratio <= d.ratio
  {
    if rhythms == [] then WHOLE_NOTE else Maximum(RhythmDurations(rhythms))
  }

  /**
   * No note or rest of a measured rhythm outlasts the rhythm, so the
   * shortest length is at most the longest rhythm on any page with a note.
   */
  lemma ShortestFitsLongest(rhythms: seq<Rhythm>)
    requires forall k :: 0 <= k < |rhythms| ==> Measured(rhythms[k])
    ensures forall k :: 0 <= k < |rhythms| ==> Scalable(rhythms[k])
    ensures AllEntries(rhythms) != [] ==> ShortestDuration(rhythms).ratio <= LongestRhythm(rhythms).ratio
  {
    forall k | 0 <= k < |rhythms| ensures Scalable(rhythms[k]) {
      MeasuredIsScalable(rhythms[k]);
    }
    var all := AllEntries(rhythms);
    if all != [] {
      var d := ShortestDuration(rhythms);
      AllEntriesMembers(rhythms, d);
      var k :| 0 <= k < |rhythms| && d in Entries(rhythms[k]);
      var j :| 0 <= j < |Entries(rhythms[k])| && Entries(rhythms[k])[j] == d;
      EntriesSum(rhythms[k]);
      SumBoundsSummand(Entries(rhythms[k]), j);
    }
  }

  /**
   * The layout applies both selections to every rhythm of the page: when
   * the pulse, the originals and the approximations are all measured and
   * the page holds a note, its shortest length fits within its longest rhythm.
   */
  lemma PageShortestFitsLongest(p: Polyrhythm.Polyrhythm)
    requires forall r :: r in AllRhythms(p) ==> Measured(r)
    ensures forall k :: 0 <= k < |AllRhythms(p)| ==> Scalable(AllRhythms(p)[k])
    ensures AllEntries(AllRhythms(p)) != [] ==>
      ShortestDuration(AllRhythms(p)).ratio <= LongestRhythm(AllRhythms(p)).ratio
  {
    ShortestFitsLongest(AllRhythms(p));
  }
}
