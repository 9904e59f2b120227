/**
 * The unit wrappers of src/units.rs: whole notes and seconds, each around a
 * signed exact rational (`Ratio<i32>` in the source, `real` here).
 */
module Units {
  import opened NoteValues

  /** A quantity of whole notes. */
  datatype WholeNotes = WholeNotes(ratio: real) {

    /** `is_zero` holds exactly of the zero value. */
    predicate IsZero(): (b: bool)
      ensures b <==> ratio == 0.0
    {
      this == ZERO_WHOLE_NOTES
    }

    /**
     * Converts to seconds at `tempo`: the seconds, times the whole notes
     * played per minute, are sixty times the whole notes converted. The
     * beats-per-minute count must fit an `i32` (the source unwraps the
     * conversion) and be nonzero (the source divides by it).
     */
    function ToSeconds(tempo: (NoteDuration, U32)): (s: Seconds)
      requires 0 < tempo.1 < 0x8000_0000
      ensures s.ratio * ToDuration(tempo.0).ratio * (tempo.1 as real) == ratio * 60.0
    {
      var beat := ToDuration(tempo.0).ratio;
      var beatsPerMinute := tempo.1 as real;
      var secondsPerWholeNote := SecondsPerWholeNote(beat, beatsPerMinute);
      assert secondsPerWholeNote.ratio * ratio * beat * beatsPerMinute
          == ratio * (secondsPerWholeNote.ratio * (beat * beatsPerMinute));
      secondsPerWholeNote.Mul(ratio)
    }

    /** Adding a negative quantity lowers the value; adding zero keeps it. */
    function Add(rhs: WholeNotes): (r: WholeNotes)
      ensures rhs.ratio == 0.0 ==> r == this
      ensures r.ratio < ratio <==> rhs.ratio < 0.0
    {
      WholeNotes(ratio + rhs.ratio)
    }

    /** Subtraction undoes addition. */
    function Sub(rhs: WholeNotes): (r: WholeNotes)
      ensures r.Add(rhs) == this
    {
      WholeNotes(ratio - rhs.ratio)
    }

    /** Multiplying by one keeps the value. */
    function Mul(rhs: real): (r: WholeNotes)
      ensures rhs == 1.0 ==> r == this
    {
      WholeNotes(ratio * rhs)
    }

    /** Division by a zero ratio panics in the source. */
    function Div(rhs: real): WholeNotes
      requires rhs != 0.0
    {
      WholeNotes(ratio / rhs)
    }
  }

  const ZERO_WHOLE_NOTES: WholeNotes := WholeNotes(0.0)

  /**
   * The seconds one whole note lasts when `beatsPerMinute` beats of `beat`
   * whole notes are played per minute, computed as the source does: whole
   * notes per minute, then per second, then inverted.
   */
  function SecondsPerWholeNote(beat: real, beatsPerMinute: real): (f: Seconds)
    requires beat > 0.0 && beatsPerMinute > 0.0
    ensures f.ratio > 0.0
    ensures f.ratio * (beat * beatsPerMinute) == 60.0
  {
    var wholeNotesPerMinute := WholeNotes(beat).Mul(beatsPerMinute);
    var wholeNotesPerSecond := wholeNotesPerMinute.Div(60.0);
    InverseRateCancels(beat * beatsPerMinute);
    Seconds(1.0).Div(wholeNotesPerSecond.ratio)
  }

  /** Inverting a positive rate per minute gives a positive time that cancels the rate. */
  lemma InverseRateCancels(p: real)
    requires p > 0.0
    ensures p / 60.0 > 0.0
    ensures 1.0 / (p / 60.0) > 0.0
    ensures 1.0 / (p / 60.0) * p == 60.0
  {
  }

  /** A quantity of seconds. */
  datatype Seconds = Seconds(ratio: real) {

    function Abs(): (r: Seconds)
      ensures r.ratio >= 0.0
      ensures ratio >= 0.0 ==> r == this
      ensures ratio < 0.0 ==> r.ratio == -ratio
    {
      Seconds(if ratio < 0.0 then -ratio else ratio)
    }

    /** `is_zero` holds exactly of the zero value. */
    predicate IsZero(): (b: bool)
      ensures b <==> ratio == 0.0
    {
      this == ZERO_SECONDS
    }

    /** Adding a negative quantity lowers the value; adding zero keeps it. */
    function Add(rhs: Seconds): (r: Seconds)
      ensures rhs.ratio == 0.0 ==> r == this
      ensures r.ratio < ratio <==> rhs.ratio < 0.0
    {
      Seconds(ratio + rhs.ratio)
    }

    /** Subtraction undoes addition. */
    function Sub(rhs: Seconds): (r: Seconds)
      ensures r.Add(rhs) == this
    {
      Seconds(ratio - rhs.ratio)
    }

    /** Multiplying by one keeps the value. */
    function Mul(rhs: real): (r: Seconds)
      ensures rhs == 1.0 ==> r == this
    {
      Seconds(ratio * rhs)
    }

    /** Division by a zero ratio panics in the source. */
    function Div(rhs: real): Seconds
      requires rhs != 0.0
    {
      Seconds(ratio / rhs)
    }
  }

  const ZERO_SECONDS: Seconds := Seconds(0.0)

  /** `Sum` for whole notes: a left fold of `+` from zero. */
  function SumWholeNotes(xs: seq<WholeNotes>): (r: WholeNotes)
    ensures xs == [] ==> r == ZERO_WHOLE_NOTES
    ensures |xs| == 1 ==> r == xs[0]
  {
    if xs == [] then ZERO_WHOLE_NOTES else SumWholeNotes(xs[..|xs| - 1]).Add(xs[|xs| - 1])
  }

  /** `Sum` for seconds: a left fold of `+` from zero. */
  function SumSeconds(xs: seq<Seconds>): (r: Seconds)
    ensures xs == [] ==> r == ZERO_SECONDS
    ensures |xs| == 1 ==> r == xs[0]
  {
    if xs == [] then ZERO_SECONDS else SumSeconds(xs[..|xs| - 1]).Add(xs[|xs| - 1])
  }

  /** Zero is the identity of `+`, `-` undoes `+`, and `/ r` undoes `* r`, for whole notes. */
  lemma WholeNotesAddSubMulDiv(a: WholeNotes, b: WholeNotes, r: real)
    requires r != 0.0
    ensures a.Add(ZERO_WHOLE_NOTES) == a && ZERO_WHOLE_NOTES.Add(a) == a
    ensures a.Add(b).Sub(b) == a && a.Sub(b).Add(b) == a
    ensures a.Mul(r).Div(r) == a && a.Div(r).Mul(r) == a
  {
  }

  /** Zero is the identity of `+`, `-` undoes `+`, and `/ r` undoes `* r`, for seconds. */
  lemma SecondsAddSubMulDiv(a: Seconds, b: Seconds, r: real)
    requires r != 0.0
    ensures a.Add(ZERO_SECONDS) == a && ZERO_SECONDS.Add(a) == a
    ensures a.Add(b).Sub(b) == a
    ensures a.Mul(r).Div(r) == a && a.Div(r).Mul(r) == a
  {
  }

  /** The absolute value of a difference does not depend on the order of the operands. */
  lemma AbsOfDifferenceSymmetric(a: Seconds, b: Seconds)
    ensures a.Sub(b).Abs() == b.Sub(a).Abs()
    ensures a.Sub(b).Abs().IsZero() <==> a == b
  {
  }

  /** The whole-notes sum folds from zero: the empty sum is zero, and concatenations add. */
  lemma {:induction false} SumWholeNotesAppend(a: seq<WholeNotes>, b: seq<WholeNotes>)
    ensures SumWholeNotes(a + b) == SumWholeNotes(a).Add(SumWholeNotes(b))
    decreases |b|
  {
    if b == [] {
      assert a + b == a;
    } else {
      assert (a + b)[..|a + b| - 1] == a + b[..|b| - 1];
      SumWholeNotesAppend(a, b[..|b| - 1]);
    }
  }

  /** The seconds sum folds from zero: the empty sum is zero, and concatenations add. */
  lemma {:induction false} SumSecondsAppend(c: seq<Seconds>, d: seq<Seconds>)
    ensures SumSeconds(c + d) == SumSeconds(c).Add(SumSeconds(d))
    decreases |d|
  {
    if d == [] {
      assert c + d == c;
    } else {
      assert (c + d)[..|c + d| - 1] == c + d[..|d| - 1];
      SumSecondsAppend(c, d[..|d| - 1]);
    }
  }

  /** The conversion to seconds is additive. */
  lemma ToSecondsAdditive(a: WholeNotes, b: WholeNotes, tempo: (NoteDuration, U32))
    requires 0 < tempo.1 < 0x8000_0000
    ensures a.Add(b).ToSeconds(tempo) == a.ToSeconds(tempo).Add(b.ToSeconds(tempo))
  {
    var f := SecondsPerWholeNote(ToDuration(tempo.0).ratio, tempo.1 as real);
    assert a.Add(b).ToSeconds(tempo) == f.Mul(a.ratio + b.ratio);
    assert a.ToSeconds(tempo) == f.Mul(a.ratio) && b.ToSeconds(tempo) == f.Mul(b.ratio);
    assert f.ratio * (a.ratio + b.ratio) == f.ratio * a.ratio + f.ratio * b.ratio;
    assert f.Mul(a.ratio).Add(f.Mul(b.ratio)) == Seconds(f.ratio * a.ratio + f.ratio * b.ratio);
  }

  /** One whole note at sixty quarter notes per minute lasts exactly four seconds. */
  lemma WholeNoteAtQuarterSixty()
    ensures WholeNotes(1.0).ToSeconds((NoteDuration(Quarter, false), 60)) == Seconds(4.0)
  {
    assert ToDuration(NoteDuration(Quarter, false)).ratio == 1.0 / 4.0;
  }

  /** A mutable whole-notes place: the receiver of `+=` and `-=`. */
  class MutWholeNotes {
    var ratio: real

    function Value(): WholeNotes
      reads this
    {
      WholeNotes(ratio)
    }

    constructor (w: WholeNotes)
      ensures Value() == w
    {
      ratio := w.ratio;
    }

    method AddAssign(rhs: WholeNotes)
      modifies this
      ensures Value() == old(Value()).Add(rhs)
    {
      ratio := ratio + rhs.ratio;
    }

    method SubAssign(rhs: WholeNotes)
      modifies this
      ensures Value() == old(Value()).Sub(rhs)
    {
      ratio := ratio - rhs.ratio;
    }
  }

  /** A mutable seconds place: the receiver of `+=`, `-=`, `*=` and `/=`. */
  class MutSeconds {
    var ratio: real

    function Value(): Seconds
      reads this
    {
      Seconds(ratio)
    }

    constructor (s: Seconds)
      ensures Value() == s
    {
      ratio := s.ratio;
    }

    method AddAssign(rhs: Seconds)
      modifies this
      ensures Value() == old(Value()).Add(rhs)
    {
      ratio := ratio + rhs.ratio;
    }

    method SubAssign(rhs: Seconds)
      modifies this
      ensures Value() == old(Value()).Sub(rhs)
    {
      ratio := ratio - rhs.ratio;
    }

    method MulAssign(rhs: real)
      modifies this
      ensures Value() == old(Value()).Mul(rhs)
    {
      ratio := ratio * rhs;
    }

    method DivAssign(rhs: real)
      requires rhs != 0.0
      modifies this
      ensures Value() == old(Value()).Div(rhs)
    {
      ratio := ratio / rhs;
    }
  }
}
