/**
 * Durations measured in whole notes, and seconds, each wrapping an exact
 * non-negative rational (`Ratio<u32>` in the source, `URatio` here).
 * The same wrapper appears in src/time.rs and in the earlier
 * src/rhythm/duration.rs; the two agree on every operation modelled here.
 */
module Time {

  /** A non-negative exact rational: the value range of `Ratio<u32>`, without its upper bound. */
  type URatio = x: real | 0.0 <= x

  /** A span of time in whole notes. */
  datatype Duration = Duration(ratio: URatio) {

    /** Both summands are non-negative, so the sum is at least each of them. */
    function Add(rhs: Duration): (r: Duration)
      ensures ratio <= r.ratio && rhs.ratio <= r.ratio
      ensures rhs.ratio == 0.0 ==> r == this
    {
      Duration(ratio + rhs.ratio)
    }

    /** Unsigned subtraction: the source's `u32` arithmetic underflows below zero. */
    function Sub(rhs: Duration): (r: Duration)
      requires rhs.ratio <= ratio
      ensures r.ratio <= ratio
      ensures r.Add(rhs) == this
    {
      Duration(ratio - rhs.ratio)
    }

    function Mul(rhs: URatio): (r: Duration)
    {
      Duration(ratio * rhs)
    }

    /** Division by a zero ratio panics in the source. */
    function Div(rhs: URatio): (r: Duration)
      requires rhs != 0.0
      ensures r.Mul(rhs) == this
    {
      Duration(ratio / rhs)
    }

    /** `to_ratio` hands back exactly the wrapped value. */
    function ToRatio(): (r: URatio)
      ensures Duration(r) == this
    {
      ratio
    }
  }

  const ZERO: Duration := Duration(0.0)
  const WHOLE_NOTE: Duration := Duration(1.0)
  const HALF_NOTE: Duration := Duration(1.0 / 2.0)
  const QUARTER_NOTE: Duration := Duration(1.0 / 4.0)
  const EIGHTH_NOTE: Duration := Duration(1.0 / 8.0)
  const SIXTEENTH_NOTE: Duration := Duration(1.0 / 16.0)
  const THIRTYSECOND_NOTE: Duration := Duration(1.0 / 32.0)
  const SIXTYFOURTH_NOTE: Duration := Duration(1.0 / 64.0)
  const HUNDREDTWENTYEIGHTH_NOTE: Duration := Duration(1.0 / 128.0)

  /** The named note constants, longest first. */
  const NOTE_CONSTANTS: seq<Duration> := [WHOLE_NOTE, HALF_NOTE, QUARTER_NOTE, EIGHTH_NOTE,
    SIXTEENTH_NOTE, THIRTYSECOND_NOTE, SIXTYFOURTH_NOTE, HUNDREDTWENTYEIGHTH_NOTE]

  /** `Sum`: a left fold of `+` starting from ZERO. */
  function Sum(ds: seq<Duration>): (r: Duration)
    ensures ds == [] ==> r == ZERO
    ensures |ds| == 1 ==> r == ds[0]
  {
    if ds == [] then ZERO else Sum(ds[..|ds| - 1]).Add(ds[|ds| - 1])
  }

  /** The constants form a halving chain from one whole note down to 1/128. */
  lemma NoteConstantsHalve()
    ensures |NOTE_CONSTANTS| == 8 && NOTE_CONSTANTS[0] == WHOLE_NOTE
    ensures forall i :: 0 <= i < |NOTE_CONSTANTS| - 1 ==>
      NOTE_CONSTANTS[i + 1].Mul(2.0) == NOTE_CONSTANTS[i]
    ensures NOTE_CONSTANTS[7].ratio * 128.0 == 1.0
  {
  }

  /** ZERO is a two-sided identity of `+`, and addition is a commutative monoid. */
  lemma AddMonoid(a: Duration, b: Duration, c: Duration)
    ensures ZERO.Add(a) == a && a.Add(ZERO) == a
    ensures a.Add(b) == b.Add(a)
    ensures a.Add(b).Add(c) == a.Add(b.Add(c))
  {
  }

  /** Subtraction undoes addition, and adding back undoes subtraction. */
  lemma SubUndoesAdd(a: Duration, b: Duration)
    ensures b.ratio <= a.Add(b).ratio
    ensures a.Add(b).Sub(b) == a
    ensures b.ratio <= a.ratio ==> a.Sub(b).Add(b) == a
  {
  }

  /** Division by a nonzero ratio undoes multiplication, and conversely. */
  lemma DivUndoesMul(d: Duration, r: URatio)
    requires r != 0.0
    ensures d.Mul(r).Div(r) == d
    ensures d.Div(r).Mul(r) == d
  {
  }

  /** Scaling distributes over addition. */
  lemma MulDistributes(a: Duration, b: Duration, r: URatio)
    ensures a.Add(b).Mul(r) == a.Mul(r).Add(b.Mul(r))
  {
  }

  /** Summing a concatenation adds the two sums. */
  lemma {:induction false} SumAppend(a: seq<Duration>, b: seq<Duration>)
    ensures Sum(a + b) == Sum(a).Add(Sum(b))
    decreases |b|
  {
    if b == [] {
      assert a + b == a;
    } else {
      var n := |b| - 1;
      assert (a + b)[..|a + b| - 1] == a + b[..n];
      SumAppend(a, b[..n]);
    }
  }

  /** Scaling every summand scales the sum. */
  lemma {:induction false} SumMul(ds: seq<Duration>, r: URatio)
    ensures Sum(seq(|ds|, i requires 0 <= i < |ds| => ds[i].Mul(r))) == Sum(ds).Mul(r)
    decreases |ds|
  {
    var scaled := seq(|ds|, i requires 0 <= i < |ds| => ds[i].Mul(r));
    if ds != [] {
      var n := |ds| - 1;
      var init := ds[..n];
      assert scaled[..n] == seq(|init|, i requires 0 <= i < |init| => init[i].Mul(r));
      SumMul(init, r);
      MulDistributes(Sum(init), ds[n], r);
    }
  }

  /** A sum of non-negative durations is at least each of its summands. */
  lemma {:induction false} SumBoundsSummand(ds: seq<Duration>, k: nat)
    requires k < |ds|
    ensures ds[k].ratio <= Sum(ds).ratio
    decreases |ds|
  {
    var n := |ds| - 1;
    if k < n {
      SumBoundsSummand(ds[..n], k);
    }
  }

  /** Seconds as `src/time.rs` declares them: a non-negative exact rational. */
  datatype Seconds = Seconds(ratio: URatio) {

    function Add(rhs: Seconds): (r: Seconds)
      ensures ratio <= r.ratio && rhs.ratio <= r.ratio
      ensures rhs.ratio == 0.0 ==> r == this
    {
      Seconds(ratio + rhs.ratio)
    }

    /** Unsigned subtraction, as for durations. */
    function Sub(rhs: Seconds): (r: Seconds)
      requires rhs.ratio <= ratio
      ensures r.ratio <= ratio
      ensures r.Add(rhs) == this
    {
      Seconds(ratio - rhs.ratio)
    }
  }

  /** Subtraction of seconds undoes addition. */
  lemma SecondsSubUndoesAdd(a: Seconds, b: Seconds)
    ensures b.ratio <= a.Add(b).ratio && a.Add(b).Sub(b) == a
    ensures a.Add(b) == b.Add(a)
  {
  }

  /**
   * A mutable `Duration` place, the receiver of `+=` and `-=`
   * (the `&mut self` of `AddAssign` and `SubAssign`).
   */
  class MutDuration {
    var ratio: URatio

    function Value(): Duration
      reads this
    {
      Duration(ratio)
    }

    constructor (d: Duration)
      ensures Value() == d
    {
      ratio := d.ratio;
    }

    method AddAssign(rhs: Duration)
      modifies this
      ensures Value() == old(Value()).Add(rhs)
    {
      ratio := ratio + rhs.ratio;
    }

    method SubAssign(rhs: Duration)
      requires rhs.ratio <= ratio
      modifies this
      ensures Value() == old(Value()).Sub(rhs)
    {
      ratio := ratio - rhs.ratio;
    }
  }
}
