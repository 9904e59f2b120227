/**
 * Written note values: a power-of-two fraction of a whole note, optionally
 * dotted (src/rhythm.rs, `NoteDuration` and `NoteDurationKind`).
 */
module NoteValues {
  import opened Wrappers
  import Time

  /** The range of a Rust `u32`. */
  type U32 = n: nat | n < 0x1_0000_0000

  datatype NoteDurationKind =
    | Whole | Half | Quarter | Eighth | Sixteenth
    | Nd32 | Nd64 | Nd128 | Nd256 | Nd512 | Nd1024

  datatype NoteDuration = NoteDuration(kind: NoteDurationKind, dotted: bool)

  /** The kinds in declaration order, longest first. */
  const KINDS: seq<NoteDurationKind> :=
    [Whole, Half, Quarter, Eighth, Sixteenth, Nd32, Nd64, Nd128, Nd256, Nd512, Nd1024]

  function Pow2(k: nat): (p: nat)
    ensures p >= 1
  {
    if k == 0 then 1 else 2 * Pow2(k - 1)
  }

  /** The denominator 2^k of a kind, k being its position in declaration order. */
  function Denominator(k: NoteDurationKind): nat {
    match k
    case Whole => 1
    case Half => 2
    case Quarter => 4
    case Eighth => 8
    case Sixteenth => 16
    case Nd32 => 32
    case Nd64 => 64
    case Nd128 => 128
    case Nd256 => 256
    case Nd512 => 512
    case Nd1024 => 1024
  }

  /** The kind's fraction of a whole note. */
  function ToRatio(k: NoteDurationKind): (r: Time.URatio)
    ensures 0.0 < r <= 1.0
  {
    match k
    case Whole => 1.0
    case Half => 1.0 / 2.0
    case Quarter => 1.0 / 4.0
    case Eighth => 1.0 / 8.0
    case Sixteenth => 1.0 / 16.0
    case Nd32 => 1.0 / 32.0
    case Nd64 => 1.0 / 64.0
    case Nd128 => 1.0 / 128.0
    case Nd256 => 1.0 / 256.0
    case Nd512 => 1.0 / 512.0
    case Nd1024 => 1.0 / 1024.0
  }

  /** The fraction is exactly one over the kind's denominator. */
  lemma ToRatioInverse(k: NoteDurationKind)
    ensures ToRatio(k) * (Denominator(k) as real) == 1.0
  {
  }

  /** The kind whose denominator is `number`, if `number` is one of 1, 2, 4, ..., 1024. */
  function FromNumber(number: U32): (r: Option<NoteDurationKind>)
    ensures r.Some? ==> Denominator(r.value) == number
  {
    match number
    case 1 => Some(Whole)
    case 2 => Some(Half)
    case 4 => Some(Quarter)
    case 8 => Some(Eighth)
    case 16 => Some(Sixteenth)
    case 32 => Some(Nd32)
    case 64 => Some(Nd64)
    case 128 => Some(Nd128)
    case 256 => Some(Nd256)
    case 512 => Some(Nd512)
    case 1024 => Some(Nd1024)
    case _ => None
  }

  /** The dotting factor: 3/2 when dotted, 1 otherwise. */
  function DotFactor(dotted: bool): Time.URatio {
    if dotted then 3.0 / 2.0 else 1.0
  }

  /** The realised duration of a written note value. */
  function ToDuration(n: NoteDuration): (d: Time.Duration)
    ensures 0.0 < d.ratio <= 3.0 / 2.0
  {
    Time.WHOLE_NOTE.Mul(ToRatio(n.kind)).Mul(DotFactor(n.dotted))
  }

  /** In declaration order the kinds are 1, 1/2, ..., 1/1024: each step halves, so the map is strictly decreasing. */
  lemma ToRatioHalvingChain()
    ensures |KINDS| == 11 && ToRatio(KINDS[0]) == 1.0
    ensures forall i :: 0 <= i < |KINDS| ==> ToRatio(KINDS[i]) * (Pow2(i) as real) == 1.0
    ensures forall i :: 0 <= i < |KINDS| - 1 ==> ToRatio(KINDS[i + 1]) * 2.0 == ToRatio(KINDS[i])
  {
    assert Pow2(0) == 1 && Pow2(1) == 2 && Pow2(2) == 4 && Pow2(3) == 8 && Pow2(4) == 16;
    assert Pow2(5) == 32 && Pow2(6) == 64 && Pow2(7) == 128 && Pow2(8) == 256;
    assert Pow2(9) == 512 && Pow2(10) == 1024;
  }

  /** A consequence of the halving chain: earlier kinds are strictly longer. */
  lemma {:induction false} ToRatioStrictlyDecreasing(i: nat, j: nat)
    requires i < j < |KINDS|
    ensures ToRatio(KINDS[j]) < ToRatio(KINDS[i])
    decreases j - i
  {
    ToRatioHalvingChain();
    if i + 1 < j {
      ToRatioStrictlyDecreasing(i + 1, j);
    }
  }

  /** `to_duration` is the kind's fraction, times 3/2 exactly when dotted. */
  lemma ToDurationScalesKind(n: NoteDuration)
    ensures !n.dotted ==> ToDuration(n).ratio == ToRatio(n.kind)
    ensures n.dotted ==> ToDuration(n).ratio * 2.0 == ToRatio(n.kind) * 3.0
    ensures ToDuration(NoteDuration(Quarter, true)).ratio == 3.0 / 8.0
    ensures ToDuration(NoteDuration(n.kind, true)).ratio * 2.0 == ToDuration(NoteDuration(n.kind, false)).ratio * 3.0
  {
  }

  /** `from_number` accepts exactly the eleven powers of two 1, ..., 1024. */
  lemma FromNumberAcceptsPowersOfTwo(number: U32)
    ensures FromNumber(number).Some? <==> exists k :: 0 <= k <= 10 && number == Pow2(k)
  {
    assert Pow2(0) == 1 && Pow2(1) == 2 && Pow2(2) == 4 && Pow2(3) == 8 && Pow2(4) == 16;
    assert Pow2(5) == 32 && Pow2(6) == 64 && Pow2(7) == 128 && Pow2(8) == 256;
    assert Pow2(9) == 512 && Pow2(10) == 1024;
    if FromNumber(number).Some? {
      var k := match number
        case 1 => 0 case 2 => 1 case 4 => 2 case 8 => 3 case 16 => 4 case 32 => 5
        case 64 => 6 case 128 => 7 case 256 => 8 case 512 => 9 case _ => 10;
      assert number == Pow2(k);
    }
  }

  /** Round trip: a number accepted by `from_number` is the reciprocal of the kind's ratio, and every kind is reached from its denominator. */
  lemma FromNumberRoundTrip(number: U32, k: NoteDurationKind)
    ensures FromNumber(number) == Some(k) ==> ToRatio(k) == 1.0 / (number as real)
    ensures FromNumber(Denominator(k)) == Some(k)
  {
  }
}
