# Polyrhythm timing core, in Dafny

This project models the exact-rational timing core of a polyrhythm
visualiser written in Rust. A rhythm is a sequence of segments: notes,
tied notes, rests and tuplets. Each note value is a power-of-two
fraction of a whole note, optionally dotted. A tuplet packs `actual`
notes into the space of `normal`. Its constructor `new_tuplet` only
accepts an inner rhythm that lasts `note_duration × actual`.

From a rhythm the program computes three flattenings:

- timed start/stop events, which `score_error` uses to compare an
  approximation with the original (`src/polyrhythm.rs`);
- timed notes for the renderer (`src/drawing.rs`);
- the list of written lengths, from which the page layout picks the
  shortest note and the longest rhythm (`src/drawing/layout.rs`).

The arithmetic sits in unit wrappers around `Ratio`: `Duration`,
`Seconds`, `WholeNotes`, and a tempo conversion to seconds.

Modules:

- `Time` (`time.dfy`). The `Duration` and `Seconds` wrappers of
  `src/time.rs`. The earlier `src/rhythm/duration.rs` does the same
  arithmetic, so `Time` models that file too.
- `NoteValues` (`note_values.dfy`). Note values and `from_number`.
- `Tempo` (`tempo.dfy`). `Duration::to_seconds`.
- `Units` (`units.dfy`). `WholeNotes` and `Seconds` over signed rationals.
- `Rhythms` (`rhythms.dfy`). The rhythm tree, `new_tuplet` and durations.
- `Polyrhythm` (`polyrhythm.dfy`). Events, `flatten_rhythm` and `score_error`.
- `Drawing` (`drawing.dfy`). The renderer's `flatten_rhythm`.
- `Layout` (`layout.dfy`). `flatten_rhythm_to_durations` and the
  shortest/longest selection.
- `Wrappers` (`wrappers.dfy`). `Option` and `Result`.

How the source maps to Dafny:

- `Ratio<u32>` becomes a non-negative `real` (`Time.URatio`). `Ratio<i32>`
  becomes `real`. Both are exact, as `Ratio` is.
- Each flattening is a loop over the segments that pushes onto a vector
  and recurses into tuplets. The event and note flattenings also advance a
  running `current_time`; `flatten_rhythm_to_durations` keeps no running
  time and only pushes lengths. Each becomes a `method` with a `for` loop,
  proved equal to a specification function defined segment by segment
  (`Flatten`, `Notes`, `Entries`). The lemmas state the properties of
  those functions.
- The `*Assign` operators change `self.0` in place. They become small
  classes whose methods state the new value.

Points where the code behaves in ways a reader might not expect, and
which the model follows:

- `score_error` (src/polyrhythm.rs:15-20) takes no tempo and applies no
  penalty terms. It sums `abs(o.time − a.time)` over index-paired events
  and nothing else.
- A 3:2 eighth-note triplet places its notes at 0, 1/12 and 1/6 of a
  whole note (src/polyrhythm.rs:52): the inner times 0, 1/8 and 1/4 are
  scaled by `normal / actual` = 2/3. See `Polyrhythm.EighthTripletTimes`.
- The renderer's `flatten_rhythm` has no `TiedNote` arm. Its model
  requires a rhythm without ties (`Drawing.Drawable`).
- `Ratio::new(normal, actual)` panics when `actual` is zero. The source
  builds it once per inner event, so it panics only when such a tuplet
  has something inside it. The flattenings require exactly that
  (`Polyrhythm.Flattenable`, `Layout.Scalable`), not `actual > 0`.

## Model

| member | source | states |
|---|---|---|
| `Time.NoteConstantsHalve` | src/time.rs:21-29 | The note constants run from one whole note down to 1/128, each half the one before. |
| `Time.AddMonoid` | src/rhythm/duration.rs:13-19 | ZERO is a two-sided identity of `+`, and `+` is commutative and associative. |
| `Time.SubUndoesAdd` | src/rhythm/duration.rs:13-26 | `(a + b) - b == a`, and `(a - b) + b == a` when the unsigned subtraction is defined. |
| `Time.DivUndoesMul` | src/rhythm/duration.rs:27-40 | For a nonzero ratio `r`, `(d * r) / r == d` and `(d / r) * r == d`. |
| `Time.MulDistributes` | src/time.rs:43-63 | `mul` distributes over `add`: `(a + b) * r == a * r + b * r`. |
| `Time.Sum` | src/time.rs:71-75 | The fold from ZERO gives ZERO for no durations and `d` for `[d]`. |
| `Time.SumAppend` | src/rhythm/duration.rs:41-45 | The sum of a concatenation is the sum of the two sums. |
| `Time.SumMul` | src/time.rs:57-75 | Scaling every summand by `r` scales the sum by `r`. |
| `Time.SumBoundsSummand` | src/time.rs:71-75 | A sum of durations is at least each of its summands. |
| `Time.Duration.ToRatio` | src/time.rs:31-33 | `to_ratio` returns exactly the wrapped ratio: wrapping it again gives the same duration. |
| `Time.Duration.Add` | src/time.rs:43-49 | The sum of two durations is at least each of them, and adding zero keeps the value. |
| `Time.Duration.Sub` | src/time.rs:50-56 | For a subtrahend that does not exceed the value, the difference is at most the value and adding the subtrahend back restores it. |
| `Time.Duration.Div` | src/time.rs:64-70 | For a nonzero ratio, multiplying the quotient back by the ratio restores the value. |
| `Time.Seconds.Add` | src/time.rs:150-156 | The sum of two non-negative second counts is at least each of them, and adding zero keeps the value. |
| `Time.Seconds.Sub` | src/time.rs:157-163 | For a subtrahend that does not exceed the value, adding it back to the difference restores the value. |
| `Time.SecondsSubUndoesAdd` | src/time.rs:150-163 | Seconds: `(a + b) - b == a`, and addition commutes. |
| `Time.MutDuration.AddAssign` | src/time.rs:82-86 | After `+=` the place holds its old value plus `rhs`. |
| `Time.MutDuration.SubAssign` | src/time.rs:87-91 | After `-=` the place holds its old value minus `rhs`, for a subtrahend that does not exceed it. |
| `NoteValues.ToRatio` | src/rhythm.rs:31-45 | Every kind is a fraction in (0, 1] of a whole note. |
| `NoteValues.ToRatioInverse` | src/rhythm.rs:31-45 | A kind's fraction times its denominator is exactly 1. |
| `NoteValues.ToRatioHalvingChain` | src/rhythm.rs:31-45 | In declaration order the eleven kinds are 1/2^i: whole first, each step halving. |
| `NoteValues.ToRatioStrictlyDecreasing` | src/rhythm.rs:31-45 | A kind declared earlier is strictly longer than any declared after it. |
| `NoteValues.FromNumber` | src/rhythm.rs:47-62 | A kind returned by `from_number(n)` has denominator `n`. |
| `NoteValues.FromNumberAcceptsPowersOfTwo` | src/rhythm.rs:47-62 | `from_number(n)` is `Some` exactly when `n` is one of 2^0 … 2^10, and `None` for every other u32. |
| `NoteValues.FromNumberRoundTrip` | src/rhythm.rs:31-62 | If `from_number(n) == Some(k)` then `to_ratio(k) == 1/n`, and each kind is returned for its own denominator. |
| `NoteValues.ToDuration` | src/rhythm.rs:26-28 | A written value lasts more than zero and at most 3/2 of a whole note. |
| `NoteValues.ToDurationScalesKind` | src/rhythm.rs:26-28 | `to_duration` is the kind's fraction, times 3/2 exactly when dotted; a dotted quarter is 3/8. |
| `Tempo.SecondsPerWholeNote` | src/time.rs:36-38 | At a nonzero beats-per-minute count, a whole note lasts a positive number of seconds. |
| `Tempo.DurationToSeconds` | src/time.rs:35-40 | `to_seconds(d, (beat, bpm)) × beat × bpm == d × 60`, i.e. the result is `d × 60 / (beat × bpm)` seconds. |
| `Tempo.ToSecondsAdditive` | src/time.rs:35-40 | Converting a sum gives the sum of the conversions. |
| `Tempo.WholeNoteAtQuarterSixty` | src/time.rs:35-40 | A whole note at sixty quarter notes per minute lasts exactly 4 seconds. |
| `Tempo.ToSecondsMonotone` | src/time.rs:35-40 | A longer duration converts to at least as many seconds. |
| `Units.WholeNotes.ToSeconds` | src/units.rs:18-23 | `WholeNotes::to_seconds(tempo) × beat × bpm == self × 60`, i.e. `self × 60 / (beat × bpm)`, for a bpm that is nonzero and fits an i32. |
| `Units.SecondsPerWholeNote` | src/units.rs:19-21 | The three steps of the conversion give a positive number of seconds per whole note whose product with the whole notes per minute is 60. |
| `Units.ToSecondsAdditive` | src/units.rs:18-23 | The whole-notes conversion is additive. |
| `Units.WholeNoteAtQuarterSixty` | src/units.rs:18-23 | One whole note at sixty quarter notes per minute is 4 seconds. |
| `Units.Seconds.Abs` | src/units.rs:87-91 | `abs` is non-negative, is `x` for `x ≥ 0`, and is `-x` otherwise. |
| `Units.WholeNotes.IsZero` | src/units.rs:25-36 | `is_zero` holds exactly when the ratio is zero. |
| `Units.Seconds.IsZero` | src/units.rs:92-103 | `is_zero` holds exactly when the ratio is zero. |
| `Units.WholeNotes.Add` | src/units.rs:37-43 | Adding zero keeps the value, and the value drops exactly when a negative quantity is added. |
| `Units.WholeNotes.Sub` | src/units.rs:44-50 | Adding the subtrahend back to the difference restores the value. |
| `Units.WholeNotes.Mul` | src/units.rs:51-57 | Multiplying by one keeps the value. |
| `Units.Seconds.Add` | src/units.rs:104-110 | Adding zero keeps the value, and the value drops exactly when a negative quantity is added. |
| `Units.Seconds.Sub` | src/units.rs:111-117 | Adding the subtrahend back to the difference restores the value. |
| `Units.Seconds.Mul` | src/units.rs:118-124 | Multiplying by one keeps the value. |
| `Units.SumWholeNotes` | src/units.rs:65-69 | The whole-notes fold gives ZERO for no values and `x` for `[x]`. |
| `Units.SumSeconds` | src/units.rs:132-136 | The seconds fold gives ZERO for no values and `x` for `[x]`. |
| `Units.WholeNotesAddSubMulDiv` | src/units.rs:37-64 | For whole notes: ZERO is an identity, `-` undoes `+`, and `/ r` undoes `* r` for `r ≠ 0`. |
| `Units.SecondsAddSubMulDiv` | src/units.rs:104-131 | For seconds: ZERO is an identity, `-` undoes `+`, and `/ r` undoes `* r` for `r ≠ 0`. |
| `Units.AbsOfDifferenceSymmetric` | src/units.rs:87-117 | `abs(a - b) == abs(b - a)`, and it is zero exactly when `a == b`. |
| `Units.SumWholeNotesAppend` | src/units.rs:65-69 | The whole-notes fold from ZERO: the empty sum is ZERO, and concatenations add. |
| `Units.SumSecondsAppend` | src/units.rs:132-136 | The seconds fold from ZERO: the empty sum is ZERO, and concatenations add. |
| `Units.MutWholeNotes.AddAssign` | src/units.rs:76-80 | `+=` leaves the old value plus `rhs`. |
| `Units.MutWholeNotes.SubAssign` | src/units.rs:81-85 | `-=` leaves the old value minus `rhs`. |
| `Units.MutSeconds.AddAssign` | src/units.rs:143-147 | `+=` leaves the old value plus `rhs`. |
| `Units.MutSeconds.SubAssign` | src/units.rs:148-152 | `-=` leaves the old value minus `rhs`. |
| `Units.MutSeconds.MulAssign` | src/units.rs:153-157 | `*=` leaves the old value times `rhs`. |
| `Units.MutSeconds.DivAssign` | src/units.rs:158-162 | `/=` by a nonzero ratio leaves the old value divided by `rhs`. |
| `Rhythms.NewTuplet` | src/rhythm.rs:95-103 | `Ok` exactly when the inner rhythm lasts `note_duration × actual`, and the fields are stored unchanged. Otherwise the error carries the inner duration and the expected one. |
| `Rhythms.NewTupletBuildsValid` | src/rhythm.rs:95-99 | A tuplet segment satisfies the construction invariant exactly when `new_tuplet` would build it. |
| `Rhythms.ValidSnoc` | src/rhythm.rs:65-87 | A rhythm extended by one segment satisfies the invariant exactly when both parts do. |
| `Rhythms.RhythmSegment.Duration` | src/rhythm.rs:105-112 | A note or a rest always lasts a positive time. |
| `Rhythms.Rhythm.Duration` | src/rhythm.rs:116-118 | The empty rhythm lasts zero, and a one-segment rhythm lasts as long as its segment. |
| `Rhythms.SegmentDurationCases` | src/rhythm.rs:105-112 | Notes and rests last their written value. A tie lasts the sum of its written values, hence at least each one, and a one-value tie lasts as long as that value. A tuplet lasts `note_duration × normal`, whatever its `actual` and contents. |
| `Rhythms.SegmentsDurationSnoc` | src/rhythm.rs:116-118 | One more segment adds its duration to the rhythm's. |
| `Rhythms.DurationAppend` | src/rhythm.rs:116-118 | The empty rhythm lasts zero, and concatenating segment lists adds their durations. |
| `Rhythms.TupletLengthRescaled` | src/rhythm.rs:95-112 | For a tuplet that satisfies the `new_tuplet` invariant and has positive `actual`, the inner duration times `normal / actual` is the tuplet's duration. |
| `Polyrhythm.StartOfIsPrefixDuration` | src/polyrhythm.rs:32-54 | The running `current_time` before segment `n` is the duration of the first `n` segments. |
| `Polyrhythm.Place` | src/polyrhythm.rs:51-53 | Placing tuplet events keeps their number and their kinds. |
| `Polyrhythm.FlattenPrefix` | src/polyrhythm.rs:36-57 | The first `n` segments give one event per note, tie and rest, plus each tuplet's inner count. |
| `Polyrhythm.PushPlaced` | src/polyrhythm.rs:51-53 | The inner loop appends the inner events, each rescaled by `normal / actual` and moved to the tuplet's start. |
| `Polyrhythm.FlattenRhythm` | src/polyrhythm.rs:31-60 | `flatten_rhythm` returns exactly the specified event sequence `Flatten(r)`. |
| `Polyrhythm.FlattenPrefixExtends` | src/polyrhythm.rs:36-57 | Flattening more segments only appends events. |
| `Polyrhythm.TopLevelEvent` | src/polyrhythm.rs:38-49 | A note or tie gives one `Start`, and a rest one `Stop`, at the total duration of the segments before it (0 for the first). |
| `Polyrhythm.SegmentEventAt` | src/polyrhythm.rs:36-57 | Event `k` of segment `i` sits at position `CountPrefix(r, i) + k` of the whole flattening. |
| `Polyrhythm.TupletEvents` | src/polyrhythm.rs:50-55 | A tuplet contributes exactly its inner events, in order and with their kinds. An inner time `t` lands at `t × normal/actual + start`. |
| `Polyrhythm.EighthTripletTimes` | src/polyrhythm.rs:50-53 | Three eighths in a 3:2 eighth tuplet pass `new_tuplet` and flatten to starts at 0, 1/12 and 1/6. |
| `Polyrhythm.SegmentEventsOrdered` | src/polyrhythm.rs:36-57 | In a well-formed rhythm, a segment's events are in order and lie from its start to before its end. |
| `Polyrhythm.FlattenPrefixOrdered` | src/polyrhythm.rs:36-57 | For a well-formed rhythm (as for `FlattenOrdered`), the events of the first `n` segments are in order and lie before the start of segment `n`. |
| `Polyrhythm.FlattenOrdered` | src/polyrhythm.rs:31-60 | For well-formed rhythms (every tuplet satisfies the `new_tuplet` invariant and has positive `normal` and `actual`; every tied group is non-empty), event times are non-decreasing and lie in `[0, r.duration())`. |
| `Polyrhythm.AbsDiff` | src/polyrhythm.rs:19 | The absolute difference is non-negative and zero exactly for equal times. |
| `Polyrhythm.PairwiseError` | src/polyrhythm.rs:19 | The summed pairwise error is non-negative. |
| `Polyrhythm.ScoreError` | src/polyrhythm.rs:15-20 | `score_error` over exact rationals is non-negative. |
| `Polyrhythm.PairwiseErrorZeroIff` | src/polyrhythm.rs:15-20 | The error is zero exactly when every pair of events, up to the shorter length, has equal times. |
| `Polyrhythm.PairwiseErrorSymmetric` | src/polyrhythm.rs:19 | Swapping original and approximation does not change the pairwise error. |
| `Polyrhythm.PairwiseErrorTimesOnly` | src/polyrhythm.rs:19 | Only the times of the paired events matter; kinds are ignored. |
| `Polyrhythm.PairwiseErrorIgnoresSurplus` | src/polyrhythm.rs:19 | Events beyond the shorter sequence do not change the error (`zip` truncates). |
| `Polyrhythm.ScoreErrorSelf` | src/polyrhythm.rs:15-20 | `score_error(r, r) == 0`, both with the absolute difference and as the source computes it. |
| `Polyrhythm.ScoreErrorSymmetric` | src/polyrhythm.rs:15-20 | `score_error(a, b) == score_error(b, a)`. |
| `Polyrhythm.AsWrittenAgrees` | src/polyrhythm.rs:19 | The unsigned subtraction succeeds exactly when no approximate event is later than its original. It then equals the absolute-difference error. |
| `Polyrhythm.PairwiseErrorAsWritten` | src/polyrhythm.rs:19 | The source's per-pair unsigned subtraction: any value it returns is non-negative, and it fails only when some approximate event is later than its original. |
| `Polyrhythm.ScoreErrorAsWritten` | src/polyrhythm.rs:15-20 | `score_error` as written: whenever its subtractions do not underflow, it equals the absolute-difference error. |
| `Polyrhythm.LateApproximationUnderflows` | src/polyrhythm.rs:15-20 | Two quarters against a half then a quarter: the source's subtraction fails on the second pair, while the error is 1/4. |
| `Drawing.PlaceNotes` | src/drawing.rs:168-172 | Placing tuplet notes keeps their number, rest flags and written values. |
| `Drawing.NotesPrefix` | src/drawing.rs:157-176 | The first `n` segments give one note per note and rest, plus each tuplet's inner count. |
| `Drawing.PushPlacedNotes` | src/drawing.rs:168-172 | The inner loop appends the inner notes, each scaled by `normal / actual`, then shifted to the tuplet's start. |
| `Drawing.FlattenRhythm` | src/drawing.rs:152-179 | The renderer's `flatten_rhythm` returns exactly the specified note sequence `Notes(r)`. |
| `Drawing.NotesPrefixExtends` | src/drawing.rs:157-176 | Flattening more segments only appends notes. |
| `Drawing.TopLevelNote` | src/drawing.rs:159-166 | A note or rest is drawn once, at the total duration of the segments before it, with `is_rest` exactly for a rest and its written value. |
| `Drawing.TupletNotes` | src/drawing.rs:167-174 | A tuplet contributes its inner notes, in order, with rest flags and written values unchanged. An inner time `t` lands at `t × normal/actual + start`. |
| `Drawing.NotesAgree` | src/drawing.rs:152-179 | On tie-free rhythms, the drawn notes map one to one onto the events of `src/polyrhythm.rs`: same times, and a rest exactly where there is a `Stop`. |
| `Drawing.NotesOrdered` | src/drawing.rs:152-179 | For tie-free well-formed rhythms (as for `Polyrhythm.FlattenOrdered`), drawn times are non-decreasing and lie within the rhythm's length. |
| `Layout.EntriesPrefix` | src/drawing/layout.rs:34-53 | The first `n` segments give one length per note, rest and tied value, plus each tuplet's inner count. |
| `Layout.FlattenRhythmToDurations` | src/drawing/layout.rs:31-56 | `flatten_rhythm_to_durations` returns exactly the specified lengths `Entries(r)`. |
| `Layout.NoteOrRestEntry` | src/drawing/layout.rs:36-46 | A note or rest yields one length, its written `to_duration`. |
| `Layout.TiedNoteEntries` | src/drawing/layout.rs:39-43 | A tied group yields one length per written value, in order. |
| `Layout.TupletEntries` | src/drawing/layout.rs:47-50 | A tuplet yields its inner lengths, in order, each multiplied by `normal / actual`. |
| `Layout.ScaleAllSum` | src/drawing/layout.rs:47-50 | The rescaled lengths sum to the inner sum times `normal / actual`. |
| `Layout.EntriesSum` | src/drawing/layout.rs:31-56 | For rhythms whose every tuplet satisfies the `new_tuplet` invariant and has positive `actual`, the lengths sum to `r.duration()`. |
| `Layout.AllRhythmsMembers` | src/drawing/layout.rs:28 | The page's rhythms are exactly the pulse, the originals and their approximations. |
| `Layout.AllEntriesMembers` | src/drawing/layout.rs:57 | A length is on the page exactly when some rhythm yields it. |
| `Layout.Minimum` | src/drawing/layout.rs:58 | `min` returns an element that is at most every element. |
| `Layout.Maximum` | src/drawing/layout.rs:63 | `max` returns an element that is at least every element. |
| `Layout.ShortestDuration` | src/drawing/layout.rs:57-58 | The shortest duration is a length on the page that no other length undercuts, or WHOLE_NOTE when there are none. |
| `Layout.LongestRhythm` | src/drawing/layout.rs:63 | The longest rhythm is some rhythm's duration that no other exceeds, or WHOLE_NOTE when there are none. |
| `Layout.ShortestFitsLongest` | src/drawing/layout.rs:57-63 | When every rhythm is measured (every tuplet satisfies the `new_tuplet` invariant and has positive `actual`) and the page has at least one note, the shortest length is at most the longest rhythm's duration. |
| `Layout.PageShortestFitsLongest` | src/drawing/layout.rs:28-63 | Applied, as the layout does, to every rhythm of a `Polyrhythm` (pulse, originals, approximations): when they are all measured and there is a note, the shortest length is at most the longest rhythm's duration. |

## Left out

- `Display` and `ToPrimitive` implementations, and the `to_f64` conversion in `score_error`. These are formatting and floating point. The score is modelled as an exact rational.
- The floating-point part of the layout: pixel widths, canvas size and `time_to_x`. Also the whole canvas and glyph renderer, `Pixels` and `Point`. These are browser I/O and f64 geometry.
- `u32`/`i32` overflow inside `Ratio`. Numerators and denominators are unbounded here. The one unsigned underflow that matters, in `score_error`, is modelled (see Findings).
- Layout.TupletEntries: uses the `u32` factor `normal / actual`. The source casts both counts to `i32`, so counts of 2^31 or more would wrap to negative values.
- `DoNotConstruct`, the privacy marker that forces tuplets through `new_tuplet`. The predicate `Rhythms.Valid` records its effect instead.
- Polyrhythm.FlattenOrdered: also assumes `normal > 0`, `actual > 0` and no empty tied groups (`Polyrhythm.WellFormed`). A zero-length segment would start its successor at the same time, not strictly later, so the half-open bound `[0, r.duration())` needs them; sortedness alone would not.
- Drawing.NotesOrdered: assumes `Polyrhythm.WellFormed` too, for the same reason.
- Layout.EntriesSum: assumes `actual > 0` for every tuplet, besides the `new_tuplet` invariant.
- Polyrhythm.FlattenPrefixOrdered: assumes `Polyrhythm.WellFormed`, like `FlattenOrdered`.
- Layout.ShortestFitsLongest: assumes every rhythm is `Layout.Measured`. That is more than the bound needs: a tuplet with `actual == 0` and an empty inner rhythm, which `new_tuplet` accepts, adds no lengths and would not break it.
- Layout.PageShortestFitsLongest: assumes `Layout.Measured` for every rhythm of the page, as `ShortestFitsLongest` does.
- Iterator `min`/`max` and `flat_map` are modelled as recursive functions over sequences. `all_rhythms` is modelled from a `Polyrhythm` value, not from iterator chaining.
- The parser, the wasm entry point and font loading are not part of this model.

## Findings

| source | as written | input that shows it | evidently intended | confidence | as-written member | corrected member |
|---|---|---|---|---|---|---|
| src/polyrhythm.rs:19 | `o_ev.time - a_ev.time` subtracts two `Ratio<u32>` values and only then takes `.abs()`, so the subtraction underflows whenever an approximate event is later than its original | original: two quarter notes, events at 0 and 1/4; approximation: a half note then a quarter note, events at 0 and 1/2. The second pair computes 1/4 − 1/2 | the absolute difference `abs(o − a)`, which is 1/4 here | not executed | `Polyrhythm.ScoreErrorAsWritten` (counterexample in `Polyrhythm.LateApproximationUnderflows`) | `Polyrhythm.ScoreError` |
