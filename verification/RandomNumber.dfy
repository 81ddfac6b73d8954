/** The random chooser's answer to a number request, in 64-bit two's-complement arithmetic. */
module RandomNumber {
  import opened Integers
  import opened Options

  /** Conversions and wrapping arithmetic keep a number modulo 2^64. */
  function ToUint64(x: int): uint64 {
    x % TWO_64
  }

  function ToInt64(x: int): int64 {
    var low := x % TWO_64;
    if low < TWO_63 then low else low - TWO_64
  }

  datatype NumberRange = NumberRange(minimum: int64, maximum: Option<int64>)

  datatype Request = Request(range: Option<NumberRange>, options: nat, defaultSelection: seq<int64>)

  /** uint64(max) - uint64(min). */
  function Span(minimum: int64, maximum: int64): uint64 {
    ToUint64(ToUint64(maximum) - ToUint64(minimum))
  }

  /** minimum + int(offset). */
  function Shifted(minimum: int64, offset: uint64): int64 {
    ToInt64(minimum + ToInt64(offset))
  }

  /**
   * randomNumber: uint64 draws from all 64-bit values, uint64N below its argument. The answer is empty exactly for a
   * malformed request, and otherwise one number of the range, however wide it is.
   */
  method Answer(request: Request, uint64Draw: uint64, uint64NDraw: uint64 -> uint64) returns (answer: seq<int64>)
    requires forall n: uint64 | n > 0 :: uint64NDraw(n) < n
    ensures answer == [] <==>
              || request.range.None? || request.options != 0
              || (request.range.value.maximum.Some? && request.range.value.maximum.value < request.range.value.minimum)
    ensures |answer| <= 1
    ensures answer != [] ==> InRange(request.range.value, answer[0])
    ensures answer != [] && request.range.value.maximum.None? ==>
              answer[0] == if |request.defaultSelection| == 1 && request.defaultSelection[0] >= request.range.value.minimum
                           then request.defaultSelection[0] else request.range.value.minimum
    ensures answer != [] && request.range.value.maximum.Some? ==>
              var minimum, span := request.range.value.minimum, request.range.value.maximum.value - request.range.value.minimum;
              answer[0] == minimum + (if span == MAX_UINT64 then uint64Draw else uint64NDraw(span + 1))
  {
    hide ToUint64, ToInt64, Span, Shifted;
    if request.range.None? || request.options != 0 {
      return [];
    }
    var domain := request.range.value;
    if domain.maximum.None? {
      if |request.defaultSelection| == 1 && request.defaultSelection[0] >= domain.minimum {
        return [request.defaultSelection[0]];
      }
      return [domain.minimum];
    }
    if domain.maximum.value < domain.minimum {
      return [];
    }
    var span := Span(domain.minimum, domain.maximum.value);
    SpanIsExact(domain.minimum, domain.maximum.value);
    var offset;
    if span == MAX_UINT64 {
      offset := uint64Draw;
    } else {
      Uint64Keeps(span + 1);
      offset := uint64NDraw(ToUint64(span + 1));
    }
    ShiftIsExact(domain.minimum, domain.maximum.value, offset);
    return [Shifted(domain.minimum, offset)];
  }

  predicate InRange(range: NumberRange, x: int64) {
    range.minimum <= x && (range.maximum.Some? ==> x <= range.maximum.value)
  }

  lemma Uint64Keeps(x: uint64)
    ensures ToUint64(x) == x
  {
  }

  /** The wrapped difference is the true one, even when it exceeds every int64. */
  lemma SpanIsExact(minimum: int64, maximum: int64)
    requires minimum <= maximum
    ensures Span(minimum, maximum) == maximum - minimum
  {
  }

  /** The wrapped sum is the true one whenever the offset stays within the span. */
  lemma ShiftIsExact(minimum: int64, maximum: int64, offset: uint64)
    requires minimum <= maximum && offset <= Span(minimum, maximum)
    ensures Shifted(minimum, offset) == minimum + offset
    ensures minimum <= Shifted(minimum, offset) <= maximum
  {
    hide Span, ToInt64;
    SpanIsExact(minimum, maximum);
    Int64Wraps(offset);
    Int64Wraps(minimum + ToInt64(offset));
  }

  /** The conversion changes a number by a multiple of 2^64 into the range of an int64. */
  lemma Int64Wraps(x: int)
    requires -TWO_64 <= x < TWO_64
    ensures ToInt64(x) == if x < -TWO_63 then x + TWO_64 else if x < TWO_63 then x else x - TWO_64
  {
  }

  /** Offsets and answers correspond one to one: each number of the range comes from exactly one offset. */
  lemma OffsetsAreAnswers(minimum: int64, maximum: int64, x: int64)
    requires minimum <= x <= maximum
    ensures exists offset: uint64 :: offset <= Span(minimum, maximum) && Shifted(minimum, offset) == x
    ensures forall a: uint64, b: uint64 | a <= Span(minimum, maximum) && b <= Span(minimum, maximum)
                                          && Shifted(minimum, a) == x && Shifted(minimum, b) == x :: a == b
  {
    SpanIsExact(minimum, maximum);
    var offset: uint64 := x - minimum;
    ShiftIsExact(minimum, maximum, offset);
    forall a: uint64, b: uint64 | a <= Span(minimum, maximum) && b <= Span(minimum, maximum)
                                  && Shifted(minimum, a) == x && Shifted(minimum, b) == x
      ensures a == b
    {
      ShiftIsExact(minimum, maximum, a);
      ShiftIsExact(minimum, maximum, b);
    }
  }

  /** The full range of all 64-bit integers is the one range whose span the bounded draw cannot express. */
  lemma OnlyTheFullRangeNeedsAllDraws(minimum: int64, maximum: int64)
    requires minimum <= maximum
    ensures Span(minimum, maximum) == MAX_UINT64 <==> minimum == -TWO_63 && maximum == TWO_63 - 1
  {
    SpanIsExact(minimum, maximum);
  }
}
