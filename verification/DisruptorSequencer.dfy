// The sequential code of the sequencer: sequence minimum, power-of-two tests,
// the cyclic availability buffer and the scan for the highest published sequence.
module DisruptorSequencer {
  import opened Arith
  import opened DisruptorProtocol
  import opened DisruptorSafety

  method GetMinimumSequence(sequences: seq<int>, initial: int) returns (minimum: int)
    ensures minimum <= initial && forall j :: 0 <= j < |sequences| ==> minimum <= sequences[j]
    ensures minimum == initial || minimum in sequences
  {
    minimum := initial;
    for i := 0 to |sequences|
      invariant minimum <= initial && forall j :: 0 <= j < i ==> minimum <= sequences[j]
      invariant minimum == initial || minimum in sequences
    {
      if sequences[i] < minimum {
        minimum := sequences[i];
      }
    }
  }

  // The bit trick of Util::isPowerOf2.
  function IsPowerOf2(x: int): (r: bool)
    ensures r <==> IsPow2(x)
  {
    if x > 0 then
      AndPredecessor(x);
      And(x, x - 1) == 0
    else
      false
  }

  // The number of halvings before zero: the exponent of the highest bit.
  method Log2(i: nat) returns (r: nat)
    ensures i > 0 ==> Pow2(r) <= i < Pow2(r + 1)
    ensures i == 0 ==> r == 0
  {
    var n := i / 2;
    r := 0;
    while n != 0
      invariant i > 0 ==> n == i / Pow2(r + 1) && Pow2(r) <= i
      invariant i == 0 ==> n == 0 && r == 0
      decreases n
    {
      HalveAgain(i, Pow2(r + 1));
      n := n / 2;
      r := r + 1;
    }
    QuotientZero(i, Pow2(r + 1));
  }

  lemma HalveAgain(i: nat, d: nat)
    requires d > 0
    ensures i / (2 * d) == i / d / 2
    ensures i / d != 0 ==> d <= i
  {
    var q, r := i / d, i % d;
    var h, b := q / 2, q % 2;
    SplitMultiple(h, b, d);
    var low := if b == 1 then d + r else r;
    assert i == h * (2 * d) + low;
    DivModUnique(i, 2 * d, h, low);
    if i < d { DivModUnique(i, d, 0, i); }
  }

  lemma SplitMultiple(h: nat, b: nat, d: nat)
    requires b < 2
    ensures (2 * h + b) * d == h * (2 * d) + if b == 1 then d else 0
  {
    assert (2 * h) * d == h * (2 * d);
  }

  lemma QuotientZero(i: nat, d: nat)
    requires d > 0 && i / d == 0
    ensures i < d
  {
  }

  lemma Pow2Order(a: nat, b: nat)
    ensures a < b ==> 2 * Pow2(a) <= Pow2(b)
  {
    if a < b { Pow2Mono(a + 1, b); }
  }

  // Truncating to 32 bits first does not change the remainder modulo a ring size.
  lemma TruncatedRemainder(x: nat, size: nat)
    requires IsPow2(size) && size <= 0x8000_0000
    ensures x % 0x1_0000_0000 % size == x % size
  {
    var k: nat :| size == Pow2(k);
    Pow2Value();
    Pow2Order(31, k);
    assert k <= 31;
    Pow2Add(k, 32 - k);
    RemainderOfRemainder(x, size, Pow2(32 - k));
  }

  lemma RemainderOfRemainder(x: nat, d: nat, e: nat)
    requires d > 0 && e > 0
    ensures d * e > 0 && x % (d * e) % d == x % d
  {
    assert d * e > 0;
    var q, r := x / (d * e), x % (d * e);
    assert x == q * (d * e) + r;
    assert q * (d * e) == (q * e) * d;
    DivModShift(r, d, q * e);
  }

  lemma Pow2Value()
    ensures Pow2(31) == 0x8000_0000 && Pow2(32) == 0x1_0000_0000
  {
    assert Pow2(8) == 0x100;
    assert Pow2(16) == 0x1_0000 by { Pow2Add(8, 8); }
    assert Pow2(32) == 0x1_0000_0000 by { Pow2Add(16, 16); }
  }

  class MultiProducerSequencer {
    const bufferSize: nat
    const indexMask: nat
    const indexShift: nat
    const availableBuffer: array<int>

    ghost predicate Valid()
    {
      && IsPow2(bufferSize) && bufferSize <= 0x8000_0000
      && indexMask == bufferSize - 1
      && bufferSize == Pow2(indexShift)
      && availableBuffer.Length == bufferSize
    }

    // The sequencer rejects sizes that are not powers of two; sizes are 32-bit.
    constructor (size: nat)
      requires IsPowerOf2(size) && size < 0x8000_0000
      ensures Valid() && bufferSize == size
      ensures availableBuffer[..] == seq(size, _ => -1) && fresh(availableBuffer)
    {
      var shift := Log2(size);
      var k: nat :| size == Pow2(k);
      Pow2Order(shift, k);
      Pow2Order(k, shift);
      bufferSize := size;
      indexMask := size - 1;
      indexShift := shift;
      availableBuffer := new int[size];
      new;
      var i := size - 1;
      while i != 0
        invariant 0 <= i < size && availableBuffer.Length == size
        invariant forall j :: i < j < size ==> availableBuffer[j] == -1
      {
        availableBuffer[i] := -1;
        i := i - 1;
      }
      availableBuffer[0] := -1;
    }

    // Masked 32-bit index: the sequence modulo the ring size.
    function CalculateIndex(sequence: nat): (r: nat)
      requires Valid()
      ensures r == Slot(bufferSize, sequence)
    {
      TruncatedRemainder(sequence, bufferSize);
      AndMask(sequence % 0x1_0000_0000, indexShift);
      And(sequence % 0x1_0000_0000, indexMask)
    }

    // Shifted and truncated to 32 bits: the lap number.
    function CalculateAvailabilityFlag(sequence: nat): (r: int)
      requires Valid()
      ensures r == Flag(bufferSize, sequence) && -0x8000_0000 <= r < 0x8000_0000
    {
      ToInt32(sequence / Pow2(indexShift))
    }

    method PublishOne(sequence: nat)
      requires Valid()
      modifies availableBuffer
      ensures availableBuffer[..] == old(availableBuffer[..])[Slot(bufferSize, sequence) := Flag(bufferSize, sequence)]
    {
      availableBuffer[CalculateIndex(sequence)] := CalculateAvailabilityFlag(sequence);
    }

    // Publishing a range no longer than the ring sets exactly the range's flags.
    method PublishRange(lo: nat, hi: int)
      requires Valid()
      modifies availableBuffer
      ensures hi - lo < bufferSize ==>
                forall x :: lo <= x <= hi ==> availableBuffer[Slot(bufferSize, x)] == Flag(bufferSize, x)
      ensures forall i :: 0 <= i < bufferSize && (forall x :: lo <= x <= hi ==> Slot(bufferSize, x) != i) ==>
                availableBuffer[i] == old(availableBuffer[i])
    {
      var l := lo;
      while l <= hi
        invariant lo <= l
        invariant hi - lo < bufferSize ==>
                    forall x :: lo <= x <= hi && x < l ==> availableBuffer[Slot(bufferSize, x)] == Flag(bufferSize, x)
        invariant forall i :: 0 <= i < bufferSize && (forall x :: lo <= x <= hi ==> Slot(bufferSize, x) != i) ==>
                    availableBuffer[i] == old(availableBuffer[i])
        decreases hi - l
      {
        if hi - lo < bufferSize {
          forall x | lo <= x < l ensures Slot(bufferSize, x) != Slot(bufferSize, l) {
            if Slot(bufferSize, x) == Slot(bufferSize, l) { SameRemainder(x, l, bufferSize); }
          }
        }
        PublishOne(l);
        l := l + 1;
      }
    }

    predicate Available(sequence: nat)
      requires Valid()
      reads availableBuffer
    {
      availableBuffer[CalculateIndex(sequence)] == CalculateAvailabilityFlag(sequence)
    }

    // The end of the run of available sequences that starts at lowerBound.
    method GetHighestPublishedSequence(lowerBound: nat, availableSequence: int) returns (r: int)
      requires Valid()
      ensures lowerBound <= availableSequence + 1 ==> lowerBound - 1 <= r <= availableSequence
      ensures lowerBound > availableSequence ==> r == availableSequence
      ensures forall x :: lowerBound <= x <= r ==> Available(x)
      ensures lowerBound - 1 <= r < availableSequence ==> !Available(r + 1)
    {
      var sequence: nat := lowerBound;
      while sequence <= availableSequence
        invariant lowerBound <= sequence
        invariant lowerBound <= availableSequence + 1 ==> sequence <= availableSequence + 1
        invariant forall x :: lowerBound <= x < sequence ==> Available(x)
      {
        if !Available(sequence) {
          return sequence - 1;
        }
        sequence := sequence + 1;
      }
      return availableSequence;
    }
  }

  // In a reachable ring, a scan that ends at r as the method above does has found
  // the end of the published run: every sequence from lo to r is published and,
  // below the bound, r + 1 is not.
  lemma HighestPublishedIsTheRunEnd(s: State, w: nat, lo: int, hi: int, r: int)
    requires Reachable(s) && w < |s.workers| && s.progress[w] < lo <= hi + 1 && hi <= s.cursor
    requires lo - 1 <= r <= hi
    requires forall x :: lo <= x <= r ==> IsAvailable(s, x)
    requires r < hi ==> !IsAvailable(s, r + 1)
    ensures forall x :: lo <= x <= r ==> x in s.history.published
    ensures r < hi ==> r + 1 !in s.history.published
  {
    assert Gating(s)[w] == s.progress[w];
    forall x | lo <= x <= r ensures x in s.history.published {
      FlagsRefinePublished(s, x, w);
    }
    if r < hi { FlagsRefinePublished(s, r + 1, w); }
  }
}
