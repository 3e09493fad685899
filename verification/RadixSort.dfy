// The least-significant-digit radix sort over flat word arrays with ping-pong
// buffers: count, prefix sums, scatter, two passes per round.
module RadixSort {
  import opened Arith
  import opened StableSort

  lemma RowBound(i: nat, num: nat, size: nat)
    requires i < num
    ensures i * size + size <= num * size
  {
    assert (num - i - 1) * size >= 0;
    assert (num - i - 1) * size == num * size - i * size - size;
  }

  // Record i of a flat array of records of `size` words.
  function Row(a: seq<nat>, size: nat, i: nat): Record
    requires i * size + size <= |a|
  {
    a[i * size..i * size + size]
  }

  function Rows(a: seq<nat>, size: nat, num: nat): (rs: seq<Record>)
    requires num * size <= |a|
    ensures |rs| == num
  {
    seq(num, i requires 0 <= i < num => (RowBound(i, num, size); Row(a, size, i)))
  }

  // The weight of the digit of a pass.
  function Weight(pass: nat, shift: nat): (p: nat)
    ensures p > 0
  {
    assert pass * shift >= 0;
    Pow2(pass * shift)
  }

  // The digit the kernel extracts by shifting and masking.
  function Bin(x: nat, p: nat, shift: nat): (b: nat)
    requires p > 0
    ensures b == x / p % Pow2(shift) < Pow2(shift)
  {
    assert x / p >= 0;
    AndMask(x / p, shift);
    And(x / p, Pow2(shift) - 1)
  }

  // Replacing the words of record d replaces record d of the view.
  lemma RowsUpdate(a: seq<nat>, b: seq<nat>, size: nat, num: nat, d: nat, r: Record)
    requires d < num && |r| == size && |a| == |b| && num * size <= |a| && d * size + size <= |a|
    requires forall k :: 0 <= k < |a| ==> b[k] == if d * size <= k < d * size + size then r[k - d * size] else a[k]
    ensures Rows(b, size, num) == Rows(a, size, num)[d := r]
  {
    forall i | 0 <= i < num ensures Rows(b, size, num)[i] == Rows(a, size, num)[d := r][i] {
      RowBound(i, num, size);
      if i < d { RowBound(i, d, size); }
      if d < i { RowBound(d, i, size); }
      assert Row(b, size, i) == if i == d then r else Row(a, size, i);
    }
  }

  // memcpy.
  method CopyWords(dst: array<nat>, to: nat, src: array<nat>, from: nat, size: nat)
    requires dst != src && from + size <= src.Length && to + size <= dst.Length
    modifies dst
    ensures forall k :: 0 <= k < dst.Length ==>
              dst[k] == if to <= k < to + size then src[from + (k - to)] else old(dst[k])
  {
    forall k | 0 <= k < size {
      dst[to + k] := src[from + k];
    }
  }

  method CopyRecord(dst: array<nat>, d: nat, src: array<nat>, s: nat, size: nat, ghost num: nat)
    requires dst != src && d < num && s < num
    requires num * size == dst.Length == src.Length
    requires s * size + size <= src.Length && d * size + size <= dst.Length
    modifies dst
    ensures Rows(dst[..], size, num) == old(Rows(dst[..], size, num))[d := Row(src[..], size, s)]
  {
    CopyWords(dst, d * size, src, s * size, size);
    RowsUpdate(old(dst[..]), dst[..], size, num, d, Row(src[..], size, s));
  }

  // ---------- what each loop of a pass establishes ----------

  ghost predicate HasStart(count: seq<nat>, rs: seq<Record>, offset: nat, p: nat, n: nat, b: nat)
    requires p > 0 && n > 0 && b < |count|
  {
    count[b] == |Bucketed(rs, offset, p, n, b)|
  }

  ghost predicate HasCount(count: seq<nat>, rs: seq<Record>, offset: nat, p: nat, n: nat, b: nat)
    requires p > 0 && n > 0 && b < |count|
  {
    count[b] == |Filter(rs, HasDigit(offset, p, n, b))|
  }

  // count[b] is the number of records with digit b.
  ghost predicate Counted(count: seq<nat>, rs: seq<Record>, offset: nat, p: nat, n: nat)
    requires p > 0 && n > 0
  {
    |count| == n && forall b :: 0 <= b < n ==> HasCount(count, rs, offset, p, n, b)
  }

  lemma CountOne(count: seq<nat>, rs: seq<Record>, i: nat, offset: nat, p: nat, n: nat, b: nat)
    requires p > 0 && n > 0 && i < |rs| && Counted(count, rs[..i], offset, p, n)
    requires b == Key(rs[i], offset) / p % n
    ensures count[b] <= i && Counted(count[b := count[b] + 1], rs[..i + 1], offset, p, n)
  {
    var rs' := rs[..i + 1];
    assert rs' == rs[..i] + [rs[i]] && HasCount(count, rs[..i], offset, p, n, b);
    var count' := count[b := count[b] + 1];
    forall c | 0 <= c < n
      ensures HasCount(count', rs', offset, p, n, c)
    {
      assert HasCount(count, rs[..i], offset, p, n, c);
      FilterSnoc(rs[..i], rs[i], HasDigit(offset, p, n, c));
    }
  }

  // The first k counters hold bucket starts, the others still counts.
  ghost predicate Summed(count: seq<nat>, rs: seq<Record>, offset: nat, p: nat, n: nat, k: nat)
    requires p > 0 && n > 0
  {
    && |count| == n
    && (forall b :: 0 <= b < n && b < k ==> HasStart(count, rs, offset, p, n, b))
    && (forall b :: k <= b < n ==> HasCount(count, rs, offset, p, n, b))
  }

  lemma SumOne(count: seq<nat>, rs: seq<Record>, offset: nat, p: nat, n: nat, k: nat, current: nat)
    requires p > 0 && n > 0 && k < n && Summed(count, rs, offset, p, n, k)
    requires current == |Bucketed(rs, offset, p, n, k)|
    ensures Summed(count[k := current], rs, offset, p, n, k + 1)
    ensures current + count[k] == |Bucketed(rs, offset, p, n, k + 1)|
  {
    assert HasCount(count, rs, offset, p, n, k);
    var count' := count[k := current];
    forall b | 0 <= b < n && b < k + 1 ensures HasStart(count', rs, offset, p, n, b) {
      if b != k { assert HasStart(count, rs, offset, p, n, b); }
    }
    forall b | k + 1 <= b < n ensures HasCount(count', rs, offset, p, n, b) {
      assert HasCount(count, rs, offset, p, n, b);
    }
  }

  // Bucket b holds the records of rs[..i] with digit b, and count[b] is its end.
  ghost predicate ScatteredAt(count: seq<nat>, out: seq<Record>, rs: seq<Record>, offset: nat, p: nat, n: nat, i: nat, b: nat)
    requires p > 0 && n > 0 && i <= |rs| && b < |count|
  {
    var done := Filter(rs[..i], HasDigit(offset, p, n, b));
    count[b] == |Bucketed(rs, offset, p, n, b)| + |done| && BucketHolds(rs, out, offset, p, n, b, done)
  }

  ghost predicate Scattered(count: seq<nat>, out: seq<Record>, rs: seq<Record>, offset: nat, p: nat, n: nat, i: nat)
    requires p > 0 && n > 0
  {
    && |count| == n && |out| == |rs| && i <= |rs|
    && forall b :: 0 <= b < n ==> ScatteredAt(count, out, rs, offset, p, n, i, b)
  }

  lemma {:induction false} FilterPrefix(rs: seq<Record>, i: nat, f: Record -> bool)
    requires i <= |rs|
    ensures |Filter(rs[..i], f)| <= |Filter(rs, f)|
  {
    FilterAppend(rs[..i], rs[i..], f);
    assert rs[..i] + rs[i..] == rs;
  }

  // A bucket ends where the next begins, inside the output.
  lemma BucketEnd(rs: seq<Record>, offset: nat, p: nat, n: nat, i: nat, b: nat, c: nat)
    requires p > 0 && n > 0 && i <= |rs| && b < n && b < c <= n
    ensures |Bucketed(rs, offset, p, n, b)| + |Filter(rs[..i], HasDigit(offset, p, n, b))|
            <= |Bucketed(rs, offset, p, n, c)| <= |rs|
  {
    FilterPrefix(rs, i, HasDigit(offset, p, n, b));
    BucketStartsGrow(rs, offset, p, n, b + 1, c);
    BucketStartsGrow(rs, offset, p, n, c, n);
    DistributedLength(rs, offset, p, n);
  }

  lemma ScatterStart(count: seq<nat>, out: seq<Record>, rs: seq<Record>, offset: nat, p: nat, n: nat)
    requires p > 0 && n > 0 && |out| == |rs| && Summed(count, rs, offset, p, n, n)
    ensures Scattered(count, out, rs, offset, p, n, 0)
  {
    forall b | 0 <= b < n ensures ScatteredAt(count, out, rs, offset, p, n, 0, b) {
      assert HasStart(count, rs, offset, p, n, b);
      BucketEnd(rs, offset, p, n, 0, b, b + 1);
    }
  }

  // Storing the next record at its counter keeps every bucket intact.
  lemma ScatterOne(count: seq<nat>, out: seq<Record>, rs: seq<Record>, offset: nat, p: nat, n: nat, i: nat, b: nat)
    requires p > 0 && n > 0 && i < |rs| && Scattered(count, out, rs, offset, p, n, i)
    requires b == Key(rs[i], offset) / p % n
    ensures count[b] < |out|
    ensures Scattered(count[b := count[b] + 1], out[count[b] := rs[i]], rs, offset, p, n, i + 1)
  {
    assert rs[..i + 1] == rs[..i] + [rs[i]];
    assert ScatteredAt(count, out, rs, offset, p, n, i, b);
    FilterSnoc(rs[..i], rs[i], HasDigit(offset, p, n, b));
    BucketEnd(rs, offset, p, n, i + 1, b, b + 1);
    var count', out' := count[b := count[b] + 1], out[count[b] := rs[i]];
    var i' := i + 1;
    forall c | 0 <= c < n ensures ScatteredAt(count', out', rs, offset, p, n, i', c) {
      ScatterElsewhere(count, out, rs, offset, p, n, i, b, c);
    }
  }

  lemma ScatterElsewhere(count: seq<nat>, out: seq<Record>, rs: seq<Record>, offset: nat, p: nat, n: nat, i: nat, b: nat, c: nat)
    requires p > 0 && n > 0 && i < |rs| && Scattered(count, out, rs, offset, p, n, i) && c < n
    requires b == Key(rs[i], offset) / p % n && count[b] < |out|
    ensures ScatteredAt(count[b := count[b] + 1], out[count[b] := rs[i]], rs, offset, p, n, i + 1, c)
  {
    assert ScatteredAt(count, out, rs, offset, p, n, i, b) && ScatteredAt(count, out, rs, offset, p, n, i, c);
    DigitsGrow(rs, i, offset, p, n, c);
    if c != b { ApartFrom(count, out, rs, offset, p, n, i, b, c); }
    ScatterBucket(out, |Bucketed(rs, offset, p, n, c)|, Filter(rs[..i], HasDigit(offset, p, n, c)), count[b], rs[i], b == c);
  }

  // The next record joins the bucket of its digit only.
  lemma DigitsGrow(rs: seq<Record>, i: nat, offset: nat, p: nat, n: nat, c: nat)
    requires p > 0 && n > 0 && i < |rs|
    ensures Filter(rs[..i + 1], HasDigit(offset, p, n, c)) ==
            Filter(rs[..i], HasDigit(offset, p, n, c)) + if Key(rs[i], offset) / p % n == c then [rs[i]] else []
  {
    assert rs[..i + 1] == rs[..i] + [rs[i]];
    FilterSnoc(rs[..i], rs[i], HasDigit(offset, p, n, c));
  }

  // The counter of a bucket lies outside what every other bucket has filled.
  lemma ApartFrom(count: seq<nat>, out: seq<Record>, rs: seq<Record>, offset: nat, p: nat, n: nat, i: nat, b: nat, c: nat)
    requires p > 0 && n > 0 && i < |rs| && b < n && c < n && b != c && |count| == n
    requires ScatteredAt(count, out, rs, offset, p, n, i, b) && b == Key(rs[i], offset) / p % n
    ensures var start := |Bucketed(rs, offset, p, n, c)|;
            count[b] < start || start + |Filter(rs[..i], HasDigit(offset, p, n, c))| <= count[b]
  {
    DigitsGrow(rs, i, offset, p, n, b);
    if c < b { BucketEnd(rs, offset, p, n, i, c, b); } else { BucketEnd(rs, offset, p, n, i + 1, b, c); }
  }

  // Writing at the end of a filled stretch extends it; writing elsewhere leaves it.
  lemma ScatterBucket(out: seq<Record>, start: nat, done: seq<Record>, at: nat, r: Record, extend: bool)
    requires start + |done| <= |out| && out[start..start + |done|] == done && at < |out|
    requires if extend then at == start + |done| else at < start || start + |done| <= at
    ensures var done' := if extend then done + [r] else done;
            start + |done'| <= |out| && out[at := r][start..start + |done'|] == done'
  {
    var out' := out[at := r];
    if extend {
      assert out'[start..start + |done| + 1] == out'[start..start + |done|] + [out'[at]];
    }
    assert out'[start..start + |done|] == out[start..start + |done|];
  }

  lemma ScatterEnd(count: seq<nat>, out: seq<Record>, rs: seq<Record>, offset: nat, p: nat, n: nat)
    requires p > 0 && n > 0 && Scattered(count, out, rs, offset, p, n, |rs|)
    ensures out == Distributed(rs, offset, p, n)
  {
    assert rs[..|rs|] == rs;
    forall b: nat | b < n ensures BucketFilled(rs, out, offset, p, n, b) {
      assert ScatteredAt(count, out, rs, offset, p, n, |rs|, b);
    }
    FilledBuckets(rs, out, offset, p, n, n);
    DistributedLength(rs, offset, p, n);
    assert out[..|rs|] == out;
  }

  method CountDigits(count: array<nat>, input: array<nat>, num: nat, size: nat, offset: nat, p: nat, shift: nat)
    requires p > 0 && count.Length == Pow2(shift) && offset < size && input.Length == num * size && count != input
    modifies count
    ensures Counted(count[..], Rows(input[..], size, num), offset, p, Pow2(shift))
  {
    ghost var flat := input[..];
    ghost var rs := Rows(flat, size, num);
    forall b | 0 <= b < count.Length {
      count[b] := 0;
    }
    for i := 0 to num
      invariant Counted(count[..], rs[..i], offset, p, Pow2(shift))
      invariant input[..] == flat
    {
      RowBound(i, num, size);
      var bin := Bin(input[i * size + offset], p, shift);
      assert rs[i] == Row(flat, size, i);
      CountOne(count[..], rs, i, offset, p, Pow2(shift), bin);
      count[bin] := count[bin] + 1;
    }
    assert rs[..num] == rs;
  }

  // Exclusive prefix sums turn counts into bucket starts.
  method SumCounts(count: array<nat>, ghost rs: seq<Record>, ghost offset: nat, ghost p: nat)
    requires p > 0 && count.Length > 0 && Counted(count[..], rs, offset, p, count.Length)
    modifies count
    ensures Summed(count[..], rs, offset, p, count.Length, count.Length)
  {
    var current := 0;
    for k := 0 to count.Length
      invariant Summed(count[..], rs, offset, p, count.Length, k)
      invariant current == |Bucketed(rs, offset, p, count.Length, k)|
    {
      SumOne(count[..], rs, offset, p, count.Length, k, current);
      var c := count[k];
      count[k] := current;
      current := current + c;
    }
  }

  method Scatter(count: array<nat>, output: array<nat>, input: array<nat>, num: nat, size: nat, offset: nat, p: nat, shift: nat)
    requires p > 0 && count.Length == Pow2(shift) && offset < size && input.Length == output.Length == num * size
    requires count != output && count != input && output != input
    requires Summed(count[..], Rows(input[..], size, num), offset, p, Pow2(shift), Pow2(shift))
    modifies count, output
    ensures Scattered(count[..], Rows(output[..], size, num), Rows(input[..], size, num), offset, p, Pow2(shift), num)
  {
    ghost var flat := input[..];
    ghost var rs := Rows(flat, size, num);
    ScatterStart(count[..], Rows(output[..], size, num), rs, offset, p, Pow2(shift));
    for i := 0 to num
      invariant Scattered(count[..], Rows(output[..], size, num), rs, offset, p, Pow2(shift), i)
      invariant input[..] == flat
    {
      RowBound(i, num, size);
      var bin := Bin(input[i * size + offset], p, shift);
      assert rs[i] == Row(flat, size, i);
      ScatterOne(count[..], Rows(output[..], size, num), rs, offset, p, Pow2(shift), i, bin);
      RowBound(count[bin], num, size);
      CopyRecord(output, count[bin], input, i, size, num);
      count[bin] := count[bin] + 1;
    }
  }

  // One kernel call: distribute the records of input over output by one digit.
  // Counters never exceed the record count, so they fit a word whenever it does.
  method Pass(count: array<nat>, output: array<nat>, input: array<nat>, num: nat, size: nat, offset: nat,
              pass: nat, shift: nat)
    requires count.Length == Pow2(shift) && offset < size
    requires input.Length == output.Length == num * size
    requires count != output && count != input && output != input
    modifies count, output
    ensures Rows(output[..], size, num) ==
            Distributed(Rows(input[..], size, num), offset, Weight(pass, shift), Pow2(shift))
    ensures forall b :: 0 <= b < count.Length ==> count[b] <= num
  {
    var p := Weight(pass, shift);
    CountDigits(count, input, num, size, offset, p, shift);
    SumCounts(count, Rows(input[..], size, num), offset, p);
    Scatter(count, output, input, num, size, offset, p, shift);
    ScatterEnd(count[..], Rows(output[..], size, num), Rows(input[..], size, num), offset, p, Pow2(shift));
    CountersFit(count[..], Rows(output[..], size, num), Rows(input[..], size, num), offset, p, Pow2(shift));
  }

  lemma CountersFit(count: seq<nat>, out: seq<Record>, rs: seq<Record>, offset: nat, p: nat, n: nat)
    requires p > 0 && n > 0 && Scattered(count, out, rs, offset, p, n, |rs|)
    ensures forall b :: 0 <= b < |count| ==> count[b] <= |rs|
  {
    forall b | 0 <= b < n ensures count[b] <= |rs| {
      assert ScatteredAt(count, out, rs, offset, p, n, |rs|, b);
    }
  }

  // Two passes per round, so the sorted records end where they started.
  method Sort(count: array<nat>, buf: array<nat>, input: array<nat>, num: nat, size: nat, offset: nat,
              shift: nat, halfpass: nat)
    requires count.Length == Pow2(shift) && offset < size
    requires input.Length == buf.Length == num * size
    requires count != buf && count != input && buf != input
    modifies count, buf, input
    ensures StablySorted(old(Rows(input[..], size, num)), Rows(input[..], size, num), offset, Weight(2 * halfpass, shift))
  {
    ghost var rs := Rows(input[..], size, num);
    NothingSorted(rs, offset);
    for i := 0 to halfpass
      invariant StablySorted(rs, Rows(input[..], size, num), offset, Weight(2 * i, shift))
    {
      ghost var before := Rows(input[..], size, num);
      Pass(count, buf, input, num, size, offset, 2 * i, shift);
      PassOrder(rs, before, offset, 2 * i, shift);
      Pass(count, input, buf, num, size, offset, 2 * i + 1, shift);
      PassOrder(rs, Rows(buf[..], size, num), offset, 2 * i + 1, shift);
    }
  }

  // The entry point: words of `bits` bits, passes that cover the word and never
  // shift by its full width.
  method SortWords(count: array<nat>, buf: array<nat>, input: array<nat>, num: nat, size: nat, offset: nat,
                   shift: nat, halfpass: nat, ghost bits: nat)
    requires count.Length == Pow2(shift) && offset < size
    requires input.Length == buf.Length == num * size
    requires count != buf && count != input && buf != input
    requires halfpass > 0 && (2 * halfpass - 1) * shift < bits <= 2 * halfpass * shift && num < Pow2(bits)
    requires forall k :: 0 <= k < input.Length ==> input[k] < Pow2(bits)
    modifies count, buf, input
    ensures var rs, sorted := old(Rows(input[..], size, num)), Rows(input[..], size, num);
            && (forall i, j :: 0 <= i < j < num ==> Key(sorted[i], offset) <= Key(sorted[j], offset))
            && multiset(sorted) == multiset(rs)
            && (forall v: nat :: v < Pow2(bits) ==> Filter(sorted, HasKey(offset, v)) == Filter(rs, HasKey(offset, v)))
  {
    ghost var flat := input[..];
    ghost var rs := Rows(flat, size, num);
    forall i | 0 <= i < num ensures Key(rs[i], offset) < Pow2(bits) {
      RowBound(i, num, size);
      assert rs[i] == Row(flat, size, i) && rs[i][offset] == flat[i * size + offset];
    }
    Sort(count, buf, input, num, size, offset, shift, halfpass);
    FullySorted(rs, Rows(input[..], size, num), offset, bits, 2 * halfpass * shift);
  }

  // Modulo 1 everything is sorted.
  lemma NothingSorted(rs: seq<Record>, offset: nat)
    ensures StablySorted(rs, rs, offset, 1)
  {
  }

  lemma PassOrder(rs: seq<Record>, mid: seq<Record>, offset: nat, pass: nat, shift: nat)
    requires StablySorted(rs, mid, offset, Weight(pass, shift))
    ensures StablySorted(rs, Distributed(mid, offset, Weight(pass, shift), Pow2(shift)), offset, Weight(pass + 1, shift))
  {
    PassExtendsOrder(rs, mid, offset, Weight(pass, shift), Pow2(shift));
    NextWeight(pass, shift);
  }

  lemma NextWeight(pass: nat, shift: nat)
    ensures Weight(pass + 1, shift) == Weight(pass, shift) * Pow2(shift)
  {
    var w := pass * shift;
    assert (pass + 1) * shift == w + shift;
    Pow2Add(w, shift);
  }

  // When the passes cover the word the result is sorted by the key itself, stable
  // for equal keys, and a permutation of the input.
  lemma FullySorted(rs: seq<Record>, out: seq<Record>, offset: nat, bits: nat, covered: nat)
    requires bits <= covered && StablySorted(rs, out, offset, Pow2(covered))
    requires forall i :: 0 <= i < |rs| ==> Key(rs[i], offset) < Pow2(bits)
    ensures forall i, j :: 0 <= i < j < |out| ==> Key(out[i], offset) <= Key(out[j], offset)
    ensures multiset(out) == multiset(rs)
    ensures forall v: nat :: v < Pow2(bits) ==>
              Filter(out, HasKey(offset, v)) == Filter(rs, HasKey(offset, v))
  {
    var m := Pow2(covered);
    Pow2Mono(bits, covered);
    StablySortedIsPermutation(rs, out, offset, m);
    forall i | 0 <= i < |out| ensures Key(out[i], offset) < Pow2(bits) {
      assert out[i] in multiset(out);
      assert out[i] in multiset(rs);
    }
    forall i | 0 <= i < |out| ensures Key(out[i], offset) % m == Key(out[i], offset) {
      DivModUnique(Key(out[i], offset), m, 0, Key(out[i], offset));
    }
    forall v: nat | v < Pow2(bits)
      ensures Filter(out, HasKey(offset, v)) == Filter(rs, HasKey(offset, v))
    {
      FilterSame(out, offset, bits, m, v);
      FilterSame(rs, offset, bits, m, v);
    }
  }

  function HasKey(offset: nat, v: nat): Record -> bool {
    r => Key(r, offset) == v
  }

  // On keys below 2^bits "key is v" and "key modulo m is v" agree.
  lemma {:induction false} FilterSame(rs: seq<Record>, offset: nat, bits: nat, m: nat, v: nat)
    requires m >= Pow2(bits) && forall i :: 0 <= i < |rs| ==> Key(rs[i], offset) < Pow2(bits)
    ensures Filter(rs, HasKey(offset, v)) == Filter(rs, HasResidue(offset, m, v))
  {
    if rs != [] {
      var last := rs[|rs| - 1];
      FilterSame(rs[..|rs| - 1], offset, bits, m, v);
      DivModUnique(Key(last, offset), m, 0, Key(last, offset));
    }
  }
}
