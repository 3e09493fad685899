// Stable distribution by digits, on sequences of records: the specification of
// the radix sort and the argument that least-significant-digit passes compose.
module StableSort {
  import opened Arith

  type Record = seq<nat>

  // The key word of a record.
  function Key(r: Record, offset: nat): nat {
    if offset < |r| then r[offset] else 0
  }

  // The records satisfying f, in order.
  function Filter(rs: seq<Record>, f: Record -> bool): (r: seq<Record>)
    ensures |r| <= |rs|
  {
    if rs == [] then []
    else
      var last := rs[|rs| - 1];
      Filter(rs[..|rs| - 1], f) + (if f(last) then [last] else [])
  }

  // The test "digit at weight p in base n is b" on the key word.
  function HasDigit(offset: nat, p: nat, n: nat, b: nat): Record -> bool
    requires p > 0 && n > 0
  {
    r => Key(r, offset) / p % n == b
  }

  // The test "key modulo m is v".
  function HasResidue(offset: nat, m: nat, v: nat): Record -> bool
    requires m > 0
  {
    r => Key(r, offset) % m == v
  }

  // Buckets 0, 1, .., k - 1 of one distribution pass, end to end.
  function Bucketed(rs: seq<Record>, offset: nat, p: nat, n: nat, k: nat): seq<Record>
    requires p > 0 && n > 0
  {
    if k == 0 then []
    else Bucketed(rs, offset, p, n, k - 1) + Filter(rs, HasDigit(offset, p, n, k - 1))
  }

  // One full distribution pass.
  function Distributed(rs: seq<Record>, offset: nat, p: nat, n: nat): seq<Record>
    requires p > 0 && n > 0
  {
    Bucketed(rs, offset, p, n, n)
  }

  ghost predicate SortedModulo(rs: seq<Record>, offset: nat, m: nat)
    requires m > 0
  {
    forall i, j :: 0 <= i < j < |rs| ==> Key(rs[i], offset) % m <= Key(rs[j], offset) % m
  }

  // out is rs sorted by key modulo m, records of equal residue in their old order.
  ghost predicate StablySorted(rs: seq<Record>, out: seq<Record>, offset: nat, m: nat)
    requires m > 0
  {
    && SortedModulo(out, offset, m)
    && forall v: nat :: v < m ==> Filter(out, HasResidue(offset, m, v)) == Filter(rs, HasResidue(offset, m, v))
  }

  // ---------- filters ----------

  lemma FilterSnoc(rs: seq<Record>, r: Record, f: Record -> bool)
    ensures Filter(rs + [r], f) == Filter(rs, f) + (if f(r) then [r] else [])
  {
    assert (rs + [r])[..|rs|] == rs;
  }

  lemma {:induction false} FilterAppend(a: seq<Record>, b: seq<Record>, f: Record -> bool)
    ensures Filter(a + b, f) == Filter(a, f) + Filter(b, f)
  {
    if b == [] {
      assert a + b == a;
    } else {
      var init, last := b[..|b| - 1], b[|b| - 1];
      assert a + b == (a + init) + [last];
      FilterSnoc(a + init, last, f);
      FilterAppend(a, init, f);
    }
  }

  // Filtering by f first loses nothing that g accepts, when g implies f.
  lemma {:induction false} FilterTwice(rs: seq<Record>, f: Record -> bool, g: Record -> bool)
    requires forall r :: g(r) ==> f(r)
    ensures Filter(Filter(rs, f), g) == Filter(rs, g)
  {
    if rs != [] {
      var init, last := rs[..|rs| - 1], rs[|rs| - 1];
      FilterTwice(init, f, g);
      FilterSnoc(Filter(init, f), last, g);
      if !f(last) { assert Filter(rs, f) == Filter(init, f); }
    }
  }

  // Nothing survives two tests that exclude each other.
  lemma {:induction false} FilterDisjoint(rs: seq<Record>, f: Record -> bool, g: Record -> bool)
    requires forall r :: !(f(r) && g(r))
    ensures Filter(Filter(rs, f), g) == []
  {
    if rs != [] {
      var init, last := rs[..|rs| - 1], rs[|rs| - 1];
      FilterDisjoint(init, f, g);
      FilterSnoc(Filter(init, f), last, g);
      if !f(last) { assert Filter(rs, f) == Filter(init, f); }
    }
  }

  // A filtered sequence keeps the order, and only accepted elements.
  lemma {:induction false} FilterSorted(rs: seq<Record>, offset: nat, m: nat, f: Record -> bool)
    requires m > 0 && SortedModulo(rs, offset, m)
    ensures SortedModulo(Filter(rs, f), offset, m)
    ensures forall i :: 0 <= i < |Filter(rs, f)| ==> f(Filter(rs, f)[i]) && Filter(rs, f)[i] in rs
  {
    if rs != [] {
      var init, last := rs[..|rs| - 1], rs[|rs| - 1];
      FilterSorted(init, offset, m, f);
      assert forall r :: r in init ==> r in rs && Key(r, offset) % m <= Key(last, offset) % m;
    }
  }

  // How often r occurs is decided by any test it passes.
  lemma {:induction false} FilterCount(rs: seq<Record>, f: Record -> bool, r: Record)
    requires f(r)
    ensures multiset(Filter(rs, f))[r] == multiset(rs)[r]
  {
    if rs != [] {
      var init, last := rs[..|rs| - 1], rs[|rs| - 1];
      FilterCount(init, f, r);
      assert rs == init + [last];
    }
  }

  // Equal residue classes mean equal contents.
  lemma StablySortedIsPermutation(rs: seq<Record>, out: seq<Record>, offset: nat, m: nat)
    requires m > 0 && StablySorted(rs, out, offset, m)
    ensures multiset(out) == multiset(rs)
  {
    forall r: Record ensures multiset(out)[r] == multiset(rs)[r] {
      var v := Key(r, offset) % m;
      FilterCount(out, HasResidue(offset, m, v), r);
      FilterCount(rs, HasResidue(offset, m, v), r);
    }
  }

  // ---------- one pass ----------

  // Digit and low part determine the residue modulo p * n.
  lemma SplitResidue(x: nat, p: nat, n: nat)
    requires p > 0 && n > 0
    ensures p * n > 0 && x % (p * n) == x / p % n * p + x % p
  {
    var q, r := x / p, x % p;
    var h, d := q / n, q % n;
    assert x == q * p + r && q == h * n + d;
    assert p * n > 0;
    assert x == h * (p * n) + (d * p + r) by {
      assert q * p == h * n * p + d * p;
      assert h * n * p == h * (p * n);
    }
    assert d * p + r < p * n by {
      MultipleBound(n - d, p);
      assert (n - d) * p == p * n - d * p;
    }
    DivModUnique(x, p * n, h, d * p + r);
  }

  // All residues modulo m lie in [lo, hi).
  ghost predicate ResiduesIn(rs: seq<Record>, offset: nat, m: nat, lo: nat, hi: nat)
    requires m > 0
  {
    forall i :: 0 <= i < |rs| ==> lo <= Key(rs[i], offset) % m < hi
  }

  lemma OneBucketSorted(rs: seq<Record>, offset: nat, p: nat, n: nat, b: nat)
    requires p > 0 && n > 0 && SortedModulo(rs, offset, p)
    ensures p * n > 0
    ensures SortedModulo(Filter(rs, HasDigit(offset, p, n, b)), offset, p * n)
    ensures ResiduesIn(Filter(rs, HasDigit(offset, p, n, b)), offset, p * n, b * p, (b + 1) * p)
  {
    assert p * n > 0;
    var back := Filter(rs, HasDigit(offset, p, n, b));
    FilterSorted(rs, offset, p, HasDigit(offset, p, n, b));
    forall i | 0 <= i < |back|
      ensures Key(back[i], offset) % (p * n) == b * p + Key(back[i], offset) % p
    {
      SplitResidue(Key(back[i], offset), p, n);
    }
    assert (b + 1) * p == b * p + p;
  }

  lemma AppendSorted(a: seq<Record>, b: seq<Record>, offset: nat, m: nat, mid: nat, hi: nat)
    requires m > 0 && SortedModulo(a, offset, m) && SortedModulo(b, offset, m)
    requires ResiduesIn(a, offset, m, 0, mid) && ResiduesIn(b, offset, m, mid, hi) && mid <= hi
    ensures SortedModulo(a + b, offset, m) && ResiduesIn(a + b, offset, m, 0, hi)
  {
  }

  lemma {:induction false} BucketedSorted(rs: seq<Record>, offset: nat, p: nat, n: nat, k: nat)
    requires p > 0 && n > 0 && SortedModulo(rs, offset, p)
    ensures p * n > 0 && SortedModulo(Bucketed(rs, offset, p, n, k), offset, p * n)
    ensures ResiduesIn(Bucketed(rs, offset, p, n, k), offset, p * n, 0, k * p)
  {
    assert p * n > 0;
    if k > 0 {
      BucketedSorted(rs, offset, p, n, k - 1);
      OneBucketSorted(rs, offset, p, n, k - 1);
      assert (k - 1) * p <= k * p;
      AppendSorted(Bucketed(rs, offset, p, n, k - 1), Filter(rs, HasDigit(offset, p, n, k - 1)),
                   offset, p * n, (k - 1) * p, k * p);
    }
  }

  // Of buckets 0, 1, .. only bucket d keeps anything under g, namely x.
  ghost predicate OnlyBucket(rs: seq<Record>, offset: nat, p: nat, n: nat, b: nat, g: Record -> bool, d: nat, x: seq<Record>)
    requires p > 0 && n > 0
  {
    Filter(Filter(rs, HasDigit(offset, p, n, b)), g) == if d == b then x else []
  }

  ghost predicate Picked(rs: seq<Record>, offset: nat, p: nat, n: nat, k: nat, g: Record -> bool, d: nat, x: seq<Record>)
    requires p > 0 && n > 0
  {
    Filter(Bucketed(rs, offset, p, n, k), g) == if d < k then x else []
  }

  lemma {:induction false} BucketedPick(rs: seq<Record>, offset: nat, p: nat, n: nat, k: nat,
                                        g: Record -> bool, d: nat, x: seq<Record>)
    requires p > 0 && n > 0
    requires forall b: nat :: b < k ==> OnlyBucket(rs, offset, p, n, b, g, d, x)
    ensures Picked(rs, offset, p, n, k, g, d, x)
  {
    if k > 0 {
      BucketedPick(rs, offset, p, n, k - 1, g, d, x);
      PickNext(rs, offset, p, n, k - 1, g, d, x);
    }
  }

  lemma PickNext(rs: seq<Record>, offset: nat, p: nat, n: nat, k: nat, g: Record -> bool, d: nat, x: seq<Record>)
    requires p > 0 && n > 0 && Picked(rs, offset, p, n, k, g, d, x) && OnlyBucket(rs, offset, p, n, k, g, d, x)
    ensures Picked(rs, offset, p, n, k + 1, g, d, x)
  {
    BucketedSplit(rs, offset, p, n, k + 1, g);
    OneOfTwo(Filter(Bucketed(rs, offset, p, n, k), g), Filter(Filter(rs, HasDigit(offset, p, n, k)), g), x, d < k, d == k);
  }

  lemma BucketedSplit(rs: seq<Record>, offset: nat, p: nat, n: nat, k: nat, g: Record -> bool)
    requires p > 0 && n > 0 && k > 0
    ensures Filter(Bucketed(rs, offset, p, n, k), g) ==
            Filter(Bucketed(rs, offset, p, n, k - 1), g) + Filter(Filter(rs, HasDigit(offset, p, n, k - 1)), g)
  {
    FilterAppend(Bucketed(rs, offset, p, n, k - 1), Filter(rs, HasDigit(offset, p, n, k - 1)), g);
  }

  lemma OneOfTwo(a: seq<Record>, b: seq<Record>, x: seq<Record>, first: bool, second: bool)
    requires a == (if first then x else []) && b == (if second then x else []) && !(first && second)
    ensures a + b == if first || second then x else []
  {
  }

  // Residue v lives in bucket v / p and in no other.
  lemma ResidueInOneBucket(rs: seq<Record>, offset: nat, p: nat, n: nat, b: nat, v: nat)
    requires p > 0 && n > 0 && p * n > 0
    requires v < p * n
    ensures OnlyBucket(rs, offset, p, n, b, HasResidue(offset, p * n, v), v / p, Filter(rs, HasResidue(offset, p * n, v)))
  {
    var f, g := HasDigit(offset, p, n, b), HasResidue(offset, p * n, v);
    forall r | g(r) ensures f(r) <==> v / p == b {
      ResidueDigit(Key(r, offset), p, n);
    }
    if v / p == b { FilterTwice(rs, f, g); } else { FilterDisjoint(rs, f, g); }
  }

  lemma ResidueDigit(x: nat, p: nat, n: nat)
    requires p > 0 && n > 0
    ensures p * n > 0 && x % (p * n) / p == x / p % n && x % (p * n) % p == x % p
  {
    SplitResidue(x, p, n);
    DivModUnique(x % (p * n), p, x / p % n, x % p);
  }

  lemma QuotientBound(v: nat, p: nat, n: nat)
    requires p > 0 && v < p * n
    ensures v / p < n
  {
    var q := v / p;
    assert v == q * p + v % p;
    MultipleBound(q - n, p);
    assert (q - n) * p == q * p - n * p;
  }

  // Distributing by the next digit keeps the records of every residue modulo p * n,
  // in their order.
  lemma ResidueKept(mid: seq<Record>, offset: nat, p: nat, n: nat, v: nat)
    requires p > 0 && n > 0 && v < p * n
    ensures Filter(Distributed(mid, offset, p, n), HasResidue(offset, p * n, v)) ==
            Filter(mid, HasResidue(offset, p * n, v))
  {
    var g := HasResidue(offset, p * n, v);
    forall b: nat | b < n ensures OnlyBucket(mid, offset, p, n, b, g, v / p, Filter(mid, g)) {
      ResidueInOneBucket(mid, offset, p, n, b, v);
    }
    QuotientBound(v, p, n);
    BucketedPick(mid, offset, p, n, n, g, v / p, Filter(mid, g));
  }

  // Records that agree modulo p agree modulo p * n.
  lemma FinerResidue(rs: seq<Record>, mid: seq<Record>, offset: nat, p: nat, n: nat, v: nat)
    requires p > 0 && n > 0 && v < p * n
    requires Filter(mid, HasResidue(offset, p, v % p)) == Filter(rs, HasResidue(offset, p, v % p))
    ensures Filter(mid, HasResidue(offset, p * n, v)) == Filter(rs, HasResidue(offset, p * n, v))
  {
    var f, g := HasResidue(offset, p, v % p), HasResidue(offset, p * n, v);
    forall r | g(r) ensures f(r) { ResidueDigit(Key(r, offset), p, n); }
    FilterTwice(mid, f, g);
    FilterTwice(rs, f, g);
  }

  // The heart of the sort: a stable pass on the next digit turns "stably sorted
  // modulo p" into "stably sorted modulo p * n".
  lemma PassExtendsOrder(rs: seq<Record>, mid: seq<Record>, offset: nat, p: nat, n: nat)
    requires p > 0 && n > 0 && StablySorted(rs, mid, offset, p)
    ensures p * n > 0 && StablySorted(rs, Distributed(mid, offset, p, n), offset, p * n)
  {
    BucketedSorted(mid, offset, p, n, n);
    forall v: nat | v < p * n
      ensures Filter(Distributed(mid, offset, p, n), HasResidue(offset, p * n, v)) ==
              Filter(rs, HasResidue(offset, p * n, v))
    {
      ResidueKept(mid, offset, p, n, v);
      FinerResidue(rs, mid, offset, p, n, v);
    }
  }

  // ---------- bucket positions ----------

  lemma {:induction false} BucketedSnoc(rs: seq<Record>, r: Record, offset: nat, p: nat, n: nat, k: nat)
    requires p > 0 && n > 0
    ensures |Bucketed(rs + [r], offset, p, n, k)| ==
            |Bucketed(rs, offset, p, n, k)| + if Key(r, offset) / p % n < k then 1 else 0
  {
    if k > 0 {
      BucketedSnoc(rs, r, offset, p, n, k - 1);
      FilterSnoc(rs, r, HasDigit(offset, p, n, k - 1));
    }
  }

  // A pass keeps the number of records.
  lemma {:induction false} DistributedLength(rs: seq<Record>, offset: nat, p: nat, n: nat)
    requires p > 0 && n > 0
    ensures |Distributed(rs, offset, p, n)| == |rs|
  {
    if rs == [] {
      BucketedEmpty(offset, p, n, n);
    } else {
      var init, last := rs[..|rs| - 1], rs[|rs| - 1];
      assert rs == init + [last];
      DistributedLength(init, offset, p, n);
      BucketedSnoc(init, last, offset, p, n, n);
    }
  }

  lemma {:induction false} BucketedEmpty(offset: nat, p: nat, n: nat, k: nat)
    requires p > 0 && n > 0
    ensures Bucketed([], offset, p, n, k) == []
  {
    if k > 0 { BucketedEmpty(offset, p, n, k - 1); }
  }

  lemma {:induction false} BucketStartsGrow(rs: seq<Record>, offset: nat, p: nat, n: nat, j: nat, k: nat)
    requires p > 0 && n > 0 && j <= k
    ensures |Bucketed(rs, offset, p, n, j)| <= |Bucketed(rs, offset, p, n, k)|
  {
    if j < k { BucketStartsGrow(rs, offset, p, n, j, k - 1); }
  }

  // A prefix of bucket b stands in out from the bucket's start.
  ghost predicate BucketHolds(rs: seq<Record>, out: seq<Record>, offset: nat, p: nat, n: nat, b: nat, prefix: seq<Record>)
    requires p > 0 && n > 0
  {
    var start := |Bucketed(rs, offset, p, n, b)|;
    start + |prefix| <= |out| && out[start..start + |prefix|] == prefix
  }

  ghost predicate BucketFilled(rs: seq<Record>, out: seq<Record>, offset: nat, p: nat, n: nat, b: nat)
    requires p > 0 && n > 0
  {
    BucketHolds(rs, out, offset, p, n, b, Filter(rs, HasDigit(offset, p, n, b)))
  }

  // Filling every bucket from its start produces the whole distribution.
  lemma {:induction false} FilledBuckets(rs: seq<Record>, out: seq<Record>, offset: nat, p: nat, n: nat, k: nat)
    requires p > 0 && n > 0
    requires forall b: nat :: b < k ==> BucketFilled(rs, out, offset, p, n, b)
    ensures |Bucketed(rs, offset, p, n, k)| <= |out|
    ensures out[..|Bucketed(rs, offset, p, n, k)|] == Bucketed(rs, offset, p, n, k)
  {
    if k > 0 {
      FilledBuckets(rs, out, offset, p, n, k - 1);
      assert BucketFilled(rs, out, offset, p, n, k - 1);
      JoinSlices(out, Bucketed(rs, offset, p, n, k - 1), Filter(rs, HasDigit(offset, p, n, k - 1)));
    }
  }

  lemma JoinSlices(out: seq<Record>, a: seq<Record>, b: seq<Record>)
    requires |a| + |b| <= |out| && out[..|a|] == a && out[|a|..|a| + |b|] == b
    ensures out[..|a + b|] == a + b
  {
  }
}
