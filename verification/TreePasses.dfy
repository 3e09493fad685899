// The two rewriting passes over linear tree code: NaN-aware tests become plain
// comparisons, and feature indices are remapped.
module TreePasses {
  import opened TreeCode

  // What the Python code raises.
  datatype Error = AssertionError | KeyError(key: int) | ValueError(op: Op)

  datatype Result<T> = Ok(value: T) | Err(error: Error)

  // ---------- passes in general ----------

  // A pass rewrites line by line and stops at the first line it rejects.
  function MapLines(f: Instr -> Result<Instr>, code: seq<Instr>): Result<seq<Instr>> {
    if code == [] then Ok([])
    else
      match MapLines(f, code[..|code| - 1])
      case Err(e) => Err(e)
      case Ok(r) =>
        match f(code[|code| - 1])
        case Err(e) => Err(e)
        case Ok(i) => Ok(r + [i])
  }

  lemma {:induction false} MapLinesEach(f: Instr -> Result<Instr>, code: seq<Instr>)
    ensures MapLines(f, code).Ok? <==> forall k :: 0 <= k < |code| ==> f(code[k]).Ok?
    ensures MapLines(f, code).Ok? ==>
              var r := MapLines(f, code).value;
              |r| == |code| && forall k :: 0 <= k < |code| ==> f(code[k]) == Ok(r[k])
  {
    if code != [] {
      var init := code[..|code| - 1];
      MapLinesEach(f, init);
      assert forall k :: 0 <= k < |init| ==> init[k] == code[k];
      assert MapLines(f, init).Err? ==> exists k :: 0 <= k < |init| && f(init[k]).Err?;
    }
  }

  // The lines have the same roles.
  ghost predicate SameKinds(code: seq<Instr>, r: seq<Instr>) {
    |code| == |r| && forall k :: 0 <= k < |code| ==> KindOf(code[k]) == KindOf(r[k])
  }

  // Line j on input b does what line i does on input a.
  ghost predicate SameEffect(i: Instr, a: Input, j: Instr, b: Input) {
    && KindOf(i) == KindOf(j)
    && (KindOf(i) == Leaf ==> i.c == j.c)
    && (KindOf(i) == Test ==> (Holds(i, a(i.x)) <==> Holds(j, b(j.x))))
  }

  ghost predicate SameEffects(code: seq<Instr>, a: Input, r: seq<Instr>, b: Input) {
    |code| == |r| && forall k :: 0 <= k < |code| ==> SameEffect(code[k], a, r[k], b)
  }

  // Skipping goes equally far in both.
  lemma {:induction false} SkipSame(code: seq<Instr>, r: seq<Instr>, depth: nat, atElse: bool)
    requires SameKinds(code, r)
    ensures |Skip(code, depth, atElse)| == |Skip(r, depth, atElse)|
    ensures Skip(code, depth, atElse) == code[|code| - |Skip(code, depth, atElse)|..]
    decreases |code|
  {
    if code != [] {
      var rest, rest' := code[1..], r[1..];
      match KindOf(code[0])
      case Test => SkipSame(rest, rest', depth + 1, atElse);
      case End => if depth > 0 { SkipSame(rest, rest', depth - 1, atElse); }
      case _ => SkipSame(rest, rest', depth, atElse);
    }
  }

  lemma SkipKeepsEffects(code: seq<Instr>, a: Input, r: seq<Instr>, b: Input, depth: nat, atElse: bool)
    requires SameEffects(code, a, r, b)
    ensures SameEffects(Skip(code, depth, atElse), a, Skip(r, depth, atElse), b)
  {
    SkipSame(code, r, depth, atElse);
    SkipSame(r, code, depth, atElse);
    var n := |code| - |Skip(code, depth, atElse)|;
    forall k | 0 <= k < |Skip(code, depth, atElse)|
      ensures SameEffect(Skip(code, depth, atElse)[k], a, Skip(r, depth, atElse)[k], b)
    {
      assert SameEffect(code[n + k], a, r[n + k], b);
    }
  }

  // Lines with the same effects run to the same leaf, whatever their nesting.
  lemma {:induction false} SameEffectsRun(code: seq<Instr>, a: Input, r: seq<Instr>, b: Input)
    requires SameEffects(code, a, r, b)
    ensures Run(code, a) == Run(r, b)
    decreases |code|
  {
    if code != [] {
      var rest, rest' := code[1..], r[1..];
      assert SameEffect(code[0], a, r[0], b);
      assert SameEffects(rest, a, rest', b);
      SkipKeepsEffects(rest, a, rest', b, 0, true);
      SkipKeepsEffects(rest, a, rest', b, 0, false);
      SameEffectsRun(rest, a, rest', b);
      SameEffectsRun(Skip(rest, 0, true), a, Skip(rest', 0, true), b);
      SameEffectsRun(Skip(rest, 0, false), a, Skip(rest', 0, false), b);
    }
  }

  // Lines with the same roles nest in the same way.
  lemma {:induction false} Renest(b: Block, rest: seq<Instr>, r: seq<Instr>) returns (b': Block, rest': seq<Instr>)
    requires WellFormed(b) && SameKinds(Lines(b, rest), r)
    ensures WellFormed(b') && r == Lines(b', rest') && SameKinds(rest, rest')
    decreases b
  {
    match b
    case Nil =>
      b', rest' := Nil, r;
    case Ret(i, next) =>
      DropFirst(i, Lines(next, rest), r);
      var next';
      next', rest' := Renest(next, rest, r[1..]);
      b' := Ret(r[0], next');
    case IfThen(i, thn, end, next) =>
      var tail := Lines(next, rest);
      DropFirst(i, Lines(thn, [end] + tail), r);
      var thn', r1 := Renest(thn, [end] + tail, r[1..]);
      DropFirst(end, tail, r1);
      var next';
      next', rest' := Renest(next, rest, r1[1..]);
      b' := IfThen(r[0], thn', r1[0], next');
    case IfElse(i, thn, sep, els, end, next) =>
      var tail := Lines(next, rest);
      var mid := Lines(els, [end] + tail);
      DropFirst(i, Lines(thn, [sep] + mid), r);
      var thn', r1 := Renest(thn, [sep] + mid, r[1..]);
      DropFirst(sep, mid, r1);
      var els', r2 := Renest(els, [end] + tail, r1[1..]);
      DropFirst(end, tail, r2);
      var next';
      next', rest' := Renest(next, rest, r2[1..]);
      b' := IfElse(r[0], thn', r1[0], els', r2[0], next');
  }

  lemma DropFirst(i: Instr, rest: seq<Instr>, r: seq<Instr>)
    requires SameKinds([i] + rest, r)
    ensures r != [] && KindOf(r[0]) == KindOf(i) && SameKinds(rest, r[1..]) && r == [r[0]] + r[1..]
  {
    assert ([i] + rest)[0] == i;
    forall k | 0 <= k < |rest|
      ensures KindOf(rest[k]) == KindOf(r[1..][k])
    {
      assert ([i] + rest)[k + 1] == rest[k];
    }
  }

  lemma NestingKept(code: seq<Instr>, r: seq<Instr>)
    requires WellNested(code) && SameKinds(code, r)
    ensures WellNested(r)
  {
    var b :| WellFormed(b) && Lines(b, []) == code;
    var b', rest' := Renest(b, [], r);
    assert rest' == [];
  }

  // ---------- NaN-aware tests ----------

  predicate Negative(c: F) {
    c.NegInf? || (c.Fin? && c.v < 0.0)
  }

  function ImprovedLine(i: Instr): Result<Instr> {
    match i.op
    case IfN0CmpLe =>
      if i.s != 0 then Err(AssertionError)
      else if Negative(i.c) then Ok(i.(op := IfCmpLe))
      else if i.c.NaN? then Err(AssertionError)
      else Ok(i.(op := IfCmpGt, s := 1))
    case IfNotNanAndCmpLe => if i.s != 0 then Err(AssertionError) else Ok(i.(op := IfCmpLe))
    case IfNanOrCmpLe => if i.s != 0 then Err(AssertionError) else Ok(i.(op := IfCmpGt, s := 1))
    case IfNotNan => if i.s != 0 then Err(AssertionError) else Ok(i.(op := IfCmpLe, c := PosInf))
    case IfNan => if i.s != 0 then Err(AssertionError) else Ok(i.(op := IfCmpLe, c := PosInf, s := 1))
    case _ => Ok(i)
  }

  function Reimproved(code: seq<Instr>): Result<seq<Instr>> {
    MapLines(ImprovedLine, code)
  }

  method Reimprove(code: seq<Instr>) returns (r: Result<seq<Instr>>)
    ensures r == Reimproved(code)
  {
    var res: seq<Instr> := [];
    for k := 0 to |code|
      invariant Reimproved(code[..k]) == Ok(res)
    {
      var op, x, c, s := code[k].op, code[k].x, code[k].c, code[k].s;
      if ImprovedLine(code[k]).Err? { StopsAtFirst(ImprovedLine, code, k); }
      assert code[..k + 1][..k] == code[..k];
      if op == IfN0CmpLe {
        if s != 0 { return Err(AssertionError); }
        if Negative(c) {
          op := IfCmpLe;
        } else {
          if c.NaN? { return Err(AssertionError); }
          op, s := IfCmpGt, 1;
        }
      } else if op == IfNotNanAndCmpLe {
        if s != 0 { return Err(AssertionError); }
        op := IfCmpLe;
      } else if op == IfNanOrCmpLe {
        if s != 0 { return Err(AssertionError); }
        op, s := IfCmpGt, 1;
      } else if op == IfNotNan {
        if s != 0 { return Err(AssertionError); }
        op, c := IfCmpLe, PosInf;
      } else if op == IfNan {
        if s != 0 { return Err(AssertionError); }
        op, c, s := IfCmpLe, PosInf, 1;
      }
      res := res + [Instr(op, x, c, s)];
    }
    assert code[..|code|] == code;
    r := Ok(res);
  }

  // A line rejected after accepted ones is the result.
  lemma {:induction false} StopsAtFirst(f: Instr -> Result<Instr>, code: seq<Instr>, k: nat)
    requires k < |code| && MapLines(f, code[..k]).Ok? && f(code[k]).Err?
    ensures MapLines(f, code) == Err(f(code[k]).error)
    decreases |code|
  {
    var init := code[..|code| - 1];
    if k < |init| {
      assert init[..k] == code[..k];
      StopsAtFirst(f, init, k);
    }
  }

  // The lines the pass accepts.
  predicate Accepted(i: Instr) {
    match i.op
    case IfN0CmpLe => i.s == 0 && !i.c.NaN?
    case IfNotNanAndCmpLe => i.s == 0
    case IfNanOrCmpLe => i.s == 0
    case IfNotNan => i.s == 0
    case IfNan => i.s == 0
    case _ => true
  }

  lemma ReimproveSucceeds(code: seq<Instr>)
    ensures Reimproved(code).Ok? <==> forall k :: 0 <= k < |code| ==> Accepted(code[k])
  {
    MapLinesEach(ImprovedLine, code);
    assert forall i :: ImprovedLine(i).Ok? <==> Accepted(i);
  }

  // A test compares with NaN and lets NaN through.
  predicate NanThreshold(i: Instr) {
    i.op == IfNanOrCmpLe && i.c.NaN?
  }

  // The rewritten test holds of the same values exactly when it is not one that
  // compares with NaN.
  lemma TestKeptIff(i: Instr)
    requires ImprovedLine(i).Ok?
    ensures (forall v: F :: Holds(ImprovedLine(i).value, v) <==> Holds(i, v)) <==> !NanThreshold(i)
  {
    if NanThreshold(i) {
      NanThresholdDiffers(i);
    }
  }

  // Such a test fails on every number before the pass and holds after it.
  lemma NanThresholdDiffers(i: Instr)
    requires ImprovedLine(i).Ok? && NanThreshold(i)
    ensures forall v: F :: !v.NaN? ==> !Holds(i, v) && Holds(ImprovedLine(i).value, v)
    ensures !Holds(i, Fin(0.0)) && Holds(ImprovedLine(i).value, Fin(0.0))
  {
  }

  // The pass keeps the meaning of every list, nested or not, on every input.
  lemma ReimproveKeepsMeaning(code: seq<Instr>, a: Input)
    requires Reimproved(code).Ok? && forall k :: 0 <= k < |code| ==> !NanThreshold(code[k])
    ensures Run(Reimproved(code).value, a) == Run(code, a)
  {
    var r := Reimproved(code).value;
    MapLinesEach(ImprovedLine, code);
    forall k | 0 <= k < |code|
      ensures SameEffect(code[k], a, r[k], a)
    {
      ImprovedEffect(code[k], a);
    }
    SameEffectsRun(code, a, r, a);
  }

  lemma ImprovedEffect(i: Instr, a: Input)
    requires ImprovedLine(i).Ok? && !NanThreshold(i)
    ensures SameEffect(i, a, ImprovedLine(i).value, a)
  {
    TestKeptIff(i);
  }

  // A list whose meaning changes: if x is NaN or at most NaN return 1, else 2.
  lemma NanThresholdChangesLeaf(a: Input)
    requires !a(0).NaN?
    ensures var code := [Instr(IfNanOrCmpLe, 0, NaN, 0), Instr(Return, -1, Fin(1.0), -1), Instr(Else, -1, NaN, -1),
                         Instr(Return, -1, Fin(2.0), -1), Instr(EndIf, -1, NaN, -1)];
            Run(code, a) == Returned(Fin(2.0)) && Reimproved(code).Ok? &&
            Run(Reimproved(code).value, a) == Returned(Fin(1.0))
  {
    var code := [Instr(IfNanOrCmpLe, 0, NaN, 0), Instr(Return, -1, Fin(1.0), -1), Instr(Else, -1, NaN, -1),
                 Instr(Return, -1, Fin(2.0), -1), Instr(EndIf, -1, NaN, -1)];
    MapLinesEach(ImprovedLine, code);
    var r := Reimproved(code).value;
    assert r[0] == Instr(IfCmpGt, 0, NaN, 1) && r[1] == code[1];
    assert Run(r[1..], a) == Returned(Fin(1.0));
    assert code[1..][0] == code[1] && code[1..][1..][0] == code[2];
    assert Skip(code[1..], 0, true) == code[1..][1..][1..];
    assert code[1..][1..][1..][0] == code[3];
  }

  // After the pass only plain comparisons are left (and the one NaN-aware test
  // the pass does not know).
  lemma OnlyPlainTests(code: seq<Instr>, k: nat)
    requires Reimproved(code).Ok? && k < |code|
    ensures |Reimproved(code).value| == |code|
    ensures var i := Reimproved(code).value[k];
            KindOf(i) == Test ==> i.op == IfCmpLe || i.op == IfCmpGt || i.op == IfN0CmpGt
  {
    MapLinesEach(ImprovedLine, code);
  }

  // ---------- remapping ----------

  function RemappedLine(m: map<int, int>, i: Instr): Result<Instr> {
    if i.x == -1 then Ok(i)
    else if i.x in m then Ok(i.(x := m[i.x]))
    else Err(KeyError(i.x))
  }

  function Revamped(code: seq<Instr>, m: map<int, int>): Result<seq<Instr>> {
    MapLines(i => RemappedLine(m, i), code)
  }

  method Revamp(code: seq<Instr>, mapping: map<int, int>) returns (r: Result<seq<Instr>>)
    ensures r == Revamped(code, mapping)
  {
    var res: seq<Instr> := [];
    for k := 0 to |code|
      invariant Revamped(code[..k], mapping) == Ok(res)
    {
      var x := code[k].x;
      assert code[..k + 1][..k] == code[..k];
      if x != -1 {
        if x !in mapping {
          StopsAtFirst(i => RemappedLine(mapping, i), code, k);
          return Err(KeyError(x));
        }
        x := mapping[x];
      }
      res := res + [code[k].(x := x)];
    }
    assert code[..|code|] == code;
    r := Ok(res);
  }

  // Input b holds at the mapped index what input a holds at the original one.
  ghost predicate Reindexed(m: map<int, int>, a: Input, b: Input) {
    (forall i :: i in m && i != -1 ==> b(m[i]) == a(i)) && b(-1) == a(-1)
  }

  // Remapped code on the re-indexed input does what the code did.
  lemma RevampKeepsMeaning(code: seq<Instr>, m: map<int, int>, a: Input, b: Input)
    requires Revamped(code, m).Ok? && Reindexed(m, a, b)
    ensures Run(Revamped(code, m).value, b) == Run(code, a)
  {
    var r := Revamped(code, m).value;
    MapLinesEach(i => RemappedLine(m, i), code);
    forall k | 0 <= k < |code|
      ensures SameEffect(code[k], a, r[k], b)
    {
      assert RemappedLine(m, code[k]) == Ok(r[k]);
    }
    SameEffectsRun(code, a, r, b);
  }

  lemma RevampSucceeds(code: seq<Instr>, m: map<int, int>)
    ensures Revamped(code, m).Ok? <==> forall k :: 0 <= k < |code| ==> code[k].x == -1 || code[k].x in m
  {
    MapLinesEach(i => RemappedLine(m, i), code);
    assert forall i :: RemappedLine(m, i).Ok? <==> i.x == -1 || i.x in m;
  }

  ghost predicate HasReindexed(m: map<int, int>, a: Input) {
    exists b: Input :: Reindexed(m, a, b)
  }

  // Every input can be re-indexed exactly when no two features share an index and
  // none takes the place of -1.
  lemma EveryInputReindexes(m: map<int, int>)
    ensures (forall a: Input :: HasReindexed(m, a)) <==>
            (forall i, j :: i in m && j in m && i != -1 && j != -1 && m[i] == m[j] ==> i == j) &&
            (forall i :: i in m && i != -1 ==> m[i] != -1)
  {
    if forall a: Input :: HasReindexed(m, a) {
      forall i, j | i in m && j in m && i != -1 && j != -1 && m[i] == m[j]
        ensures i == j
      {
        assert HasReindexed(m, x => if x == i then PosInf else NegInf);
      }
      forall i | i in m && i != -1
        ensures m[i] != -1
      {
        assert HasReindexed(m, x => if x == i then PosInf else NegInf);
      }
    }
    if (forall i, j :: i in m && j in m && i != -1 && j != -1 && m[i] == m[j] ==> i == j) &&
       (forall i :: i in m && i != -1 ==> m[i] != -1) {
      forall a: Input
        ensures HasReindexed(m, a)
      {
        assert Reindexed(m, a, y => AtPreimage(m, a, y));
      }
    }
  }

  ghost function AtPreimage(m: map<int, int>, a: Input, y: int): F {
    if exists i :: i in m && i != -1 && m[i] == y then (var i :| i in m && i != -1 && m[i] == y; a(i)) else a(y)
  }
}
