// The whole conversion: every tree through both passes, then printed in the order
// of the tree numbers.
module ConvertModel {
  import opened Options
  import opened TreeCode
  import opened TreePasses
  import opened TreeEmitter

  // One tree of the input file: its number and its instruction list.
  datatype Source = Source(number: nat, code: seq<Instr>)

  // A missing or empty mapping is not applied.
  function Processed(code: seq<Instr>, mapping: Option<map<int, int>>): Result<seq<Instr>> {
    match Reimproved(code)
    case Err(e) => Err(e)
    case Ok(r) => if mapping.Some? && mapping.value != map[] then Revamped(r, mapping.value) else Ok(r)
  }

  // Input b is what the printed code gets when the trees were made for input a.
  ghost predicate Corresponds(mapping: Option<map<int, int>>, a: Input, b: Input) {
    if mapping.Some? && mapping.value != map[] then Reindexed(mapping.value, a, b) else a == b
  }

  ghost predicate NoNanThreshold(code: seq<Instr>) {
    forall k :: 0 <= k < |code| ==> !NanThreshold(code[k])
  }

  // Both passes keep the role of every line.
  lemma ProcessedKinds(code: seq<Instr>, mapping: Option<map<int, int>>)
    requires Processed(code, mapping).Ok?
    ensures SameKinds(code, Processed(code, mapping).value)
  {
    ReimprovedKinds(code);
    if mapping.Some? && mapping.value != map[] {
      RevampedKinds(Reimproved(code).value, mapping.value);
    }
  }

  lemma ReimprovedKinds(code: seq<Instr>)
    requires Reimproved(code).Ok?
    ensures SameKinds(code, Reimproved(code).value)
  {
    var r := Reimproved(code).value;
    MapLinesEach(ImprovedLine, code);
    forall k | 0 <= k < |code|
      ensures KindOf(code[k]) == KindOf(r[k])
    {
      assert ImprovedLine(code[k]) == Ok(r[k]);
    }
  }

  lemma RevampedKinds(code: seq<Instr>, m: map<int, int>)
    requires Revamped(code, m).Ok?
    ensures SameKinds(code, Revamped(code, m).value)
  {
    var r := Revamped(code, m).value;
    MapLinesEach(i => RemappedLine(m, i), code);
    forall k | 0 <= k < |code|
      ensures KindOf(code[k]) == KindOf(r[k])
    {
      assert RemappedLine(m, code[k]) == Ok(r[k]);
    }
  }

  lemma ProcessedKeepsMeaning(code: seq<Instr>, mapping: Option<map<int, int>>, a: Input, b: Input)
    requires Processed(code, mapping).Ok? && NoNanThreshold(code) && Corresponds(mapping, a, b)
    ensures Run(Processed(code, mapping).value, b) == Run(code, a)
  {
    ReimproveKeepsMeaning(code, a);
    if mapping.Some? && mapping.value != map[] {
      RevampKeepsMeaning(Reimproved(code).value, mapping.value, a, b);
    }
  }

  // ---------- which lists print as C ----------

  // A scan of the lines that fails on a printed NaN and on a second zeroing test in
  // one statement list: `here` tells whether the current list has had one, `outer`
  // the same of the lists around it.
  predicate Scan(code: seq<Instr>, zeroing: Instr -> bool, here: bool, outer: seq<bool>) {
    if code == [] then true
    else
      var i, rest := code[0], code[1..];
      match KindOf(i)
      case Test => !PrintsNan(i) && !(here && zeroing(i)) && Scan(rest, zeroing, false, [here || zeroing(i)] + outer)
      case Leaf => !PrintsNan(i) && Scan(rest, zeroing, here, outer)
      case Separator => Scan(rest, zeroing, false, outer)
      case End => if outer == [] then Scan(rest, zeroing, here, []) else Scan(rest, zeroing, outer[0], outer[1..])
      case Outer => Scan(rest, zeroing, here, outer)
  }

  // The zeroing tests that the first pass leaves as they are.
  predicate StaysZeroing(i: Instr) {
    i.op == IfN0CmpGt
  }

  // No statement list holds two zeroing tests that stay, and no constant that is
  // printed is NaN.
  predicate PrintableSource(code: seq<Instr>) {
    Scan(code, StaysZeroing, false, [])
  }

  lemma ScanOne(i: Instr, rest: seq<Instr>, here: bool, outer: seq<bool>)
    ensures KindOf(i) == Test ==>
              (Scan([i] + rest, Zeroing, here, outer) <==>
               !PrintsNan(i) && !(here && Zeroing(i)) && Scan(rest, Zeroing, false, [here || Zeroing(i)] + outer))
    ensures KindOf(i) == Leaf ==>
              (Scan([i] + rest, Zeroing, here, outer) <==> !PrintsNan(i) && Scan(rest, Zeroing, here, outer))
    ensures KindOf(i) == Separator ==> (Scan([i] + rest, Zeroing, here, outer) <==> Scan(rest, Zeroing, false, outer))
  {
    Prefixed(i, rest);
  }

  lemma ScanEnd(i: Instr, rest: seq<Instr>, here: bool, h: bool, outer: seq<bool>)
    requires KindOf(i) == End
    ensures Scan([i] + rest, Zeroing, here, [h] + outer) <==> Scan(rest, Zeroing, h, outer)
  {
    Prefixed(i, rest);
    assert ([h] + outer)[1..] == outer;
  }

  // The scan of a block's lines passes exactly when the block is printable.
  lemma {:induction false} ScanBlock(b: Block, rest: seq<Instr>, here: bool, outer: seq<bool>)
    requires WellFormed(b)
    ensures Scan(Lines(b, rest), Zeroing, here, outer) <==>
            Printable(b, here) && Scan(rest, Zeroing, here || ZeroingTests(b) > 0, outer)
  {
    match b
    case Nil =>
    case Ret(i, next) =>
      ScanOne(i, Lines(next, rest), here, outer);
      ScanBlock(next, rest, here, outer);
    case IfThen(i, thn, end, next) =>
      var h, tail := here || Zeroing(i), Lines(next, rest);
      ScanOne(i, Lines(thn, [end] + tail), here, outer);
      ScanBlock(thn, [end] + tail, false, [h] + outer);
      ScanEnd(end, tail, ZeroingTests(thn) > 0, h, outer);
      ScanBlock(next, rest, h, outer);
    case IfElse(i, thn, sep, els, end, next) =>
      var h, tail := here || Zeroing(i), Lines(next, rest);
      var mid := Lines(els, [end] + tail);
      ScanOne(i, Lines(thn, [sep] + mid), here, outer);
      ScanBlock(thn, [sep] + mid, false, [h] + outer);
      ScanOne(sep, mid, ZeroingTests(thn) > 0, [h] + outer);
      ScanBlock(els, [end] + tail, false, [h] + outer);
      ScanEnd(end, tail, ZeroingTests(els) > 0, h, outer);
      ScanBlock(next, rest, h, outer);
  }

  ghost predicate SameScan(i: Instr, j: Instr) {
    && KindOf(i) == KindOf(j) && PrintsNan(i) == PrintsNan(j)
    && (KindOf(i) == Test ==> StaysZeroing(i) == Zeroing(j))
  }

  lemma {:induction false} ScanSame(code: seq<Instr>, r: seq<Instr>, here: bool, outer: seq<bool>)
    requires |code| == |r| && forall k :: 0 <= k < |code| ==> SameScan(code[k], r[k])
    ensures Scan(code, StaysZeroing, here, outer) <==> Scan(r, Zeroing, here, outer)
    decreases |code|
  {
    if code != [] {
      var i, rest, rest' := code[0], code[1..], r[1..];
      assert SameScan(i, r[0]);
      match KindOf(i)
      case Test => ScanSame(rest, rest', false, [here || StaysZeroing(i)] + outer);
      case Leaf => ScanSame(rest, rest', here, outer);
      case Separator => ScanSame(rest, rest', false, outer);
      case End =>
        if outer == [] { ScanSame(rest, rest', here, []); } else { ScanSame(rest, rest', outer[0], outer[1..]); }
      case Outer => ScanSame(rest, rest', here, outer);
    }
  }

  // What both passes leave prints as C exactly when the scan of the source passes.
  lemma ProcessedPrintable(code: seq<Instr>, mapping: Option<map<int, int>>, b: Block)
    requires WellFormed(b) && Processed(code, mapping) == Ok(Lines(b, []))
    ensures Printable(b, false) <==> PrintableSource(code)
  {
    var r := Reimproved(code).value;
    MapLinesEach(ImprovedLine, code);
    var r' := Processed(code, mapping).value;
    if mapping.Some? && mapping.value != map[] {
      MapLinesEach(i => RemappedLine(mapping.value, i), r);
    }
    forall k | 0 <= k < |code|
      ensures SameScan(code[k], r'[k])
    {
      ImprovedScan(code[k]);
      RemappedScan(r[k], r'[k], mapping);
    }
    ScanSame(code, r', false, []);
    ScanBlock(b, [], false, []);
  }

  lemma ImprovedScan(i: Instr)
    requires ImprovedLine(i).Ok?
    ensures SameScan(i, ImprovedLine(i).value)
  {
  }

  lemma RemappedScan(i: Instr, j: Instr, mapping: Option<map<int, int>>)
    requires if mapping.Some? && mapping.value != map[] then RemappedLine(mapping.value, i) == Ok(j) else i == j
    ensures KindOf(i) == KindOf(j) && PrintsNan(i) == PrintsNan(j) && Zeroing(i) == Zeroing(j)
  {
  }

  // Without a test that stays zeroing, only a printed NaN is in the way.
  lemma {:induction false} NoZeroingStays(code: seq<Instr>, here: bool, outer: seq<bool>)
    requires forall k :: 0 <= k < |code| ==> !StaysZeroing(code[k])
    ensures Scan(code, StaysZeroing, here, outer) <==> forall k :: 0 <= k < |code| ==> !PrintsNan(code[k])
    decreases |code|
  {
    if code != [] {
      var i, rest := code[0], code[1..];
      assert !StaysZeroing(i);
      NansSplit(code);
      match KindOf(i)
      case Test => NoZeroingStays(rest, false, [here || StaysZeroing(i)] + outer);
      case Leaf => NoZeroingStays(rest, here, outer);
      case Separator => NoZeroingStays(rest, false, outer);
      case End =>
        if outer == [] { NoZeroingStays(rest, here, []); } else { NoZeroingStays(rest, outer[0], outer[1..]); }
      case Outer => NoZeroingStays(rest, here, outer);
    }
  }

  lemma NansSplit(code: seq<Instr>)
    requires code != []
    ensures (forall k :: 0 <= k < |code| ==> !PrintsNan(code[k])) <==>
            !PrintsNan(code[0]) && forall k :: 0 <= k < |code[1..]| ==> !PrintsNan(code[1..][k])
  {
    if !PrintsNan(code[0]) && forall k :: 0 <= k < |code[1..]| ==> !PrintsNan(code[1..][k]) {
      forall k | 0 <= k < |code|
        ensures !PrintsNan(code[k])
      {
        if k > 0 { assert code[1..][k - 1] == code[k]; }
      }
    }
  }

  // A list whose printed text declares tmp twice in one statement list.
  function TwiceDeclared(): seq<Instr> {
    [Instr(IfN0CmpGt, 0, Fin(0.0), 0), Instr(Return, -1, Fin(1.0), -1), Instr(EndIf, -1, NaN, -1),
     Instr(IfN0CmpGt, 1, Fin(0.0), 0), Instr(Return, -1, Fin(1.0), -1), Instr(EndIf, -1, NaN, -1),
     Instr(Return, -1, Fin(1.0), -1)]
  }

  lemma TwiceDeclaredBlock() returns (b: Block)
    ensures WellFormed(b) && Lines(b, []) == TwiceDeclared() && !Printable(b, false)
  {
    var t0, t1 := Instr(IfN0CmpGt, 0, Fin(0.0), 0), Instr(IfN0CmpGt, 1, Fin(0.0), 0);
    var leaf, end := Instr(Return, -1, Fin(1.0), -1), Instr(EndIf, -1, NaN, -1);
    var last := Ret(leaf, Nil);
    var second := IfThen(t1, last, end, last);
    b := IfThen(t0, last, end, second);
    assert Lines(second, []) == [t1, leaf, end, leaf];
    assert ZeroingTests(second) == 1;
  }

  // Both passes leave it as it is, and what is printed for it is not C.
  lemma TwoZeroingTests()
    ensures var code := TwiceDeclared();
            && WellNested(code) && Reimproved(code) == Ok(code)
            && Finished(Wrapped(0, code)).Ok?
            && ParseProgram(Texts(Finished(Wrapped(0, code)).value), {}).Unparsed?
  {
    var code := TwiceDeclared();
    var b := TwiceDeclaredBlock();
    KeptUnchanged(code);
    OneProc(0, b);
    var all := FinishIsFaithful([Proc(0, b)]);
  }

  lemma OneProc(number: int, b: Block)
    ensures ProcLines([Proc(number, b)]) == Wrapped(number, Lines(b, []))
  {
    WrappedIsProc(number, b, []);
    assert [Proc(number, b)][1..] == [];
    assert Wrapped(number, Lines(b, [])) + [] == Wrapped(number, Lines(b, []));
  }

  lemma KeptUnchanged(code: seq<Instr>)
    requires forall k :: 0 <= k < |code| ==> ImprovedLine(code[k]) == Ok(code[k])
    ensures Reimproved(code) == Ok(code)
  {
    MapLinesEach(ImprovedLine, code);
    assert Reimproved(code).value == code;
  }

  // ---------- the dictionary of trees ----------

  // Later trees replace earlier ones with the same number.
  function Visited(sources: seq<Source>, mapping: Option<map<int, int>>): Result<map<int, seq<Instr>>> {
    if sources == [] then Ok(map[])
    else
      var last := sources[|sources| - 1];
      match Visited(sources[..|sources| - 1], mapping)
      case Err(e) => Err(e)
      case Ok(v) =>
        match Processed(last.code, mapping)
        case Err(e) => Err(e)
        case Ok(r) => Ok(v[last.number := r])
  }

  // The last list given for a number.
  function LastCode(sources: seq<Source>, number: int): Option<seq<Instr>> {
    if sources == [] then None
    else
      var last := sources[|sources| - 1];
      if last.number == number then Some(last.code) else LastCode(sources[..|sources| - 1], number)
  }

  lemma {:induction false} VisitedHoldsLast(sources: seq<Source>, mapping: Option<map<int, int>>)
    requires Visited(sources, mapping).Ok?
    ensures forall k :: k in Visited(sources, mapping).value <==> LastCode(sources, k).Some?
    ensures forall k :: k in Visited(sources, mapping).value ==>
              Processed(LastCode(sources, k).value, mapping) == Ok(Visited(sources, mapping).value[k])
  {
    if sources != [] { VisitedHoldsLast(sources[..|sources| - 1], mapping); }
  }

  lemma {:induction false} VisitedSucceeds(sources: seq<Source>, mapping: Option<map<int, int>>)
    ensures Visited(sources, mapping).Ok? <==> forall k :: 0 <= k < |sources| ==> Processed(sources[k].code, mapping).Ok?
  {
    if sources != [] {
      var init := sources[..|sources| - 1];
      VisitedSucceeds(init, mapping);
      assert forall k :: 0 <= k < |init| ==> init[k] == sources[k];
      assert Visited(init, mapping).Err? ==> exists k :: 0 <= k < |init| && Processed(init[k].code, mapping).Err?;
    }
  }

  lemma {:induction false} VisitedStops(sources: seq<Source>, mapping: Option<map<int, int>>, k: nat)
    requires k < |sources| && Visited(sources[..k], mapping).Ok? && Processed(sources[k].code, mapping).Err?
    ensures Visited(sources, mapping) == Err(Processed(sources[k].code, mapping).error)
    decreases |sources|
  {
    var init := sources[..|sources| - 1];
    if k < |init| {
      assert init[..k] == sources[..k];
      VisitedStops(init, mapping, k);
    }
  }

  ghost predicate Ascending(ks: seq<int>) {
    forall i, j :: 0 <= i < j < |ks| ==> ks[i] < ks[j]
  }

  // The keys in ascending order.
  method Sorted(keys: set<int>) returns (ks: seq<int>)
    ensures Ascending(ks)
    ensures forall i :: 0 <= i < |ks| ==> ks[i] in keys
    ensures forall k :: k in keys ==> k in ks
  {
    ks := [];
    var rest := keys;
    while exists k :: k in rest
      invariant Ascending(ks) && rest <= keys
      invariant forall i :: 0 <= i < |ks| ==> ks[i] in keys
      invariant forall k :: k in keys ==> k in ks || k in rest
      invariant forall i, k :: 0 <= i < |ks| && k in rest ==> ks[i] < k
      decreases |rest|
    {
      var least := Least(rest);
      ks := ks + [least];
      rest := rest - {least};
    }
  }

  method Least(keys: set<int>) returns (least: int)
    requires exists k :: k in keys
    ensures least in keys && forall k :: k in keys ==> least <= k
  {
    least :| least in keys;
    var rest := keys - {least};
    while exists k :: k in rest
      invariant least in keys && rest <= keys && forall k :: k in keys ==> least <= k || k in rest
      decreases |rest|
    {
      var k :| k in rest;
      if k < least {
        least := k;
      }
      rest := rest - {k};
    }
  }

  // ---------- the printed program ----------

  // A function of the program computes the tree it was made from.
  ghost predicate Computes(f: Function, code: seq<Instr>, mapping: Option<map<int, int>>) {
    forall a: Input, b: Input, tmp: F :: Corresponds(mapping, a, b) ==> EvalC(f.body, b, tmp) == Run(code, a)
  }

  // The text reads as one function per tree number, in ascending order, each the
  // tree last given for its number; the sum calls them last one first.
  ghost predicate Faithful(all: seq<Line>, sources: seq<Source>, mapping: Option<map<int, int>>) {
    match ParseProgram(Texts(all), {})
    case Unparsed => false
    case Program(fs, calls) =>
      var names := FunctionNames(fs);
      && Ascending(names) && calls == Reversed(names)
      && (forall k :: k in names <==> LastCode(sources, k).Some?)
      && forall i :: 0 <= i < |fs| ==> FaithfulFunction(fs[i], sources, mapping)
  }

  ghost predicate FaithfulFunction(f: Function, sources: seq<Source>, mapping: Option<map<int, int>>) {
    && LastCode(sources, f.name).Some?
    && (NoNanThreshold(LastCode(sources, f.name).value) ==> Computes(f, LastCode(sources, f.name).value, mapping))
  }

  function FunctionNames(fs: seq<Function>): (r: seq<int>)
    ensures |r| == |fs| && forall k :: 0 <= k < |r| ==> r[k] == fs[k].name
  {
    if fs == [] then [] else [fs[0].name] + FunctionNames(fs[1..])
  }

  ghost predicate AllNested(sources: seq<Source>) {
    forall k :: 0 <= k < |sources| ==> WellNested(sources[k].code)
  }

  function Wrapped(number: int, code: seq<Instr>): seq<Instr> {
    [DefOf(number)] + code + [ENDPROC]
  }

  // The lists of the given numbers one after the other.
  function Joined(ks: seq<int>, visited: map<int, seq<Instr>>): seq<Instr>
    requires forall i :: 0 <= i < |ks| ==> ks[i] in visited
  {
    if ks == [] then [] else Wrapped(ks[0], visited[ks[0]]) + Joined(ks[1..], visited)
  }

  lemma {:induction false} JoinedAppend(ks: seq<int>, k: int, visited: map<int, seq<Instr>>)
    requires k in visited && forall i :: 0 <= i < |ks| ==> ks[i] in visited
    ensures Joined(ks + [k], visited) == Joined(ks, visited) + Wrapped(k, visited[k])
  {
    if ks == [] {
      assert [k][1..] == [];
    } else {
      JoinedAppend(ks[1..], k, visited);
      assert (ks + [k])[0] == ks[0] && (ks + [k])[1..] == ks[1..] + [k];
    }
  }

  lemma {:induction false} LinesAppend(b: Block, x: seq<Instr>, y: seq<Instr>)
    ensures Lines(b, x + y) == Lines(b, x) + y
  {
    match b
    case Nil =>
    case Ret(i, next) =>
      LinesAppend(next, x, y);
    case IfThen(i, thn, end, next) =>
      LinesAppend(next, x, y);
      var tail := Lines(next, x);
      assert [end] + (tail + y) == [end] + tail + y;
      LinesAppend(thn, [end] + tail, y);
    case IfElse(i, thn, sep, els, end, next) =>
      LinesAppend(next, x, y);
      var tail := Lines(next, x);
      assert [end] + (tail + y) == [end] + tail + y;
      LinesAppend(els, [end] + tail, y);
      var mid := Lines(els, [end] + tail);
      assert [sep] + (mid + y) == [sep] + mid + y;
      LinesAppend(thn, [sep] + mid, y);
  }

  // ps are the procedures with these numbers and these lists.
  ghost predicate ProcsOf(ps: seq<Proc>, ks: seq<int>, visited: map<int, seq<Instr>>) {
    && |ps| == |ks| && AllWellFormed(ps)
    && forall i :: 0 <= i < |ks| ==> ps[i].name == ks[i] && ks[i] in visited && Lines(ps[i].block, []) == visited[ks[i]]
  }

  lemma {:induction false} JoinedIsProcs(ks: seq<int>, visited: map<int, seq<Instr>>) returns (ps: seq<Proc>)
    requires forall i :: 0 <= i < |ks| ==> ks[i] in visited && WellNested(visited[ks[i]])
    ensures ProcsOf(ps, ks, visited) && Joined(ks, visited) == ProcLines(ps)
  {
    if ks == [] {
      ps := [];
    } else {
      var more := JoinedIsProcs(ks[1..], visited);
      var b :| WellFormed(b) && Lines(b, []) == visited[ks[0]];
      ps := [Proc(ks[0], b)] + more;
      assert ps[1..] == more;
      WrappedIsProc(ks[0], b, ProcLines(more));
    }
  }

  lemma WrappedIsProc(number: int, b: Block, rest: seq<Instr>)
    ensures Wrapped(number, Lines(b, [])) + rest == [DefOf(number)] + Lines(b, [ENDPROC] + rest)
  {
    var code, tail := Lines(b, []), [ENDPROC] + rest;
    LinesAppend(b, [], tail);
    assert [] + tail == tail;
    assert Wrapped(number, code) + rest == [DefOf(number)] + (code + tail);
  }

  lemma FunctionComputes(p: Proc, code: seq<Instr>, mapping: Option<map<int, int>>)
    requires WellFormed(p.block) && NoNanThreshold(code)
    requires Processed(code, mapping) == Ok(Lines(p.block, []))
    ensures Computes(Function(p.name, AsC(p.block)), code, mapping)
  {
    forall a: Input, b: Input, tmp: F | Corresponds(mapping, a, b)
      ensures EvalC(AsC(p.block), b, tmp) == Run(code, a)
    {
      CMeansBlock(p.block, b, tmp);
      RunIsExec(p.block, b);
      ProcessedKeepsMeaning(code, mapping, a, b);
    }
  }

  lemma LastIsNested(sources: seq<Source>, number: int)
    requires AllNested(sources) && LastCode(sources, number).Some?
    ensures WellNested(LastCode(sources, number).value)
  {
    if sources[|sources| - 1].number != number { LastIsNested(sources[..|sources| - 1], number); }
  }

  lemma VisitedNested(sources: seq<Source>, mapping: Option<map<int, int>>, number: int)
    requires AllNested(sources) && Visited(sources, mapping).Ok? && number in Visited(sources, mapping).value
    ensures WellNested(Visited(sources, mapping).value[number])
  {
    VisitedHoldsLast(sources, mapping);
    LastIsNested(sources, number);
    var code := LastCode(sources, number).value;
    ProcessedKinds(code, mapping);
    NestingKept(code, Processed(code, mapping).value);
  }

  lemma ProcFaithful(p: Proc, sources: seq<Source>, mapping: Option<map<int, int>>)
    requires Visited(sources, mapping).Ok? && p.name in Visited(sources, mapping).value
    requires WellFormed(p.block) && Lines(p.block, []) == Visited(sources, mapping).value[p.name]
    ensures FaithfulFunction(Function(p.name, AsC(p.block)), sources, mapping)
  {
    VisitedHoldsLast(sources, mapping);
    var code := LastCode(sources, p.name).value;
    if NoNanThreshold(code) { FunctionComputes(p, code, mapping); }
  }

  // Every tree last given for its number prints as C, and there is one.
  ghost predicate PrintableSources(sources: seq<Source>) {
    sources != [] &&
    forall k :: LastCode(sources, k).Some? ==> PrintableSource(LastCode(sources, k).value)
  }

  // Names rise from `low` on.
  predicate Rising(ps: seq<Proc>, low: int) {
    ps == [] || (low <= ps[0].name && Rising(ps[1..], ps[0].name + 1))
  }

  lemma {:induction false} AscendingRises(ps: seq<Proc>, low: int)
    requires Ascending(Names(ps)) && (ps != [] ==> low <= ps[0].name)
    ensures Rising(ps, low)
  {
    if |ps| > 1 {
      var ks := Names(ps);
      assert ks[0] < ks[1] && ks[1] == ps[1].name && ks[1..] == Names(ps[1..]);
      TailAscends(ks);
      AscendingRises(ps[1..], ps[0].name + 1);
    }
  }

  lemma TailAscends(ks: seq<int>)
    requires ks != [] && Ascending(ks)
    ensures Ascending(ks[1..])
  {
  }

  ghost predicate AllPrintable(ps: seq<Proc>) {
    forall k :: 0 <= k < |ps| ==> Printable(ps[k].block, false)
  }

  lemma AllPrintableSplit(ps: seq<Proc>)
    requires ps != []
    ensures AllPrintable(ps) <==> Printable(ps[0].block, false) && AllPrintable(ps[1..])
  {
    if Printable(ps[0].block, false) && AllPrintable(ps[1..]) {
      forall k | 0 <= k < |ps|
        ensures Printable(ps[k].block, false)
      {
        if k > 0 { assert ps[1..][k - 1] == ps[k]; }
      }
    }
  }

  // Distinct numbers from zero on: only the blocks are left to be printable.
  lemma {:induction false} RisingProcs(ps: seq<Proc>, low: nat, names: set<int>)
    requires Rising(ps, low) && forall n :: n in names ==> n < low
    ensures PrintableProcs(ps, names) <==> AllPrintable(ps)
  {
    if ps != [] {
      RisingProcs(ps[1..], ps[0].name + 1, names + {ps[0].name});
      AllPrintableSplit(ps);
    }
  }

  // The keys are the numbers of the trees.
  ghost predicate KeysOf(ks: seq<int>, visited: map<int, seq<Instr>>) {
    && Ascending(ks)
    && (forall i :: 0 <= i < |ks| ==> ks[i] in visited)
    && (forall k :: k in visited ==> k in ks)
  }

  lemma {:induction false} NumbersNotNegative(sources: seq<Source>, number: int)
    requires LastCode(sources, number).Some?
    ensures number >= 0
  {
    if sources[|sources| - 1].number != number { NumbersNotNegative(sources[..|sources| - 1], number); }
  }

  lemma SomeNumber(sources: seq<Source>, mapping: Option<map<int, int>>, ks: seq<int>, visited: map<int, seq<Instr>>)
    requires Visited(sources, mapping) == Ok(visited) && KeysOf(ks, visited)
    ensures ks != [] <==> sources != []
    ensures forall i :: 0 <= i < |ks| ==> ks[i] >= 0
    ensures forall k :: LastCode(sources, k).Some? <==> k in ks
  {
    VisitedHoldsLast(sources, mapping);
    forall i | 0 <= i < |ks|
      ensures ks[i] >= 0
    {
      NumbersNotNegative(sources, ks[i]);
    }
    if sources != [] { assert sources[|sources| - 1].number in ks; }
    if ks != [] { assert LastCode(sources, ks[0]).Some?; }
  }

  // The procedures are printable exactly when the sources are.
  lemma ProcsPrintable(sources: seq<Source>, mapping: Option<map<int, int>>, ks: seq<int>,
                       visited: map<int, seq<Instr>>, ps: seq<Proc>)
    requires Visited(sources, mapping) == Ok(visited) && KeysOf(ks, visited) && ProcsOf(ps, ks, visited)
    ensures ps != [] && PrintableProcs(ps, {}) <==> PrintableSources(sources)
  {
    SomeNumber(sources, mapping, ks, visited);
    assert Names(ps) == ks;
    AscendingRises(ps, 0);
    RisingProcs(ps, 0, {});
    forall i | 0 <= i < |ks|
      ensures LastCode(sources, ks[i]).Some?
      ensures Printable(ps[i].block, false) <==> PrintableSource(LastCode(sources, ks[i]).value)
    {
      VisitedHoldsLast(sources, mapping);
      ProcessedPrintable(LastCode(sources, ks[i]).value, mapping, ps[i].block);
    }
    if PrintableProcs(ps, {}) {
      forall k | LastCode(sources, k).Some?
        ensures PrintableSource(LastCode(sources, k).value)
      {
        assert k in ks;
      }
    }
  }

  lemma AllVisitedNested(sources: seq<Source>, mapping: Option<map<int, int>>, ks: seq<int>, visited: map<int, seq<Instr>>)
    requires AllNested(sources) && Visited(sources, mapping) == Ok(visited) && KeysOf(ks, visited)
    ensures forall i :: 0 <= i < |ks| ==> WellNested(visited[ks[i]])
  {
    forall i | 0 <= i < |ks|
      ensures WellNested(visited[ks[i]])
    {
      VisitedNested(sources, mapping, ks[i]);
    }
  }

  lemma AllFaithful(sources: seq<Source>, mapping: Option<map<int, int>>, ks: seq<int>,
                    visited: map<int, seq<Instr>>, ps: seq<Proc>)
    requires Visited(sources, mapping) == Ok(visited) && KeysOf(ks, visited) && ProcsOf(ps, ks, visited)
    ensures FunctionNames(Functions(ps)) == ks == Names(ps)
    ensures forall i :: 0 <= i < |ps| ==> FaithfulFunction(Functions(ps)[i], sources, mapping)
  {
    NamesAgree(ps, ks, visited);
    forall i | 0 <= i < |ps|
      ensures FaithfulFunction(Functions(ps)[i], sources, mapping)
    {
      ProcFaithful(ps[i], sources, mapping);
    }
  }

  lemma NamesAgree(ps: seq<Proc>, ks: seq<int>, visited: map<int, seq<Instr>>)
    requires ProcsOf(ps, ks, visited)
    ensures FunctionNames(Functions(ps)) == ks == Names(ps)
  {
  }

  // Printing the trees in ascending order is balanced always, reads as a program
  // exactly when the sources are printable, and then is faithful.
  lemma PrintIsFaithful(sources: seq<Source>, mapping: Option<map<int, int>>, ks: seq<int>, visited: map<int, seq<Instr>>)
    requires AllNested(sources) && Visited(sources, mapping) == Ok(visited) && KeysOf(ks, visited)
    ensures Finished(Joined(ks, visited)).Ok?
    ensures var all := Finished(Joined(ks, visited)).value;
            && Balanced(all, 0)
            && (ParseProgram(Texts(all), {}).Program? <==> PrintableSources(sources))
            && (PrintableSources(sources) ==> Faithful(all, sources, mapping))
  {
    AllVisitedNested(sources, mapping, ks, visited);
    var ps := JoinedIsProcs(ks, visited);
    var all := FinishIsFaithful(ps);
    ProcsPrintable(sources, mapping, ks, visited, ps);
    AllFaithful(sources, mapping, ks, visited, ps);
    SomeNumber(sources, mapping, ks, visited);
  }

  // The conversion of a file of trees.  It succeeds exactly when both passes accept
  // every tree.  What it prints is balanced, and is C exactly when there is a tree
  // and every tree last given for its number is printable; it then is faithful to
  // the trees.
  method ProcFile(sources: seq<Source>, mapping: Option<map<int, int>>) returns (r: Result<seq<Line>>)
    ensures AllNested(sources) ==>
              (r.Ok? <==> forall k :: 0 <= k < |sources| ==> Processed(sources[k].code, mapping).Ok?)
    ensures AllNested(sources) && r.Ok? ==>
              && Balanced(r.value, 0)
              && (ParseProgram(Texts(r.value), {}).Program? <==> PrintableSources(sources))
              && (PrintableSources(sources) ==> Faithful(r.value, sources, mapping))
  {
    var visited: map<int, seq<Instr>> := map[];
    VisitedSucceeds(sources, mapping);
    for k := 0 to |sources|
      invariant Visited(sources[..k], mapping) == Ok(visited)
    {
      var body := Process(sources[k].code, mapping);
      assert sources[..k + 1][..k] == sources[..k];
      if body.Err? {
        VisitedStops(sources, mapping, k);
        return Err(body.error);
      }
      visited := visited[sources[k].number := body.value];
    }
    assert sources[..|sources|] == sources;
    r := PrintTrees(sources, mapping, visited);
  }

  method PrintTrees(ghost sources: seq<Source>, ghost mapping: Option<map<int, int>>, visited: map<int, seq<Instr>>)
    returns (r: Result<seq<Line>>)
    requires Visited(sources, mapping) == Ok(visited)
    ensures AllNested(sources) ==>
              && r.Ok? && Balanced(r.value, 0)
              && (ParseProgram(Texts(r.value), {}).Program? <==> PrintableSources(sources))
              && (PrintableSources(sources) ==> Faithful(r.value, sources, mapping))
  {
    var ks := Sorted(visited.Keys);
    var code := Join(ks, visited);
    r := Finish(code);
    if AllNested(sources) { PrintIsFaithful(sources, mapping, ks, visited); }
  }

  method Process(code: seq<Instr>, mapping: Option<map<int, int>>) returns (r: Result<seq<Instr>>)
    ensures r == Processed(code, mapping)
  {
    r := Reimprove(code);
    if r.Ok? && mapping.Some? && mapping.value != map[] {
      r := Revamp(r.value, mapping.value);
    }
  }

  method Join(ks: seq<int>, visited: map<int, seq<Instr>>) returns (code: seq<Instr>)
    requires forall i :: 0 <= i < |ks| ==> ks[i] in visited
    ensures code == Joined(ks, visited)
  {
    code := [];
    for k := 0 to |ks|
      invariant code == Joined(ks[..k], visited)
    {
      JoinedAppend(ks[..k], ks[k], visited);
      assert ks[..k + 1] == ks[..k] + [ks[k]];
      code := code + Wrapped(ks[k], visited[ks[k]]);
    }
    assert ks[..|ks|] == ks;
  }
}
