// Printing tree code as nested C ifs, and an independent reading of what was
// printed, which refuses text that is not C.
module TreeEmitter {
  import opened Options
  import opened TreeCode
  import opened TreePasses

  // ---------- the printed lines ----------

  // What a printed condition looks at: an array element, or the variable tmp.
  datatype Operand = Element(x: int) | Tmp

  datatype Expr =
    | LeE(o: Operand, c: F) | GtE(o: Operand, c: F) | IsNanE(o: Operand)
    | Not(e: Expr) | Or(l: Expr, r: Expr) | And(l: Expr, r: Expr)

  // Declare stands for the declaration of tmp as an array element, set to zero when
  // it is NaN.  A NaN constant is printed as a call of nan without an argument.
  datatype Text =
    | FuncOpen(name: int) | Declare(x: int) | IfOpen(cond: Expr) | ElseText | CloseText | ReturnText(c: F)
    | SumText(calls: seq<int>)

  // A line may begin with a declaration.
  datatype Line = Line(indent: nat, declared: Option<int>, text: Text)

  function Plain(indent: nat, text: Text): Line {
    Line(indent, None, text)
  }

  function Pad(indent: int): nat {
    if indent < 0 then 0 else indent
  }

  // A test that sets NaN to zero first.
  predicate Zeroing(i: Instr) {
    i.op == IfN0CmpLe || i.op == IfN0CmpGt
  }

  function Condition(i: Instr): Expr
    requires KindOf(i) == Test
  {
    if i.s == 1 then Not(PlainCondition(i)) else PlainCondition(i)
  }

  function PlainCondition(i: Instr): Expr
    requires KindOf(i) == Test
  {
    match i.op
    case IfCmpLe => LeE(Element(i.x), i.c)
    case IfCmpGt => GtE(Element(i.x), i.c)
    case IfN0CmpLe => LeE(Tmp, i.c)
    case IfN0CmpGt => GtE(Tmp, i.c)
    case IfNan => IsNanE(Element(i.x))
    case IfNotNan => Not(IsNanE(Element(i.x)))
    case IfNanOrCmpLe => Or(IsNanE(Element(i.x)), LeE(Element(i.x), i.c))
    case IfNotNanAndCmpLe => And(Not(IsNanE(Element(i.x))), LeE(Element(i.x), i.c))
  }

  function TestLine(i: Instr, indent: nat): Line
    requires KindOf(i) == Test
  {
    Line(indent, if Zeroing(i) then Some(i.x) else None, IfOpen(Condition(i)))
  }

  // The line printed for one instruction and the indentation after it.
  function Print(i: Instr, indent: int): Result<(Line, int)> {
    match i.op
    case DefProc => Ok((Plain(0, FuncOpen(i.x)), indent + 1))
    case EndIf => Ok((Plain(Pad(indent - 1), CloseText), indent - 1))
    case EndProc => Ok((Plain(Pad(indent - 1), CloseText), indent - 1))
    case Else => Ok((Plain(Pad(indent - 1), ElseText), indent))
    case Return => Ok((Plain(Pad(indent), ReturnText(i.c)), indent))
    case Other => Err(ValueError(i.op))
    case _ => Ok((TestLine(i, Pad(indent)), indent + 1))
  }

  function Emit(code: seq<Instr>, indent: int): Result<seq<Line>> {
    if code == [] then Ok([])
    else
      match Print(code[0], indent)
      case Err(e) => Err(e)
      case Ok(p) => Cons(p.0, Emit(code[1..], p.1))
  }

  function Cons(l: Line, r: Result<seq<Line>>): Result<seq<Line>> {
    match r
    case Err(e) => Err(e)
    case Ok(ls) => Ok([l] + ls)
  }

  function Concat(a: seq<Line>, r: Result<seq<Line>>): Result<seq<Line>> {
    match r
    case Err(e) => Err(e)
    case Ok(ls) => Ok(a + ls)
  }

  function Trees(code: seq<Instr>): seq<int> {
    if code == [] then [] else (if code[0].op == DefProc then [code[0].x] else []) + Trees(code[1..])
  }

  function Reversed(s: seq<int>): (r: seq<int>)
    ensures |r| == |s| && forall x :: x in r <==> x in s
  {
    if s == [] then [] else Reversed(s[1..]) + [s[0]]
  }

  // All lines, and the function that sums the trees, last one first.
  function Finished(code: seq<Instr>): Result<seq<Line>> {
    match Emit(code, 0)
    case Err(e) => Err(e)
    case Ok(ls) => Ok(ls + [Plain(0, SumText(Reversed(Trees(code))))])
  }

  method Finish(code: seq<Instr>) returns (r: Result<seq<Line>>)
    ensures r == Finished(code)
  {
    var indent := 0;
    var res: seq<Line> := [];
    var trees: seq<int> := [];
    ConcatNothing(Emit(code, 0));
    assert code[0..] == code;
    for k := 0 to |code|
      invariant Concat(res, Emit(code[k..], indent)) == Emit(code, 0)
      invariant trees + Trees(code[k..]) == Trees(code)
    {
      NextLine(code, k, indent);
      NextTree(code, k, trees);
      var line := PrintLine(code[k], indent);
      if line.Err? {
        return Err(line.error);
      }
      if code[k].op == DefProc {
        trees := trees + [code[k].x];
      }
      ConcatCons(res, line.value.0, Emit(code[k + 1..], line.value.1));
      res := res + [line.value.0];
      indent := line.value.1;
    }
    assert code[|code|..] == [];
    assert trees + [] == trees && res + [] == res;
    r := Ok(res + [Plain(0, SumText(Reversed(trees)))]);
  }

  // One turn of the printing loop.
  method PrintLine(i: Instr, start: int) returns (r: Result<(Line, int)>)
    ensures r == Print(i, start)
  {
    var indent := start;
    var line: Line;
    match i.op {
      case DefProc =>
        line := Plain(0, FuncOpen(i.x));
        indent := indent + 1;
      case EndIf =>
        indent := indent - 1;
        line := Plain(Pad(indent), CloseText);
      case EndProc =>
        indent := indent - 1;
        line := Plain(Pad(indent), CloseText);
      case Else =>
        indent := indent - 1;
        line := Plain(Pad(indent), ElseText);
        indent := indent + 1;
      case Return =>
        line := Plain(Pad(indent), ReturnText(i.c));
      case Other =>
        return Err(ValueError(i.op));
      case _ =>
        line := TestLine(i, Pad(indent));
        indent := indent + 1;
    }
    r := Ok((line, indent));
  }

  lemma NextLine(code: seq<Instr>, k: nat, indent: int)
    requires k < |code|
    ensures Print(code[k], indent).Err? ==> Emit(code[k..], indent) == Err(Print(code[k], indent).error)
    ensures Print(code[k], indent).Ok? ==>
              Emit(code[k..], indent) ==
              Cons(Print(code[k], indent).value.0, Emit(code[k + 1..], Print(code[k], indent).value.1))
  {
    assert code[k..][0] == code[k] && code[k..][1..] == code[k + 1..];
  }

  lemma NextTree(code: seq<Instr>, k: nat, trees: seq<int>)
    requires k < |code|
    ensures trees + Trees(code[k..]) ==
            (if code[k].op == DefProc then trees + [code[k].x] else trees) + Trees(code[k + 1..])
  {
    assert code[k..][0] == code[k] && code[k..][1..] == code[k + 1..];
    if code[k].op == DefProc {
      assert trees + ([code[k].x] + Trees(code[k + 1..])) == trees + [code[k].x] + Trees(code[k + 1..]);
    } else {
      assert [] + Trees(code[k + 1..]) == Trees(code[k + 1..]);
    }
  }

  lemma ConcatNothing(r: Result<seq<Line>>)
    ensures Concat([], r) == r
  {
    if r.Ok? { assert [] + r.value == r.value; }
  }

  lemma ConcatCons(a: seq<Line>, l: Line, r: Result<seq<Line>>)
    ensures Concat(a, Cons(l, r)) == Concat(a + [l], r)
  {
    if r.Ok? { assert a + ([l] + r.value) == a + [l] + r.value; }
  }

  // ---------- reading the text as C ----------

  datatype CBlock =
    | CNil
    | CRet(c: F, rest: CBlock)
    | CDeclare(x: int, rest: CBlock)
    | CIf(cond: Expr, thn: CBlock, rest: CBlock)
    | CIfElse(cond: Expr, thn: CBlock, els: CBlock, rest: CBlock)

  // `tmp` is the value of the innermost variable of that name.
  function Value(o: Operand, a: Input, tmp: F): F {
    match o
    case Element(x) => a(x)
    case Tmp => tmp
  }

  predicate EvalE(e: Expr, a: Input, tmp: F) {
    match e
    case LeE(o, c) => Le(Value(o, a, tmp), c)
    case GtE(o, c) => Gt(Value(o, a, tmp), c)
    case IsNanE(o) => Value(o, a, tmp).NaN?
    case Not(f) => !EvalE(f, a, tmp)
    case Or(l, r) => EvalE(l, a, tmp) || EvalE(r, a, tmp)
    case And(l, r) => EvalE(l, a, tmp) && EvalE(r, a, tmp)
  }

  function EvalC(b: CBlock, a: Input, tmp: F): Outcome {
    match b
    case CNil => NoReturn
    case CRet(c, _) => Returned(c)
    case CDeclare(x, rest) => EvalC(rest, a, NanToZero(a(x)))
    case CIf(e, thn, rest) => Then(if EvalE(e, a, tmp) then EvalC(thn, a, tmp) else NoReturn, EvalC(rest, a, tmp))
    case CIfElse(e, thn, els, rest) =>
      Then(if EvalE(e, a, tmp) then EvalC(thn, a, tmp) else EvalC(els, a, tmp), EvalC(rest, a, tmp))
  }

  // A condition is C when its constants are and tmp, if it is used, is visible.
  predicate IsC(e: Expr, visible: bool) {
    match e
    case LeE(o, c) => !c.NaN? && (o == Tmp ==> visible)
    case GtE(o, c) => !c.NaN? && (o == Tmp ==> visible)
    case IsNanE(o) => o == Tmp ==> visible
    case Not(f) => IsC(f, visible)
    case Or(l, r) => IsC(l, visible) && IsC(r, visible)
    case And(l, r) => IsC(l, visible) && IsC(r, visible)
  }

  datatype Parsed = Parsed(block: CBlock, rest: seq<Text>) | Failed

  // Statements up to the brace that ends their list.  `here` tells whether this list
  // has declared tmp, which it may do once; `visible` whether it or a list around it
  // has.
  function ParseBlock(ts: seq<Text>, here: bool, visible: bool): (p: Parsed)
    ensures p.Parsed? ==> |p.rest| <= |ts|
    decreases |ts|
  {
    if ts == [] then Parsed(CNil, ts)
    else
      match ts[0]
      case CloseText => Parsed(CNil, ts)
      case ElseText => Parsed(CNil, ts)
      case ReturnText(c) =>
        if c.NaN? then Failed
        else (
          match ParseBlock(ts[1..], here, visible)
          case Failed => Failed
          case Parsed(b, rest) => Parsed(CRet(c, b), rest))
      case Declare(x) =>
        if here then Failed
        else (
          match ParseBlock(ts[1..], true, true)
          case Failed => Failed
          case Parsed(b, rest) => Parsed(CDeclare(x, b), rest))
      case IfOpen(e) =>
        if !IsC(e, visible) then Failed
        else (
          match ParseBlock(ts[1..], false, visible)
          case Failed => Failed
          case Parsed(thn, r1) =>
            if r1 == [] then Failed
            else if r1[0] == CloseText then
              (match ParseBlock(r1[1..], here, visible)
               case Failed => Failed
               case Parsed(b, rest) => Parsed(CIf(e, thn, b), rest))
            else
              (match ParseBlock(r1[1..], false, visible)
               case Failed => Failed
               case Parsed(els, r2) =>
                 if r2 == [] || r2[0] != CloseText then Failed
                 else
                   match ParseBlock(r2[1..], here, visible)
                   case Failed => Failed
                   case Parsed(b, rest) => Parsed(CIfElse(e, thn, els, b), rest)))
      case _ => Failed
  }

  datatype Function = Function(name: int, body: CBlock)

  datatype Program = Program(functions: seq<Function>, calls: seq<int>) | Unparsed

  // Functions with numbers that are distinct and not negative, and last the sum of
  // at least one call, each of a function there is.
  function ParseProgram(ts: seq<Text>, names: set<int>): Program
    decreases |ts|
  {
    if ts == [] then Unparsed
    else
      match ts[0]
      case SumText(calls) =>
        if |ts| == 1 && calls != [] && (forall c :: c in calls ==> c in names) then Program([], calls) else Unparsed
      case FuncOpen(name) =>
        if name < 0 || name in names then Unparsed
        else (
          match ParseBlock(ts[1..], false, false)
          case Failed => Unparsed
          case Parsed(b, rest) =>
            if rest == [] || rest[0] != CloseText then Unparsed
            else
              match ParseProgram(rest[1..], names + {name})
              case Unparsed => Unparsed
              case Program(fs, calls) => Program([Function(name, b)] + fs, calls))
      case _ => Unparsed
  }

  // Every line stands at its brace depth, which never goes below zero, functions
  // open outside all braces, and all braces are closed at the end.
  predicate Balanced(ls: seq<Line>, depth: nat) {
    if ls == [] then depth == 0
    else
      match ls[0].text
      case FuncOpen(_) => depth == 0 && ls[0].indent == 0 && Balanced(ls[1..], 1)
      case IfOpen(_) => ls[0].indent == depth && Balanced(ls[1..], depth + 1)
      case ElseText => depth > 0 && ls[0].indent == depth - 1 && Balanced(ls[1..], depth)
      case CloseText => depth > 0 && ls[0].indent == depth - 1 && Balanced(ls[1..], depth - 1)
      case ReturnText(_) => ls[0].indent == depth && Balanced(ls[1..], depth)
      case Declare(_) => false
      case SumText(_) => depth == 0 && ls[0].indent == 0 && Balanced(ls[1..], depth)
  }

  // The items of the lines in order, a declaration before the rest of its line.
  function Texts(ls: seq<Line>): seq<Text> {
    if ls == [] then [] else Items(ls[0]) + Texts(ls[1..])
  }

  function Items(l: Line): seq<Text> {
    (if l.declared.Some? then [Declare(l.declared.value)] else []) + [l.text]
  }

  // ---------- which blocks print as C ----------

  // The test or leaf has a constant that is printed as NaN.
  predicate PrintsNan(i: Instr) {
    i.c.NaN? && (KindOf(i) == Leaf || (KindOf(i) == Test && i.op != IfNan && i.op != IfNotNan))
  }

  // The zeroing tests of one statement list, not counting the lists inside it.
  function ZeroingTests(b: Block): nat {
    match b
    case Nil => 0
    case Ret(_, rest) => ZeroingTests(rest)
    case IfThen(i, _, _, rest) => (if Zeroing(i) then 1 else 0) + ZeroingTests(rest)
    case IfElse(i, _, _, _, _, rest) => (if Zeroing(i) then 1 else 0) + ZeroingTests(rest)
  }

  // No list inside holds two zeroing tests and no printed constant is NaN.
  predicate PrintableInside(b: Block) {
    match b
    case Nil => true
    case Ret(i, rest) => !PrintsNan(i) && PrintableInside(rest)
    case IfThen(i, thn, _, rest) =>
      !PrintsNan(i) && ZeroingTests(thn) <= 1 && PrintableInside(thn) && PrintableInside(rest)
    case IfElse(i, thn, _, els, _, rest) =>
      && !PrintsNan(i) && ZeroingTests(thn) <= 1 && ZeroingTests(els) <= 1
      && PrintableInside(thn) && PrintableInside(els) && PrintableInside(rest)
  }

  // Nor does the list itself, which may have declared tmp already.
  predicate Printable(b: Block, here: bool) {
    ZeroingTests(b) + (if here then 1 else 0) <= 1 && PrintableInside(b)
  }

  function AsC(b: Block): CBlock
    requires WellFormed(b)
  {
    match b
    case Nil => CNil
    case Ret(i, rest) => CRet(i.c, AsC(rest))
    case IfThen(i, thn, _, rest) => Declared(i, CIf(Condition(i), AsC(thn), AsC(rest)))
    case IfElse(i, thn, _, els, _, rest) => Declared(i, CIfElse(Condition(i), AsC(thn), AsC(els), AsC(rest)))
  }

  function Declared(i: Instr, b: CBlock): CBlock {
    if Zeroing(i) then CDeclare(i.x, b) else b
  }

  // What tmp holds when the condition of a test is evaluated.
  function TmpAt(i: Instr, a: Input, tmp: F): F {
    if Zeroing(i) then NanToZero(a(i.x)) else tmp
  }

  // A printed condition holds exactly when the test does.
  lemma ConditionHolds(i: Instr, a: Input, tmp: F)
    requires KindOf(i) == Test
    ensures EvalE(Condition(i), a, TmpAt(i, a, tmp)) <==> Holds(i, a(i.x))
  {
    var isNan, le, t := IsNanE(Element(i.x)), LeE(Element(i.x), i.c), TmpAt(i, a, tmp);
    assert EvalE(Not(isNan), a, t) <==> !EvalE(isNan, a, t);
    assert EvalE(Or(isNan, le), a, t) <==> EvalE(isNan, a, t) || EvalE(le, a, t);
    assert EvalE(And(Not(isNan), le), a, t) <==> EvalE(Not(isNan), a, t) && EvalE(le, a, t);
    assert EvalE(PlainCondition(i), a, t) <==> Passes(i.op, i.c, a(i.x));
  }

  // It is C exactly when its constant is and tmp is visible where it is needed.
  lemma ConditionIsC(i: Instr, visible: bool)
    requires KindOf(i) == Test
    ensures IsC(Condition(i), visible) <==> !PrintsNan(i) && (Zeroing(i) ==> visible)
  {
    var isNan, le := IsNanE(Element(i.x)), LeE(Element(i.x), i.c);
    assert IsC(isNan, visible);
    assert IsC(Not(isNan), visible) <==> IsC(isNan, visible);
    assert IsC(Or(isNan, le), visible) <==> IsC(isNan, visible) && IsC(le, visible);
    assert IsC(And(Not(isNan), le), visible) <==> IsC(Not(isNan), visible) && IsC(le, visible);
    assert IsC(PlainCondition(i), visible) <==> !PrintsNan(i) && (Zeroing(i) ==> visible);
  }

  // The C block returns what the block returns, whatever tmp held before.
  lemma {:induction false} CMeansBlock(b: Block, a: Input, tmp: F)
    requires WellFormed(b)
    ensures EvalC(AsC(b), a, tmp) == Exec(b, a)
  {
    match b
    case Nil =>
    case Ret(_, _) =>
    case IfThen(i, thn, _, rest) =>
      ConditionHolds(i, a, tmp);
      CMeansBlock(thn, a, TmpAt(i, a, tmp));
      CMeansBlock(rest, a, TmpAt(i, a, tmp));
    case IfElse(i, thn, _, els, _, rest) =>
      ConditionHolds(i, a, tmp);
      CMeansBlock(thn, a, TmpAt(i, a, tmp));
      CMeansBlock(els, a, TmpAt(i, a, tmp));
      CMeansBlock(rest, a, TmpAt(i, a, tmp));
  }

  // The lines of a block at a depth, before the lines `rest`.
  function Printed(b: Block, depth: nat, rest: seq<Line>): seq<Line>
    requires WellFormed(b)
  {
    match b
    case Nil => rest
    case Ret(i, next) => [Plain(depth, ReturnText(i.c))] + Printed(next, depth, rest)
    case IfThen(i, thn, _, next) =>
      [TestLine(i, depth)] + Printed(thn, depth + 1, [Plain(depth, CloseText)] + Printed(next, depth, rest))
    case IfElse(i, thn, _, els, _, next) =>
      [TestLine(i, depth)] +
      Printed(thn, depth + 1,
              [Plain(depth, ElseText)] +
              Printed(els, depth + 1, [Plain(depth, CloseText)] + Printed(next, depth, rest)))
  }

  lemma EmitOne(i: Instr, rest: seq<Instr>, indent: int)
    ensures Print(i, indent).Ok? ==>
              Emit([i] + rest, indent) == Cons(Print(i, indent).value.0, Emit(rest, Print(i, indent).value.1))
  {
    Prefixed(i, rest);
  }

  lemma {:induction false} EmitBlock(b: Block, rest: seq<Instr>, depth: nat, ls: seq<Line>)
    requires WellFormed(b) && Emit(rest, depth) == Ok(ls)
    ensures Emit(Lines(b, rest), depth) == Ok(Printed(b, depth, ls))
  {
    match b
    case Nil =>
    case Ret(i, next) =>
      EmitBlock(next, rest, depth, ls);
      EmitOne(i, Lines(next, rest), depth);
    case IfThen(i, thn, end, next) =>
      EmitBlock(next, rest, depth, ls);
      var tail := Printed(next, depth, ls);
      EmitOne(end, Lines(next, rest), depth + 1);
      EmitBlock(thn, [end] + Lines(next, rest), depth + 1, [Plain(depth, CloseText)] + tail);
      EmitOne(i, Lines(thn, [end] + Lines(next, rest)), depth);
    case IfElse(i, thn, sep, els, end, next) =>
      EmitBlock(next, rest, depth, ls);
      var tail := Printed(next, depth, ls);
      EmitOne(end, Lines(next, rest), depth + 1);
      EmitBlock(els, [end] + Lines(next, rest), depth + 1, [Plain(depth, CloseText)] + tail);
      var mid := Printed(els, depth + 1, [Plain(depth, CloseText)] + tail);
      var code := Lines(els, [end] + Lines(next, rest));
      EmitOne(sep, code, depth + 1);
      EmitBlock(thn, [sep] + code, depth + 1, [Plain(depth, ElseText)] + mid);
      EmitOne(i, Lines(thn, [sep] + code), depth);
  }

  lemma TextsOne(l: Line, rest: seq<Line>)
    ensures Texts([l] + rest) == Items(l) + Texts(rest)
  {
    assert ([l] + rest)[1..] == rest;
  }

  lemma TextsPlain(depth: nat, t: Text, rest: seq<Line>)
    ensures Texts([Plain(depth, t)] + rest) == [t] + Texts(rest)
  {
    TextsOne(Plain(depth, t), rest);
    assert Items(Plain(depth, t)) == [t];
  }

  // ---------- the reader on one statement ----------

  lemma ParseReturn(c: F, ts: seq<Text>, here: bool, visible: bool)
    ensures ParseBlock([ReturnText(c)] + ts, here, visible) ==
            if c.NaN? || ParseBlock(ts, here, visible).Failed? then Failed
            else Parsed(CRet(c, ParseBlock(ts, here, visible).block), ParseBlock(ts, here, visible).rest)
  {
    assert ([ReturnText(c)] + ts)[1..] == ts;
  }

  lemma ParseDeclare(x: int, ts: seq<Text>, here: bool, visible: bool)
    ensures ParseBlock([Declare(x)] + ts, here, visible) ==
            if here || ParseBlock(ts, true, true).Failed? then Failed
            else Parsed(CDeclare(x, ParseBlock(ts, true, true).block), ParseBlock(ts, true, true).rest)
  {
    assert ([Declare(x)] + ts)[1..] == ts;
  }

  lemma ParseIf(e: Expr, ts: seq<Text>, thn: CBlock, r1: seq<Text>, here: bool, visible: bool)
    requires IsC(e, visible) && ParseBlock(ts, false, visible) == Parsed(thn, [CloseText] + r1)
    ensures var p := ParseBlock(r1, here, visible);
            ParseBlock([IfOpen(e)] + ts, here, visible) ==
            if p.Failed? then Failed else Parsed(CIf(e, thn, p.block), p.rest)
  {
    var all, mid := [IfOpen(e)] + ts, [CloseText] + r1;
    assert all[0] == IfOpen(e) && all[1..] == ts;
    assert mid[0] == CloseText && mid[1..] == r1;
  }

  lemma ParseIfElse(e: Expr, ts: seq<Text>, thn: CBlock, r1: seq<Text>, els: CBlock, r2: seq<Text>,
                    here: bool, visible: bool)
    requires IsC(e, visible) && ParseBlock(ts, false, visible) == Parsed(thn, [ElseText] + r1)
    requires ParseBlock(r1, false, visible) == Parsed(els, [CloseText] + r2)
    ensures var p := ParseBlock(r2, here, visible);
            ParseBlock([IfOpen(e)] + ts, here, visible) ==
            if p.Failed? then Failed else Parsed(CIfElse(e, thn, els, p.block), p.rest)
  {
    var all, mid, last := [IfOpen(e)] + ts, [ElseText] + r1, [CloseText] + r2;
    assert all[0] == IfOpen(e) && all[1..] == ts;
    assert mid[0] == ElseText && mid[1..] == r1;
    assert last[0] == CloseText && last[1..] == r2;
  }

  lemma ParseIfFails(e: Expr, ts: seq<Text>, here: bool, visible: bool)
    requires !IsC(e, visible) || ParseBlock(ts, false, visible).Failed?
    ensures ParseBlock([IfOpen(e)] + ts, here, visible).Failed?
  {
    assert ([IfOpen(e)] + ts)[1..] == ts;
  }

  lemma ParseElseFails(e: Expr, ts: seq<Text>, thn: CBlock, r1: seq<Text>, here: bool, visible: bool)
    requires ParseBlock(ts, false, visible) == Parsed(thn, [ElseText] + r1) && ParseBlock(r1, false, visible).Failed?
    ensures ParseBlock([IfOpen(e)] + ts, here, visible).Failed?
  {
    var all, mid := [IfOpen(e)] + ts, [ElseText] + r1;
    assert all[0] == IfOpen(e) && all[1..] == ts;
    assert mid[0] == ElseText && mid[1..] == r1;
  }

  // ---------- printed blocks read back exactly when they are printable ----------

  // What follows a block ends it.
  ghost predicate EndsBlock(rest: seq<Line>) {
    rest == [] || (rest[0].declared == None && (rest[0].text == CloseText || rest[0].text == ElseText))
  }

  function Reading(b: Block, rest: seq<Text>, here: bool): Parsed
    requires WellFormed(b)
  {
    if Printable(b, here) then Parsed(AsC(b), rest) else Failed
  }

  // A line's declaration is read first.
  lemma TestReads(i: Instr, depth: nat, ts: seq<Text>, here: bool, visible: bool)
    requires KindOf(i) == Test
    ensures var p := ParseBlock([IfOpen(Condition(i))] + ts, here || Zeroing(i), visible || Zeroing(i));
            ParseBlock(Items(TestLine(i, depth)) + ts, here, visible) ==
            if (here && Zeroing(i)) || p.Failed? then Failed else Parsed(Declared(i, p.block), p.rest)
  {
    var open := [IfOpen(Condition(i))];
    if Zeroing(i) {
      assert Items(TestLine(i, depth)) + ts == [Declare(i.x)] + (open + ts);
      ParseDeclare(i.x, open + ts, here, visible);
    } else {
      assert Items(TestLine(i, depth)) == open;
    }
  }

  lemma IfThenReads(i: Instr, ts: seq<Text>, thn: Block, t1: seq<Text>, next: Block, t2: seq<Text>,
                    here: bool, visible: bool)
    requires KindOf(i) == Test && (Zeroing(i) ==> visible) && WellFormed(thn) && WellFormed(next)
    requires ParseBlock(ts, false, visible) == Reading(thn, [CloseText] + t1, false)
    requires ParseBlock(t1, here, visible) == Reading(next, t2, here)
    ensures ParseBlock([IfOpen(Condition(i))] + ts, here, visible) ==
            if !PrintsNan(i) && Printable(thn, false) && Printable(next, here)
            then Parsed(CIf(Condition(i), AsC(thn), AsC(next)), t2) else Failed
  {
    ConditionIsC(i, visible);
    if !PrintsNan(i) && Printable(thn, false) {
      ParseIf(Condition(i), ts, AsC(thn), t1, here, visible);
    } else {
      ParseIfFails(Condition(i), ts, here, visible);
    }
  }

  lemma IfElseReads(i: Instr, ts: seq<Text>, thn: Block, t1: seq<Text>, els: Block, t2: seq<Text>,
                    next: Block, t3: seq<Text>, here: bool, visible: bool)
    requires KindOf(i) == Test && (Zeroing(i) ==> visible) && WellFormed(thn) && WellFormed(els) && WellFormed(next)
    requires ParseBlock(ts, false, visible) == Reading(thn, [ElseText] + t1, false)
    requires ParseBlock(t1, false, visible) == Reading(els, [CloseText] + t2, false)
    requires ParseBlock(t2, here, visible) == Reading(next, t3, here)
    ensures ParseBlock([IfOpen(Condition(i))] + ts, here, visible) ==
            if !PrintsNan(i) && Printable(thn, false) && Printable(els, false) && Printable(next, here)
            then Parsed(CIfElse(Condition(i), AsC(thn), AsC(els), AsC(next)), t3) else Failed
  {
    var e := Condition(i);
    ConditionIsC(i, visible);
    if PrintsNan(i) || !Printable(thn, false) {
      ParseIfFails(e, ts, here, visible);
    } else if !Printable(els, false) {
      ParseElseFails(e, ts, AsC(thn), t1, here, visible);
    } else {
      ParseIfElse(e, ts, AsC(thn), t1, AsC(els), t2, here, visible);
    }
  }

  ghost predicate ReadsBack(b: Block, ls: seq<Line>, rest: seq<Text>, here: bool, visible: bool)
    requires WellFormed(b)
  {
    ParseBlock(Texts(ls), here, visible) == Reading(b, rest, here)
  }

  lemma IfThenPrinted(b: Block, depth: nat, body: seq<Line>, t1: seq<Text>, t2: seq<Text>, here: bool, visible: bool)
    requires WellFormed(b) && b.IfThen? && (here ==> visible)
    requires ReadsBack(b.thn, body, [CloseText] + t1, false, visible || Zeroing(b.test))
    requires ParseBlock(t1, here || Zeroing(b.test), visible || Zeroing(b.test)) ==
             Reading(b.rest, t2, here || Zeroing(b.test))
    ensures ReadsBack(b, [TestLine(b.test, depth)] + body, t2, here, visible)
  {
    var h, v := here || Zeroing(b.test), visible || Zeroing(b.test);
    IfThenReads(b.test, Texts(body), b.thn, t1, b.rest, t2, h, v);
    TextsOne(TestLine(b.test, depth), body);
    TestReads(b.test, depth, Texts(body), here, visible);
  }

  lemma IfElsePrinted(b: Block, depth: nat, body: seq<Line>, mid: seq<Line>, tail: seq<Line>, t3: seq<Text>,
                      here: bool, visible: bool)
    requires WellFormed(b) && b.IfElse? && (here ==> visible)
    requires ReadsBack(b.thn, body, [ElseText] + Texts(mid), false, visible || Zeroing(b.test))
    requires ReadsBack(b.els, mid, [CloseText] + Texts(tail), false, visible || Zeroing(b.test))
    requires ReadsBack(b.rest, tail, t3, here || Zeroing(b.test), visible || Zeroing(b.test))
    ensures ReadsBack(b, [TestLine(b.test, depth)] + body, t3, here, visible)
  {
    var h, v := here || Zeroing(b.test), visible || Zeroing(b.test);
    IfElseReads(b.test, Texts(body), b.thn, Texts(mid), b.els, Texts(tail), b.rest, t3, h, v);
    TextsOne(TestLine(b.test, depth), body);
    TestReads(b.test, depth, Texts(body), here, visible);
  }

  // The lines of a block read back as its tree exactly when it is printable, and
  // otherwise not at all.
  lemma {:induction false} ParsePrinted(b: Block, depth: nat, rest: seq<Line>, here: bool, visible: bool)
    requires WellFormed(b) && EndsBlock(rest) && (here ==> visible)
    ensures ReadsBack(b, Printed(b, depth, rest), Texts(rest), here, visible)
  {
    match b
    case Nil =>
    case Ret(i, next) =>
      ParsePrinted(next, depth, rest, here, visible);
      TextsPlain(depth, ReturnText(i.c), Printed(next, depth, rest));
      ParseReturn(i.c, Texts(Printed(next, depth, rest)), here, visible);
    case IfThen(i, thn, _, next) =>
      var h, v := here || Zeroing(i), visible || Zeroing(i);
      var tail := Printed(next, depth, rest);
      var after := [Plain(depth, CloseText)] + tail;
      ParsePrinted(next, depth, rest, h, v);
      ParsePrinted(thn, depth + 1, after, false, v);
      TextsPlain(depth, CloseText, tail);
      IfThenPrinted(b, depth, Printed(thn, depth + 1, after), Texts(tail), Texts(rest), here, visible);
    case IfElse(i, thn, _, els, _, next) =>
      var h, v := here || Zeroing(i), visible || Zeroing(i);
      var tail := Printed(next, depth, rest);
      var after := [Plain(depth, CloseText)] + tail;
      var mid := Printed(els, depth + 1, after);
      var between := [Plain(depth, ElseText)] + mid;
      ParsePrinted(next, depth, rest, h, v);
      ParsePrinted(els, depth + 1, after, false, v);
      ParsePrinted(thn, depth + 1, between, false, v);
      TextsPlain(depth, CloseText, tail);
      TextsPlain(depth, ElseText, mid);
      IfElsePrinted(b, depth, Printed(thn, depth + 1, between), mid, tail, Texts(rest), here, visible);
  }

  lemma BalancedOne(l: Line, rest: seq<Line>, depth: nat)
    ensures l.text.IfOpen? && l.indent == depth && Balanced(rest, depth + 1) ==> Balanced([l] + rest, depth)
    ensures l.text.ReturnText? && l.indent == depth && Balanced(rest, depth) ==> Balanced([l] + rest, depth)
    ensures l.text.ElseText? && l.indent + 1 == depth && Balanced(rest, depth) ==> Balanced([l] + rest, depth)
    ensures l.text.CloseText? && l.indent + 1 == depth && Balanced(rest, depth - 1) ==> Balanced([l] + rest, depth)
    ensures l.text.FuncOpen? && l.indent == depth == 0 && Balanced(rest, 1) ==> Balanced([l] + rest, depth)
  {
    assert ([l] + rest)[0] == l && ([l] + rest)[1..] == rest;
  }

  lemma {:induction false} PrintedBalanced(b: Block, depth: nat, rest: seq<Line>)
    requires WellFormed(b) && Balanced(rest, depth)
    ensures Balanced(Printed(b, depth, rest), depth)
  {
    match b
    case Nil =>
    case Ret(i, next) =>
      PrintedBalanced(next, depth, rest);
      BalancedOne(Plain(depth, ReturnText(i.c)), Printed(next, depth, rest), depth);
    case IfThen(i, thn, _, next) =>
      var close, tail := Plain(depth, CloseText), Printed(next, depth, rest);
      PrintedBalanced(next, depth, rest);
      BalancedOne(close, tail, depth + 1);
      PrintedBalanced(thn, depth + 1, [close] + tail);
      BalancedOne(TestLine(i, depth), Printed(thn, depth + 1, [close] + tail), depth);
    case IfElse(i, thn, _, els, _, next) =>
      var close, sep, tail := Plain(depth, CloseText), Plain(depth, ElseText), Printed(next, depth, rest);
      var mid := Printed(els, depth + 1, [close] + tail);
      PrintedBalanced(next, depth, rest);
      BalancedOne(close, tail, depth + 1);
      PrintedBalanced(els, depth + 1, [close] + tail);
      BalancedOne(sep, mid, depth + 1);
      PrintedBalanced(thn, depth + 1, [sep] + mid);
      BalancedOne(TestLine(i, depth), Printed(thn, depth + 1, [sep] + mid), depth);
  }

  lemma FirstLine(l: Line, x: seq<Line>, y: seq<Line>)
    ensures [l] + x + y == [l] + (x + y)
  {
  }

  lemma {:induction false} PrintedAppend(b: Block, depth: nat, x: seq<Line>, y: seq<Line>)
    requires WellFormed(b)
    ensures Printed(b, depth, x + y) == Printed(b, depth, x) + y
  {
    match b
    case Nil =>
    case Ret(i, next) =>
      PrintedAppend(next, depth, x, y);
      FirstLine(Plain(depth, ReturnText(i.c)), Printed(next, depth, x), y);
    case IfThen(i, thn, _, next) =>
      var close, tail := Plain(depth, CloseText), Printed(next, depth, x);
      PrintedAppend(next, depth, x, y);
      FirstLine(close, tail, y);
      PrintedAppend(thn, depth + 1, [close] + tail, y);
      FirstLine(TestLine(i, depth), Printed(thn, depth + 1, [close] + tail), y);
    case IfElse(i, thn, _, els, _, next) =>
      var close, sep, tail := Plain(depth, CloseText), Plain(depth, ElseText), Printed(next, depth, x);
      var mid := Printed(els, depth + 1, [close] + tail);
      PrintedAppend(next, depth, x, y);
      FirstLine(close, tail, y);
      PrintedAppend(els, depth + 1, [close] + tail, y);
      FirstLine(sep, mid, y);
      PrintedAppend(thn, depth + 1, [sep] + mid, y);
      FirstLine(TestLine(i, depth), Printed(thn, depth + 1, [sep] + mid), y);
  }

  // ---------- whole programs ----------

  datatype Proc = Proc(name: int, block: Block)

  const ENDPROC := Instr(EndProc, -1, NaN, -1)

  function DefOf(name: int): Instr {
    Instr(DefProc, name, NaN, -1)
  }

  function ProcLines(ps: seq<Proc>): seq<Instr> {
    if ps == [] then []
    else [DefOf(ps[0].name)] + Lines(ps[0].block, [ENDPROC] + ProcLines(ps[1..]))
  }

  ghost predicate AllWellFormed(ps: seq<Proc>) {
    forall k :: 0 <= k < |ps| ==> WellFormed(ps[k].block)
  }

  function Names(ps: seq<Proc>): (r: seq<int>)
    ensures |r| == |ps| && forall k :: 0 <= k < |r| ==> r[k] == ps[k].name
  {
    if ps == [] then [] else [ps[0].name] + Names(ps[1..])
  }

  function Functions(ps: seq<Proc>): (fs: seq<Function>)
    requires AllWellFormed(ps)
    ensures |fs| == |ps| && forall k :: 0 <= k < |fs| ==> fs[k] == Function(ps[k].name, AsC(ps[k].block))
  {
    if ps == [] then [] else [Function(ps[0].name, AsC(ps[0].block))] + Functions(ps[1..])
  }

  // Every block is printable, and every name is new and not negative.
  predicate PrintableProcs(ps: seq<Proc>, names: set<int>) {
    ps == [] ||
    (ps[0].name >= 0 && ps[0].name !in names && Printable(ps[0].block, false) &&
     PrintableProcs(ps[1..], names + {ps[0].name}))
  }

  function NameSet(ps: seq<Proc>): set<int> {
    if ps == [] then {} else {ps[0].name} + NameSet(ps[1..])
  }

  // There is something to sum, and only functions are called.
  predicate Callable(calls: seq<int>, names: set<int>) {
    calls != [] && forall c :: c in calls ==> c in names
  }

  lemma {:induction false} TreesOfBlock(b: Block, rest: seq<Instr>)
    requires WellFormed(b)
    ensures Trees(Lines(b, rest)) == Trees(rest)
  {
    match b
    case Nil =>
    case Ret(i, next) =>
      TreesOfBlock(next, rest);
      TreesSkip(i, Lines(next, rest));
    case IfThen(i, thn, end, next) =>
      TreesOfBlock(next, rest);
      TreesSkip(end, Lines(next, rest));
      TreesOfBlock(thn, [end] + Lines(next, rest));
      TreesSkip(i, Lines(thn, [end] + Lines(next, rest)));
    case IfElse(i, thn, sep, els, end, next) =>
      TreesOfBlock(next, rest);
      TreesSkip(end, Lines(next, rest));
      TreesOfBlock(els, [end] + Lines(next, rest));
      var mid := Lines(els, [end] + Lines(next, rest));
      TreesSkip(sep, mid);
      TreesOfBlock(thn, [sep] + mid);
      TreesSkip(i, Lines(thn, [sep] + mid));
  }

  lemma TreesSkip(i: Instr, rest: seq<Instr>)
    requires KindOf(i) != Outer
    ensures Trees([i] + rest) == Trees(rest)
  {
    TreesOne(i, rest);
    assert [] + Trees(rest) == Trees(rest);
  }

  lemma TreesOne(i: Instr, rest: seq<Instr>)
    ensures Trees([i] + rest) == (if i.op == DefProc then [i.x] else []) + Trees(rest)
  {
    Prefixed(i, rest);
  }

  lemma {:induction false} TreesOfProcs(ps: seq<Proc>)
    requires AllWellFormed(ps)
    ensures Trees(ProcLines(ps)) == Names(ps)
  {
    if ps != [] {
      var tail := [ENDPROC] + ProcLines(ps[1..]);
      TreesOfProcs(ps[1..]);
      TreesOne(ENDPROC, ProcLines(ps[1..]));
      assert [] + Trees(ProcLines(ps[1..])) == Trees(ProcLines(ps[1..]));
      TreesOfBlock(ps[0].block, tail);
      TreesOne(DefOf(ps[0].name), Lines(ps[0].block, tail));
    }
  }

  // What a printed program with these calls reads as.
  function ReadingOf(ps: seq<Proc>, calls: seq<int>, names: set<int>): Program
    requires AllWellFormed(ps)
  {
    if PrintableProcs(ps, names) && Callable(calls, names + NameSet(ps)) then Program(Functions(ps), calls) else Unparsed
  }

  lemma EmitProc(name: int, b: Block, rest: seq<Instr>, more: seq<Line>)
    requires WellFormed(b) && Emit(rest, 0) == Ok(more)
    ensures Emit([DefOf(name)] + Lines(b, [ENDPROC] + rest), 0) ==
            Ok([Plain(0, FuncOpen(name))] + Printed(b, 1, [Plain(0, CloseText)] + more))
  {
    EmitOne(ENDPROC, rest, 1);
    EmitBlock(b, [ENDPROC] + rest, 1, [Plain(0, CloseText)] + more);
    EmitOne(DefOf(name), Lines(b, [ENDPROC] + rest), 0);
  }

  lemma ProcBalanced(name: int, b: Block, more: seq<Line>)
    requires WellFormed(b) && Balanced(more, 0)
    ensures Balanced([Plain(0, FuncOpen(name))] + Printed(b, 1, [Plain(0, CloseText)] + more), 0)
  {
    var close := Plain(0, CloseText);
    BalancedOne(close, more, 1);
    PrintedBalanced(b, 1, [close] + more);
    BalancedOne(Plain(0, FuncOpen(name)), Printed(b, 1, [close] + more), 0);
  }

  lemma ParseFunction(name: int, ts: seq<Text>, names: set<int>, p: Parsed, rest: seq<Text>)
    requires ParseBlock(ts, false, false) == p && (p.Parsed? ==> p.rest == [CloseText] + rest)
    ensures var q := ParseProgram(rest, names + {name});
            ParseProgram([FuncOpen(name)] + ts, names) ==
            if name < 0 || name in names || p.Failed? || q.Unparsed? then Unparsed
            else Program([Function(name, p.block)] + q.functions, q.calls)
  {
    var all := [FuncOpen(name)] + ts;
    assert all[0] == FuncOpen(name) && all[1..] == ts && ([CloseText] + rest)[1..] == rest;
  }

  lemma ReadProc(name: int, b: Block, more: seq<Line>, names: set<int>)
    requires WellFormed(b)
    ensures var all := [Plain(0, FuncOpen(name))] + Printed(b, 1, [Plain(0, CloseText)] + more);
            var q := ParseProgram(Texts(more), names + {name});
            ParseProgram(Texts(all), names) ==
            if name < 0 || name in names || !Printable(b, false) || q.Unparsed? then Unparsed
            else Program([Function(name, AsC(b))] + q.functions, q.calls)
  {
    var close, open := Plain(0, CloseText), Plain(0, FuncOpen(name));
    var body := Printed(b, 1, [close] + more);
    ParsePrinted(b, 1, [close] + more, false, false);
    TextsPlain(0, CloseText, more);
    TextsPlain(0, FuncOpen(name), body);
    ParseFunction(name, Texts(body), names, Reading(b, Texts([close] + more), false), Texts(more));
  }

  lemma ReadSum(calls: seq<int>, names: set<int>)
    ensures var sum := [Plain(0, SumText(calls))];
            Balanced(sum, 0) &&
            ParseProgram(Texts(sum), names) == if Callable(calls, names) then Program([], calls) else Unparsed
  {
    var sum := [Plain(0, SumText(calls))];
    assert sum[1..] == [] && Texts(sum) == [SumText(calls)];
  }

  // Programs of well-formed blocks are printed with every brace balanced and every
  // line indented to its depth.  They read back as one C function per tree exactly
  // when the blocks are printable and the calls are good, and otherwise not at all.
  lemma {:induction false} EmitProcs(ps: seq<Proc>, calls: seq<int>, names: set<int>) returns (ls: seq<Line>)
    requires AllWellFormed(ps)
    ensures Emit(ProcLines(ps), 0) == Ok(ls)
    ensures var all := ls + [Plain(0, SumText(calls))];
            Balanced(all, 0) && ParseProgram(Texts(all), names) == ReadingOf(ps, calls, names)
  {
    var sum := [Plain(0, SumText(calls))];
    if ps == [] {
      ls := [];
      assert ls + sum == sum && names + NameSet(ps) == names;
      ReadSum(calls, names);
    } else {
      var b, name := ps[0].block, ps[0].name;
      var more := EmitProcs(ps[1..], calls, names + {name});
      EmitProc(name, b, ProcLines(ps[1..]), more);
      ls := [Plain(0, FuncOpen(name))] + Printed(b, 1, [Plain(0, CloseText)] + more);
      SumAppended(name, b, more, sum);
      ProcBalanced(name, b, more + sum);
      ReadProc(name, b, more + sum, names);
      assert names + NameSet(ps) == names + {name} + NameSet(ps[1..]);
    }
  }

  lemma SumAppended(name: int, b: Block, more: seq<Line>, sum: seq<Line>)
    requires WellFormed(b)
    ensures [Plain(0, FuncOpen(name))] + Printed(b, 1, [Plain(0, CloseText)] + more) + sum ==
            [Plain(0, FuncOpen(name))] + Printed(b, 1, [Plain(0, CloseText)] + (more + sum))
  {
    var close := [Plain(0, CloseText)];
    PrintedAppend(b, 1, close + more, sum);
    assert close + more + sum == close + (more + sum);
  }

  // The whole result of printing a program.
  lemma FinishIsFaithful(ps: seq<Proc>) returns (all: seq<Line>)
    requires AllWellFormed(ps)
    ensures Finished(ProcLines(ps)) == Ok(all) && Balanced(all, 0)
    ensures ParseProgram(Texts(all), {}) ==
            if ps != [] && PrintableProcs(ps, {}) then Program(Functions(ps), Reversed(Names(ps))) else Unparsed
  {
    var calls := Reversed(Names(ps));
    TreesOfProcs(ps);
    var ls := EmitProcs(ps, calls, {});
    all := ls + [Plain(0, SumText(calls))];
    NamesAreCallable(ps);
    assert {} + NameSet(ps) == NameSet(ps);
  }

  lemma {:induction false} NamesInSet(ps: seq<Proc>, x: int)
    ensures x in Names(ps) <==> x in NameSet(ps)
  {
    if ps != [] {
      NamesInSet(ps[1..], x);
      assert Names(ps) == [ps[0].name] + Names(ps[1..]);
    }
  }

  lemma NamesAreCallable(ps: seq<Proc>)
    ensures Callable(Reversed(Names(ps)), NameSet(ps)) <==> ps != []
  {
    forall c | c in Reversed(Names(ps))
      ensures c in NameSet(ps)
    {
      NamesInSet(ps, c);
    }
  }
}
