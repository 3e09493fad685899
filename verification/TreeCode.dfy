// Linear decision-tree code: what an instruction list means, for any list, and the
// nested blocks that well-nested lists spell out.
module TreeCode {

  // A double without rounding: the reals, the infinities and NaN.
  datatype F = NaN | NegInf | PosInf | Fin(v: real)

  // The C comparisons: false on NaN.
  predicate Le(a: F, b: F) {
    !a.NaN? && !b.NaN? && (a.NegInf? || b.PosInf? || (a.Fin? && b.Fin? && a.v <= b.v))
  }

  predicate Gt(a: F, b: F) {
    !a.NaN? && !b.NaN? && !Le(a, b)
  }

  function NanToZero(a: F): F {
    if a.NaN? then Fin(0.0) else a
  }

  datatype Op =
    | IfCmpLe | IfCmpGt | IfN0CmpLe | IfN0CmpGt | IfNan | IfNotNan | IfNanOrCmpLe | IfNotNanAndCmpLe
    | Else | EndIf | Return | DefProc | EndProc | Other

  // One line: operation, feature index, constant, and 1 for a negated test.
  datatype Instr = Instr(op: Op, x: int, c: F, s: int)

  datatype Kind = Test | Separator | End | Leaf | Outer

  function KindOf(i: Instr): Kind {
    match i.op
    case Else => Separator
    case EndIf => End
    case Return => Leaf
    case DefProc => Outer
    case EndProc => Outer
    case Other => Outer
    case _ => Test
  }

  // Whether a test holds of the value v of its feature.
  predicate Holds(i: Instr, v: F) {
    Passes(i.op, i.c, v) != (i.s == 1)
  }

  predicate Passes(op: Op, c: F, v: F) {
    match op
    case IfCmpLe => Le(v, c)
    case IfCmpGt => Gt(v, c)
    case IfN0CmpLe => Le(NanToZero(v), c)
    case IfN0CmpGt => Gt(NanToZero(v), c)
    case IfNan => v.NaN?
    case IfNotNan => !v.NaN?
    case IfNanOrCmpLe => v.NaN? || Le(v, c)
    case IfNotNanAndCmpLe => !v.NaN? && Le(v, c)
    case _ => false
  }

  type Input = int -> F

  // ---------- running any list ----------

  datatype Outcome = Returned(value: F) | NoReturn

  // The code after the line that ends the branch: the matching else, when one may
  // end it, or the matching endif.
  function Skip(code: seq<Instr>, depth: nat, atElse: bool): (r: seq<Instr>)
    ensures |r| <= |code|
    decreases |code|
  {
    if code == [] then []
    else
      match KindOf(code[0])
      case Test => Skip(code[1..], depth + 1, atElse)
      case End => if depth == 0 then code[1..] else Skip(code[1..], depth - 1, atElse)
      case Separator => if depth == 0 && atElse then code[1..] else Skip(code[1..], depth, atElse)
      case _ => Skip(code[1..], depth, atElse)
  }

  function Run(code: seq<Instr>, a: Input): Outcome
    decreases |code|
  {
    if code == [] then NoReturn
    else
      var i, rest := code[0], code[1..];
      match KindOf(i)
      case Leaf => Returned(i.c)
      case Test => if Holds(i, a(i.x)) then Run(rest, a) else Run(Skip(rest, 0, true), a)
      case Separator => Run(Skip(rest, 0, false), a)
      case End => Run(rest, a)
      case Outer => NoReturn
  }

  // ---------- blocks ----------

  // The lines of a block, nested as they stand.
  datatype Block =
    | Nil
    | Ret(leaf: Instr, rest: Block)
    | IfThen(test: Instr, thn: Block, end: Instr, rest: Block)
    | IfElse(test: Instr, thn: Block, sep: Instr, els: Block, end: Instr, rest: Block)

  predicate WellFormed(b: Block) {
    match b
    case Nil => true
    case Ret(i, rest) => KindOf(i) == Leaf && WellFormed(rest)
    case IfThen(i, thn, end, rest) => KindOf(i) == Test && KindOf(end) == End && WellFormed(thn) && WellFormed(rest)
    case IfElse(i, thn, sep, els, end, rest) =>
      && KindOf(i) == Test && KindOf(sep) == Separator && KindOf(end) == End
      && WellFormed(thn) && WellFormed(els) && WellFormed(rest)
  }

  // The lines of a block followed by `rest`.
  function Lines(b: Block, rest: seq<Instr>): seq<Instr> {
    match b
    case Nil => rest
    case Ret(i, next) => [i] + Lines(next, rest)
    case IfThen(i, thn, end, next) => [i] + Lines(thn, [end] + Lines(next, rest))
    case IfElse(i, thn, sep, els, end, next) =>
      [i] + Lines(thn, [sep] + Lines(els, [end] + Lines(next, rest)))
  }

  ghost predicate WellNested(code: seq<Instr>) {
    exists b :: WellFormed(b) && Lines(b, []) == code
  }

  // What a block does: the leaf it returns, or NoReturn when it runs off its end.
  function Exec(b: Block, a: Input): Outcome {
    match b
    case Nil => NoReturn
    case Ret(i, _) => Returned(i.c)
    case IfThen(i, thn, _, rest) => Then(if Holds(i, a(i.x)) then Exec(thn, a) else NoReturn, Exec(rest, a))
    case IfElse(i, thn, _, els, _, rest) =>
      Then(if Holds(i, a(i.x)) then Exec(thn, a) else Exec(els, a), Exec(rest, a))
  }

  function Then(first: Outcome, second: Outcome): Outcome {
    if first.Returned? then first else second
  }

  lemma Prefixed(i: Instr, x: seq<Instr>)
    ensures ([i] + x)[0] == i && ([i] + x)[1..] == x
  {
  }

  lemma SkipOne(i: Instr, rest: seq<Instr>, depth: nat, atElse: bool)
    ensures KindOf(i) == Test ==> Skip([i] + rest, depth, atElse) == Skip(rest, depth + 1, atElse)
    ensures KindOf(i) == End && depth > 0 ==> Skip([i] + rest, depth, atElse) == Skip(rest, depth - 1, atElse)
    ensures KindOf(i) == Separator && depth > 0 ==> Skip([i] + rest, depth, atElse) == Skip(rest, depth, atElse)
    ensures KindOf(i) == Leaf ==> Skip([i] + rest, depth, atElse) == Skip(rest, depth, atElse)
    ensures KindOf(i) == End ==> Skip([i] + rest, 0, atElse) == rest
    ensures KindOf(i) == Separator && atElse ==> Skip([i] + rest, 0, atElse) == rest
  {
    Prefixed(i, rest);
  }

  // Skipping passes over a whole block.
  lemma {:induction false} SkipBlock(b: Block, rest: seq<Instr>, depth: nat, atElse: bool)
    requires WellFormed(b)
    ensures Skip(Lines(b, rest), depth, atElse) == Skip(rest, depth, atElse)
  {
    match b
    case Nil =>
    case Ret(i, next) =>
      SkipOne(i, Lines(next, rest), depth, atElse);
      SkipBlock(next, rest, depth, atElse);
    case IfThen(i, thn, end, next) =>
      var tail := Lines(next, rest);
      SkipOne(i, Lines(thn, [end] + tail), depth, atElse);
      SkipBlock(thn, [end] + tail, depth + 1, atElse);
      SkipOne(end, tail, depth + 1, atElse);
      SkipBlock(next, rest, depth, atElse);
    case IfElse(i, thn, sep, els, end, next) =>
      var tail := Lines(next, rest);
      var mid := Lines(els, [end] + tail);
      SkipOne(i, Lines(thn, [sep] + mid), depth, atElse);
      SkipBlock(thn, [sep] + mid, depth + 1, atElse);
      SkipOne(sep, mid, depth + 1, atElse);
      SkipBlock(els, [end] + tail, depth + 1, atElse);
      SkipOne(end, tail, depth + 1, atElse);
      SkipBlock(next, rest, depth, atElse);
  }

  // Running the lines of a block does what the block does.
  lemma {:induction false} RunBlock(b: Block, rest: seq<Instr>, a: Input)
    requires WellFormed(b)
    ensures Run(Lines(b, rest), a) == Then(Exec(b, a), Run(rest, a))
  {
    match b
    case Nil =>
    case Ret(i, next) =>
      Prefixed(i, Lines(next, rest));
    case IfThen(i, thn, end, next) =>
      var tail := Lines(next, rest);
      Prefixed(i, Lines(thn, [end] + tail));
      Prefixed(end, tail);
      RunBlock(next, rest, a);
      if Holds(i, a(i.x)) {
        RunBlock(thn, [end] + tail, a);
      } else {
        SkipBlock(thn, [end] + tail, 0, true);
      }
    case IfElse(i, thn, sep, els, end, next) =>
      var tail := Lines(next, rest);
      var mid := Lines(els, [end] + tail);
      Prefixed(i, Lines(thn, [sep] + mid));
      Prefixed(sep, mid);
      Prefixed(end, tail);
      RunBlock(next, rest, a);
      if Holds(i, a(i.x)) {
        RunBlock(thn, [sep] + mid, a);
        SkipBlock(els, [end] + tail, 0, false);
      } else {
        SkipBlock(thn, [sep] + mid, 0, true);
        RunBlock(els, [end] + tail, a);
      }
  }

  // The jumps of a well-nested list follow its blocks.
  lemma RunIsExec(b: Block, a: Input)
    requires WellFormed(b)
    ensures Run(Lines(b, []), a) == Exec(b, a)
  {
    RunBlock(b, [], a);
  }
}
