/** Parsing of decoded tokens in reverse Polish order, against an operand-stack machine. */
module ExprParse {
  import opened ExprTree

  // The sample format of an input clip.
  datatype Format = Format(integer: bool, bytesPerSample: nat)

  // The operators a decoded token can hold.
  predicate IsToken(op: Op) {
    match op.code
    case MemLoadU8 | Dup | Swap | Cmp => op.imm.U?
    case Constant => op.imm.F?
    case Fma | Neg | Mux => false
    case MemLoadU16 | MemLoadF16 | MemLoadF32 => false
    case c => !IsStore(c)
  }

  // A load is renamed after the format of its clip; a format of no known kind leaves it as it was.
  function TypedOp(op: Op, formats: seq<Format>): Op
    requires op.code.MemLoadU8? ==> op.imm.U? && op.imm.u < |formats|
  {
    if !op.code.MemLoadU8? then op
    else
      var f := formats[op.imm.u];
      if f.integer && f.bytesPerSample == 2 then op.(code := MemLoadU16)
      else if !f.integer && f.bytesPerSample == 2 then op.(code := MemLoadF16)
      else if !f.integer && f.bytesPerSample == 4 then op.(code := MemLoadF32)
      else op
  }

  // The last value exchanged with the one `depth` below it.
  function SwapTop<V>(stack: seq<V>, depth: nat): seq<V>
    requires depth < |stack|
  {
    var n := |stack|;
    stack[n - 1 := stack[n - 1 - depth]][n - 1 - depth := stack[n - 1]]
  }

  /** One token on an operand stack of values: `dup` copies, `swap` exchanges, an operator replaces its operands. */
  function StackStep<V>(sem: (Op, seq<V>) -> V, formats: seq<Format>, stack: seq<V>, op: Op): Result<seq<V>>
    requires IsToken(op)
  {
    var n := |stack|;
    var k := Operands(op.code);
    if op.code.MemLoadU8? && op.imm.u >= |formats| then Err(UndefinedClip)
    else if (op.code.Dup? || op.code.Swap?) && op.imm.u >= n then Err(InsufficientValues)
    else if n < k then Err(InsufficientValues)
    else if op.code.Dup? then Ok(stack + [stack[n - 1 - op.imm.u]])
    else if op.code.Swap? then Ok(SwapTop(stack, op.imm.u))
    else Ok(stack[..n - k] + [sem(TypedOp(op, formats), stack[n - k..])])
  }

  // What a token does to the stack

  /** A swap exchanges the last value with the one so far below it, and touches nothing else. */
  lemma SwapExchanges<V>(sem: (Op, seq<V>) -> V, formats: seq<Format>, stack: seq<V>, op: Op)
    requires IsToken(op) && op.code.Swap? && op.imm.u < |stack|
    ensures var r, top, deep := StackStep(sem, formats, stack, op), |stack| - 1, |stack| - 1 - op.imm.u;
            && r.Ok? && |r.value| == |stack| && r.value[top] == stack[deep] && r.value[deep] == stack[top]
            && forall i | 0 <= i < |stack| && i != top && i != deep :: r.value[i] == stack[i]
  {
  }

  /** The same swap twice changes nothing. */
  lemma SwapTwice<V>(sem: (Op, seq<V>) -> V, formats: seq<Format>, stack: seq<V>, op: Op)
    requires IsToken(op) && op.code.Swap? && op.imm.u < |stack|
    ensures var once := StackStep(sem, formats, stack, op);
            once.Ok? && StackStep(sem, formats, once.value, op) == Ok(stack)
  {
    var once := StackStep(sem, formats, stack, op).value;
    SwapExchanges(sem, formats, stack, op);
    SwapExchanges(sem, formats, once, op);
    assert StackStep(sem, formats, once, op).value == stack;
  }

  /** A dup puts a copy of the value so far below the last on top, and touches nothing else. */
  lemma DupCopies<V>(sem: (Op, seq<V>) -> V, formats: seq<Format>, stack: seq<V>, op: Op)
    requires IsToken(op) && op.code.Dup? && op.imm.u < |stack|
    ensures var r := StackStep(sem, formats, stack, op);
            && r.Ok? && |r.value| == |stack| + 1 && r.value[|stack|] == stack[|stack| - 1 - op.imm.u]
            && forall i | 0 <= i < |stack| :: r.value[i] == stack[i]
  {
  }

  /** Any other operator takes its operands off the top of the stack and leaves its value there. */
  lemma OperatorReplaces<V>(sem: (Op, seq<V>) -> V, formats: seq<Format>, below: seq<V>, args: seq<V>, op: Op)
    requires IsToken(op) && !op.code.Dup? && !op.code.Swap? && (op.code.MemLoadU8? ==> op.imm.u < |formats|)
    requires |args| == Operands(op.code)
    ensures StackStep(sem, formats, below + args, op) == Ok(below + [sem(TypedOp(op, formats), args)])
  {
    var stack := below + args;
    assert stack[..|below|] == below && stack[|below|..] == args;
  }

  // How many values must be on the stack.
  function Needed(op: Op): nat
    requires IsToken(op)
  {
    if op.code.Dup? || op.code.Swap? then op.imm.u + 1 else Operands(op.code)
  }

  /** A token fails for a clip that is not there, and otherwise exactly when the stack is too short. */
  lemma StepFailsIff<V>(sem: (Op, seq<V>) -> V, formats: seq<Format>, stack: seq<V>, op: Op)
    requires IsToken(op)
    ensures var r, missing := StackStep(sem, formats, stack, op), op.code.MemLoadU8? && op.imm.u >= |formats|;
            && (r == Err(UndefinedClip) <==> missing)
            && (r == Err(InsufficientValues) <==> !missing && |stack| < Needed(op))
            && (r.Ok? <==> !missing && Needed(op) <= |stack|)
  {
  }

  // The samples a load or a store is for.
  function SampleBytes(code: OpCode): nat {
    match code
    case MemLoadU8 | MemStoreU8 => 1
    case MemLoadU16 | MemLoadF16 | MemStoreU16 | MemStoreF16 => 2
    case MemLoadF32 | MemStoreF32 => 4
    case _ => 0
  }

  predicate IsIntegerSample(code: OpCode) {
    code.MemLoadU8? || code.MemLoadU16? || code.MemStoreU8? || code.MemStoreU16?
  }

  predicate IsKnown(f: Format) {
    if f.integer then f.bytesPerSample == 1 || f.bytesPerSample == 2 else f.bytesPerSample == 2 || f.bytesPerSample == 4
  }

  /** A load reads samples of its clip's format, at the same index; a clip of no known format is read as bytes. */
  lemma LoadIsOfFormat(op: Op, formats: seq<Format>)
    requires op.code.MemLoadU8? && op.imm.U? && op.imm.u < |formats|
    ensures var f, r := formats[op.imm.u], TypedOp(op, formats);
            && r.imm == op.imm && !IsStore(r.code) && SampleBytes(r.code) > 0
            && (IsKnown(f) ==> SampleBytes(r.code) == f.bytesPerSample && IsIntegerSample(r.code) == f.integer)
            && (!IsKnown(f) ==> r.code.MemLoadU8?)
  {
  }

  function StackRun<V>(sem: (Op, seq<V>) -> V, formats: seq<Format>, tokens: seq<Op>): Result<seq<V>>
    requires forall op <- tokens :: IsToken(op)
  {
    if tokens == [] then Ok([])
    else
      match StackRun(sem, formats, tokens[..|tokens| - 1])
      case Err(e) => Err(e)
      case Ok(stack) => StackStep(sem, formats, stack, tokens[|tokens| - 1])
  }

  /** The reference meaning of a token list: run it on an operand stack that must end with one value. */
  function StackProgram<V>(sem: (Op, seq<V>) -> V, formats: seq<Format>, tokens: seq<Op>): Result<V>
    requires forall op <- tokens :: IsToken(op)
  {
    match StackRun(sem, formats, tokens)
    case Err(e) => Err(e)
    case Ok(stack) =>
      if |stack| == 0 then Err(EmptyExpression)
      else if |stack| > 1 then Err(UnconsumedValues)
      else Ok(stack[0])
  }

  // The node the parser makes for an operator and its operand trees.
  function MakeNode(op: Op, args: seq<Tree>): Tree {
    match |args|
    case 0 => Node(op, -1, Nil, Nil)
    case 1 => Node(op, -1, args[0], Nil)
    case 2 => Node(op, -1, args[0], args[1])
    case _ => Node(op, -1, args[0], Node(Op(Mux, U(0)), -1, args[1], args[2]))
  }

  // The node for an operator over the last values of the stack.
  method ParseNode(op: Op, args: seq<Tree>) returns (node: Tree)
    requires |args| <= 3
    ensures node == MakeNode(op, args)
  {
    node := Node(op, -1, Nil, Nil);
    if |args| == 1 {
      node := node.(left := args[0]);
    } else if |args| == 2 {
      node := node.(left := args[0], right := args[1]);
    } else if |args| == 3 {
      var mux := Node(Op(Mux, U(0)), -1, args[1], args[2]);
      node := node.(left := args[0], right := mux);
    }
  }

  // One token: the checks, then the change it makes to the stack of trees.
  method ParseToken(op: Op, formats: seq<Format>, stack: seq<Tree>) returns (r: Result<seq<Tree>>)
    requires IsToken(op)
    ensures r == StackStep(MakeNode, formats, stack, op)
  {
    if op.code.MemLoadU8? && op.imm.u >= |formats| {
      return Err(UndefinedClip);
    }
    if (op.code.Dup? || op.code.Swap?) && op.imm.u >= |stack| {
      return Err(InsufficientValues);
    }
    if |stack| < Operands(op.code) {
      return Err(InsufficientValues);
    }
    var typed := TypedOp(op, formats);
    var n := |stack|;
    if op.code.Dup? {
      return Ok(stack + [stack[n - 1 - op.imm.u]]);
    }
    if op.code.Swap? {
      return Ok(SwapTop(stack, op.imm.u));
    }
    var operands := Operands(op.code);
    var node := ParseNode(typed, stack[n - operands..]);
    return Ok(stack[..n - operands] + [node]);
  }

  /** The parser: a stack of trees, driven token by token. */
  method ParseExpr(tokens: seq<Op>, formats: seq<Format>) returns (r: Result<Tree>)
    requires forall op <- tokens :: IsToken(op)
    ensures r == StackProgram(MakeNode, formats, tokens)
  {
    var stack: seq<Tree> := [];
    for i := 0 to |tokens|
      invariant StackRun(MakeNode, formats, tokens[..i]) == Ok(stack)
    {
      assert tokens[..i + 1][..i] == tokens[..i];
      assert tokens[i] in tokens;
      var step := ParseToken(tokens[i], formats, stack);
      if step.Err? {
        StackErrorStays(MakeNode, formats, tokens, i + 1);
        return Err(step.error);
      }
      stack := step.value;
    }
    assert tokens[..|tokens|] == tokens;
    if |stack| == 0 {
      return Err(EmptyExpression);
    }
    if |stack| > 1 {
      return Err(UnconsumedValues);
    }
    r := Ok(stack[0]);
  }

  // An error met on a prefix is the error of the whole list.
  lemma {:induction false} StackErrorStays<V>(sem: (Op, seq<V>) -> V, formats: seq<Format>, tokens: seq<Op>, i: nat)
    requires forall op <- tokens :: IsToken(op)
    requires i <= |tokens| && StackRun(sem, formats, tokens[..i]).Err?
    ensures StackRun(sem, formats, tokens) == StackRun(sem, formats, tokens[..i])
  {
    if i == |tokens| {
      assert tokens[..i] == tokens;
    } else {
      var front := tokens[..|tokens| - 1];
      assert front[..i] == tokens[..i];
      StackErrorStays(sem, formats, front, i);
    }
  }

  // A stack of values is what a stack of well-formed trees evaluates to.
  ghost predicate StackMatches<V>(sem: (Op, seq<V>) -> V, trees: seq<Tree>, values: seq<V>) {
    && |trees| == |values|
    && forall i | 0 <= i < |trees| :: WellFormed(trees[i]) && Eval(sem, trees[i]) == values[i]
  }

  lemma StepMatches<V>(sem: (Op, seq<V>) -> V, formats: seq<Format>, trees: seq<Tree>, values: seq<V>, op: Op)
    requires IsToken(op) && StackMatches(sem, trees, values)
    ensures var p, v := StackStep(MakeNode, formats, trees, op), StackStep(sem, formats, values, op);
            (p.Err? && v == Err(p.error)) || (p.Ok? && v.Ok? && StackMatches(sem, p.value, v.value))
  {
    var n, k := |trees|, Operands(op.code);
    var p := StackStep(MakeNode, formats, trees, op);
    if p.Ok? && !op.code.Dup? && !op.code.Swap? {
      NodeMatches(sem, TypedOp(op, formats), trees[n - k..], values[n - k..]);
    }
  }

  lemma NodeMatches<V>(sem: (Op, seq<V>) -> V, op: Op, args: seq<Tree>, vals: seq<V>)
    requires StackMatches(sem, args, vals) && IsValueOp(op.code) && |args| == Operands(op.code)
    ensures WellFormed(MakeNode(op, args)) && Eval(sem, MakeNode(op, args)) == sem(op, vals)
  {
    if |args| == 0 { assert vals == []; }
    if |args| == 1 { assert vals == [Eval(sem, args[0])]; }
    if |args| == 2 { assert vals == [Eval(sem, args[0]), Eval(sem, args[1])]; }
    if |args| == 3 { assert vals == [Eval(sem, args[0]), Eval(sem, args[1]), Eval(sem, args[2])]; }
  }

  lemma {:induction false} RunMatches<V>(sem: (Op, seq<V>) -> V, formats: seq<Format>, tokens: seq<Op>)
    requires forall op <- tokens :: IsToken(op)
    ensures var p, v := StackRun(MakeNode, formats, tokens), StackRun(sem, formats, tokens);
            (p.Err? && v == Err(p.error)) || (p.Ok? && v.Ok? && StackMatches(sem, p.value, v.value))
  {
    if tokens != [] {
      var front := tokens[..|tokens| - 1];
      RunMatches(sem, formats, front);
      var p, v := StackRun(MakeNode, formats, front), StackRun(sem, formats, front);
      if p.Ok? {
        StepMatches(sem, formats, p.value, v.value, tokens[|tokens| - 1]);
      }
    }
  }

  /** Parsing accepts exactly the stack programs that run to one value, reports the same error on the others,
      and the tree it builds has the program's value. */
  lemma ParseKeepsMeaning<V>(sem: (Op, seq<V>) -> V, formats: seq<Format>, tokens: seq<Op>)
    requires forall op <- tokens :: IsToken(op)
    ensures var p, v := StackProgram(MakeNode, formats, tokens), StackProgram(sem, formats, tokens);
            match p
            case Err(e) => v == Err(e)
            case Ok(t) => WellFormed(t) && v == Ok(Eval(sem, t))
  {
    RunMatches(sem, formats, tokens);
  }
}
