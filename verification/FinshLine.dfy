/** finsh_run_line: a line of tokens is parsed, compiled and run, and the bottom of the stack is its result. */
module FinshLine {
  import opened Kernel
  import opened FinshTree
  import opened FinshCode
  import opened FinshMeaning
  import opened FinshGrammar
  import opened FinshNode
  import opened FinshCompiler
  import M = FinshMachine
  import P = FinshParser
  import V = FinshVm
  import A = FinshArm

  /** The tree a line is read into, and the error found in it. */
  function Read(line: seq<Token>): Parsed {
    Line(Nil, Input(line, P.NODE_MAX, NoFault))
  }

  function CodeOf(f: Forest): seq<Instr> {
    Program(Checked(f, false))
  }

  /** What finsh_compiler_run may be given: nothing in it checks. */
  predicate Compilable(f: Forest) {
    Sound(f) && |Assembled(CodeOf(f))| <= TEXT_MAX
  }

  /** finsh_errno once the line is parsed and, if that went well, compiled. */
  function Verdict(line: seq<Token>): Fault {
    var p := Read(line);
    if p.input.error != NoFault then p.input.error
    else if Mistyped(Checked(p.tree, false)) then UnknownType
    else NoFault
  }

  method RunLine(line: seq<Token>, mem: M.Memory, host: M.Host) returns (error: Fault, done: bool, bottom: Word, after: M.Memory)
    requires Read(line).input.error == NoFault ==> Compilable(Read(line).tree)
    ensures error == Verdict(line)
    ensures error != NoFault ==> !done && after == mem
    ensures error == NoFault ==>
            match M.Exec(CodeOf(Read(line).tree), host, M.State([], mem))
            case None => !done
            case Some(st) => done && after == st.mem && (st.stack != [] ==> bottom == st.stack[0])
  {
    done, bottom, after := false, 0, mem;
    var parser := new P.Parser(line);
    var root, sh := parser.Run();
    error := parser.error;
    if error != NoFault {
      return;
    }
    NodesExist(sh);
    label parsed: assert true;
    var compiler := new Compiler();
    assert unchanged@parsed(Nodes(sh));
    compiler.Run(root, sh);
    if compiler.unknownType {
      error := UnknownType;
      return;
    }
    done, bottom, after := RunText(compiler.text, compiler.code, mem, host);
  }

  method RunText(text: array<Byte>, ghost code: seq<Instr>, mem: M.Memory, host: M.Host) returns (done: bool, bottom: Word, after: M.Memory)
    requires |Assembled(code)| <= TEXT_MAX && text[..] == M.Segment(Assembled(code))
    ensures match M.Exec(code, host, M.State([], mem))
            case None => !done
            case Some(st) => done && after == st.mem && (st.stack != [] ==> bottom == st.stack[0])
  {
    M.RunSegment(code, host, M.State([], mem));
    var vm := new V.Vm(text, mem, host);
    done := vm.Run();
    bottom, after := vm.stack[0], vm.mem;
  }

  lemma {:induction false} FormedIsSound(e: Expr, sibling: Forest)
    requires Formed(e) && Sound(sibling)
    ensures Sound(TreeOf(e, sibling))
    decreases e
  {
    match e
    case Literal(_, _) =>
    case Name(_) =>
    case Binary(_, left, right) => FormedIsSound(right, Nil); FormedIsSound(left, TreeOf(right, Nil));
    case Negate(x) => FormedIsSound(x, Nil);
    case Complement(x) => FormedIsSound(x, Nil);
    case Plus(x) => FormedIsSound(x, sibling);
    case Set(target, source) => FormedIsSound(source, Nil); FormedIsSound(target, TreeOf(source, Nil));
    case PreStep(_, x) => FormedIsSound(x, Nil); RootOfTree(x, Nil);
    case PostStep(_, x) => FormedIsSound(x, Nil); RootOfTree(x, Nil);
    case Deref(x) => FormedIsSound(x, Nil);
    case AddrOf(x) => FormedIsSound(x, Nil);
    case Call(fn, args) => AllFormedAreSound(args); FormedIsSound(fn, TreesOf(args));
  }

  lemma {:induction false} AllFormedAreSound(args: Args)
    requires AllFormed(args)
    ensures Sound(TreesOf(args))
    decreases args
  {
    if args.Arg? {
      AllFormedAreSound(args.rest);
      FormedIsSound(args.first, TreesOf(args.rest));
    }
  }

  lemma {:induction false} RootOfTree(e: Expr, sibling: Forest)
    requires Formed(e)
    ensures var f := TreeOf(e, sibling);
            f.kind.Id? ==> Bare(e).Name? && f.id == Bare(e).symbol.id
  {
    if e.Plus? {
      RootOfTree(e.arg, sibling);
    }
  }

  /** Where an assignment's target has no width, seen on the expression. */
  predicate Unstorable(e: Expr) {
    match e
    case Literal(_, _) => false
    case Name(_) => false
    case Binary(_, left, right) => Unstorable(left) || Unstorable(right)
    case Negate(x) => Unstorable(x)
    case Complement(x) => Unstorable(x)
    case Plus(x) => Unstorable(x)
    case Set(target, source) => Unstorable(target) || Unstorable(source) || (HasAddress(target) && Typing(target).Void?)
    case PreStep(_, x) => Unstorable(x)
    case PostStep(_, x) => Unstorable(x)
    case Deref(x) => Unstorable(x)
    case AddrOf(x) => Unstorable(x)
    case Call(fn, args) => Unstorable(fn) || AnyUnstorable(args)
  }

  predicate AnyUnstorable(args: Args) {
    match args
    case NoArgs => false
    case Arg(first, rest) => Unstorable(first) || AnyUnstorable(rest)
  }

  /** The compiler complains about exactly those. */
  lemma {:induction false} MistypedExactly(e: Expr, sibling: Forest, mark: bool)
    requires Formed(e)
    ensures Mistyped(Checked(TreeOf(e, sibling), mark)) <==> Unstorable(e) || Mistyped(Checked(sibling, false))
    decreases e, 1
  {
    match e
    case Literal(_, _) =>
    case Name(_) =>
    case Binary(_, _, _) => MistypedPair(e, sibling, mark);
    case Negate(x) =>
      MistypedExactly(x, Nil, false);
      assert !NoWidth(Checked(Leaf(ValueLong, NoId, 0, TreeOf(x, Nil)), mark));
    case Complement(x) => MistypedExactly(x, Nil, mark);
    case Plus(x) => MistypedExactly(x, sibling, mark);
    case Set(_, _) => MistypedPair(e, sibling, mark);
    case PreStep(_, x) => MistypedExactly(x, Nil, true);
    case PostStep(_, x) => MistypedExactly(x, Nil, mark);
    case Deref(x) => MistypedExactly(x, Nil, false);
    case AddrOf(x) => MistypedExactly(x, Nil, true);
    case Call(fn, args) =>
      MistypedExactly(fn, TreesOf(args), mark);
      MistypedArgs(args);
  }

  lemma {:induction false} MistypedPair(e: Expr, sibling: Forest, mark: bool)
    requires Formed(e) && (e.Binary? || e.Set?)
    ensures Mistyped(Checked(TreeOf(e, sibling), mark)) <==> Unstorable(e) || Mistyped(Checked(sibling, false))
    decreases e, 0
  {
    if e.Binary? {
      MistypedExactly(e.left, TreeOf(e.right, Nil), mark);
      MistypedExactly(e.right, Nil, false);
    } else {
      MistypedExactly(e.target, TreeOf(e.source, Nil), true);
      MistypedExactly(e.source, Nil, false);
      CheckedType(e.target, TreeOf(e.source, Nil), true);
      RootChecked(e.target, TreeOf(e.source, Nil), true);
    }
  }

  lemma {:induction false} MistypedArgs(args: Args)
    requires AllFormed(args)
    ensures Mistyped(Checked(TreesOf(args), false)) <==> AnyUnstorable(args)
    decreases args, 1
  {
    if args.Arg? {
      MistypedExactly(args.first, TreesOf(args.rest), false);
      MistypedArgs(args.rest);
    }
  }

  lemma {:induction false} WideIsStorable(e: Expr, mark: bool)
    requires Meant(e) && Wide(e, mark)
    ensures !Unstorable(e)
    decreases e
  {
    match e
    case Literal(_, _) =>
    case Name(_) =>
    case Binary(_, left, right) => WideIsStorable(left, false); WideIsStorable(right, false);
    case Negate(x) => WideIsStorable(x, false);
    case Complement(x) => WideIsStorable(x, false);
    case Plus(x) => WideIsStorable(x, mark);
    case Set(target, source) => WideIsStorable(target, true); WideIsStorable(source, false);
    case PreStep(_, x) => WideIsStorable(x, true);
    case PostStep(_, x) => WideIsStorable(x, false);
    case Deref(x) => WideIsStorable(x, false);
    case AddrOf(x) => WideIsStorable(x, true);
    case Call(fn, args) => WideIsStorable(fn, false); ArgsStorable(args);
  }

  lemma {:induction false} ArgsStorable(args: Args)
    requires AllTyped(args)
    ensures !AnyUnstorable(args)
    decreases args
  {
    if args.Arg? {
      WideIsStorable(args.first, false);
      ArgsStorable(args.rest);
    }
  }

  /** Assigning to a function, or to a variable of type void, is an error of the compiler's, and nothing is run. */
  lemma NoWidthIsNotAssigned(id: IdType, at: Word, value: Word)
    requires id.SysCall? || ((id.Var? || id.SysVar?) && id.declared.JustVoid?)
    ensures Verdict(LineTokens(Arg(Set(Name(Symbol(id, at)), Literal(ValueInt, value)), NoArgs))) == UnknownType
  {
    var name, number := Name(Symbol(id, at)), Literal(ValueInt, value);
    var e := Set(name, number);
    var stmts := Arg(e, NoArgs);
    assert Fits(name, 1) && Fits(number, 0) && AllFit(NoArgs) && AllFormed(NoArgs);
    assert Cost(name) == 1 && Cost(number) == 1 && ListCost(NoArgs) == 0;
    assert LineTokens(stmts) + [] == LineTokens(stmts);
    ParsesLine(Nil, stmts, Input(LineTokens(stmts), P.NODE_MAX, NoFault));
    assert AllFormed(stmts) && Unstorable(e);
    MistypedArgs(stmts);
  }

  /** A statement that is no more than a name nobody knows, a statement without its semicolon, and one with a token too many. */
  lemma LinesRefused(value: Word)
    ensures Verdict([Identifier(None)] + [Semicolon]) == UnknownSymbol
    ensures Verdict([Number(ValueInt, value)]) == InvalidToken
    ensures Verdict([RightParen] + [Semicolon]) == InvalidToken
  {
    var (a, b, c) := ([Identifier(None)] + [Semicolon], [Number(ValueInt, value)], [RightParen] + [Semicolon]);
    FaultsReported(Identifier(None), [Semicolon], Input(a, P.NODE_MAX, NoFault));
    FaultsReported(RightParen, [Semicolon], Input(c, P.NODE_MAX, NoFault));
    assert Fits(Literal(ValueInt, value), 0) && Tokens(Literal(ValueInt, value)) == b && b + [] == b;
    ParsesAssign(Literal(ValueInt, value), [], Input(b, P.NODE_MAX, NoFault));
    OneStatement(a, UnknownSymbol);
    OneStatement(c, InvalidToken);
    OneStatement(b, InvalidToken);
  }

  /** The only statement of a line is read to the end of the line, with an error. */
  lemma OneStatement(line: seq<Token>, fault: Fault)
    requires line != [] && !line[0].Bad? && fault != NoFault
    requires var s := Statement(Input(line, P.NODE_MAX, NoFault)); s.input.ahead == [] && s.input.error == fault
    ensures Verdict(line) == fault
  {
    var s := Statement(Input(line, P.NODE_MAX, NoFault));
    assert Line(Extended(Nil, s.tree), s.input) == Parsed(Extended(Nil, s.tree), s.input);
    assert Read(line) == Line(Extended(Nil, s.tree), s.input);
  }

  /** Assigning to a variable of type void * is not, and what is run takes a word from the empty stack. */
  lemma VoidPointerLineUnderflows(at: Word, n: Word, host: M.Host, m: M.Memory)
    ensures var line := LineTokens(Arg(ToVoidPointer(at, n), NoArgs));
            Verdict(line) == NoFault && M.Exec(CodeOf(Read(line).tree), host, M.State([], m)) == None
  {
    var e := ToVoidPointer(at, n);
    var stmts := Arg(e, NoArgs);
    var line := LineTokens(stmts);
    VoidPointerUnderflows(at, n, host, m);
    assert Fits(e.target, 1) && Fits(e.source, 0) && AllFit(NoArgs) && AllFormed(NoArgs);
    assert Cost(e.target) == 1 && Cost(e.source) == 1 && ListCost(NoArgs) == 0;
    assert line + [] == line;
    ParsesLine(Nil, stmts, Input(line, P.NODE_MAX, NoFault));
    assert !Unstorable(e.target) && !Unstorable(e.source) && Typing(e.target).DWord?;
    assert AllFormed(stmts) && !Unstorable(e);
    assert !AnyUnstorable(NoArgs);
    MistypedArgs(stmts);
    EmittedProgram(stmts);
    assert Emit(e, false) + [] == Emit(e, false);
  }

  /**
    From tokens to result: a line of well-typed statements written without parentheses, whose nodes,
    code and stack fit, parses without an error, compiles, and leaves the value of its last statement
    and the memory of evaluating its statements in order.
   */
  lemma LineMeansItself(stmts: Args, host: M.Host, m: M.Memory)
    requires stmts.Arg? && AllFit(stmts) && AllTyped(stmts) && M.Lawful(host)
    requires ListCost(stmts) <= P.NODE_MAX && FitsStack(stmts) && |Assembled(CodeOf(TreesOf(stmts)))| <= TEXT_MAX
    ensures Verdict(LineTokens(stmts)) == NoFault && Compilable(Read(LineTokens(stmts)).tree)
    ensures var r := EvalProgram(stmts, host, m);
            M.Exec(CodeOf(Read(LineTokens(stmts)).tree), host, M.State([], m)) == Some(M.State([r.value], r.mem))
  {
    assert LineTokens(stmts) + [] == LineTokens(stmts);
    ParsesLine(Nil, stmts, Input(LineTokens(stmts), P.NODE_MAX, NoFault));
    AllFormedAreSound(stmts);
    ArgsStorable(stmts);
    MistypedArgs(stmts);
    CompiledLineMeansItself(stmts, host, m);
    M.RunSegment(CodeOf(TreesOf(stmts)), host, M.State([], m));
  }

  /** On the ARM with its byte memory, whatever the called functions do. */
  lemma LineOnArm(stmts: Args, call: (Word, seq<Word>, M.Memory) -> M.Reply, m: M.Memory)
    requires stmts.Arg? && AllFit(stmts) && AllTyped(stmts)
    requires ListCost(stmts) <= P.NODE_MAX && FitsStack(stmts) && |Assembled(CodeOf(TreesOf(stmts)))| <= TEXT_MAX
    ensures var r := EvalProgram(stmts, A.Arm(call), m);
            M.Exec(CodeOf(Read(LineTokens(stmts)).tree), A.Arm(call), M.State([], m)) == Some(M.State([r.value], r.mem))
  {
    A.ArmIsLawful(call);
    LineMeansItself(stmts, A.Arm(call), m);
  }

  /** There unary minus changes the sign, except of the one number that has no opposite; ~ turns every bit over; * loads. */
  lemma UnaryOnArm(x: Expr, host: M.Host, m: M.Memory, k: nat)
    requires Meant(x) && k < 32 && host.alu == A.Apply && host.load == A.Load
    ensures var r := Eval(x, host, m);
            && (A.Signed(r.value) != -0x8000_0000 ==> A.Signed(Eval(Negate(x), host, m).value) == -A.Signed(r.value))
            && (A.Bit(Eval(Complement(x), host, m).value, k) <==> !A.Bit(r.value, k))
            && Eval(Deref(x), host, m) == M.Reply(A.Load(r.mem, r.value), r.mem)
            && Eval(Plus(x), host, m) == r
  {
    var r := Eval(x, host, m);
    SignsEvaluate(x, host, m);
    BitsAndLoadsEvaluate(x, host, m);
    A.SumsFit(0, r.value);
    A.InvertFlips(r.value, k);
  }

  /** A step leaves one more or one less in the variable; it gives that if the sign is in front, and what was there before if it is behind. */
  lemma StepsOnArm(v: Symbol, up: bool, host: M.Host, m: M.Memory)
    requires v.id.Var? && host.alu == A.Apply && host.load == A.Load && host.store == A.Store
    ensures Meant(PreStep(up, Name(v))) && Meant(PostStep(up, Name(v)))
    ensures var (pre, post, before) := (Eval(PreStep(up, Name(v)), host, m), Eval(PostStep(up, Name(v)), host, m), A.Load(m, v.at));
            && pre.value == A.Load(pre.mem, v.at) && post.value == before && post.mem == pre.mem
            && (up && A.Signed(before) != 0x7FFF_FFFF ==> A.Signed(pre.value) == A.Signed(before) + 1)
            && (!up && A.Signed(before) != -0x8000_0000 ==> A.Signed(pre.value) == A.Signed(before) - 1)
  {
    var before := A.Load(m, v.at);
    StepsEvaluate(v, up, host, m);
    OneMoreOrLess(before);
    A.LoadStore(m, v.at, A.Apply(if up then Add else Sub, before, 1));
  }

  lemma OneMoreOrLess(w: Word)
    ensures A.Signed(w) != 0x7FFF_FFFF ==> A.Signed(A.Apply(Add, w, 1)) == A.Signed(w) + 1
    ensures A.Signed(w) != -0x8000_0000 ==> A.Signed(A.Apply(Sub, w, 1)) == A.Signed(w) - 1
  {
    A.SumsFit(w, 1);
    assert A.Signed(1) == 1;
  }

  /** There division truncates toward zero: 7 / -2 is -3 and 7 % -2 is 1. */
  lemma SevenByMinusTwo(call: (Word, seq<Word>, M.Memory) -> M.Reply, m: M.Memory)
    ensures var (seven, minusTwo) := (Literal(ValueInt, 7), Negate(Literal(ValueInt, 2)));
            Typed(Binary(Div, seven, minusTwo)) && Typed(Binary(Mod, seven, minusTwo)) &&
            A.Signed(Eval(Binary(Div, seven, minusTwo), A.Arm(call), m).value) == -3 &&
            A.Signed(Eval(Binary(Mod, seven, minusTwo), A.Arm(call), m).value) == 1
  {
    assert A.Apply(Sub, 0, 2) == 0xFFFF_FFFE && A.Signed(0xFFFF_FFFE) == -2;
    assert A.Quotient(7, -2) == -3 && A.Wrapped(-3) == 0xFFFF_FFFD;
  }
}
