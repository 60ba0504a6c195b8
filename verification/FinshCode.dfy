/**
  What the finsh compiler computes: the type-checked tree, and the bytes emitted for it.
  Emit is the same code read off the expression instead of the tree; EmittedCode shows that walking
  the checked tree child, node, sibling produces it.
 */
module FinshCode {
  import opened FinshTree

  const TEXT_MAX := 128
  const STACK_MAX := 64

  const OP_NOOP: Byte := 0x00
  const OP_BITWISE: Byte := 0x1B
  const OP_LD_DWORD: Byte := 0x24
  const OP_LD_VALUE_DWORD: Byte := 0x27
  const OP_ST_DWORD: Byte := 0x2A
  const OP_POP: Byte := 0x2B
  const OP_SYSCALL: Byte := 0x2C
  const OP_LD_VALUE_DWORD_STACK: Byte := 0x2F

  function BinaryCode(op: BinOp): Byte {
    match op
    case Add => 0x03
    case Sub => 0x06
    case Div => 0x09
    case Mod => 0x0C
    case Mul => 0x0F
    case And => 0x12
    case Or => 0x15
    case Xor => 0x18
    case Shl => 0x1E
    case Shr => 0x21
  }

  /** FINSH_SET32: little-endian. */
  function Bytes(w: Word): (b: seq<Byte>)
    ensures |b| == 4
  {
    var q1 := w / 0x100;
    var q2 := q1 / 0x100;
    [w % 0x100, q1 % 0x100, q2 % 0x100, q2 / 0x100]
  }

  /** What finsh_code_byte keeps of a count. */
  function LowByte(n: nat): Byte {
    if n < 0x100 then n else LowByte(n - 0x100)
  }

  /** FINSH_GET32. */
  function Join(a: Byte, b: Byte, c: Byte, d: Byte): Word {
    a + 0x100 * b + 0x1_0000 * c + 0x100_0000 * d
  }

  lemma JoinBytes(w: Word)
    ensures var b := Bytes(w); Join(b[0], b[1], b[2], b[3]) == w
  {
  }

  /** One instruction of the machine, the double-word ones only. */
  datatype Instr =
    | Const(value: Word)
    | Fetch(at: Word)
    | Compute(op: BinOp)
    | Flip
    | StoreTop
    | Reload
    | Drop
    | Invoke(count: Byte)

  function Encode(i: Instr): (b: seq<Byte>)
    ensures 0 < |b| <= 5
  {
    match i
    case Const(value) => [OP_LD_DWORD] + Bytes(value)
    case Fetch(at) => [OP_LD_VALUE_DWORD] + Bytes(at)
    case Compute(op) => [BinaryCode(op)]
    case Flip => [OP_BITWISE]
    case StoreTop => [OP_ST_DWORD]
    case Reload => [OP_LD_VALUE_DWORD_STACK]
    case Drop => [OP_POP]
    case Invoke(count) => [OP_SYSCALL, count]
  }

  function Assembled(code: seq<Instr>): seq<Byte> {
    if code == [] then [] else Encode(code[0]) + Assembled(code[1..])
  }

  lemma {:induction false} AssembledConcat(a: seq<Instr>, b: seq<Instr>)
    ensures Assembled(a + b) == Assembled(a) + Assembled(b)
  {
    if a == [] {
      assert a + b == b;
    } else {
      assert (a + b)[1..] == a[1..] + b;
      AssembledConcat(a[1..], b);
    }
  }

  // ---- finsh_type_check ----

  /** The address mark a node hands down to its first child. */
  function MarkBelow(kind: NodeType, mark: bool): bool {
    if kind.Assign? || kind.PreInc? || kind.PreDec? || kind.GetAddr? then true
    else if kind.GetValue? && mark then false
    else mark
  }

  function Marked(id: IdType, address: bool, mark: bool): bool {
    if id.SysCall? && !address then address else address || mark
  }

  function IsValue(kind: NodeType): bool {
    kind.ValueInt? || kind.ValueLong? || kind.ValueNull?
  }

  /** Width of an identifier's value; a function's name has none. */
  function WidthOf(id: IdType): DataType {
    if (id.Var? || id.SysVar?) && !id.declared.JustVoid? then DWord else Void
  }

  /**
    Whether the load switch of finsh_compile has a case for the identifier. It has none for the type void *,
    although the type check gives that a width.
   */
  predicate Loads(id: IdType) {
    id.SysCall? || ((id.Var? || id.SysVar?) && id.declared.DoubleWord?)
  }

  /** Type of a node with the given, already checked, first child; was is its type so far. */
  function TypeOf(kind: NodeType, id: IdType, was: DataType, child: Forest): DataType {
    if child.Node? then child.data
    else if kind.Id? then (if id.Var? || id.SysVar? then WidthOf(id) else was)
    else if IsValue(kind) then DWord
    else was
  }

  function Checked(f: Forest, mark: bool): (r: Forest)
    ensures r.Nil? <==> f.Nil?
    ensures Width(r) == Width(f)
  {
    match f
    case Nil => Nil
    case Node(kind, id, value, address, data, child, sibling) =>
      var below := Checked(child, MarkBelow(kind, mark));
      Node(kind, id, value, Marked(id, address, mark), TypeOf(kind, id, data, below), below, Checked(sibling, false))
  }

  // ---- finsh_compile ----

  /** x op 1 stored back through the address under it. */
  function StepCode(op: BinOp, at: Word): seq<Instr> {
    [Fetch(at), Const(1), Compute(op), StoreTop]
  }

  /** The same behind the stack's top: the address is loaded, used and dropped again. */
  function StepBehindCode(op: BinOp, at: Word): seq<Instr> {
    [Const(at)] + StepCode(op, at) + [Drop]
  }

  /** The instructions of one node, its child's code being in place already. */
  function Own(kind: NodeType, id: IdType, value: Word, address: bool, data: DataType, child: Forest): seq<Instr> {
    match kind
    case Id => if !Loads(id) then [] else [if id.SysCall? || address then Const(value) else Fetch(value)]
    case ValueInt | ValueLong | ValueNull => [Const(value)]
    case Arith(op) => if data.DWord? then [Compute(op)] else []
    case Bitwise => if data.DWord? then [Flip] else []
    case Func => if child.Node? then [Invoke(LowByte(Width(child.sibling)))] else []
    case Assign =>
      if child.Node? && (child.kind.Id? || child.kind.GetValue?) && child.data.DWord?
      then [StoreTop, Reload] else []
    case PreInc => if child.Node? && child.kind.Id? && data.DWord? then StepCode(Add, child.value) + [Reload] else []
    case PreDec => if child.Node? && child.kind.Id? && data.DWord? then StepCode(Sub, child.value) + [Reload] else []
    case Inc => if child.Node? && child.kind.Id? && data.DWord? then StepBehindCode(Add, child.value) else []
    case Dec => if child.Node? && child.kind.Id? && data.DWord? then StepBehindCode(Sub, child.value) else []
    case GetValue => if address || !data.DWord? then [] else [Reload]
    case GetAddr => []
    case Unknown => []
  }

  function Code(f: Forest): seq<Instr> {
    match f
    case Nil => []
    case Node(kind, id, value, address, data, child, sibling) =>
      Code(child) + (Own(kind, id, value, address, data, child) + Code(sibling))
  }

  /** finsh_compiler_run: each statement on its own, a pop between two of them. */
  function Program(f: Forest): seq<Instr> {
    match f
    case Nil => []
    case Node(_, _, _, _, _, _, sibling) =>
      Code(f.(sibling := Nil)) + (if sibling.Nil? then [] else [Drop] + Program(sibling))
  }

  // ---- the code of an expression ----

  /** Width of an expression: that of its leftmost leaf, and a call's is that of the function's name. */
  function Typing(e: Expr): DataType {
    match e
    case Literal(_, _) => DWord
    case Name(symbol) => WidthOf(symbol.id)
    case Binary(_, left, _) => Typing(left)
    case Negate(_) => DWord
    case Complement(x) => Typing(x)
    case Plus(x) => Typing(x)
    case Set(target, _) => Typing(target)
    case PreStep(_, x) => Typing(x)
    case PostStep(_, x) => Typing(x)
    case Deref(x) => Typing(x)
    case AddrOf(x) => Typing(x)
    case Call(fn, _) => Typing(fn)
  }

  /** e without the unary pluses around it, which leave no trace in the tree. */
  function Bare(e: Expr): (r: Expr)
    ensures !r.Plus?
  {
    if e.Plus? then Bare(e.arg) else e
  }

  /** An assignment to e is compiled to a store. */
  predicate StoresInto(e: Expr) {
    (Bare(e).Name? || Bare(e).Deref?) && Typing(e).DWord?
  }

  /** ++ and -- are compiled for identifiers only. */
  predicate Steps(e: Expr) {
    Bare(e).Name? && Typing(e).DWord?
  }

  /**
    The expressions of this model: literals and looked-up names at the leaves, calls with as many
    arguments as OP_call has room for, and no ++ or -- on a system variable.
   */
  predicate Formed(e: Expr) {
    match e
    case Literal(kind, _) => IsValue(kind)
    case Name(symbol) => !symbol.id.NoId?
    case Binary(_, left, right) => Formed(left) && Formed(right)
    case Negate(x) => Formed(x)
    case Complement(x) => Formed(x)
    case Plus(x) => Formed(x)
    case Set(target, source) => Formed(target) && Formed(source)
    case PreStep(_, x) => Formed(x) && !OnSystemVariable(x)
    case PostStep(_, x) => Formed(x) && !OnSystemVariable(x)
    case Deref(x) => Formed(x)
    case AddrOf(x) => Formed(x)
    case Call(fn, args) => Formed(fn) && AllFormed(args) && Count(args) <= 16
  }

  predicate OnSystemVariable(e: Expr) {
    Bare(e).Name? && Bare(e).symbol.id.SysVar?
  }

  predicate AllFormed(args: Args) {
    match args
    case NoArgs => true
    case Arg(first, rest) => Formed(first) && AllFormed(rest)
  }

  /** Every name in e is loaded. */
  predicate Loaded(e: Expr) {
    match e
    case Literal(_, _) => true
    case Name(symbol) => Loads(symbol.id)
    case Binary(_, left, right) => Loaded(left) && Loaded(right)
    case Negate(x) => Loaded(x)
    case Complement(x) => Loaded(x)
    case Plus(x) => Loaded(x)
    case Set(target, source) => Loaded(target) && Loaded(source)
    case PreStep(_, x) => Loaded(x)
    case PostStep(_, x) => Loaded(x)
    case Deref(x) => Loaded(x)
    case AddrOf(x) => Loaded(x)
    case Call(fn, args) => Loaded(fn) && AllLoaded(args)
  }

  predicate AllLoaded(args: Args) {
    match args
    case NoArgs => true
    case Arg(first, rest) => Loaded(first) && AllLoaded(rest)
  }

  function StepOp(up: bool): BinOp {
    if up then Add else Sub
  }

  /** The code of e; the mark asks for e's address and travels down the leftmost operands. */
  function Emit(e: Expr, mark: bool): seq<Instr> {
    match e
    case Literal(_, value) => [Const(value)]
    case Name(symbol) =>
      if !Loads(symbol.id) then [] else [if symbol.id.SysCall? || mark then Const(symbol.at) else Fetch(symbol.at)]
    case Binary(op, left, right) => (Emit(left, mark) + Emit(right, false)) + (if Typing(left).DWord? then [Compute(op)] else [])
    case Negate(x) => ([Const(0)] + Emit(x, false)) + [Compute(Sub)]
    case Complement(x) => Emit(x, mark) + (if Typing(x).DWord? then [Flip] else [])
    case Plus(x) => Emit(x, mark)
    case Set(target, source) =>
      (Emit(target, true) + Emit(source, false)) + (if StoresInto(target) then [StoreTop, Reload] else [])
    case PreStep(up, x) => Emit(x, true) + (if Steps(x) then StepCode(StepOp(up), Bare(x).symbol.at) + [Reload] else [])
    case PostStep(up, x) => Emit(x, mark) + (if Steps(x) then StepBehindCode(StepOp(up), Bare(x).symbol.at) else [])
    case Deref(x) => Emit(x, false) + (if mark || Typing(x).Void? then [] else [Reload])
    case AddrOf(x) => Emit(x, true)
    case Call(fn, args) => (Emit(fn, mark) + EmitAll(args)) + [Invoke(LowByte(Count(args)))]
  }

  function EmitAll(args: Args): seq<Instr> {
    match args
    case NoArgs => []
    case Arg(first, rest) => Emit(first, false) + EmitAll(rest)
  }

  /** The type check gives the root of e's tree the width Typing reads off the expression. */
  lemma {:induction false} CheckedType(e: Expr, sibling: Forest, mark: bool)
    requires Formed(e)
    ensures Checked(TreeOf(e, sibling), mark).data == Typing(e)
  {
    match e
    case Literal(_, _) =>
    case Name(_) =>
    case Binary(_, left, right) => CheckedType(left, TreeOf(right, Nil), mark);
    case Negate(_) =>
    case Complement(x) => CheckedType(x, Nil, mark);
    case Plus(x) => CheckedType(x, sibling, mark);
    case Set(target, source) => CheckedType(target, TreeOf(source, Nil), true);
    case PreStep(_, x) => CheckedType(x, Nil, true);
    case PostStep(_, x) => CheckedType(x, Nil, mark);
    case Deref(x) => CheckedType(x, Nil, false);
    case AddrOf(x) => CheckedType(x, Nil, true);
    case Call(fn, args) => CheckedType(fn, TreesOf(args), mark);
  }

  /** What the compiler looks at in the child of an assignment or a step. */
  lemma {:induction false} RootChecked(e: Expr, sibling: Forest, mark: bool)
    requires Formed(e)
    ensures var f := Checked(TreeOf(e, sibling), mark);
            f.Node? && (f.kind.Id? <==> Bare(e).Name?) && (f.kind.GetValue? <==> Bare(e).Deref?) &&
            (f.kind.Id? ==> f.value == Bare(e).symbol.at)
  {
    if e.Plus? {
      RootChecked(e.arg, sibling, mark);
    }
  }

  lemma {:induction false} SiblingsChecked(e: Expr, sibling: Forest, mark: bool)
    ensures Checked(TreeOf(e, sibling), mark).Node?
    ensures Checked(TreeOf(e, sibling), mark).sibling == Checked(sibling, false)
  {
    if e.Plus? {
      SiblingsChecked(e.arg, sibling, mark);
    }
  }

  /** A branch node adds its own bytes after those of its children. */
  lemma Assemble(kind: NodeType, child: Forest, sibling: Forest, mark: bool, inner: seq<Instr>, own: seq<Instr>)
    requires Code(Checked(child, MarkBelow(kind, mark))) == inner
    requires var below := Checked(child, MarkBelow(kind, mark));
             Own(kind, NoId, 0, mark, TypeOf(kind, NoId, Void, below), below) == own
    ensures Code(Checked(Branch(kind, child, sibling), mark)) == (inner + own) + Code(Checked(sibling, false))
  {
    var below, after := Checked(child, MarkBelow(kind, mark)), Checked(sibling, false);
    var data := TypeOf(kind, NoId, Void, below);
    assert Checked(Branch(kind, child, sibling), mark) == Node(kind, NoId, 0, mark, data, below, after);
    BranchCode(kind, mark, data, below, after, inner, own);
  }

  lemma BranchCode(kind: NodeType, address: bool, data: DataType, child: Forest, sibling: Forest, inner: seq<Instr>, own: seq<Instr>)
    requires Code(child) == inner && Own(kind, NoId, 0, address, data, child) == own
    ensures Code(Node(kind, NoId, 0, address, data, child, sibling)) == (inner + own) + Code(sibling)
  {
    var after := Code(sibling);
    assert inner + (own + after) == (inner + own) + after;
  }

  /** Type check and code generation over the child/sibling tree give the code of the expression. */
  lemma {:induction false} EmittedCode(e: Expr, sibling: Forest, mark: bool)
    requires Formed(e)
    ensures Code(Checked(TreeOf(e, sibling), mark)) == Emit(e, mark) + Code(Checked(sibling, false))
    decreases e, 1
  {
    match e
    case Literal(_, _) =>
    case Name(_) =>
    case Binary(_, _, _) => EmittedBinary(e, sibling, mark);
    case Negate(_) => EmittedNegate(e, sibling, mark);
    case Complement(_) => EmittedComplement(e, sibling, mark);
    case Plus(x) => EmittedCode(x, sibling, mark);
    case Set(_, _) => EmittedSet(e, sibling, mark);
    case PreStep(_, _) => EmittedPreStep(e, sibling, mark);
    case PostStep(_, _) => EmittedPostStep(e, sibling, mark);
    case Deref(_) => EmittedDeref(e, sibling, mark);
    case AddrOf(_) => EmittedAddrOf(e, sibling, mark);
    case Call(_, _) => EmittedCall(e, sibling, mark);
  }

  lemma {:induction false} EmittedBinary(e: Expr, sibling: Forest, mark: bool)
    requires Formed(e) && e.Binary?
    ensures Code(Checked(TreeOf(e, sibling), mark)) == Emit(e, mark) + Code(Checked(sibling, false))
    decreases e, 0
  {
    var f := TreeOf(e.left, TreeOf(e.right, Nil));
    var inner := Emit(e.left, mark) + Emit(e.right, false);
    assert Code(Checked(f, mark)) == inner by {
      EmittedCode(e.left, TreeOf(e.right, Nil), mark);
      EmittedCode(e.right, Nil, false);
    }
    CheckedType(e.left, TreeOf(e.right, Nil), mark);
    Assemble(Arith(e.op), f, sibling, mark, inner, if Typing(e.left).DWord? then [Compute(e.op)] else []);
  }

  lemma {:induction false} EmittedNegate(e: Expr, sibling: Forest, mark: bool)
    requires Formed(e) && e.Negate?
    ensures Code(Checked(TreeOf(e, sibling), mark)) == Emit(e, mark) + Code(Checked(sibling, false))
    decreases e, 0
  {
    EmittedCode(e.arg, Nil, false);
    LeafCode(0, TreeOf(e.arg, Nil), mark);
    Assemble(Arith(Sub), Leaf(ValueLong, NoId, 0, TreeOf(e.arg, Nil)), sibling, mark,
      [Const(0)] + Emit(e.arg, false), [Compute(Sub)]);
  }

  lemma LeafCode(value: Word, sibling: Forest, mark: bool)
    ensures Code(Checked(Leaf(ValueLong, NoId, value, sibling), mark)) == [Const(value)] + Code(Checked(sibling, false))
    ensures Checked(Leaf(ValueLong, NoId, value, sibling), mark).data.DWord?
  {
  }

  lemma {:induction false} EmittedComplement(e: Expr, sibling: Forest, mark: bool)
    requires Formed(e) && e.Complement?
    ensures Code(Checked(TreeOf(e, sibling), mark)) == Emit(e, mark) + Code(Checked(sibling, false))
    decreases e, 0
  {
    var f := TreeOf(e.arg, Nil);
    assert Code(Checked(f, mark)) == Emit(e.arg, mark) by {
      EmittedCode(e.arg, Nil, mark);
    }
    CheckedType(e.arg, Nil, mark);
    Assemble(Bitwise, f, sibling, mark, Emit(e.arg, mark), if Typing(e.arg).DWord? then [Flip] else []);
  }

  lemma {:induction false} EmittedSet(e: Expr, sibling: Forest, mark: bool)
    requires Formed(e) && e.Set?
    ensures Code(Checked(TreeOf(e, sibling), mark)) == Emit(e, mark) + Code(Checked(sibling, false))
    decreases e, 0
  {
    var f := TreeOf(e.target, TreeOf(e.source, Nil));
    var inner := Emit(e.target, true) + Emit(e.source, false);
    assert Code(Checked(f, true)) == inner by {
      EmittedCode(e.target, TreeOf(e.source, Nil), true);
      EmittedCode(e.source, Nil, false);
    }
    CheckedType(e.target, TreeOf(e.source, Nil), true);
    RootChecked(e.target, TreeOf(e.source, Nil), true);
    Assemble(Assign, f, sibling, mark, inner, if StoresInto(e.target) then [StoreTop, Reload] else []);
  }

  lemma {:induction false} EmittedPreStep(e: Expr, sibling: Forest, mark: bool)
    requires Formed(e) && e.PreStep?
    ensures Code(Checked(TreeOf(e, sibling), mark)) == Emit(e, mark) + Code(Checked(sibling, false))
    decreases e, 0
  {
    var f := TreeOf(e.arg, Nil);
    assert Code(Checked(f, true)) == Emit(e.arg, true) by {
      EmittedCode(e.arg, Nil, true);
    }
    CheckedType(e.arg, Nil, true);
    RootChecked(e.arg, Nil, true);
    Assemble(StepKind(true, e.up), f, sibling, mark, Emit(e.arg, true),
      if Steps(e.arg) then StepCode(StepOp(e.up), Bare(e.arg).symbol.at) + [Reload] else []);
  }

  lemma {:induction false} EmittedPostStep(e: Expr, sibling: Forest, mark: bool)
    requires Formed(e) && e.PostStep?
    ensures Code(Checked(TreeOf(e, sibling), mark)) == Emit(e, mark) + Code(Checked(sibling, false))
    decreases e, 0
  {
    var f := TreeOf(e.arg, Nil);
    assert Code(Checked(f, mark)) == Emit(e.arg, mark) by {
      EmittedCode(e.arg, Nil, mark);
    }
    CheckedType(e.arg, Nil, mark);
    RootChecked(e.arg, Nil, mark);
    Assemble(StepKind(false, e.up), f, sibling, mark, Emit(e.arg, mark),
      if Steps(e.arg) then StepBehindCode(StepOp(e.up), Bare(e.arg).symbol.at) else []);
  }

  lemma {:induction false} EmittedDeref(e: Expr, sibling: Forest, mark: bool)
    requires Formed(e) && e.Deref?
    ensures Code(Checked(TreeOf(e, sibling), mark)) == Emit(e, mark) + Code(Checked(sibling, false))
    decreases e, 0
  {
    var f := TreeOf(e.arg, Nil);
    assert Code(Checked(f, false)) == Emit(e.arg, false) by {
      EmittedCode(e.arg, Nil, false);
    }
    CheckedType(e.arg, Nil, false);
    Assemble(GetValue, f, sibling, mark, Emit(e.arg, false), if mark || Typing(e.arg).Void? then [] else [Reload]);
  }

  lemma {:induction false} EmittedAddrOf(e: Expr, sibling: Forest, mark: bool)
    requires Formed(e) && e.AddrOf?
    ensures Code(Checked(TreeOf(e, sibling), mark)) == Emit(e, mark) + Code(Checked(sibling, false))
    decreases e, 0
  {
    EmittedCode(e.arg, Nil, true);
    Assemble(GetAddr, TreeOf(e.arg, Nil), sibling, mark, Emit(e.arg, true), []);
  }

  lemma {:induction false} EmittedCall(e: Expr, sibling: Forest, mark: bool)
    requires Formed(e) && e.Call?
    ensures Code(Checked(TreeOf(e, sibling), mark)) == Emit(e, mark) + Code(Checked(sibling, false))
    decreases e, 0
  {
    var f := TreeOf(e.fn, TreesOf(e.args));
    assert Code(Checked(f, mark)) == Emit(e.fn, mark) + EmitAll(e.args) by {
      EmittedCode(e.fn, TreesOf(e.args), mark);
      EmittedArgs(e.args);
    }
    assert Width(Checked(f, mark).sibling) == Count(e.args) by {
      SiblingsChecked(e.fn, TreesOf(e.args), mark);
      WidthOfTrees(e.args);
    }
    Assemble(Func, f, sibling, mark, Emit(e.fn, mark) + EmitAll(e.args), [Invoke(LowByte(Count(e.args)))]);
  }

  lemma {:induction false} EmittedArgs(args: Args)
    requires AllFormed(args)
    ensures Code(Checked(TreesOf(args), false)) == EmitAll(args)
    decreases args, 1
  {
    if args.Arg? {
      EmittedCode(args.first, TreesOf(args.rest), false);
      EmittedArgs(args.rest);
    }
  }

  /** The statements of a line, in the order they are written. */
  function EmitProgram(stmts: Args): seq<Instr> {
    match stmts
    case NoArgs => []
    case Arg(first, rest) => Emit(first, false) + (if rest.NoArgs? then [] else [Drop] + EmitProgram(rest))
  }

  lemma {:induction false} EmittedProgram(stmts: Args)
    requires AllFormed(stmts)
    ensures Program(Checked(TreesOf(stmts), false)) == EmitProgram(stmts)
  {
    if stmts.Arg? {
      var Arg(first, rest) := stmts;
      SiblingsChecked(first, TreesOf(rest), false);
      SiblingsChecked(first, Nil, false);
      CutSiblings(first, TreesOf(rest));
      EmittedCode(first, Nil, false);
      EmittedProgram(rest);
    }
  }

  lemma {:induction false} CutSiblings(e: Expr, sibling: Forest)
    ensures var f := Checked(TreeOf(e, sibling), false);
            f.Node? && f.(sibling := Nil) == Checked(TreeOf(e, Nil), false)
  {
    if e.Plus? {
      CutSiblings(e.arg, sibling);
    }
  }
}
