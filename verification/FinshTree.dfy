/**
  The shell's expressions, and the child/sibling trees the parser builds for them.

  A tree node has a first child and a next sibling, so one datatype describes a node together with
  everything to its right; finsh_compile and finsh_type_check walk exactly this shape. An Expr is
  the expression as its author meant it, and TreeOf says which tree stands for it.
 */
module FinshTree {
  type Byte = x: int | 0 <= x < 0x100
  type Word = x: int | 0 <= x < 0x1_0000_0000

  datatype BinOp = Add | Sub | Mul | Div | Mod | And | Or | Xor | Shl | Shr

  datatype NodeType =
    | Unknown
    | Id
    | ValueInt | ValueLong | ValueNull
    | Arith(op: BinOp)
    | Bitwise
    | Func
    | Assign
    | PreInc | PreDec | Inc | Dec
    | GetValue | GetAddr

  /**
    The declared types the compiler tells apart, byte and word ones not among them: DoubleWord is int, long and
    their unsigned forms, and the pointers to char, short, int and long.
   */
  datatype VarType = DoubleWord | VoidPointer | JustVoid

  /** What an identifier names; the ADDRESS bit of the source's idtype is a field of its own. */
  datatype IdType = NoId | Var(declared: VarType) | SysVar(declared: VarType) | SysCall

  /** Width of a node's value; byte and word widths are not part of this model. */
  datatype DataType = Void | DWord

  /** A looked-up identifier: its kind, and the address of its storage or of its function. */
  datatype Symbol = Symbol(id: IdType, at: Word)

  datatype Forest =
    | Nil
    | Node(kind: NodeType, id: IdType, value: Word, address: bool, data: DataType, child: Forest, sibling: Forest)

  /** A node as finsh_node_new_int/long/ptr/id leaves it. */
  function Leaf(kind: NodeType, id: IdType, value: Word, sibling: Forest): Forest {
    Node(kind, id, value, false, Void, Nil, sibling)
  }

  /** A node as make_sys_node leaves it. */
  function Branch(kind: NodeType, child: Forest, sibling: Forest): Forest {
    Node(kind, NoId, 0, false, Void, child, sibling)
  }

  datatype Expr =
    | Literal(kind: NodeType, value: Word)
    | Name(symbol: Symbol)
    | Binary(op: BinOp, left: Expr, right: Expr)
    | Complement(arg: Expr)
    | Negate(arg: Expr)
    | Plus(arg: Expr)
    | Set(target: Expr, source: Expr)
    | PreStep(up: bool, arg: Expr)
    | PostStep(up: bool, arg: Expr)
    | Deref(arg: Expr)
    | AddrOf(arg: Expr)
    | Call(fn: Expr, args: Args)

  datatype Args = NoArgs | Arg(first: Expr, rest: Args)

  function StepKind(pre: bool, up: bool): NodeType {
    if pre then (if up then PreInc else PreDec) else (if up then Inc else Dec)
  }

  /** The tree of an expression, in front of the given siblings; unary minus is 0 - x, unary plus is nothing. */
  function TreeOf(e: Expr, sibling: Forest): (f: Forest)
    ensures f.Node?
  {
    match e
    case Literal(kind, value) => Leaf(kind, NoId, value, sibling)
    case Name(symbol) => Leaf(Id, symbol.id, symbol.at, sibling)
    case Binary(op, left, right) => Branch(Arith(op), TreeOf(left, TreeOf(right, Nil)), sibling)
    case Complement(x) => Branch(Bitwise, TreeOf(x, Nil), sibling)
    case Negate(x) => Branch(Arith(Sub), Leaf(ValueLong, NoId, 0, TreeOf(x, Nil)), sibling)
    case Plus(x) => TreeOf(x, sibling)
    case Set(target, source) => Branch(Assign, TreeOf(target, TreeOf(source, Nil)), sibling)
    case PreStep(up, x) => Branch(StepKind(true, up), TreeOf(x, Nil), sibling)
    case PostStep(up, x) => Branch(StepKind(false, up), TreeOf(x, Nil), sibling)
    case Deref(x) => Branch(GetValue, TreeOf(x, Nil), sibling)
    case AddrOf(x) => Branch(GetAddr, TreeOf(x, Nil), sibling)
    case Call(fn, args) => Branch(Func, TreeOf(fn, TreesOf(args)), sibling)
  }

  function TreesOf(args: Args): Forest {
    match args
    case NoArgs => Nil
    case Arg(first, rest) => TreeOf(first, TreesOf(rest))
  }

  function Count(args: Args): nat {
    match args
    case NoArgs => 0
    case Arg(_, rest) => 1 + Count(rest)
  }

  /** Number of trees side by side. */
  function Width(f: Forest): nat {
    match f
    case Nil => 0
    case Node(_, _, _, _, _, _, sibling) => 1 + Width(sibling)
  }

  lemma WidthOfTree(e: Expr, sibling: Forest)
    ensures Width(TreeOf(e, sibling)) == 1 + Width(sibling)
  {
    if e.Plus? {
      WidthOfTree(e.arg, sibling);
    }
  }

  lemma {:induction false} WidthOfTrees(args: Args)
    ensures Width(TreesOf(args)) == Count(args)
  {
    if args.Arg? {
      WidthOfTrees(args.rest);
      WidthOfTree(args.first, TreesOf(args.rest));
    }
  }
}
