/**
  The finsh parser as functions from the unread tokens, and the proof that it reads back every
  expression written without parentheses: the tree has the right precedence and associativity and
  the token behind the expression stays unread.
 */
module FinshGrammar {
  import opened Kernel
  import opened FinshTree

  /** Tokens; an identifier comes with the outcome of its lookup. Type keywords are not part of this model. */
  datatype Token =
    | Identifier(symbol: Option<Symbol>)
    | Number(kind: NodeType, value: Word)
    | LeftParen | RightParen | Comma | Semicolon
    | AssignSign
    | BarSign | CaretSign | AmpSign | ShlSign | ShrSign | PlusSign | MinusSign | StarSign | SlashSign | PercentSign
    | TildeSign | IncSign | DecSign
    | Bad

  datatype Fault = NoFault | InvalidToken | UnknownType | ExpectOperator | MemoryFull | UnknownSymbol | NullNode

  /** The unread tokens, the free entries of the node table, and finsh_errno. */
  datatype Input = Input(ahead: seq<Token>, free: nat, error: Fault)

  /** A finished piece of tree, and what is left. */
  datatype Parsed = Parsed(tree: Forest, input: Input)

  const LAST := 6

  /** The two-operand operators of each level, loosest first. */
  function OperatorAt(level: nat, t: Token): Option<BinOp> {
    if level == 1 && t.BarSign? then Some(Or)
    else if level == 2 && t.CaretSign? then Some(Xor)
    else if level == 3 && t.AmpSign? then Some(And)
    else if level == 4 && t.ShlSign? then Some(Shl)
    else if level == 4 && t.ShrSign? then Some(Shr)
    else if level == 5 && t.PlusSign? then Some(Add)
    else if level == 5 && t.MinusSign? then Some(Sub)
    else if level == 6 && t.StarSign? then Some(Mul)
    else if level == 6 && t.SlashSign? then Some(Div)
    else if level == 6 && t.PercentSign? then Some(Mod)
    else None
  }

  function LevelOf(op: BinOp): (n: nat)
    ensures 1 <= n <= LAST
  {
    match op
    case Or => 1
    case Xor => 2
    case And => 3
    case Shl => 4
    case Shr => 4
    case Add => 5
    case Sub => 5
    case Mul => 6
    case Div => 6
    case Mod => 6
  }

  function SignOf(op: BinOp): (t: Token)
    ensures OperatorAt(LevelOf(op), t) == Some(op)
  {
    match op
    case Or => BarSign
    case Xor => CaretSign
    case And => AmpSign
    case Shl => ShlSign
    case Shr => ShrSign
    case Add => PlusSign
    case Sub => MinusSign
    case Mul => StarSign
    case Div => SlashSign
    case Mod => PercentSign
  }

  predicate Single(f: Forest) {
    f.Node? ==> f.sibling.Nil?
  }

  function Taken(i: Input): Input
    requires i.ahead != []
  {
    i.(ahead := i.ahead[1..])
  }

  predicate Peeks(i: Input, t: Token) {
    i.ahead != [] && i.ahead[0] == t
  }

  /** match_token: a token that is not the expected one stays unread. */
  function Matched(i: Input, t: Token): (r: Input)
    ensures |r.ahead| <= |i.ahead|
  {
    if Peeks(i, t) then Taken(i) else i.(error := InvalidToken)
  }

  /** finsh_node_new_id/int/long/ptr; a full table is an error. */
  function NewLeaf(kind: NodeType, id: IdType, value: Word, i: Input): (r: Parsed)
    ensures r.input.ahead == i.ahead && Single(r.tree)
  {
    if i.free == 0 then Parsed(Nil, i.(error := MemoryFull))
    else Parsed(Leaf(kind, id, value, Nil), i.(free := i.free - 1))
  }

  /** make_sys_node: without room, or without a first operand, what there is is dropped. */
  function MakeSys(kind: NodeType, first: Forest, second: Forest, i: Input): (r: Parsed)
    ensures r.input.ahead == i.ahead && Single(r.tree)
  {
    if i.free == 0 then Parsed(Nil, i.(error := NullNode))
    else if first.Nil? then Parsed(Branch(kind, Nil, Nil), i.(free := i.free - 1, error := NullNode))
    else Parsed(Branch(kind, first.(sibling := second), Nil), i.(free := i.free - 1))
  }

  /** What every expression rule promises: a token is read if there is one, and one tree comes back. */
  predicate Reads(i: Input, r: Parsed) {
    |r.input.ahead| <= |i.ahead| && (i.ahead != [] ==> |r.input.ahead| < |i.ahead|) && Single(r.tree)
  }

  /** proc_assign_expr */
  function AssignExpr(i: Input): (r: Parsed)
    ensures Reads(i, r)
    decreases |i.ahead|, 40, 0
  {
    var or := LevelExpr(1, i);
    if Peeks(or.input, AssignSign) then
      var source := AssignExpr(Taken(or.input));
      MakeSys(Assign, or.tree, source.tree, source.input)
    else or
  }

  /** proc_inclusive_or_expr down to proc_multiplicative_expr. */
  function LevelExpr(level: nat, i: Input): (r: Parsed)
    requires 1 <= level <= LAST
    ensures Reads(i, r)
    decreases |i.ahead|, 38 - 2 * level, 0
  {
    var first := OperandExpr(level, i);
    LevelLoop(level, first.tree, first.input)
  }

  function OperandExpr(level: nat, i: Input): (r: Parsed)
    requires 1 <= level <= LAST
    ensures Reads(i, r)
    decreases |i.ahead|, 37 - 2 * level, 0
  {
    if level == LAST then CastExpr(i) else LevelExpr(level + 1, i)
  }

  /** The while loop of one level. */
  function LevelLoop(level: nat, tree: Forest, i: Input): (r: Parsed)
    requires 1 <= level <= LAST && Single(tree)
    ensures |r.input.ahead| <= |i.ahead| && Single(r.tree)
    decreases |i.ahead|, 0
  {
    if i.ahead != [] && OperatorAt(level, i.ahead[0]).Some? then
      var x := LevelStep(level, OperatorAt(level, i.ahead[0]).value, tree, Taken(i));
      LevelLoop(level, x.tree, x.input)
    else Parsed(tree, i)
  }

  /** One turn of that loop, the operator read: a missing operand is reported and the operator dropped. */
  function LevelStep(level: nat, op: BinOp, tree: Forest, i: Input): (r: Parsed)
    requires 1 <= level <= LAST && Single(tree)
    ensures |r.input.ahead| <= |i.ahead| && Single(r.tree)
    decreases |i.ahead|, 38 - 2 * level, 1
  {
    var x := OperandExpr(level, i);
    if x.tree.Nil? then Parsed(tree, x.input.(error := ExpectOperator)) else MakeSys(Arith(op), tree, x.tree, x.input)
  }

  /**
    proc_cast_expr: a left parenthesis always starts a cast. Without a type keyword the type is
    unknown and the token in the type's place is read again.
   */
  function CastExpr(i: Input): (r: Parsed)
    ensures Reads(i, r)
    decreases |i.ahead|, 12
  {
    if Peeks(i, LeftParen) then
      var cast := CastExpr(Matched(Taken(i).(error := UnknownType), RightParen));
      if cast.tree.Node? then Parsed(cast.tree.(data := Void), cast.input) else UnaryExpr(cast.input)
    else UnaryExpr(i)
  }

  /** proc_unary_expr */
  function UnaryExpr(i: Input): (r: Parsed)
    ensures Reads(i, r)
    decreases |i.ahead|, 11
  {
    if i.ahead == [] then PostfixExpr(i)
    else
      match i.ahead[0]
      case PlusSign => CastExpr(Taken(i))
      case MinusSign => NegatedExpr(Taken(i))
      case IncSign => PrefixedExpr(PreInc, Taken(i))
      case DecSign => PrefixedExpr(PreDec, Taken(i))
      case TildeSign => PrefixedExpr(Bitwise, Taken(i))
      case StarSign => PrefixedExpr(GetValue, Taken(i))
      case AmpSign => PrefixedExpr(GetAddr, Taken(i))
      case _ => PostfixExpr(i)
  }

  /** Unary minus: a zero node is made once the operand is read. */
  function NegatedExpr(i: Input): (r: Parsed)
    ensures |r.input.ahead| <= |i.ahead| && Single(r.tree)
    decreases |i.ahead|, 13
  {
    var x := CastExpr(i);
    var zero := NewLeaf(ValueLong, NoId, 0, x.input);
    MakeSys(Arith(Sub), zero.tree, x.tree, zero.input)
  }

  function PrefixedExpr(kind: NodeType, i: Input): (r: Parsed)
    ensures |r.input.ahead| <= |i.ahead| && Single(r.tree)
    decreases |i.ahead|, 13
  {
    var x := CastExpr(i);
    MakeSys(kind, x.tree, Nil, x.input)
  }

  /** proc_postfix_expr */
  function PostfixExpr(i: Input): (r: Parsed)
    ensures Reads(i, r)
    decreases |i.ahead|, 9
  {
    var x := PrimaryExpr(i);
    PostfixLoop(x.tree, x.input)
  }

  function PostfixLoop(tree: Forest, i: Input): (r: Parsed)
    requires Single(tree)
    ensures |r.input.ahead| <= |i.ahead| && Single(r.tree)
    decreases |i.ahead|, 8
  {
    if i.ahead != [] && GoesOn(i.ahead[0]) then
      var x := PostfixStep(i.ahead[0], tree, Taken(i));
      PostfixLoop(x.tree, x.input)
    else Parsed(tree, i)
  }

  predicate GoesOn(t: Token) {
    t.IncSign? || t.DecSign? || t.LeftParen?
  }

  function PostfixStep(t: Token, tree: Forest, i: Input): (r: Parsed)
    requires Single(tree) && GoesOn(t)
    ensures |r.input.ahead| <= |i.ahead| && Single(r.tree)
    decreases |i.ahead|, 42
  {
    if t.LeftParen? then
      var args := Arguments(i);
      MakeSys(Func, tree, args.tree, args.input)
    else MakeSys(if t.IncSign? then Inc else Dec, tree, Nil, i)
  }

  /** The part of a call between its parentheses, and the right one. */
  function Arguments(i: Input): (r: Parsed)
    ensures |r.input.ahead| <= |i.ahead|
    decreases |i.ahead|, 41, 1
  {
    if Peeks(i, RightParen) then Parsed(Nil, Taken(i))
    else
      var list := ParamList(i);
      Parsed(list.tree, Matched(list.input, RightParen))
  }

  /** proc_primary_expr */
  function PrimaryExpr(i: Input): (r: Parsed)
    ensures Reads(i, r)
    decreases |i.ahead|, 7
  {
    if i.ahead == [] then Parsed(Nil, i.(error := InvalidToken))
    else
      match i.ahead[0]
      case Identifier(symbol) =>
        if symbol.None? then Parsed(Nil, Taken(i).(error := UnknownSymbol))
        else NewLeaf(Id, symbol.value.id, symbol.value.at, Taken(i))
      case LeftParen =>
        var x := AssignExpr(Taken(i));
        Parsed(x.tree, Matched(x.input, RightParen))
      case Number(kind, value) => NewLeaf(kind, NoId, value, Taken(i))
      case _ => Parsed(Nil, Taken(i).(error := InvalidToken))
  }

  /** proc_param_list */
  function ParamList(i: Input): (r: Parsed)
    ensures |r.input.ahead| <= |i.ahead|
    decreases |i.ahead|, 41, 0
  {
    var first := AssignExpr(i);
    if first.tree.Nil? then first
    else ParamLoop(first.tree, first.input)
  }

  /** list with one more tree at its end. */
  function Extended(list: Forest, last: Forest): (r: Forest)
    ensures list.Node? ==> r.Node?
  {
    match list
    case Nil => last
    case Node(_, _, _, _, _, _, sibling) => list.(sibling := Extended(sibling, last))
  }

  function ParamLoop(list: Forest, i: Input): (r: Parsed)
    ensures |r.input.ahead| <= |i.ahead|
    decreases |i.ahead|, 0
  {
    if Peeks(i, Comma) then
      var x := ParamStep(list, Taken(i));
      ParamLoop(x.tree, x.input)
    else Parsed(list, i)
  }

  function ParamStep(list: Forest, i: Input): (r: Parsed)
    ensures |r.input.ahead| <= |i.ahead|
    decreases |i.ahead|, 41, 0
  {
    var x := AssignExpr(i);
    if x.tree.Nil? then Parsed(list, x.input.(error := ExpectOperator)) else Parsed(Extended(list, x.tree), x.input)
  }

  /** proc_expr_statement */
  function Statement(i: Input): (r: Parsed)
    ensures Reads(i, r)
  {
    if Peeks(i, Semicolon) then Parsed(Nil, Taken(i))
    else
      var x := AssignExpr(i);
      Parsed(x.tree, Matched(x.input, Semicolon))
  }

  /**
    finsh_parser_run: statements up to the end of the line or a bad token. When a later statement that
    does not start with an identifier comes back empty, one more token is thrown away.
   */
  function Line(root: Forest, i: Input): Parsed
    decreases |i.ahead|
  {
    if i.ahead == [] || i.ahead[0].Bad? then Parsed(root, i)
    else
      var s := Statement(i);
      var skip := !i.ahead[0].Identifier? && root.Node? && s.tree.Nil? && s.input.ahead != [];
      Line(Extended(root, s.tree), if skip then Taken(s.input) else s.input)
  }

  // ---- what an author writes ----

  function Tokens(e: Expr): (ts: seq<Token>)
    ensures ts != []
  {
    match e
    case Literal(kind, value) => [Number(kind, value)]
    case Name(symbol) => [Identifier(Some(symbol))]
    case Binary(op, left, right) => Tokens(left) + ([SignOf(op)] + Tokens(right))
    case Complement(x) => [TildeSign] + Tokens(x)
    case Negate(x) => [MinusSign] + Tokens(x)
    case Plus(x) => [PlusSign] + Tokens(x)
    case Set(target, source) => Tokens(target) + ([AssignSign] + Tokens(source))
    case PreStep(up, x) => [if up then IncSign else DecSign] + Tokens(x)
    case PostStep(up, x) => Tokens(x) + [if up then IncSign else DecSign]
    case Deref(x) => [StarSign] + Tokens(x)
    case AddrOf(x) => [AmpSign] + Tokens(x)
    case Call(fn, args) => Tokens(fn) + ([LeftParen] + (ListTokens(args) + [RightParen]))
  }

  function ListTokens(args: Args): seq<Token> {
    match args
    case NoArgs => []
    case Arg(first, rest) => Tokens(first) + MoreTokens(rest)
  }

  function MoreTokens(args: Args): seq<Token> {
    match args
    case NoArgs => []
    case Arg(first, rest) => [Comma] + (Tokens(first) + MoreTokens(rest))
  }

  /** The level an expression belongs to: 0 assignments, 1 to 6 operators, 7 unary, 8 postfix, 9 primary. */
  function Rank(e: Expr): (n: nat)
    ensures n <= 9
  {
    match e
    case Literal(_, _) => 9
    case Name(_) => 9
    case Binary(op, _, _) => LevelOf(op)
    case Set(_, _) => 0
    case PostStep(_, _) => 8
    case Call(_, _) => 8
    case _ => 7
  }

  /** e can stand at a place of level n without parentheses, and so can its parts at theirs. */
  predicate Fits(e: Expr, n: nat) {
    Rank(e) >= n &&
    match e
    case Literal(_, _) => true
    case Name(_) => true
    case Binary(op, left, right) => Fits(left, LevelOf(op)) && Fits(right, LevelOf(op) + 1)
    case Complement(x) => Fits(x, 7)
    case Negate(x) => Fits(x, 7)
    case Plus(x) => Fits(x, 7)
    case Set(target, source) => Fits(target, 1) && Fits(source, 0)
    case PreStep(_, x) => Fits(x, 7)
    case PostStep(_, x) => Fits(x, 8)
    case Deref(x) => Fits(x, 7)
    case AddrOf(x) => Fits(x, 7)
    case Call(fn, args) => Fits(fn, 8) && AllFit(args)
  }

  predicate AllFit(args: Args) {
    match args
    case NoArgs => true
    case Arg(first, rest) => Fits(first, 0) && AllFit(rest)
  }

  /** Entries of the node table that e's tree takes. */
  function Cost(e: Expr): (n: nat)
    ensures n > 0
  {
    match e
    case Literal(_, _) => 1
    case Name(_) => 1
    case Binary(_, left, right) => Cost(left) + Cost(right) + 1
    case Negate(x) => Cost(x) + 2
    case Plus(x) => Cost(x)
    case Set(target, source) => Cost(target) + Cost(source) + 1
    case Call(fn, args) => Cost(fn) + ListCost(args) + 1
    case Complement(x) => Cost(x) + 1
    case PreStep(_, x) => Cost(x) + 1
    case PostStep(_, x) => Cost(x) + 1
    case Deref(x) => Cost(x) + 1
    case AddrOf(x) => Cost(x) + 1
  }

  function ListCost(args: Args): nat {
    match args
    case NoArgs => 0
    case Arg(first, rest) => Cost(first) + ListCost(rest)
  }

  /** What follows an expression of level n does not go on with it. */
  predicate Stops(n: nat, rest: seq<Token>) {
    rest == [] ||
    (!rest[0].IncSign? && !rest[0].DecSign? && !rest[0].LeftParen? &&
     (n == 0 ==> !rest[0].AssignSign?) &&
     forall level: nat :: 1 <= level <= LAST && n <= level ==> OperatorAt(level, rest[0]).None?)
  }

  /** An input that begins with the tokens ts, with room for cost nodes. */
  predicate Begins(i: Input, ts: seq<Token>, rest: seq<Token>, cost: nat) {
    i.ahead == ts + rest && i.free >= cost
  }

  /** The tree of e has been read off i, and rest is next. */
  function ReadOff(tree: Forest, i: Input, rest: seq<Token>, cost: nat): Parsed
    requires cost <= i.free
  {
    Parsed(tree, i.(ahead := rest, free := i.free - cost))
  }

  // ---- the parser reads it back ----

  lemma FirstToken(e: Expr)
    ensures !Tokens(e)[0].LeftParen? && !Tokens(e)[0].RightParen? && !Tokens(e)[0].Semicolon? && !Tokens(e)[0].Bad?
    ensures (e.Literal? || e.Name? || e.PostStep? || e.Call?) && Fits(e, 8) ==> Tokens(e)[0].Number? || Tokens(e)[0].Identifier?
  {
    match e
    case Binary(_, left, _) => FirstToken(left);
    case Set(target, _) => FirstToken(target);
    case PostStep(_, x) =>
      FirstToken(x);
      assert Fits(e, 8) ==> Fits(x, 8) && Rank(x) >= 8;
    case Call(fn, _) =>
      FirstToken(fn);
      assert Fits(e, 8) ==> Fits(fn, 8) && Rank(fn) >= 8;
    case _ =>
  }

  lemma Resibling(e: Expr, sibling: Forest)
    ensures var f := TreeOf(e, Nil); f.Node? && f.(sibling := sibling) == TreeOf(e, sibling)
    ensures Single(TreeOf(e, Nil))
  {
    if e.Plus? {
      Resibling(e.arg, sibling);
    }
  }

  lemma StopsHigher(n: nat, rest: seq<Token>)
    requires Stops(n, rest)
    ensures Stops(n + 1, rest)
  {
  }

  lemma SignStops(op: BinOp, rest: seq<Token>)
    ensures Stops(LevelOf(op) + 1, [SignOf(op)] + rest)
  {
  }

  lemma LoopStops(n: nat, tree: Forest, i: Input)
    requires 1 <= n <= LAST && Single(tree) && Stops(n, i.ahead)
    ensures LevelLoop(n, tree, i) == Parsed(tree, i)
  {
  }

  /** An operator level reads e, and goes on with what follows it. */
  lemma {:induction false} ParsesLevel(e: Expr, n: nat, rest: seq<Token>, i: Input)
    requires 1 <= n <= LAST && Fits(e, n) && Stops(n + 1, rest)
    requires Begins(i, Tokens(e), rest, Cost(e))
    ensures Single(TreeOf(e, Nil))
    ensures LevelExpr(n, i) == LevelLoop(n, TreeOf(e, Nil), ReadOff(Nil, i, rest, Cost(e)).input)
    decreases e, 20 - 2 * n
  {
    Resibling(e, Nil);
    if e.Binary? && LevelOf(e.op) == n {
      ParsesBinary(e, n, rest, i);
    } else {
      ParsesOperand(e, n, rest, i);
    }
  }

  /** The left operand is read by the same level, the right one by the next. */
  lemma {:induction false} ParsesBinary(e: Expr, n: nat, rest: seq<Token>, i: Input)
    requires 1 <= n <= LAST && Fits(e, n) && Stops(n + 1, rest) && e.Binary? && LevelOf(e.op) == n
    requires Begins(i, Tokens(e), rest, Cost(e)) && Single(TreeOf(e, Nil))
    ensures LevelExpr(n, i) == LevelLoop(n, TreeOf(e, Nil), ReadOff(Nil, i, rest, Cost(e)).input)
    decreases e, 0
  {
    var Binary(op, left, right) := e;
    var after := [SignOf(op)] + (Tokens(right) + rest);
    assert i.ahead == Tokens(left) + after;
    SignStops(op, Tokens(right) + rest);
    ParsesLevel(left, n, after, i);
    var j := ReadOff(Nil, i, after, Cost(left)).input;
    assert Taken(j).ahead == Tokens(right) + rest;
    ParsesOperand(right, n, rest, Taken(j));
    Resibling(left, TreeOf(right, Nil));
  }

  lemma {:induction false} ParsesOperand(e: Expr, n: nat, rest: seq<Token>, i: Input)
    requires 1 <= n <= LAST && Fits(e, n + 1) && Stops(n + 1, rest)
    requires Begins(i, Tokens(e), rest, Cost(e))
    ensures OperandExpr(n, i) == ReadOff(TreeOf(e, Nil), i, rest, Cost(e))
    decreases e, 19 - 2 * n
  {
    if n == LAST {
      ParsesCast(e, rest, i);
    } else {
      StopsHigher(n + 1, rest);
      ParsesLevel(e, n + 1, rest, i);
      LoopStops(n + 1, TreeOf(e, Nil), ReadOff(Nil, i, rest, Cost(e)).input);
    }
  }

  lemma {:induction false} ParsesCast(e: Expr, rest: seq<Token>, i: Input)
    requires Fits(e, 7) && Stops(7, rest)
    requires Begins(i, Tokens(e), rest, Cost(e))
    ensures CastExpr(i) == ReadOff(TreeOf(e, Nil), i, rest, Cost(e))
    decreases e, 4
  {
    FirstToken(e);
    assert i.ahead[0] == Tokens(e)[0];
    if Rank(e) == 7 {
      ParsesUnary(e, rest, i);
    } else {
      ParsesPostfix(e, rest, i);
      Resibling(e, Nil);
    }
  }

  lemma {:induction false} ParsesUnary(e: Expr, rest: seq<Token>, i: Input)
    requires Fits(e, 7) && Stops(7, rest) && Rank(e) == 7
    requires Begins(i, Tokens(e), rest, Cost(e))
    ensures UnaryExpr(i) == ReadOff(TreeOf(e, Nil), i, rest, Cost(e))
    decreases e, 3
  {
    var x := ReadOff(TreeOf(e.arg, Nil), Taken(i), rest, Cost(e.arg));
    ParsesPrefixed(e, rest, i, x);
    Resibling(e.arg, Nil);
    UnaryTree(e, i, x);
  }

  lemma {:induction false} ParsesPrefixed(e: Expr, rest: seq<Token>, i: Input, x: Parsed)
    requires Fits(e, 7) && Stops(7, rest) && Rank(e) == 7
    requires Begins(i, Tokens(e), rest, Cost(e)) && x == ReadOff(TreeOf(e.arg, Nil), Taken(i), rest, Cost(e.arg))
    ensures i.ahead != [] && i.ahead[0] == Tokens(e)[0] && CastExpr(Taken(i)) == x
    decreases e, 2
  {
    assert Taken(i).ahead == Tokens(e.arg) + rest;
    ParsesCast(e.arg, rest, Taken(i));
  }

  /** The node of a prefix operator, its operand read. */
  lemma UnaryTree(e: Expr, i: Input, x: Parsed)
    requires Rank(e) == 7 && i.ahead != [] && i.ahead[0] == Tokens(e)[0]
    requires CastExpr(Taken(i)) == x && x.tree == TreeOf(e.arg, Nil) && x.tree.sibling.Nil?
    requires x.input.free + Cost(e.arg) >= Cost(e)
    ensures UnaryExpr(i) == Parsed(TreeOf(e, Nil), x.input.(free := x.input.free - (Cost(e) - Cost(e.arg))))
  {
    if e.Negate? {
      NegateRead(i, x);
    } else if e.Plus? {
      PlusRead(i, x);
    } else {
      UnaryRead(i, TreeOf(e, Nil).kind, x);
    }
  }

  function KindOf(t: Token): NodeType {
    match t
    case IncSign => PreInc
    case DecSign => PreDec
    case TildeSign => Bitwise
    case StarSign => GetValue
    case AmpSign => GetAddr
    case _ => Unknown
  }

  lemma UnaryRead(i: Input, kind: NodeType, x: Parsed)
    requires i.ahead != [] && KindOf(i.ahead[0]) == kind != Unknown
    requires CastExpr(Taken(i)) == x && x.input.free >= 1 && x.tree.Node? && x.tree.sibling.Nil?
    ensures UnaryExpr(i) == Parsed(Branch(kind, x.tree, Nil), x.input.(free := x.input.free - 1))
  {
    UnaryPrefix(i, kind);
    assert x.tree.(sibling := Nil) == x.tree;
  }

  lemma UnaryPrefix(i: Input, kind: NodeType)
    requires i.ahead != [] && KindOf(i.ahead[0]) == kind != Unknown
    ensures UnaryExpr(i) == PrefixedExpr(kind, Taken(i))
  {
  }

  lemma PlusRead(i: Input, x: Parsed)
    requires Peeks(i, PlusSign) && CastExpr(Taken(i)) == x
    ensures UnaryExpr(i) == x
  {
  }

  lemma NegateRead(i: Input, x: Parsed)
    requires Peeks(i, MinusSign) && CastExpr(Taken(i)) == x && x.input.free >= 2
    ensures UnaryExpr(i) == Parsed(Branch(Arith(Sub), Leaf(ValueLong, NoId, 0, x.tree), Nil), x.input.(free := x.input.free - 2))
  {
  }

  lemma {:induction false} ParsesPostfix(e: Expr, rest: seq<Token>, i: Input)
    requires Fits(e, 8)
    requires Begins(i, Tokens(e), rest, Cost(e))
    ensures Single(TreeOf(e, Nil))
    ensures PostfixExpr(i) == PostfixLoop(TreeOf(e, Nil), ReadOff(Nil, i, rest, Cost(e)).input)
    decreases e, 2
  {
    match e
    case Literal(_, _) => assert Taken(i).ahead == rest;
    case Name(_) => assert Taken(i).ahead == rest;
    case PostStep(_, _) => ParsesPostStep(e, rest, i);
    case Call(_, _) => ParsesCall(e, rest, i);
  }

  lemma {:induction false} ParsesPostStep(e: Expr, rest: seq<Token>, i: Input)
    requires Fits(e, 8) && e.PostStep?
    requires Begins(i, Tokens(e), rest, Cost(e))
    ensures PostfixExpr(i) == PostfixLoop(TreeOf(e, Nil), ReadOff(Nil, i, rest, Cost(e)).input)
    decreases e, 0
  {
    var after := [if e.up then IncSign else DecSign] + rest;
    assert i.ahead == Tokens(e.arg) + after;
    ParsesPostfix(e.arg, after, i);
    Resibling(e.arg, Nil);
    var tree, j := TreeOf(e.arg, Nil), ReadOff(Nil, i, after, Cost(e.arg)).input;
    StepRead(tree, j, e.up, rest);
    assert Branch(StepKind(false, e.up), tree, Nil) == TreeOf(e, Nil);
    assert j.(ahead := rest, free := j.free - 1) == ReadOff(Nil, i, rest, Cost(e)).input;
  }

  lemma StepRead(tree: Forest, i: Input, up: bool, rest: seq<Token>)
    requires tree.Node? && tree.sibling.Nil? && i.free >= 1
    requires i.ahead == [if up then IncSign else DecSign] + rest
    ensures PostfixLoop(tree, i) == PostfixLoop(Branch(StepKind(false, up), tree, Nil), i.(ahead := rest, free := i.free - 1))
  {
    assert Taken(i).ahead == rest;
  }

  lemma CallRead(tree: Forest, i: Input, args: Parsed)
    requires tree.Node? && tree.sibling.Nil? && Peeks(i, LeftParen)
    requires Arguments(Taken(i)) == args && args.input.free >= 1
    ensures PostfixLoop(tree, i) ==
            PostfixLoop(Branch(Func, tree.(sibling := args.tree), Nil), args.input.(free := args.input.free - 1))
  {
  }

  lemma {:induction false} ParsesCall(e: Expr, rest: seq<Token>, i: Input)
    requires Fits(e, 8) && e.Call?
    requires Begins(i, Tokens(e), rest, Cost(e))
    ensures PostfixExpr(i) == PostfixLoop(TreeOf(e, Nil), ReadOff(Nil, i, rest, Cost(e)).input)
    decreases e, 0
  {
    var inner := ListTokens(e.args) + ([RightParen] + rest);
    var after := [LeftParen] + inner;
    assert i.ahead == Tokens(e.fn) + after;
    ParsesPostfix(e.fn, after, i);
    var j := ReadOff(Nil, i, after, Cost(e.fn)).input;
    assert Taken(j).ahead == inner;
    ParsesArguments(e.args, rest, Taken(j));
    Resibling(e.fn, Nil);
    Resibling(e.fn, TreesOf(e.args));
    CallRead(TreeOf(e.fn, Nil), j, ReadOff(TreesOf(e.args), Taken(j), rest, ListCost(e.args)));
  }

  lemma {:induction false} ParsesArguments(args: Args, rest: seq<Token>, i: Input)
    requires AllFit(args)
    requires Begins(i, ListTokens(args), [RightParen] + rest, ListCost(args))
    ensures Arguments(i) == ReadOff(TreesOf(args), i, rest, ListCost(args))
    decreases args, 1
  {
    var close := [RightParen] + rest;
    if args.NoArgs? {
      assert i.ahead == close;
    } else {
      ParsesList(args, close, i);
    }
  }

  lemma {:induction false} ParsesList(args: Args, close: seq<Token>, i: Input)
    requires AllFit(args) && args.Arg? && close != [] && close[0].RightParen?
    requires Begins(i, ListTokens(args), close, ListCost(args))
    ensures Arguments(i) == Parsed(TreesOf(args), Matched(i.(ahead := close, free := i.free - ListCost(args)), RightParen))
    decreases args, 0
  {
    var Arg(first, more) := args;
    var after := MoreTokens(more) + close;
    assert i.ahead == Tokens(first) + after;
    var x := ReadOff(TreeOf(first, Nil), i, after, Cost(first));
    FirstExpression(first, after, i, x);
    ParsesMore(x.tree, more, close, x.input);
    ExtendedTree(first, TreesOf(more));
    assert ParamList(i) == ReadOff(TreesOf(args), i, close, ListCost(args));
  }

  /** An expression at the front: how it is read, and that nothing else begins like it. */
  lemma FirstExpression(e: Expr, rest: seq<Token>, i: Input, x: Parsed)
    requires Fits(e, 0) && Stops(0, rest) && Begins(i, Tokens(e), rest, Cost(e))
    requires x == ReadOff(TreeOf(e, Nil), i, rest, Cost(e))
    ensures AssignExpr(i) == x
    ensures i.ahead != [] && !i.ahead[0].RightParen? && !i.ahead[0].Semicolon?
    decreases e, 31
  {
    FirstToken(e);
    assert i.ahead[0] == Tokens(e)[0];
    ParsesAssign(e, rest, i);
  }

  lemma ExtendedTree(e: Expr, more: Forest)
    ensures Extended(TreeOf(e, Nil), more) == TreeOf(e, more)
  {
    Resibling(e, more);
  }

  lemma {:induction false} ExtendedTwice(list: Forest, a: Forest, b: Forest)
    ensures Extended(Extended(list, a), b) == Extended(list, Extended(a, b))
  {
    if list.Node? {
      ExtendedTwice(list.sibling, a, b);
    }
  }

  lemma ExtendedNil(list: Forest)
    ensures Extended(list, Nil) == list
  {
  }

  lemma {:induction false} ParsesMore(list: Forest, args: Args, rest: seq<Token>, i: Input)
    requires AllFit(args) && rest != [] && rest[0].RightParen?
    requires Begins(i, MoreTokens(args), rest, ListCost(args))
    ensures ParamLoop(list, i) == ReadOff(Extended(list, TreesOf(args)), i, rest, ListCost(args))
    decreases args, 0
  {
    match args
    case NoArgs =>
      assert i.ahead == rest;
      ExtendedNil(list);
    case Arg(first, more) =>
      var after := MoreTokens(more) + rest;
      var x := ReadOff(TreeOf(first, Nil), Taken(i), after, Cost(first));
      assert AssignExpr(Taken(i)) == x by {
        assert Taken(i).ahead == Tokens(first) + after;
        ParsesAssign(first, after, Taken(i));
      }
      assert ParamLoop(list, i) == ParamLoop(Extended(list, x.tree), x.input);
      ParsesMore(Extended(list, x.tree), more, rest, x.input);
      ExtendedTwice(list, x.tree, TreesOf(more));
      ExtendedTree(first, TreesOf(more));
  }

  /** The parser gives back the tree of every expression written without parentheses, and reads no further. */
  lemma {:induction false} ParsesAssign(e: Expr, rest: seq<Token>, i: Input)
    requires Fits(e, 0) && Stops(0, rest)
    requires Begins(i, Tokens(e), rest, Cost(e))
    ensures AssignExpr(i) == ReadOff(TreeOf(e, Nil), i, rest, Cost(e))
    decreases e, 30
  {
    if e.Set? {
      ParsesSet(e, rest, i);
    } else {
      StopsHigher(0, rest);
      StopsHigher(1, rest);
      ParsesLevel(e, 1, rest, i);
      LoopStops(1, TreeOf(e, Nil), ReadOff(Nil, i, rest, Cost(e)).input);
    }
  }

  lemma {:induction false} ParsesSet(e: Expr, rest: seq<Token>, i: Input)
    requires Fits(e, 0) && Stops(0, rest) && e.Set?
    requires Begins(i, Tokens(e), rest, Cost(e))
    ensures AssignExpr(i) == ReadOff(TreeOf(e, Nil), i, rest, Cost(e))
    decreases e, 0
  {
    var Set(target, source) := e;
    var after := [AssignSign] + (Tokens(source) + rest);
    assert i.ahead == Tokens(target) + after;
    ParsesLevel(target, 1, after, i);
    var j := ReadOff(Nil, i, after, Cost(target)).input;
    LoopStops(1, TreeOf(target, Nil), j);
    assert Taken(j).ahead == Tokens(source) + rest;
    ParsesAssign(source, rest, Taken(j));
    Resibling(target, TreeOf(source, Nil));
  }

  function LineTokens(stmts: Args): seq<Token> {
    match stmts
    case NoArgs => []
    case Arg(first, rest) => Tokens(first) + ([Semicolon] + LineTokens(rest))
  }

  /** A line of statements is read into their trees side by side, without an error. */
  lemma {:induction false} ParsesLine(root: Forest, stmts: Args, i: Input)
    requires AllFit(stmts) && Begins(i, LineTokens(stmts), [], ListCost(stmts))
    ensures Line(root, i) == ReadOff(Extended(root, TreesOf(stmts)), i, [], ListCost(stmts))
    decreases stmts
  {
    match stmts
    case NoArgs =>
      ExtendedNil(root);
    case Arg(first, rest) =>
      var after := [Semicolon] + LineTokens(rest);
      assert i.ahead == Tokens(first) + after;
      FirstToken(first);
      assert i.ahead[0] == Tokens(first)[0];
      var x := ReadOff(TreeOf(first, Nil), i, after, Cost(first));
      ParsesAssign(first, after, i);
      assert Taken(x.input).ahead == LineTokens(rest) + [];
      StatementRead(root, i, x);
      ParsesLine(Extended(root, x.tree), rest, Taken(x.input));
      ExtendedTwice(root, x.tree, TreesOf(rest));
      ExtendedTree(first, TreesOf(rest));
  }

  lemma StatementRead(root: Forest, i: Input, x: Parsed)
    requires i.ahead != [] && !i.ahead[0].Semicolon? && !i.ahead[0].Bad?
    requires AssignExpr(i) == x && x.tree.Node? && Peeks(x.input, Semicolon)
    ensures Line(root, i) == Line(Extended(root, x.tree), Taken(x.input))
  {
  }

  /** An empty statement that is not the first makes the parser lose the token behind it. */
  lemma EmptyStatementLosesToken(x: Symbol, rest: seq<Token>, free: nat, error: Fault)
    ensures var root := Leaf(Id, x.id, x.at, Nil);
            Line(root, Input([Semicolon, Identifier(Some(x))] + rest, free, error)) == Line(root, Input(rest, free, error))
  {
    var root := Leaf(Id, x.id, x.at, Nil);
    var i := Input([Semicolon, Identifier(Some(x))] + rest, free, error);
    assert Taken(i).ahead == [Identifier(Some(x))] + rest;
    assert Taken(Taken(i)) == Input(rest, free, error);
    ExtendedNil(root);
  }

  // ---- stray semicolons ----

  /** A line as typed: statements, some of them empty. */
  datatype Items = Done | Blank(rest: Items) | Item(e: Expr, rest: Items)

  function ItemTokens(items: Items): seq<Token> {
    match items
    case Done => []
    case Blank(rest) => [Semicolon] + ItemTokens(rest)
    case Item(e, rest) => Tokens(e) + ([Semicolon] + ItemTokens(rest))
  }

  /** The statements that are not empty. */
  function Written(items: Items): Args {
    match items
    case Done => NoArgs
    case Blank(rest) => Written(rest)
    case Item(e, rest) => Arg(e, Written(rest))
  }

  /** How many empty statements the line begins with, and what follows them. */
  function Blanks(items: Items): nat {
    if items.Blank? then 1 + Blanks(items.rest) else 0
  }

  function AfterBlanks(items: Items): (r: Items)
    ensures r == items || r < items
    ensures !r.Blank?
    ensures Written(r) == Written(items)
  {
    if items.Blank? then AfterBlanks(items.rest) else items
  }

  predicate Even(k: nat) {
    k == 0 || !Even(k - 1)
  }

  /** Every run of empty statements behind a statement and in front of another has even length. */
  predicate EvenRuns(items: Items, started: bool)
    decreases items
  {
    var tail := AfterBlanks(items);
    tail.Item? ==> (started ==> Even(Blanks(items))) && EvenRuns(tail.rest, true)
  }

  /** The parser's skipping throws away nothing but semicolons: each statement is read from its first token. */
  predicate KeepsTokens(root: Forest, i: Input)
    decreases |i.ahead|
  {
    if i.ahead == [] || i.ahead[0].Bad? then true
    else
      var s := Statement(i);
      var skip := !i.ahead[0].Identifier? && root.Node? && s.tree.Nil? && s.input.ahead != [];
      (skip ==> s.input.ahead[0].Semicolon?) &&
      KeepsTokens(Extended(root, s.tree), if skip then Taken(s.input) else s.input)
  }

  lemma BlankRead(root: Forest, i: Input)
    requires Peeks(i, Semicolon)
    ensures var next := Taken(i);
            if root.Node? && next.ahead != [] then
              Line(root, i) == Line(root, Taken(next)) &&
              (KeepsTokens(root, i) <==> next.ahead[0].Semicolon? && KeepsTokens(root, Taken(next)))
            else
              Line(root, i) == Line(root, next) && (KeepsTokens(root, i) <==> KeepsTokens(root, next))
  {
    ExtendedNil(root);
  }

  lemma ItemRead(root: Forest, e: Expr, more: seq<Token>, i: Input)
    requires Fits(e, 0) && Begins(i, Tokens(e), [Semicolon] + more, Cost(e))
    ensures var next := i.(ahead := more, free := i.free - Cost(e));
            Line(root, i) == Line(Extended(root, TreeOf(e, Nil)), next) &&
            (KeepsTokens(root, i) <==> KeepsTokens(Extended(root, TreeOf(e, Nil)), next))
  {
    FirstToken(e);
    assert i.ahead[0] == Tokens(e)[0];
    ExpressionRead(e, more, i);
  }

  lemma ExpressionRead(e: Expr, more: seq<Token>, i: Input)
    requires Fits(e, 0) && Begins(i, Tokens(e), [Semicolon] + more, Cost(e))
    ensures Statement(i) == Parsed(TreeOf(e, Nil), i.(ahead := more, free := i.free - Cost(e)))
  {
    var x := ReadOff(TreeOf(e, Nil), i, [Semicolon] + more, Cost(e));
    FirstExpression(e, [Semicolon] + more, i, x);
    StatementOf(i, x);
    assert ([Semicolon] + more)[1..] == more;
  }

  lemma StatementOf(i: Input, x: Parsed)
    requires i.ahead != [] && !i.ahead[0].Semicolon? && AssignExpr(i) == x && Peeks(x.input, Semicolon)
    ensures Statement(i) == Parsed(x.tree, Taken(x.input))
  {
  }

  lemma ExtendedNode(root: Forest, tree: Forest)
    requires tree.Node?
    ensures Extended(root, tree).Node?
  {
  }

  lemma TwoBlanks(items: Items)
    requires items.Blank? && items.rest.Blank?
    ensures EvenRuns(items, true) <==> EvenRuns(items.rest.rest, true)
  {
    var k := Blanks(items.rest.rest);
    assert AfterBlanks(items) == AfterBlanks(items.rest.rest);
    assert Blanks(items.rest) == k + 1 && Blanks(items) == k + 2;
    assert Even(k + 2) == !Even(k + 1) == Even(k);
  }

  lemma OneBlank(items: Items)
    requires items.Blank?
    ensures EvenRuns(items, false) <==> EvenRuns(items.rest, false)
    ensures items.rest.Item? ==> !EvenRuns(items, true)
    ensures items.rest.Done? ==> EvenRuns(items, true) && EvenRuns(items.rest, true)
  {
    assert AfterBlanks(items) == AfterBlanks(items.rest);
    if items.rest.Item? {
      assert AfterBlanks(items.rest) == items.rest && Blanks(items) == 1 && !Even(1);
    }
  }

  /** Each statement of a typed line is read from its first token exactly when the runs between statements are even. */
  lemma {:induction false} KeepsTokensExactly(root: Forest, items: Items, i: Input)
    requires AllFit(Written(items)) && i.ahead == ItemTokens(items) && i.free >= ListCost(Written(items))
    ensures KeepsTokens(root, i) <==> EvenRuns(items, root.Node?)
    ensures EvenRuns(items, root.Node?) ==>
            Line(root, i) == ReadOff(Extended(root, TreesOf(Written(items))), i, [], ListCost(Written(items)))
    decreases items
  {
    match items
    case Done =>
      ExtendedNil(root);
    case Blank(rest) =>
      BlankRead(root, i);
      OneBlank(items);
      assert Taken(i).ahead == ItemTokens(rest);
      if root.Nil? || rest.Done? {
        KeepsTokensExactly(root, rest, Taken(i));
      } else if rest.Blank? {
        assert Taken(Taken(i)).ahead == ItemTokens(rest.rest);
        TwoBlanks(items);
        KeepsTokensExactly(root, rest.rest, Taken(Taken(i)));
      } else {
        FirstToken(rest.e);
        assert ItemTokens(rest)[0] == Tokens(rest.e)[0];
      }
    case Item(e, rest) =>
      ItemRead(root, e, ItemTokens(rest), i);
      var next := i.(ahead := ItemTokens(rest), free := i.free - Cost(e));
      ExtendedNode(root, TreeOf(e, Nil));
      KeepsTokensExactly(Extended(root, TreeOf(e, Nil)), rest, next);
      ExtendedTwice(root, TreeOf(e, Nil), TreesOf(Written(rest)));
      ExtendedTree(e, TreesOf(Written(rest)));
  }

  // ---- the signs of C ----

  datatype Sign = Sign(binding: nat, op: BinOp)

  /** The two-operand operators of C that finsh has, the larger number binding more tightly. */
  function InC(t: Token): Option<Sign> {
    match t
    case StarSign => Some(Sign(10, Mul))
    case SlashSign => Some(Sign(10, Div))
    case PercentSign => Some(Sign(10, Mod))
    case PlusSign => Some(Sign(9, Add))
    case MinusSign => Some(Sign(9, Sub))
    case ShlSign => Some(Sign(8, Shl))
    case ShrSign => Some(Sign(8, Shr))
    case AmpSign => Some(Sign(5, And))
    case CaretSign => Some(Sign(4, Xor))
    case BarSign => Some(Sign(3, Or))
    case _ => None
  }

  lemma SignsOfC(s: Token, t: Token)
    requires InC(s).Some? && InC(t).Some?
    ensures SignOf(InC(s).value.op) == s && SignOf(InC(t).value.op) == t
    ensures LevelOf(InC(s).value.op) < LevelOf(InC(t).value.op) <==> InC(s).value.binding < InC(t).value.binding
  {
  }

  /** x s y t z */
  function Chain(x: Symbol, s: Token, y: Symbol, t: Token, z: Symbol): seq<Token> {
    [Identifier(Some(x))] + ([s] + [Identifier(Some(y))]) + ([t] + [Identifier(Some(z))])
  }

  /** x s y t z is read as C reads it: y goes with t exactly if t binds more tightly. */
  lemma OperatorsBindAsInC(x: Symbol, s: Token, y: Symbol, t: Token, z: Symbol, rest: seq<Token>, i: Input)
    requires InC(s).Some? && InC(t).Some? && Stops(0, rest) && i.ahead == Chain(x, s, y, t, z) + rest && i.free >= 5
    ensures var (a, b) := (InC(s).value, InC(t).value);
            AssignExpr(i) == ReadOff(TreeOf(if a.binding < b.binding then Binary(a.op, Name(x), Binary(b.op, Name(y), Name(z)))
                                            else Binary(b.op, Binary(a.op, Name(x), Name(y)), Name(z)), Nil), i, rest, 5)
  {
    SignsOfC(s, t);
    var (a, b) := (InC(s).value, InC(t).value);
    if a.binding < b.binding {
      RightChain(x, a.op, y, b.op, z, rest, i);
    } else {
      LeftChain(x, a.op, y, b.op, z, rest, i);
    }
  }

  lemma RightChain(x: Symbol, a: BinOp, y: Symbol, b: BinOp, z: Symbol, rest: seq<Token>, i: Input)
    requires LevelOf(a) < LevelOf(b) && Stops(0, rest) && i.ahead == Chain(x, SignOf(a), y, SignOf(b), z) + rest && i.free >= 5
    ensures AssignExpr(i) == ReadOff(TreeOf(Binary(a, Name(x), Binary(b, Name(y), Name(z))), Nil), i, rest, 5)
  {
    RightFits(x, a, y, b, z, Binary(b, Name(y), Name(z)));
    ParsesAssign(Binary(a, Name(x), Binary(b, Name(y), Name(z))), rest, i);
  }

  lemma RightFits(x: Symbol, a: BinOp, y: Symbol, b: BinOp, z: Symbol, inner: Expr)
    requires LevelOf(a) < LevelOf(b) && inner == Binary(b, Name(y), Name(z))
    ensures var e := Binary(a, Name(x), inner); Fits(e, 0) && Cost(e) == 5 && Tokens(e) == Chain(x, SignOf(a), y, SignOf(b), z)
  {
    assert Fits(Name(y), LevelOf(b)) && Fits(Name(z), LevelOf(b) + 1) && Fits(inner, LevelOf(a) + 1) && Fits(Name(x), LevelOf(a));
    assert Cost(Name(x)) == 1 && Cost(inner) == 3;
    assert Tokens(inner) == [Identifier(Some(y))] + ([SignOf(b)] + [Identifier(Some(z))]);
  }

  lemma LeftChain(x: Symbol, a: BinOp, y: Symbol, b: BinOp, z: Symbol, rest: seq<Token>, i: Input)
    requires LevelOf(b) <= LevelOf(a) && Stops(0, rest) && i.ahead == Chain(x, SignOf(a), y, SignOf(b), z) + rest && i.free >= 5
    ensures AssignExpr(i) == ReadOff(TreeOf(Binary(b, Binary(a, Name(x), Name(y)), Name(z)), Nil), i, rest, 5)
  {
    LeftFits(x, a, y, b, z, Binary(a, Name(x), Name(y)));
    ParsesAssign(Binary(b, Binary(a, Name(x), Name(y)), Name(z)), rest, i);
  }

  lemma LeftFits(x: Symbol, a: BinOp, y: Symbol, b: BinOp, z: Symbol, inner: Expr)
    requires LevelOf(b) <= LevelOf(a) && inner == Binary(a, Name(x), Name(y))
    ensures var e := Binary(b, inner, Name(z)); Fits(e, 0) && Cost(e) == 5 && Tokens(e) == Chain(x, SignOf(a), y, SignOf(b), z)
  {
    assert Fits(Name(x), LevelOf(a)) && Fits(Name(y), LevelOf(a) + 1) && Fits(inner, LevelOf(b)) && Fits(Name(z), LevelOf(b) + 1);
    assert Cost(Name(z)) == 1 && Cost(inner) == 3;
    assert Tokens(inner) == [Identifier(Some(x))] + ([SignOf(a)] + [Identifier(Some(y))]);
  }

  /** The prefix operators of C that finsh has. */
  function PrefixInC(t: Token, x: Expr): Option<Expr> {
    match t
    case TildeSign => Some(Complement(x))
    case MinusSign => Some(Negate(x))
    case PlusSign => Some(Plus(x))
    case StarSign => Some(Deref(x))
    case AmpSign => Some(AddrOf(x))
    case IncSign => Some(PreStep(true, x))
    case DecSign => Some(PreStep(false, x))
    case _ => None
  }

  /** t x is read as C reads it. */
  lemma PrefixesReadAsInC(t: Token, x: Symbol, rest: seq<Token>, i: Input)
    requires PrefixInC(t, Name(x)).Some? && Stops(0, rest) && i.ahead == [t] + [Identifier(Some(x))] + rest && i.free >= 3
    ensures Cost(PrefixInC(t, Name(x)).value) <= 3
    ensures var e := PrefixInC(t, Name(x)).value; AssignExpr(i) == ReadOff(TreeOf(e, Nil), i, rest, Cost(e))
  {
    var e := PrefixInC(t, Name(x)).value;
    assert Fits(Name(x), 7) && Cost(Name(x)) == 1 && Fits(e, 0);
    assert Tokens(e) == [t] + [Identifier(Some(x))];
    ParsesAssign(e, rest, i);
  }

  /** x++, x-- and x = y. */
  lemma PostfixAndSetReadAsInC(x: Symbol, y: Symbol, up: bool, rest: seq<Token>, i: Input)
    requires Stops(0, rest) && i.free >= 3
    ensures i.ahead == [Identifier(Some(x))] + [if up then IncSign else DecSign] + rest ==>
              AssignExpr(i) == ReadOff(TreeOf(PostStep(up, Name(x)), Nil), i, rest, 2)
    ensures i.ahead == [Identifier(Some(x))] + ([AssignSign] + [Identifier(Some(y))]) + rest ==>
              AssignExpr(i) == ReadOff(TreeOf(Set(Name(x), Name(y)), Nil), i, rest, 3)
  {
    var (step, put) := (PostStep(up, Name(x)), Set(Name(x), Name(y)));
    assert Fits(Name(x), 8) && Fits(Name(x), 1) && Fits(Name(y), 0) && Cost(Name(x)) == 1 && Cost(Name(y)) == 1;
    assert Tokens(step) == [Identifier(Some(x))] + [if up then IncSign else DecSign];
    assert Tokens(put) == [Identifier(Some(x))] + ([AssignSign] + [Identifier(Some(y))]);
    if i.ahead == Tokens(step) + rest {
      ParsesAssign(step, rest, i);
    }
    if i.ahead == Tokens(put) + rest {
      ParsesAssign(put, rest, i);
    }
  }

  // ---- errors stay ----

  /** A reading that ends without an error began without one. */
  predicate Sticks(i: Input, r: Input) {
    r.error == NoFault ==> i.error == NoFault
  }

  lemma {:induction false} AssignSticks(i: Input)
    ensures Sticks(i, AssignExpr(i).input)
    decreases |i.ahead|, 40, 0
  {
    LevelSticks(1, i);
    var or := LevelExpr(1, i);
    if Peeks(or.input, AssignSign) {
      AssignSticks(Taken(or.input));
    }
  }

  lemma {:induction false} LevelSticks(level: nat, i: Input)
    requires 1 <= level <= LAST
    ensures Sticks(i, LevelExpr(level, i).input)
    decreases |i.ahead|, 38 - 2 * level, 0
  {
    OperandSticks(level, i);
    LoopSticks(level, OperandExpr(level, i).tree, OperandExpr(level, i).input);
  }

  lemma {:induction false} OperandSticks(level: nat, i: Input)
    requires 1 <= level <= LAST
    ensures Sticks(i, OperandExpr(level, i).input)
    decreases |i.ahead|, 37 - 2 * level, 0
  {
    if level == LAST {
      CastSticks(i);
    } else {
      LevelSticks(level + 1, i);
    }
  }

  lemma {:induction false} LoopSticks(level: nat, tree: Forest, i: Input)
    requires 1 <= level <= LAST && Single(tree)
    ensures Sticks(i, LevelLoop(level, tree, i).input)
    decreases |i.ahead|, 0
  {
    if i.ahead != [] && OperatorAt(level, i.ahead[0]).Some? {
      OperandSticks(level, Taken(i));
      var x := LevelStep(level, OperatorAt(level, i.ahead[0]).value, tree, Taken(i));
      LoopSticks(level, x.tree, x.input);
    }
  }

  lemma {:induction false} CastSticks(i: Input)
    ensures Sticks(i, CastExpr(i).input)
    decreases |i.ahead|, 12
  {
    if Peeks(i, LeftParen) {
      var open := Matched(Taken(i).(error := UnknownType), RightParen);
      CastSticks(open);
      if CastExpr(open).tree.Nil? {
        CastReads(open);
        UnarySticks(CastExpr(open).input);
      }
    } else {
      UnarySticks(i);
    }
  }

  lemma CastReads(i: Input)
    ensures |CastExpr(i).input.ahead| <= |i.ahead|
  {
  }

  lemma {:induction false} UnarySticks(i: Input)
    ensures Sticks(i, UnaryExpr(i).input)
    decreases |i.ahead|, 11
  {
    PostfixSticks(i);
    if i.ahead != [] {
      CastSticks(Taken(i));
      PrefixSticks(i, Taken(i), CastExpr(Taken(i)));
    }
  }

  lemma PrefixSticks(i: Input, next: Input, x: Parsed)
    requires i.ahead != [] && next == Taken(i) && x == CastExpr(next) && Sticks(next, x.input)
    requires Sticks(i, PostfixExpr(i).input)
    ensures Sticks(i, UnaryExpr(i).input)
  {
    var t := i.ahead[0];
    if t.PlusSign? {
      PlusRead(i, x);
    } else if t.MinusSign? {
      var zero := NewLeaf(ValueLong, NoId, 0, x.input);
      assert UnaryExpr(i) == NegatedExpr(next) == MakeSys(Arith(Sub), zero.tree, x.tree, zero.input);
    } else if KindOf(t) != Unknown {
      UnaryPrefix(i, KindOf(t));
      assert PrefixedExpr(KindOf(t), next) == MakeSys(KindOf(t), x.tree, Nil, x.input);
    } else {
      assert UnaryExpr(i) == PostfixExpr(i);
    }
  }

  lemma {:induction false} PostfixSticks(i: Input)
    ensures Sticks(i, PostfixExpr(i).input)
    decreases |i.ahead|, 9
  {
    PrimarySticks(i);
    PostfixLoopSticks(PrimaryExpr(i).tree, PrimaryExpr(i).input);
  }

  lemma {:induction false} PostfixLoopSticks(tree: Forest, i: Input)
    requires Single(tree)
    ensures Sticks(i, PostfixLoop(tree, i).input)
    decreases |i.ahead|, 8
  {
    if i.ahead != [] && GoesOn(i.ahead[0]) {
      ArgumentsStick(Taken(i));
      var x := PostfixStep(i.ahead[0], tree, Taken(i));
      PostfixLoopSticks(x.tree, x.input);
    }
  }

  lemma {:induction false} ArgumentsStick(i: Input)
    ensures Sticks(i, Arguments(i).input)
    decreases |i.ahead|, 41, 1
  {
    if !Peeks(i, RightParen) {
      AssignSticks(i);
      if AssignExpr(i).tree.Node? {
        ParamLoopSticks(AssignExpr(i).tree, AssignExpr(i).input);
        assert ParamList(i) == ParamLoop(AssignExpr(i).tree, AssignExpr(i).input);
      } else {
        assert ParamList(i) == AssignExpr(i);
      }
    }
  }

  lemma {:induction false} ParamLoopSticks(list: Forest, i: Input)
    ensures Sticks(i, ParamLoop(list, i).input)
    decreases |i.ahead|, 0
  {
    if Peeks(i, Comma) {
      AssignSticks(Taken(i));
      ParamLoopSticks(ParamStep(list, Taken(i)).tree, ParamStep(list, Taken(i)).input);
    }
  }

  lemma {:induction false} PrimarySticks(i: Input)
    ensures Sticks(i, PrimaryExpr(i).input)
    decreases |i.ahead|, 7
  {
    if i.ahead != [] && i.ahead[0].LeftParen? {
      AssignSticks(Taken(i));
    }
  }

  /** No later statement hides an error: a line is accepted only if every part of it was. */
  lemma {:induction false} LineSticks(root: Forest, i: Input)
    ensures Sticks(i, Line(root, i).input)
    decreases |i.ahead|
  {
    if i.ahead != [] && !i.ahead[0].Bad? {
      AssignSticks(i);
      var s := Statement(i);
      var skip := !i.ahead[0].Identifier? && root.Node? && s.tree.Nil? && s.input.ahead != [];
      LineSticks(Extended(root, s.tree), if skip then Taken(s.input) else s.input);
    }
  }

  // ---- which error is reported ----

  /** One token that no statement can begin with. */
  lemma LoneToken(t: Token, rest: seq<Token>, i: Input, x: Parsed)
    requires i.ahead == [t] + rest && Stops(0, rest) && PrimaryExpr(i) == x && x.input.ahead == rest && Single(x.tree)
    requires PostfixExpr(i) == UnaryExpr(i) == CastExpr(i)
    ensures AssignExpr(i) == x
  {
    assert PostfixLoop(x.tree, x.input) == x by { assert rest != [] ==> !GoesOn(rest[0]); }
    LevelsStop(LAST, i, x);
  }

  lemma {:induction false} LevelsStop(level: nat, i: Input, x: Parsed)
    requires 1 <= level <= LAST && OperandExpr(level, i) == x && Stops(0, x.input.ahead)
    ensures AssignExpr(i) == x
    decreases level
  {
    assert LevelExpr(level, i) == x by { assert x.input.ahead != [] ==> OperatorAt(level, x.input.ahead[0]).None?; }
    if level > 1 {
      LevelsStop(level - 1, i, x);
    }
  }

  /** A name that is not known, a token that begins nothing, and a full node table. */
  lemma FaultsReported(t: Token, rest: seq<Token>, i: Input)
    requires i.ahead == [t] + rest && Stops(0, rest)
    ensures t == Identifier(None) ==> AssignExpr(i) == Parsed(Nil, i.(ahead := rest, error := UnknownSymbol))
    ensures t.RightParen? || t.Comma? || t.Semicolon? || t.Bad? ==> AssignExpr(i) == Parsed(Nil, i.(ahead := rest, error := InvalidToken))
    ensures i.free == 0 && (t.Number? || (t.Identifier? && t.symbol.Some?)) ==> AssignExpr(i) == Parsed(Nil, i.(ahead := rest, error := MemoryFull))
  {
    if t == Identifier(None) || t.RightParen? || t.Comma? || t.Semicolon? || t.Bad? || (i.free == 0 && (t.Number? || (t.Identifier? && t.symbol.Some?))) {
      LoneToken(t, rest, i, PrimaryExpr(i));
    }
  }
}
