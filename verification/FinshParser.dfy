/** The recursive-descent parser over a token line with one token of replay, linking nodes in place. */
module FinshParser {
  import opened Kernel
  import opened FinshTree
  import opened FinshNode
  import opened FinshGrammar

  const NODE_MAX := 16

  class Parser {
    const line: seq<Token>
    /** The lexer: the next token to scan, the last one given out, and whether that is given out again. */
    var position: nat
    var current: Option<Token>
    var replay: bool
    /** Entries of the node table in use. */
    var used: nat
    var error: Fault

    constructor (line: seq<Token>)
      ensures Valid() && !replay && Now() == Input(line, NODE_MAX, NoFault)
    {
      this.line := line;
      position, current, replay, used, error := 0, None, false, 0, NoFault;
    }

    ghost predicate Valid()
      reads this
    {
      position <= |line| && used <= NODE_MAX && (replay && current.None? ==> position == |line|)
    }

    ghost function Current(): seq<Token>
      reads this
    {
      if current.Some? then [current.value] else []
    }

    /** The unread tokens. */
    ghost function Now(): Input
      reads this
      requires Valid()
    {
      Input((if replay then Current() else []) + line[position..], NODE_MAX - used, error)
    }

    /** The unread tokens as they are once the last one is put back. */
    ghost function Pending(): Input
      reads this
      requires Valid()
    {
      Input(Current() + line[position..], NODE_MAX - used, error)
    }

    /** A token has been given out: the last one, or none because the line is over. */
    ghost predicate Holding()
      reads this
    {
      Valid() && !replay && (current.None? ==> position == |line|)
    }

    /** finsh_token_token */
    method NextToken() returns (t: Option<Token>)
      requires Valid()
      modifies this`position, this`current, this`replay
      ensures Holding() && t == current
      ensures Pending() == old(Now())
      ensures t.Some? ==> old(Now()).ahead != [] && old(Now()).ahead[0] == t.value && Now() == Taken(old(Now()))
      ensures t.None? ==> old(Now()).ahead == [] && Now() == old(Now())
    {
      if replay {
        replay := false;
      } else if position == |line| {
        current := None;
      } else {
        current := Some(line[position]);
        position := position + 1;
      }
      t := current;
    }

    /** finsh_token_replay; doing it twice is doing it once. */
    method Replay()
      requires Valid() && (replay || Holding())
      modifies this`replay
      ensures Valid() && replay
      ensures Now() == old(Pending())
    {
      replay := true;
    }

    /** finsh_error_set */
    method Fail(fault: Fault)
      requires Valid()
      modifies this`error
      ensures Valid()
      ensures Now() == old(Now()).(error := fault) && Pending() == old(Pending()).(error := fault)
      ensures old(Holding()) ==> Holding()
    {
      error := fault;
    }

    /** match_token */
    method MatchToken(t: Token)
      requires Valid()
      modifies this`position, this`current, this`replay, this`error
      ensures Valid() && (replay || Holding())
      ensures Now() == Matched(old(Now()), t)
    {
      var got := NextToken();
      if got != Some(t) {
        Fail(InvalidToken);
        Replay();
      }
    }

    /** finsh_node_allocate */
    method Allocate(kind: NodeType) returns (node: Node?)
      requires Valid()
      modifies this`used
      ensures Valid()
      ensures node == null <==> old(Now()).free == 0
      ensures Now() == if node == null then old(Now()) else old(Now()).(free := old(Now()).free - 1)
      ensures node != null ==>
              fresh(node) && node.kind == kind && node.id == NoId && node.value == 0 && !node.address && node.data == Void &&
              node.child == null && node.sibling == null
    {
      if used == NODE_MAX {
        return null;
      }
      used := used + 1;
      node := new Node();
      node.kind := kind;
    }

    /** finsh_node_new_id, finsh_node_new_int, finsh_node_new_long and finsh_node_new_ptr. */
    method NewLeaf(kind: NodeType, id: IdType, value: Word) returns (node: Node?, ghost sh: Shape)
      requires Valid()
      modifies this`used, this`error
      ensures Valid()
      ensures Linked(node, sh) && fresh(Nodes(sh))
      ensures Parsed(View(sh), Now()) == FinshGrammar.NewLeaf(kind, id, value, old(Now()))
    {
      node := Allocate(kind);
      if node == null {
        Fail(MemoryFull);
        return node, Leafless;
      }
      sh := FillLeaf(node, id, value);
    }

    /** make_sys_node */
    method MakeSys(kind: NodeType, node1: Node?, ghost sh1: Shape, node2: Node?, ghost sh2: Shape) returns (node: Node?, ghost sh: Shape)
      requires Valid() && Linked(node1, sh1) && Linked(node2, sh2) && Nodes(sh1) !! Nodes(sh2) && Single(View(sh1))
      modifies this`used, this`error, Nodes(sh1)
      ensures Valid()
      ensures Linked(node, sh)
      ensures forall n :: n in Nodes(sh) ==> n in Nodes(sh1) || n in Nodes(sh2) || fresh(n)
      ensures Parsed(View(sh), Now()) == FinshGrammar.MakeSys(kind, old(View(sh1)), old(View(sh2)), old(Now()))
    {
      NodesExist(sh1);
      NodesExist(sh2);
      node := AllocateFor(kind, node1);
      if node == null {
        return node, Leafless;
      }
      if node1 == null {
        sh := Alone(node);
      } else {
        assert unchanged(Nodes(sh1)) && unchanged(Nodes(sh2));
        sh := Join(node, node1, sh1, node2, sh2);
      }
    }

    /** The node of an operator; the error is set if there is none, or no operand to put under it. */
    method AllocateFor(kind: NodeType, node1: Node?) returns (node: Node?)
      requires Valid()
      modifies this`used, this`error
      ensures Valid()
      ensures node == null <==> old(Now()).free == 0
      ensures Now() == if node == null then old(Now()).(error := NullNode)
                       else if node1 == null then old(Now()).(free := old(Now()).free - 1, error := NullNode)
                       else old(Now()).(free := old(Now()).free - 1)
      ensures node != null ==>
              fresh(node) && node.kind == kind && node.id == NoId && node.value == 0 && !node.address && node.data == Void &&
              node.child == null && node.sibling == null
    {
      node := Allocate(kind);
      if node == null || node1 == null {
        Fail(NullNode);
      }
    }

    /** next_token, put back unless it is t; the tree built so far stays as it is. */
    method TryToken(t: Token, root: Node?, ghost sh: Shape) returns (got: bool)
      requires Valid() && Linked(root, sh)
      modifies this`position, this`current, this`replay
      ensures Valid() && (if got then Holding() else replay)
      ensures got <==> Peeks(old(Now()), t)
      ensures Now() == if got then Taken(old(Now())) else old(Now())
      ensures Linked(root, sh) && View(sh) == old(View(sh))
    {
      NodesExist(sh);
      var token := NextToken();
      got := token == Some(t);
      if !got {
        Replay();
      }
      assert unchanged(Nodes(sh));
    }

    /** proc_assign_expr */
    method AssignExpr() returns (node: Node?, ghost sh: Shape)
      requires Valid()
      modifies this
      ensures Valid() && replay
      ensures Linked(node, sh) && fresh(Nodes(sh))
      ensures Parsed(View(sh), Now()) == FinshGrammar.AssignExpr(old(Now()))
      decreases |Now().ahead|, 40, 0
    {
      node, sh := LevelExpr(1);
      var assign := TryToken(AssignSign, node, sh);
      if assign {
        node, sh := AssignRest(node, sh);
      }
    }

    /** The right side of an assignment whose left side is done. */
    method AssignRest(target: Node?, ghost left: Shape) returns (node: Node?, ghost sh: Shape)
      requires Valid() && Linked(target, left) && Single(View(left))
      modifies this, Nodes(left)
      ensures Valid() && replay
      ensures Linked(node, sh) && forall n :: n in Nodes(sh) ==> n in Nodes(left) || fresh(n)
      ensures var source := FinshGrammar.AssignExpr(old(Now()));
              Parsed(View(sh), Now()) == FinshGrammar.MakeSys(Assign, old(View(left)), source.tree, source.input)
      decreases |Now().ahead|, 40, 1
    {
      NodesExist(left);
      var source, right := AssignExpr();
      assert unchanged(Nodes(left));
      node, sh := MakeSys(Assign, target, left, source, right);
    }

    /** next_token, put back unless it is an operator of the level. */
    method TryOperator(level: nat, root: Node?, ghost sh: Shape) returns (op: Option<BinOp>)
      requires Valid() && Linked(root, sh)
      modifies this`position, this`current, this`replay
      ensures Valid() && (op.None? ==> replay)
      ensures op == if old(Now()).ahead == [] then None else OperatorAt(level, old(Now()).ahead[0])
      ensures Now() == if op.Some? then Taken(old(Now())) else old(Now())
      ensures Linked(root, sh) && View(sh) == old(View(sh))
    {
      NodesExist(sh);
      var token := NextToken();
      op := None;
      if token.Some? {
        op := OperatorAt(level, token.value);
      }
      if op.None? {
        Replay();
      }
      assert unchanged(Nodes(sh));
    }

    /** proc_inclusive_or_expr down to proc_multiplicative_expr. */
    method LevelExpr(level: nat) returns (node: Node?, ghost sh: Shape)
      requires Valid() && 1 <= level <= LAST
      modifies this
      ensures Valid() && replay
      ensures Linked(node, sh) && fresh(Nodes(sh))
      ensures Parsed(View(sh), Now()) == FinshGrammar.LevelExpr(level, old(Now()))
      decreases |Now().ahead|, 38 - 2 * level, 0
    {
      node, sh := OperandExpr(level);
      node, sh := LevelRest(level, node, sh);
    }

    /** The while loop of one level. */
    method LevelRest(level: nat, first: Node?, ghost one: Shape) returns (node: Node?, ghost sh: Shape)
      requires Valid() && 1 <= level <= LAST && Linked(first, one) && Single(View(one))
      modifies this, Nodes(one)
      ensures Valid() && replay
      ensures Linked(node, sh) && forall n :: n in Nodes(sh) ==> n in Nodes(one) || fresh(n)
      ensures Parsed(View(sh), Now()) == LevelLoop(level, old(View(one)), old(Now()))
      decreases |Now().ahead|, 0
    {
      ghost var whole, i := LevelLoop(level, View(one), Now()), Now();
      node, sh := first, one;
      var op := TryOperator(level, node, sh);
      while op.Some?
        invariant Valid() && Linked(node, sh) && Single(View(sh))
        invariant forall n :: n in Nodes(sh) ==> n in Nodes(one) || fresh(n)
        invariant op == if i.ahead == [] then None else OperatorAt(level, i.ahead[0])
        invariant Now() == if op.Some? then Taken(i) else i
        invariant op.None? ==> replay
        invariant |i.ahead| <= |old(Now()).ahead|
        invariant whole == LevelLoop(level, View(sh), i)
        decreases |i.ahead|
      {
        node, sh := LevelTurn(level, op.value, node, sh);
        i := Now();
        op := TryOperator(level, node, sh);
      }
    }

    /** One turn of the loop: the right operand, and the node above both. */
    method LevelTurn(level: nat, op: BinOp, left: Node?, ghost lsh: Shape) returns (node: Node?, ghost sh: Shape)
      requires Valid() && 1 <= level <= LAST && Linked(left, lsh) && Single(View(lsh))
      modifies this, Nodes(lsh)
      ensures Valid() && replay
      ensures Linked(node, sh) && forall n :: n in Nodes(sh) ==> n in Nodes(lsh) || fresh(n)
      ensures Parsed(View(sh), Now()) == LevelStep(level, op, old(View(lsh)), old(Now()))
      decreases |Now().ahead|, 38 - 2 * level, 1
    {
      NodesExist(lsh);
      var x, xsh := OperandExpr(level);
      assert unchanged(Nodes(lsh));
      if x == null {
        Fail(ExpectOperator);
        node, sh := left, lsh;
      } else {
        node, sh := MakeSys(Arith(op), left, lsh, x, xsh);
      }
    }

    method OperandExpr(level: nat) returns (node: Node?, ghost sh: Shape)
      requires Valid() && 1 <= level <= LAST
      modifies this
      ensures Valid() && replay
      ensures Linked(node, sh) && fresh(Nodes(sh))
      ensures Parsed(View(sh), Now()) == FinshGrammar.OperandExpr(level, old(Now()))
      decreases |Now().ahead|, 37 - 2 * level, 0
    {
      if level == LAST {
        node, sh := CastExpr();
      } else {
        node, sh := LevelExpr(level + 1);
      }
    }

    /** proc_type without type keywords: the token is put back. */
    method ProcType()
      requires Valid()
      modifies this
      ensures Valid() && replay
      ensures Now() == old(Now()).(error := UnknownType)
    {
      var token := NextToken();
      Replay();
      Fail(UnknownType);
    }

    /** proc_cast_expr */
    method CastExpr() returns (node: Node?, ghost sh: Shape)
      requires Valid()
      modifies this
      ensures Valid() && replay
      ensures Linked(node, sh) && fresh(Nodes(sh))
      ensures Parsed(View(sh), Now()) == FinshGrammar.CastExpr(old(Now()))
      decreases |Now().ahead|, 12, 0
    {
      var paren := TryToken(LeftParen, null, Leafless);
      if paren {
        ProcType();
        MatchToken(RightParen);
        node, sh := CastExpr();
        if node != null {
          SetVoid(node, sh);
          return;
        }
        Replay();
      }
      node, sh := UnaryExpr();
    }

    /** proc_unary_expr */
    method UnaryExpr() returns (node: Node?, ghost sh: Shape)
      requires Valid()
      modifies this
      ensures Valid() && replay
      ensures Linked(node, sh) && fresh(Nodes(sh))
      ensures Parsed(View(sh), Now()) == FinshGrammar.UnaryExpr(old(Now()))
      decreases |Now().ahead|, 11, 0
    {
      ghost var i := Now();
      var token := NextToken();
      if token == Some(PlusSign) || token == Some(MinusSign) {
        node, sh := UnarySign(token.value, i);
      } else {
        node, sh := UnaryByKind(token, i);
      }
    }

    /** Unary plus does nothing, unary minus is a subtraction from zero. */
    method UnarySign(sign: Token, ghost i: Input) returns (node: Node?, ghost sh: Shape)
      requires Valid() && (sign.PlusSign? || sign.MinusSign?)
      requires i.ahead != [] && i.ahead[0] == sign && Now() == Taken(i)
      modifies this
      ensures Valid() && replay
      ensures Linked(node, sh) && fresh(Nodes(sh))
      ensures Parsed(View(sh), Now()) == FinshGrammar.UnaryExpr(i)
      decreases |i.ahead|, 10, 1
    {
      if sign.PlusSign? {
        node, sh := CastExpr();
      } else {
        node, sh := Negated();
      }
    }

    /** Neither + nor - has been read. */
    method UnaryByKind(token: Option<Token>, ghost i: Input) returns (node: Node?, ghost sh: Shape)
      requires Holding() && Pending() == i
      requires token.Some? ==> i.ahead != [] && i.ahead[0] == token.value && Now() == Taken(i) && !token.value.PlusSign? && !token.value.MinusSign?
      requires token.None? ==> i.ahead == []
      modifies this
      ensures Valid() && replay
      ensures Linked(node, sh) && fresh(Nodes(sh))
      ensures Parsed(View(sh), Now()) == FinshGrammar.UnaryExpr(i)
      decreases |i.ahead|, 10, 1
    {
      if token.Some? && KindOf(token.value) != Unknown {
        UnaryPrefix(i, KindOf(token.value));
        node, sh := UnaryNode(KindOf(token.value));
      } else {
        Replay();
        node, sh := PostfixExpr();
      }
    }

    method Negated() returns (node: Node?, ghost sh: Shape)
      requires Valid()
      modifies this
      ensures Valid() && replay
      ensures Linked(node, sh) && fresh(Nodes(sh))
      ensures Parsed(View(sh), Now()) == NegatedExpr(old(Now()))
      decreases |Now().ahead|, 13, 0
    {
      var x, xsh := CastExpr();
      NodesExist(xsh);
      label read: assert true;
      var zero, zsh := NewLeaf(ValueLong, NoId, 0);
      assert unchanged@read(Nodes(xsh));
      node, sh := MakeSys(Arith(Sub), zero, zsh, x, xsh);
    }

    method UnaryNode(kind: NodeType) returns (node: Node?, ghost sh: Shape)
      requires Valid()
      modifies this
      ensures Valid() && replay
      ensures Linked(node, sh) && fresh(Nodes(sh))
      ensures Parsed(View(sh), Now()) == PrefixedExpr(kind, old(Now()))
      decreases |Now().ahead|, 13, 0
    {
      var x, xsh := CastExpr();
      node, sh := MakeSys(kind, x, xsh, null, Leafless);
    }

    /** next_token, put back unless it continues a postfix expression. */
    method TryPostfix(root: Node?, ghost sh: Shape) returns (t: Option<Token>)
      requires Valid() && Linked(root, sh)
      modifies this`position, this`current, this`replay
      ensures Valid() && (t.None? ==> replay)
      ensures t == if old(Now()).ahead != [] && GoesOn(old(Now()).ahead[0]) then Some(old(Now()).ahead[0]) else None
      ensures Now() == if t.Some? then Taken(old(Now())) else old(Now())
      ensures Linked(root, sh) && View(sh) == old(View(sh))
    {
      NodesExist(sh);
      t := NextToken();
      if t.None? || !GoesOn(t.value) {
        t := None;
        Replay();
      }
      assert unchanged(Nodes(sh));
    }

    /** proc_postfix_expr */
    method PostfixExpr() returns (node: Node?, ghost sh: Shape)
      requires Valid()
      modifies this
      ensures Valid() && replay
      ensures Linked(node, sh) && fresh(Nodes(sh))
      ensures Parsed(View(sh), Now()) == FinshGrammar.PostfixExpr(old(Now()))
      decreases |Now().ahead|, 9, 0
    {
      node, sh := PrimaryExpr();
      node, sh := PostfixRest(node, sh);
    }

    /** The while loop of proc_postfix_expr. */
    method PostfixRest(first: Node?, ghost one: Shape) returns (node: Node?, ghost sh: Shape)
      requires Valid() && Linked(first, one) && Single(View(one))
      modifies this, Nodes(one)
      ensures Valid() && replay
      ensures Linked(node, sh) && forall n :: n in Nodes(sh) ==> n in Nodes(one) || fresh(n)
      ensures Parsed(View(sh), Now()) == PostfixLoop(old(View(one)), old(Now()))
      decreases |Now().ahead|, 8
    {
      ghost var whole, i := PostfixLoop(View(one), Now()), Now();
      node, sh := first, one;
      var t := TryPostfix(node, sh);
      while t.Some?
        invariant Valid() && Linked(node, sh) && Single(View(sh))
        invariant forall n :: n in Nodes(sh) ==> n in Nodes(one) || fresh(n)
        invariant t == if i.ahead != [] && GoesOn(i.ahead[0]) then Some(i.ahead[0]) else None
        invariant Now() == if t.Some? then Taken(i) else i
        invariant t.None? ==> replay
        invariant |i.ahead| <= |old(Now()).ahead|
        invariant whole == PostfixLoop(View(sh), i)
        decreases |i.ahead|
      {
        node, sh := PostfixTurn(t.value, node, sh);
        i := Now();
        t := TryPostfix(node, sh);
      }
    }

    method PostfixTurn(t: Token, inner: Node?, ghost ish: Shape) returns (node: Node?, ghost sh: Shape)
      requires Valid() && GoesOn(t) && Linked(inner, ish) && Single(View(ish))
      modifies this, Nodes(ish)
      ensures Valid()
      ensures Linked(node, sh) && forall n :: n in Nodes(sh) ==> n in Nodes(ish) || fresh(n)
      ensures Parsed(View(sh), Now()) == PostfixStep(t, old(View(ish)), old(Now()))
      decreases |Now().ahead|, 42, 0
    {
      match t {
        case IncSign => node, sh := MakeSys(Inc, inner, ish, null, Leafless);
        case DecSign => node, sh := MakeSys(Dec, inner, ish, null, Leafless);
        case LeftParen =>
          NodesExist(ish);
          var args, ash := Arguments();
          assert unchanged(Nodes(ish));
          node, sh := MakeSys(Func, inner, ish, args, ash);
      }
    }

    /** The part of a call between its parentheses, and the right one. */
    method Arguments() returns (node: Node?, ghost sh: Shape)
      requires Valid()
      modifies this
      ensures Valid()
      ensures Linked(node, sh) && fresh(Nodes(sh))
      ensures Parsed(View(sh), Now()) == FinshGrammar.Arguments(old(Now()))
      decreases |Now().ahead|, 41, 2
    {
      var close := TryToken(RightParen, null, Leafless);
      if close {
        return null, Leafless;
      }
      node, sh := ParamList();
      MatchHeld(RightParen, node, sh);
    }

    method MatchHeld(t: Token, root: Node?, ghost sh: Shape)
      requires Valid() && Linked(root, sh)
      modifies this`position, this`current, this`replay, this`error
      ensures Valid() && (replay || Holding())
      ensures Now() == Matched(old(Now()), t)
      ensures Linked(root, sh) && View(sh) == old(View(sh))
    {
      NodesExist(sh);
      MatchToken(t);
      assert unchanged(Nodes(sh));
    }

    /** proc_primary_expr */
    method PrimaryExpr() returns (node: Node?, ghost sh: Shape)
      requires Valid()
      modifies this
      ensures Valid()
      ensures Linked(node, sh) && fresh(Nodes(sh))
      ensures Parsed(View(sh), Now()) == FinshGrammar.PrimaryExpr(old(Now()))
      decreases |Now().ahead|, 7, 0
      ensures replay || Holding()
    {
      var token := NextToken();
      node, sh := null, Leafless;
      match token {
        case Some(Identifier(symbol)) =>
          if symbol.None? {
            Fail(UnknownSymbol);
          } else {
            node, sh := NewLeaf(Id, symbol.value.id, symbol.value.at);
          }
        case Some(LeftParen) =>
          node, sh := AssignExpr();
          MatchHeld(RightParen, node, sh);
        case Some(Number(kind, value)) => node, sh := NewLeaf(kind, NoId, value);
        case _ => Fail(InvalidToken);
      }
    }

    /** proc_param_list */
    method ParamList() returns (node: Node?, ghost sh: Shape)
      requires Valid()
      modifies this
      ensures Valid() && replay
      ensures Linked(node, sh) && fresh(Nodes(sh))
      ensures Parsed(View(sh), Now()) == FinshGrammar.ParamList(old(Now()))
      decreases |Now().ahead|, 41, 1
    {
      node, sh := AssignExpr();
      if node != null {
        sh := ParamRest(node, sh);
      }
    }

    /** The while loop of proc_param_list. */
    method ParamRest(first: Node, ghost one: Shape) returns (ghost sh: Shape)
      requires Valid() && replay && Linked(first, one) && Single(View(one))
      modifies this, Nodes(one)
      ensures Valid() && replay
      ensures Linked(first, sh) && forall n :: n in Nodes(sh) ==> n in Nodes(one) || fresh(n)
      ensures Parsed(View(sh), Now()) == ParamLoop(old(View(one)), old(Now()))
      decreases |Now().ahead|, 0
    {
      ghost var whole, i := ParamLoop(View(one), Now()), Now();
      var last := first;
      sh := one;
      var comma := TryToken(Comma, first, sh);
      while comma
        invariant Valid() && Linked(first, sh) && EndsAt(sh, last)
        invariant forall n :: n in Nodes(sh) ==> n in Nodes(one) || fresh(n)
        invariant comma <==> Peeks(i, Comma)
        invariant Now() == if comma then Taken(i) else i
        invariant !comma ==> replay
        invariant |i.ahead| <= |old(Now()).ahead|
        invariant whole == ParamLoop(View(sh), i)
        decreases |i.ahead|
      {
        EndsInside(sh, last);
        last, sh := ParamTurn(first, sh, last);
        i := Now();
        comma := TryToken(Comma, first, sh);
      }
    }

    /** One more argument, linked behind the last. */
    method ParamTurn(root: Node?, ghost list: Shape, last: Node) returns (end: Node, ghost sh: Shape)
      requires Valid() && Linked(root, list) && EndsAt(list, last)
      modifies this, last`sibling
      ensures Valid() && replay
      ensures Linked(root, sh) && (forall n :: n in Nodes(sh) ==> n in Nodes(list) || fresh(n)) && EndsAt(sh, end)
      ensures Parsed(View(sh), Now()) == ParamStep(old(View(list)), old(Now()))
      decreases |Now().ahead|, 41, 0
    {
      NodesExist(list);
      var x, xsh := AssignExpr();
      assert unchanged(Nodes(list));
      if x != null {
        sh := Append(root, list, last, x, xsh);
        end := x;
      } else {
        Fail(ExpectOperator);
        end, sh := last, list;
      }
    }

    /** proc_expr_statement */
    method ExprStatement() returns (node: Node?, ghost sh: Shape)
      requires Valid()
      modifies this
      ensures Valid() && (replay || Holding())
      ensures Linked(node, sh) && fresh(Nodes(sh)) && Single(View(sh))
      ensures Parsed(View(sh), Now()) == Statement(old(Now()))
    {
      var empty := TryToken(Semicolon, null, Leafless);
      if empty {
        return null, Leafless;
      }
      node, sh := AssignExpr();
      MatchHeld(Semicolon, node, sh);
    }

    /** One statement of a line, linked behind the ones before; node is the last of them. */
    method StatementTurn(root: Node?, last: Node?, ghost sh: Shape, identifier: bool) returns (first: Node?, end: Node?, ghost all: Shape)
      requires Valid() && Linked(root, sh) && (root != null ==> last != null && EndsAt(sh, last))
      modifies this, Nodes(sh)
      ensures Valid()
      ensures Linked(first, all) && (first != null ==> end != null && EndsAt(all, end))
      ensures forall n :: n in Nodes(all) ==> n in Nodes(sh) || fresh(n)
      ensures var s := Statement(old(Now()));
              View(all) == Extended(old(View(sh)), s.tree) &&
              Now() == if !identifier && root != null && s.tree.Nil? && s.input.ahead != [] then Taken(s.input) else s.input
    {
      NodesExist(sh);
      var node, nsh := ExprStatement();
      assert unchanged(Nodes(sh));
      first, end, all := root, last, sh;
      if root == null {
        first, end, all := node, node, nsh;
      } else if node != null {
        EndsInside(sh, last);
        all := Append(root, sh, last, node, nsh);
        end := node;
      } else {
        ExtendedNil(View(sh));
        if !identifier {
          var lost := TryAny(root, sh);
        }
      }
    }

    /** next_token, whatever it is. */
    method TryAny(root: Node?, ghost sh: Shape) returns (t: Option<Token>)
      requires Valid() && Linked(root, sh)
      modifies this`position, this`current, this`replay
      ensures Holding() && t == current && Pending() == old(Now())
      ensures Now() == if old(Now()).ahead == [] then old(Now()) else Taken(old(Now()))
      ensures t == if old(Now()).ahead == [] then None else Some(old(Now()).ahead[0])
      ensures Linked(root, sh) && View(sh) == old(View(sh))
    {
      NodesExist(sh);
      t := NextToken();
      assert unchanged(Nodes(sh));
    }

    /** finsh_parser_run */
    method Run() returns (root: Node?, ghost sh: Shape)
      requires Valid()
      modifies this
      ensures Valid() && Linked(root, sh) && fresh(Nodes(sh))
      ensures Parsed(View(sh), Pending()) == Line(Nil, old(Now()))
    {
      ghost var whole, i := Line(Nil, Now()), Now();
      root, sh := null, Leafless;
      var last: Node? := null;
      var token := TryAny(root, sh);
      while token.Some? && !token.value.Bad?
        invariant Holding() && Pending() == i
        invariant token == if i.ahead == [] then None else Some(i.ahead[0])
        invariant Linked(root, sh) && fresh(Nodes(sh)) && (root != null ==> last != null && EndsAt(sh, last))
        invariant whole == Line(View(sh), i)
        decreases |i.ahead|
      {
        root, last, sh := LineTurn(root, last, sh, token.value, i);
        i := Now();
        token := TryAny(root, sh);
      }
    }

    /** One turn of the loop, its first token read. */
    method LineTurn(root: Node?, last: Node?, ghost sh: Shape, token: Token, ghost i: Input) returns (first: Node?, end: Node?, ghost all: Shape)
      requires Holding() && Pending() == i && Peeks(i, token) && !token.Bad?
      requires Linked(root, sh) && (root != null ==> last != null && EndsAt(sh, last))
      modifies this, Nodes(sh)
      ensures Valid() && |Now().ahead| < |i.ahead|
      ensures Linked(first, all) && (first != null ==> end != null && EndsAt(all, end))
      ensures forall n :: n in Nodes(all) ==> n in Nodes(sh) || fresh(n)
      ensures Line(old(View(sh)), i) == Line(View(all), Now())
    {
      NodesExist(sh);
      ReplayHeld(root, sh);
      first, end, all := StatementTurn(root, last, sh, token.Identifier?);
    }

    method ReplayHeld(root: Node?, ghost sh: Shape)
      requires Holding() && Linked(root, sh)
      modifies this`replay
      ensures Valid() && Now() == old(Pending())
      ensures Linked(root, sh) && View(sh) == old(View(sh))
    {
      NodesExist(sh);
      Replay();
      assert unchanged(Nodes(sh));
    }
  }

  /** cast->data_type for an unknown type. */
  method SetVoid(node: Node, ghost sh: Shape)
    requires Linked(node, sh)
    modifies node`data
    ensures Linked(node, sh) && old(View(sh)).Node? && View(sh) == old(View(sh)).(data := Void)
  {
    NodesExist(sh.child);
    NodesExist(sh.sibling);
    node.data := Void;
    assert unchanged(Nodes(sh.child)) && unchanged(Nodes(sh.sibling));
  }

  /** The shape of list with another one behind its last node. */
  ghost function Joined(list: Shape, more: Shape): Shape {
    match list
    case Leafless => more
    case Joint(node, child, sibling) => Joint(node, child, Joined(sibling, more))
  }

  lemma {:induction false} JoinedNodes(list: Shape, more: Shape)
    ensures Nodes(Joined(list, more)) == Nodes(list) + Nodes(more)
  {
    if list.Joint? {
      JoinedNodes(list.sibling, more);
    }
  }

  method Append(root: Node?, ghost list: Shape, last: Node, x: Node, ghost xsh: Shape) returns (ghost sh: Shape)
    requires Linked(root, list) && EndsAt(list, last) && Linked(x, xsh) && Nodes(list) !! Nodes(xsh) && Single(View(xsh))
    modifies last`sibling
    ensures Linked(root, sh) && Nodes(sh) == Nodes(list) + Nodes(xsh) && EndsAt(sh, x)
    ensures View(sh) == Extended(old(View(list)), old(View(xsh)))
  {
    NodesExist(list);
    NodesExist(xsh);
    EndsInside(list, last);
    Opened(root, list, last);
    last.sibling := x;
    assert unchanged(Nodes(xsh));
    assert Open(root, list, last) && OpenView(root, list, last) == old(View(list));
    sh := Joined(list, xsh);
    Closed(root, list, last, x, xsh);
  }

  lemma {:induction false} EndsInside(list: Shape, last: Node)
    requires EndsAt(list, last)
    ensures last in Nodes(list)
  {
    if list.sibling.Joint? {
      EndsInside(list.sibling, last);
    }
  }

  /** Linked, but for where last leads. */
  ghost predicate Open(root: Node?, list: Shape, last: Node)
    reads Nodes(list) - {last}, last`child
  {
    list.Joint? && root == list.node && last !in Nodes(list.child) &&
    list.node !in Nodes(list.child) && list.node !in Nodes(list.sibling) && Nodes(list.child) !! Nodes(list.sibling) &&
    Linked(list.node.child, list.child) &&
    if list.sibling.Leafless? then list.node == last else list.node != last && Open(list.node.sibling, list.sibling, last)
  }

  ghost function OpenView(root: Node?, list: Shape, last: Node): Forest
    reads Nodes(list) - {last}, last`kind, last`id, last`value, last`address, last`data, last`child
    requires Open(root, list, last)
  {
    var n := list.node;
    FinshTree.Node(n.kind, n.id, n.value, n.address, n.data, View(list.child),
      if list.sibling.Leafless? then Nil else OpenView(n.sibling, list.sibling, last))
  }

  lemma {:induction false} Opened(root: Node?, list: Shape, last: Node)
    requires Linked(root, list) && EndsAt(list, last)
    ensures Open(root, list, last) && OpenView(root, list, last) == View(list)
  {
    if list.sibling.Joint? {
      EndsInside(list.sibling, last);
      Opened(list.node.sibling, list.sibling, last);
    }
  }

  /** The list goes on where last leads. */
  lemma {:induction false} Closed(root: Node?, list: Shape, last: Node, x: Node, xsh: Shape)
    requires Open(root, list, last) && last.sibling == x && Linked(x, xsh) && Nodes(list) !! Nodes(xsh)
    requires xsh.Joint? && xsh.sibling.Leafless?
    ensures Linked(root, Joined(list, xsh)) && EndsAt(Joined(list, xsh), x)
    ensures Nodes(Joined(list, xsh)) == Nodes(list) + Nodes(xsh)
    ensures View(Joined(list, xsh)) == Extended(OpenView(root, list, last), View(xsh))
  {
    JoinedNodes(list.sibling, xsh);
    if list.sibling.Joint? {
      Closed(list.node.sibling, list.sibling, last, x, xsh);
    }
  }

  ghost predicate EndsAt(sh: Shape, last: Node) {
    sh.Joint? && if sh.sibling.Leafless? then sh.node == last else EndsAt(sh.sibling, last)
  }

  /** node1 below node, and node2 beside node1. */
  method Join(node: Node, node1: Node, ghost sh1: Shape, node2: Node?, ghost sh2: Shape) returns (ghost sh: Shape)
    requires Linked(node1, sh1) && Linked(node2, sh2) && Nodes(sh1) !! Nodes(sh2) && Single(View(sh1))
    requires node !in Nodes(sh1) && node !in Nodes(sh2) && node.sibling == null
    modifies node`child, node1`sibling
    ensures Linked(node, sh) && Nodes(sh) <= {node} + Nodes(sh1) + Nodes(sh2)
    ensures View(sh) == FinshTree.Node(node.kind, node.id, node.value, node.address, node.data,
                          old(View(sh1)).(sibling := old(View(sh2))), Nil)
  {
    NodesExist(sh1.child);
    NodesExist(sh2);
    ghost var below := sh1.(sibling := sh2);
    node.child := node1;
    node1.sibling := node2;
    assert unchanged(Nodes(sh1.child)) && unchanged(Nodes(sh2));
    assert Linked(node1, below) && View(below) == old(View(sh1)).(sibling := old(View(sh2)));
    sh := Joint(node, below, Leafless);
  }

  method FillLeaf(node: Node, id: IdType, value: Word) returns (ghost sh: Shape)
    requires node.child == null && node.sibling == null
    modifies node`id, node`value
    ensures Linked(node, sh) && Nodes(sh) == {node}
    ensures View(sh) == FinshTree.Node(node.kind, id, value, node.address, node.data, Nil, Nil)
  {
    node.id, node.value := id, value;
    sh := Alone(node);
  }

  /** A node without links. */
  ghost method Alone(node: Node) returns (sh: Shape)
    requires node.child == null && node.sibling == null
    ensures Linked(node, sh) && Nodes(sh) == {node}
    ensures View(sh) == FinshTree.Node(node.kind, node.id, node.value, node.address, node.data, Nil, Nil)
  {
    sh := Joint(node, Leafless, Leafless);
  }
}
