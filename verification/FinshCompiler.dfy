/** The compiler's two passes over the node table, and the text segment they fill. */
module FinshCompiler {
  import opened FinshTree
  import opened FinshCode
  import opened FinshNode
  import M = FinshMachine

  /** finsh_type_check: marks and widths, written into the nodes. */
  method TypeCheck(node: Node?, mark: bool, ghost sh: Shape)
    requires Linked(node, sh)
    modifies Nodes(sh)
    ensures Linked(node, sh)
    ensures View(sh) == Checked(old(View(sh)), mark)
    decreases sh
  {
    if node == null {
      return;
    }
    ghost var Joint(_, down, right) := sh;
    ghost var f, g := View(down), View(right);
    var below := mark;
    if node.kind.Assign? || node.kind.PreInc? || node.kind.PreDec? || node.kind.GetAddr? {
      below := true;
    } else if node.kind.GetValue? && mark {
      below := false;
    }
    NodesExist(sh);
    TypeCheck(node.child, below, down);
    assert Linked(node.sibling, right) && View(right) == g;
    TypeCheck(node.sibling, false, right);
    assert Linked(node.child, down) && View(down) == Checked(f, below);
    Annotate(node, mark, Checked(f, below));
    assert View(down) == Checked(f, below) && View(right) == Checked(g, false);
  }

  /** The mark and the width of one node whose children are checked. */
  method Annotate(node: Node, mark: bool, ghost below: Forest)
    requires node.child != node
    requires node.child == null <==> below.Nil?
    requires node.child != null ==> node.child.data == below.data
    modifies node`address, node`data
    ensures node.address == Marked(node.id, old(node.address), mark)
    ensures node.data == TypeOf(node.kind, node.id, old(node.data), below)
  {
    if !(node.id.SysCall? && !node.address) {
      node.address := node.address || mark;
    }
    if node.child != null {
      node.data := node.child.data;
      return;
    }
    if node.kind.Id? {
      if node.id.Var? || node.id.SysVar? {
        node.data := if node.id.declared.JustVoid? then Void else DWord;
      }
    } else if node.kind.ValueInt? || node.kind.ValueLong? || node.kind.ValueNull? {
      node.data := DWord;
    }
  }

  /** What finsh_compile dereferences is there, and no system variable is stepped. */
  predicate Sound(f: Forest) {
    match f
    case Nil => true
    case Node(kind, _, _, _, _, child, sibling) =>
      Sound(child) && Sound(sibling) &&
      (kind.Func? || kind.Assign? ==> child.Node?) &&
      (kind.PreInc? || kind.PreDec? || kind.Inc? || kind.Dec? ==> child.Node? && !(child.kind.Id? && child.id.SysVar?))
  }

  /** An assignment whose target has no width: the compiler reports it and stores nothing. */
  predicate NoWidth(f: Forest) {
    f.Node? && f.kind.Assign? && f.child.Node? && (f.child.kind.Id? || f.child.kind.GetValue?) && !f.child.data.DWord?
  }

  predicate Mistyped(f: Forest) {
    f.Node? && (Mistyped(f.child) || NoWidth(f) || Mistyped(f.sibling))
  }

  lemma PrefixFits(a: seq<Instr>, b: seq<Instr>)
    ensures |Assembled(a)| <= |Assembled(a + b)|
  {
    AssembledConcat(a, b);
  }

  class Compiler {
    /** The text segment and finsh_compile_pc. */
    const text: array<Byte>
    var pc: nat
    /** finsh_compile has set FINSH_ERROR_UNKNOWN_TYPE. */
    var unknownType: bool
    /** The instructions emitted so far. */
    ghost var code: seq<Instr>

    /** The text holds the emitted code and zeros behind it. */
    ghost predicate Valid()
      reads this, text
    {
      |Assembled(code)| <= TEXT_MAX && pc == |Assembled(code)| && text[..] == M.Segment(Assembled(code))
    }

    constructor ()
      ensures Valid() && fresh(text) && code == [] && !unknownType
    {
      text := new Byte[TEXT_MAX](_ => OP_NOOP);
      pc := 0;
      unknownType := false;
      code := [];
    }

    /** finsh_code_byte */
    method CodeByte(b: Byte)
      requires pc < text.Length
      modifies this`pc, text
      ensures pc == old(pc) + 1
      ensures text[..] == old(text[..pc]) + [b] + old(text[pc + 1..])
    {
      text[pc] := b;
      pc := pc + 1;
    }

    /** finsh_code_dword, FINSH_SET32. */
    method CodeDword(w: Word)
      requires pc + 4 <= text.Length
      modifies this`pc, text
      ensures pc == old(pc) + 4
      ensures text[..] == old(text[..pc]) + Bytes(w) + old(text[pc + 4..])
    {
      var q1 := w / 0x100;
      var q2 := q1 / 0x100;
      text[pc] := w % 0x100;
      text[pc + 1] := q1 % 0x100;
      text[pc + 2] := q2 % 0x100;
      text[pc + 3] := q2 / 0x100;
      pc := pc + 4;
    }

    method CodeLoad(op: Byte, w: Word)
      requires pc + 5 <= text.Length
      modifies this`pc, text
      ensures pc == old(pc) + 5
      ensures text[..] == old(text[..pc]) + ([op] + Bytes(w)) + old(text[pc + 5..])
    {
      CodeByte(op);
      CodeDword(w);
    }

    /** An opcode and its operand. */
    method CodeInstr(i: Instr)
      requires pc + |Encode(i)| <= text.Length
      modifies this`pc, text
      ensures pc == old(pc) + |Encode(i)|
      ensures text[..] == old(text[..pc]) + Encode(i) + old(text[pc + |Encode(i)|..])
    {
      match i {
        case Const(value) => CodeLoad(OP_LD_DWORD, value);
        case Fetch(at) => CodeLoad(OP_LD_VALUE_DWORD, at);
        case Invoke(count) => CodeCall(count);
        case Compute(op) => CodeByte(BinaryCode(op));
        case Flip => CodeByte(OP_BITWISE);
        case StoreTop => CodeByte(OP_ST_DWORD);
        case Reload => CodeByte(OP_LD_VALUE_DWORD_STACK);
        case Drop => CodeByte(OP_POP);
      }
    }

    method CodeCall(count: Byte)
      requires pc + 2 <= text.Length
      modifies this`pc, text
      ensures pc == old(pc) + 2
      ensures text[..] == old(text[..pc]) + [OP_SYSCALL, count] + old(text[pc + 2..])
    {
      CodeByte(OP_SYSCALL);
      CodeByte(count);
    }

    method Put(i: Instr)
      requires Valid() && |Assembled(code + [i])| <= TEXT_MAX
      modifies this`pc, this`code, text
      ensures Valid() && code == old(code) + [i]
    {
      AssembledConcat(code, [i]);
      assert Assembled([i]) == Encode(i);
      CodeInstr(i);
      code := code + [i];
    }

    /** Load the variable, add or subtract one, store. */
    method PutStep(op: BinOp, at: Word)
      requires Valid() && |Assembled(code + StepCode(op, at))| <= TEXT_MAX
      modifies this`pc, this`code, text
      ensures Valid() && code == old(code) + StepCode(op, at)
    {
      assert code + StepCode(op, at) == code + [Fetch(at)] + [Const(1)] + [Compute(op)] + [StoreTop];
      PrefixFits(code + [Fetch(at)] + [Const(1)] + [Compute(op)], [StoreTop]);
      PrefixFits(code + [Fetch(at)] + [Const(1)], [Compute(op)]);
      PrefixFits(code + [Fetch(at)], [Const(1)]);
      Put(Fetch(at));
      Put(Const(1));
      Put(Compute(op));
      Put(StoreTop);
    }

    method PutStepBehind(op: BinOp, at: Word)
      requires Valid() && |Assembled(code + StepBehindCode(op, at))| <= TEXT_MAX
      modifies this`pc, this`code, text
      ensures Valid() && code == old(code) + StepBehindCode(op, at)
    {
      assert code + StepBehindCode(op, at) == code + [Const(at)] + StepCode(op, at) + [Drop];
      PrefixFits(code + [Const(at)] + StepCode(op, at), [Drop]);
      PrefixFits(code + [Const(at)], StepCode(op, at));
      Put(Const(at));
      PutStep(op, at);
      Put(Drop);
    }

    /** The parameters of a call: the siblings of the function. */
    static method CountSiblings(first: Node?, ghost sh: Shape) returns (count: nat)
      requires Linked(first, sh)
      ensures count == Width(View(sh))
    {
      count := 0;
      var sibling := first;
      ghost var left := sh;
      while sibling != null
        invariant Linked(sibling, left)
        invariant Width(View(sh)) == count + Width(View(left))
        decreases left
      {
        count := count + 1;
        sibling := sibling.sibling;
        left := left.sibling;
      }
    }

    /** What one node adds once its child is compiled. */
    method CompileNode(node: Node, ghost f: Forest, ghost args: Shape)
      requires Shows(node, f) && Sound(f)
      requires node.child != null ==> Linked(node.child.sibling, args) && View(args) == f.child.sibling
      requires Valid() && |Assembled(code + OwnOf(f))| <= TEXT_MAX
      modifies this, text
      ensures Valid() && code == old(code) + OwnOf(f)
      ensures unknownType <==> old(unknownType) || NoWidth(f)
    {
      ghost var own := OwnOf(f);
      match node.kind {
        case Id =>
          CompileName(node, f);
        case ValueInt | ValueLong | ValueNull => Put(Const(node.value));
        case Arith(op) =>
          if node.data.DWord? {
            Put(Compute(op));
          }
        case Bitwise =>
          if node.data.DWord? {
            Put(Flip);
          }
        case Func =>
          CompileCall(node, f, args);
        case Assign =>
          if node.child.kind.Id? || node.child.kind.GetValue? {
            if node.child.data.DWord? {
              assert code + own == code + [StoreTop] + [Reload];
              PrefixFits(code + [StoreTop], [Reload]);
              Put(StoreTop);
              Put(Reload);
            } else {
              unknownType := true;
            }
          }
        case PreInc => CompilePreStep(node, Add, f);
        case PreDec => CompilePreStep(node, Sub, f);
        case Inc =>
          if node.child.kind.Id? && node.data.DWord? {
            PutStepBehind(Add, node.child.value);
          }
        case Dec =>
          if node.child.kind.Id? && node.data.DWord? {
            PutStepBehind(Sub, node.child.value);
          }
        case GetValue =>
          if !node.address && node.data.DWord? {
            Put(Reload);
          }
        case GetAddr =>
        case Unknown =>
      }
    }

    /** The load switch: functions by their address, variables and system variables of the types it knows. */
    method CompileName(node: Node, ghost f: Forest)
      requires Shows(node, f) && f.kind.Id?
      requires Valid() && |Assembled(code + OwnOf(f))| <= TEXT_MAX
      modifies this`pc, this`code, text
      ensures Valid() && code == old(code) + OwnOf(f)
    {
      if node.id.SysCall? {
        Put(Const(node.value));
      } else if (node.id.SysVar? || node.id.Var?) && node.id.declared.DoubleWord? {
        if node.address {
          Put(Const(node.value));
        } else {
          Put(Fetch(node.value));
        }
      }
    }

    method CompileCall(node: Node, ghost f: Forest, ghost args: Shape)
      requires Shows(node, f) && f.kind.Func? && node.child != null
      requires Linked(node.child.sibling, args) && View(args) == f.child.sibling
      requires Valid() && |Assembled(code + OwnOf(f))| <= TEXT_MAX
      modifies this`pc, this`code, text
      ensures Valid() && code == old(code) + OwnOf(f)
    {
      NodesExist(args);
      var count := CountSiblings(node.child.sibling, args);
      assert count == Width(f.child.sibling);
      assert OwnOf(f) == [Invoke(LowByte(count))];
      Put(Invoke(LowByte(count)));
    }

    method CompilePreStep(node: Node, op: BinOp, ghost f: Forest)
      requires Shows(node, f) && node.child != null && node.kind == StepKind(true, op.Add?) && (op.Add? || op.Sub?)
      requires Valid() && |Assembled(code + OwnOf(f))| <= TEXT_MAX
      modifies this`pc, this`code, text
      ensures Valid() && code == old(code) + OwnOf(f)
    {
      if node.child.kind.Id? && node.data.DWord? {
        ghost var step := StepCode(op, node.child.value);
        assert code + (step + [Reload]) == code + step + [Reload];
        PrefixFits(code + step, [Reload]);
        PutStep(op, node.child.value);
        Put(Reload);
      }
    }

    /** finsh_compile: child, node, sibling. */
    method Compile(node: Node?, ghost sh: Shape)
      requires Linked(node, sh) && Sound(View(sh))
      requires Valid() && |Assembled(code + Code(View(sh)))| <= TEXT_MAX
      modifies this, text
      ensures Valid() && code == old(code + Code(View(sh)))
      ensures unknownType <==> old(unknownType || Mistyped(View(sh)))
      decreases sh, 1
    {
      if node == null {
        return;
      }
      ghost var f, was := View(sh), code;
      Parts(f, code);
      ShowsView(node, sh);
      NodesExist(sh);
      Compile(node.child, sh.child);
      assert unchanged(Nodes(sh));
      assert Linked(node, sh) && View(sh) == f && code == was + Code(f.child);
      ShowsView(node, sh);
      CompileAfterChild(node, f, if sh.child.Joint? then sh.child.sibling else Leafless, sh.sibling);
    }

    method CompileAfterChild(node: Node, ghost f: Forest, ghost args: Shape, ghost right: Shape)
      requires Shows(node, f) && Sound(f)
      requires node.child != null ==> Linked(node.child.sibling, args) && View(args) == f.child.sibling
      requires Linked(node.sibling, right) && View(right) == f.sibling
      requires Valid() && |Assembled(code + OwnOf(f) + Code(f.sibling))| <= TEXT_MAX
      modifies this, text
      ensures Valid() && code == old(code) + OwnOf(f) + Code(f.sibling)
      ensures unknownType <==> old(unknownType) || NoWidth(f) || Mistyped(f.sibling)
      decreases right, 2
    {
      PrefixFits(code + OwnOf(f), Code(f.sibling));
      NodesExist(right);
      CompileNode(node, f, args);
      assert unchanged(Nodes(right));
      Compile(node.sibling, right);
    }

    /** The text segment is zeroed. */
    method Clear()
      requires text.Length == TEXT_MAX
      modifies this`pc, this`code, text
      ensures Valid() && code == []
    {
      var i := 0;
      while i < TEXT_MAX
        invariant 0 <= i <= TEXT_MAX
        invariant forall k :: 0 <= k < i ==> text[k] == OP_NOOP
      {
        text[i] := OP_NOOP;
        i := i + 1;
      }
      pc := 0;
      code := [];
      assert Assembled(code) == [];
    }

    /** finsh_compiler_run: the statements one by one, cut off from each other, a pop between two of them. */
    method Run(root: Node?, ghost sh: Shape)
      requires text.Length == TEXT_MAX && Linked(root, sh) && Sound(View(sh))
      requires |Assembled(Program(Checked(View(sh), false)))| <= TEXT_MAX
      modifies this, text, Nodes(sh)
      ensures Valid() && code == Program(Checked(old(View(sh)), false))
      ensures unknownType <==> old(unknownType || Mistyped(Checked(View(sh), false)))
    {
      ghost var program := Program(Checked(View(sh), false));
      SoundChecked(View(sh), false);
      NodesExist(sh);
      TypeCheck(root, false, sh);
      label checked: assert true;
      Clear();
      assert unchanged@checked(Nodes(sh));
      var sibling := root;
      ghost var rest := sh;
      while sibling != null
        invariant Valid() && Linked(sibling, rest) && Nodes(rest) <= Nodes(sh)
        invariant Sound(View(rest))
        invariant code + Program(View(rest)) == program
        invariant unknownType || Mistyped(View(rest)) <==> old(unknownType || Mistyped(Checked(View(sh), false)))
        decreases rest
      {
        sibling := CompileStatement(sibling, rest);
        rest := rest.sibling;
      }
      assert code + [] == code;
    }

    /** A statement loses its sibling; both parts stay what they are. */
    static method Cut(node: Node, ghost sh: Shape) returns (sibling: Node?)
      requires Linked(node, sh)
      modifies node`sibling
      ensures sibling == old(node.sibling)
      ensures Linked(sibling, sh.sibling) && View(sh.sibling) == old(View(sh.sibling))
      ensures var one := Joint(node, sh.child, Leafless);
              Linked(node, one) && View(one) == old(View(sh)).(sibling := Forest.Nil)
    {
      NodesExist(sh.sibling);
      NodesExist(sh.child);
      sibling := node.sibling;
      node.sibling := null;
      assert unchanged(Nodes(sh.sibling)) && unchanged(Nodes(sh.child));
    }

    method CompileStatement(node: Node, ghost sh: Shape) returns (sibling: Node?)
      requires Valid() && Linked(node, sh) && Sound(View(sh))
      requires |Assembled(code + Program(View(sh)))| <= TEXT_MAX
      modifies this, text, node`sibling
      ensures Valid()
      ensures Linked(sibling, sh.sibling) && View(sh.sibling) == old(View(sh.sibling))
      ensures code + Program(View(sh.sibling)) == old(code + Program(View(sh)))
      ensures unknownType || Mistyped(View(sh.sibling)) <==> old(unknownType || Mistyped(View(sh)))
    {
      StatementFits(code, View(sh));
      sibling := Cut(node, sh);
      CompileCut(node, Joint(node, sh.child, Leafless), sibling, sh.sibling);
      if sibling != null {
        PutDrop(sibling, sh.sibling);
      }
    }

    method CompileCut(node: Node, ghost one: Shape, sibling: Node?, ghost rest: Shape)
      requires Linked(node, one) && Sound(View(one)) && Linked(sibling, rest)
      requires Valid() && |Assembled(code + Code(View(one)))| <= TEXT_MAX
      modifies this, text
      ensures Valid() && Linked(sibling, rest) && View(rest) == old(View(rest))
      ensures code == old(code + Code(View(one)))
      ensures unknownType <==> old(unknownType || Mistyped(View(one)))
    {
      NodesExist(rest);
      Compile(node, one);
      assert unchanged(Nodes(rest));
    }

    method PutDrop(sibling: Node?, ghost rest: Shape)
      requires Valid() && Linked(sibling, rest) && |Assembled(code + [Drop])| <= TEXT_MAX
      modifies this`pc, this`code, text
      ensures Valid() && Linked(sibling, rest) && View(rest) == old(View(rest))
      ensures code == old(code) + [Drop]
    {
      NodesExist(rest);
      Put(Drop);
      assert unchanged(Nodes(rest));
    }
  }

  lemma StatementFits(code: seq<Instr>, f: Forest)
    requires f.Node?
    ensures var one := Code(f.(sibling := Nil));
            |Assembled(code + one)| <= |Assembled(code + Program(f))| &&
            if f.sibling.Nil? then code + Program(f) == code + one
            else code + Program(f) == (code + one + [Drop]) + Program(f.sibling) &&
                 |Assembled(code + one + [Drop])| <= |Assembled(code + Program(f))|
  {
    var one := Code(f.(sibling := Nil));
    if f.sibling.Nil? {
      assert one + [] == one;
    } else {
      assert code + (one + ([Drop] + Program(f.sibling))) == (code + one + [Drop]) + Program(f.sibling);
      PrefixFits(code + one + [Drop], Program(f.sibling));
      PrefixFits(code + one, [Drop]);
    }
  }

  lemma {:induction false} SoundChecked(f: Forest, mark: bool)
    requires Sound(f)
    ensures Sound(Checked(f, mark))
  {
    if f.Node? {
      SoundChecked(f.child, MarkBelow(f.kind, mark));
      SoundChecked(f.sibling, false);
    }
  }

  /** f is what node and its first child hold. */
  ghost predicate Shows(node: Node, f: Forest)
    reads node, node.child
  {
    f.Node? && f.kind == node.kind && f.id == node.id && f.value == node.value && f.address == node.address && f.data == node.data &&
    (node.child == null <==> f.child.Nil?) &&
    (node.child != null ==> f.child.kind == node.child.kind && f.child.id == node.child.id &&
                            f.child.value == node.child.value && f.child.data == node.child.data)
  }

  lemma ShowsView(node: Node, sh: Shape)
    requires Linked(node, sh)
    ensures Shows(node, View(sh))
    ensures View(sh).child == View(sh.child) && View(sh).sibling == View(sh.sibling)
    ensures node.child != null ==> Linked(node.child.sibling, sh.child.sibling) && View(sh.child.sibling) == View(sh).child.sibling
  {
  }

  lemma Parts(f: Forest, code: seq<Instr>)
    requires f.Node?
    ensures code + Code(f) == code + Code(f.child) + OwnOf(f) + Code(f.sibling)
    ensures |Assembled(code + Code(f.child))| <= |Assembled(code + Code(f))|
  {
    Appended(code, Code(f.child), OwnOf(f), Code(f.sibling));
    PrefixFits(code + Code(f.child), OwnOf(f) + Code(f.sibling));
  }

  lemma Appended(a: seq<Instr>, b: seq<Instr>, c: seq<Instr>, d: seq<Instr>)
    ensures a + (b + (c + d)) == a + b + c + d == (a + b) + (c + d)
  {
  }

  function OwnOf(f: Forest): seq<Instr>
    requires f.Node?
  {
    Own(f.kind, f.id, f.value, f.address, f.data, f.child)
  }
}
