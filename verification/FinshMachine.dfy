/**
  The finsh virtual machine: a byte memory, a stack of at most STACK_MAX words and a program counter
  that runs over the whole text segment. The original checks nothing; a step that would leave the
  stack or the text, or use an entry that op_table does not have, is None here.
 */
module FinshMachine {
  import opened Kernel
  import opened FinshTree
  import opened FinshCode

  type Memory = map<Word, Byte>

  datatype Reply = Reply(value: Word, mem: Memory)

  /**
    What the machine runs on: the processor's two-operand instructions, what calling an address with
    arguments does, and how a double word is read from and written to memory. The compiler depends on
    no more of it than that a word just written is read back.
   */
  datatype Host = Host(alu: (BinOp, Word, Word) -> Word, call: (Word, seq<Word>, Memory) -> Reply,
                       load: (Memory, Word) -> Word, store: (Memory, Word, Word) -> Memory)

  ghost predicate Lawful(host: Host) {
    forall m: Memory, a: Word, w: Word :: host.load(host.store(m, a, w), a) == w
  }

  /** The stack, bottom first, and the memory. */
  datatype State = State(stack: seq<Word>, mem: Memory)

  /** C's ~ on a word. */
  function Invert(x: Word): Word {
    0xFFFF_FFFF - x
  }

  function Decode(code: Byte): (op: Option<BinOp>)
    ensures op.Some? ==> BinaryCode(op.value) == code
    ensures op.None? ==> forall o :: BinaryCode(o) != code
  {
    match code
    case 0x03 => Some(Add)
    case 0x06 => Some(Sub)
    case 0x09 => Some(Div)
    case 0x0C => Some(Mod)
    case 0x0F => Some(Mul)
    case 0x12 => Some(And)
    case 0x15 => Some(Or)
    case 0x18 => Some(Xor)
    case 0x1E => Some(Shl)
    case 0x21 => Some(Shr)
    case _ => None
  }

  /** What one instruction does to stack and memory; None where it would leave the stack. */
  function Do(i: Instr, host: Host, st: State): Option<State> {
    var State(stack, mem) := st;
    var n := |stack|;
    match i
    case Const(value) => if n >= STACK_MAX then None else Some(State(stack + [value], mem))
    case Fetch(at) => if n >= STACK_MAX then None else Some(State(stack + [host.load(mem, at)], mem))
    case Compute(op) => if n < 2 then None else Some(State(stack[..n - 2] + [host.alu(op, stack[n - 2], stack[n - 1])], mem))
    case Flip => if n < 1 then None else Some(State(stack[..n - 1] + [Invert(stack[n - 1])], mem))
    case StoreTop => if n < 2 then None else Some(State(stack[..n - 1], host.store(mem, stack[n - 2], stack[n - 1])))
    case Reload => if n < 1 then None else Some(State(stack[..n - 1] + [host.load(mem, stack[n - 1])], mem))
    case Drop => if n < 1 then None else Some(State(stack[..n - 1], mem))
    case Invoke(count) =>
      if count > 16 || n < count + 1 then None
      else
        var r := host.call(stack[n - 1 - count], stack[n - count..], mem);
        Some(State(stack[..n - 1 - count] + [r.value], r.mem))
  }

  /** The instruction whose bytes the text begins with. */
  function Fetched(text: seq<Byte>): (i: Option<Instr>)
    requires text != []
    ensures i.Some? ==> |Encode(i.value)| <= |text|
  {
    var code := text[0];
    if Decode(code).Some? then Some(Compute(Decode(code).value))
    else if code == OP_LD_DWORD || code == OP_LD_VALUE_DWORD then
      if |text| < 5 then None
      else
        var w := Join(text[1], text[2], text[3], text[4]);
        Some(if code == OP_LD_DWORD then Const(w) else Fetch(w))
    else if code == OP_BITWISE then Some(Flip)
    else if code == OP_ST_DWORD then Some(StoreTop)
    else if code == OP_LD_VALUE_DWORD_STACK then Some(Reload)
    else if code == OP_POP then Some(Drop)
    else if code == OP_SYSCALL && |text| >= 2 then Some(Invoke(text[1]))
    else None
  }

  /** finsh_vm_run's loop over what is left of the text segment. */
  function Run(text: seq<Byte>, host: Host, st: State): Option<State>
    decreases |text|, 0
  {
    if text == [] then Some(st)
    else if text[0] == OP_NOOP then Run(text[1..], host, st)
    else
      match Fetched(text)
      case None => None
      case Some(i) => Continue(text[|Encode(i)|..], host, Do(i, host, st))
  }

  function Continue(text: seq<Byte>, host: Host, st: Option<State>): Option<State>
    decreases |text|, 1
  {
    match st
    case None => None
    case Some(t) => Run(text, host, t)
  }

  /** Encoding is undone by fetching. */
  lemma FetchedEncode(i: Instr, rest: seq<Byte>)
    ensures var text := Encode(i) + rest;
            text[0] != OP_NOOP && Fetched(text) == Some(i) && text[|Encode(i)|..] == rest
  {
    match i
    case Const(value) => JoinBytes(value);
    case Fetch(at) => JoinBytes(at);
    case Compute(op) => assert Decode(BinaryCode(op)) == Some(op);
    case _ =>
  }

  // ---- instruction lists ----

  function Exec(code: seq<Instr>, host: Host, st: State): Option<State>
    decreases |code|
  {
    if code == [] then Some(st)
    else
      match Do(code[0], host, st)
      case None => None
      case Some(t) => Exec(code[1..], host, t)
  }

  lemma {:induction false} ExecConcat(a: seq<Instr>, b: seq<Instr>, host: Host, st: State)
    requires Exec(a, host, st).Some?
    ensures Exec(a + b, host, st) == Exec(b, host, Exec(a, host, st).value)
    decreases |a|
  {
    if a == [] {
      assert a + b == b;
    } else {
      assert (a + b)[1..] == a[1..] + b;
      ExecConcat(a[1..], b, host, Do(a[0], host, st).value);
    }
  }

  lemma RunOne(i: Instr, rest: seq<Byte>, host: Host, st: State)
    ensures Run(Encode(i) + rest, host, st) == Continue(rest, host, Do(i, host, st))
  {
    FetchedEncode(i, rest);
  }

  /** Running the bytes of an instruction list executes it, whatever follows them. */
  lemma {:induction false} RunExecutes(code: seq<Instr>, rest: seq<Byte>, host: Host, st: State)
    ensures Run(Assembled(code) + rest, host, st) == Continue(rest, host, Exec(code, host, st))
    decreases |code|
  {
    if code == [] {
      assert Assembled(code) + rest == rest;
    } else {
      var i, tail := code[0], Assembled(code[1..]) + rest;
      assert Assembled(code) + rest == Encode(i) + tail;
      RunOne(i, tail, host, st);
      if Do(i, host, st).Some? {
        RunExecutes(code[1..], rest, host, Do(i, host, st).value);
      }
    }
  }

  /** Zeros do nothing. */
  lemma {:induction false} RunPadding(text: seq<Byte>, host: Host, st: State)
    requires forall i :: 0 <= i < |text| ==> text[i] == OP_NOOP
    ensures Run(text, host, st) == Some(st)
    decreases |text|
  {
    if text != [] {
      RunPadding(text[1..], host, st);
    }
  }

  /** A text segment: the code, then zeros up to its end. */
  function Segment(code: seq<Byte>): (text: seq<Byte>)
    requires |code| <= TEXT_MAX
    ensures |text| == TEXT_MAX
  {
    code + seq(TEXT_MAX - |code|, _ => OP_NOOP)
  }

  /** finsh_vm_run over a text segment executes the program in it. */
  lemma RunSegment(code: seq<Instr>, host: Host, st: State)
    requires |Assembled(code)| <= TEXT_MAX
    ensures Run(Segment(Assembled(code)), host, st) == Exec(code, host, st)
  {
    var zeros := seq(TEXT_MAX - |Assembled(code)|, _ => OP_NOOP);
    RunExecutes(code, zeros, host, st);
    if Exec(code, host, st).Some? {
      RunPadding(zeros, host, Exec(code, host, st).value);
    }
  }
}
