/** The virtual machine with its stack and text segment as arrays. */
module FinshVm {
  import opened Kernel
  import opened FinshTree
  import opened FinshCode
  import M = FinshMachine

  const CALL_MAX := 16

  class Vm {
    const text: array<Byte>
    const stack: array<Word>
    var sp: nat
    var pc: nat
    var mem: M.Memory
    const host: M.Host

    constructor (text: array<Byte>, mem: M.Memory, host: M.Host)
      requires text.Length == TEXT_MAX
      ensures Valid() && this.text == text && this.mem == mem && this.host == host && sp == 0 && pc == 0
      ensures fresh(stack)
    {
      this.text := text;
      stack := new Word[STACK_MAX](_ => 0);
      sp, pc := 0, 0;
      this.mem := mem;
      this.host := host;
    }

    ghost predicate Valid()
      reads this
    {
      text.Length == TEXT_MAX && stack.Length == STACK_MAX && sp <= STACK_MAX && pc <= TEXT_MAX && stack as object != text
    }

    ghost function State(): M.State
      reads this, stack
      requires Valid()
    {
      M.State(stack[..sp], mem)
    }

    /** OP_add_dword and the other two-operand operations. */
    method OpBinary(op: BinOp) returns (ok: bool)
      requires Valid()
      modifies this`sp, stack
      ensures Valid()
      ensures Done(ok, Compute(op), old(State()))
    {
      if sp < 2 {
        return false;
      }
      ghost var was := stack[..sp];
      stack[sp - 2] := host.alu(op, stack[sp - 2], stack[sp - 1]);
      sp := sp - 1;
      assert stack[..sp] == was[..sp - 1] + [host.alu(op, was[sp - 1], was[sp])];
      return true;
    }

    /** The operation reports failure exactly when the instruction has none, and is the instruction otherwise. */
    ghost predicate Done(ok: bool, i: Instr, was: M.State)
      reads this, stack
      requires Valid()
    {
      var r := M.Do(i, host, was);
      if ok then r == Some(State()) else r == None && State() == was
    }

    /** OP_bw_dword */
    method OpBitwise() returns (ok: bool)
      requires Valid()
      modifies stack
      ensures Valid()
      ensures Done(ok, Flip, old(State()))
    {
      if sp < 1 {
        return false;
      }
      ghost var was := stack[..sp];
      stack[sp - 1] := M.Invert(stack[sp - 1]);
      assert stack[..sp] == was[..sp - 1] + [M.Invert(was[sp - 1])];
      return true;
    }

    /** OP_ld_dword and OP_ld_value_dword, their operand read. */
    method OpLoad(i: Instr, w: Word) returns (ok: bool)
      requires Valid() && (i == Const(w) || (i.Fetch? && w == host.load(mem, i.at)))
      modifies this`sp, stack
      ensures Valid()
      ensures Done(ok, i, old(State()))
    {
      if sp >= STACK_MAX {
        return false;
      }
      ghost var was := stack[..sp];
      stack[sp] := w;
      sp := sp + 1;
      assert stack[..sp] == was + [w];
      return true;
    }

    /** OP_ld_value_dword_stack */
    method OpReload() returns (ok: bool)
      requires Valid()
      modifies stack
      ensures Valid()
      ensures Done(ok, Reload, old(State()))
    {
      if sp < 1 {
        return false;
      }
      ghost var was := stack[..sp];
      var w := host.load(mem, stack[sp - 1]);
      stack[sp - 1] := w;
      assert stack[..sp] == was[..sp - 1] + [w];
      return true;
    }

    /** OP_st_dword: the address stays. */
    method OpStore() returns (ok: bool)
      requires Valid()
      modifies this`sp, this`mem
      ensures Valid()
      ensures Done(ok, StoreTop, old(State()))
    {
      if sp < 2 {
        return false;
      }
      ghost var was := stack[..sp];
      mem := host.store(mem, stack[sp - 2], stack[sp - 1]);
      sp := sp - 1;
      assert stack[..sp] == was[..sp];
      return true;
    }

    method OpPop() returns (ok: bool)
      requires Valid()
      modifies this`sp
      ensures Valid()
      ensures Done(ok, Drop, old(State()))
    {
      if sp < 1 {
        return false;
      }
      ghost var was := stack[..sp];
      sp := sp - 1;
      assert stack[..sp] == was[..sp];
      return true;
    }

    /** The arguments of a call, taken off the stack last first; the function is the next word below. */
    method Arguments(parameters: nat) returns (parameterv: array<Word>)
      requires Valid() && parameters <= CALL_MAX && parameters < sp
      modifies this`sp
      ensures fresh(parameterv) && parameterv.Length == CALL_MAX
      ensures sp == old(sp) - 1 - parameters
      ensures parameterv[..parameters] == stack[sp + 1..old(sp)]
    {
      parameterv := new Word[CALL_MAX](_ => 0);
      ghost var n := sp;
      var i := 0;
      sp := sp - 1;
      while i < parameters
        invariant 0 <= i <= parameters && sp == n - 1 - i
        invariant forall k :: parameters - i <= k < parameters ==> parameterv[k] == stack[n - parameters + k]
      {
        parameterv[parameters - 1 - i] := stack[sp];
        sp := sp - 1;
        i := i + 1;
      }
    }

    /** OP_call: the function and its arguments make room for its result. */
    method OpCall(parameters: Byte) returns (ok: bool)
      requires Valid()
      modifies this`sp, this`mem, stack
      ensures Valid()
      ensures Done(ok, Invoke(parameters), old(State()))
    {
      if parameters > CALL_MAX || sp < parameters + 1 {
        return false;
      }
      ghost var n, was := sp, stack[..sp];
      var parameterv := Arguments(parameters);
      var r := host.call(stack[sp], parameterv[..parameters], mem);
      assert stack[sp] == was[sp] && stack[sp + 1..n] == was[n - parameters..];
      mem := r.mem;
      stack[sp] := r.value;
      sp := sp + 1;
      assert stack[..sp] == was[..n - 1 - parameters] + [r.value];
      return true;
    }

    /** FINSH_GET32 at pc, which moves past it. */
    method Operand() returns (w: Word)
      requires Valid() && pc + 4 <= TEXT_MAX
      modifies this`pc
      ensures Valid() && pc == old(pc) + 4
      ensures w == Join(text[old(pc)], text[old(pc) + 1], text[old(pc) + 2], text[old(pc) + 3])
    {
      w := Join(text[pc], text[pc + 1], text[pc + 2], text[pc + 3]);
      pc := pc + 4;
    }

    /** One entry of op_table; an entry that is not modelled fails. */
    method Dispatch() returns (ok: bool)
      requires Valid() && pc < TEXT_MAX
      modifies this`sp, this`mem, this`pc, stack
      ensures Valid() && (ok ==> pc > old(pc))
      ensures M.Run(text[old(pc)..], host, old(State())) == if ok then M.Run(text[pc..], host, State()) else None
    {
      ghost var rest := text[pc..];
      var op := text[pc];
      pc := pc + 1;
      if op == OP_NOOP {
        assert rest[1..] == text[pc..];
        return true;
      }
      ghost var i := M.Fetched(rest);
      var binary := M.Decode(op);
      if binary.Some? {
        ok := OpBinary(binary.value);
      } else if op == OP_LD_DWORD || op == OP_LD_VALUE_DWORD {
        if pc + 4 > TEXT_MAX {
          return false;
        }
        var w := Operand();
        if op == OP_LD_DWORD {
          ok := OpLoad(Const(w), w);
        } else {
          ok := OpLoad(Fetch(w), host.load(mem, w));
        }
      } else if op == OP_BITWISE {
        ok := OpBitwise();
      } else if op == OP_ST_DWORD {
        ok := OpStore();
      } else if op == OP_LD_VALUE_DWORD_STACK {
        ok := OpReload();
      } else if op == OP_POP {
        ok := OpPop();
      } else if op == OP_SYSCALL && pc < TEXT_MAX {
        pc := pc + 1;
        ok := OpCall(text[pc - 1]);
      } else {
        return false;
      }
      assert rest[|Encode(i.value)|..] == text[pc..];
    }

    /** finsh_vm_run */
    method Run() returns (ok: bool)
      requires Valid()
      modifies this`sp, this`mem, this`pc, stack
      ensures Valid()
      ensures var r := M.Run(text[..], host, M.State([], old(mem)));
              if ok then r == Some(State()) else r == None
    {
      sp, pc := 0, 0;
      ok := true;
      while ok && pc < TEXT_MAX
        invariant Valid()
        invariant M.Run(text[..], host, M.State([], old(mem))) == if ok then M.Run(text[pc..], host, State()) else None
        decreases ok, TEXT_MAX - pc
      {
        ok := Dispatch();
      }
    }
  }
}
