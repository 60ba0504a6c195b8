/**
  What the compiled bytes of any expression do to the machine: which words they push and how they
  change the memory. An operator whose left operand has no width is not compiled, and leaves both
  operands on the stack; Effect says exactly what that comes to.
 */
module FinshEffect {
  import opened Kernel
  import opened FinshTree
  import opened FinshCode
  import M = FinshMachine

  datatype Effects = Effects(values: seq<Word>, mem: M.Memory)

  function Max(a: nat, b: int): nat {
    if a < b then b else a
  }

  /** By how many words the code of e raises the stack. */
  function Rise(e: Expr): int {
    match e
    case Literal(_, _) => 1
    case Name(symbol) => if Loads(symbol.id) then 1 else 0
    case Binary(_, left, right) => Rise(left) + Rise(right) - (if Typing(left).DWord? then 1 else 0)
    case Negate(x) => Rise(x)
    case Complement(x) => Rise(x)
    case Plus(x) => Rise(x)
    case Set(target, source) => Rise(target) + Rise(source) - (if StoresInto(target) then 1 else 0)
    case PreStep(_, x) => Rise(x)
    case PostStep(_, x) => Rise(x)
    case Deref(x) => Rise(x)
    case AddrOf(x) => Rise(x)
    case Call(fn, args) => Rise(fn) + (RiseAll(args) - Count(args))
  }

  function RiseAll(args: Args): int {
    match args
    case NoArgs => 0
    case Arg(first, rest) => Rise(first) + RiseAll(rest)
  }

  /** Every operator that is compiled takes only words its own operands have pushed. */
  predicate Fed(e: Expr, mark: bool)
    ensures Fed(e, mark) ==> Rise(e) >= 0
  {
    match e
    case Literal(_, _) => true
    case Name(_) => true
    case Binary(_, left, right) => Fed(left, mark) && Fed(right, false) && (Typing(left).DWord? ==> Rise(left) + Rise(right) >= 2)
    case Negate(x) => Fed(x, false) && Rise(x) >= 1
    case Complement(x) => Fed(x, mark) && (Typing(x).DWord? ==> Rise(x) >= 1)
    case Plus(x) => Fed(x, mark)
    case Set(target, source) =>
      Fed(target, true) && Fed(source, false) && (StoresInto(target) ==> Rise(target) + Rise(source) >= 2)
    case PreStep(_, x) => Fed(x, true) && (Steps(x) ==> Rise(x) >= 1)
    case PostStep(_, x) => Fed(x, mark)
    case Deref(x) => Fed(x, false) && (!mark && Typing(x).DWord? ==> Rise(x) >= 1)
    case AddrOf(x) => Fed(x, true)
    case Call(fn, args) => Fed(fn, mark) && AllFed(args) && Rise(fn) + RiseAll(args) >= Count(args) + 1
  }

  predicate AllFed(args: Args)
    ensures AllFed(args) ==> RiseAll(args) >= 0
  {
    match args
    case NoArgs => true
    case Arg(first, rest) => Fed(first, false) && AllFed(rest)
  }

  /** Where every name is loaded, every operator has its operands. */
  lemma {:induction false} LoadedIsFed(e: Expr, mark: bool)
    requires Loaded(e)
    ensures Fed(e, mark) && Rise(e) >= 1
    decreases e
  {
    match e
    case Literal(_, _) =>
    case Name(_) =>
    case Binary(_, left, right) => LoadedIsFed(left, mark); LoadedIsFed(right, false);
    case Negate(x) => LoadedIsFed(x, false);
    case Complement(x) => LoadedIsFed(x, mark);
    case Plus(x) => LoadedIsFed(x, mark);
    case Set(target, source) => LoadedIsFed(target, true); LoadedIsFed(source, false);
    case PreStep(_, x) => LoadedIsFed(x, true);
    case PostStep(_, x) => LoadedIsFed(x, mark);
    case Deref(x) => LoadedIsFed(x, false);
    case AddrOf(x) => LoadedIsFed(x, true);
    case Call(fn, args) => LoadedIsFed(fn, mark); AllLoadedAreFed(args);
  }

  lemma {:induction false} AllLoadedAreFed(args: Args)
    requires AllLoaded(args)
    ensures AllFed(args) && RiseAll(args) >= Count(args)
    decreases args
  {
    if args.Arg? {
      LoadedIsFed(args.first, false);
      AllLoadedAreFed(args.rest);
    }
  }

  /** Stack slots the code of e needs. */
  function Peak(e: Expr): nat {
    match e
    case Literal(_, _) => 1
    case Name(symbol) => if Loads(symbol.id) then 1 else 0
    case Binary(_, left, right) => Max(Peak(left), Rise(left) + Peak(right))
    case Negate(x) => 1 + Peak(x)
    case Complement(x) => Peak(x)
    case Plus(x) => Peak(x)
    case Set(target, source) => Max(Peak(target), Rise(target) + Peak(source))
    case PreStep(_, x) => Max(Peak(x), Rise(x) + (if Steps(x) then 2 else 0))
    case PostStep(_, x) => Max(Peak(x), Rise(x) + (if Steps(x) then 3 else 0))
    case Deref(x) => Peak(x)
    case AddrOf(x) => Peak(x)
    case Call(fn, args) => Max(Peak(fn), Rise(fn) + PeakAll(args))
  }

  function PeakAll(args: Args): nat {
    match args
    case NoArgs => 0
    case Arg(first, rest) => Max(Peak(first), Rise(first) + PeakAll(rest))
  }

  function Last(v: seq<Word>): Word
    requires v != []
  {
    v[|v| - 1]
  }

  function ButLast(v: seq<Word>): (r: seq<Word>)
    requires v != []
    ensures |r| == |v| - 1
  {
    v[..|v| - 1]
  }

  /** v with x in the place of its last word. */
  function Topped(v: seq<Word>, x: Word): (r: seq<Word>)
    requires v != []
    ensures |r| == |v|
  {
    ButLast(v) + [x]
  }

  function Combined(op: BinOp, v: seq<Word>, host: M.Host): (r: seq<Word>)
    requires |v| >= 2
    ensures |r| == |v| - 1
  {
    Topped(ButLast(v), host.alu(op, Last(ButLast(v)), Last(v)))
  }

  function Effect(e: Expr, mark: bool, host: M.Host, m: M.Memory): (r: Effects)
    requires Formed(e) && Fed(e, mark)
    ensures |r.values| == Rise(e)
  {
    match e
    case Literal(_, value) => Effects([value], m)
    case Name(symbol) =>
      Effects(if !Loads(symbol.id) then [] else [if symbol.id.SysCall? || mark then symbol.at else host.load(m, symbol.at)], m)
    case Binary(op, left, right) =>
      var l := Effect(left, mark, host, m);
      var r := Effect(right, false, host, l.mem);
      Effects(if Typing(left).DWord? then Combined(op, l.values + r.values, host) else l.values + r.values, r.mem)
    case Negate(x) =>
      var r := Effect(x, false, host, m);
      Effects(Combined(Sub, [0] + r.values, host), r.mem)
    case Complement(x) =>
      var r := Effect(x, mark, host, m);
      if Typing(x).DWord? then Effects(Topped(r.values, M.Invert(Last(r.values))), r.mem) else r
    case Plus(x) => Effect(x, mark, host, m)
    case Set(target, source) =>
      var a := Effect(target, true, host, m);
      var r := Effect(source, false, host, a.mem);
      if StoresInto(target) then Stored(a.values + r.values, host, r.mem) else Effects(a.values + r.values, r.mem)
    case PreStep(up, x) =>
      var r := Effect(x, true, host, m);
      if Steps(x) then Stored(r.values + [host.alu(StepOp(up), host.load(r.mem, Bare(x).symbol.at), 1)], host, r.mem) else r
    case PostStep(up, x) =>
      var r := Effect(x, mark, host, m);
      if Steps(x) then
        var at := Bare(x).symbol.at;
        Effects(r.values, host.store(r.mem, at, host.alu(StepOp(up), host.load(r.mem, at), 1)))
      else r
    case Deref(x) =>
      var r := Effect(x, false, host, m);
      if mark || Typing(x).Void? then r else Effects(Topped(r.values, host.load(r.mem, Last(r.values))), r.mem)
    case AddrOf(x) => Effect(x, true, host, m)
    case Call(fn, args) =>
      var f := Effect(fn, mark, host, m);
      var a := EffectAll(args, host, f.mem);
      Called(f.values + a.values, Count(args), host, a.mem)
  }

  /** The last word stored through the address before it, and left in its place. */
  function Stored(v: seq<Word>, host: M.Host, m: M.Memory): (r: Effects)
    requires |v| >= 2
    ensures |r.values| == |v| - 1
  {
    var a := Last(ButLast(v));
    Effects(Topped(ButLast(v), Last(v)), host.store(m, a, Last(v)))
  }

  /** The word below the last k called with those k. */
  function Called(v: seq<Word>, k: nat, host: M.Host, m: M.Memory): (r: Effects)
    requires |v| >= k + 1
    ensures |r.values| == |v| - k
  {
    var n := |v| - 1 - k;
    var r := host.call(v[n], v[n + 1..], m);
    Effects(v[..n] + [r.value], r.mem)
  }

  function EffectAll(args: Args, host: M.Host, m: M.Memory): (r: Effects)
    requires AllFormed(args) && AllFed(args)
    ensures |r.values| == RiseAll(args)
  {
    match args
    case NoArgs => Effects([], m)
    case Arg(first, rest) =>
      var a := Effect(first, false, host, m);
      var r := EffectAll(rest, host, a.mem);
      Effects(a.values + r.values, r.mem)
  }

  // ---- the machine does that ----

  function After(st: M.State, r: Effects): M.State {
    M.State(st.stack + r.values, r.mem)
  }

  /** The code has the effect r on st. */
  predicate Has(code: seq<Instr>, host: M.Host, st: M.State, r: Effects) {
    M.Exec(code, host, st) == Some(After(st, r))
  }

  /** One piece of code after another. */
  lemma HasPair(a: seq<Instr>, b: seq<Instr>, host: M.Host, st: M.State, l: Effects, r: Effects)
    requires Has(a, host, st, l)
    requires Has(b, host, After(st, l), r)
    ensures Has(a + b, host, st, Effects(l.values + r.values, r.mem))
  {
    M.ExecConcat(a, b, host, st);
    assert (st.stack + l.values) + r.values == st.stack + (l.values + r.values);
  }

  /** A piece of code and one more instruction. */
  lemma HasThen(a: seq<Instr>, i: Instr, host: M.Host, st: M.State, l: Effects, r: Effects)
    requires Has(a, host, st, l)
    requires M.Do(i, host, After(st, l)) == Some(After(st, r))
    ensures Has(a + [i], host, st, r)
  {
    M.ExecConcat(a, [i], host, st);
  }

  lemma TopTwo(stack: seq<Word>, v: seq<Word>, x: Word)
    requires |v| >= 2
    ensures var s := stack + v;
            s[|s| - 1] == Last(v) && s[|s| - 2] == Last(ButLast(v)) &&
            s[..|s| - 1] == stack + ButLast(v) &&
            s[..|s| - 2] + [x] == stack + Topped(ButLast(v), x)
  {
  }

  lemma TopOne(stack: seq<Word>, v: seq<Word>, x: Word)
    requires v != []
    ensures var s := stack + v;
            s[|s| - 1] == Last(v) && s[..|s| - 1] == stack + ButLast(v) && s[..|s| - 1] + [x] == stack + Topped(v, x)
  {
  }

  lemma HasCompute(a: seq<Instr>, op: BinOp, host: M.Host, st: M.State, v: seq<Word>, m: M.Memory)
    requires |v| >= 2 && Has(a, host, st, Effects(v, m))
    ensures Has(a + [Compute(op)], host, st, Effects(Combined(op, v, host), m))
  {
    TopTwo(st.stack, v, host.alu(op, Last(ButLast(v)), Last(v)));
    HasThen(a, Compute(op), host, st, Effects(v, m), Effects(Combined(op, v, host), m));
  }

  lemma HasFlip(a: seq<Instr>, host: M.Host, st: M.State, v: seq<Word>, m: M.Memory)
    requires v != [] && Has(a, host, st, Effects(v, m))
    ensures Has(a + [Flip], host, st, Effects(Topped(v, M.Invert(Last(v))), m))
  {
    TopOne(st.stack, v, M.Invert(Last(v)));
    HasThen(a, Flip, host, st, Effects(v, m), Effects(Topped(v, M.Invert(Last(v))), m));
  }

  lemma HasReload(a: seq<Instr>, host: M.Host, st: M.State, v: seq<Word>, m: M.Memory)
    requires v != [] && Has(a, host, st, Effects(v, m))
    ensures Has(a + [Reload], host, st, Effects(Topped(v, host.load(m, Last(v))), m))
  {
    TopOne(st.stack, v, host.load(m, Last(v)));
    HasThen(a, Reload, host, st, Effects(v, m), Effects(Topped(v, host.load(m, Last(v))), m));
  }

  /** A store leaves the address on the stack. */
  lemma HasStore(a: seq<Instr>, host: M.Host, st: M.State, v: seq<Word>, m: M.Memory)
    requires |v| >= 2 && Has(a, host, st, Effects(v, m))
    ensures Has(a + [StoreTop], host, st, Effects(ButLast(v), host.store(m, Last(ButLast(v)), Last(v))))
  {
    TopTwo(st.stack, v, 0);
    HasThen(a, StoreTop, host, st, Effects(v, m), Effects(ButLast(v), host.store(m, Last(ButLast(v)), Last(v))));
  }

  lemma ReadBack(host: M.Host, m: M.Memory, a: Word, w: Word)
    requires M.Lawful(host)
    ensures host.load(host.store(m, a, w), a) == w
  {
  }

  /** Store, then load the stored value again. */
  lemma HasStored(a: seq<Instr>, host: M.Host, st: M.State, v: seq<Word>, m: M.Memory)
    requires |v| >= 2 && Has(a, host, st, Effects(v, m)) && M.Lawful(host)
    ensures Has(a + [StoreTop, Reload], host, st, Stored(v, host, m))
  {
    HasStore(a, host, st, v, m);
    ReadBack(host, m, Last(ButLast(v)), Last(v));
    HasReload(a + [StoreTop], host, st, ButLast(v), Stored(v, host, m).mem);
    assert (a + [StoreTop]) + [Reload] == a + [StoreTop, Reload];
  }

  lemma HasLoad(a: seq<Instr>, i: Instr, host: M.Host, st: M.State, v: seq<Word>, m: M.Memory, x: Word)
    requires |st.stack| + |v| < STACK_MAX && Has(a, host, st, Effects(v, m))
    requires i == Const(x) || (i.Fetch? && x == host.load(m, i.at))
    ensures Has(a + [i], host, st, Effects(v + [x], m))
  {
    assert (st.stack + v) + [x] == st.stack + (v + [x]);
    HasThen(a, i, host, st, Effects(v, m), Effects(v + [x], m));
  }

  /** The variable at at, one more or less, stored through the address on top. */
  lemma HasStep(a: seq<Instr>, op: BinOp, at: Word, host: M.Host, st: M.State, v: seq<Word>, m: M.Memory)
    requires v != [] && |st.stack| + |v| + 2 <= STACK_MAX && Has(a, host, st, Effects(v, m))
    ensures var w := host.alu(op, host.load(m, at), 1);
            Has(a + StepCode(op, at), host, st, Effects(v, host.store(m, Last(v), w)))
  {
    var x := host.load(m, at);
    var w := host.alu(op, x, 1);
    HasLoad(a, Fetch(at), host, st, v, m, x);
    HasLoad(a + [Fetch(at)], Const(1), host, st, v + [x], m, 1);
    HasCompute(a + [Fetch(at)] + [Const(1)], op, host, st, v + [x] + [1], m);
    assert Combined(op, v + [x] + [1], host) == v + [w];
    HasStore(a + [Fetch(at)] + [Const(1)] + [Compute(op)], host, st, v + [w], m);
    assert a + [Fetch(at)] + [Const(1)] + [Compute(op)] + [StoreTop] == a + StepCode(op, at);
    assert ButLast(v + [w]) == v;
  }

  /** The same behind the value on top. */
  lemma HasStepBehind(a: seq<Instr>, op: BinOp, at: Word, host: M.Host, st: M.State, v: seq<Word>, m: M.Memory)
    requires |st.stack| + |v| + 3 <= STACK_MAX && Has(a, host, st, Effects(v, m))
    ensures Has(a + StepBehindCode(op, at), host, st, Effects(v, host.store(m, at, host.alu(op, host.load(m, at), 1))))
  {
    HasLoad(a, Const(at), host, st, v, m, at);
    HasStep(a + [Const(at)], op, at, host, st, v + [at], m);
    HasDrop(a + [Const(at)] + StepCode(op, at), host, st, v, at, host.store(m, at, host.alu(op, host.load(m, at), 1)));
    Regrouped(a, Const(at), StepCode(op, at), Drop);
  }

  lemma HasDrop(a: seq<Instr>, host: M.Host, st: M.State, v: seq<Word>, x: Word, m: M.Memory)
    requires Has(a, host, st, Effects(v + [x], m))
    ensures Has(a + [Drop], host, st, Effects(v, m))
  {
    TopOne(st.stack, v + [x], 0);
    assert ButLast(v + [x]) == v;
    HasThen(a, Drop, host, st, Effects(v + [x], m), Effects(v, m));
  }

  lemma Regrouped(a: seq<Instr>, first: Instr, middle: seq<Instr>, last: Instr)
    ensures a + ([first] + middle + [last]) == (a + [first] + middle) + [last]
  {
  }

  lemma HasCall(a: seq<Instr>, k: nat, host: M.Host, st: M.State, v: seq<Word>, m: M.Memory)
    requires k <= 16 && |v| >= k + 1 && Has(a, host, st, Effects(v, m))
    ensures Has(a + [Invoke(k)], host, st, Called(v, k, host, m))
  {
    var n, s := |v| - 1 - k, st.stack + v;
    assert s[|s| - 1 - k] == v[n] && s[|s| - k..] == v[n + 1..];
    var r := host.call(v[n], v[n + 1..], m);
    assert s[..|s| - 1 - k] + [r.value] == st.stack + (v[..n] + [r.value]);
    HasThen(a, Invoke(k), host, st, Effects(v, m), Called(v, k, host, m));
  }

  /** Executing the code of any fed expression has exactly its effect, whatever is on the stack already. */
  lemma {:induction false} CodeHasEffect(e: Expr, mark: bool, host: M.Host, st: M.State)
    requires Formed(e) && Fed(e, mark)
    requires |st.stack| + Peak(e) <= STACK_MAX && M.Lawful(host)
    ensures Has(Emit(e, mark), host, st, Effect(e, mark, host, st.mem))
    decreases e, 1
  {
    match e
    case Literal(_, _) => LeafHasEffect(e, mark, host, st);
    case Name(_) => LeafHasEffect(e, mark, host, st);
    case Binary(_, _, _) => BinaryHasEffect(e, mark, host, st);
    case Negate(_) => NegateHasEffect(e, mark, host, st);
    case Complement(_) => UnaryHasEffect(e, mark, host, st);
    case Plus(_) => UnaryHasEffect(e, mark, host, st);
    case Set(_, _) => SetHasEffect(e, mark, host, st);
    case PreStep(_, _) => PreStepHasEffect(e, mark, host, st);
    case PostStep(_, _) => PostStepHasEffect(e, mark, host, st);
    case Deref(_) => UnaryHasEffect(e, mark, host, st);
    case AddrOf(_) => UnaryHasEffect(e, mark, host, st);
    case Call(_, _) => CallHasEffect(e, mark, host, st);
  }

  lemma {:induction false} LeafHasEffect(e: Expr, mark: bool, host: M.Host, st: M.State)
    requires Formed(e) && Fed(e, mark) && (e.Literal? || e.Name?)
    requires |st.stack| + Peak(e) <= STACK_MAX && M.Lawful(host)
    ensures Has(Emit(e, mark), host, st, Effect(e, mark, host, st.mem))
    decreases e, 0
  {
    assert st.stack + [] == st.stack;
    if e.Name? && !Loads(e.symbol.id) {
      return;
    }
    var x := Effect(e, mark, host, st.mem).values[0];
    HasLoad([], Emit(e, mark)[0], host, st, [], st.mem, x);
    assert [] + Emit(e, mark) == Emit(e, mark);
    assert [] + [x] == [x];
  }

  lemma {:induction false} BinaryHasEffect(e: Expr, mark: bool, host: M.Host, st: M.State)
    requires Formed(e) && Fed(e, mark) && e.Binary?
    requires |st.stack| + Peak(e) <= STACK_MAX && M.Lawful(host)
    ensures Has(Emit(e, mark), host, st, Effect(e, mark, host, st.mem))
    decreases e, 0
  {
    var l := Effect(e.left, mark, host, st.mem);
    var r := Effect(e.right, false, host, l.mem);
    var code := Emit(e.left, mark) + Emit(e.right, false);
    assert Has(code, host, st, Effects(l.values + r.values, r.mem)) by {
      CodeHasEffect(e.left, mark, host, st);
      CodeHasEffect(e.right, false, host, After(st, l));
      HasPair(Emit(e.left, mark), Emit(e.right, false), host, st, l, r);
    }
    if Typing(e.left).DWord? {
      HasCompute(code, e.op, host, st, l.values + r.values, r.mem);
    } else {
      assert code + [] == code;
    }
  }

  lemma {:induction false} NegateHasEffect(e: Expr, mark: bool, host: M.Host, st: M.State)
    requires Formed(e) && Fed(e, mark) && e.Negate?
    requires |st.stack| + Peak(e) <= STACK_MAX && M.Lawful(host)
    ensures Has(Emit(e, mark), host, st, Effect(e, mark, host, st.mem))
    decreases e, 0
  {
    var l, r := Effects([0], st.mem), Effect(e.arg, false, host, st.mem);
    var code := [Const(0)] + Emit(e.arg, false);
    assert Has(code, host, st, Effects([0] + r.values, r.mem)) by {
      LeafHasEffect(Literal(ValueLong, 0), false, host, st);
      CodeHasEffect(e.arg, false, host, After(st, l));
      HasPair([Const(0)], Emit(e.arg, false), host, st, l, r);
    }
    HasCompute(code, Sub, host, st, [0] + r.values, r.mem);
  }

  lemma {:induction false} UnaryHasEffect(e: Expr, mark: bool, host: M.Host, st: M.State)
    requires Formed(e) && Fed(e, mark) && (e.Complement? || e.Plus? || e.Deref? || e.AddrOf?)
    requires |st.stack| + Peak(e) <= STACK_MAX && M.Lawful(host)
    ensures Has(Emit(e, mark), host, st, Effect(e, mark, host, st.mem))
    decreases e, 0
  {
    var below := if e.Deref? then false else if e.AddrOf? then true else mark;
    var code, r := Emit(e.arg, below), Effect(e.arg, below, host, st.mem);
    CodeHasEffect(e.arg, below, host, st);
    assert code + [] == code;
    if e.Complement? && Typing(e.arg).DWord? {
      HasFlip(code, host, st, r.values, r.mem);
    } else if e.Deref? && !mark && Typing(e.arg).DWord? {
      HasReload(code, host, st, r.values, r.mem);
    }
  }

  lemma {:induction false} SetHasEffect(e: Expr, mark: bool, host: M.Host, st: M.State)
    requires Formed(e) && Fed(e, mark) && e.Set?
    requires |st.stack| + Peak(e) <= STACK_MAX && M.Lawful(host)
    ensures Has(Emit(e, mark), host, st, Effect(e, mark, host, st.mem))
    decreases e, 0
  {
    var a := Effect(e.target, true, host, st.mem);
    var r := Effect(e.source, false, host, a.mem);
    var code := Emit(e.target, true) + Emit(e.source, false);
    assert Has(code, host, st, Effects(a.values + r.values, r.mem)) by {
      CodeHasEffect(e.target, true, host, st);
      CodeHasEffect(e.source, false, host, After(st, a));
      HasPair(Emit(e.target, true), Emit(e.source, false), host, st, a, r);
    }
    if StoresInto(e.target) {
      HasStored(code, host, st, a.values + r.values, r.mem);
    } else {
      assert code + [] == code;
    }
  }

  lemma {:induction false} PreStepHasEffect(e: Expr, mark: bool, host: M.Host, st: M.State)
    requires Formed(e) && Fed(e, mark) && e.PreStep?
    requires |st.stack| + Peak(e) <= STACK_MAX && M.Lawful(host)
    ensures Has(Emit(e, mark), host, st, Effect(e, mark, host, st.mem))
    decreases e, 0
  {
    var code, r := Emit(e.arg, true), Effect(e.arg, true, host, st.mem);
    CodeHasEffect(e.arg, true, host, st);
    if Steps(e.arg) {
      var at, v := Bare(e.arg).symbol.at, r.values;
      var w := host.alu(StepOp(e.up), host.load(r.mem, at), 1);
      HasStep(code, StepOp(e.up), at, host, st, v, r.mem);
      ReadBack(host, r.mem, Last(v), w);
      HasReload(code + StepCode(StepOp(e.up), at), host, st, v, host.store(r.mem, Last(v), w));
      assert code + (StepCode(StepOp(e.up), at) + [Reload]) == (code + StepCode(StepOp(e.up), at)) + [Reload];
      assert ButLast(v + [w]) == v;
    } else {
      assert code + [] == code;
    }
  }

  lemma {:induction false} PostStepHasEffect(e: Expr, mark: bool, host: M.Host, st: M.State)
    requires Formed(e) && Fed(e, mark) && e.PostStep?
    requires |st.stack| + Peak(e) <= STACK_MAX && M.Lawful(host)
    ensures Has(Emit(e, mark), host, st, Effect(e, mark, host, st.mem))
    decreases e, 0
  {
    var code, r := Emit(e.arg, mark), Effect(e.arg, mark, host, st.mem);
    CodeHasEffect(e.arg, mark, host, st);
    if Steps(e.arg) {
      var at, v := Bare(e.arg).symbol.at, r.values;
      HasStepBehind(code, StepOp(e.up), at, host, st, v, r.mem);
    } else {
      assert code + [] == code;
    }
  }

  lemma {:induction false} CallHasEffect(e: Expr, mark: bool, host: M.Host, st: M.State)
    requires Formed(e) && Fed(e, mark) && e.Call?
    requires |st.stack| + Peak(e) <= STACK_MAX && M.Lawful(host)
    ensures Has(Emit(e, mark), host, st, Effect(e, mark, host, st.mem))
    decreases e, 0
  {
    var f := Effect(e.fn, mark, host, st.mem);
    var a := EffectAll(e.args, host, f.mem);
    var code := Emit(e.fn, mark) + EmitAll(e.args);
    assert Has(code, host, st, Effects(f.values + a.values, a.mem)) by {
      CodeHasEffect(e.fn, mark, host, st);
      ArgsHaveEffect(e.args, host, After(st, f));
      HasPair(Emit(e.fn, mark), EmitAll(e.args), host, st, f, a);
    }
    HasCall(code, Count(e.args), host, st, f.values + a.values, a.mem);
  }

  lemma {:induction false} ArgsHaveEffect(args: Args, host: M.Host, st: M.State)
    requires AllFormed(args) && AllFed(args)
    requires |st.stack| + PeakAll(args) <= STACK_MAX && M.Lawful(host)
    ensures Has(EmitAll(args), host, st, EffectAll(args, host, st.mem))
    decreases args, 1
  {
    match args
    case NoArgs =>
      assert st.stack + [] == st.stack;
    case Arg(first, rest) =>
      var a := Effect(first, false, host, st.mem);
      CodeHasEffect(first, false, host, st);
      ArgsHaveEffect(rest, host, After(st, a));
      HasPair(Emit(first, false), EmitAll(rest), host, st, a, EffectAll(rest, host, a.mem));
  }
}
