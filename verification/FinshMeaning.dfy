/**
  What a finsh expression means, and the proof that compiling and running it computes that: for a
  typed expression exactly its value is pushed and the memory is the one its evaluation leaves.
 */
module FinshMeaning {
  import opened Kernel
  import opened FinshTree
  import opened FinshCode
  import opened FinshEffect
  import A = FinshArm
  import M = FinshMachine

  /** What has an address: a name, or a dereference. */
  predicate HasAddress(e: Expr) {
    Bare(e).Name? || Bare(e).Deref?
  }

  /** What can be assigned to: not a function. */
  predicate IsStorage(e: Expr) {
    HasAddress(e) && (Bare(e).Name? ==> !Bare(e).symbol.id.SysCall?)
  }

  predicate IsVariable(e: Expr) {
    Bare(e).Name? && Bare(e).symbol.id.Var?
  }

  /** The expression means something: assignments, & and the steps have below them what they need. */
  predicate Placed(e: Expr) {
    match e
    case Literal(_, _) => true
    case Name(_) => true
    case Binary(_, left, right) => Placed(left) && Placed(right)
    case Negate(x) => Placed(x)
    case Complement(x) => Placed(x)
    case Plus(x) => Placed(x)
    case Set(target, source) => Placed(target) && Placed(source) && IsStorage(target)
    case PreStep(_, x) => Placed(x) && IsVariable(x)
    case PostStep(_, x) => Placed(x) && IsVariable(x)
    case Deref(x) => Placed(x)
    case AddrOf(x) => Placed(x) && HasAddress(x)
    case Call(fn, args) => Placed(fn) && AllPlaced(args)
  }

  predicate AllPlaced(args: Args) {
    match args
    case NoArgs => true
    case Arg(first, rest) => Placed(first) && AllPlaced(rest)
  }

  predicate Meant(e: Expr) {
    Formed(e) && Placed(e)
  }

  predicate AllMeant(args: Args) {
    AllFormed(args) && AllPlaced(args)
  }

  /**
    Every name is loaded, and every operand that decides the width of an operator is a double word. A
    dereference whose address is asked for loads nothing, so it needs no width.
   */
  predicate Wide(e: Expr, mark: bool) {
    match e
    case Literal(_, _) => true
    case Name(symbol) => Loads(symbol.id)
    case Binary(_, left, right) => Wide(left, false) && Wide(right, false) && Typing(left).DWord?
    case Negate(x) => Wide(x, false)
    case Complement(x) => Wide(x, false) && Typing(x).DWord?
    case Plus(x) => Wide(x, mark)
    case Set(target, source) => Wide(target, true) && Wide(source, false) && Typing(target).DWord?
    case PreStep(_, x) => Wide(x, true)
    case PostStep(_, x) => Wide(x, false)
    case Deref(x) => Wide(x, false) && (mark || Typing(x).DWord?)
    case AddrOf(x) => Wide(x, true)
    case Call(fn, args) => Wide(fn, false) && AllWide(args)
  }

  predicate AllWide(args: Args) {
    match args
    case NoArgs => true
    case Arg(first, rest) => Wide(first, false) && AllWide(rest)
  }

  predicate Typed(e: Expr) {
    Meant(e) && Wide(e, false)
  }

  predicate AllTyped(args: Args) {
    AllMeant(args) && AllWide(args)
  }

  datatype Replies = Replies(values: seq<Word>, mem: M.Memory)

  /** Direct evaluation, operands from left to right. */
  function Eval(e: Expr, host: M.Host, m: M.Memory): M.Reply
    requires Meant(e)
    decreases e, 1
  {
    match e
    case Literal(_, value) => M.Reply(value, m)
    case Name(symbol) => M.Reply(if symbol.id.SysCall? then symbol.at else host.load(m, symbol.at), m)
    case Binary(op, left, right) =>
      var l := Eval(left, host, m);
      var r := Eval(right, host, l.mem);
      M.Reply(host.alu(op, l.value, r.value), r.mem)
    case Negate(x) =>
      var r := Eval(x, host, m);
      M.Reply(host.alu(Sub, 0, r.value), r.mem)
    case Complement(x) =>
      var r := Eval(x, host, m);
      M.Reply(M.Invert(r.value), r.mem)
    case Plus(x) => Eval(x, host, m)
    case Set(target, source) =>
      var a := Address(target, host, m);
      var r := Eval(source, host, a.mem);
      M.Reply(r.value, host.store(r.mem, a.value, r.value))
    case PreStep(up, x) =>
      var at := Bare(x).symbol.at;
      var v := host.alu(StepOp(up), host.load(m, at), 1);
      M.Reply(v, host.store(m, at, v))
    case PostStep(up, x) =>
      var at := Bare(x).symbol.at;
      M.Reply(host.load(m, at), host.store(m, at, host.alu(StepOp(up), host.load(m, at), 1)))
    case Deref(x) =>
      var r := Eval(x, host, m);
      M.Reply(host.load(r.mem, r.value), r.mem)
    case AddrOf(x) => Address(x, host, m)
    case Call(fn, args) =>
      var f := Eval(fn, host, m);
      var a := EvalAll(args, host, f.mem);
      host.call(f.value, a.values, a.mem)
  }

  /** Where e lives. */
  function Address(e: Expr, host: M.Host, m: M.Memory): M.Reply
    requires Meant(e) && HasAddress(e)
    decreases e, 0
  {
    match e
    case Name(symbol) => M.Reply(symbol.at, m)
    case Deref(x) => Eval(x, host, m)
    case Plus(x) => Address(x, host, m)
  }

  function EvalAll(args: Args, host: M.Host, m: M.Memory): (r: Replies)
    requires AllMeant(args)
    ensures |r.values| == Count(args)
  {
    match args
    case NoArgs => Replies([], m)
    case Arg(first, rest) =>
      var a := Eval(first, host, m);
      var r := EvalAll(rest, host, a.mem);
      Replies([a.value] + r.values, r.mem)
  }

  /** What the one-operand operators stand for. */
  lemma SignsEvaluate(x: Expr, host: M.Host, m: M.Memory)
    requires Meant(x)
    ensures var r := Eval(x, host, m);
            && Eval(Plus(x), host, m) == r
            && Eval(Negate(x), host, m) == M.Reply(host.alu(Sub, 0, r.value), r.mem)
  {
  }

  lemma BitsAndLoadsEvaluate(x: Expr, host: M.Host, m: M.Memory)
    requires Meant(x)
    ensures var r := Eval(x, host, m);
            && Eval(Complement(x), host, m) == M.Reply(0xFFFF_FFFF - r.value, r.mem)
            && Eval(Deref(x), host, m) == M.Reply(host.load(r.mem, r.value), r.mem)
  {
  }

  lemma StepsEvaluate(v: Symbol, up: bool, host: M.Host, m: M.Memory)
    requires v.id.Var?
    ensures Meant(PreStep(up, Name(v))) && Meant(PostStep(up, Name(v))) && Meant(AddrOf(Name(v)))
    ensures var (old_value, new_value) := (host.load(m, v.at), host.alu(if up then Add else Sub, host.load(m, v.at), 1));
            && Eval(PreStep(up, Name(v)), host, m) == M.Reply(new_value, host.store(m, v.at, new_value))
            && Eval(PostStep(up, Name(v)), host, m) == M.Reply(old_value, host.store(m, v.at, new_value))
            && Eval(AddrOf(Name(v)), host, m) == M.Reply(v.at, m)
  {
    assert Formed(Name(v)) && Placed(Name(v));
  }

  function Denotes(e: Expr, mark: bool, host: M.Host, m: M.Memory): M.Reply
    requires Meant(e)
    requires mark ==> HasAddress(e)
  {
    if mark then Address(e, host, m) else Eval(e, host, m)
  }

  /** The code of e has e's meaning: it takes nothing from the stack and pushes exactly the value. */
  ghost predicate Means(e: Expr, mark: bool, host: M.Host, m: M.Memory)
    requires Meant(e)
    requires mark ==> HasAddress(e)
  {
    var r := Denotes(e, mark, host, m);
    Fed(e, mark) && Effect(e, mark, host, m) == Effects([r.value], r.mem)
  }

  /** And so has the code of every part of e, where evaluation gets to it. */
  ghost predicate PartsMean(e: Expr, mark: bool, host: M.Host, m: M.Memory)
    requires Meant(e)
    requires mark ==> HasAddress(e)
    decreases e
  {
    Means(e, mark, host, m) &&
    match e
    case Literal(_, _) => true
    case Name(_) => true
    case Binary(_, left, right) => PartsMean(left, false, host, m) && PartsMean(right, false, host, Eval(left, host, m).mem)
    case Negate(x) => PartsMean(x, false, host, m)
    case Complement(x) => PartsMean(x, false, host, m)
    case Plus(x) => PartsMean(x, mark, host, m)
    case Set(target, source) => PartsMean(target, true, host, m) && PartsMean(source, false, host, Address(target, host, m).mem)
    case PreStep(_, x) => PartsMean(x, true, host, m)
    case PostStep(_, x) => PartsMean(x, false, host, m)
    case Deref(x) => PartsMean(x, false, host, m)
    case AddrOf(x) => PartsMean(x, true, host, m)
    case Call(fn, args) => PartsMean(fn, false, host, m) && ArgsMean(args, host, Eval(fn, host, m).mem)
  }

  ghost predicate ArgsMean(args: Args, host: M.Host, m: M.Memory)
    requires AllMeant(args)
    decreases args
  {
    args.Arg? ==> PartsMean(args.first, false, host, m) && ArgsMean(args.rest, host, Eval(args.first, host, m).mem)
  }

  /** Wide, but for dereferences that happen to load their own address. */
  ghost predicate WideAt(e: Expr, mark: bool, host: M.Host, m: M.Memory)
    requires Meant(e)
    requires mark ==> HasAddress(e)
    decreases e
  {
    match e
    case Literal(_, _) => true
    case Name(symbol) => Loads(symbol.id)
    case Binary(_, left, right) =>
      WideAt(left, false, host, m) && WideAt(right, false, host, Eval(left, host, m).mem) && Typing(left).DWord?
    case Negate(x) => WideAt(x, false, host, m)
    case Complement(x) => WideAt(x, false, host, m) && Typing(x).DWord?
    case Plus(x) => WideAt(x, mark, host, m)
    case Set(target, source) =>
      WideAt(target, true, host, m) && WideAt(source, false, host, Address(target, host, m).mem) && Typing(target).DWord?
    case PreStep(_, x) => WideAt(x, true, host, m)
    case PostStep(_, x) => WideAt(x, false, host, m)
    case Deref(x) =>
      var r := Eval(x, host, m);
      WideAt(x, false, host, m) && (mark || Typing(x).DWord? || host.load(r.mem, r.value) == r.value)
    case AddrOf(x) => WideAt(x, true, host, m)
    case Call(fn, args) => WideAt(fn, false, host, m) && ArgsWideAt(args, host, Eval(fn, host, m).mem)
  }

  ghost predicate ArgsWideAt(args: Args, host: M.Host, m: M.Memory)
    requires AllMeant(args)
    decreases args
  {
    args.Arg? ==> WideAt(args.first, false, host, m) && ArgsWideAt(args.rest, host, Eval(args.first, host, m).mem)
  }

  lemma {:induction false} VariableMeaning(e: Expr, mark: bool, host: M.Host, m: M.Memory)
    requires Meant(e) && IsVariable(e)
    requires WideAt(e, mark, host, m)
    ensures Steps(e) && Fed(e, mark) && Rise(e) == 1
    ensures Effect(e, mark, host, m) == Effects([if mark then Bare(e).symbol.at else host.load(m, Bare(e).symbol.at)], m)
  {
    if e.Plus? {
      VariableMeaning(e.arg, mark, host, m);
    }
  }

  /**
    On any host and memory, the code of every part means what the part means exactly when every width
    that matters is there; the only way out is a dereference that loads its own address.
   */
  lemma {:induction false} PartsMeanExactly(e: Expr, mark: bool, host: M.Host, m: M.Memory)
    requires Meant(e)
    requires mark ==> HasAddress(e)
    ensures PartsMean(e, mark, host, m) <==> WideAt(e, mark, host, m)
    decreases e, 1
  {
    match e
    case Literal(_, _) =>
    case Name(_) =>
    case Binary(_, _, _) => BinaryMeansExactly(e, host, m);
    case Negate(_) => UnaryMeansExactly(e, mark, host, m);
    case Complement(_) => UnaryMeansExactly(e, mark, host, m);
    case Plus(_) => UnaryMeansExactly(e, mark, host, m);
    case Set(_, _) => SetMeansExactly(e, host, m);
    case PreStep(_, _) => StepMeansExactly(e, host, m);
    case PostStep(_, _) => StepMeansExactly(e, host, m);
    case Deref(_) => UnaryMeansExactly(e, mark, host, m);
    case AddrOf(_) => UnaryMeansExactly(e, mark, host, m);
    case Call(_, _) => CallMeansExactly(e, host, m);
  }

  lemma {:induction false} StepMeansExactly(e: Expr, host: M.Host, m: M.Memory)
    requires Meant(e) && (e.PreStep? || e.PostStep?)
    ensures PartsMean(e, false, host, m) <==> WideAt(e, false, host, m)
    decreases e, 0
  {
    PartsMeanExactly(e.arg, e.PreStep?, host, m);
    if WideAt(e.arg, e.PreStep?, host, m) {
      VariableMeaning(e.arg, e.PreStep?, host, m);
    }
  }

  lemma {:induction false} BinaryMeansExactly(e: Expr, host: M.Host, m: M.Memory)
    requires Meant(e) && e.Binary?
    ensures PartsMean(e, false, host, m) <==> WideAt(e, false, host, m)
    decreases e, 0
  {
    var l := Eval(e.left, host, m);
    PartsMeanExactly(e.left, false, host, m);
    PartsMeanExactly(e.right, false, host, l.mem);
    if PartsMean(e.left, false, host, m) && PartsMean(e.right, false, host, l.mem) {
      BinaryMeans(e, host, m);
    }
  }

  /** An operator over operands that mean themselves is compiled exactly when its left operand has a width. */
  lemma BinaryMeans(e: Expr, host: M.Host, m: M.Memory)
    requires Meant(e) && e.Binary?
    requires Means(e.left, false, host, m) && Means(e.right, false, host, Eval(e.left, host, m).mem)
    ensures Means(e, false, host, m) <==> Typing(e.left).DWord?
  {
    var l := Eval(e.left, host, m);
    var r := Eval(e.right, host, l.mem);
    assert [l.value] + [r.value] == [l.value, r.value];
  }

  lemma {:induction false} SetMeansExactly(e: Expr, host: M.Host, m: M.Memory)
    requires Meant(e) && e.Set?
    ensures PartsMean(e, false, host, m) <==> WideAt(e, false, host, m)
    decreases e, 0
  {
    var a := Address(e.target, host, m);
    PartsMeanExactly(e.target, true, host, m);
    PartsMeanExactly(e.source, false, host, a.mem);
    if PartsMean(e.target, true, host, m) && PartsMean(e.source, false, host, a.mem) {
      SetMeans(e, host, m);
    }
  }

  /** So is an assignment, if its target has a width. */
  lemma SetMeans(e: Expr, host: M.Host, m: M.Memory)
    requires Meant(e) && e.Set?
    requires Means(e.target, true, host, m) && Means(e.source, false, host, Address(e.target, host, m).mem)
    ensures Means(e, false, host, m) <==> Typing(e.target).DWord?
  {
    var a := Address(e.target, host, m);
    var r := Eval(e.source, host, a.mem);
    assert [a.value] + [r.value] == [a.value, r.value];
  }

  lemma {:induction false} UnaryMeansExactly(e: Expr, mark: bool, host: M.Host, m: M.Memory)
    requires Meant(e) && (e.Negate? || e.Complement? || e.Plus? || e.Deref? || e.AddrOf?)
    requires mark ==> HasAddress(e)
    ensures PartsMean(e, mark, host, m) <==> WideAt(e, mark, host, m)
    decreases e, 0
  {
    var below := e.AddrOf? || (e.Plus? && mark);
    PartsMeanExactly(e.arg, below, host, m);
    if PartsMean(e.arg, below, host, m) {
      if e.Complement? {
        ComplementMeans(e, host, m);
      } else if e.Deref? {
        DerefMeans(e, mark, host, m);
      } else {
        UnaryMeans(e, mark, host, m);
      }
    }
  }

  /** ~ over an operand without width is dropped, and then does not mean itself. */
  lemma ComplementMeans(e: Expr, host: M.Host, m: M.Memory)
    requires Meant(e) && e.Complement?
    requires Means(e.arg, false, host, m)
    ensures Means(e, false, host, m) <==> Typing(e.arg).DWord?
  {
    var x := Eval(e.arg, host, m).value;
    assert Topped([x], M.Invert(x)) == [M.Invert(x)];
    assert [M.Invert(x)][0] != [x][0];
  }

  /** So is *, which then means itself only if it loads its own address. */
  lemma DerefMeans(e: Expr, mark: bool, host: M.Host, m: M.Memory)
    requires Meant(e) && e.Deref?
    requires Means(e.arg, false, host, m)
    ensures var r := Eval(e.arg, host, m);
            Means(e, mark, host, m) <==> mark || Typing(e.arg).DWord? || host.load(r.mem, r.value) == r.value
  {
    var r := Eval(e.arg, host, m);
    var x := host.load(r.mem, r.value);
    assert Topped([r.value], x) == [x];
    assert [x] == [r.value] <==> x == r.value;
  }

  /** The others are always compiled. */
  lemma UnaryMeans(e: Expr, mark: bool, host: M.Host, m: M.Memory)
    requires Meant(e) && (e.Negate? || e.Plus? || e.AddrOf?)
    requires mark ==> HasAddress(e)
    requires Means(e.arg, e.AddrOf? || (e.Plus? && mark), host, m)
    ensures Means(e, mark, host, m)
  {
    if e.Negate? {
      var x := Eval(e.arg, host, m).value;
      assert [0] + [x] == [0, x];
    }
  }

  lemma {:induction false} CallMeansExactly(e: Expr, host: M.Host, m: M.Memory)
    requires Meant(e) && e.Call?
    ensures PartsMean(e, false, host, m) <==> WideAt(e, false, host, m)
    decreases e, 0
  {
    var f := Eval(e.fn, host, m);
    PartsMeanExactly(e.fn, false, host, m);
    ArgsMeanExactly(e.args, host, f.mem);
    if PartsMean(e.fn, false, host, m) && ArgsMean(e.args, host, f.mem) {
      var v := EvalAll(e.args, host, f.mem).values;
      assert ([f.value] + v)[1..] == v;
    }
  }

  lemma {:induction false} ArgsMeanExactly(args: Args, host: M.Host, m: M.Memory)
    requires AllMeant(args)
    ensures ArgsMean(args, host, m) <==> ArgsWideAt(args, host, m)
    ensures ArgsMean(args, host, m) ==>
            var r := EvalAll(args, host, m);
            AllFed(args) && EffectAll(args, host, m) == Effects(r.values, r.mem)
    decreases args, 1
  {
    if args.Arg? {
      PartsMeanExactly(args.first, false, host, m);
      ArgsMeanExactly(args.rest, host, Eval(args.first, host, m).mem);
    }
  }

  lemma {:induction false} WideIsWideAt(e: Expr, mark: bool, host: M.Host, m: M.Memory)
    requires Meant(e) && Wide(e, mark)
    requires mark ==> HasAddress(e)
    ensures WideAt(e, mark, host, m)
    decreases e
  {
    match e
    case Literal(_, _) =>
    case Name(_) =>
    case Binary(_, left, right) =>
      WideIsWideAt(left, false, host, m);
      WideIsWideAt(right, false, host, Eval(left, host, m).mem);
    case Negate(x) => WideIsWideAt(x, false, host, m);
    case Complement(x) => WideIsWideAt(x, false, host, m);
    case Plus(x) => WideIsWideAt(x, mark, host, m);
    case Set(target, source) =>
      WideIsWideAt(target, true, host, m);
      WideIsWideAt(source, false, host, Address(target, host, m).mem);
    case PreStep(_, x) => WideIsWideAt(x, true, host, m);
    case PostStep(_, x) => WideIsWideAt(x, false, host, m);
    case Deref(x) => WideIsWideAt(x, false, host, m);
    case AddrOf(x) => WideIsWideAt(x, true, host, m);
    case Call(fn, args) =>
      WideIsWideAt(fn, false, host, m);
      ArgsWide(args, host, Eval(fn, host, m).mem);
  }

  lemma {:induction false} ArgsWide(args: Args, host: M.Host, m: M.Memory)
    requires AllMeant(args) && AllWide(args)
    ensures ArgsWideAt(args, host, m)
    decreases args
  {
    if args.Arg? {
      WideIsWideAt(args.first, false, host, m);
      ArgsWide(args.rest, host, Eval(args.first, host, m).mem);
    }
  }

  /** Nothing loads its own address. */
  ghost predicate Contrary(host: M.Host, m: M.Memory) {
    forall a: Word :: host.load(m, a) != a
  }

  /** Calls on the host leave its memory alone, and its stores do where there are any. */
  ghost predicate Still(host: M.Host, storeless: bool) {
    (forall f: Word, args: seq<Word>, m: M.Memory :: host.call(f, args, m).mem == m) &&
    (storeless || forall m: M.Memory, a: Word, w: Word :: host.store(m, a, w) == m)
  }

  /** No assignment and no step in e. */
  predicate Storeless(e: Expr) {
    match e
    case Literal(_, _) => true
    case Name(_) => true
    case Binary(_, left, right) => Storeless(left) && Storeless(right)
    case Negate(x) => Storeless(x)
    case Complement(x) => Storeless(x)
    case Plus(x) => Storeless(x)
    case Set(_, _) => false
    case PreStep(_, _) => false
    case PostStep(_, _) => false
    case Deref(x) => Storeless(x)
    case AddrOf(x) => Storeless(x)
    case Call(fn, args) => Storeless(fn) && AllStoreless(args)
  }

  predicate AllStoreless(args: Args) {
    match args
    case NoArgs => true
    case Arg(first, rest) => Storeless(first) && AllStoreless(rest)
  }

  lemma {:induction false} StillLeaves(e: Expr, mark: bool, host: M.Host, m: M.Memory)
    requires Meant(e) && Still(host, Storeless(e))
    requires mark ==> HasAddress(e)
    ensures Denotes(e, mark, host, m).mem == m
    decreases e
  {
    match e
    case Literal(_, _) =>
    case Name(_) =>
    case Binary(_, left, right) => StillLeaves(left, false, host, m); StillLeaves(right, false, host, m);
    case Negate(x) => StillLeaves(x, false, host, m);
    case Complement(x) => StillLeaves(x, false, host, m);
    case Plus(x) => StillLeaves(x, mark, host, m);
    case Set(target, source) => StillLeaves(target, true, host, m); StillLeaves(source, false, host, m);
    case PreStep(_, _) =>
    case PostStep(_, _) =>
    case Deref(x) => StillLeaves(x, false, host, m);
    case AddrOf(x) => StillLeaves(x, true, host, m);
    case Call(fn, args) => StillLeaves(fn, false, host, m); StillLeavesAll(args, host, m);
  }

  lemma {:induction false} StillLeavesAll(args: Args, host: M.Host, m: M.Memory)
    requires AllMeant(args) && Still(host, AllStoreless(args))
    ensures EvalAll(args, host, m).mem == m
    decreases args
  {
    if args.Arg? {
      StillLeaves(args.first, false, host, m);
      StillLeavesAll(args.rest, host, m);
    }
  }

  /** Where nothing loads its own address, and nothing makes it, only a wide expression passes for one. */
  lemma {:induction false} WideAtContrary(e: Expr, mark: bool, host: M.Host, m: M.Memory)
    requires Meant(e) && Still(host, Storeless(e)) && Contrary(host, m)
    requires mark ==> HasAddress(e)
    requires WideAt(e, mark, host, m)
    ensures Wide(e, mark)
    decreases e
  {
    match e
    case Literal(_, _) =>
    case Name(_) =>
    case Binary(_, left, right) =>
      StillLeaves(left, false, host, m);
      WideAtContrary(left, false, host, m);
      WideAtContrary(right, false, host, m);
    case Negate(x) => WideAtContrary(x, false, host, m);
    case Complement(x) => WideAtContrary(x, false, host, m);
    case Plus(x) => WideAtContrary(x, mark, host, m);
    case Set(target, source) =>
      StillLeaves(target, true, host, m);
      WideAtContrary(target, true, host, m);
      WideAtContrary(source, false, host, m);
    case PreStep(_, x) => WideAtContrary(x, true, host, m);
    case PostStep(_, x) => WideAtContrary(x, false, host, m);
    case Deref(x) =>
      StillLeaves(x, false, host, m);
      WideAtContrary(x, false, host, m);
    case AddrOf(x) => WideAtContrary(x, true, host, m);
    case Call(fn, args) =>
      StillLeaves(fn, false, host, m);
      WideAtContrary(fn, false, host, m);
      ArgsWideContrary(args, host, m);
  }

  lemma {:induction false} ArgsWideContrary(args: Args, host: M.Host, m: M.Memory)
    requires AllMeant(args) && Still(host, AllStoreless(args)) && Contrary(host, m)
    requires ArgsWideAt(args, host, m)
    ensures AllWide(args)
    decreases args
  {
    if args.Arg? {
      StillLeaves(args.first, false, host, m);
      WideAtContrary(args.first, false, host, m);
      ArgsWideContrary(args.rest, host, m);
    }
  }

  /** Code and meaning of all parts agree on every host and memory exactly when the expression is typed. */
  lemma TypedExactlyWhenPartsMean(e: Expr)
    requires Meant(e)
    ensures Typed(e) <==> forall host: M.Host, m: M.Memory :: PartsMean(e, false, host, m)
  {
    if Typed(e) {
      forall host: M.Host, m: M.Memory
        ensures PartsMean(e, false, host, m)
      {
        WideIsWideAt(e, false, host, m);
        PartsMeanExactly(e, false, host, m);
      }
    } else {
      var host := M.Host((op, x, y) => x, (f, args, m) => M.Reply(f, m), (m, a) => M.Invert(a), (m, a, w) => m);
      UntypedFails(e, host, map[]);
    }
  }

  lemma UntypedFails(e: Expr, host: M.Host, m: M.Memory)
    requires Meant(e) && !Typed(e) && Still(host, Storeless(e)) && Contrary(host, m)
    ensures !PartsMean(e, false, host, m)
  {
    PartsMeanExactly(e, false, host, m);
    if WideAt(e, false, host, m) {
      WideAtContrary(e, false, host, m);
    }
  }

  /** A memory in which no word of the ARM holds its own address. */
  lemma ArmIsContrary(call: (Word, seq<Word>, M.Memory) -> M.Reply)
    ensures Contrary(A.Arm(call), map[0 := 1])
  {
    forall a: Word
      ensures A.Arm(call).load(map[0 := 1], a) != a
    {
      var m: M.Memory := map[0 := 1];
      assert A.Load(m, a) == (if a == 0 then 1 else if a == 0xFFFF_FFFF then 0x100
        else if a == 0xFFFF_FFFE then 0x1_0000 else if a == 0xFFFF_FFFD then 0x100_0000 else 0);
    }
  }

  /**
    An expression that stores nothing is typed exactly when code and meaning of its parts agree on the lawful
    hosts: if it is not, they differ on the ARM already, with functions that do nothing.
   */
  lemma TypedExactlyOnLawfulHosts(e: Expr)
    requires Meant(e) && Storeless(e)
    ensures Typed(e) <==> forall host: M.Host, m: M.Memory :: M.Lawful(host) ==> PartsMean(e, false, host, m)
  {
    if Typed(e) {
      TypedExactlyWhenPartsMean(e);
    } else {
      var call := (f: Word, args: seq<Word>, m: M.Memory) => M.Reply(f, m);
      A.ArmIsLawful(call);
      ArmIsContrary(call);
      UntypedFails(e, A.Arm(call), map[0 := 1]);
      assert M.Lawful(A.Arm(call)) && !PartsMean(e, false, A.Arm(call), map[0 := 1]);
    }
  }

  /** (*a = a) + *f with the function f at a: not typed, and right on every lawful host since *f has just been put to f. */
  function StoredAtFunction(a: Word): Expr {
    Binary(Add, Set(Deref(Literal(ValueInt, a)), Literal(ValueInt, a)), Deref(Name(Symbol(SysCall, a))))
  }

  /** So with stores an untyped expression may be right on all lawful hosts. */
  lemma StoreHidesMissingWidth(a: Word, host: M.Host, m: M.Memory)
    requires M.Lawful(host)
    ensures var e := StoredAtFunction(a); Meant(e) && !Typed(e) && PartsMean(e, false, host, m)
  {
    var e := StoredAtFunction(a);
    var put, get := e.left, e.right;
    assert Meant(put.target) && Meant(put.source) && Meant(get.arg);
    assert Meant(put) && Meant(get) && HasAddress(put.target);
    assert Typing(get.arg).Void? && !Wide(get, false);
    assert Address(put.target, host, m) == M.Reply(a, m);
    assert Typing(put.target.arg).DWord?;
    assert Typing(put.target).DWord? && Typing(put).DWord? && WideAt(put.source, false, host, m);
    assert Eval(put, host, m) == M.Reply(a, host.store(m, a, a));
    ReadBack(host, m, a, a);
    assert WideAt(put, false, host, m) && WideAt(get, false, host, host.store(m, a, a));
    PartsMeanExactly(e, false, host, m);
  }

  /** A typed expression's code has one effect: it pushes the meaning. */
  lemma EffectIsMeaning(e: Expr, host: M.Host, m: M.Memory)
    requires Typed(e)
    ensures Means(e, false, host, m)
  {
    WideIsWideAt(e, false, host, m);
    PartsMeanExactly(e, false, host, m);
  }

  // ---- operators that are not compiled ----

  /** A call through a function's name has no width. */
  function CallOf(f: Word): Expr {
    Call(Name(Symbol(SysCall, f)), NoArgs)
  }

  lemma CallHasNoWidth(f: Word, host: M.Host, m: M.Memory)
    ensures Typed(CallOf(f)) && Typing(CallOf(f)).Void? && Rise(CallOf(f)) == Peak(CallOf(f)) == 1
    ensures Eval(CallOf(f), host, m) == host.call(f, [], m)
    ensures Means(CallOf(f), false, host, m)
  {
    var e := CallOf(f);
    assert e.args == NoArgs && Count(NoArgs) == 0 && AllFormed(NoArgs) && AllPlaced(NoArgs) && AllWide(NoArgs);
    assert Formed(e.fn) && Placed(e.fn) && Wide(e.fn, false);
    assert EvalAll(NoArgs, host, m) == Replies([], m);
    EffectIsMeaning(e, host, m);
    assert RiseAll(NoArgs) == 0 && PeakAll(NoArgs) == 0 && Rise(e.fn) == 1 && Peak(e.fn) == 1;
  }

  /** So an operator with it on the left loses the operator: f() + n leaves both operands, f's result at the bottom. */
  lemma CallOnTheLeftLosesOperator(op: BinOp, f: Word, n: Word, host: M.Host, m: M.Memory)
    ensures var e := Binary(op, CallOf(f), Literal(ValueInt, n)); Formed(e) && Fed(e, false)
    ensures var r := host.call(f, [], m);
            Effect(Binary(op, CallOf(f), Literal(ValueInt, n)), false, host, m) == Effects([r.value, n], r.mem)
  {
    CallHasNoWidth(f, host, m);
    var r := host.call(f, [], m);
    var number := Literal(ValueInt, n);
    assert Formed(number) && Effect(number, false, host, r.mem) == Effects([n], r.mem);
    assert [r.value] + [n] == [r.value, n];
  }

  /** ~f() is compiled as f(), and *f() too. */
  lemma CallBelowLosesOperator(f: Word, host: M.Host, m: M.Memory)
    ensures Emit(Complement(CallOf(f)), false) == Emit(Deref(CallOf(f)), false) == Emit(CallOf(f), false)
    ensures Meant(Complement(CallOf(f))) && !Means(Complement(CallOf(f)), false, host, m)
    ensures Meant(Deref(CallOf(f)))
    ensures var r := host.call(f, [], m);
            Means(Deref(CallOf(f)), false, host, m) <==> host.load(r.mem, r.value) == r.value
  {
    CallHasNoWidth(f, host, m);
    assert Meant(Complement(CallOf(f))) && Meant(Deref(CallOf(f)));
    ComplementMeans(Complement(CallOf(f)), host, m);
    DerefMeans(Deref(CallOf(f)), false, host, m);
    assert Emit(CallOf(f), false) + [] == Emit(CallOf(f), false);
  }

  // ---- names that are not loaded ----

  /** p = n for a variable p of type void *. */
  function ToVoidPointer(at: Word, n: Word): Expr {
    Set(Name(Symbol(Var(VoidPointer), at)), Literal(ValueInt, n))
  }

  /** p's address is not loaded although p has a width: the store finds one word on the stack where it needs two. */
  lemma VoidPointerUnderflows(at: Word, n: Word, host: M.Host, m: M.Memory)
    ensures var e := ToVoidPointer(at, n);
            Meant(e) && Typing(e).DWord? && !Fed(e, false) && !Typed(e) &&
            Emit(e, false) == [Const(n), StoreTop, Reload] &&
            M.Exec(Emit(e, false), host, M.State([], m)) == None
  {
    var e := ToVoidPointer(at, n);
    assert Formed(e.target) && Formed(e.source) && Placed(e.target) && Placed(e.source) && IsStorage(e.target);
    assert Emit(e.target, true) == [] && Emit(e.source, false) == [Const(n)] && StoresInto(e.target);
    assert Emit(e, false) == [Const(n), StoreTop, Reload];
    assert Rise(e.target) == 0 && Rise(e.source) == 1 && !Wide(e.target, true);
    var st := M.State([n], m);
    assert [] + [n] == [n];
    assert M.Do(Const(n), host, M.State([], m)) == Some(st) && M.Do(StoreTop, host, st) == None;
    assert [Const(n), StoreTop, Reload][1..] == [StoreTop, Reload];
    assert M.Exec([StoreTop, Reload], host, st) == None;
  }

  // ---- when exactly one value is left ----

  /** Every two-operand operator is compiled: its left operand has a width, and an assignment's an address. */
  predicate Whole(e: Expr) {
    match e
    case Literal(_, _) => true
    case Name(_) => true
    case Binary(_, left, right) => Whole(left) && Whole(right) && Typing(left).DWord?
    case Negate(x) => Whole(x)
    case Complement(x) => Whole(x)
    case Plus(x) => Whole(x)
    case Set(target, source) => Whole(target) && Whole(source) && StoresInto(target)
    case PreStep(_, x) => Whole(x)
    case PostStep(_, x) => Whole(x)
    case Deref(x) => Whole(x)
    case AddrOf(x) => Whole(x)
    case Call(fn, args) => Whole(fn) && AllWhole(args)
  }

  predicate AllWhole(args: Args) {
    match args
    case NoArgs => true
    case Arg(first, rest) => Whole(first) && AllWhole(rest)
  }

  lemma {:induction false} RiseOfWhole(e: Expr)
    requires Loaded(e)
    ensures Rise(e) == 1 <==> Whole(e)
  {
    match e
    case Literal(_, _) =>
    case Name(_) =>
    case Binary(_, left, right) =>
      LoadedIsFed(left, false);
      LoadedIsFed(right, false);
      RiseOfWhole(left);
      RiseOfWhole(right);
    case Negate(x) => RiseOfWhole(x);
    case Complement(x) => RiseOfWhole(x);
    case Plus(x) => RiseOfWhole(x);
    case Set(target, source) =>
      LoadedIsFed(target, false);
      LoadedIsFed(source, false);
      RiseOfWhole(target);
      RiseOfWhole(source);
    case PreStep(_, x) => RiseOfWhole(x);
    case PostStep(_, x) => RiseOfWhole(x);
    case Deref(x) => RiseOfWhole(x);
    case AddrOf(x) => RiseOfWhole(x);
    case Call(fn, args) =>
      LoadedIsFed(fn, false);
      AllLoadedAreFed(args);
      RiseOfWhole(fn);
      RiseOfAllWhole(args);
  }

  lemma {:induction false} RiseOfAllWhole(args: Args)
    requires AllLoaded(args)
    ensures RiseAll(args) == Count(args) <==> AllWhole(args)
  {
    if args.Arg? {
      LoadedIsFed(args.first, false);
      RiseOfWhole(args.first);
      AllLoadedAreFed(args.rest);
      RiseOfAllWhole(args.rest);
    }
  }

  /** A name that is not loaded can make up for a lost operator: f() + p leaves one word, f's result. */
  lemma UnloadedNameHidesLoss(op: BinOp, f: Word, at: Word)
    ensures var e := Binary(op, CallOf(f), Name(Symbol(Var(VoidPointer), at)));
            Formed(e) && Fed(e, false) && Rise(e) == 1 && !Whole(e)
  {
    var e := Binary(op, CallOf(f), Name(Symbol(Var(VoidPointer), at)));
    assert AllFormed(NoArgs) && AllLoaded(NoArgs) && Count(NoArgs) == 0 && RiseAll(NoArgs) == 0;
    assert e.left.args == NoArgs && Formed(e.left.fn) && Loaded(e.left.fn) && Rise(e.left.fn) == 1;
    assert Formed(e.left) && Loaded(e.left) && Formed(e.right) && Rise(e.right) == 0;
    assert Typing(e.left.fn).Void? && Typing(e.left).Void? && Rise(e.left) == 1;
    LoadedIsFed(e.left, false);
  }

  /** For any expression whose names are loaded, its code raises the stack by one exactly when it is whole. */
  lemma RisesByOneExactlyWhenWhole(e: Expr, host: M.Host, st: M.State)
    requires Formed(e) && Loaded(e)
    requires |st.stack| + Peak(e) <= STACK_MAX && M.Lawful(host)
    ensures var r := M.Exec(Code(Checked(TreeOf(e, Nil), false)), host, st);
            r.Some? && |r.value.stack| > |st.stack| && r.value.stack[..|st.stack|] == st.stack &&
            (|r.value.stack| == |st.stack| + 1 <==> Whole(e))
  {
    EmittedCode(e, Nil, false);
    assert Emit(e, false) + [] == Emit(e, false);
    LoadedIsFed(e, false);
    CodeHasEffect(e, false, host, st);
    RiseOfWhole(e);
  }

  /** And for a typed one the value on top is its meaning. */
  lemma CompiledExpressionMeansItself(e: Expr, host: M.Host, st: M.State)
    requires Typed(e)
    requires |st.stack| + Peak(e) <= STACK_MAX && M.Lawful(host)
    ensures var r := Eval(e, host, st.mem);
            M.Exec(Code(Checked(TreeOf(e, Nil), false)), host, st) == Some(M.State(st.stack + [r.value], r.mem))
  {
    EffectIsMeaning(e, host, st.mem);
    EmittedCode(e, Nil, false);
    assert Emit(e, false) + [] == Emit(e, false);
    CodeHasEffect(e, false, host, st);
  }

  // ---- whole programs ----

  /** One statement after the other; the value is the last one's. */
  function EvalProgram(stmts: Args, host: M.Host, m: M.Memory): M.Reply
    requires AllTyped(stmts) && stmts.Arg?
  {
    var r := Eval(stmts.first, host, m);
    if stmts.rest.NoArgs? then r else EvalProgram(stmts.rest, host, r.mem)
  }

  /** Every statement starts on an empty stack. */
  predicate FitsStack(stmts: Args) {
    stmts.Arg? ==> Peak(stmts.first) <= STACK_MAX && FitsStack(stmts.rest)
  }

  /** One statement, on the empty stack. */
  lemma StatementComputes(e: Expr, host: M.Host, m: M.Memory)
    requires Typed(e) && Peak(e) <= STACK_MAX && M.Lawful(host)
    ensures var r := Eval(e, host, m);
            M.Exec(Emit(e, false), host, M.State([], m)) == Some(M.State([r.value], r.mem))
  {
    EffectIsMeaning(e, host, m);
    CodeHasEffect(e, false, host, M.State([], m));
    var r := Eval(e, host, m);
    assert [] + [r.value] == [r.value];
  }

  /** And dropped again. */
  lemma StatementDropped(code: seq<Instr>, host: M.Host, st: M.State, value: Word, m: M.Memory)
    requires M.Exec(code, host, st) == Some(M.State([value], m))
    ensures M.Exec(code + [Drop], host, st) == Some(M.State([], m))
  {
    M.ExecConcat(code, [Drop], host, st);
    assert [value][..0] == [];
  }

  lemma {:induction false} StatementsCompute(stmts: Args, host: M.Host, m: M.Memory)
    requires AllTyped(stmts) && stmts.Arg? && FitsStack(stmts) && M.Lawful(host)
    ensures var r := EvalProgram(stmts, host, m);
            M.Exec(EmitProgram(stmts), host, M.State([], m)) == Some(M.State([r.value], r.mem))
  {
    var Arg(first, rest) := stmts;
    var code, r := Emit(first, false), Eval(first, host, m);
    StatementComputes(first, host, m);
    if rest.NoArgs? {
      assert code + [] == code;
    } else {
      StatementsCompute(rest, host, r.mem);
      RestExecutes(code, EmitProgram(rest), host, M.State([], m), r.value, r.mem);
    }
  }

  /** A statement, its value dropped, and what comes after it. */
  lemma RestExecutes(code: seq<Instr>, more: seq<Instr>, host: M.Host, st: M.State, value: Word, m: M.Memory)
    requires M.Exec(code, host, st) == Some(M.State([value], m))
    ensures M.Exec(code + ([Drop] + more), host, st) == M.Exec(more, host, M.State([], m))
  {
    StatementDropped(code, host, st, value, m);
    M.ExecConcat(code + [Drop], more, host, st);
    assert code + ([Drop] + more) == (code + [Drop]) + more;
  }

  /**
    Compiling a line and running the whole text segment leaves exactly one value, that of the last
    statement, at the bottom of the stack, and the memory direct evaluation leaves.
   */
  lemma CompiledLineMeansItself(stmts: Args, host: M.Host, m: M.Memory)
    requires AllTyped(stmts) && stmts.Arg? && FitsStack(stmts) && M.Lawful(host)
    requires |Assembled(Program(Checked(TreesOf(stmts), false)))| <= TEXT_MAX
    ensures var r := EvalProgram(stmts, host, m);
            M.Run(M.Segment(Assembled(Program(Checked(TreesOf(stmts), false)))), host, M.State([], m)) ==
            Some(M.State([r.value], r.mem))
  {
    EmittedProgram(stmts);
    M.RunSegment(Program(Checked(TreesOf(stmts), false)), host, M.State([], m));
    StatementsCompute(stmts, host, m);
  }
}
