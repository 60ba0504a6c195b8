/**
  The machine the shell runs on: C arithmetic on words as a 32-bit ARM does it, and a little-endian byte
  memory.
 */
module FinshArm {
  import opened FinshTree
  import opened FinshCode
  import M = FinshMachine

  function Get(m: M.Memory, a: Word): Byte {
    if a in m then m[a] else 0
  }

  /** Address arithmetic wraps. */
  function Plus(a: Word, k: Byte): (r: Word)
    ensures r == (a + k) % 0x1_0000_0000
  {
    if a + k < 0x1_0000_0000 then a + k else a + k - 0x1_0000_0000
  }

  function Load(m: M.Memory, a: Word): Word {
    Join(Get(m, a), Get(m, Plus(a, 1)), Get(m, Plus(a, 2)), Get(m, Plus(a, 3)))
  }

  function Store(m: M.Memory, a: Word, w: Word): M.Memory {
    var b := Bytes(w);
    m[a := b[0]][Plus(a, 1) := b[1]][Plus(a, 2) := b[2]][Plus(a, 3) := b[3]]
  }

  lemma LoadStore(m: M.Memory, a: Word, w: Word)
    ensures Load(Store(m, a, w), a) == w
  {
    JoinBytes(w);
  }

  /** The word read as a C long. */
  function Signed(w: Word): int {
    if w < 0x8000_0000 then w else w - 0x1_0000_0000
  }

  /** 2^k */
  function Pow(k: nat): (p: nat)
    ensures p > 0
  {
    if k == 0 then 1 else 2 * Pow(k - 1)
  }

  lemma Pow32()
    ensures Pow(32) == 0x1_0000_0000
  {
    assert Pow(8) == 0x100;
    assert Pow(16) == 0x1_0000;
    assert Pow(24) == 0x100_0000;
  }

  function Wrapped(i: int): Word {
    i % 0x1_0000_0000
  }

  function Abs(i: int): nat {
    if i < 0 then -i else i
  }

  /** C's division: toward zero; a zero divisor gives zero, as the Cortex-M instruction does by default. */
  function Quotient(x: int, y: int): int {
    if y == 0 then 0
    else if (x < 0) == (y < 0) then Abs(x) / Abs(y)
    else -(Abs(x) / Abs(y))
  }

  /** A register shift counts with the low byte of its operand. */
  function ShiftBy(y: Word): (k: nat)
    ensures k <= 32
  {
    if y % 0x100 > 32 then 32 else y % 0x100
  }

  /** The n low bits of x and y, combined bit by bit. */
  function Bitwise(f: (bool, bool) -> bool, x: nat, y: nat, n: nat): (r: nat)
    ensures r < Pow(n)
  {
    if n == 0 then 0 else 2 * Bitwise(f, x / 2, y / 2, n - 1) + if f(x % 2 == 1, y % 2 == 1) then 1 else 0
  }

  function Bits32(f: (bool, bool) -> bool, x: Word, y: Word): Word {
    Pow32();
    Bitwise(f, x, y, 32)
  }

  function AndBits(x: Word, y: Word): Word {
    Bits32((a, b) => a && b, x, y)
  }

  function OrBits(x: Word, y: Word): Word {
    Bits32((a, b) => a || b, x, y)
  }

  function XorBits(x: Word, y: Word): Word {
    Bits32((a, b) => a != b, x, y)
  }

  /** Doubled k times; the bits that leave the word are lost. */
  function ShiftedLeft(x: Word, k: nat): Word
    decreases k
  {
    if k == 0 then x else ShiftedLeft(Wrapped(2 * x), k - 1)
  }

  /** Halved k times. */
  function ShiftedRight(x: Word, k: nat): Word
    decreases k
  {
    if k == 0 then x else ShiftedRight(x / 2, k - 1)
  }

  function Apply(op: BinOp, x: Word, y: Word): Word {
    match op
    case Add => Wrapped(x + y)
    case Sub => Wrapped(x - y)
    case Mul => Wrapped(x * y)
    case Div => Wrapped(Quotient(Signed(x), Signed(y)))
    case Mod => Wrapped(Signed(x) - Quotient(Signed(x), Signed(y)) * Signed(y))
    case And => AndBits(x, y)
    case Or => OrBits(x, y)
    case Xor => XorBits(x, y)
    case Shl => ShiftedLeft(x, ShiftBy(y))
    case Shr => if Signed(x) >= 0 then ShiftedRight(x, ShiftBy(y)) else M.Invert(ShiftedRight(M.Invert(x), ShiftBy(y)))
  }

  lemma {:induction false} Product(q: int, d: int)
    requires q >= 0 && d >= 1
    ensures q * d >= q && (d >= 2 ==> q * d >= 2 * q)
    decreases d
  {
    if d > 1 {
      Product(q, d - 1);
      assert q * d == q * (d - 1) + q;
    }
  }

  lemma Division(n: int, d: int)
    requires n >= 0 && d > 0
    ensures n / d * d + n % d == n && 0 <= n / d <= n && (d > 1 && n > 0 ==> n / d < n)
  {
    Product(n / d, d);
  }

  lemma Signs(q: int, d: int)
    ensures (-q) * d == -(q * d) && q * (-d) == -(q * d) && (-q) * (-d) == q * d
  {
  }

  lemma SignedWrapped(i: int)
    requires -0x8000_0000 <= i < 0x8000_0000
    ensures Signed(Wrapped(i)) == i
  {
  }

  lemma QuotientFits(a: int, b: int)
    requires -0x8000_0000 <= a < 0x8000_0000 && b != 0 && !(a == -0x8000_0000 && b == -1)
    ensures -0x8000_0000 <= Quotient(a, b) < 0x8000_0000
    ensures var r := a - Quotient(a, b) * b;
            Abs(r) < Abs(b) && Abs(r) <= Abs(a) && (r != 0 ==> (r < 0 <==> a < 0))
  {
    var n, d := Abs(a), Abs(b);
    Division(n, d);
    Signs(n / d, d);
  }

  /**
    / truncates toward zero, % takes the dividend's sign and the two recombine, except where the divisor
    is zero or the quotient of the most negative word by -1 does not fit.
   */
  lemma DivModTruncate(x: Word, y: Word)
    requires Signed(y) != 0 && !(Signed(x) == -0x8000_0000 && Signed(y) == -1)
    ensures var q, r := Signed(Apply(Div, x, y)), Signed(Apply(Mod, x, y));
            q * Signed(y) + r == Signed(x) && Abs(r) < Abs(Signed(y)) && (r != 0 ==> (r < 0 <==> Signed(x) < 0))
  {
    var a, b := Signed(x), Signed(y);
    QuotientFits(a, b);
    SignedWrapped(Quotient(a, b));
    SignedWrapped(a - Quotient(a, b) * b);
  }

  // ----- the laws of the operators ------------------------------------------------------------

  /** Bit k of a number. */
  function Bit(w: nat, k: nat): bool {
    w / Pow(k) % 2 == 1
  }

  lemma Unique(n: int, d: nat, q: int, r: int)
    requires d > 0 && n == q * d + r && 0 <= r < d
    ensures n / d == q && n % d == r
  {
    var (p, t) := (n / d, n % d);
    assert n == p * d + t;
    if p > q {
      Larger(p, q, d);
    } else if p < q {
      Larger(q, p, d);
    }
  }

  lemma Larger(p: int, q: int, d: nat)
    requires p > q
    ensures p * d >= q * d + d
  {
    assert p * d == q * d + d + (p - q - 1) * d;
    assert (p - q - 1) * d >= 0;
  }

  /** Dividing by two and then by p is dividing by 2 * p. */
  lemma Halves(w: nat, p: nat)
    requires p > 0
    ensures w / (2 * p) == w / 2 / p
  {
    var (h, q, r) := (w / 2, w / 2 / p, w / 2 % p);
    assert h == q * p + r;
    assert q * (2 * p) == 2 * (q * p);
    Unique(w, 2 * p, q, 2 * r + w % 2);
  }

  lemma BitBelow(w: nat, k: nat)
    requires k > 0
    ensures Bit(w, k) == Bit(w / 2, k - 1)
  {
    Halves(w, Pow(k - 1));
  }

  lemma {:induction false} BitwiseBit(f: (bool, bool) -> bool, x: nat, y: nat, n: nat, k: nat)
    requires k < n
    ensures Bit(Bitwise(f, x, y, n), k) == f(Bit(x, k), Bit(y, k))
    decreases n
  {
    var r := Bitwise(f, x, y, n);
    if k == 0 {
      assert Pow(0) == 1;
    } else {
      BitBelow(x, k);
      BitBelow(y, k);
      BitBelow(r, k);
      assert r / 2 == Bitwise(f, x / 2, y / 2, n - 1);
      BitwiseBit(f, x / 2, y / 2, n - 1, k - 1);
    }
  }

  /** &, | and ^ bit by bit. */
  lemma BitsOfOperators(x: Word, y: Word, k: nat)
    requires k < 32
    ensures Bit(Apply(And, x, y), k) <==> Bit(x, k) && Bit(y, k)
    ensures Bit(Apply(Or, x, y), k) <==> Bit(x, k) || Bit(y, k)
    ensures Bit(Apply(Xor, x, y), k) <==> Bit(x, k) != Bit(y, k)
  {
    BitwiseBit((a, b) => a && b, x, y, 32, k);
    BitwiseBit((a, b) => a || b, x, y, 32, k);
    BitwiseBit((a, b) => a != b, x, y, 32, k);
  }

  lemma {:induction false} FlippedBit(x: nat, n: nat, k: nat)
    requires k < n && x < Pow(n)
    ensures Bit(Pow(n) - 1 - x, k) == !Bit(x, k)
    decreases n
  {
    var r := Pow(n) - 1 - x;
    assert r / 2 == Pow(n - 1) - 1 - x / 2 && r % 2 == 1 - x % 2;
    if k == 0 {
      assert Pow(0) == 1;
    } else {
      BitBelow(x, k);
      BitBelow(r, k);
      FlippedBit(x / 2, n - 1, k - 1);
    }
  }

  /** ~ turns every bit over. */
  lemma InvertFlips(x: Word, k: nat)
    requires k < 32
    ensures Bit(M.Invert(x), k) <==> !Bit(x, k)
  {
    Pow32();
    FlippedBit(x, 32, k);
  }

  /** Only the remainder of a factor counts. */
  lemma WrappedFactor(a: nat, b: nat)
    ensures Wrapped(Wrapped(a) * b) == Wrapped(a * b)
  {
    var (q, r) := (a / 0x1_0000_0000, Wrapped(a));
    assert a == q * 0x1_0000_0000 + r;
    assert a * b == q * b * 0x1_0000_0000 + r * b by { Spread(q, 0x1_0000_0000, r, b); }
    Shifted(r * b, q * b);
  }

  lemma Spread(q: nat, m: nat, r: nat, b: nat)
    ensures (q * m + r) * b == q * b * m + r * b
  {
  }

  lemma Shifted(i: int, q: int)
    ensures Wrapped(q * 0x1_0000_0000 + i) == Wrapped(i)
  {
  }

  lemma {:induction false} LeftIsTimes(x: Word, k: nat)
    ensures ShiftedLeft(x, k) == Wrapped(x * Pow(k))
    decreases k
  {
    if k > 0 {
      LeftIsTimes(Wrapped(2 * x), k - 1);
      WrappedFactor(2 * x, Pow(k - 1));
      assert 2 * x * Pow(k - 1) == x * Pow(k);
    }
  }

  lemma {:induction false} RightIsDivided(x: Word, k: nat)
    ensures ShiftedRight(x, k) == x / Pow(k)
    decreases k
  {
    if k > 0 {
      RightIsDivided(x / 2, k - 1);
      Halves(x, Pow(k - 1));
    }
  }

  /** The floor of a negative quotient. */
  lemma FloorBelow(m: int, p: nat)
    requires m >= 0 && p > 0
    ensures (-1 - m) / p == -1 - m / p
  {
    var (q, r) := (m / p, m % p);
    assert m == q * p + r;
    assert (-1 - q) * p == -(q * p) - p;
    Unique(-1 - m, p, -1 - q, p - 1 - r);
  }

  /** << multiplies by a power of two, as far as the word goes; >> divides by it, rounding down. */
  lemma ShiftsScale(x: Word, y: Word)
    requires y < 32
    ensures Apply(Shl, x, y) == (x * Pow(y)) % 0x1_0000_0000
    ensures Signed(Apply(Shr, x, y)) == Signed(x) / Pow(y)
  {
    ShiftByItself(y);
    LeftIsTimes(x, y);
    RightRounds(x, y, Apply(Shr, x, y));
  }

  /** By more than the word is wide: nothing is left but the sign. */
  lemma ShiftsOut(x: Word, y: Word)
    requires y % 0x100 >= 32
    ensures Apply(Shl, x, y) == 0
    ensures Signed(Apply(Shr, x, y)) == if Signed(x) < 0 then -1 else 0
  {
    LeftOut(x);
    RightOut(x);
    RightOut(M.Invert(x));
  }

  lemma LeftOut(x: Word)
    ensures ShiftedLeft(x, 32) == 0
  {
    Pow32();
    LeftIsTimes(x, 32);
    Shifted(0, x);
  }

  lemma RightOut(x: Word)
    ensures ShiftedRight(x, 32) == 0
  {
    Pow32();
    RightIsDivided(x, 32);
  }

  lemma ShiftByItself(y: Word)
    requires y < 32
    ensures ShiftBy(y) == y
  {
  }

  lemma RightRounds(x: Word, k: nat, r: Word)
    requires r == if Signed(x) >= 0 then ShiftedRight(x, k) else M.Invert(ShiftedRight(M.Invert(x), k))
    ensures Signed(r) == Signed(x) / Pow(k)
  {
    var m := if Signed(x) >= 0 then x else M.Invert(x);
    RightIsDivided(m, k);
    Division(m, Pow(k));
    if Signed(x) < 0 {
      FloorBelow(m, Pow(k));
    }
  }

  /** +, - and * are those of the signed numbers wherever the result fits. */
  lemma SumsFit(x: Word, y: Word)
    ensures var r := Signed(x) + Signed(y); -0x8000_0000 <= r < 0x8000_0000 ==> Signed(Apply(Add, x, y)) == r
    ensures var r := Signed(x) - Signed(y); -0x8000_0000 <= r < 0x8000_0000 ==> Signed(Apply(Sub, x, y)) == r
    ensures var r := Signed(x) * Signed(y); -0x8000_0000 <= r < 0x8000_0000 ==> Signed(Apply(Mul, x, y)) == r
  {
    var (a, b) := (Carry(x), Carry(y));
    var (s, t) := (Signed(x), Signed(y));
    Folded(x + y, a + b, s + t);
    Folded(x - y, a - b, s - t);
    ProductOfSigned(s, a, t, b, 0x1_0000_0000);
    Folded(x * y, a * t + b * s + a * b * 0x1_0000_0000, s * t);
  }

  /** And they always differ from those by a multiple of 2^32. */
  lemma SumsWrap(x: Word, y: Word)
    ensures (Signed(Apply(Add, x, y)) - (Signed(x) + Signed(y))) % 0x1_0000_0000 == 0
    ensures (Signed(Apply(Sub, x, y)) - (Signed(x) - Signed(y))) % 0x1_0000_0000 == 0
    ensures (Signed(Apply(Mul, x, y)) - Signed(x) * Signed(y)) % 0x1_0000_0000 == 0
  {
    var (a, b) := (Carry(x), Carry(y));
    var (s, t) := (Signed(x), Signed(y));
    Congruent(x + y, a + b, s + t);
    Congruent(x - y, a - b, s - t);
    ProductOfSigned(s, a, t, b, 0x1_0000_0000);
    Congruent(x * y, a * t + b * s + a * b * 0x1_0000_0000, s * t);
  }

  lemma Congruent(i: int, q: int, r: int)
    requires i == q * 0x1_0000_0000 + r
    ensures (Signed(Wrapped(i)) - r) % 0x1_0000_0000 == 0
  {
    var p := i / 0x1_0000_0000;
    assert i == p * 0x1_0000_0000 + Wrapped(i);
    var k := q - p - Carry(Wrapped(i));
    assert Signed(Wrapped(i)) - r == k * 0x1_0000_0000;
  }

  /** Where the divisor is zero, and where the quotient does not fit. */
  lemma DivisionCorners(x: Word)
    ensures Apply(Div, x, 0) == 0 && Apply(Mod, x, 0) == x
    ensures Apply(Div, 0x8000_0000, 0xFFFF_FFFF) == 0x8000_0000 && Apply(Mod, 0x8000_0000, 0xFFFF_FFFF) == 0
  {
    assert Quotient(-0x8000_0000, -1) == 0x8000_0000;
  }

  /** What separates a word from the number it stands for. */
  function Carry(x: Word): (a: nat)
    ensures x == a * 0x1_0000_0000 + Signed(x)
  {
    if x < 0x8000_0000 then 0 else 1
  }

  lemma Folded(i: int, q: int, r: int)
    requires i == q * 0x1_0000_0000 + r
    ensures -0x8000_0000 <= r < 0x8000_0000 ==> Signed(Wrapped(i)) == r
  {
    Shifted(r, q);
  }

  lemma ProductOfSigned(x: int, a: int, y: int, b: int, m: int)
    ensures (a * m + x) * (b * m + y) == (a * y + b * x + a * b * m) * m + x * y
  {
  }

  /** A stored word lies in memory with its low byte first, and nothing else changes. */
  lemma StoreIsLittleEndian(m: M.Memory, a: Word, w: Word, x: Word)
    ensures var r := Store(m, a, w);
            && Get(r, a) == w % 0x100 && Get(r, Plus(a, 1)) == w / 0x100 % 0x100
            && Get(r, Plus(a, 2)) == w / 0x1_0000 % 0x100 && Get(r, Plus(a, 3)) == w / 0x100_0000
            && (x != a && x != Plus(a, 1) && x != Plus(a, 2) && x != Plus(a, 3) ==> Get(r, x) == Get(m, x))
  {
  }

  /** The machine, calling functions as call says. */
  function Arm(call: (Word, seq<Word>, M.Memory) -> M.Reply): M.Host {
    M.Host(Apply, call, Load, Store)
  }

  lemma ArmIsLawful(call: (Word, seq<Word>, M.Memory) -> M.Reply)
    ensures M.Lawful(Arm(call))
  {
    forall m: M.Memory, a: Word, w: Word
      ensures Arm(call).load(Arm(call).store(m, a, w), a) == w
    {
      LoadStore(m, a, w);
    }
  }
}
