/**
 The bitmap that tells which ready lists are not empty (src/scheduler.c): one 32-bit word for up to 32 priorities,
 or a word that summarises 32 bytes for up to 256. A word or byte is the set of the numbers of its bits.
 */
module ReadyBitmap {

  /** table is rt_thread_ready_table; it is used only if `two` is set (RT_THREAD_PRIORITY_MAX above 32). */
  datatype Bitmap = Bitmap(two: bool, group: set<nat>, table: seq<set<nat>>)

  /** The number of priorities. */
  function Max(two: bool): nat {
    if two then 256 else 32
  }

  function Empty(two: bool): Bitmap {
    Bitmap(two, {}, seq(32, _ => {}))
  }

  ghost predicate Marked(b: Bitmap, p: nat) {
    if b.two then p / 8 < |b.table| && p % 8 in b.table[p / 8] else p in b.group
  }

  /** A bit of the group is set exactly if its byte is not zero. */
  ghost predicate Coherent(b: Bitmap) {
    && |b.table| == 32 && (forall i :: i in b.group ==> i < 32)
    && (b.two ==> forall i :: 0 <= i < 32 ==> (i in b.group <==> b.table[i] != {}) && forall k :: k in b.table[i] ==> k < 8)
  }

  /** The marking in rt_schedule_insert_thread. */
  function Mark(b: Bitmap, p: nat): Bitmap
    requires p < Max(b.two) && |b.table| == 32
  {
    if b.two then Bitmap(true, b.group + {p / 8}, b.table[p / 8 := b.table[p / 8] + {p % 8}])
    else b.(group := b.group + {p})
  }

  /** What rt_schedule_remove_thread does when the list of priority p has become empty. */
  function Unmark(b: Bitmap, p: nat): Bitmap
    requires p < Max(b.two) && |b.table| == 32
  {
    if b.two then
      var byte := b.table[p / 8] - {p % 8};
      Bitmap(true, if byte == {} then b.group - {p / 8} else b.group, b.table[p / 8 := byte])
    else b.(group := b.group - {p})
  }

  lemma Divided(p: nat, q: nat)
    ensures p == q <==> p / 8 == q / 8 && p % 8 == q % 8
  {
    assert p == 8 * (p / 8) + p % 8 && q == 8 * (q / 8) + q % 8;
  }

  lemma MarkSets(b: Bitmap, p: nat, q: nat)
    requires Coherent(b) && p < Max(b.two)
    ensures Coherent(Mark(b, p)) && (Marked(Mark(b, p), q) <==> q == p || Marked(b, q))
  {
    Divided(p, q);
  }

  lemma UnmarkClears(b: Bitmap, p: nat, q: nat)
    requires Coherent(b) && p < Max(b.two)
    ensures Coherent(Unmark(b, p)) && (Marked(Unmark(b, p), q) <==> q != p && Marked(b, q))
  {
    Divided(p, q);
  }

  // ----- the table of lowest bits -------------------------------------------------------------

  /** A row of rt_lowest_bitmap; the rows differ in their first entry only. */
  function Row(first: nat): (r: seq<nat>)
    ensures |r| == 16
  {
    [first, 0, 1, 0, 2, 0, 1, 0, 3, 0, 1, 0, 2, 0, 1, 0]
  }

  function Rows(firsts: seq<nat>): (r: seq<nat>)
    ensures |r| == 16 * |firsts|
  {
    if firsts == [] then [] else Row(firsts[0]) + Rows(firsts[1..])
  }

  const FIRSTS: seq<nat> := [0, 4, 5, 4, 6, 4, 5, 4, 7, 4, 5, 4, 6, 4, 5, 4]

  /** rt_lowest_bitmap */
  function LowestBitmap(): (r: seq<nat>)
    ensures |r| == 256
  {
    Rows(FIRSTS)
  }

  lemma {:induction false} RowsAt(firsts: seq<nat>, r: nat, c: nat)
    requires r < |firsts| && c < 16
    ensures Rows(firsts)[16 * r + c] == Row(firsts[r])[c]
  {
    if r > 0 {
      RowsAt(firsts[1..], r - 1, c);
    }
  }

  function One(c: bool): (n: nat)
    ensures n <= 1
  {
    if c then 1 else 0
  }

  /** Bits base to base + 3 of a word, as a number. */
  function Nibble(bits: set<nat>, base: nat): (n: nat)
    ensures n < 16
  {
    One(base in bits) + 2 * One(base + 1 in bits) + 4 * One(base + 2 in bits) + 8 * One(base + 3 in bits)
  }

  /** (word >> base) & 0xff */
  function Byte(bits: set<nat>, base: nat): (n: nat)
    ensures n < 256
  {
    Nibble(bits, base) + 16 * Nibble(bits, base + 4)
  }

  /** Bit k is set and no lower one from base on. */
  ghost predicate First(bits: set<nat>, base: nat, k: nat) {
    k in bits && forall i :: base <= i < k ==> i !in bits
  }

  /** No bit of the stretch is set. */
  ghost predicate Clear(bits: set<nat>, base: nat, n: nat) {
    forall i :: base <= i < base + n ==> i !in bits
  }

  lemma NibbleFirst(bits: set<nat>, base: nat)
    ensures Nibble(bits, base) == 0 <==> Clear(bits, base, 4)
    ensures Nibble(bits, base) > 0 ==> Row(0)[Nibble(bits, base)] < 4 && First(bits, base, base + Row(0)[Nibble(bits, base)])
  {
    assert Clear(bits, base, 4) <==> base !in bits && base + 1 !in bits && base + 2 !in bits && base + 3 !in bits;
  }

  /** The first entries of the rows are those of the first row, moved by four bits. */
  lemma FirstsFollow(r: nat)
    requires r < 16
    ensures FIRSTS[r] == if r == 0 then 0 else 4 + Row(0)[r]
  {
  }

  lemma RowEntries(first: nat, c: nat)
    requires c < 16
    ensures Row(first)[c] == if c == 0 then first else Row(0)[c]
  {
  }

  /** A table that gives the lowest bit of every byte but 0, read row by row. */
  ghost predicate Good(table: seq<nat>) {
    && |table| == 256
    && forall r, c :: 0 <= r < 16 && 0 <= c < 16 ==> table[16 * r + c] == Entry(r, c)
  }

  /** The lowest bit of 16 * r + c. */
  function Entry(r: nat, c: nat): nat
    requires r < 16 && c < 16
  {
    if c > 0 then Row(0)[c] else if r > 0 then 4 + Row(0)[r] else 0
  }

  /** rt_lowest_bitmap is such a table. */
  lemma LowestBitmapIsGood()
    ensures Good(LowestBitmap())
  {
    var table := LowestBitmap();
    forall r, c | 0 <= r < 16 && 0 <= c < 16
      ensures table[16 * r + c] == Entry(r, c)
    {
      RowsAt(FIRSTS, r, c);
      FirstsFollow(r);
      RowEntries(FIRSTS[r], c);
    }
  }

  /** rt_lowest_bitmap[(word >> base) & 0xff] */
  function LowestOfByte(table: seq<nat>, bits: set<nat>, base: nat): nat
    requires |table| == 256
  {
    table[Byte(bits, base)]
  }

  /** The table gives the lowest bit of every byte but 0. */
  lemma LowestOfByteIsFirst(table: seq<nat>, bits: set<nat>, base: nat)
    requires Good(table)
    ensures Byte(bits, base) == 0 <==> Clear(bits, base, 8)
    ensures Byte(bits, base) > 0 ==> LowestOfByte(table, bits, base) < 8 && First(bits, base, base + LowestOfByte(table, bits, base))
  {
    var (low, high) := (Nibble(bits, base), Nibble(bits, base + 4));
    NibbleFirst(bits, base);
    NibbleFirst(bits, base + 4);
    assert table[16 * high + low] == Entry(high, low);
    assert Clear(bits, base, 8) <==> Clear(bits, base, 4) && Clear(bits, base + 4, 4);
  }

  // ----- the lowest marked priority -----------------------------------------------------------

  /** The chain over the four bytes of the group in rt_schedule. */
  function LowestOfWord(table: seq<nat>, bits: set<nat>): nat
    requires |table| == 256
  {
    if Byte(bits, 0) != 0 then LowestOfByte(table, bits, 0)
    else if Byte(bits, 8) != 0 then LowestOfByte(table, bits, 8) + 8
    else if Byte(bits, 16) != 0 then LowestOfByte(table, bits, 16) + 16
    else LowestOfByte(table, bits, 24) + 24
  }

  /** The lowest bit of a byte behind bytes that are 0. */
  lemma LowestBehind(table: seq<nat>, bits: set<nat>, base: nat)
    requires Good(table) && Clear(bits, 0, base) && Byte(bits, base) > 0
    ensures First(bits, 0, LowestOfByte(table, bits, base) + base)
  {
    LowestOfByteIsFirst(table, bits, base);
  }

  lemma ClearOn(table: seq<nat>, bits: set<nat>, base: nat)
    requires Good(table) && Clear(bits, 0, base) && Byte(bits, base) == 0
    ensures Clear(bits, 0, base + 8)
  {
    LowestOfByteIsFirst(table, bits, base);
  }

  lemma LowestOfWordIsFirst(table: seq<nat>, bits: set<nat>)
    requires Good(table) && bits != {} && forall i :: i in bits ==> i < 32
    ensures First(bits, 0, LowestOfWord(table, bits))
  {
    if Byte(bits, 0) != 0 {
      LowestBehind(table, bits, 0);
    } else {
      ClearOn(table, bits, 0);
      LowestBehindFirst(table, bits);
    }
  }

  lemma LowestBehindFirst(table: seq<nat>, bits: set<nat>)
    requires Good(table) && bits != {} && (forall i :: i in bits ==> i < 32) && Byte(bits, 0) == 0 && Clear(bits, 0, 8)
    ensures First(bits, 0, LowestOfWord(table, bits))
  {
    if Byte(bits, 8) != 0 {
      LowestBehind(table, bits, 8);
    } else {
      ClearOn(table, bits, 8);
      if Byte(bits, 16) != 0 {
        LowestBehind(table, bits, 16);
      } else {
        ClearOn(table, bits, 16);
        var i :| i in bits;
        LowestOfByteIsFirst(table, bits, 24);
        assert !Clear(bits, 24, 8) by { assert 24 <= i < 32; }
        LowestBehind(table, bits, 24);
      }
    }
  }

  /** highest_ready_priority */
  function Lowest(table: seq<nat>, b: Bitmap): nat
    requires |table| == 256
  {
    var number := LowestOfWord(table, b.group);
    if b.two && number < |b.table| then 8 * number + LowestOfByte(table, b.table[number], 0) else number
  }

  lemma Parts(p: nat, q: nat, k: nat)
    requires k < 8 && p == 8 * q + k
    ensures p / 8 == q && p % 8 == k
  {
  }

  /** The lookup finds the most urgent priority that is marked. */
  lemma LowestIsLeast(table: seq<nat>, b: Bitmap, q: nat)
    requires Good(table) && Coherent(b) && b.group != {}
    ensures Lowest(table, b) < Max(b.two) && Marked(b, Lowest(table, b)) && (Marked(b, q) ==> Lowest(table, b) <= q)
  {
    LowestOfWordIsFirst(table, b.group);
    if b.two {
      var number := LowestOfWord(table, b.group);
      assert number in b.group;
      LowestOfEntry(table, b.table[number]);
      Parts(Lowest(table, b), number, LowestOfByte(table, b.table[number], 0));
      if Marked(b, q) {
        assert q / 8 in b.group && number <= q / 8;
      }
    }
  }

  lemma LowestOfEntry(table: seq<nat>, byte: set<nat>)
    requires Good(table) && byte != {} && forall k :: k in byte ==> k < 8
    ensures First(byte, 0, LowestOfByte(table, byte, 0))
  {
    var k :| k in byte;
    LowestOfByteIsFirst(table, byte, 0);
    assert !Clear(byte, 0, 8) by { assert 0 <= k < 8; }
  }

  /** Something is marked exactly if the group is not zero. */
  lemma GroupTells(b: Bitmap, p: nat)
    requires Coherent(b) && Marked(b, p)
    ensures b.group != {} && p < Max(b.two)
  {
    if b.two {
      assert p / 8 in b.group;
      assert p == 8 * (p / 8) + p % 8;
    }
  }
}
