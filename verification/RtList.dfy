/**
  The kernel's circular doubly linked list (include/rtservice.h): next and prev links of nodes, a node
  being an index. A ring is a head and the nodes one meets from it; the operations insert into the
  sequence of those nodes and remove from it.
 */
module RtList {
  /** How often x occurs. */
  function Count(list: seq<nat>, x: nat): nat {
    if list == [] then 0 else (if list[0] == x then 1 else 0) + Count(list[1..], x)
  }

  lemma {:induction false} CountConcat(a: seq<nat>, b: seq<nat>, x: nat)
    ensures Count(a + b, x) == Count(a, x) + Count(b, x)
  {
    if a == [] {
      assert a + b == b;
    } else {
      assert (a + b)[1..] == a[1..] + b;
      CountConcat(a[1..], b, x);
    }
  }

  lemma CountThree(a: seq<nat>, x: nat, b: seq<nat>, y: nat)
    ensures Count(a + ([x] + b), y) == Count(a, y) + Count(b, y) + if x == y then 1 else 0
  {
    CountConcat(a, [x] + b, y);
    assert ([x] + b)[1..] == b;
  }

  lemma {:induction false} CountPositive(list: seq<nat>, k: nat)
    requires k < |list|
    ensures Count(list, list[k]) > 0
  {
    if k > 0 {
      CountPositive(list[1..], k - 1);
    }
  }

  /** Next and prev links, read as sequences. */
  datatype Links = Links(next: seq<nat>, prev: seq<nat>)

  ghost predicate Paired(l: Links) {
    |l.next| == |l.prev|
  }

  /** From one node the links lead over the middle nodes to the other, and back. */
  ghost predicate Leads(l: Links, from: nat, middle: seq<nat>, to: nat)
    requires Paired(l)
    decreases |middle|
  {
    from < |l.next| && to < |l.next| &&
    if middle == [] then l.next[from] == to && l.prev[to] == from
    else middle[0] < |l.next| && l.next[from] == middle[0] && l.prev[middle[0]] == from && Leads(l, middle[0], middle[1..], to)
  }

  ghost predicate Ring(l: Links, head: nat, list: seq<nat>) {
    Paired(l) && Leads(l, head, list, head) && Count(list, head) == 0 && forall x: nat :: Count(list, x) <= 1
  }

  lemma {:induction false} LeadsConcat(l: Links, from: nat, a: seq<nat>, x: nat, b: seq<nat>, to: nat)
    requires Paired(l)
    ensures Leads(l, from, a + ([x] + b), to) <==> Leads(l, from, a, x) && Leads(l, x, b, to)
    decreases |a|
  {
    var all := a + ([x] + b);
    if a == [] {
      assert all[1..] == b;
    } else {
      assert all[1..] == a[1..] + ([x] + b);
      LeadsConcat(l, a[0], a[1..], x, b, to);
    }
  }

  /** Only the links along the way matter. */
  lemma {:induction false} LeadsFrame(l: Links, m: Links, from: nat, middle: seq<nat>, to: nat)
    requires Paired(l) && Paired(m) && |m.next| == |l.next| && Leads(l, from, middle, to)
    requires m.next[from] == l.next[from] && m.prev[to] == l.prev[to]
    requires forall x: nat :: Count(middle, x) > 0 && x < |l.next| ==> m.next[x] == l.next[x] && m.prev[x] == l.prev[x]
    ensures Leads(m, from, middle, to)
    decreases |middle|
  {
    if middle != [] {
      assert Count(middle, middle[0]) > 0;
      forall x: nat | Count(middle[1..], x) > 0 && x < |l.next|
        ensures m.next[x] == l.next[x] && m.prev[x] == l.prev[x]
      {
        assert Count(middle, x) > 0;
      }
      LeadsFrame(l, m, middle[0], middle[1..], to);
    }
  }

  function LastOr(a: seq<nat>, head: nat): nat {
    if a == [] then head else a[|a| - 1]
  }

  function FirstOr(b: seq<nat>, head: nat): nat {
    if b == [] then head else b[0]
  }

  lemma {:induction false} LeadsBack(l: Links, from: nat, a: seq<nat>, to: nat)
    requires Paired(l) && Leads(l, from, a, to)
    ensures LastOr(a, from) < |l.next| && l.prev[to] == LastOr(a, from) && l.next[LastOr(a, from)] == to
    decreases |a|
  {
    if a != [] {
      LeadsBack(l, a[0], a[1..], to);
    }
  }

  /** The way to the last of a, with a new target behind it. */
  lemma Retarget(l: Links, m: Links, head: nat, a: seq<nat>, x: nat, to: nat)
    requires Paired(l) && Paired(m) && |m.next| == |l.next| && Leads(l, head, a, x) && to < |l.next|
    requires var p := LastOr(a, head);
             p < |l.next| && m.next[p] == to && m.prev[to] == p &&
             (forall y: nat :: y < |l.next| && y != p ==> (Count(a, y) > 0 || y == head ==> m.next[y] == l.next[y])) &&
             forall y: nat :: y < |l.next| && Count(a, y) > 0 ==> m.prev[y] == l.prev[y]
    requires Count(a, head) == 0 && forall y: nat :: Count(a, y) <= 1
    ensures Leads(m, head, a, to)
  {
    if a != [] {
      var (front, p) := (a[..|a| - 1], a[|a| - 1]);
      assert a == front + ([p] + []);
      LeadsConcat(l, head, front, p, [], x);
      CountThree(front, p, [], p);
      CountPositive(a, |a| - 1);
      forall y: nat | Count(front, y) > 0 && y < |l.next|
        ensures m.next[y] == l.next[y] && m.prev[y] == l.prev[y]
      {
        CountThree(front, p, [], y);
      }
      LeadsFrame(l, m, head, front, p);
      LeadsConcat(m, head, front, p, [], to);
    }
  }

  /** The way from the first of b on, behind a new source. */
  lemma Resource(l: Links, m: Links, b: seq<nat>, head: nat)
    requires Paired(l) && Paired(m) && |m.next| == |l.next| && b != [] && Leads(l, b[0], b[1..], head)
    requires m.prev[head] == l.prev[head]
    requires forall y: nat :: y < |l.next| && Count(b, y) > 0 ==> m.next[y] == l.next[y] && (y != b[0] ==> m.prev[y] == l.prev[y])
    requires forall y: nat :: Count(b, y) <= 1
    ensures Leads(m, b[0], b[1..], head)
  {
    CountPositive(b, 0);
    forall y: nat | Count(b[1..], y) > 0 && y < |l.next|
      ensures m.next[y] == l.next[y] && m.prev[y] == l.prev[y]
    {
      assert Count(b, y) == Count(b[1..], y) + if b[0] == y then 1 else 0;
    }
    LeadsFrame(l, m, b[0], b[1..], head);
  }

  /** The links around x, between a and b, are closed over it. */
  ghost predicate Unlinked(l: Links, m: Links, head: nat, a: seq<nat>, x: nat, b: seq<nat>)
    requires Paired(l) && Paired(m) && |m.next| == |l.next|
  {
    var (p, n) := (LastOr(a, head), FirstOr(b, head));
    p < |l.next| && n < |l.next| && m.next[p] == n && m.prev[n] == p &&
    (forall y: nat :: y < |l.next| && y != p && y != x ==> m.next[y] == l.next[y]) &&
    forall y: nat :: y < |l.next| && y != n && y != x ==> m.prev[y] == l.prev[y]
  }

  lemma RingParts(l: Links, head: nat, a: seq<nat>, x: nat, b: seq<nat>)
    requires Ring(l, head, a + ([x] + b))
    ensures Leads(l, head, a, x) && Leads(l, x, b, head)
    ensures x != head && Count(a, head) == 0 && Count(b, head) == 0
    ensures forall y: nat :: Count(a, y) + Count(b, y) + (if x == y then 1 else 0) <= 1
    ensures x < |l.next| && l.prev[x] == LastOr(a, head) && l.next[x] == FirstOr(b, head)
    ensures LastOr(a, head) < |l.next| && FirstOr(b, head) < |l.next|
  {
    LeadsConcat(l, head, a, x, b, head);
    forall y: nat
      ensures Count(a, y) + Count(b, y) + (if x == y then 1 else 0) <= 1
    {
      CountThree(a, x, b, y);
      assert Count(a + ([x] + b), y) <= 1;
    }
    CountThree(a, x, b, head);
    CountThree(a, x, b, x);
    LeadsBack(l, head, a, x);
  }

  lemma LastCounts(a: seq<nat>)
    requires a != []
    ensures Count(a, a[|a| - 1]) > 0
  {
    CountPositive(a, |a| - 1);
  }

  /** Taking a node out leaves the ring of the others. */
  lemma RingRemove(l: Links, m: Links, head: nat, a: seq<nat>, x: nat, b: seq<nat>)
    requires Ring(l, head, a + ([x] + b)) && Paired(m) && |m.next| == |l.next| && Unlinked(l, m, head, a, x, b)
    ensures Ring(m, head, a + b)
  {
    RingParts(l, head, a, x, b);
    var n := FirstOr(b, head);
    if a != [] { LastCounts(a); }
    if b != [] { CountPositive(b, 0); }
    Retarget(l, m, head, a, x, n);
    forall y: nat
      ensures Count(a + b, y) <= 1
    {
      CountConcat(a, b, y);
    }
    CountConcat(a, b, head);
    if b == [] {
      assert a + b == a;
    } else {
      assert Leads(l, b[0], b[1..], head);
      Resource(l, m, b, head);
      LeadsConcat(m, head, a, b[0], b[1..], head);
      assert a + b == a + ([b[0]] + b[1..]);
    }
  }

  /** x is linked in between a and b. */
  ghost predicate Linked(l: Links, m: Links, head: nat, a: seq<nat>, x: nat, b: seq<nat>)
    requires Paired(l) && Paired(m) && |m.next| == |l.next|
  {
    var (p, n) := (LastOr(a, head), FirstOr(b, head));
    p < |l.next| && n < |l.next| && x < |l.next| &&
    m.next[p] == x && m.prev[x] == p && m.next[x] == n && m.prev[n] == x &&
    (forall y: nat :: y < |l.next| && y != p && y != x ==> m.next[y] == l.next[y]) &&
    forall y: nat :: y < |l.next| && y != n && y != x ==> m.prev[y] == l.prev[y]
  }

  /** Putting a node in makes the ring with it. */
  lemma RingInsert(l: Links, m: Links, head: nat, a: seq<nat>, x: nat, b: seq<nat>)
    requires Ring(l, head, a + b) && Paired(m) && |m.next| == |l.next| && Linked(l, m, head, a, x, b)
    requires Count(a + b, x) == 0 && x != head
    ensures Ring(m, head, a + ([x] + b))
  {
    forall y: nat
      ensures Count(a, y) + Count(b, y) <= 1 && (y == x || y == head ==> Count(a, y) + Count(b, y) == 0)
      ensures Count(a + ([x] + b), y) <= 1 && (y == head ==> Count(a + ([x] + b), y) == 0)
    {
      CountConcat(a, b, y);
      CountThree(a, x, b, y);
      assert Count(a + b, y) <= 1;
    }
    if a != [] { LastCounts(a); }
    if b == [] {
      assert a + b == a;
      Retarget(l, m, head, a, head, x);
    } else {
      CountPositive(b, 0);
      assert a + b == a + ([b[0]] + b[1..]);
      LeadsConcat(l, head, a, b[0], b[1..], head);
      Retarget(l, m, head, a, b[0], x);
      Resource(l, m, b, head);
    }
    LeadsConcat(m, head, a, x, b, head);
  }

  // ---- the list operations ----

  class Lists {
    const next: array<nat>
    const prev: array<nat>

    /** Every node is a ring by itself, as rt_list_init leaves it. */
    constructor (nodes: nat)
      ensures Separate() && fresh(next) && fresh(prev) && next.Length == nodes
      ensures forall l: nat :: l < nodes ==> Ring(Here(), l, [])
    {
      next := new nat[nodes](k => k);
      prev := new nat[nodes](k => k);
    }

    ghost predicate Separate() {
      next != prev && next.Length == prev.Length
    }

    ghost function Here(): Links
      reads next, prev
    {
      Links(next[..], prev[..])
    }

    /** rt_list_insert_after */
    method InsertAfter(l: nat, n: nat, ghost head: nat, ghost a: seq<nat>, ghost b: seq<nat>)
      requires Separate() && Ring(Here(), head, a + b) && l == LastOr(a, head)
      requires n < next.Length && n != head && Count(a + b, n) == 0
      modifies next, prev
      ensures Ring(Here(), head, a + ([n] + b))
    {
      ghost var before := Here();
      LinksOf(head, a, b);
      CountConcat(a, b, n);
      if a != [] { LastCounts(a); }
      if b != [] { CountPositive(b, 0); }
      prev[next[l]] := n;
      next[n] := next[l];
      next[l] := n;
      prev[n] := l;
      RingInsert(before, Here(), head, a, n, b);
    }

    /** rt_list_insert_before */
    method InsertBefore(l: nat, n: nat, ghost head: nat, ghost a: seq<nat>, ghost b: seq<nat>)
      requires Separate() && Ring(Here(), head, a + b) && l == FirstOr(b, head)
      requires n < next.Length && n != head && Count(a + b, n) == 0
      modifies next, prev
      ensures Ring(Here(), head, a + ([n] + b))
    {
      ghost var before := Here();
      LinksOf(head, a, b);
      CountConcat(a, b, n);
      if a != [] { LastCounts(a); }
      if b != [] { CountPositive(b, 0); }
      next[prev[l]] := n;
      prev[n] := prev[l];
      prev[l] := n;
      next[n] := l;
      RingInsert(before, Here(), head, a, n, b);
    }

    /** Where a ring leads on between a and b. */
    lemma LinksOf(head: nat, a: seq<nat>, b: seq<nat>)
      requires Separate() && Ring(Here(), head, a + b)
      ensures var (p, n) := (LastOr(a, head), FirstOr(b, head));
              p < next.Length && n < next.Length && next[p] == n && prev[n] == p
    {
      if b == [] {
        assert a + b == a;
        LeadsBack(Here(), head, a, head);
      } else {
        assert a + b == a + ([b[0]] + b[1..]);
        LeadsConcat(Here(), head, a, b[0], b[1..], head);
        LeadsBack(Here(), head, a, b[0]);
      }
    }

    /** rt_list_remove: the node is a ring by itself again. */
    method Remove(n: nat, ghost head: nat, ghost a: seq<nat>, ghost b: seq<nat>)
      requires Separate() && Ring(Here(), head, a + ([n] + b))
      modifies next, prev
      ensures Ring(Here(), head, a + b) && Ring(Here(), n, [])
    {
      ghost var before := Here();
      RingParts(before, head, a, n, b);
      if a != [] { LastCounts(a); }
      if b != [] { CountPositive(b, 0); }
      prev[next[n]] := prev[n];
      next[prev[n]] := next[n];
      next[n], prev[n] := n, n;
      RingRemove(before, Here(), head, a, n, b);
    }

    /** rt_list_isempty */
    method IsEmpty(l: nat, ghost list: seq<nat>) returns (empty: bool)
      requires Separate() && Ring(Here(), l, list)
      ensures empty <==> list == []
    {
      empty := next[l] == l;
      assert list != [] ==> Count(list, list[0]) > 0;
    }
  }
}
