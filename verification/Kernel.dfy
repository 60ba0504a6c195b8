/** Vocabulary shared by the kernel modules. */
module Kernel {

  datatype Option<+T> = None | Some(value: T)

  /** A thread is known by an identity; its control block is spread over the modules that use it. */
  type Tid = nat

  /** Kernel error codes (the source returns them negated). */
  datatype Error = EOK | ERROR | ETIMEOUT | EFULL

  /** Why a blocked thread is not running: still on a list, or made ready with thread->error set. */
  datatype Wait = Suspended | Woken | Failed(error: Error)

  /** The ticks left of a timeout after a suspension; a negative one means forever and never runs down. */
  function Remaining(timeout: int, elapsed: nat): int {
    if timeout <= 0 then timeout else if timeout < elapsed then 0 else timeout - elapsed
  }

  /** Order in which an IPC object keeps its waiting threads. */
  datatype IpcFlag = Fifo | Prio

  /** No element occurs twice. */
  ghost predicate Distinct<T>(s: seq<T>) {
    forall i, j :: 0 <= i < j < |s| ==> s[i] != s[j]
  }

  /** s without its element at position i. */
  function Without<T>(s: seq<T>, i: nat): (r: seq<T>)
    requires i < |s|
    ensures |r| == |s| - 1
  {
    s[..i] + s[i + 1..]
  }

  /** s with x put in at position i. */
  function Inserted<T(!new)>(s: seq<T>, i: nat, x: T): (r: seq<T>)
    requires i <= |s|
    ensures |r| == |s| + 1 && r[i] == x
    ensures forall k :: 0 <= k < i ==> r[k] == s[k]
    ensures forall k :: i < k < |r| ==> r[k] == s[k - 1]
    ensures forall y :: y in r <==> y == x || y in s
  {
    assert s == s[..i] + s[i..];
    s[..i] + [x] + s[i..]
  }

  lemma WithoutDistinct<T>(s: seq<T>, i: nat)
    requires Distinct(s) && i < |s|
    ensures Distinct(Without(s, i))
    ensures forall x :: x in Without(s, i) <==> x in s && x != s[i]
  {
    var r := Without(s, i);
    forall x | x in s && x != s[i]
      ensures x in r
    {
      var k :| 0 <= k < |s| && s[k] == x;
      assert r[if k < i then k else k - 1] == x;
    }
  }

  lemma FirstLeaves<T>(s: seq<T>)
    requires Distinct(s) && s != []
    ensures Distinct(s[1..]) && forall x :: x in s[1..] <==> x in s && x != s[0]
  {
    assert s[1..] == Without(s, 0);
    WithoutDistinct(s, 0);
  }

  lemma ConcatDistinct<T>(a: seq<T>, b: seq<T>)
    requires Distinct(a) && Distinct(b)
    requires forall x :: x in a ==> x !in b
    ensures Distinct(a + b)
  {
    forall i, j | 0 <= i < j < |a + b|
      ensures (a + b)[i] != (a + b)[j]
    {
      if i < |a| <= j {
        assert a[i] in a && b[j - |a|] in b;
      }
    }
  }

  lemma SplitAround<T>(s: seq<T>, i: nat)
    requires i < |s|
    ensures s == s[..i] + ([s[i]] + s[i + 1..])
  {
  }

  lemma Regroup<T>(a: seq<T>, x: T, b: seq<T>)
    requires b != []
    ensures a + ([x] + b) == (a + [x]) + ([b[0]] + b[1..])
  {
  }

  lemma HeadOff<T>(a: seq<T>, b: seq<T>)
    requires a != []
    ensures a + b == [a[0]] + (a[1..] + b)
  {
  }

  lemma Rotate<T>(a: seq<T>, b: seq<T>)
    requires b != []
    ensures a + b == (a + [b[0]]) + b[1..] == a + ([b[0]] + b[1..])
  {
  }

  lemma SplitLast<T>(a: seq<T>, b: seq<T>)
    requires a != []
    ensures a + b == a[..|a| - 1] + ([a[|a| - 1]] + b)
  {
  }

  /** Position of x in s. */
  function IndexOf<T(==)>(s: seq<T>, x: T): (i: nat)
    requires x in s
    ensures i < |s| && s[i] == x
  {
    if s[0] == x then 0 else 1 + IndexOf(s[1..], x)
  }
}
