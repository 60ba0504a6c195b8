/** The list of threads suspended on an IPC object: rt_ipc_list_suspend (src/ipc.c). */
module IpcList {
  import opened Kernel

  /** Sorted by priority number, most urgent (smallest) first. */
  ghost predicate Sorted(q: seq<Tid>, prio: Tid -> nat) {
    forall i, j :: 0 <= i < j < |q| ==> prio(q[i]) <= prio(q[j])
  }

  /** Index of the first thread that is strictly less urgent than p, or |q|. */
  function Place(q: seq<Tid>, p: nat, prio: Tid -> nat): (i: nat)
    ensures i <= |q|
    ensures forall k :: 0 <= k < i ==> prio(q[k]) <= p
    ensures i < |q| ==> p < prio(q[i])
  {
    if q == [] || p < prio(q[0]) then 0 else 1 + Place(q[1..], p, prio)
  }

  /** The list after t has been suspended on it. */
  function Suspended(q: seq<Tid>, t: Tid, prio: Tid -> nat, flag: IpcFlag): (r: seq<Tid>)
    ensures |r| == |q| + 1
    ensures forall x :: x in r <==> x == t || x in q
  {
    Inserted(q, if flag.Fifo? then |q| else Place(q, prio(t), prio), t)
  }

  lemma SuspendedDistinct(q: seq<Tid>, t: Tid, prio: Tid -> nat, flag: IpcFlag)
    requires Distinct(q) && t !in q
    ensures Distinct(Suspended(q, t, prio, flag))
  {
  }

  /** In a sorted list, Place separates the threads at least as urgent as p from the others. */
  lemma PlaceSplits(q: seq<Tid>, p: nat, prio: Tid -> nat)
    requires Sorted(q, prio)
    ensures forall k :: 0 <= k < |q| ==> (k < Place(q, p, prio) <==> prio(q[k]) <= p)
  {
    var i := Place(q, p, prio);
    forall k | i <= k < |q|
      ensures p < prio(q[k])
    {
      assert prio(q[i]) <= prio(q[k]);
    }
  }

  /** A priority list stays sorted, and the newcomer goes behind every thread of its own priority. */
  lemma SuspendedSorted(q: seq<Tid>, t: Tid, prio: Tid -> nat)
    requires Sorted(q, prio)
    ensures Sorted(Suspended(q, t, prio, Prio), prio)
    ensures exists i :: 0 <= i <= |q| && Suspended(q, t, prio, Prio) == Inserted(q, i, t)
                        && (forall k :: 0 <= k < |q| ==> (k < i <==> prio(q[k]) <= prio(t)))
  {
    PlaceSplits(q, prio(t), prio);
    assert Suspended(q, t, prio, Prio) == Inserted(q, Place(q, prio(t), prio), t);
  }

  /** The walk of the source: stop in front of the first thread that is less urgent. */
  method Suspend(q: seq<Tid>, t: Tid, prio: Tid -> nat, flag: IpcFlag) returns (r: seq<Tid>)
    ensures r == Suspended(q, t, prio, flag)
  {
    match flag
    case Fifo =>
      r := q + [t];
      assert r == Suspended(q, t, prio, flag);
    case Prio =>
      var n := 0;
      while n < |q| && !(prio(t) < prio(q[n]))
        invariant n <= |q|
        invariant n + Place(q[n..], prio(t), prio) == Place(q, prio(t), prio)
      {
        assert q[n..][1..] == q[n + 1..];
        n := n + 1;
      }
      r := q[..n] + [t] + q[n..];
  }
}
