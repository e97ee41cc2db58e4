/**
 * Tasks of the scheduler, the total order the pending store uses to hand them
 * out, and the pending store itself: a bag of tasks from which the smallest
 * task is peeked and taken.
 */
module Tasks {

  /** An instant on the scheduler's clock; the source uses LocalDateTime, here
      a whole number of nanoseconds. */
  type Instant = int

  /** The identity of a submitted computation. What it computes is not part of
      the order; the worker step receives its outcome as a parameter. */
  type CallableRef = nat

  /** A submitted task: its sequence number, its due time and its computation. */
  datatype Task = Task(seqNum: int, time: Instant, callable: CallableRef)

  /** Long.compare, and the sign of LocalDateTime.compareTo (only the sign of
      the latter is ever used). */
  function CompareValues(x: int, y: int): (r: int)
    ensures -1 <= r <= 1
    ensures r < 0 <==> x < y
    ensures r == 0 <==> x == y
  {
    if x < y then -1 else if x == y then 0 else 1
  }

  /** Task.compareTo: the due time decides, and the sequence number breaks ties. */
  function Compare(a: Task, b: Task): (r: int)
    ensures -1 <= r <= 1
    ensures a.time < b.time ==> r < 0
    ensures a.time > b.time ==> r > 0
    ensures a.time == b.time ==> (r < 0 <==> a.seqNum < b.seqNum)
    ensures r == 0 <==> a.time == b.time && a.seqNum == b.seqNum
  {
    var dateComparison := CompareValues(a.time, b.time);
    if dateComparison == 0 then CompareValues(a.seqNum, b.seqNum) else dateComparison
  }

  /** Compare is antisymmetric: swapping the operands negates the result. */
  lemma CompareAntisymmetric(a: Task, b: Task)
    ensures Compare(a, b) == -Compare(b, a)
  {
  }

  /** Compare is transitive, strictly so when either step is strict. */
  lemma CompareTransitive(a: Task, b: Task, c: Task)
    requires Compare(a, b) <= 0 && Compare(b, c) <= 0
    ensures Compare(a, c) <= 0
    ensures Compare(a, b) < 0 || Compare(b, c) < 0 ==> Compare(a, c) < 0
  {
  }

  /** Tasks that compare equal compare alike against every other task. */
  lemma CompareZeroSubstitutes(a: Task, b: Task, c: Task)
    requires Compare(a, b) == 0
    ensures Compare(a, c) == Compare(b, c)
  {
  }

  /** A task that precedes a due task is itself due. This is the order fact
      behind the dispatcher taking a task other than the one it peeked (one
      inserted in between); the interleaving itself is not modelled. */
  lemma PrecedingTaskIsDue(a: Task, b: Task, now: Instant)
    requires Compare(a, b) <= 0 && b.time <= now
    ensures a.time <= now
  {
  }

  /** The sequence numbers of the tasks in s. */
  function Keys(s: seq<Task>): set<int>
  {
    set t | t in s :: t.seqNum
  }

  /** No two tasks of s share a sequence number. */
  predicate Unique(s: seq<Task>)
  {
    forall i, j :: 0 <= i < j < |s| ==> s[i].seqNum != s[j].seqNum
  }

  /** s is strictly increasing in the task order. */
  predicate Ascending(s: seq<Task>)
  {
    forall i, j :: 0 <= i < j < |s| ==> Compare(s[i], s[j]) < 0
  }

  /** The position of the smallest task of the pending store: what peek returns. */
  function MinIndex(s: seq<Task>): (i: nat)
    requires |s| > 0
    ensures i < |s|
    ensures forall j :: 0 <= j < |s| ==> Compare(s[i], s[j]) <= 0
  {
    if |s| == 1 then 0
    else
      var k := MinIndex(s[1..]) + 1;
      if Compare(s[0], s[k]) <= 0 then 0 else k
  }

  /** The pending store after take has removed the task at position i. */
  function RemoveAt(s: seq<Task>, i: nat): (r: seq<Task>)
    requires i < |s|
    ensures |r| == |s| - 1
    ensures multiset(r) == multiset(s) - multiset{s[i]}
    ensures forall t :: t in r ==> t in s
  {
    assert s == s[..i] + [s[i]] + s[i + 1..];
    s[..i] + s[i + 1..]
  }

  /** Removing one task keeps the sequence numbers unique and removes exactly
      that task's number. */
  lemma RemoveAtKeys(s: seq<Task>, i: nat)
    requires i < |s| && Unique(s)
    ensures Unique(RemoveAt(s, i))
    ensures Keys(RemoveAt(s, i)) == Keys(s) - {s[i].seqNum}
  {
    var r := RemoveAt(s, i);
    forall j | 0 <= j < |r|
      ensures r[j] == s[if j < i then j else j + 1]
    {
    }
    forall k | k in Keys(s) - {s[i].seqNum}
      ensures k in Keys(r)
    {
      var t :| t in s && t.seqNum == k;
      var m :| 0 <= m < |s| && s[m] == t;
      assert m != i;
      assert r[if m < i then m else m - 1] == t;
    }
  }

  /** Appending a task with a new sequence number keeps the numbers unique. */
  lemma AppendKeys(s: seq<Task>, t: Task)
    requires Unique(s) && t.seqNum !in Keys(s)
    ensures Unique(s + [t])
    ensures Keys(s + [t]) == Keys(s) + {t.seqNum}
  {
    var r := s + [t];
    forall i, j | 0 <= i < j < |r|
      ensures r[i].seqNum != r[j].seqNum
    {
      if j == |s| {
        assert r[i] in s;
      }
    }
  }

  /** Dropping the head keeps the sequence numbers unique and removes exactly
      the head's number. */
  lemma TailKeys(s: seq<Task>)
    requires |s| > 0 && Unique(s)
    ensures Unique(s[1..])
    ensures Keys(s[1..]) == Keys(s) - {s[0].seqNum}
  {
    RemoveAtKeys(s, 0);
    assert RemoveAt(s, 0) == s[1..];
  }

  /** Repeated dispatcher steps at one instant `now`: while the smallest pending
      task is due, take it and hand it on. Yields the tasks left pending and the
      tasks moved, in the order they were moved. */
  function Dispatch(pending: seq<Task>, now: Instant): (r: (seq<Task>, seq<Task>))
    ensures |r.0| + |r.1| == |pending|
    ensures r.1 == [] ==> r.0 == pending
    decreases |pending|
  {
    if |pending| == 0 then (pending, [])
    else
      var i := MinIndex(pending);
      if pending[i].time <= now then
        var (rest, moved) := Dispatch(RemoveAt(pending, i), now);
        (rest, [pending[i]] + moved)
      else (pending, [])
  }

  /** Draining the pending store at `now` loses no task and invents none. */
  lemma {:induction false} DispatchConserves(pending: seq<Task>, now: Instant)
    ensures multiset(Dispatch(pending, now).0) + multiset(Dispatch(pending, now).1) == multiset(pending)
    decreases |pending|
  {
    if |pending| > 0 {
      var i := MinIndex(pending);
      if pending[i].time <= now {
        var s := RemoveAt(pending, i);
        DispatchConserves(s, now);
        var rest, moved := Dispatch(s, now).0, Dispatch(s, now).1;
        assert Dispatch(pending, now) == (rest, [pending[i]] + moved);
        assert multiset([pending[i]] + moved) == multiset{pending[i]} + multiset(moved);
        assert pending[i] in multiset(pending);
        assert multiset(pending) == multiset(s) + multiset{pending[i]};
      }
    }
  }

  /** Draining the pending store at `now` moves every due task and no other:
      what is moved is due, and what stays is not. */
  lemma {:induction false} DispatchMovesExactlyDue(pending: seq<Task>, now: Instant)
    ensures forall t :: t in Dispatch(pending, now).1 ==> t.time <= now
    ensures forall t :: t in Dispatch(pending, now).0 ==> t.time > now
    decreases |pending|
  {
    if |pending| > 0 {
      var i := MinIndex(pending);
      if pending[i].time <= now {
        DispatchMovesExactlyDue(RemoveAt(pending, i), now);
      } else {
        forall t | t in pending
          ensures t.time > now
        {
          var j :| 0 <= j < |pending| && pending[j] == t;
          assert Compare(pending[i], pending[j]) <= 0;
        }
      }
    }
  }

  /** With unique sequence numbers, draining the pending store moves tasks in
      strictly increasing (time, seqNum) order, each ahead of every task left. */
  lemma {:induction false} DispatchAscending(pending: seq<Task>, now: Instant)
    requires Unique(pending)
    ensures Ascending(Dispatch(pending, now).1)
    ensures forall t, u :: t in Dispatch(pending, now).1 && u in Dispatch(pending, now).0 ==> Compare(t, u) < 0
    decreases |pending|
  {
    if |pending| > 0 {
      var i := MinIndex(pending);
      if pending[i].time <= now {
        var m := pending[i];
        var s := RemoveAt(pending, i);
        RemoveAtKeys(pending, i);
        DispatchAscending(s, now);
        DispatchConserves(s, now);
        var rest, moved := Dispatch(s, now).0, Dispatch(s, now).1;
        assert Dispatch(pending, now) == (rest, [m] + moved);
        MinPrecedesOthers(pending, i);
        DispatchWithin(s, now);
        AscendingCons(m, moved);
        forall t, u | t in [m] + moved && u in rest
          ensures Compare(t, u) < 0
        {
          if t != m {
            assert t in moved;
          }
        }
      }
    }
  }

  /** Everything that draining yields, moved or left, was pending before. */
  lemma DispatchWithin(pending: seq<Task>, now: Instant)
    ensures forall t :: t in Dispatch(pending, now).0 ==> t in pending
    ensures forall t :: t in Dispatch(pending, now).1 ==> t in pending
  {
    DispatchConserves(pending, now);
    var rest, moved := Dispatch(pending, now).0, Dispatch(pending, now).1;
    forall t | t in rest
      ensures t in pending
    {
      assert t in multiset(rest);
    }
    forall t | t in moved
      ensures t in pending
    {
      assert t in multiset(moved);
    }
  }

  /** In a store with unique sequence numbers, the smallest task strictly
      precedes every other task. */
  lemma MinPrecedesOthers(s: seq<Task>, i: nat)
    requires Unique(s) && i < |s| && i == MinIndex(s)
    ensures forall t :: t in RemoveAt(s, i) ==> Compare(s[i], t) < 0
  {
    RemoveAtKeys(s, i);
    forall t | t in RemoveAt(s, i)
      ensures Compare(s[i], t) < 0
    {
      assert t.seqNum in Keys(RemoveAt(s, i));
    }
  }

  /** A task ahead of every task of an ascending sequence extends it. */
  lemma AscendingCons(m: Task, s: seq<Task>)
    requires Ascending(s) && forall t :: t in s ==> Compare(m, t) < 0
    ensures Ascending([m] + s)
  {
    var r := [m] + s;
    forall i, j | 0 <= i < j < |r|
      ensures Compare(r[i], r[j]) < 0
    {
      if i > 0 {
        assert r[i] == s[i - 1] && r[j] == s[j - 1];
      } else {
        assert r[j] in s;
      }
    }
  }

  /** Of two tasks, the first is not behind the second in arrival order when
      they are due at the same time. */
  predicate ArrivedFirst(d: Task, u: Task)
  {
    d.time == u.time ==> d.seqNum < u.seqNum
  }

  /** Tasks with equal due times leave the pending store in arrival order:
      among the dispatched tasks, equal times appear in increasing sequence
      number, and a dispatched task has a smaller number than every pending
      task with the same time. The quantifiers fire only on ArrivedFirst
      terms, so they stay out of unrelated proofs. */
  ghost predicate TieOrder(pending: seq<Task>, dispatched: seq<Task>)
  {
    && (forall i, j {:trigger ArrivedFirst(dispatched[i], dispatched[j])} ::
          0 <= i < j < |dispatched| ==> ArrivedFirst(dispatched[i], dispatched[j]))
    && (forall d, u {:trigger ArrivedFirst(d, u)} :: d in dispatched && u in pending ==> ArrivedFirst(d, u))
  }

  /** A task numbered above every submitted one keeps equal-time tasks in
      arrival order when it joins the pending store. */
  lemma TieOrderAfterSubmit(p: seq<Task>, ds: seq<Task>, sub: seq<Task>, count: int, t: Task)
    requires TieOrder(p, ds) && multiset(sub) == multiset(p) + multiset(ds)
    requires (forall u :: u in sub ==> u.seqNum <= count) && t.seqNum == count + 1
    ensures TieOrder(p + [t], ds)
  {
    forall dd, u | dd in ds && u in p + [t]
      ensures ArrivedFirst(dd, u)
    {
      if u != t {
        assert u in p && ArrivedFirst(dd, u);
      } else {
        assert dd in multiset(ds);
        assert dd in multiset(sub);
      }
    }
  }

  /** Taking the smallest pending task keeps equal-time tasks in arrival order:
      it follows every dispatched task of its time and precedes every pending one. */
  lemma TieOrderAfterDispatch(p: seq<Task>, ds: seq<Task>, i: nat)
    requires TieOrder(p, ds) && Unique(p) && |p| > 0 && i == MinIndex(p)
    ensures TieOrder(RemoveAt(p, i), ds + [p[i]])
  {
    MinPrecedesOthers(p, i);
    var m, rest, ds' := p[i], RemoveAt(p, i), ds + [p[i]];
    forall a, b | 0 <= a < b < |ds'|
      ensures ArrivedFirst(ds'[a], ds'[b])
    {
      if b == |ds| {
        assert ds'[a] in ds && ArrivedFirst(ds'[a], m);
      } else {
        assert ds'[a] == ds[a] && ds'[b] == ds[b] && ArrivedFirst(ds[a], ds[b]);
      }
    }
    forall dd, u | dd in ds' && u in rest
      ensures ArrivedFirst(dd, u)
    {
      assert u in p;
      if dd != m {
        assert dd in ds && ArrivedFirst(dd, u);
      }
    }
  }

  /** Under TieOrder, of two dispatched tasks due at the same time, the one
      that arrived first was dispatched first. */
  lemma DispatchedInArrivalOrder(p: seq<Task>, ds: seq<Task>, x: nat, y: nat)
    requires TieOrder(p, ds) && x < |ds| && y < |ds|
    requires ds[x].time == ds[y].time && ds[x].seqNum < ds[y].seqNum
    ensures x < y
  {
    // names the instance of TieOrder that rules out y < x
    assert ArrivedFirst(ds[y], ds[x]) == (ds[y].seqNum < ds[x].seqNum);
  }
}
