/**
 * The invariant that ties a scheduler's collections and result handles
 * together, stated on plain values, and how each scheduler operation keeps it.
 */
module Invariants {

  import opened Tasks
  import opened Primitives

  /** Pending, ready and executed tasks: within each stage and across stages,
      no two tasks share a sequence number. */
  ghost predicate Stages(pending: seq<Task>, ready: seq<Task>, done: seq<Task>)
  {
    && Unique(pending) && Unique(ready) && Unique(done)
    && Keys(pending) !! Keys(ready)
    && Keys(done) !! Keys(pending) + Keys(ready)
  }

  /** No two sequence numbers share a result handle. */
  ghost predicate Injective<T>(slots: map<int, CompletableFuture<T>>)
  {
    forall k1, k2 :: k1 in slots && k2 in slots && k1 != k2 ==> slots[k1] != slots[k2]
  }

  /** How the tasks and handles of a scheduler fit together:
      - every sequence number sits in exactly one of the stages pending, ready
        and executed, and owns its own handle;
      - the results map holds exactly the handles of pending and ready tasks;
      - the ready queue is FIFO: the tasks dispatched so far are the executed
        ones followed by the ready ones, in the order they were moved;
      - no submitted task is lost or duplicated on its way through;
      - sequence numbers grow with submission and never exceed the counter. */
  ghost predicate Layout<T>(pending: seq<Task>, ready: seq<Task>, done: seq<Task>, dispatched: seq<Task>,
                            submitted: seq<Task>, results: map<int, CompletableFuture<T>>,
                            slots: map<int, CompletableFuture<T>>, count: int)
  {
    && Stages(pending, ready, done)
    && slots.Keys == Keys(pending) + Keys(ready) + Keys(done)
    && Injective(slots)
    && results.Keys == Keys(pending) + Keys(ready)
    && (forall k :: k in results ==> results[k] == slots[k])
    && dispatched == done + ready
    && multiset(submitted) == multiset(pending) + multiset(dispatched)
    && (forall i, j :: 0 <= i < j < |submitted| ==> submitted[i].seqNum < submitted[j].seqNum)
    && (forall t :: t in submitted ==> t.seqNum <= count)
    && (forall k :: k in slots ==> k <= count)
  }

  /** Submitting a task numbered one above the counter, with a new handle. */
  lemma LayoutAfterSubmit<T>(p: seq<Task>, r: seq<Task>, d: seq<Task>, ds: seq<Task>, sub: seq<Task>,
                             res: map<int, CompletableFuture<T>>, sl: map<int, CompletableFuture<T>>,
                             count: int, t: Task, f: CompletableFuture<T>)
    requires Layout(p, r, d, ds, sub, res, sl, count)
    requires t.seqNum == count + 1 && f !in sl.Values
    ensures Layout(p + [t], r, d, ds, sub + [t], res[t.seqNum := f], sl[t.seqNum := f], count + 1)
  {
    AppendKeys(p, t);
    var sub' := sub + [t];
    forall i, j | 0 <= i < j < |sub'|
      ensures sub'[i].seqNum < sub'[j].seqNum
    {
      if j == |sub| {
        assert sub'[i] in sub;
      }
    }
  }

  /** Moving a pending task to the tail of the ready queue. */
  lemma LayoutAfterDispatch<T>(p: seq<Task>, r: seq<Task>, d: seq<Task>, ds: seq<Task>, sub: seq<Task>,
                               res: map<int, CompletableFuture<T>>, sl: map<int, CompletableFuture<T>>,
                               count: int, i: nat)
    requires Layout(p, r, d, ds, sub, res, sl, count) && i < |p|
    ensures Layout(RemoveAt(p, i), r + [p[i]], d, ds + [p[i]], sub, res, sl, count)
  {
    RemoveAtKeys(p, i);
    AppendKeys(r, p[i]);
    assert p[i] in multiset(p);
    assert d + (r + [p[i]]) == (d + r) + [p[i]];
  }

  /** Claiming the head of the ready queue: it joins the executed tasks and its
      handle leaves the results map. */
  lemma LayoutAfterClaim<T>(p: seq<Task>, r: seq<Task>, d: seq<Task>, ds: seq<Task>, sub: seq<Task>,
                            res: map<int, CompletableFuture<T>>, sl: map<int, CompletableFuture<T>>,
                            count: int)
    requires Layout(p, r, d, ds, sub, res, sl, count) && |r| > 0
    ensures Layout(p, r[1..], d + [r[0]], ds, sub, res - {r[0].seqNum}, sl, count)
    ensures r[0].seqNum in res && r[0].seqNum !in Keys(p) && r[0].seqNum !in Keys(d)
    ensures Keys(d + [r[0]]) == Keys(d) + {r[0].seqNum}
  {
    TailKeys(r);
    AppendKeys(d, r[0]);
    assert d + [r[0]] + r[1..] == d + r;
  }

  /** Tasks with equal due times run in the order they arrived: if a task has
      been executed, every task submitted before it with the same due time has
      been executed too, and earlier. */
  lemma EqualTimesRunInArrivalOrder<T>(p: seq<Task>, r: seq<Task>, d: seq<Task>, ds: seq<Task>, sub: seq<Task>,
                                       res: map<int, CompletableFuture<T>>, sl: map<int, CompletableFuture<T>>,
                                       count: int, i: nat, j: nat)
    requires Layout(p, r, d, ds, sub, res, sl, count) && TieOrder(p, ds)
    requires i < j < |sub| && sub[i].time == sub[j].time && sub[j] in d
    ensures sub[i] in d
    ensures forall x, y :: 0 <= x < |d| && 0 <= y < |d| && d[x] == sub[i] && d[y] == sub[j] ==> x < y
  {
    var a, b := sub[i], sub[j];
    assert a.seqNum < b.seqNum;
    assert a in multiset(sub);
    assert b in ds;
    assert a in p ==> ArrivedFirst(b, a);
    assert a in ds;
    var y :| 0 <= y < |d| && d[y] == b;
    var x :| 0 <= x < |ds| && ds[x] == a;
    assert ds[y] == b;
    DispatchedInArrivalOrder(p, ds, x, y);
    assert d[x] == a;
    forall x', y' | 0 <= x' < |d| && 0 <= y' < |d| && d[x'] == a && d[y'] == b
      ensures x' < y'
    {
      assert ds[x'] == a && ds[y'] == b;
      DispatchedInArrivalOrder(p, ds, x', y');
    }
  }

  /** When the smallest pending task is not due, no pending task is. */
  lemma NothingDue(s: seq<Task>, i: nat, now: Instant)
    requires |s| > 0 && i == MinIndex(s) && s[i].time > now
    ensures forall t :: t in s ==> t.time > now
  {
    forall t | t in s
      ensures t.time > now
    {
      var j :| 0 <= j < |s| && s[j] == t;
      assert Compare(s[i], s[j]) <= 0;
    }
  }
}
