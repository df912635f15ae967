/** The task queue and the descendant counters of the processes. */
module Tasks {

  /** A scheduler task. Its birth number orders the tasks by their forks. */
  class Task {
    const pid: nat
    const ppid: nat
    ghost const birth: nat
    var prev: Task?
    var next: Task?

    constructor (pid: nat, ppid: nat, ghost birth: nat)
      ensures this.pid == pid && this.ppid == ppid && this.birth == birth && next == null
    {
      this.pid, this.ppid, this.birth := pid, ppid, birth;
      prev, next := null, null;
    }
  }

  // ----- The process tree -----

  predicate Live(t: seq<Task?>, p: nat)
  {
    p < |t| && t[p] != null
  }

  /** Process 0 lives, and every other live process has a live parent that is older. */
  ghost predicate Rooted(t: seq<Task?>)
  {
    && Live(t, 0)
    && forall p: nat :: Live(t, p) ==>
         t[p].pid == p && (p != 0 ==> Live(t, t[p].ppid) && t[t[p].ppid].birth < t[p].birth)
  }

  /** The proper ancestors of p: the walk over parents ends at process 0. */
  ghost function Ancestors(t: seq<Task?>, p: nat): set<nat>
    requires Rooted(t) && Live(t, p)
    decreases t[p].birth
  {
    if p == 0 then {} else {t[p].ppid} + Ancestors(t, t[p].ppid)
  }

  /** The live descendants of q. */
  ghost function Descendants(t: seq<Task?>, q: nat): set<nat>
    requires Rooted(t)
  {
    set p: nat | p < |t| && t[p] != null && q in Ancestors(t, p)
  }

  /** What the walk from p visits: p, then its ancestors. */
  ghost function Chain(t: seq<Task?>, p: nat): set<nat>
    requires Rooted(t) && Live(t, p)
  {
    {p} + Ancestors(t, p)
  }

  lemma {:induction false} AncestorsOlder(t: seq<Task?>, p: nat, q: nat)
    requires Rooted(t) && Live(t, p) && q in Ancestors(t, p)
    ensures Live(t, q) && t[q].birth < t[p].birth
    decreases t[p].birth
  {
    if q != t[p].ppid {
      AncestorsOlder(t, t[p].ppid, q);
    }
  }

  lemma {:induction false} ChainEnds(t: seq<Task?>, p: nat)
    requires Rooted(t) && Live(t, p)
    ensures 0 in Chain(t, p)
    decreases t[p].birth
  {
    if p != 0 {
      ChainEnds(t, t[p].ppid);
    }
  }

  /** Ancestors do not depend on processes that are not among them. */
  lemma {:induction false} AncestorsSame(t: seq<Task?>, t': seq<Task?>, k: nat, p: nat)
    requires Rooted(t) && Rooted(t') && |t'| == |t| && k < |t| && t' == t[k := t'[k]]
    requires Live(t, p) && p != k && k !in Ancestors(t, p)
    ensures Ancestors(t', p) == Ancestors(t, p)
    decreases t[p].birth
  {
    if p != 0 {
      AncestorsSame(t, t', k, t[p].ppid);
    }
  }

  /** A new process joins the descendants of its ancestors. */
  lemma Born(t: seq<Task?>, k: nat, x: Task, q: nat)
    requires Rooted(t) && 0 < k < |t| && t[k] == null && x.pid == k && Live(t, x.ppid) && t[x.ppid].birth < x.birth
    ensures Rooted(t[k := x])
    ensures Descendants(t[k := x], q) == Descendants(t, q) + if q in Chain(t, x.ppid) then {k} else {}
    ensures k !in Descendants(t, q)
  {
    var t' := t[k := x];
    assert Live(t', x.ppid);
    forall p: nat | Live(t, p)
      ensures Ancestors(t', p) == Ancestors(t, p)
    {
      if k in Ancestors(t, p) {
        AncestorsOlder(t, p, k);
      }
      AncestorsSame(t, t', k, p);
    }
    assert Ancestors(t', k) == Chain(t, x.ppid);
  }

  /** A process without descendants leaves those of its ancestors. */
  lemma Gone(t: seq<Task?>, k: nat, q: nat)
    requires Rooted(t) && 0 < k < |t| && Live(t, k) && Descendants(t, k) == {}
    ensures Rooted(t[k := null])
    ensures Descendants(t[k := null], q) == Descendants(t, q) - {k}
    ensures k in Descendants(t, q) <==> q in Chain(t, t[k].ppid)
  {
    var t' := t[k := null];
    forall p: nat | Live(t', p) && p != 0
      ensures t[p].ppid != k
    {
      assert p !in Descendants(t, k);
    }
    assert Rooted(t');
    forall p: nat | Live(t', p)
      ensures Ancestors(t', p) == Ancestors(t, p)
    {
      assert p !in Descendants(t, k);
      AncestorsSame(t, t', k, p);
    }
  }

  /** A process with descendants has a child. */
  lemma {:induction false} ChildOf(t: seq<Task?>, p: nat, q: nat) returns (c: nat)
    requires Rooted(t) && Live(t, p) && q in Ancestors(t, p)
    ensures Live(t, c) && c != 0 && t[c].ppid == q
    decreases t[p].birth
  {
    if t[p].ppid == q {
      c := p;
    } else {
      c := ChildOf(t, t[p].ppid, q);
    }
  }

  /** Freeing a process that has descendants leaves one without a live parent. */
  lemma Orphaned(t: seq<Task?>, k: nat)
    requires Rooted(t) && Live(t, k) && Descendants(t, k) != {}
    ensures !Rooted(t[k := null])
  {
    var p :| p in Descendants(t, k);
    var c := ChildOf(t, p, k);
    assert Live(t[k := null], c);
  }

  // ----- The queue -----

  /** The neighbours of task i; the head points back to the tail. */
  ghost function NextOf(order: seq<Task>, i: nat): Task?
  {
    if i + 1 < |order| then order[i + 1] else null
  }

  ghost function PrevOf(order: seq<Task>, i: nat): Task?
    requires i < |order|
  {
    if i == 0 then order[|order| - 1] else order[i - 1]
  }

  ghost predicate Linked(order: seq<Task>)
    reads order
  {
    |order| > 0 && forall i: nat :: i < |order| ==>
      order[i].next == NextOf(order, i) && order[i].prev == PrevOf(order, i)
  }

  /** The list is in fork order. */
  ghost predicate InForkOrder(order: seq<Task>)
  {
    forall i, j :: 0 <= i < j < |order| ==> order[i].birth < order[j].birth
  }

  /** The list holds exactly the live tasks. */
  ghost predicate Lists(order: seq<Task>, t: seq<Task?>)
  {
    && (forall i :: 0 <= i < |order| ==> order[i].pid < |t| && t[order[i].pid] == order[i])
    && (forall p: nat :: Live(t, p) ==> t[p] in order)
  }

  /** No task is listed twice. */
  lemma Once(order: seq<Task>, i: nat)
    requires InForkOrder(order) && i < |order|
    ensures forall j :: 0 <= j < |order| && j != i ==> order[j] != order[i]
  {
  }

  function Without(order: seq<Task>, k: nat): (r: seq<Task>)
    requires k < |order|
    ensures |r| == |order| - 1
    ensures forall i :: 0 <= i < |r| ==> r[i] == if i < k then order[i] else order[i + 1]
  {
    seq(|order| - 1, i requires 0 <= i < |order| - 1 => if i < k then order[i] else order[i + 1])
  }

  /** Appending a new task, with the links as the code sets them. */
  lemma Appended(order: seq<Task>, x: Task, t: seq<Task?>)
    requires InForkOrder(order) && Lists(order, t) && 0 < x.pid < |t| && t[x.pid] == null
    requires forall i :: 0 <= i < |order| ==> order[i].birth < x.birth
    ensures InForkOrder(order + [x]) && Lists(order + [x], t[x.pid := x])
  {
    forall i | 0 <= i < |order|
      ensures t[x.pid := x][order[i].pid] == order[i]
    {
    }
  }

  lemma RemovedOrder(order: seq<Task>, k: nat)
    requires InForkOrder(order) && k < |order|
    ensures InForkOrder(Without(order, k))
  {
    var r := Without(order, k);
    forall i, j | 0 <= i < j < |r|
      ensures r[i].birth < r[j].birth
    {
      assert r[i] == order[if i < k then i else i + 1] && r[j] == order[if j < k then j else j + 1];
    }
  }

  lemma Removed(order: seq<Task>, k: nat, t: seq<Task?>)
    requires InForkOrder(order) && Lists(order, t) && k < |order|
    requires forall p: nat :: Live(t, p) ==> t[p].pid == p
    ensures InForkOrder(Without(order, k)) && Lists(Without(order, k), t[order[k].pid := null])
  {
    hide InForkOrder;
    RemovedOrder(order, k);
    Once(order, k);
    var r, t' := Without(order, k), t[order[k].pid := null];
    forall i | 0 <= i < |r|
      ensures r[i].pid < |t'| && t'[r[i].pid] == r[i]
    {
      assert r[i] == order[if i < k then i else i + 1];
    }
    forall p: nat | Live(t', p)
      ensures t'[p] in r
    {
      var j := InList(order, t, p);
      assert r[if j < k then j else j - 1] == t[p];
    }
  }

  lemma NextAppended(o: seq<Task>, x: Task, j: nat)
    requires j <= |o| && |o| > 0
    ensures NextOf(o + [x], j) == if j + 1 < |o| then NextOf(o, j) else if j + 1 == |o| then x else null
    ensures PrevOf(o + [x], j) == if j == 0 then x else if j < |o| then PrevOf(o, j) else o[|o| - 1]
  {
  }

  lemma NextWithout(o: seq<Task>, k: nat, j: nat)
    requires 0 < k < |o| && j + 1 < |o|
    ensures NextOf(Without(o, k), j) == NextOf(o, if j < k - 1 then j else j + 1)
    ensures PrevOf(Without(o, k), j) ==
            if j == 0 then (if k + 1 == |o| then o[k - 1] else PrevOf(o, 0)) else PrevOf(o, if j <= k then j else j + 1)
  {
  }

  lemma NextIs(o: seq<Task>, i: nat)
    requires i < |o|
    ensures NextOf(o, i) == if i + 1 < |o| then o[i + 1] else null
    ensures PrevOf(o, i) == if i == 0 then o[|o| - 1] else o[i - 1]
  {
  }

  /** The counters hold the numbers of live descendants. */
  ghost predicate Counted(children: seq<int>, t: seq<Task?>)
    requires Rooted(t)
  {
    |children| == |t| && forall q: nat :: q < |t| ==> children[q] == |Descendants(t, q)|
  }

  /** The counters c' are c with delta added along the walk from p. */
  ghost predicate Adjusted(c: seq<int>, c': seq<int>, t: seq<Task?>, p: nat, delta: int)
    requires Rooted(t) && Live(t, p)
  {
    && |c| == |c'| == |t|
    && forall q: nat :: q < |t| ==> c'[q] == c[q] + if q in Chain(t, p) then delta else 0
  }

  lemma BornCounted(t: seq<Task?>, c: seq<int>, c': seq<int>, x: Task)
    requires Rooted(t) && Counted(c, t) && 0 < x.pid < |t| && t[x.pid] == null
    requires Live(t, x.ppid) && t[x.ppid].birth < x.birth && Adjusted(c, c', t, x.ppid, 1)
    ensures Rooted(t[x.pid := x]) && Counted(c', t[x.pid := x])
  {
    hide Rooted, Descendants, Chain;
    Born(t, x.pid, x, 0);
    forall q: nat | q < |t|
      ensures c'[q] == |Descendants(t[x.pid := x], q)|
    {
      Born(t, x.pid, x, q);
    }
  }

  lemma GoneCounted(t: seq<Task?>, c: seq<int>, c': seq<int>, k: nat)
    requires Rooted(t) && Counted(c, t) && 0 < k && Live(t, k) && Live(t, t[k].ppid) && c[k] == 0
    requires Adjusted(c, c', t, t[k].ppid, -1)
    ensures Rooted(t[k := null]) && Counted(c', t[k := null])
  {
    hide Rooted, Descendants, Chain;
    assert Descendants(t, k) == {};
    Gone(t, k, 0);
    forall q: nat | q < |t|
      ensures c'[q] == |Descendants(t[k := null], q)|
    {
      Gone(t, k, q);
    }
  }

  lemma SomeLeft(t: seq<Task?>, c: seq<int>, k: nat)
    requires Rooted(t) && Counted(c, t) && Live(t, k) && k < |c| && c[k] != 0
    ensures !Rooted(t[k := null])
  {
    hide Rooted, Descendants;
    Orphaned(t, k);
  }

  class Scheduler {
    const queue: Task
    var table: seq<Task?>
    var children: seq<int>
    ghost var order: seq<Task>
    ghost var born: nat

    ghost predicate Valid()
      reads this, order
    {
      && Rooted(table) && Counted(children, table)
      && |order| > 0 && order[0] == queue && queue.pid == 0 && Linked(order)
      && InForkOrder(order) && Lists(order, table)
      && forall i :: 0 <= i < |order| ==> order[i].birth < born
    }

    /** scheduler_init: process 0 alone. */
    constructor (limit: nat)
      requires limit > 0
      ensures Valid() && fresh(queue) && order == [queue] && |table| == limit
      ensures forall p: nat :: Live(table, p) <==> p == 0
    {
      var head := new Task(0, 0, 0);
      head.prev := head;
      queue := head;
      table := [head] + seq(limit - 1, i => null);
      children := seq(limit, i => 0);
      order := [head];
      born := 1;
      new;
      assert Rooted(table);
      forall q: nat | q < limit
        ensures Descendants(table, q) == {}
      {
      }
    }

    /** The walk over p and its ancestors, which ends at process 0, adding delta to each counter once. */
    method Adjust(p: nat, delta: int)
      requires Rooted(table) && Live(table, p) && |children| == |table|
      modifies `children
      ensures Adjusted(old(children), children, table, p, delta)
    {
      var temp := p;
      while temp != 0
        invariant Live(table, temp) && |children| == |table|
        invariant Chain(table, temp) <= Chain(table, p)
        invariant forall q: nat :: q < |table| ==>
          children[q] == old(children)[q] + if q in Chain(table, p) && q !in Chain(table, temp) then delta else 0
        decreases table[temp].birth
      {
        assert temp !in Chain(table, table[temp].ppid) by {
          if temp in Ancestors(table, table[temp].ppid) {
            AncestorsOlder(table, table[temp].ppid, temp);
          }
        }
        children := children[temp := children[temp] + delta];
        temp := table[temp].ppid;
      }
      children := children[0 := children[0] + delta];
    }

    /** The new task goes behind the tail. */
    method Append(task: Task)
      requires Linked(order) && InForkOrder(order) && order[0] == queue && task !in order && task.next == null
      modifies this`order, order, task
      ensures order == old(order) + [task] && Linked(order)
    {
      hide InForkOrder, NextOf, PrevOf;
      ghost var o := order;
      var temp := queue;
      ghost var i: nat := 0;
      while temp.next != null
        invariant i < |o| && o[i] == temp && order == o && Linked(o)
        invariant task.next == null && task !in o
        decreases |o| - i
      {
        NextIs(o, i);
        temp := temp.next;
        i := i + 1;
      }
      NextIs(o, i);
      Once(o, i);
      Once(o, 0);
      task.prev := temp;
      temp.next := task;
      queue.prev := task;
      order := order + [task];
      forall j: nat | j < |order|
        ensures order[j].next == NextOf(order, j) && order[j].prev == PrevOf(order, j)
      {
        NextAppended(o, task, j);
      }
    }

    /** task_free: the task leaves the queue. */
    method Unlink(task: Task, ghost k: nat)
      requires Linked(order) && InForkOrder(order) && order[0] == queue && 0 < k < |order| && order[k] == task
      modifies this`order, order
      ensures order == Without(old(order), k) && Linked(order)
    {
      hide InForkOrder, NextOf, PrevOf;
      ghost var o, r := order, Without(order, k);
      Once(o, k - 1);
      Once(o, 0);
      if k + 1 < |o| {
        Once(o, k + 1);
      }
      NextIs(o, k);
      task.prev.next := task.next;
      if task.next == null {
        queue.prev := task.prev;
      } else {
        task.next.prev := task.prev;
      }
      order := r;
      forall j: nat | j < |r|
        ensures r[j].next == NextOf(r, j) && r[j].prev == PrevOf(r, j)
      {
        NextWithout(o, k, j);
        NextIs(o, if j < k then j else j + 1);
        NextIs(o, if j <= k then j else j + 1);
      }
    }

    /** The lowest process number that is not in use. */
    method FreePid() returns (pid: nat)
      requires Rooted(table)
      ensures 1 <= pid && forall p: nat :: p < pid && p < |table| ==> Live(table, p)
      ensures pid < |table| ==> table[pid] == null
    {
      pid := 1;
      while pid < |table|
        invariant 1 <= pid && forall p: nat :: p < pid && p < |table| ==> Live(table, p)
      {
        if table[pid] == null {
          return;
        }
        pid := pid + 1;
      }
    }

    /**
     The queue and counter parts of a fork: the lowest free process number is
     taken, the new task joins the end of the queue, and the counter of each
     ancestor grows by one. Without a free number nothing changes.
     */
    method Fork(parent: nat) returns (pid: nat)
      requires Valid() && Live(table, parent)
      modifies this, order
      ensures Valid()
      ensures pid == 0 <==> forall p: nat :: p < |old(table)| ==> Live(old(table), p)
      ensures pid == 0 ==> table == old(table) && order == old(order) && children == old(children)
      ensures pid != 0 ==>
        && pid < |old(table)| && old(table)[pid] == null && (forall p: nat :: p < pid ==> Live(old(table), p))
        && Live(table, pid) && table == old(table)[pid := table[pid]] && table[pid].ppid == parent
        && order == old(order) + [table[pid]] && fresh(table[pid])
    {
      hide Rooted, Counted, Linked, InForkOrder, Lists, Chain, Adjusted;
      pid := FreePid();
      if pid >= |table| {
        pid := 0;
        return;
      }
      var task := new Task(pid, parent, born);
      ghost var t, c, o := table, children, order;
      assert t[parent].birth < born by { var _ := InList(o, t, parent); }
      assert |children| == |table| by { CountersFit(children, table); }
      Adjust(parent, 1);
      BornCounted(t, c, children, task);
      Appended(o, task, t);
      Append(task);
      table := table[pid := task];
      born := born + 1;
      assert !Live(t, pid) && order[0] == o[0];
      assert forall i :: 0 <= i < |o| ==> order[i] == o[i];
    }

    /**
     process_free: the task leaves the queue, the others keep their order, and
     the counter of each ancestor drops by one. The tables stay sound exactly
     when the process has no live descendants; a number not in use is ignored.
     */
    method Free(pid: nat) returns (ghost k: nat)
      requires Valid() && pid != 0
      modifies this, order
      ensures Live(old(table), pid) ==> pid < |old(children)| && (Valid() <==> old(children)[pid] == 0)
      ensures Live(old(table), pid) ==>
        && Rooted(old(table)) && Live(old(table), old(table)[pid].ppid)
        && Adjusted(old(children), children, old(table), old(table)[pid].ppid, -1)
      ensures !Live(old(table), pid) ==>
              Valid() && table == old(table) && order == old(order) && children == old(children)
      ensures Live(old(table), pid) ==>
        && table == old(table)[pid := null]
        && 0 < k < |old(order)| && old(order)[k] == old(table)[pid] && order == Without(old(order), k)
    {
      hide Rooted, Counted, Linked, InForkOrder, Lists, Chain, Adjusted;
      k := 0;
      if pid >= |table| || table[pid] == null {
        return;
      }
      var task := table[pid];
      ghost var t, c, o := table, children, order;
      RootedAt(t, pid);
      k := InList(o, t, pid);
      assert |children| == |table| by { CountersFit(children, table); }
      Adjust(task.ppid, -1);
      if c[pid] == 0 {
        GoneCounted(t, c, children, pid);
      } else {
        SomeLeft(t, c, pid);
      }
      assert forall p: nat :: Live(t, p) ==> t[p].pid == p by { RootedPids(t); }
      Removed(o, k, t);
      Unlink(task, k);
      table := table[pid := null];
    }

    /**
     Every run of forks and frees keeps the queue in fork order, the links and
     the counters exact. A fork needs a live parent, and a process is freed only
     when its counter says that no descendant lives.
     */
    method Run(calls: seq<Call>)
      requires Valid()
      modifies this, order
      ensures Valid() && |table| == |old(table)|
      ensures forall k :: 0 <= k < |order| ==> order[k] in old(order) || fresh(order[k])
    {
      hide Rooted, Counted, Linked, InForkOrder, Lists;
      for i := 0 to |calls|
        invariant Valid() && |table| == |old(table)|
        invariant forall k :: 0 <= k < |order| ==> order[k] in old(order) || fresh(order[k])
      {
        CountersFit(children, table);
        match calls[i]
        case Forks(parent) =>
          if parent < |table| && table[parent] != null {
            var _ := Fork(parent);
          }
        case Frees(pid) =>
          if pid != 0 && pid < |table| && children[pid] == 0 {
            var _ := Free(pid);
          }
      }
    }
  }

  datatype Call = Forks(parent: nat) | Frees(pid: nat)

  lemma CountersFit(c: seq<int>, t: seq<Task?>)
    requires Rooted(t) && Counted(c, t)
    ensures |c| == |t|
  {
  }

  lemma RootedAt(t: seq<Task?>, p: nat)
    requires Rooted(t) && Live(t, p)
    ensures t[p].pid == p && Live(t, 0) && (p != 0 ==> Live(t, t[p].ppid))
  {
  }

  lemma RootedPids(t: seq<Task?>)
    requires Rooted(t)
    ensures forall p: nat :: Live(t, p) ==> t[p].pid == p
  {
  }

  lemma InList(o: seq<Task>, t: seq<Task?>, p: nat) returns (k: nat)
    requires Lists(o, t) && Live(t, p)
    ensures k < |o| && o[k] == t[p]
  {
    k :| k < |o| && o[k] == t[p];
  }
}
