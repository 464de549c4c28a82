/**
 Deferred tasks and the background tasks registered under them. Cancelling a future runs its done
 callback at once, which kills the children again.
 */
module DeferredTask {
  datatype Future = NotStarted | Running | Finished | Cancelled

  datatype ChildTask = ChildTask(task: Task, terminateThread: bool)

  /** The children each task had when the call began. */
  type Graph = map<Task, seq<ChildTask>>

  /** No task is its own descendant: every child has a smaller rank than its parent. */
  ghost predicate Acyclic(g: Graph, rank: map<Task, nat>) {
    g.Keys == rank.Keys && forall t, c :: t in g && c in g[t] ==> c.task in g && rank[c.task] < rank[t]
  }

  ghost function Descendants(g: Graph, rank: map<Task, nat>, t: Task): (r: set<Task>)
    requires Acyclic(g, rank) && t in g
    ensures r <= g.Keys
    decreases rank[t], 1, 0
  {
    {t} + DescendantsOf(g, rank, g[t], rank[t])
  }

  ghost function DescendantsOf(g: Graph, rank: map<Task, nat>, ks: seq<ChildTask>, bound: nat): (r: set<Task>)
    requires Acyclic(g, rank) && forall c :: c in ks ==> c.task in g && rank[c.task] < bound
    ensures r <= g.Keys
    decreases bound, 0, |ks|
  {
    if ks == [] then {} else Descendants(g, rank, ks[0].task) + DescendantsOf(g, rank, ks[1..], bound)
  }

  ghost predicate Done(t: Task)
    reads t
  {
    !t.future.Running?
  }

  /** Tasks in `emptied` have no children left, and those they had are emptied and done; the others still
      have the children of `g`. */
  ghost predicate Inv(g: Graph, emptied: set<Task>)
    reads g.Keys
  {
    && emptied <= g.Keys
    && (forall t :: t in g && t !in emptied ==> t.children == g[t])
    && forall t :: t in emptied ==> t.children == [] && forall c :: c in g[t] ==> c.task in emptied && Done(c.task)
  }

  class Task {
    var future: Future
    var children: seq<ChildTask>

    constructor ()
      ensures future == NotStarted && children == []
    {
      future, children := NotStarted, [];
    }

    method AddChildTask(task: Task, terminateThread: bool)
      modifies this
      ensures children == old(children) + [ChildTask(task, terminateThread)] && future == old(future)
    {
      children := children + [ChildTask(task, terminateThread)];
    }

    method StartTask()
      modifies `future
      ensures future == Running
    {
      future := Running;
    }

    method KillChildren(ghost g: Graph, ghost rank: map<Task, nat>, ghost emptied: set<Task>) returns (ghost now: set<Task>)
      requires Acyclic(g, rank) && this in g && Inv(g, emptied)
      modifies g.Keys
      ensures Inv(g, now) && this in now && emptied <= now <= emptied + Descendants(g, rank, this)
      ensures future == old(future)
      ensures forall t :: t in g && t !in Descendants(g, rank, this) ==> t.future == old(t.future) && t.children == old(t.children)
      ensures forall t :: t in g ==> t.future == old(t.future) || (old(t.future) == Running && t.future == Cancelled)
      ensures this in emptied ==> now == emptied && forall t :: t in g ==> t.future == old(t.future) && t.children == old(t.children)
      decreases rank[this], 1
    {
      StrictlyBelow(g, rank, g[this], rank[this], this);
      now := KillEach(children, g, rank, emptied);
      children := [];
      now := now + {this};
    }

    /** The loop over the children. */
    method KillEach(cs: seq<ChildTask>, ghost g: Graph, ghost rank: map<Task, nat>, ghost emptied: set<Task>) returns (ghost now: set<Task>)
      requires Acyclic(g, rank) && this in g && Inv(g, emptied)
      requires cs == [] || (cs == g[this] && this !in emptied)
      requires this !in DescendantsOf(g, rank, g[this], rank[this])
      modifies g.Keys
      ensures Inv(g, now) && emptied <= now <= emptied + DescendantsOf(g, rank, g[this], rank[this])
      ensures forall c :: c in cs ==> c.task in now && Done(c.task)
      ensures forall t :: t in g && t !in DescendantsOf(g, rank, g[this], rank[this]) ==> t.future == old(t.future) && t.children == old(t.children)
      ensures forall t :: t in g ==> t.future == old(t.future) || (old(t.future) == Running && t.future == Cancelled)
      ensures cs == [] ==> now == emptied && forall t :: t in g ==> t.future == old(t.future) && t.children == old(t.children)
      decreases rank[this], 0
    {
      hide Inv, Descendants, DescendantsOf;
      now := emptied;
      ghost var below := DescendantsOf(g, rank, g[this], rank[this]);
      for i := 0 to |cs|
        invariant Inv(g, now) && emptied <= now <= emptied + below
        invariant forall j :: 0 <= j < i ==> cs[j].task in now
        invariant forall j :: 0 <= j < i ==> Done(cs[j].task)
        invariant forall t :: t in g && t !in below ==> t.future == old(t.future) && t.children == old(t.children)
        invariant forall t :: t in g ==> t.future == old(t.future) || (old(t.future) == Running && t.future == Cancelled)
        invariant cs == [] ==> now == emptied && forall t :: t in g ==> t.future == old(t.future) && t.children == old(t.children)
      {
        var child := cs[i];
        KidBelow(g, rank, g[this], rank[this], i);
        ghost var before := now;
        now := child.task.Kill(child.terminateThread, g, rank, now);
        assert now <= before + Descendants(g, rank, child.task) <= emptied + below;
      }
    }

    /** Thread termination is not part of the model. */
    method Kill(terminateThread: bool, ghost g: Graph, ghost rank: map<Task, nat>, ghost emptied: set<Task>) returns (ghost now: set<Task>)
      requires Acyclic(g, rank) && this in g && Inv(g, emptied)
      modifies g.Keys
      ensures Inv(g, now) && this in now && emptied <= now <= emptied + Descendants(g, rank, this)
      ensures Done(this)
      ensures forall t :: t in g && t !in Descendants(g, rank, this) ==> t.future == old(t.future) && t.children == old(t.children)
      ensures forall t :: t in g ==> t.future == old(t.future) || (old(t.future) == Running && t.future == Cancelled)
      ensures this in emptied && old(Done(this)) ==>
        now == emptied && forall t :: t in g ==> t.future == old(t.future) && t.children == old(t.children)
      decreases rank[this], 4
    {
      now := KillChildren(g, rank, emptied);
      if future.Running? {
        now := Cancel(g, rank, now);
      }
    }

    /** `future.cancel()`: the done callback runs before it returns. */
    method Cancel(ghost g: Graph, ghost rank: map<Task, nat>, ghost emptied: set<Task>) returns (ghost now: set<Task>)
      requires Acyclic(g, rank) && this in g && Inv(g, emptied) && this in emptied && future == Running
      modifies g.Keys
      ensures Inv(g, now) && now == emptied && future == Cancelled
      ensures forall t :: t in g && t != this ==> t.future == old(t.future) && t.children == old(t.children)
      decreases rank[this], 3
    {
      future := Cancelled;
      now := OnTaskDone(g, rank, emptied);
    }

    method OnTaskDone(ghost g: Graph, ghost rank: map<Task, nat>, ghost emptied: set<Task>) returns (ghost now: set<Task>)
      requires Acyclic(g, rank) && this in g && Inv(g, emptied)
      modifies g.Keys
      ensures Inv(g, now) && this in now && emptied <= now <= emptied + Descendants(g, rank, this)
      ensures future == old(future)
      ensures forall t :: t in g && t !in Descendants(g, rank, this) ==> t.future == old(t.future) && t.children == old(t.children)
      ensures forall t :: t in g ==> t.future == old(t.future) || (old(t.future) == Running && t.future == Cancelled)
      ensures this in emptied ==> now == emptied && forall t :: t in g ==> t.future == old(t.future) && t.children == old(t.children)
      decreases rank[this], 2
    {
      now := KillChildren(g, rank, emptied);
    }
  }

  // ---------- Descendants ----------

  lemma {:induction false} KidBelow(g: Graph, rank: map<Task, nat>, ks: seq<ChildTask>, bound: nat, i: nat)
    requires Acyclic(g, rank) && (forall c :: c in ks ==> c.task in g && rank[c.task] < bound) && i < |ks|
    ensures Descendants(g, rank, ks[i].task) <= DescendantsOf(g, rank, ks, bound)
  {
    if i > 0 { KidBelow(g, rank, ks[1..], bound, i - 1); }
  }

  /** Descendants have smaller ranks, so no task is among its own. */
  lemma {:induction false} StrictlyBelow(g: Graph, rank: map<Task, nat>, ks: seq<ChildTask>, bound: nat, t: Task)
    requires Acyclic(g, rank) && (forall c :: c in ks ==> c.task in g && rank[c.task] < bound) && t in g && rank[t] >= bound
    ensures t !in DescendantsOf(g, rank, ks, bound)
    decreases bound, |ks|
  {
    if ks != [] {
      StrictlyBelow(g, rank, g[ks[0].task], rank[ks[0].task], t);
      StrictlyBelow(g, rank, ks[1..], bound, t);
    }
  }

  /** Whatever is below a descendant is one itself. */
  lemma {:induction false} AllBelow(g: Graph, rank: map<Task, nat>, ks: seq<ChildTask>, bound: nat, t: Task)
    requires Acyclic(g, rank) && (forall c :: c in ks ==> c.task in g && rank[c.task] < bound) && t in DescendantsOf(g, rank, ks, bound)
    ensures Descendants(g, rank, t) <= DescendantsOf(g, rank, ks, bound)
    decreases bound, |ks|
  {
    var child := ks[0].task;
    if t in DescendantsOf(g, rank, g[child], rank[child]) {
      AllBelow(g, rank, g[child], rank[child], t);
    } else if t != child {
      AllBelow(g, rank, ks[1..], bound, t);
    }
  }

  /** Below an emptied task everything is emptied and done. */
  lemma {:induction false} AllBelowDone(g: Graph, rank: map<Task, nat>, emptied: set<Task>, ks: seq<ChildTask>, bound: nat)
    requires Acyclic(g, rank) && Inv(g, emptied)
    requires forall c :: c in ks ==> c.task in g && rank[c.task] < bound && c.task in emptied && Done(c.task)
    ensures forall t :: t in DescendantsOf(g, rank, ks, bound) ==> t in emptied && Done(t) && t.children == []
    decreases bound, |ks|
  {
    if ks != [] {
      AllBelowDone(g, rank, emptied, g[ks[0].task], rank[ks[0].task]);
      AllBelowDone(g, rank, emptied, ks[1..], bound);
    }
  }

  // ---------- Whole calls ----------

  ghost predicate Snapshot(g: Graph)
    reads g.Keys
  {
    forall t :: t in g ==> t.children == g[t]
  }

  /** `kill` ends, cancels exactly the running descendants, leaves none of them children, and changes
      nothing else. */
  method KillTree(root: Task, ghost g: Graph, ghost rank: map<Task, nat>)
    requires Acyclic(g, rank) && root in g && Snapshot(g)
    modifies g.Keys
    ensures forall t :: t in Descendants(g, rank, root) ==> t.children == []
    ensures forall t :: t in Descendants(g, rank, root) ==> t.future == if old(t.future) == Running then Cancelled else old(t.future)
    ensures forall t :: t in g && t !in Descendants(g, rank, root) ==> t.future == old(t.future) && t.children == old(t.children)
  {
    ghost var now := root.Kill(false, g, rank, {});
    AllBelowDone(g, rank, now, g[root], rank[root]);
  }

  /** What one kill of the tree below `root` leaves: its tasks done and without children, the others with theirs. */
  ghost predicate Killed(g: Graph, rank: map<Task, nat>, root: Task)
    requires Acyclic(g, rank) && root in g
    reads g.Keys
  {
    && (forall t :: t in Descendants(g, rank, root) ==> Done(t) && t.children == [])
    && forall t :: t in g && t !in Descendants(g, rank, root) ==> t.children == g[t]
  }

  /** Killing once more a tree `g` that was killed changes nothing, inside or outside. */
  method KillAgain(root: Task, ghost g: Graph, ghost rank: map<Task, nat>)
    requires Acyclic(g, rank) && root in g && Killed(g, rank, root)
    modifies g.Keys
    ensures forall t :: t in g ==> t.future == old(t.future) && t.children == old(t.children)
  {
    KilledInv(g, rank, root);
    ghost var now := root.Kill(false, g, rank, Descendants(g, rank, root));
  }

  lemma KilledInv(g: Graph, rank: map<Task, nat>, root: Task)
    requires Acyclic(g, rank) && root in g && Killed(g, rank, root)
    ensures Inv(g, Descendants(g, rank, root))
  {
    var below := Descendants(g, rank, root);
    forall t, c | t in below && c in g[t] ensures c.task in below {
      var i :| 0 <= i < |g[t]| && g[t][i] == c;
      KidBelow(g, rank, g[t], rank[t], i);
      if t != root { AllBelow(g, rank, g[root], rank[root], t); }
    }
  }

  /** `kill`, twice: the second kill finds nothing left to do in the tree the first one had. */
  method KillTwice(root: Task, ghost g: Graph, ghost rank: map<Task, nat>)
    requires Acyclic(g, rank) && root in g && Snapshot(g)
    modifies g.Keys
    ensures Killed(g, rank, root)
    ensures forall t :: t in Descendants(g, rank, root) ==> t.future == if old(t.future) == Running then Cancelled else old(t.future)
    ensures forall t :: t in g && t !in Descendants(g, rank, root) ==> t.future == old(t.future) && t.children == old(t.children)
  {
    KillTree(root, g, rank);
    label Once:
    KillAgain(root, g, rank);
    assert forall t :: t in g ==> t.future == old@Once(t.future) && t.children == old@Once(t.children);
  }

  /** When a task finishes, every task registered under it by then is done, and so is all below. */
  method Complete(root: Task, ghost g: Graph, ghost rank: map<Task, nat>)
    requires Acyclic(g, rank) && root in g && Snapshot(g) && root.future == Running
    modifies g.Keys
    ensures root.future == Finished
    ensures forall t :: t in Descendants(g, rank, root) ==> Done(t) && t.children == []
    ensures forall t :: t in g && t !in Descendants(g, rank, root) ==> t.future == old(t.future) && t.children == old(t.children)
  {
    root.future := Finished;
    ghost var now := root.OnTaskDone(g, rank, {});
    AllBelowDone(g, rank, now, g[root], rank[root]);
  }

  /** `restart`: everything below is killed, and the task runs again. */
  method Restart(root: Task, ghost g: Graph, ghost rank: map<Task, nat>)
    requires Acyclic(g, rank) && root in g && Snapshot(g)
    modifies g.Keys
    ensures root.future == Running && root.children == []
    ensures forall t :: t in Descendants(g, rank, root) && t != root ==> Done(t) && t.children == []
    ensures forall t :: t in g && t !in Descendants(g, rank, root) ==> t.future == old(t.future) && t.children == old(t.children)
  {
    KillTree(root, g, rank);
    ghost var below := Descendants(g, rank, root);
    assert forall t :: t in below ==> Done(t) && t.children == [];
    root.StartTask();
    assert forall t :: t in below && t != root ==> Done(t) && t.children == [];
  }
}
