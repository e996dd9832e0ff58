/** How dispatchers are bound into a chain: directly within a thread's pool, and by a task
    pipe from one pool to another. */
module Binding {

  /** The pools of a queue's writer and reader. */
  datatype Attachment = Detached | Attached(from: nat, to: nat)

  /** A CTaskDispatcher. A task pipe is one as well: its target is the successor of its
      incoming queue, which lives in the target's pool. */
  class Dispatcher {
    const owner: nat              // m_owner, the pool
    const target: Dispatcher?     // where a pipe's incoming queue leads
    const incoming: Attachment    // a pipe's queue of tasks
    const returning: Attachment   // a pipe's queue of replies
    var successor: Dispatcher?

    constructor (owner: nat)
      ensures this.owner == owner && successor == null && target == null
    {
      this.owner := owner;
      successor, target := null, null;
      incoming, returning := Detached, Detached;
    }

    // CTaskPipe, with what its BindDispatcher gives it.
    constructor Pipe(owner: nat, to: Dispatcher)
      ensures this.owner == owner && successor == null && target == to
      ensures incoming == Attached(owner, to.owner) && returning == Attached(to.owner, owner)
    {
      this.owner := owner;
      successor, target := null, to;
      incoming, returning := Attached(owner, to.owner), Attached(to.owner, owner);
    }

    // CTaskDispatcher::BindDispatcher; a pipe is bound in turn, within its own pool.
    method BindDispatcher(to: Dispatcher)
      modifies this`successor
      ensures Linked(this, to) && (successor == to || fresh(successor))
      decreases owner != to.owner
    {
      if owner == to.owner {
        successor := to;
      } else {
        var pipe := new Dispatcher.Pipe(owner, to);
        BindDispatcher(pipe);
      }
    }
  }

  /** Tasks go from one dispatcher to the other by a call within the pool, or through one
      pipe that takes them from the one's pool to the other's, and the replies back. */
  predicate Linked(from: Dispatcher, to: Dispatcher)
    reads from`successor
  {
    && from.successor != null
    && if from.owner == to.owner then from.successor == to
       else
         && from.successor.owner == from.owner && from.successor.target == to
         && from.successor.incoming == Attached(from.owner, to.owner)
         && from.successor.returning == Attached(to.owner, from.owner)
  }

  // The pipes between neighbours of a chain.
  function PipesOf(ds: seq<Dispatcher>): nat
    reads ds
  {
    if |ds| < 2 then 0
    else
      (if ds[0].successor != null && ds[0].successor.target == ds[1] then 1 else 0) + PipesOf(ds[1..])
  }

  // How often the pool changes along a chain.
  function Changes(ds: seq<Dispatcher>): nat {
    if |ds| < 2 then 0 else (if ds[0].owner == ds[1].owner then 0 else 1) + Changes(ds[1..])
  }

  /** A linked chain of dispatchers that are not pipes themselves has exactly as many pipes
      as its pool changes. */
  lemma {:induction false} PipesAreChanges(ds: seq<Dispatcher>)
    requires forall i :: 0 <= i < |ds| ==> ds[i].target == null
    requires forall i :: 0 <= i < |ds| - 1 ==> Linked(ds[i], ds[i + 1])
    ensures PipesOf(ds) == Changes(ds)
  {
    if |ds| > 1 {
      assert Linked(ds[0], ds[1]);
      forall i | 0 <= i < |ds[1..]| - 1 ensures Linked(ds[1..][i], ds[1..][i + 1]) {
        assert Linked(ds[i + 1], ds[i + 2]);
      }
      PipesAreChanges(ds[1..]);
    }
  }

  /** Binding each dispatcher of a chain to the next, one after another: a task passes all
      of them in order, and through exactly as many pipes as the pool changes. */
  method BindChain(ds: seq<Dispatcher>)
    requires forall i, j :: 0 <= i < j < |ds| ==> ds[i] != ds[j]
    requires forall i :: 0 <= i < |ds| ==> ds[i].target == null
    modifies ds
    ensures forall i :: 0 <= i < |ds| - 1 ==> Linked(ds[i], ds[i + 1])
    ensures PipesOf(ds) == Changes(ds)
  {
    var n := 0;
    while n < |ds| - 1
      invariant n == 0 || n <= |ds| - 1
      invariant forall i :: 0 <= i < n ==> Linked(ds[i], ds[i + 1])
    {
      ds[n].BindDispatcher(ds[n + 1]);
      n := n + 1;
    }
    PipesAreChanges(ds);
  }
}
