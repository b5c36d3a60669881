/** The pool's queue of jobs: a singly linked list with head, tail and size. */
module JobQueue {

  class JobNode<T> {
    const job: T
    var next: JobNode?<T>

    /** A zeroed node with its job set. */
    constructor (job: T)
      ensures this.job == job && next == null
    {
      this.job := job;
      next := null;
    }
  }

  /** The jobs held by a chain of nodes. */
  function Jobs<T>(nodes: seq<JobNode<T>>): seq<T> {
    seq(|nodes|, i requires 0 <= i < |nodes| => nodes[i].job)
  }

  datatype Taken<T> = Nothing | Job(job: T)

  class Queue<T> {
    var size: int
    var head: JobNode?<T>
    var tail: JobNode?<T>
    ghost var nodes: seq<JobNode<T>>

    /** `nodes` is the chain from head; size counts it; tail is its last node while there is one.
        After the last job is taken tail still points at a node that is gone. */
    ghost predicate Valid()
      reads this, nodes
    {
      && size == |nodes|
      && (forall i, j :: 0 <= i < j < |nodes| ==> nodes[i] != nodes[j])
      && head == (if nodes == [] then null else nodes[0])
      && (nodes != [] ==> tail == nodes[|nodes| - 1] && tail.next == null)
      && (forall i {:trigger nodes[i].next} :: 0 <= i < |nodes| - 1 ==> nodes[i].next == nodes[i + 1])
    }

    constructor ()
      ensures Valid() && Jobs(nodes) == []
    {
      size := 0;
      head, tail := null, null;
      nodes := [];
    }

    method Enqueue(node: JobNode<T>)
      requires Valid() && node !in nodes && node.next == null
      modifies this, nodes
      ensures Valid() && nodes == old(nodes) + [node] && Jobs(nodes) == old(Jobs(nodes)) + [node.job]
    {
      if head == null {
        head := node;
        tail := node;
      } else {
        tail.next := node;
        tail := node;
      }
      size := size + 1;
      nodes := nodes + [node];
    }

    /** The oldest job, or none; the tail is left alone. */
    method Dequeue() returns (r: Taken<T>)
      requires Valid()
      modifies this
      ensures Valid() && tail == old(tail)
      ensures old(nodes) == [] ==> r == Nothing && nodes == []
      ensures old(nodes) != [] ==> r == Job(old(Jobs(nodes))[0]) && nodes == old(nodes)[1..] && Jobs(nodes) == old(Jobs(nodes))[1..]
    {
      if size == 0 {
        return Nothing;
      }
      var tmp := head;
      r := Job(tmp.job);
      head := tmp.next;
      size := size - 1;
      nodes := nodes[1..];
    }
  }
}
