/** The sleep queue as the kernel keeps it: doubly linked nodes behind a sentinel
    (src/proc/sleep_queue.c, src/klibc/linked_list.h). */
module SleepList {
  import opened SleepQueue

  class Node {
    var next: Node?
    var prev: Node?
    var left: nat
    var tid: nat

    constructor ()
      ensures next == null && prev == null && left == 0
    {
      next, prev, left, tid := null, null, 0, 0;
    }
  }

  /** Ticks until the sleeper before position `i`. */
  function Total(q: Queue, i: nat): nat
    requires i <= |q|
  {
    if i == 0 then 0 else Total(q, i - 1) + q[i - 1].left
  }

  lemma TotalStep(q: Queue, i: nat)
    requires i <= |q|
    ensures Total(q, 0) == 0 && (i < |q| ==> Total(q, i + 1) == Total(q, i) + q[i].left)
  {
  }

  lemma {:induction false} TotalTail(q: Queue, i: nat)
    requires 0 < i <= |q|
    ensures Total(q, i) == q[0].left + Total(q[1..], i - 1)
  {
    if i > 1 {
      TotalTail(q, i - 1);
    }
  }

  /** Splicing past the first sleeper is splicing into the rest. */
  lemma SplicedTail(q: Queue, i: nat, tid: nat, relative: nat)
    requires 0 < i <= |q| && (i < |q| ==> relative <= q[i].left)
    ensures Spliced(q, i, tid, relative) == [q[0]] + Spliced(q[1..], i - 1, tid, relative)
  {
    var rest := q[1..];
    assert q[..i] == [q[0]] + rest[..i - 1];
    assert i < |q| ==> rest[i..] == q[i + 1..];
  }

  /** The walk stops where the specification inserts. */
  lemma {:induction false} InsertedAt(q: Queue, tid: nat, ticks: nat, i: nat)
    requires i <= |q| && (forall j :: 1 <= j <= i ==> Total(q, j) < ticks)
    requires i < |q| ==> Total(q, i) + q[i].left >= ticks
    ensures Total(q, i) <= ticks
    ensures Inserted(q, tid, ticks) == Spliced(q, i, tid, ticks - Total(q, i))
  {
    if i > 0 {
      hide Spliced;
      assert Total(q, 1) < ticks by { assert Total(q, 1) == q[0].left; }
      var rest := q[1..];
      forall j | 1 <= j <= i - 1 ensures Total(rest, j) < ticks - q[0].left {
        TotalTail(q, j + 1);
      }
      TotalTail(q, i);
      InsertedAt(rest, tid, ticks - q[0].left, i - 1);
      SplicedTail(q, i, tid, ticks - Total(q, i));
    }
  }

  /** The nodes are linked in this order, both ways. */
  ghost predicate Chained(nodes: seq<Node>)
    reads nodes`next, nodes`prev
  {
    && |nodes| > 0 && nodes[0].prev == null
    && (forall i, j :: 0 <= i < j < |nodes| ==> nodes[i] != nodes[j])
    && (forall i {:trigger nodes[i].next} :: 0 <= i < |nodes| ==>
        nodes[i].next == if i + 1 < |nodes| then nodes[i + 1] else null)
    && (forall i {:trigger nodes[i].prev} :: 1 <= i < |nodes| ==> nodes[i].prev == nodes[i - 1])
  }

  /** After the sentinel the nodes hold these sleepers. */
  ghost predicate Holds(nodes: seq<Node>, q: Queue)
    reads nodes`left, nodes`tid
  {
    && |nodes| == |q| + 1 && nodes[0].left == 0
    && (forall i {:trigger q[i]} :: 0 <= i < |q| ==> q[i] == Sleeper(nodes[i + 1].tid, nodes[i + 1].left))
  }

  /** CHAIN_LINKED_LIST: put `node` after the node at position `i`. */
  method Chain(cur: Node, node: Node, ghost nodes: seq<Node>, ghost i: nat)
    requires Chained(nodes) && i < |nodes| && cur == nodes[i] && node !in nodes
    modifies nodes`next, nodes`prev, node`next, node`prev
    ensures Chained(nodes[..i + 1] + [node] + nodes[i + 1..])
  {
    node.next := cur.next;
    node.prev := cur;
    var next := node.next;
    assert old(nodes[i].next) == if i + 1 < |nodes| then nodes[i + 1] else null;
    if next != null {
      next.prev := node;
    }
    cur.next := node;
    forall k | 0 <= k < |nodes|
      ensures nodes[k].next == if k == i then node else if k + 1 < |nodes| then nodes[k + 1] else null
      ensures k > 0 ==> nodes[k].prev == if k == i + 1 then node else nodes[k - 1]
    {
      assert old(nodes[k].next) == if k + 1 < |nodes| then nodes[k + 1] else null;
      assert k > 0 ==> old(nodes[k].prev) == nodes[k - 1];
    }
    assert old(nodes[0].prev) == null;
    SplicedChain(nodes, node, i);
  }

  lemma SplicedChain(nodes: seq<Node>, node: Node, i: nat)
    requires i < |nodes| && node !in nodes && nodes[0].prev == null
    requires forall a, b :: 0 <= a < b < |nodes| ==> nodes[a] != nodes[b]
    requires forall k {:trigger nodes[k].next} :: 0 <= k < |nodes| ==>
               nodes[k].next == if k == i then node else if k + 1 < |nodes| then nodes[k + 1] else null
    requires forall k {:trigger nodes[k].prev} :: 1 <= k < |nodes| ==>
            nodes[k].prev == if k == i + 1 then node else nodes[k - 1]
    requires node.prev == nodes[i] && node.next == if i + 1 < |nodes| then nodes[i + 1] else null
    ensures Chained(nodes[..i + 1] + [node] + nodes[i + 1..])
  {
    var now := nodes[..i + 1] + [node] + nodes[i + 1..];
    forall k | 0 <= k < |now|
      ensures now[k] == if k <= i then nodes[k] else if k == i + 1 then node else nodes[k - 1]
    {
    }
    forall k | 0 <= k < |now| ensures now[k].next == if k + 1 < |now| then now[k + 1] else null {
      assert k <= i || k == i + 1 || now[k] == nodes[k - 1];
    }
    forall k | 1 <= k < |now| ensures now[k].prev == now[k - 1] {
      assert k <= i || k == i + 1 || now[k] == nodes[k - 1];
    }
  }

  /** The spliced queue of an insertion at position `i`. */
  function Spliced(q: Queue, i: nat, tid: nat, relative: nat): Queue
    requires i <= |q| && (i < |q| ==> relative <= q[i].left)
  {
    q[..i] + [Sleeper(tid, relative)] + if i < |q| then [Sleeper(q[i].tid, q[i].left - relative)] + q[i + 1..] else []
  }

  /** The times of insert_to_queue: the new node's own, and the next node's less that. */
  method SetTimes(node: Node, next: Node?, tid: nat, relative: nat, ghost nodes: seq<Node>, ghost q: Queue,
                  ghost i: nat)
    requires Holds(nodes, q) && i < |nodes| && node !in nodes
    requires forall a, b :: 0 <= a < b < |nodes| ==> nodes[a] != nodes[b]
    requires next == if i + 1 < |nodes| then nodes[i + 1] else null
    requires i < |q| ==> relative <= q[i].left
    modifies nodes`left, node`left, node`tid
    ensures Holds(nodes[..i + 1] + [node] + nodes[i + 1..], Spliced(q, i, tid, relative))
  {
    assert i < |q| ==> q[i].left == next.left;
    node.left := relative;
    node.tid := tid;
    if next != null {
      next.left := next.left - relative;
    }
    ghost var now, q' := nodes[..i + 1] + [node] + nodes[i + 1..], Spliced(q, i, tid, relative);
    forall k | 0 <= k < |q'| ensures q'[k] == Sleeper(now[k + 1].tid, now[k + 1].left) {
      if k < i {
        assert q'[k] == q[k] && now[k + 1] == nodes[k + 1];
      } else if k > i {
        assert now[k + 1] == nodes[k] && old(nodes[k].left) == q[k - 1].left;
        assert k > i + 1 ==> q'[k] == q[k - 1];
      }
    }
  }

  /** UNCHAIN_LINKED_LIST on the first node after the sentinel. */
  method UnchainFirst(elem: Node, ghost nodes: seq<Node>)
    requires Chained(nodes) && |nodes| > 1 && elem == nodes[1]
    modifies nodes`next, nodes`prev
    ensures Chained([nodes[0]] + nodes[2..])
  {
    var prev, next := elem.prev, elem.next;
    assert old(nodes[1].next) == if 2 < |nodes| then nodes[2] else null;
    assert old(nodes[1].prev) == nodes[0];
    if prev != null {
      prev.next := next;
    }
    if next != null {
      next.prev := prev;
    }
    ghost var now := [nodes[0]] + nodes[2..];
    forall k | 0 <= k < |nodes|
      ensures k != 1 ==> nodes[k].next == if k == 0 then next else if k + 1 < |nodes| then nodes[k + 1] else null
      ensures k > 2 ==> nodes[k].prev == nodes[k - 1]
    {
      assert old(nodes[k].next) == if k + 1 < |nodes| then nodes[k + 1] else null;
      assert k > 0 ==> old(nodes[k].prev) == nodes[k - 1];
    }
    assert old(nodes[0].prev) == null;
  }

  class SleepList {
    const base: Node
    /** The sentinel and, after it, the sleepers in order. */
    ghost var nodes: seq<Node>
    ghost var contents: Queue

    ghost predicate Valid()
      reads this, nodes
    {
      Chained(nodes) && Holds(nodes, contents) && nodes[0] == base
    }

    constructor ()
      ensures Valid() && fresh(nodes) && contents == []
    {
      var b := new Node();
      base := b;
      nodes := [b];
      contents := [];
    }

    /** The walk of insert_to_queue. */
    method FindPlace(ticks: nat) returns (cur: Node, total: nat, ghost i: nat)
      requires Valid()
      ensures i < |nodes| && cur == nodes[i] && total == Total(contents, i)
      ensures forall j :: 1 <= j <= i ==> Total(contents, j) < ticks
      ensures i < |contents| ==> total + contents[i].left >= ticks
    {
      total, cur, i := 0, base, 0;
      hide Chained, Total;
      assert Total(contents, 0) == 0 by { TotalStep(contents, 0); }
      while true
        invariant i < |nodes| && cur == nodes[i] && total + cur.left == Total(contents, i)
        invariant forall j :: 1 <= j <= i ==> Total(contents, j) < ticks
        decreases |nodes| - i
      {
        total := total + cur.left;
        var next := cur.next;
        NextIs(nodes, i);
        if next == null {
          break;
        }
        if total <= ticks {
          if total + next.left >= ticks {
            break;
          }
        }
        TotalStep(contents, i);
        cur := next;
        i := i + 1;
      }
    }

    /** The relinking half of insert_to_queue. */
    method InsertAt(cur: Node, relative: nat, tid: nat, node: Node, ghost i: nat)
      requires Valid() && node !in nodes && i < |nodes| && cur == nodes[i]
      requires i <= |contents| && (i < |contents| ==> relative <= contents[i].left)
      modifies this, nodes, node
      ensures Valid() && contents == Spliced(old(contents), i, tid, relative)
      ensures nodes == old(nodes)[..i + 1] + [node] + old(nodes)[i + 1..]
    {
      hide Chained, Holds, Spliced;
      var next := cur.next;
      NextIs(nodes, i);
      Distinct(nodes);
      ghost var was, now, q := nodes, nodes[..i + 1] + [node] + nodes[i + 1..], Spliced(contents, i, tid, relative);
      assert now[0] == base;
      Chain(cur, node, was, i);
      assert Chained(now);
      SetTimes(node, next, tid, relative, was, contents, i);
      assert Chained(now) && Holds(now, q);
      nodes, contents := now, q;
    }

    /** insert_to_queue: `node` is the sleeping thread's own node. */
    method Insert(ticks: nat, tid: nat, node: Node)
      requires Valid() && node !in nodes
      modifies this, nodes, node
      ensures Valid() && contents == Inserted(old(contents), tid, ticks)
    {
      hide Inserted, Total, Chained, Spliced, Holds;
      var cur, total, i := FindPlace(ticks);
      HoldsLength(nodes, contents);
      InsertedAt(contents, tid, ticks, i);
      InsertAt(cur, ticks - total, tid, node, i);
    }

    /** Unlink the first sleeper. */
    method DropFirst()
      requires Valid() && contents != []
      modifies this`nodes, this`contents, nodes`next, nodes`prev
      ensures Valid() && contents == old(contents)[1..] && nodes == [old(nodes)[0]] + old(nodes)[2..]
    {
      hide Chained;
      ghost var was := nodes;
      NextIs(nodes, 0);
      UnchainFirst(base.next, was);
      nodes := [was[0]] + was[2..];
      contents := contents[1..];
    }

    /** The inner loop of advance_time: unlink the sleepers at the head with nothing left. */
    method DropExpired() returns (woken: seq<nat>)
      requires Valid()
      modifies this, nodes
      ensures Valid() && Dropped(old(nodes), old(contents), nodes, contents, woken)
      ensures |woken| == Expired(old(contents))
    {
      hide Chained, Expired, Holds, Dropped;
      woken := [];
      var cur := base.next;
      HoldsFirst(nodes, contents);
      NextIs(nodes, 0);
      NoneDropped(nodes, contents);
      while cur != null && cur.left == 0
        invariant Valid() && Dropped(old(nodes), old(contents), nodes, contents, woken)
        invariant forall k :: 0 <= k < |nodes| ==> nodes[k] in old(nodes)
        invariant |woken| + Expired(contents) == Expired(old(contents))
        invariant cur == if |nodes| > 1 then nodes[1] else null
        invariant |nodes| == |contents| + 1 && (|nodes| > 1 ==> contents[0] == Sleeper(nodes[1].tid, nodes[1].left))
        decreases |contents|
      {
        ExpiredStep(contents);
        var next := cur.next;
        NextIs(nodes, 1);
        DropAgain(old(nodes), old(contents), nodes, contents, woken);
        woken := woken + [cur.tid];
        DropFirst();
        HoldsFirst(nodes, contents);
        cur := next;
      }
      ExpiredNone(contents);
    }

    /** One counted tick of advance_time. */
    method CountTick() returns (woken: seq<nat>)
      requires Valid()
      modifies this, nodes
      ensures Valid() && contents == Ticked(old(contents)) && woken == Woken(old(contents))
      ensures forall k :: 0 <= k < |nodes| ==> nodes[k] in old(nodes)
    {
      hide Chained, Expired;
      var cur := base.next;
      NextIs(nodes, 0);
      Distinct(nodes);
      woken := [];
      if cur != null {
        assert contents[0] == Sleeper(nodes[1].tid, nodes[1].left);
        cur.left := Dec(cur.left);
        contents := Counted(contents);
        forall i | 0 <= i < |contents| ensures contents[i] == Sleeper(nodes[i + 1].tid, nodes[i + 1].left) {
          assert i > 0 ==> contents[i] == old(contents)[i];
        }
        woken := DropExpired();
      } else {
        ExpiredNone([]);
      }
    }

    /** advance_time with the scheduler lock held: the ticks missed and the current one. */
    method Advance(lagged: nat) returns (woken: seq<nat>)
      requires Valid()
      modifies this, nodes
      ensures Valid() && contents == Advanced(old(contents), lagged + 1)
      ensures woken == AdvanceWakes(old(contents), lagged + 1)
    {
      hide Chained, Holds, Ticked, Woken;
      woken := [];
      for i := 0 to lagged + 1
        invariant Valid() && forall k :: 0 <= k < |nodes| ==> nodes[k] in old(nodes)
        invariant contents == Advanced(old(contents), i) && woken == AdvanceWakes(old(contents), i)
      {
        var more := CountTick();
        woken := woken + more;
      }
    }
  }

  /** The first sleepers have left the list and their threads are in `woken`, in order. */
  ghost predicate Dropped(nodes0: seq<Node>, q0: Queue, nodes: seq<Node>, q: Queue, woken: seq<nat>) {
    && |woken| <= |q0| && |nodes0| == |q0| + 1
    && q == q0[|woken|..] && nodes == [nodes0[0]] + nodes0[|woken| + 1..]
    && forall i :: 0 <= i < |woken| ==> woken[i] == q0[i].tid
  }

  lemma NoneDropped(nodes: seq<Node>, q: Queue)
    requires |nodes| == |q| + 1
    ensures Dropped(nodes, q, nodes, q, [])
  {
  }

  lemma DropAgain(nodes0: seq<Node>, q0: Queue, nodes: seq<Node>, q: Queue, woken: seq<nat>)
    requires Dropped(nodes0, q0, nodes, q, woken) && q != []
    ensures |nodes| > 1 && Dropped(nodes0, q0, [nodes[0]] + nodes[2..], q[1..], woken + [q[0].tid])
  {
    var k := |woken|;
    assert nodes[2..] == nodes0[k + 2..];
    assert q[1..] == q0[k + 1..] && q[0] == q0[k];
  }

  lemma ExpiredStep(q: Queue)
    requires q != [] && q[0].left == 0
    ensures Expired(q) == 1 + Expired(q[1..])
  {
  }

  lemma ExpiredNone(q: Queue)
    requires q != [] ==> q[0].left != 0
    ensures Expired(q) == 0
  {
  }

  lemma HoldsLength(nodes: seq<Node>, q: Queue)
    requires Holds(nodes, q)
    ensures |nodes| == |q| + 1
  {
  }

  lemma HoldsFirst(nodes: seq<Node>, q: Queue)
    requires Holds(nodes, q)
    ensures |nodes| == |q| + 1 && (q != [] ==> q[0] == Sleeper(nodes[1].tid, nodes[1].left))
  {
  }

  lemma NextIs(nodes: seq<Node>, i: nat)
    requires Chained(nodes) && i < |nodes|
    ensures nodes[i].next == if i + 1 < |nodes| then nodes[i + 1] else null
  {
  }

  lemma Distinct(nodes: seq<Node>)
    requires Chained(nodes)
    ensures forall i, j :: 0 <= i < j < |nodes| ==> nodes[i] != nodes[j]
  {
  }
}
