// The in-place data structures under the stop-callback protocol: the intrusive list of
// registered callbacks, relinked by remove_callback, and the per-thread chain of frames that
// mark_destroyed_if_current walks.  Both refine the sequence operations of the protocol.

module StopList {
  import opened StopProtocol

  class CallbackNode {
    const id: Callback
    var next: CallbackNode?

    constructor (id: Callback)
      ensures this.id == id && next == null
    {
      this.id := id;
      this.next := null;
    }
  }

  class CallbackList {
    var callbacks: CallbackNode?
    ghost var nodes: seq<CallbackNode>

    ghost predicate Valid()
      reads this, nodes
    {
      && (forall i, j :: 0 <= i < j < |nodes| ==> nodes[i] != nodes[j] && nodes[i].id != nodes[j].id)
      && callbacks == NodeAt(0)
      && forall i :: 0 <= i < |nodes| ==> nodes[i].next == NodeAt(i + 1)
    }

    ghost function NodeAt(i: nat): CallbackNode?
      reads this
    {
      At(nodes, i)
    }

    ghost function Ids(): seq<Callback>
      reads this
    {
      IdsOf(nodes)
    }

    constructor ()
      ensures Valid() && nodes == []
    {
      callbacks := null;
      nodes := [];
    }

    // The constructor of stop_callback links itself in at the head.
    method LinkIn(node: CallbackNode)
      requires Valid() && forall i :: 0 <= i < |nodes| ==> nodes[i] != node && nodes[i].id != node.id
      modifies this, node
      ensures Valid() && nodes == [node] + old(nodes)
      ensures Ids() == [node.id] + old(Ids())
    {
      node.next := callbacks;
      callbacks := node;
      nodes := [node] + nodes;
    }

    // The loop of request_stop takes the head off.
    method TakeFirst() returns (first: CallbackNode)
      requires Valid() && callbacks != null
      modifies this
      ensures Valid() && first == old(nodes)[0] && nodes == old(nodes)[1..]
      ensures old(Ids()) != [] && first.id == old(Ids())[0] && Ids() == old(Ids())[1..]
    {
      first := callbacks;
      callbacks := first.next;
      nodes := nodes[1..];
    }

    // remove_callback: `previous` is the node whose link the source points at, null standing
    // for the head link.
    method RemoveCallback(target: CallbackNode)
      requires Valid() && forall i :: 0 <= i < |nodes| && nodes[i].id == target.id ==> nodes[i] == target
      modifies this, nodes
      ensures Valid()
      ensures Ids() == Without(old(Ids()), target.id)
      ensures target !in nodes && forall n :: n in nodes ==> n in old(nodes)
    {
      var previous, current, i := FindLink(target);
      if current == target {
        WithoutAt(nodes, i);
        Relink(previous, target, i);
      } else {
        WithoutNone(IdsOf(nodes), target.id);
      }
    }

    method FindLink(target: CallbackNode) returns (previous: CallbackNode?, current: CallbackNode?, ghost i: nat)
      requires Valid() && forall i :: 0 <= i < |nodes| && nodes[i].id == target.id ==> nodes[i] == target
      ensures i <= |nodes| && current == NodeAt(i) && previous == if i == 0 then null else nodes[i - 1]
      ensures current == null || current == target
      ensures current == null ==> target !in nodes && target.id !in Ids()
    {
      previous := null;
      current := callbacks;
      i := 0;
      while current != null && current != target
        invariant 0 <= i <= |nodes| && current == NodeAt(i)
        invariant previous == if i == 0 then null else nodes[i - 1]
        invariant forall j :: 0 <= j < i ==> nodes[j] != target
        decreases |nodes| - i
      {
        previous := current;
        current := current.next;
        i := i + 1;
      }
    }

    // `*link = target->next_`
    method Relink(previous: CallbackNode?, target: CallbackNode, ghost i: nat)
      requires Valid() && i < |nodes| && nodes[i] == target
      requires previous == if i == 0 then null else nodes[i - 1]
      modifies this, nodes
      ensures Valid() && nodes == old(nodes)[..i] + old(nodes)[i + 1..]
      ensures target !in nodes && forall n :: n in nodes ==> n in old(nodes)
    {
      hide NextsOf, IdsOf;
      ghost var before := nodes;
      assert target.next == NodeAt(i + 1);
      if previous == null {
        callbacks := target.next;
      } else {
        previous.next := target.next;
      }
      ghost var nexts := NextsOf(before);
      assert forall j :: 0 <= j < |before| ==> nexts[j] == if j == i - 1 then At(before, i + 1) else At(before, j + 1);
      nodes := nodes[..i] + nodes[i + 1..];
      AreDistinct(before, i);
      RelinkedChain(before, i, nexts, nodes);
      assert callbacks == NodeAt(0);
      forall j | 0 <= j < |nodes|
        ensures nodes[j].next == NodeAt(j + 1)
      {
        var k := if j < i then j else j + 1;
        assert nodes[j] == before[k] && before[k].next == nexts[k];
      }
    }
  }

  function At(nodes: seq<CallbackNode>, i: nat): CallbackNode? {
    if i < |nodes| then nodes[i] else null
  }

  ghost function NextsOf(nodes: seq<CallbackNode>): (nexts: seq<CallbackNode?>)
    reads nodes
    ensures |nexts| == |nodes| && forall i :: 0 <= i < |nodes| ==> nexts[i] == nodes[i].next
  {
    if nodes == [] then [] else [nodes[0].next] + NextsOf(nodes[1..])
  }

  // Skipping one node leaves a chain over the others.
  lemma RelinkedChain(before: seq<CallbackNode>, i: nat, nexts: seq<CallbackNode?>, after: seq<CallbackNode>)
    requires i < |before| && |nexts| == |before| && after == before[..i] + before[i + 1..]
    requires forall j :: 0 <= j < |before| ==> nexts[j] == if j == i - 1 then At(before, i + 1) else At(before, j + 1)
    ensures forall j :: 0 <= j < |after| ==>
              && after[j] == before[if j < i then j else j + 1]
              && nexts[if j < i then j else j + 1] == At(after, j + 1)
  {
    forall j | 0 <= j < |after|
      ensures after[j] == before[if j < i then j else j + 1]
      ensures nexts[if j < i then j else j + 1] == At(after, j + 1)
    {
      var k := if j < i then j else j + 1;
      assert after[j] == before[k];
      assert At(after, j + 1) == At(before, if j + 1 < i then j + 1 else j + 2);
    }
  }

  lemma AreDistinct(before: seq<CallbackNode>, i: nat)
    requires i < |before|
    requires forall j, k :: 0 <= j < k < |before| ==> before[j] != before[k] && before[j].id != before[k].id
    ensures var after := before[..i] + before[i + 1..];
            && (forall j, k :: 0 <= j < k < |after| ==> after[j] != after[k] && after[j].id != after[k].id)
            && before[i] !in after
            && forall n :: n in after ==> n in before
  {
    var after := before[..i] + before[i + 1..];
    assert forall j :: 0 <= j < |after| ==> after[j] == if j < i then before[j] else before[j + 1];
  }

  function IdsOf(nodes: seq<CallbackNode>): (ids: seq<Callback>)
    ensures |ids| == |nodes|
    ensures forall i :: 0 <= i < |nodes| ==> ids[i] == nodes[i].id
  {
    seq(|nodes|, i requires 0 <= i < |nodes| => nodes[i].id)
  }

  lemma WithoutAt(nodes: seq<CallbackNode>, i: nat)
    requires i < |nodes|
    requires forall j :: 0 <= j < i ==> nodes[j].id != nodes[i].id
    ensures Without(IdsOf(nodes), nodes[i].id) == IdsOf(nodes[..i] + nodes[i + 1..])
  {
    var ids := IdsOf(nodes);
    WithoutIndex(ids, i);
    assert IdsOf(nodes[..i] + nodes[i + 1..]) == ids[..i] + ids[i + 1..];
  }

  lemma {:induction false} WithoutIndex(ids: seq<Callback>, i: nat)
    requires i < |ids|
    requires forall j :: 0 <= j < i ==> ids[j] != ids[i]
    ensures Without(ids, ids[i]) == ids[..i] + ids[i + 1..]
  {
    if i == 0 {
      assert ids[..0] + ids[1..] == ids[1..];
    } else {
      WithoutIndex(ids[1..], i - 1);
    }
  }

  lemma {:induction false} WithoutNone(ids: seq<Callback>, id: Callback)
    requires id !in ids
    ensures Without(ids, id) == ids
  {
    if ids != [] {
      assert ids[0] in ids;
      WithoutNone(ids[1..], id);
    }
  }

  // ----- The frames of one thread, the innermost last.

  // The source has only the address of the callback; which one it was is for the proof.
  class Frame {
    const address: Address
    ghost const state: State
    ghost const callback: Callback
    const previous: Frame?
    var destroyed: bool

    constructor (address: Address, ghost state: State, ghost callback: Callback, previous: Frame?)
      ensures this.address == address && this.state == state && this.callback == callback
      ensures this.previous == previous && !destroyed
    {
      this.address := address;
      this.state := state;
      this.callback := callback;
      this.previous := previous;
      this.destroyed := false;
    }
  }

  ghost predicate IsChain(innermost: Frame?, frames: seq<Frame>) {
    && (forall i, j :: 0 <= i < j < |frames| ==> frames[i] != frames[j])
    && innermost == (if frames == [] then null else frames[|frames| - 1])
    && forall i :: 0 <= i < |frames| ==> frames[i].previous == (if i == 0 then null else frames[i - 1])
  }

  lemma ChainStep(innermost: Frame?, frames: seq<Frame>, i: nat)
    requires IsChain(innermost, frames) && i < |frames|
    ensures frames[i].previous == if i == 0 then null else frames[i - 1]
  {
  }

  // The frames as the hosts of the protocol.
  ghost function HostsOf(frames: seq<Frame>): (hosts: seq<Host>)
    reads frames
    ensures |hosts| == |frames|
    ensures forall i :: 0 <= i < |frames| ==>
              hosts[i] == Invoking(frames[i].state, frames[i].callback, frames[i].destroyed)
  {
    seq(|frames|, i requires 0 <= i < |frames| reads frames =>
      Invoking(frames[i].state, frames[i].callback, frames[i].destroyed))
  }

  // `ids` are the callbacks that are or were at the address.
  method MarkDestroyedIfCurrent(target: Address, current: Frame?, ghost frames: seq<Frame>, ghost ids: set<Callback>)
    returns (marked: bool)
    requires IsChain(current, frames)
    requires forall i :: 0 <= i < |frames| ==> (frames[i].address == target <==> frames[i].callback in ids)
    modifies frames
    ensures marked == HasFrame(old(HostsOf(frames)), ids)
    ensures HostsOf(frames) == if marked then Mark(old(HostsOf(frames)), ids) else old(HostsOf(frames))
  {
    ghost var hosts := HostsOf(frames);
    var frame := current;
    ghost var n := |frames|;
    while frame != null
      invariant 0 <= n <= |frames| && frame == if n == 0 then null else frames[n - 1]
      invariant forall i :: n <= i < |frames| ==> frames[i].callback !in ids
      invariant HostsOf(frames) == hosts
      decreases n
    {
      if frame.address == target {
        assert IsFrame(hosts[n - 1], ids);
        MarkAt(hosts, ids, n - 1);
        frame.destroyed := true;
        assert HostsOf(frames) == hosts[n - 1 := hosts[n - 1].(destroyed := true)];
        return true;
      }
      ChainStep(current, frames, n - 1);
      frame := frame.previous;
      n := n - 1;
    }
    return false;
  }

  lemma {:induction false} MarkAt(hosts: seq<Host>, ids: set<Callback>, k: nat)
    requires k < |hosts| && IsFrame(hosts[k], ids)
    requires forall i :: k < i < |hosts| ==> !IsFrame(hosts[i], ids)
    ensures Mark(hosts, ids) == hosts[k := hosts[k].(destroyed := true)]
  {
    if k < |hosts| - 1 {
      MarkAt(hosts[..|hosts| - 1], ids, k);
      assert hosts == hosts[..|hosts| - 1] + [hosts[|hosts| - 1]];
    }
  }
}
