// Locale facet chains: std::locale as reference-counted representations over a shared,
// immutable list of facets.
//
// `World` is the heap of live objects: deleting an object takes it out of the world.  `loose`
// and `looseNodes` are the references held by code that is half way through an operation;
// between operations there are none.

module LocaleFacets {
  import opened Wrappers

  // The address of a facet.
  type Facet = nat

  // locale::_node
  class Node {
    var refs: int
    const value: Facet
    const next: Node?
    ghost const rank: nat

    constructor (value: Facet, next: Node?)
      modifies if next == null then {} else {next}
      ensures this.value == value && this.next == next && refs == 1
      ensures next != null ==> next.rank < rank && next.refs == old(next.refs) + 1
    {
      this.refs := 1;
      this.value := value;
      this.next := next;
      this.rank := if next == null then 0 else next.rank + 1;
      new;
      if next != null {
        next.refs := next.refs + 1;
      }
    }
  }

  // locale::_rep
  class Rep {
    var refs: int
    const head: Node?
    const name: Option<string>

    constructor Named(name: string)
      ensures head == null && this.name == Some(name) && refs == 1
    {
      this.refs := 1;
      this.head := null;
      this.name := Some(name);
    }

    constructor WithFacet(f: Facet, inherited: Node?)
      modifies if inherited == null then {} else {inherited}
      ensures refs == 1 && name == None && head != null && fresh(head)
      ensures head.value == f && head.next == inherited && head.refs == 1
      ensures inherited != null ==> inherited.rank < head.rank && inherited.refs == old(inherited.refs) + 1
    {
      this.refs := 1;
      this.head := new Node(f, inherited);
      this.name := None;
    }
  }

  class Locale {
    var rep: Rep?

    constructor (rep: Rep?)
      ensures this.rep == rep
    {
      this.rep := rep;
    }
  }

  // ----- Who refers to what.

  ghost function Heads(reps: set<Rep>, n: Node): set<Rep> {
    set r | r in reps && r.head == n
  }

  ghost function Links(nodes: set<Node>, n: Node): set<Node> {
    set m | m in nodes && m.next == n
  }

  ghost function Holding(nodes: set<Node>, f: Facet): set<Node> {
    set m | m in nodes && m.value == f
  }

  lemma RemoveRep(reps: set<Rep>, r: Rep, n: Node)
    requires r in reps
    ensures |Heads(reps - {r}, n)| == |Heads(reps, n)| - (if r.head == n then 1 else 0)
  {
    assert Heads(reps - {r}, n) == Heads(reps, n) - {r};
  }

  lemma AddRep(reps: set<Rep>, r: Rep, n: Node)
    requires r !in reps
    ensures |Heads(reps + {r}, n)| == |Heads(reps, n)| + (if r.head == n then 1 else 0)
  {
    RemoveRep(reps + {r}, r, n);
    assert reps + {r} - {r} == reps;
  }

  lemma RemoveNode(nodes: set<Node>, m: Node, n: Node)
    requires m in nodes
    ensures |Links(nodes - {m}, n)| == |Links(nodes, n)| - (if m.next == n then 1 else 0)
  {
    assert Links(nodes - {m}, n) == Links(nodes, n) - {m};
  }

  lemma AddNode(nodes: set<Node>, m: Node, n: Node)
    requires m !in nodes
    ensures |Links(nodes + {m}, n)| == |Links(nodes, n)| + (if m.next == n then 1 else 0)
  {
    RemoveNode(nodes + {m}, m, n);
    assert nodes + {m} - {m} == nodes;
  }

  lemma RemoveValue(nodes: set<Node>, m: Node, f: Facet)
    requires m in nodes
    ensures |Holding(nodes - {m}, f)| == |Holding(nodes, f)| - (if m.value == f then 1 else 0)
  {
    assert Holding(nodes - {m}, f) == Holding(nodes, f) - {m};
  }

  lemma AddValue(nodes: set<Node>, m: Node, f: Facet)
    requires m !in nodes
    ensures |Holding(nodes + {m}, f)| == |Holding(nodes, f)| + (if m.value == f then 1 else 0)
  {
    RemoveValue(nodes + {m}, m, f);
    assert nodes + {m} - {m} == nodes;
  }

  // ----- Consistency, over the sets of live objects.

  ghost function Holders(locales: set<Locale>, r: Rep): set<Locale>
    reads locales
  {
    set l | l in locales && l.rep == r
  }

  // How many references there are to a node.
  ghost function NodeReferences(reps: set<Rep>, nodes: set<Node>, loose: multiset<Node>, n: Node): nat {
    |Heads(reps, n)| + |Links(nodes, n)| + loose[n]
  }

  ghost function RepReferences(locales: set<Locale>, loose: multiset<Rep>, r: Rep): nat
    reads locales
  {
    |Holders(locales, r)| + loose[r]
  }

  // Nothing dangles, and the lists end.
  ghost predicate LocalesOk(locales: set<Locale>, reps: set<Rep>, loose: multiset<Rep>)
    reads locales
  {
    && (forall l :: l in locales && l.rep != null ==> l.rep in reps)
    && (forall r :: r in loose ==> r in reps)
  }

  ghost predicate ListsOk(reps: set<Rep>, nodes: set<Node>, loose: multiset<Node>) {
    && (forall r :: r in reps && r.head != null ==> r.head in nodes)
    && (forall n :: n in loose ==> n in nodes)
    && (forall n {:trigger n.next} :: n in nodes && n.next != null ==> n.next in nodes && n.next.rank < n.rank)
  }

  // Each count is the number of references, and nothing unreferenced is kept.
  ghost predicate RepsCounted(locales: set<Locale>, reps: set<Rep>, loose: multiset<Rep>)
    reads locales, reps
  {
    forall r :: r in reps ==> r.refs == RepReferences(locales, loose, r)
  }

  ghost predicate AllHeld(reps: set<Rep>)
    reads reps
  {
    forall r :: r in reps ==> r.refs > 0
  }

  ghost predicate RepCounts(locales: set<Locale>, reps: set<Rep>, loose: multiset<Rep>)
    reads locales, reps
  {
    RepsCounted(locales, reps, loose) && AllHeld(reps)
  }

  ghost predicate NodesCounted(reps: set<Rep>, nodes: set<Node>, loose: multiset<Node>)
    reads nodes
  {
    forall n :: n in nodes ==> n.refs == NodeReferences(reps, nodes, loose, n)
  }

  ghost predicate AllReferenced(nodes: set<Node>)
    reads nodes
  {
    forall n :: n in nodes ==> n.refs > 0
  }

  ghost predicate NodeCounts(reps: set<Rep>, nodes: set<Node>, loose: multiset<Node>)
    reads nodes
  {
    NodesCounted(reps, nodes, loose) && AllReferenced(nodes)
  }

  ghost predicate FacetsAccounted(nodes: set<Node>, installed: multiset<Facet>, freed: multiset<Facet>) {
    forall f: Facet :: freed[f] + |Holding(nodes, f)| == installed[f]
  }

  lemma NobodyRefers(reps: set<Rep>, nodes: set<Node>, loose: multiset<Node>, node: Node)
    requires NodeReferences(reps, nodes, loose, node) == 0
    ensures forall r :: r in reps ==> r.head != node
    ensures forall m :: m in nodes ==> m.next != node
    ensures node !in loose
  {
    assert Heads(reps, node) == {} && Links(nodes, node) == {};
    forall r | r in reps
      ensures r.head != node
    {
      assert r !in Heads(reps, node);
    }
    forall m | m in nodes
      ensures m.next != node
    {
      assert m !in Links(nodes, node);
    }
  }

  ghost function LooseNext(node: Node): multiset<Node> {
    if node.next == null then multiset{} else multiset{node.next}
  }

  // Deleting an unreferenced node frees its facet and leaves its own reference loose.
  lemma NodeDeleted(reps: set<Rep>, nodes: set<Node>, loose: multiset<Node>, node: Node, n: Node)
    requires node in nodes
    ensures NodeReferences(reps, nodes - {node}, loose + LooseNext(node), n) == NodeReferences(reps, nodes, loose, n)
  {
    RemoveNode(nodes, node, n);
  }

  lemma ListsAfterDelete(reps: set<Rep>, nodes: set<Node>, loose: multiset<Node>, node: Node)
    requires ListsOk(reps, nodes, loose) && node in nodes
    requires NodeReferences(reps, nodes, loose, node) == 0
    ensures ListsOk(reps, nodes - {node}, loose + LooseNext(node))
  {
    NobodyRefers(reps, nodes, loose, node);
  }

  lemma FacetsAfterDelete(nodes: set<Node>, installed: multiset<Facet>, freed: multiset<Facet>, node: Node)
    requires FacetsAccounted(nodes, installed, freed) && node in nodes
    ensures FacetsAccounted(nodes - {node}, installed, freed + multiset{node.value})
  {
    forall f: Facet
      ensures (freed + multiset{node.value})[f] + |Holding(nodes - {node}, f)| == installed[f]
    {
      RemoveValue(nodes, node, f);
    }
  }

  lemma CountsAfterDelete(reps: set<Rep>, nodes: set<Node>, loose: multiset<Node>, node: Node)
    requires NodesCounted(reps, nodes, loose) && node in nodes
    ensures NodesCounted(reps, nodes - {node}, loose + LooseNext(node))
  {
    forall n | n in nodes - {node}
      ensures n.refs == NodeReferences(reps, nodes - {node}, loose + LooseNext(node), n)
    {
      NodeDeleted(reps, nodes, loose, node, n);
    }
  }

  lemma DeletedConsistently(
    reps: set<Rep>, nodes: set<Node>, loose: multiset<Node>, installed: multiset<Facet>, freed: multiset<Facet>,
    node: Node)
    requires ListsOk(reps, nodes, loose) && FacetsAccounted(nodes, installed, freed)
    requires node in nodes && node.refs == 0
    requires NodesCounted(reps, nodes, loose) && AllReferenced(nodes - {node})
    ensures ListsOk(reps, nodes - {node}, loose + LooseNext(node))
    ensures NodeCounts(reps, nodes - {node}, loose + LooseNext(node))
    ensures FacetsAccounted(nodes - {node}, installed, freed + multiset{node.value})
  {
    ListsAfterDelete(reps, nodes, loose, node);
    FacetsAfterDelete(nodes, installed, freed, node);
    CountsAfterDelete(reps, nodes, loose, node);
  }

  lemma LooseAgain(before: multiset<Node>, node: Node)
    requires node in before
    ensures before - multiset{node} + LooseNext(node)
            - (if node.next == null then multiset{} else multiset{node.next}) == before - multiset{node}
  {
  }

  lemma NobodyHolds(locales: set<Locale>, loose: multiset<Rep>, rep: Rep)
    requires RepReferences(locales, loose, rep) == 0
    ensures forall l :: l in locales ==> l.rep != rep
    ensures rep !in loose
  {
    assert Holders(locales, rep) == {};
    forall l | l in locales
      ensures l.rep != rep
    {
      assert l !in Holders(locales, rep);
    }
  }

  ghost function LooseHead(rep: Rep): multiset<Node> {
    if rep.head == null then multiset{} else multiset{rep.head}
  }

  lemma HeadReleased(before: multiset<Node>, rep: Rep)
    ensures if rep.head == null then before + LooseHead(rep) == before
            else before + LooseHead(rep) - multiset{rep.head} == before
  {
  }

  // Deleting a representation leaves its reference to the list loose.
  lemma HeadLoosened(reps: set<Rep>, nodes: set<Node>, loose: multiset<Node>, rep: Rep)
    requires ListsOk(reps, nodes, loose) && NodesCounted(reps, nodes, loose) && rep in reps
    ensures ListsOk(reps - {rep}, nodes, loose + LooseHead(rep))
    ensures NodesCounted(reps - {rep}, nodes, loose + LooseHead(rep))
  {
    forall n | n in nodes
      ensures NodeReferences(reps - {rep}, nodes, loose + LooseHead(rep), n) == NodeReferences(reps, nodes, loose, n)
    {
      RemoveRep(reps, rep, n);
    }
  }

  ghost function LooseRep(rep: Rep?): multiset<Rep> {
    if rep == null then multiset{} else multiset{rep}
  }

  lemma LooseCancels(loose: multiset<Rep>, rep: Rep?)
    ensures loose + LooseRep(rep) - LooseRep(rep) == loose
    ensures rep != null ==> rep in loose + LooseRep(rep)
  {
  }

  lemma RemoveHolder(locales: set<Locale>, l: Locale, r: Rep)
    requires l in locales
    ensures |Holders(locales - {l}, r)| == |Holders(locales, r)| - (if l.rep == r then 1 else 0)
  {
    assert Holders(locales - {l}, r) == Holders(locales, r) - {l};
  }

  lemma HolderRetired(locales: set<Locale>, reps: set<Rep>, loose: multiset<Rep>, l: Locale)
    requires LocalesOk(locales, reps, loose) && RepsCounted(locales, reps, loose) && l in locales
    ensures LocalesOk(locales - {l}, reps, loose + LooseRep(l.rep))
    ensures RepsCounted(locales - {l}, reps, loose + LooseRep(l.rep))
  {
    forall r | r in reps
      ensures RepReferences(locales - {l}, loose + LooseRep(l.rep), r) == RepReferences(locales, loose, r)
    {
      RemoveHolder(locales, l, r);
    }
  }

  lemma HolderAdmitted(locales: set<Locale>, reps: set<Rep>, loose: multiset<Rep>, l: Locale)
    requires LocalesOk(locales, reps, loose) && RepsCounted(locales, reps, loose) && l !in locales
    requires l.rep != null ==> l.rep in loose
    ensures LocalesOk(locales + {l}, reps, loose - LooseRep(l.rep))
    ensures RepsCounted(locales + {l}, reps, loose - LooseRep(l.rep))
  {
    forall r | r in reps
      ensures RepReferences(locales + {l}, loose - LooseRep(l.rep), r) == RepReferences(locales, loose, r)
    {
      RemoveHolder(locales + {l}, l, r);
      assert locales + {l} - {l} == locales;
    }
  }

  lemma RepInstalled(locales: set<Locale>, reps: set<Rep>, loose: multiset<Rep>, rep: Rep)
    requires LocalesOk(locales, reps, loose) && RepsCounted(locales, reps, loose)
    requires rep !in reps && rep.refs == 1 && forall l :: l in locales ==> l.rep != rep
    ensures LocalesOk(locales, reps + {rep}, loose + multiset{rep})
    ensures RepsCounted(locales, reps + {rep}, loose + multiset{rep})
  {
    assert Holders(locales, rep) == {};
  }

  lemma HeadlessInstalled(reps: set<Rep>, nodes: set<Node>, loose: multiset<Node>, rep: Rep)
    requires ListsOk(reps, nodes, loose) && NodesCounted(reps, nodes, loose) && rep !in reps && rep.head == null
    ensures ListsOk(reps + {rep}, nodes, loose) && NodesCounted(reps + {rep}, nodes, loose)
  {
    forall n | n in nodes
      ensures NodeReferences(reps + {rep}, nodes, loose, n) == NodeReferences(reps, nodes, loose, n)
    {
      AddRep(reps, rep, n);
    }
  }

  ghost predicate InFront(nodes: set<Node>, node: Node) {
    node.next != null ==> node.next in nodes && node.next.rank < node.rank
  }

  // Every node is counted, except that `next` has one reference more.
  ghost predicate CountedBut(reps: set<Rep>, nodes: set<Node>, loose: multiset<Node>, next: Node?)
    reads nodes
  {
    forall n :: n in nodes ==> n.refs == NodeReferences(reps, nodes, loose, n) + (if n == next then 1 else 0)
  }

  lemma FirstReference(reps: set<Rep>, nodes: set<Node>, loose: multiset<Node>, node: Node)
    requires ListsOk(reps, nodes, loose) && node !in nodes
    ensures NodeReferences(reps, nodes, loose, node) == 0
  {
    assert Heads(reps, node) == {};
    assert Links(nodes, node) == {};
  }

  lemma CountsInstalled(reps: set<Rep>, nodes: set<Node>, loose: multiset<Node>, rep: Rep)
    requires ListsOk(reps, nodes, loose) && rep !in reps
    requires rep.head != null && rep.head !in nodes && rep.head.refs == 1 && InFront(nodes, rep.head)
    requires CountedBut(reps, nodes, loose, rep.head.next)
    ensures NodesCounted(reps + {rep}, nodes + {rep.head}, loose)
  {
    forall n | n in nodes + {rep.head}
      ensures n.refs == NodeReferences(reps + {rep}, nodes + {rep.head}, loose, n)
    {
      AddRep(reps, rep, n);
      AddNode(nodes, rep.head, n);
      if n == rep.head {
        FirstReference(reps, nodes, loose, n);
      }
    }
  }

  lemma FacetInstalled(
    reps: set<Rep>, nodes: set<Node>, loose: multiset<Node>, installed: multiset<Facet>, freed: multiset<Facet>,
    rep: Rep)
    requires ListsOk(reps, nodes, loose) && FacetsAccounted(nodes, installed, freed) && rep !in reps
    requires rep.head != null && rep.head !in nodes && rep.head.refs == 1 && InFront(nodes, rep.head)
    requires CountedBut(reps, nodes, loose, rep.head.next)
    ensures ListsOk(reps + {rep}, nodes + {rep.head}, loose)
    ensures NodesCounted(reps + {rep}, nodes + {rep.head}, loose)
    ensures FacetsAccounted(nodes + {rep.head}, installed + multiset{rep.head.value}, freed)
  {
    CountsInstalled(reps, nodes, loose, rep);
    forall f: Facet
      ensures freed[f] + |Holding(nodes + {rep.head}, f)| == (installed + multiset{rep.head.value})[f]
    {
      AddValue(nodes, rep.head, f);
    }
  }

  lemma AssignSettled(rep: Rep?, other: Rep?)
    ensures multiset{} + LooseRep(other) + LooseRep(rep) - LooseRep(rep) - LooseRep(other) == multiset{}
    ensures multiset{} + LooseRep(other) + LooseRep(rep) - LooseRep(rep) == LooseRep(other)
    ensures rep != null ==> rep in multiset{} + LooseRep(other) + LooseRep(rep)
    ensures other != null ==> other in LooseRep(other)
    ensures LooseRep(other) - LooseRep(other) == multiset{}
  {
  }

  lemma Restored(locales: set<Locale>, left: Locale, right: Locale)
    requires left in locales && right in locales
    ensures locales - {left} + {left} == locales
    ensures locales - {left} - {right} + {left} + {right} == locales
  {
  }

  // ----- What a locale holds.

  // The facets of a list, newest first.
  ghost function Chain(node: Node?): seq<Facet>
    decreases if node == null then 0 else node.rank + 1
  {
    if node == null then []
    else if node.next != null && node.next.rank < node.rank then [node.value] + Chain(node.next)
    else [node.value]
  }

  ghost predicate Shares(rep: Rep, inherited: Node?) {
    rep.head != null && rep.head.next == inherited
  }

  lemma ChainInFront(nodes: set<Node>, node: Node)
    requires InFront(nodes, node)
    ensures Chain(node) == [node.value] + Chain(node.next)
  {
  }

  // _first_facet
  function FirstFacet(rep: Rep?): Node? {
    if rep == null then null else rep.head
  }

  ghost function Facets(l: Locale): seq<Facet>
    reads l
  {
    Chain(FirstFacet(l.rep))
  }

  ghost function Name(l: Locale): Option<string>
    reads l
  {
    if l.rep == null then None else l.rep.name
  }

  // ----- The world.

  class World {
    ghost var locales: set<Locale>
    ghost var reps: set<Rep>
    ghost var nodes: set<Node>
    ghost var loose: multiset<Rep>
    ghost var looseNodes: multiset<Node>
    ghost var installed: multiset<Facet>
    ghost var freed: multiset<Facet>

    ghost predicate RepsConsistent()
      reads `locales, `reps, `loose, locales, reps
    {
      LocalesOk(locales, reps, loose) && RepCounts(locales, reps, loose)
    }

    ghost predicate NodesConsistent()
      reads `reps, `nodes, `looseNodes, `installed, `freed, nodes
    {
      ListsOk(reps, nodes, looseNodes) && NodeCounts(reps, nodes, looseNodes) && FacetsAccounted(nodes, installed, freed)
    }

    // Between operations.
    ghost predicate Valid()
      reads this, locales, reps, nodes
    {
      RepsConsistent() && NodesConsistent() && loose == multiset{} && looseNodes == multiset{}
    }

    constructor ()
      ensures Valid() && locales == {} && installed == multiset{} && freed == multiset{}
    {
      locales, reps, nodes := {}, {}, {};
      loose, looseNodes := multiset{}, multiset{};
      installed, freed := multiset{}, multiset{};
    }

    // _release_node: gives up one reference to the node; the last one frees it and its facet,
    // and then gives up the node's reference to the next.
    method ReleaseNode(node: Node?)
      requires NodesConsistent()
      requires node != null ==> node in looseNodes
      modifies `nodes, `looseNodes, `freed, nodes
      ensures NodesConsistent()
      ensures looseNodes == if node == null then old(looseNodes) else old(looseNodes) - multiset{node}
      ensures nodes <= old(nodes)
      decreases if node == null then 0 else node.rank + 1
    {
      if node != null {
        ghost var before := looseNodes;
        DecrementNode(node);
        if node.refs == 0 {
          var next := node.next;
          DeleteNode(node);
          ReleaseNode(next);
          LooseAgain(before, node);
        }
      }
    }

    method DecrementNode(node: Node)
      requires NodesConsistent() && node in looseNodes
      modifies `looseNodes, node
      ensures looseNodes == old(looseNodes) - multiset{node} && node.refs == old(node.refs) - 1
      ensures ListsOk(reps, nodes, looseNodes) && NodesCounted(reps, nodes, looseNodes)
      ensures AllReferenced(nodes - {node}) && node.refs >= 0
    {
      node.refs := node.refs - 1;
      looseNodes := looseNodes - multiset{node};
    }

    ghost method DeleteNode(node: Node)
      requires ListsOk(reps, nodes, looseNodes) && FacetsAccounted(nodes, installed, freed)
      requires node in nodes && node.refs == 0
      requires NodesCounted(reps, nodes, looseNodes) && AllReferenced(nodes - {node})
      modifies `nodes, `looseNodes, `freed
      ensures NodesConsistent()
      ensures nodes == old(nodes) - {node} && freed == old(freed) + multiset{node.value}
      ensures looseNodes == old(looseNodes) + LooseNext(node)
    {
      DeletedConsistently(reps, nodes, looseNodes, installed, freed, node);
      nodes, freed, looseNodes :=
        nodes - {node}, freed + multiset{node.value}, looseNodes + LooseNext(node);
    }

    // _release: gives up one reference to the representation; the last one deletes it.
    method ReleaseRep(rep: Rep?)
      requires RepsConsistent() && NodesConsistent() && (rep != null ==> rep in loose)
      modifies `reps, `loose, `nodes, `looseNodes, `freed, reps, nodes
      ensures RepsConsistent() && NodesConsistent()
      ensures loose == old(loose) - LooseRep(rep) && looseNodes == old(looseNodes)
      ensures reps <= old(reps) && nodes <= old(nodes)
    {
      hide RepsCounted, NodesCounted, AllReferenced, ListsOk, FacetsAccounted;
      if rep != null {
        Decrement(rep);
        if rep.refs == 0 {
          DeleteRep(rep);
        }
      }
    }

    method Decrement(rep: Rep)
      requires RepsConsistent() && rep in loose
      modifies `loose, rep
      ensures loose == old(loose) - multiset{rep} && rep.refs == old(rep.refs) - 1
      ensures LocalesOk(locales, reps, loose) && RepsCounted(locales, reps, loose) && AllHeld(reps - {rep})
      ensures rep.refs >= 0
    {
      assert RepReferences(locales, loose, rep) == rep.refs && rep in reps;
      rep.refs := rep.refs - 1;
      loose := loose - multiset{rep};
      assert forall r :: r in reps && r != rep ==> RepReferences(locales, loose, r) == old(RepReferences(locales, loose, r));
      assert RepReferences(locales, loose, rep) == old(RepReferences(locales, loose, rep)) - 1;
    }

    method ReleaseHead(head: Node?)
      requires RepsConsistent() && NodesConsistent()
      requires head != null ==> head in looseNodes
      modifies `nodes, `looseNodes, `freed, nodes
      ensures RepsConsistent() && NodesConsistent()
      ensures looseNodes == if head == null then old(looseNodes) else old(looseNodes) - multiset{head}
      ensures nodes <= old(nodes)
    {
      ReleaseNode(head);
    }

    // delete rep: its destructor gives up the reference to the list.
    method DeleteRep(rep: Rep)
      requires LocalesOk(locales, reps, loose) && NodesConsistent()
      requires rep in reps && rep.refs == 0
      requires RepsCounted(locales, reps, loose) && AllHeld(reps - {rep})
      modifies `reps, `nodes, `looseNodes, `freed, nodes
      ensures RepsConsistent() && NodesConsistent()
      ensures reps == old(reps) - {rep} && looseNodes == old(looseNodes) && nodes <= old(nodes)
    {
      ghost var before := looseNodes;
      Forget(rep);
      HeadReleased(before, rep);
      ReleaseHead(rep.head);
    }

    // The representation leaves the world, and its reference to the list is loose.
    ghost method Forget(rep: Rep)
      requires LocalesOk(locales, reps, loose) && NodesConsistent()
      requires rep in reps && rep.refs == 0
      requires RepsCounted(locales, reps, loose) && AllHeld(reps - {rep})
      modifies `reps, `looseNodes
      ensures RepsConsistent() && NodesConsistent()
      ensures reps == old(reps) - {rep} && looseNodes == old(looseNodes) + LooseHead(rep)
    {
      NobodyHolds(locales, loose, rep);
      HeadLoosened(reps, nodes, looseNodes, rep);
      reps, looseNodes := reps - {rep}, looseNodes + LooseHead(rep);
    }

    // ----- The locale operations.

    // A locale object takes over one of the loose references.
    ghost method Admit(l: Locale)
      requires RepsConsistent() && l !in locales
      requires l.rep != null ==> l.rep in loose
      modifies `locales, `loose
      ensures RepsConsistent()
      ensures locales == old(locales) + {l} && loose == old(loose) - LooseRep(l.rep)
    {
      HolderAdmitted(locales, reps, loose, l);
      locales, loose := locales + {l}, loose - LooseRep(l.rep);
    }

    method Construct(rep: Rep?) returns (l: Locale)
      requires RepsConsistent() && (rep != null ==> rep in loose)
      modifies `locales, `loose
      ensures RepsConsistent() && fresh(l) && l.rep == rep
      ensures locales == old(locales) + {l} && loose == old(loose) - LooseRep(rep)
    {
      l := new Locale(rep);
      Admit(l);
    }

    // Its reference becomes loose when its lifetime, or the use of its old value, ends.
    ghost method Retire(l: Locale)
      requires RepsConsistent() && l in locales
      modifies `locales, `loose
      ensures RepsConsistent()
      ensures locales == old(locales) - {l} && loose == old(loose) + LooseRep(l.rep)
    {
      HolderRetired(locales, reps, loose, l);
      locales, loose := locales - {l}, loose + LooseRep(l.rep);
    }

    // if (rep) ++rep->refs
    method Share(rep: Rep?)
      requires RepsConsistent() && (rep != null ==> rep in reps)
      modifies `loose, reps
      ensures RepsConsistent() && loose == old(loose) + LooseRep(rep)
    {
      if rep != null {
        rep.refs := rep.refs + 1;
        loose := loose + multiset{rep};
      }
    }

    lemma RepIsLive(l: Locale)
      requires RepsConsistent() && l in locales
      ensures l.rep != null ==> l.rep in reps
    {
    }

    method CopyConstruct(other: Locale) returns (l: Locale)
      requires Valid() && other in locales
      modifies `locales, `loose, reps
      ensures Valid() && fresh(l) && locales == old(locales) + {l}
      ensures l.rep == other.rep
    {
      hide RepsCounted, NodesCounted, AllReferenced, AllHeld, LocalesOk, ListsOk, FacetsAccounted;
      RepIsLive(other);
      LooseCancels(loose, other.rep);
      Share(other.rep);
      l := Construct(other.rep);
    }

    // The locale gives up its reference.
    method Vacate(l: Locale)
      requires RepsConsistent() && NodesConsistent() && l in locales
      modifies `locales, `reps, `loose, `nodes, `looseNodes, `freed, reps, nodes
      ensures RepsConsistent() && NodesConsistent()
      ensures loose == old(loose) && looseNodes == old(looseNodes) && locales == old(locales) - {l}
      ensures reps <= old(reps) && nodes <= old(nodes)
    {
      hide LooseRep, RepsCounted, NodesCounted, AllReferenced, AllHeld, LocalesOk, ListsOk, FacetsAccounted;
      LooseCancels(loose, l.rep);
      Retire(l);
      ReleaseRep(l.rep);
    }

    method Destroy(l: Locale)
      requires Valid() && l in locales
      modifies `locales, `reps, `loose, `nodes, `looseNodes, `freed, reps, nodes
      ensures Valid() && locales == old(locales) - {l}
      ensures reps <= old(reps) && nodes <= old(nodes)
    {
      hide RepsConsistent, NodesConsistent;
      Vacate(l);
    }

    method DefaultConstruct() returns (l: Locale)
      requires Valid()
      modifies `locales, `loose
      ensures Valid() && fresh(l) && locales == old(locales) + {l} && l.rep == null
    {
      l := Construct(null);
    }

    // A representation that carries only a name.
    ghost method InstallName(rep: Rep)
      requires RepsConsistent() && NodesConsistent()
      requires rep !in reps && rep.head == null && rep.refs == 1 && forall l :: l in locales ==> l.rep != rep
      modifies `reps, `loose
      ensures RepsConsistent() && NodesConsistent()
      ensures reps == old(reps) + {rep} && loose == old(loose) + multiset{rep}
    {
      hide RepsCounted, NodesCounted, AllReferenced, ListsOk, FacetsAccounted;
      RepInstalled(locales, reps, loose, rep);
      HeadlessInstalled(reps, nodes, looseNodes, rep);
      reps, loose := reps + {rep}, loose + multiset{rep};
    }

    method ConstructNamed(name: string) returns (l: Locale)
      requires Valid()
      modifies `locales, `reps, `loose
      ensures Valid() && fresh(l) && locales == old(locales) + {l} && Facets(l) == [] && Name(l) == Some(name)
    {
      hide RepsCounted, NodesCounted, AllReferenced, AllHeld, LocalesOk, ListsOk, FacetsAccounted;
      var rep := new Rep.Named(name);
      LooseCancels(loose, rep);
      InstallName(rep);
      l := Construct(rep);
    }

    method MakeNamed(name: Option<string>) returns (result: Result<Locale, string>)
      requires Valid()
      modifies `locales, `reps, `loose
      ensures Valid()
      ensures result.Err? <==> name.Some? && name.value !in ["C", "POSIX", "en_US.UTF-8"]
      ensures result.Err? ==> locales == old(locales) && reps == old(reps)
      ensures result.Ok? ==> fresh(result.value) && locales == old(locales) + {result.value} && Facets(result.value) == []
      ensures result.Ok? ==> Name(result.value) == (if name == Some("en_US.UTF-8") then name else None)
    {
      hide RepsConsistent, NodesConsistent;
      if name == None || name == Some("C") || name == Some("POSIX") {
        var l := DefaultConstruct();
        return Ok(l);
      }
      if name != Some("en_US.UTF-8") {
        return Err("locale name not supported");
      }
      var l := ConstructNamed(name.value);
      result := Ok(l);
    }

    // A representation that owns a fresh node in front of the inherited ones.
    ghost method InstallFacet(rep: Rep)
      requires RepsConsistent() && ListsOk(reps, nodes, looseNodes) && FacetsAccounted(nodes, installed, freed)
      requires rep !in reps && rep.refs == 1 && forall l :: l in locales ==> l.rep != rep
      requires rep.head != null && rep.head !in nodes && rep.head.refs == 1
      requires InFront(nodes, rep.head) && AllReferenced(nodes)
      requires CountedBut(reps, nodes, looseNodes, rep.head.next)
      modifies `reps, `loose, `nodes, `installed
      ensures RepsConsistent() && NodesConsistent()
      ensures reps == old(reps) + {rep} && loose == old(loose) + multiset{rep}
      ensures nodes == old(nodes) + {rep.head} && installed == old(installed) + multiset{rep.head.value}
    {
      hide RepsCounted, NodesCounted, FacetsAccounted, CountedBut, ListsOk;
      RepInstalled(locales, reps, loose, rep);
      FacetInstalled(reps, nodes, looseNodes, installed, freed, rep);
      reps, loose := reps + {rep}, loose + multiset{rep};
      nodes, installed := nodes + {rep.head}, installed + multiset{rep.head.value};
    }

    method MakeRep(f: Facet, inherited: Node?) returns (rep: Rep)
      requires NodesConsistent() && (inherited != null ==> inherited in nodes)
      modifies nodes
      ensures fresh(rep) && rep.refs == 1 && rep.head != null && fresh(rep.head) && rep.head.refs == 1
      ensures rep.head.value == f && rep.head.next == inherited && InFront(nodes, rep.head)
      ensures AllReferenced(nodes) && CountedBut(reps, nodes, looseNodes, inherited)
      ensures Chain(FirstFacet(rep)) == [f] + Chain(inherited)
    {
      rep := new Rep.WithFacet(f, inherited);
      ChainInFront(nodes, rep.head);
    }

    // new _rep(f, inherited)
    method MakeFacetRep(f: Facet, inherited: Node?) returns (rep: Rep)
      requires RepsConsistent() && NodesConsistent() && (inherited != null ==> inherited in nodes)
      modifies `reps, `loose, `nodes, `installed, nodes
      ensures RepsConsistent() && NodesConsistent()
      ensures loose == old(loose) + LooseRep(rep) && installed == old(installed) + multiset{f}
      ensures Chain(FirstFacet(rep)) == [f] + Chain(inherited) && Shares(rep, inherited)
      ensures nodes == old(nodes) + {rep.head} && fresh(rep.head)
      ensures reps == old(reps) + {rep} && fresh(rep)
    {
      hide RepsConsistent, NodeCounts, ListsOk, FacetsAccounted, AllReferenced, CountedBut, Chain, FirstFacet;
      rep := MakeRep(f, inherited);
      InstallFacet(rep);
    }

    lemma HeadIsLive(l: Locale)
      requires Valid() && l in locales && FirstFacet(l.rep) != null
      ensures FirstFacet(l.rep) in nodes
    {
    }

    // _with_facet: the new facet in front of the inherited ones, which stay shared.
    method WithFacet(other: Locale, f: Facet) returns (l: Locale)
      requires Valid() && other in locales
      modifies `locales, `reps, `loose, `nodes, `installed, nodes
      ensures Valid() && fresh(l) && locales == old(locales) + {l}
      ensures Facets(l) == [f] + Facets(other) && installed == old(installed) + multiset{f}
      ensures l.rep != null && Shares(l.rep, FirstFacet(other.rep))
      ensures nodes == old(nodes) + {l.rep.head} && fresh(l.rep.head)
      ensures reps == old(reps) + {l.rep} && fresh(l.rep)
    {
      hide LooseRep, RepsConsistent, NodesConsistent, Chain, FirstFacet;
      ghost var before := loose;
      if FirstFacet(other.rep) != null {
        HeadIsLive(other);
      }
      var rep := MakeFacetRep(f, FirstFacet(other.rep));
      LooseCancels(before, rep);
      l := Construct(rep);
    }

    method Assign(l: Locale, other: Locale)
      requires Valid() && l in locales && other in locales
      modifies `locales, `reps, `loose, `nodes, `looseNodes, `freed, reps, nodes, l
      ensures Valid() && locales == old(locales) && l.rep == old(other.rep)
      ensures reps <= old(reps) && nodes <= old(nodes)
    {
      hide LooseRep, RepsCounted, NodesCounted, AllReferenced, AllHeld, LocalesOk, ListsOk, FacetsAccounted;
      if l.rep != other.rep {
        RepIsLive(other);
        Restored(locales, l, l);
        LooseCancels(loose, other.rep);
        Share(other.rep);
        Vacate(l);
        Occupy(l, other.rep);
      }
    }

    // rep_ = rep
    method Occupy(l: Locale, rep: Rep?)
      requires RepsConsistent() && l !in locales && (rep != null ==> rep in loose)
      modifies `locales, `loose, l
      ensures RepsConsistent() && l.rep == rep
      ensures locales == old(locales) + {l} && loose == old(loose) - LooseRep(rep)
    {
      hide LooseRep, RepsCounted, AllHeld, LocalesOk;
      l.rep := rep;
      Admit(l);
    }

    method Swap(left: Locale, right: Locale)
      requires Valid() && left in locales && right in locales
      modifies `locales, `loose, left, right
      ensures Valid() && locales == old(locales)
      ensures left.rep == old(right.rep) && right.rep == old(left.rep)
    {
      hide LooseRep, RepsCounted, NodesCounted, AllReferenced, AllHeld, LocalesOk, ListsOk, FacetsAccounted;
      if left != right {
        Restored(locales, left, right);
        Exchange(left, right);
      }
    }

    method Exchange(left: Locale, right: Locale)
      requires RepsConsistent() && left in locales && right in locales && left != right && loose == multiset{}
      modifies `locales, `loose, left, right
      ensures RepsConsistent() && loose == multiset{}
      ensures locales == old(locales) - {left} - {right} + {left} + {right}
      ensures left.rep == old(right.rep) && right.rep == old(left.rep)
    {
      hide RepsConsistent, LooseRep;
      ghost var first, second := left.rep, right.rep;
      AssignSettled(second, first);
      Retire(left);
      Retire(right);
      assert loose == multiset{} + LooseRep(first) + LooseRep(second);
      Cross(left, right);
      Admit(left);
      assert loose == LooseRep(first);
      Admit(right);
    }

    method Cross(left: Locale, right: Locale)
      requires RepsConsistent() && left !in locales && right !in locales
      modifies left, right
      ensures RepsConsistent()
      ensures left.rep == old(right.rep) && right.rep == old(left.rep)
    {
      hide RepsCounted, AllHeld, LocalesOk;
      var rep := left.rep;
      left.rep := right.rep;
      right.rep := rep;
    }

    // Installs loc as the global locale, and returns the previous one.
    method SetGlobal(current: Locale, loc: Locale) returns (previous: Locale)
      requires Valid() && current in locales && loc in locales
      modifies `locales, `reps, `loose, `nodes, `looseNodes, `freed, reps, nodes, current
      ensures Valid() && fresh(previous) && locales == old(locales) + {previous}
      ensures previous.rep == old(current.rep) && current.rep == old(loc.rep)
    {
      hide RepsConsistent, NodesConsistent;
      previous := CopyConstruct(current);
      Assign(current, loc);
    }
  }

  // ----- Nothing dangles, nothing leaks.

  // The nodes of a list.
  ghost function ListNodes(node: Node?): set<Node>
    decreases if node == null then 0 else node.rank + 1
  {
    if node == null then {}
    else {node} + (if node.next != null && node.next.rank < node.rank then ListNodes(node.next) else {})
  }

  // The nodes that a locale can reach.
  ghost function Reached(l: Locale): set<Node>
    reads l
  {
    ListNodes(FirstFacet(l.rep))
  }

  lemma {:induction false} ListStaysInside(reps: set<Rep>, nodes: set<Node>, loose: multiset<Node>, node: Node?)
    requires ListsOk(reps, nodes, loose) && (node != null ==> node in nodes)
    ensures ListNodes(node) <= nodes
    decreases if node == null then 0 else node.rank + 1
  {
    if node != null {
      ListStaysInside(reps, nodes, loose, node.next);
    }
  }

  // The list is complete: it goes on until a node without a next one.
  lemma {:induction false} ListIsClosed(reps: set<Rep>, nodes: set<Node>, loose: multiset<Node>, node: Node?, n: Node)
    requires ListsOk(reps, nodes, loose) && (node != null ==> node in nodes)
    requires n in ListNodes(node)
    ensures n.next != null ==> n.next in ListNodes(node)
    decreases if node == null then 0 else node.rank + 1
  {
    if n != node {
      ListIsClosed(reps, nodes, loose, node.next, n);
    }
  }

  lemma {:induction false} ChainNodes(reps: set<Rep>, nodes: set<Node>, loose: multiset<Node>, node: Node?, f: Facet)
    requires ListsOk(reps, nodes, loose) && (node != null ==> node in nodes)
    ensures f in Chain(node) <==> exists n :: n in ListNodes(node) && n.value == f
    decreases if node == null then 0 else node.rank + 1
  {
    if node != null {
      ChainNodes(reps, nodes, loose, node.next, f);
      assert node in ListNodes(node);
      assert ListNodes(node) == {node} + ListNodes(node.next);
      assert Chain(node) == [node.value] + Chain(node.next);
    }
  }

  lemma NothingDangles(w: World, l: Locale)
    requires w.Valid() && l in w.locales
    ensures Reached(l) <= w.nodes
    ensures forall n :: n in Reached(l) && n.next != null ==> n.next in Reached(l)
  {
    ListStaysInside(w.reps, w.nodes, w.looseNodes, FirstFacet(l.rep));
    forall n | n in Reached(l) && n.next != null
      ensures n.next in Reached(l)
    {
      ListIsClosed(w.reps, w.nodes, w.looseNodes, FirstFacet(l.rep), n);
    }
  }

  ghost function Above(nodes: set<Node>, node: Node): set<Node> {
    set n | n in nodes && n.rank > node.rank
  }

  lemma RepIsHeld(w: World, r: Rep)
    requires w.Valid() && r in w.reps
    ensures exists l :: l in w.locales && l.rep == r
  {
    assert r.refs > 0;
    var l :| l in Holders(w.locales, r);
  }

  lemma {:induction false} NothingLeaks(w: World, n: Node)
    requires w.Valid() && n in w.nodes
    ensures exists l :: l in w.locales && n in Reached(l)
    decreases |Above(w.nodes, n)|
  {
    if Heads(w.reps, n) != {} {
      var r :| r in Heads(w.reps, n);
      RepIsHeld(w, r);
      var l :| l in w.locales && l.rep == r;
      assert n in Reached(l);
    } else {
      assert Links(w.nodes, n) != {} by {
        assert n.refs > 0;
      }
      var m :| m in Links(w.nodes, n);
      Higher(w.nodes, n, m);
      NothingLeaks(w, m);
      var l :| l in w.locales && m in Reached(l);
      NothingDangles(w, l);
    }
  }

  lemma Higher(nodes: set<Node>, n: Node, m: Node)
    requires m in nodes && n.rank < m.rank
    ensures |Above(nodes, m)| < |Above(nodes, n)|
  {
    assert Above(nodes, m) <= Above(nodes, n) - {m};
    Smaller(Above(nodes, m), Above(nodes, n) - {m});
  }

  lemma {:induction false} Smaller(a: set<Node>, b: set<Node>)
    requires a <= b
    ensures |a| <= |b|
  {
    if a != {} {
      var n :| n in a;
      Smaller(a - {n}, b - {n});
    }
  }

  // The nodes kept are exactly those that some live locale reaches.
  lemma LiveExactly(w: World, n: Node)
    requires w.Valid()
    ensures n in w.nodes <==> exists l :: l in w.locales && n in Reached(l)
  {
    if n in w.nodes {
      NothingLeaks(w, n);
    }
    forall l | l in w.locales && n in Reached(l)
      ensures n in w.nodes
    {
      NothingDangles(w, l);
    }
  }

  // A facet is held back exactly as long as a live locale has it.
  lemma HeldExactly(w: World, f: Facet)
    requires w.Valid()
    ensures Holding(w.nodes, f) != {} <==> exists l :: l in w.locales && f in Facets(l)
  {
    if Holding(w.nodes, f) != {} {
      var n :| n in Holding(w.nodes, f);
      NothingLeaks(w, n);
      var l :| l in w.locales && n in Reached(l);
      ChainNodes(w.reps, w.nodes, w.looseNodes, FirstFacet(l.rep), f);
      assert f in Facets(l);
    }
    forall l | l in w.locales && f in Facets(l)
      ensures Holding(w.nodes, f) != {}
    {
      NothingDangles(w, l);
      ChainNodes(w.reps, w.nodes, w.looseNodes, FirstFacet(l.rep), f);
      var n :| n in Reached(l) && n.value == f;
      assert n in Holding(w.nodes, f);
    }
  }

  // Never freed more often than installed; all of it freed exactly when no live locale has it.
  lemma FreedExactly(w: World, f: Facet)
    requires w.Valid()
    ensures w.freed[f] <= w.installed[f]
    ensures w.freed[f] == w.installed[f] <==> forall l :: l in w.locales ==> f !in Facets(l)
  {
    HeldExactly(w, f);
    assert w.freed[f] + |Holding(w.nodes, f)| == w.installed[f];
    assert |Holding(w.nodes, f)| == 0 <==> Holding(w.nodes, f) == {};
  }

  // A facet installed once is freed at most once, and exactly when no live locale has it.
  lemma InstalledOnceFreedOnce(w: World, f: Facet)
    requires w.Valid() && w.installed[f] == 1
    ensures w.freed[f] <= 1
    ensures w.freed[f] == 1 <==> forall l :: l in w.locales ==> f !in Facets(l)
  {
    FreedExactly(w, f);
  }

  // When the last locale is gone, so is everything else.
  lemma NothingRemains(w: World)
    requires w.Valid() && w.locales == {}
    ensures w.nodes == {} && w.reps == {} && w.freed == w.installed
  {
    forall n | n in w.nodes
      ensures false
    {
      NothingLeaks(w, n);
    }
    forall r | r in w.reps
      ensures false
    {
      RepIsHeld(w, r);
    }
    forall f: Facet
      ensures w.freed[f] == w.installed[f]
    {
      FreedExactly(w, f);
    }
  }

  // ----- A facet installed more than once.

  // A deleted facet is still in some live locale if and only if it was installed again and not
  // all of it has gone; it takes two installations.
  lemma DeletedWhileHeld(w: World, f: Facet)
    requires w.Valid()
    ensures (w.freed[f] > 0 && exists l :: l in w.locales && f in Facets(l))
            <==> 0 < w.freed[f] < w.installed[f]
    ensures w.installed[f] <= 1 ==> !(w.freed[f] > 0 && exists l :: l in w.locales && f in Facets(l))
  {
    FreedExactly(w, f);
  }

  // Once no live locale has it, it was deleted once if and only if it was installed once.
  lemma DeletedOnceExactly(w: World, f: Facet)
    requires w.Valid() && forall l :: l in w.locales ==> f !in Facets(l)
    ensures w.freed[f] == 1 <==> w.installed[f] == 1
  {
    FreedExactly(w, f);
  }

  lemma NotInstalled(w: World, f: Facet)
    requires w.Valid() && w.installed[f] == 0
    ensures Holding(w.nodes, f) == {} && w.freed[f] == 0
  {
    assert w.freed[f] + |Holding(w.nodes, f)| == w.installed[f];
  }

  lemma NewNodeUnreached(nodes: set<Node>, loose: multiset<Node>, reps: set<Rep>, l: Locale, n: Node)
    requires ListsOk(reps, nodes, loose) && (FirstFacet(l.rep) != null ==> FirstFacet(l.rep) in nodes) && n !in nodes
    ensures n !in Reached(l)
  {
    ListStaysInside(reps, nodes, loose, FirstFacet(l.rep));
  }

  // What remains when the first of two installations of a facet goes.
  lemma OneInstallationLeft(w: World, f: Facet, b: Locale)
    requires w.Valid() && w.installed[f] == 2 && b in w.locales && f in Facets(b)
    requires forall n :: n in w.nodes && n.value == f ==> b.rep != null && n == b.rep.head
    ensures w.freed[f] == 1
  {
    HeldExactly(w, f);
    assert b.rep != null && Holding(w.nodes, f) == {b.rep.head} by {
      var n :| n in Holding(w.nodes, f);
    }
    assert w.freed[f] + |Holding(w.nodes, f)| == w.installed[f];
  }

  lemma FirstIsInside(w: World, l: Locale)
    requires w.Valid() && l in w.locales
    ensures ListsOk(w.reps, w.nodes, w.looseNodes)
    ensures FirstFacet(l.rep) != null ==> FirstFacet(l.rep) in w.nodes
  {
  }

  lemma InFrontUnreached(b: Locale, l: Locale, n: Node)
    requires b.rep != null && Shares(b.rep, FirstFacet(l.rep)) && n != b.rep.head && n !in Reached(l)
    ensures n !in Reached(b)
  {
  }

  // Two locales that install the same facet, and then the first one goes: the facet is deleted
  // while the second, which lives on, still has it.
  method InstallTwice(w: World, l: Locale, f: Facet) returns (b: Locale)
    requires w.Valid() && l in w.locales && w.installed[f] == 0
    modifies w, w.reps, w.nodes
    ensures w.Valid() && b in w.locales && f in Facets(b) && w.freed[f] == 1
  {
    hide ListsOk, Holding, ListNodes, FirstFacet, Reached, Facets, Chain;
    hide w.RepsConsistent, w.NodesConsistent;
    ghost var reps, nodes, loose, locales := w.reps, w.nodes, w.looseNodes, w.locales;
    NotInstalled(w, f);
    FirstIsInside(w, l);
    forall k | k in locales
      ensures FirstFacet(k.rep) != null ==> FirstFacet(k.rep) in nodes
    {
      FirstIsInside(w, k);
    }
    var a := w.WithFacet(l, f);
    ghost var first := a.rep.head;
    b := w.WithFacet(l, f);
    w.Destroy(a);
    forall k | k in w.locales
      ensures first !in Reached(k)
    {
      if k == b {
        NewNodeUnreached(nodes, loose, reps, l, first);
        InFrontUnreached(b, l, first);
      } else {
        NewNodeUnreached(nodes, loose, reps, k, first);
      }
    }
    LiveExactly(w, first);
    OldNodesHold(nodes, f);
    OneInstallationLeft(w, f, b);
  }

  lemma OldNodesHold(nodes: set<Node>, f: Facet)
    requires Holding(nodes, f) == {}
    ensures forall n :: n in nodes ==> n.value != f
  {
    forall n | n in nodes
      ensures n.value != f
    {
      assert n !in Holding(nodes, f);
    }
  }
}
