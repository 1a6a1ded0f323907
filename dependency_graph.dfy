/**
 * The per-file fine-grained dependency graph of
 * src/ast/FineGrainedDependencies.cpp.
 *
 * Nodes are kept in `allNodes`, each knowing its own position (its sequence
 * number); a memo table finds the node for a dependency key. A node records
 * the sequence numbers of the definitions it depends upon. The graph is
 * built through find-or-create, so that keys stay unique, and `verify`
 * checks that they are, that every node sits at its own sequence number and
 * that no node depends on itself.
 */
module DependencyGraph {
  import opened Wrappers

  datatype NodeKind = TopLevel | Nominal | PotentialMember | Member | DynamicLookup | ExternalDepend | SourceFileProvide

  datatype DeclAspect = Interface | Implementation

  datatype DependencyKey = DependencyKey(kind: NodeKind, aspect: DeclAspect, context: string, name: string)
  {
    predicate IsInterface()
    {
      aspect == Interface
    }
  }

  /** `DependencyKey::verify`: an external dependency is always an interface. */
  predicate KeyVerifies(key: DependencyKey)
  {
    key.kind == ExternalDepend ==> key.IsInterface()
  }

  /** `SourceFileDepGraphNode`. */
  datatype Node = Node(key: DependencyKey, fingerprint: Option<string>, sequenceNumber: nat,
                       defsIDependUpon: set<nat>, isProvides: bool)

  /** What `verify` checks of a node list. */
  predicate WellFormedNodes(nodes: seq<Node>)
  {
    (forall i :: 0 <= i < |nodes| ==> nodes[i].sequenceNumber == i) &&
    (forall i :: 0 <= i < |nodes| ==> KeyVerifies(nodes[i].key)) &&
    (forall i, j :: 0 <= i < j < |nodes| ==> nodes[i].key != nodes[j].key) &&
    (forall i :: 0 <= i < |nodes| ==> i !in nodes[i].defsIDependUpon)
  }

  /** `verifySame`: the same number of nodes, pairwise equal. */
  method VerifySame(nodes: seq<Node>, other: seq<Node>) returns (same: bool)
    ensures same <==> |nodes| == |other| && forall i :: 0 <= i < |nodes| ==> nodes[i] == other[i]
    ensures same <==> nodes == other
  {
    if |nodes| != |other| {
      return false;
    }
    for i := 0 to |nodes|
      invariant forall k :: 0 <= k < i ==> nodes[k] == other[k]
    {
      if nodes[i] != other[i] {
        return false;
      }
    }
    assert nodes == other;
    return true;
  }

  class SourceFileDepGraph {
    var allNodes: seq<Node>
    /** `memoizedNodes`: the sequence number of the node with each key. */
    var memoizedNodes: map<DependencyKey, nat>

    /**
     * Every node is at its sequence number, the memo table maps exactly
     * the keys of the nodes to their positions, external dependencies are
     * interfaces, and arcs join distinct existing nodes.
     */
    ghost predicate Valid()
      reads this
    {
      (forall i :: 0 <= i < |allNodes| ==> allNodes[i].sequenceNumber == i) &&
      (forall k :: k in memoizedNodes ==> memoizedNodes[k] < |allNodes| && allNodes[memoizedNodes[k]].key == k) &&
      (forall i :: 0 <= i < |allNodes| ==> allNodes[i].key in memoizedNodes && memoizedNodes[allNodes[i].key] == i) &&
      (forall i :: 0 <= i < |allNodes| ==> KeyVerifies(allNodes[i].key)) &&
      (forall i, d :: 0 <= i < |allNodes| && d in allNodes[i].defsIDependUpon ==> d < |allNodes| && d != i)
    }

    constructor ()
      ensures Valid() && allNodes == [] && memoizedNodes == map[]
    {
      allNodes := [];
      memoizedNodes := map[];
    }

    /** `getNode`: the node at a sequence number, which carries that number. */
    function GetNode(sequenceNumber: nat): (n: Node)
      reads this
      requires Valid() && sequenceNumber < |allNodes|
      ensures n.sequenceNumber == sequenceNumber && n in allNodes
    {
      allNodes[sequenceNumber]
    }

    /** `getSourceFileNodePair`: the first two nodes, which must both provide the source file. */
    function GetSourceFileNodePair(): (pair: (Node, Node))
      reads this
      requires Valid() && |allNodes| >= 2
      requires GetNode(0).key.kind == SourceFileProvide && GetNode(1).key.kind == SourceFileProvide
      ensures pair.0.sequenceNumber == 0 && pair.1.sequenceNumber == 1
      ensures pair.0.key.kind == SourceFileProvide && pair.1.key.kind == SourceFileProvide
    {
      (GetNode(0), GetNode(1))
    }

    /** `addNode`: a node joins the end, numbered by its position. */
    method AddNode(key: DependencyKey, fingerprint: Option<string>, isProvides: bool) returns (seqNo: nat)
      requires Valid() && key !in memoizedNodes && KeyVerifies(key)
      modifies this
      ensures Valid() && seqNo == old(|allNodes|)
      ensures allNodes == old(allNodes) + [Node(key, fingerprint, seqNo, {}, isProvides)]
      ensures memoizedNodes == old(memoizedNodes)[key := seqNo]
    {
      seqNo := |allNodes|;
      allNodes := allNodes + [Node(key, fingerprint, seqNo, {}, isProvides)];
      memoizedNodes := memoizedNodes[key := seqNo];
    }

    /**
     * `findExistingNodeOrCreateIfNew`: the node already holding the key, or
     * a new one at the end; asked for as a provider, the node is marked as
     * one either way. An existing node keeps its fingerprint.
     */
    method FindExistingNodeOrCreateIfNew(key: DependencyKey, fingerprint: Option<string>, isProvides: bool)
      returns (seqNo: nat)
      requires Valid() && KeyVerifies(key)
      modifies this
      ensures Valid() && seqNo < |allNodes| && allNodes[seqNo].key == key
      ensures key in old(memoizedNodes) ==> seqNo == old(memoizedNodes[key]) && |allNodes| == old(|allNodes|)
      ensures key !in old(memoizedNodes) ==>
                seqNo == old(|allNodes|) && |allNodes| == seqNo + 1 && allNodes[seqNo] == Node(key, fingerprint, seqNo, {}, isProvides)
      ensures allNodes[seqNo].isProvides == (isProvides || (key in old(memoizedNodes) && old(allNodes[memoizedNodes[key]].isProvides)))
      ensures key in old(memoizedNodes) ==>
                allNodes[seqNo].fingerprint == old(allNodes[memoizedNodes[key]].fingerprint) &&
                allNodes[seqNo].defsIDependUpon == old(allNodes[memoizedNodes[key]].defsIDependUpon)
      ensures forall i :: 0 <= i < old(|allNodes|) && i != seqNo ==> allNodes[i] == old(allNodes[i])
      ensures memoizedNodes.Keys == old(memoizedNodes.Keys) + {key}
      ensures forall k :: k in old(memoizedNodes) ==> memoizedNodes[k] == old(memoizedNodes[k])
    {
      if key in memoizedNodes {
        seqNo := memoizedNodes[key];
      } else {
        seqNo := AddNode(key, fingerprint, isProvides);
      }
      if isProvides {
        SetIsProvides(seqNo);
      }
    }

    /** `setIsProvides`. */
    method SetIsProvides(seqNo: nat)
      requires Valid() && seqNo < |allNodes|
      modifies this
      ensures Valid() && allNodes == old(allNodes)[seqNo := old(allNodes[seqNo]).(isProvides := true)]
      ensures memoizedNodes == old(memoizedNodes)
    {
      allNodes := allNodes[seqNo := allNodes[seqNo].(isProvides := true)];
    }

    /** `addArc`: the use records that it depends upon the definition. */
    method AddArc(def: nat, use: nat)
      requires Valid() && def < |allNodes| && use < |allNodes| && def != use
      modifies this
      ensures Valid()
      ensures allNodes == old(allNodes)[use := old(allNodes[use]).(defsIDependUpon := old(allNodes[use].defsIDependUpon) + {def})]
      ensures memoizedNodes == old(memoizedNodes)
    {
      allNodes := allNodes[use := allNodes[use].(defsIDependUpon := allNodes[use].defsIDependUpon + {def})];
    }

    /**
     * `findExistingNodePairOrCreateAndAddIfNew`: the interface and the
     * implementation node of one declaration, both providers, with the
     * implementation depending on the interface.
     */
    method FindExistingNodePairOrCreateAndAddIfNew(k: NodeKind, context: string, name: string, fingerprint: Option<string>)
      returns (iface: nat, impl: nat)
      requires Valid() && k != ExternalDepend
      modifies this
      ensures Valid() && iface < |allNodes| && impl < |allNodes| && iface != impl
      ensures allNodes[iface].key == DependencyKey(k, Interface, context, name)
      ensures allNodes[impl].key == DependencyKey(k, Implementation, context, name)
      ensures allNodes[iface].isProvides && allNodes[impl].isProvides
      ensures iface in allNodes[impl].defsIDependUpon
      ensures old(|allNodes|) <= |allNodes| <= old(|allNodes|) + 2
      // an existing key keeps its node: found again, not created
      ensures DependencyKey(k, Interface, context, name) in old(memoizedNodes) ==>
                iface == old(memoizedNodes[DependencyKey(k, Interface, context, name)])
      ensures DependencyKey(k, Implementation, context, name) in old(memoizedNodes) ==>
                impl == old(memoizedNodes[DependencyKey(k, Implementation, context, name)])
      ensures |allNodes| == old(|allNodes|) + (if DependencyKey(k, Interface, context, name) in old(memoizedNodes) then 0 else 1)
                                            + (if DependencyKey(k, Implementation, context, name) in old(memoizedNodes) then 0 else 1)
      // the interface node: old contents, now a provider; or a new node
      ensures iface < old(|allNodes|) ==> allNodes[iface] == old(allNodes[iface]).(isProvides := true)
      ensures iface >= old(|allNodes|) ==> allNodes[iface] == Node(DependencyKey(k, Interface, context, name), fingerprint, iface, {}, true)
      // the implementation node: old contents, a provider, now depending on the interface; or a new node
      ensures impl < old(|allNodes|) ==>
                allNodes[impl] == old(allNodes[impl]).(isProvides := true, defsIDependUpon := old(allNodes[impl].defsIDependUpon) + {iface})
      ensures impl >= old(|allNodes|) ==> allNodes[impl] == Node(DependencyKey(k, Implementation, context, name), fingerprint, impl, {iface}, true)
      // nothing else changes
      ensures forall i :: 0 <= i < old(|allNodes|) && i != iface && i != impl ==> allNodes[i] == old(allNodes[i])
      ensures memoizedNodes.Keys == old(memoizedNodes.Keys) + {DependencyKey(k, Interface, context, name), DependencyKey(k, Implementation, context, name)}
      ensures forall key :: key in old(memoizedNodes) ==> memoizedNodes[key] == old(memoizedNodes[key])
    {
      ghost var nodes0, memo0 := allNodes, memoizedNodes;
      iface := FindExistingNodeOrCreateIfNew(DependencyKey(k, Interface, context, name), fingerprint, true);
      ghost var nodes1 := allNodes;
      impl := FindExistingNodeOrCreateIfNew(DependencyKey(k, Implementation, context, name), fingerprint, true);
      ghost var nodes2 := allNodes;
      assert impl != iface by {
        assert nodes2[iface].key == nodes1[iface].key;
      }
      AddArc(iface, impl);
      assert iface < |nodes0| ==> nodes2[iface] == nodes0[iface].(isProvides := true);
    }

    /**
     * `verify`: walk the nodes, remembering each key seen, and fail on a
     * node out of place, a key that does not verify, a repeated key or a
     * node that depends on itself.
     */
    method Verify() returns (ok: bool)
      ensures ok <==> WellFormedNodes(allNodes)
    {
      var nodesSeen: map<DependencyKey, nat> := map[];
      for i := 0 to |allNodes|
        invariant WellFormedNodes(allNodes[..i])
        invariant forall k :: k in nodesSeen <==> exists j :: 0 <= j < i && allNodes[j].key == k
        invariant forall k :: k in nodesSeen ==> nodesSeen[k] < i && allNodes[nodesSeen[k]].key == k
      {
        var n := allNodes[i];
        if n.sequenceNumber != i || !KeyVerifies(n.key) || i in n.defsIDependUpon {
          assert !WellFormedNodes(allNodes);
          return false;
        }
        if n.key in nodesSeen {
          assert allNodes[nodesSeen[n.key]].key == allNodes[i].key;
          return false;
        }
        nodesSeen := nodesSeen[n.key := i];
        assert allNodes[..i + 1] == allNodes[..i] + [n];
      }
      assert allNodes[..|allNodes|] == allNodes;
      return true;
    }

    /** A graph built through find-or-create always passes `verify`. */
    lemma ValidPassesVerify()
      requires Valid()
      ensures WellFormedNodes(allNodes)
    {
    }
  }
}
