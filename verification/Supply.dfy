/** Why the composer may order a supplier first: matching outputs are exactly those that establish a condition. */
module Supply {
  import opened Wrappers
  import opened StorageModel
  import opened Prerequisites
  import opened Evidence
  import opened Effects
  import opened Traces
  import opened Endpoints
  import opened Requirements

  predicate IsMet(s: Simulation, p: ActionPrerequisite) {
    EvaluatePrerequisite(s, p).Satisfied?
  }

  /** A new node can be inserted, an interface belongs to an active node; anything else can always be output. */
  ghost predicate CanTake(s: Simulation, output: ActionOutput) {
    match output
    case NodeOutput(id, _) => id !in s.desired.graph.nodes
    case BlockInterface(node, _) => node in s.desired.graph.nodes && ActivationOf(s.evidence, node) != Some(false)
    case _ => true
  }

  /** The state in which the output is there: its node inserted, or its claim in the ledger. */
  ghost function Delivered(s: Simulation, output: ActionOutput): Simulation {
    match output
    case NodeOutput(id, spec) =>
      if id in s.desired.graph.nodes then s else ApplyGraph(s, InsertNode(id, spec)).value
    case _ => s.(evidence := ApplyOutput(s.evidence, output))
  }

  ghost predicate AlwaysMeets(output: ActionOutput, p: ActionPrerequisite) {
    forall s: Simulation :: CanTake(s, output) ==> IsMet(Delivered(s, output), p)
  }

  ghost predicate Turns(s: Simulation, output: ActionOutput, p: ActionPrerequisite) {
    CanTake(s, output) && !IsMet(s, p) && IsMet(Delivered(s, output), p)
  }

  /** The output makes a difference somewhere and is enough everywhere. */
  ghost predicate Establishes(output: ActionOutput, p: ActionPrerequisite) {
    AlwaysMeets(output, p) && exists s: Simulation :: Turns(s, output, p)
  }

  const NO_EVIDENCE := SimulationEvidence({}, map[], map[], map[], {}, {}, {}, false, {})

  /** No nodes at all, yet a layer, a relation and a mount that refer to one. */
  function Dangling(id: NodeId): Simulation {
    Simulation(
      DesiredState(NodeGraph(map[], {Dependency(id, id + 1, Backs)}, {Relation(id, id, "")}),
                   [MountEntry(Filesystem(id), [], [], Host)], [], Unmanaged),
      NO_EVIDENCE)
  }

  /** A disk that nothing is known about. */
  function Unproven(id: NodeId): Simulation {
    Simulation(DesiredState(NodeGraph(map[id := Node(NodeSpec(Disk, None), None)], {}, {}), [], [], Unmanaged),
               NO_EVIDENCE)
  }

  lemma MatchingEstablishes(output: ActionOutput, p: ActionPrerequisite)
    requires OutputSatisfies(output, p)
    ensures Establishes(output, p)
  {
    if output.NodeOutput? {
      assert Turns(Dangling(output.id), output, p);
    } else if output.BlockInterface? {
      assert Turns(Unproven(output.node), output, p);
    } else {
      assert Turns(Dangling(output.node), output, p);
    }
  }

  /** Conditions that speak of nothing an output can change. */
  predicate IsStatic(p: ActionPrerequisite) {
    p.DistinctNodes? || p.MountTargetAvailable? || p.MountDescendantsAbsent? || p.CapacityAvailable?
  }

  /** Outside its own two conditions, inserting a node is not enough in the dangling state. */
  lemma InsertionIsNotEnough(id: NodeId, spec: NodeSpec, p: ActionPrerequisite)
    requires !OutputSatisfies(NodeOutput(id, spec), p) && !IsStatic(p)
    ensures !IsMet(Delivered(Dangling(id), NodeOutput(id, spec)), p)
  {
    var desired := Delivered(Dangling(id), NodeOutput(id, spec)).desired;
    var graph := desired.graph;
    assert desired.runtime[0].source == Filesystem(id);
    assert graph.nodes == map[id := Node(spec, None)];
    var d, l := Dependency(id, id + 1, Backs), Relation(id, id, "");
    assert d in graph.dependencies && l in graph.relations && Backings(graph, id) == {};
    if p.DependentsFitWithin? && p.node == id {
      assert d in Dependents(graph, id) && Overflows(graph, d, p.size);
    }
  }

  lemma InsertionKeepsStatic(s: Simulation, id: NodeId, spec: NodeSpec, p: ActionPrerequisite)
    requires IsStatic(p)
    ensures !Turns(s, NodeOutput(id, spec), p)
  {
  }

  /** A ledger claim decides its own condition and, through a device, mount sources. */
  lemma ClaimTurnsOwn(s: Simulation, output: ActionOutput, p: ActionPrerequisite)
    requires !output.NodeOutput? && !OutputSatisfies(output, p)
    requires output.BlockInterface? ==> !p.MountSourceAvailable? && p != Writable(output.node)
    ensures !Turns(s, output, p)
  {
    var before, after := s.evidence, ApplyOutput(s.evidence, output);
    assert forall n: NodeId :: n in after.checkedFilesystems && n !in before.checkedFilesystems ==>
        output == FilesystemCheckPassed(n);
    assert forall n: NodeId :: AccessOf(after, n) != AccessOf(before, n) ==> output.BlockInterface? && output.node == n;
  }

  /** On a bare disk a read-only interface grants no writing, and no interface grants a mount source. */
  lemma InterfaceIsNotEnough(node: NodeId, access: BlockInterfaceAccess, source: MountSource)
    ensures var output := BlockInterface(node, access);
      && CanTake(Unproven(node), output)
      && !IsMet(Delivered(Unproven(node), output), MountSourceAvailable(source))
      && (access == ReadOnly ==> !IsMet(Delivered(Unproven(node), output), Writable(node)))
  {
  }

  lemma OthersDoNotEstablish(output: ActionOutput, p: ActionPrerequisite)
    requires !OutputSatisfies(output, p)
    ensures !Establishes(output, p)
  {
    if output.NodeOutput? {
      if IsStatic(p) {
        forall s: Simulation ensures !Turns(s, output, p) {
          InsertionKeepsStatic(s, output.id, output.spec, p);
        }
      } else {
        InsertionIsNotEnough(output.id, output.spec, p);
        assert CanTake(Dangling(output.id), output);
      }
    } else if output.BlockInterface? && (p.MountSourceAvailable? || p == Writable(output.node)) {
      InterfaceIsNotEnough(output.node, output.access, if p.MountSourceAvailable? then p.source else Tmpfs);
    } else {
      forall s: Simulation ensures !Turns(s, output, p) {
        ClaimTurnsOwn(s, output, p);
      }
    }
  }

  /**
   An output is matched with a condition exactly when delivering it satisfies the
   condition in every state that can take it and, in some state, it was missing before.
   */
  lemma MatchingIsEstablishing(output: ActionOutput, p: ActionPrerequisite)
    ensures OutputSatisfies(output, p) <==> Establishes(output, p)
  {
    if OutputSatisfies(output, p) {
      MatchingEstablishes(output, p);
    } else {
      OthersDoNotEstablish(output, p);
    }
  }

  // ---------------------------------------------------------------------------
  // Whole steps

  lemma {:induction false} OutputsTurnOnlyOwn(s: Simulation, outputs: seq<ActionOutput>, p: ActionPrerequisite)
    requires p.Writable? || p.FilesystemCheckRequired?
    requires !IsMet(s, p) && IsMet(s.(evidence := OutputsFrom(s.evidence, outputs)), p)
    ensures exists i :: 0 <= i < |outputs| && OutputSatisfies(outputs[i], p)
    decreases |outputs|
  {
    if outputs != [] {
      var next := s.(evidence := ApplyOutput(s.evidence, outputs[0]));
      if IsMet(next, p) {
        OutputTurnsOwn(s, outputs[0], p);
      } else {
        assert next.(evidence := OutputsFrom(next.evidence, outputs[1..]))
            == s.(evidence := OutputsFrom(s.evidence, outputs));
        OutputsTurnOnlyOwn(next, outputs[1..], p);
        var i :| 0 <= i < |outputs| - 1 && OutputSatisfies(outputs[1..][i], p);
        assert OutputSatisfies(outputs[i + 1], p);
      }
    }
  }

  lemma OutputTurnsOwn(s: Simulation, output: ActionOutput, p: ActionPrerequisite)
    requires p.Writable? || p.FilesystemCheckRequired?
    requires !IsMet(s, p) && IsMet(s.(evidence := ApplyOutput(s.evidence, output)), p)
    ensures OutputSatisfies(output, p)
  {
  }

  /** Among the outputs of a step, only a supplier's can newly satisfy a write or check condition. */
  lemma NewlyMetIsSupplied(cat: Catalogue, s: Simulation, action: ProviderAction, next: Simulation,
                           p: ActionPrerequisite)
    requires Leads(cat, s, action, next) && (p.Writable? || p.FilesystemCheckRequired?)
    ensures var contract := cat.describe(action, s.desired.graph);
      IsMet(next, p) ==> IsMet(Projected(cat, s, contract).value, p) || Supplies(contract, p)
  {
    var contract := cat.describe(action, s.desired.graph);
    var projected := Projected(cat, s, contract).value;
    if IsMet(next, p) && !IsMet(projected, p) {
      assert next == projected.(evidence := OutputsFrom(projected.evidence, contract.outputs));
      OutputsTurnOnlyOwn(projected, contract.outputs, p);
    }
  }

  /** After a supplying step the check condition holds, whatever the step revoked before. */
  lemma SuppliedCheckIsMet(cat: Catalogue, s: Simulation, action: ProviderAction, next: Simulation, fs: NodeId)
    requires Leads(cat, s, action, next)
    ensures var contract := cat.describe(action, s.desired.graph);
      var p := FilesystemCheckRequired(fs);
      IsMet(next, p) <==> Supplies(contract, p) || (IsMet(s, p) && !RevokesCheck(s, contract, fs))
  {
    var contract := cat.describe(action, s.desired.graph);
    var p := FilesystemCheckRequired(fs);
    ChecksAfterStep(cat, s, action, next, fs);
    assert Supplies(contract, p) <==> FilesystemCheckPassed(fs) in contract.outputs by {
      assert forall i :: 0 <= i < |contract.outputs| ==>
          (OutputSatisfies(contract.outputs[i], p) <==> contract.outputs[i] == FilesystemCheckPassed(fs));
    }
  }

  /** A node's last interface output of a step decides write access to it while it is there and active. */
  lemma SuppliedWriteIsMet(cat: Catalogue, s: Simulation, action: ProviderAction, next: Simulation, n: NodeId)
    requires Leads(cat, s, action, next) && n in next.desired.graph.nodes
    requires ActivationOf(next.evidence, n) != Some(false)
    ensures var granted := LastAccess(cat.describe(action, s.desired.graph).outputs, n);
      granted.Some? ==> (IsMet(next, Writable(n)) <==> granted == Some(ReadWrite))
  {
    InterfaceAfterStep(cat, s, action, next, n);
  }
}
