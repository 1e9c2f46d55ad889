/**
 * How the OSL compiler decides which inputs of a node it follows
 * (node_skip_input) and which nodes a shader type needs
 * (find_dependencies). A set of nodes is closed when it holds the node
 * behind every input it follows; the ancestors of a node are the smallest
 * closed set around it.
 */
module OslDependencies {
  import opened Wrappers
  import opened ShaderGraph
  import opened CyclesShader

  /** An input of a node of a well-formed graph. */
  predicate InputOf(g: Graph, n: NodeId, inp: Input)
  {
    WellFormed(g) && n < |g.nodes| && (inp.link.Some? ==> inp.link.value < |g.nodes|)
  }

  /** OSLCompiler::node_skip_input: whether the compiler, working on shader
      type `t`, ignores input `inp` of node `n`. */
  function SkipInput(g: Graph, t: ShaderType, n: NodeId, inp: Input): (r: bool)
    requires InputOf(g, n, inp)
    ensures inp.svmInternal ==> r
    // an ordinary node's inputs are followed, except that displacement
    // stops at a bump node's output
    ensures g.nodes[n].special == OtherSpecial && !inp.svmInternal ==>
      (r <==> t == Displacement && inp.link.Some? && g.nodes[inp.link.value].special == BumpSpecial)
    // a bump node's height has been evaluated before it
    ensures g.nodes[n].special == BumpSpecial && !inp.svmInternal ==> (r <==> inp.name == "Height")
  {
    if inp.svmInternal then true
    else match g.nodes[n].special
      case OutputSpecial =>
        (inp.name == "Surface" && t != Surface) || (inp.name == "Volume" && t != Volume) ||
        (inp.name == "Displacement" && t != Displacement) || (inp.name == "Normal" && t != Bump)
      case BumpSpecial =>
        inp.name == "Height"
      case OtherSpecial =>
        t == Displacement && inp.link.Some? && g.nodes[inp.link.value].special == BumpSpecial
  }

  /** The output-node input that carries each shader type. */
  function ClosureInputName(t: ShaderType): string
  {
    match t
    case Surface => "Surface"
    case Volume => "Volume"
    case Displacement => "Displacement"
    case Bump => "Normal"
  }

  /** Of the output node's four closure inputs, the compiler follows exactly
      the one of the current shader type. */
  lemma OutputFollowsOneClosure(g: Graph, t: ShaderType, inp: Input)
    requires InputOf(g, g.output, inp) && !inp.svmInternal && inp.name in OutputInputNames
    ensures !SkipInput(g, t, g.output, inp) <==> inp.name == ClosureInputName(t)
  {
    assert g.nodes[g.output].special == OutputSpecial;
  }

  /** The compiler follows input `i` of node `n` to the node `p` behind it. */
  predicate FollowsTo(g: Graph, t: ShaderType, n: NodeId, i: nat, p: NodeId)
    requires WellFormed(g) && n < |g.nodes|
  {
    i < |g.nodes[n].inputs| && g.nodes[n].inputs[i].link == Some(p) &&
    !SkipInput(g, t, n, g.nodes[n].inputs[i])
  }

  /** Every input of `n` the compiler follows leads into `s` or `prefix`. */
  predicate ParentsIn(g: Graph, t: ShaderType, n: NodeId, s: set<NodeId>, prefix: seq<NodeId>)
    requires WellFormed(g) && n < |g.nodes|
  {
    forall i | 0 <= i < |g.nodes[n].inputs| && g.nodes[n].inputs[i].link.Some? &&
               !SkipInput(g, t, n, g.nodes[n].inputs[i]) ::
      g.nodes[n].inputs[i].link.value in s || g.nodes[n].inputs[i].link.value in prefix
  }

  predicate NodesOf(g: Graph, s: set<NodeId>)
  {
    forall n :: n in s ==> n < |g.nodes|
  }

  /** Closed under the inputs the compiler follows. */
  predicate Closed(g: Graph, t: ShaderType, s: set<NodeId>)
    requires WellFormed(g)
  {
    NodesOf(g, s) && forall n :: n in s ==> ParentsIn(g, t, n, s, [])
  }

  /** The node and every node the compiler reaches from it. */
  ghost function Ancestors(g: Graph, t: ShaderType, n: NodeId, rank: seq<nat>): set<NodeId>
    requires WellFormed(g) && RankedBy(g, rank) && n < |g.nodes|
    decreases rank[n], |g.nodes[n].inputs| + 1
  {
    {n} + InputAncestors(g, t, n, 0, rank)
  }

  /** The ancestors reached through inputs `i..` of `n`. */
  ghost function InputAncestors(g: Graph, t: ShaderType, n: NodeId, i: nat, rank: seq<nat>): set<NodeId>
    requires WellFormed(g) && RankedBy(g, rank) && n < |g.nodes| && i <= |g.nodes[n].inputs|
    decreases rank[n], |g.nodes[n].inputs| - i
  {
    if i == |g.nodes[n].inputs| then {}
    else
      var inp := g.nodes[n].inputs[i];
      var here := if inp.link.Some? && !SkipInput(g, t, n, inp) then Ancestors(g, t, inp.link.value, rank) else {};
      here + InputAncestors(g, t, n, i + 1, rank)
  }

  /** The ancestors behind an input: none when it is not linked. */
  ghost function LinkAncestors(g: Graph, t: ShaderType, inp: Input, rank: seq<nat>): set<NodeId>
    requires WellFormed(g) && RankedBy(g, rank) && (inp.link.Some? ==> inp.link.value < |g.nodes|)
  {
    if inp.link.Some? then Ancestors(g, t, inp.link.value, rank) else {}
  }

  /** Ancestors are nodes of the graph of no higher rank. */
  lemma {:induction false} AncestorsBelow(g: Graph, t: ShaderType, n: NodeId, rank: seq<nat>)
    requires WellFormed(g) && RankedBy(g, rank) && n < |g.nodes|
    ensures forall m :: m in Ancestors(g, t, n, rank) ==> m < |g.nodes| && rank[m] <= rank[n]
    decreases rank[n], |g.nodes[n].inputs| + 1
  {
    InputAncestorsBelow(g, t, n, 0, rank);
  }

  lemma {:induction false} InputAncestorsBelow(g: Graph, t: ShaderType, n: NodeId, i: nat, rank: seq<nat>)
    requires WellFormed(g) && RankedBy(g, rank) && n < |g.nodes| && i <= |g.nodes[n].inputs|
    ensures forall m :: m in InputAncestors(g, t, n, i, rank) ==> m < |g.nodes| && rank[m] < rank[n]
    decreases rank[n], |g.nodes[n].inputs| - i
  {
    if i < |g.nodes[n].inputs| {
      var inp := g.nodes[n].inputs[i];
      if inp.link.Some? && !SkipInput(g, t, n, inp) {
        AncestorsBelow(g, t, inp.link.value, rank);
      }
      InputAncestorsBelow(g, t, n, i + 1, rank);
    }
  }

  /** The ancestors behind a followed input of `n` are ancestors of `n`. */
  lemma {:induction false} FollowedInputAncestors(g: Graph, t: ShaderType, n: NodeId, i: nat, j: nat, rank: seq<nat>)
    requires WellFormed(g) && RankedBy(g, rank) && n < |g.nodes| && i <= j < |g.nodes[n].inputs|
    requires g.nodes[n].inputs[j].link.Some? && !SkipInput(g, t, n, g.nodes[n].inputs[j])
    ensures Ancestors(g, t, g.nodes[n].inputs[j].link.value, rank) <= InputAncestors(g, t, n, i, rank)
    decreases j - i
  {
    if i < j {
      FollowedInputAncestors(g, t, n, i + 1, j, rank);
    }
  }

  /** A closed set that holds a node holds all its ancestors. */
  lemma {:induction false} AncestorsWithinClosed(g: Graph, t: ShaderType, s: set<NodeId>, n: NodeId, rank: seq<nat>)
    requires WellFormed(g) && RankedBy(g, rank) && Closed(g, t, s) && n in s
    ensures Ancestors(g, t, n, rank) <= s
    decreases rank[n], |g.nodes[n].inputs| + 1
  {
    InputAncestorsWithinClosed(g, t, s, n, 0, rank);
  }

  lemma {:induction false} InputAncestorsWithinClosed(g: Graph, t: ShaderType, s: set<NodeId>, n: NodeId, i: nat,
                                                        rank: seq<nat>)
    requires WellFormed(g) && RankedBy(g, rank) && Closed(g, t, s) && n in s && i <= |g.nodes[n].inputs|
    ensures InputAncestors(g, t, n, i, rank) <= s
    decreases rank[n], |g.nodes[n].inputs| - i
  {
    if i < |g.nodes[n].inputs| {
      var inp := g.nodes[n].inputs[i];
      if inp.link.Some? && !SkipInput(g, t, n, inp) {
        assert ParentsIn(g, t, n, s, []);
        AncestorsWithinClosed(g, t, s, inp.link.value, rank);
      }
      InputAncestorsWithinClosed(g, t, s, n, i + 1, rank);
    }
  }

  /** The nodes of `log`, each once. */
  predicate Distinct(log: seq<NodeId>)
  {
    forall a, b :: 0 <= a < b < |log| ==> log[a] != log[b]
  }

  lemma DistinctAppend(log: seq<NodeId>, more: seq<NodeId>)
    requires Distinct(log) && Distinct(more)
    requires forall x :: x in more ==> x !in log
    ensures Distinct(log + more)
  {
    forall a, b | 0 <= a < b < |log + more|
      ensures (log + more)[a] != (log + more)[b]
    {
      if b >= |log| && a < |log| {
        assert (log + more)[b] in more;
      }
    }
  }

  /** Each node of `log` comes after the nodes its followed inputs lead
      to, or those are in `before`. */
  predicate PostOrder(g: Graph, t: ShaderType, before: set<NodeId>, log: seq<NodeId>)
    requires WellFormed(g)
  {
    forall k :: 0 <= k < |log| ==> log[k] < |g.nodes| && ParentsIn(g, t, log[k], before, log[..k])
  }

  lemma PostOrderAppend(g: Graph, t: ShaderType, before: set<NodeId>, log: seq<NodeId>, more: seq<NodeId>)
    requires WellFormed(g) && PostOrder(g, t, before, log)
    requires PostOrder(g, t, before + (set x | x in log), more)
    ensures PostOrder(g, t, before, log + more)
  {
    forall k | 0 <= k < |log + more|
      ensures (log + more)[k] < |g.nodes| && ParentsIn(g, t, (log + more)[k], before, (log + more)[..k])
    {
      if k < |log| {
        assert (log + more)[..k] == log[..k];
      } else {
        assert (log + more)[..k] == log + more[..k - |log|];
        assert ParentsIn(g, t, more[k - |log|], before + (set x | x in log), more[..k - |log|]);
      }
    }
  }

  /** `result` is `deps` plus the nodes `added` inserted, each once and
      after the nodes its followed inputs lead to. */
  ghost predicate Resolved(g: Graph, t: ShaderType, deps: set<NodeId>, result: set<NodeId>, added: seq<NodeId>)
    requires WellFormed(g)
  {
    NodesOf(g, result) && deps <= result && (forall x :: x in added <==> x in result && x !in deps) &&
    Distinct(added) && PostOrder(g, t, deps, added)
  }

  lemma ResolvedNothing(g: Graph, t: ShaderType, deps: set<NodeId>)
    requires WellFormed(g) && NodesOf(g, deps)
    ensures Resolved(g, t, deps, deps, [])
  {
  }

  /** Two resolutions in a row make one. */
  lemma ResolvedChain(g: Graph, t: ShaderType, deps: set<NodeId>, mid: set<NodeId>, result: set<NodeId>,
                      first: seq<NodeId>, second: seq<NodeId>)
    requires WellFormed(g) && Resolved(g, t, deps, mid, first) && Resolved(g, t, mid, result, second)
    ensures Resolved(g, t, deps, result, first + second)
  {
    assert deps + (set x | x in first) == mid;
    PostOrderAppend(g, t, deps, first, second);
    DistinctAppend(first, second);
  }

  /** Inserting a node whose followed inputs are resolved. */
  lemma ResolvedInsert(g: Graph, t: ShaderType, deps: set<NodeId>, result: set<NodeId>, added: seq<NodeId>,
                       n: NodeId)
    requires WellFormed(g) && Resolved(g, t, deps, result, added)
    requires n < |g.nodes| && n !in result && ParentsIn(g, t, n, result, [])
    ensures Resolved(g, t, deps, result + {n}, added + [n])
  {
    assert Resolved(g, t, result, result + {n}, [n]) by {
      assert [n][..0] == [];
    }
    ResolvedChain(g, t, deps, result, result + {n}, added, [n]);
  }

  /** Resolving from a closed set gives a closed set. */
  lemma ResolvedClosed(g: Graph, t: ShaderType, deps: set<NodeId>, result: set<NodeId>, added: seq<NodeId>)
    requires WellFormed(g) && Resolved(g, t, deps, result, added) && Closed(g, t, deps)
    ensures Closed(g, t, result)
  {
    forall m | m in result
      ensures ParentsIn(g, t, m, result, [])
    {
      if m !in deps {
        var k :| 0 <= k < |added| && added[k] == m;
        assert ParentsIn(g, t, added[k], deps, added[..k]);
        assert forall x :: x in added[..k] ==> x in result;
      }
    }
  }

  /** OSLCompiler::find_dependencies: adds to `deps` the node behind
      `inp`, after the nodes behind its own followed inputs, unless it is
      there already. `added` records the insertions in order. */
  method FindDependencies(g: Graph, t: ShaderType, deps: set<NodeId>, inp: Input, ghost rank: seq<nat>)
    returns (result: set<NodeId>, ghost added: seq<NodeId>)
    requires WellFormed(g) && RankedBy(g, rank) && NodesOf(g, deps)
    requires inp.link.Some? ==> inp.link.value < |g.nodes|
    ensures Resolved(g, t, deps, result, added)
    ensures inp.link.Some? ==> inp.link.value in result
    ensures inp.link.None? ==> result == deps
    ensures result - deps <= LinkAncestors(g, t, inp, rank)
    decreases if inp.link.Some? then rank[inp.link.value] + 1 else 0, 1
  {
    if inp.link.None? || inp.link.value in deps {
      ResolvedNothing(g, t, deps);
      return deps, [];
    }
    var n := inp.link.value;
    result, added := FindInputDependencies(g, t, deps, n, rank);
    ResolvedInsert(g, t, deps, result, added, n);
    result := result + {n};
    added := added + [n];
  }

  /** The loop of find_dependencies over the inputs of node `n`. */
  method FindInputDependencies(g: Graph, t: ShaderType, deps: set<NodeId>, n: NodeId, ghost rank: seq<nat>)
    returns (result: set<NodeId>, ghost added: seq<NodeId>)
    requires WellFormed(g) && RankedBy(g, rank) && NodesOf(g, deps) && n < |g.nodes| && n !in deps
    ensures Resolved(g, t, deps, result, added) && n !in result && ParentsIn(g, t, n, result, [])
    ensures result - deps <= InputAncestors(g, t, n, 0, rank)
    decreases rank[n] + 1, 0
  {
    var inputs := g.nodes[n].inputs;
    result := deps;
    added := [];
    ResolvedNothing(g, t, deps);
    AncestorsBelow(g, t, n, rank);
    var i := 0;
    while i < |inputs|
      invariant 0 <= i <= |inputs|
      invariant Resolved(g, t, deps, result, added) && n !in result
      invariant result - deps <= InputAncestors(g, t, n, 0, rank)
      invariant forall j | 0 <= j < i && inputs[j].link.Some? && !SkipInput(g, t, n, inputs[j]) ::
                  inputs[j].link.value in result
    {
      if !SkipInput(g, t, n, inputs[i]) {
        assert inputs[i].link.Some? ==> rank[inputs[i].link.value] < rank[n];
        var more;
        ghost var moreAdded;
        more, moreAdded := FindDependencies(g, t, result, inputs[i], rank);
        FollowedStep(g, t, n, i, rank, deps, result, more);
        ResolvedChain(g, t, deps, result, more, added, moreAdded);
        result := more;
        added := added + moreAdded;
      }
      i := i + 1;
    }
  }

  /** Following input `i` of `n` adds only ancestors of `n`, never `n`. */
  lemma FollowedStep(g: Graph, t: ShaderType, n: NodeId, i: nat, rank: seq<nat>,
                     deps: set<NodeId>, before: set<NodeId>, after: set<NodeId>)
    requires WellFormed(g) && RankedBy(g, rank) && n < |g.nodes| && i < |g.nodes[n].inputs|
    requires !SkipInput(g, t, n, g.nodes[n].inputs[i])
    requires deps <= before <= after && before - deps <= InputAncestors(g, t, n, 0, rank) && n !in before
    requires after - before <= LinkAncestors(g, t, g.nodes[n].inputs[i], rank)
    ensures after - deps <= InputAncestors(g, t, n, 0, rank) && n !in after
  {
    var inp := g.nodes[n].inputs[i];
    if inp.link.Some? {
      FollowedInputAncestors(g, t, n, 0, i, rank);
      AncestorsBelow(g, t, inp.link.value, rank);
      assert rank[inp.link.value] < rank[n];
      assert n !in after - before;
    } else {
      forall x | x in after
        ensures x in before
      {
        assert x !in after - before;
      }
    }
  }

  /** When the set starts out closed, find_dependencies adds exactly the
      ancestors of the linked node. */
  lemma FindDependenciesExact(g: Graph, t: ShaderType, deps: set<NodeId>, inp: Input, rank: seq<nat>,
                              result: set<NodeId>)
    requires WellFormed(g) && RankedBy(g, rank) && (inp.link.Some? ==> inp.link.value < |g.nodes|)
    requires Closed(g, t, result) && deps <= result && (inp.link.Some? ==> inp.link.value in result)
    requires result - deps <= LinkAncestors(g, t, inp, rank)
    ensures result == deps + LinkAncestors(g, t, inp, rank)
  {
    if inp.link.Some? {
      AncestorsWithinClosed(g, t, result, inp.link.value, rank);
    }
  }
}
