/**
 * OSLCompiler (osl.cpp): emitting the node layers of one shader type in
 * dependency order (generate_nodes, compile_type), recording what the
 * emitted nodes report about themselves in the shader's capability flags,
 * compiling all shader types of a shader (compile), and the parameter
 * names it gives sockets (compatible_name).
 */
module OslCompiler {
  import opened Wrappers
  import opened ShaderGraph
  import opened CyclesShader
  import opened OslDependencies

  /** The flags generate_nodes sets for one emitted node with features
      `f`, working on shader type `t`. */
  function NodeCaps(f: NodeFeatures, t: ShaderType): Caps
  {
    if t == Surface then
      (if f.surfaceEmission then {HasSurfaceEmission} else {}) +
      (if f.surfaceTransparent then {HasSurfaceTransparent} else {}) +
      (if f.raytrace then {HasSurfaceRaytrace} else {}) +
      (if f.spatialVarying then {HasSurfaceSpatialVarying} else {}) +
      (if f.surfaceBssrdf then {HasSurfaceBssrdf} + (if f.bssrdfBump then {HasBssrdfBump} else {}) else {}) +
      (if f.bump then {HasBump} else {})
    else if t == Volume then
      (if f.spatialVarying then {HasVolumeSpatialVarying} else {})
    else {}
  }

  /** The flags a shader type can record. */
  function TypeCaps(t: ShaderType): Caps
  {
    match t
    case Surface => {HasSurfaceEmission, HasSurfaceTransparent, HasSurfaceRaytrace, HasSurfaceSpatialVarying,
                     HasSurfaceBssrdf, HasBssrdfBump, HasBump}
    case Volume => {HasVolumeSpatialVarying}
    case _ => {}
  }

  /** The flags of `c` once the nodes of `s` have been emitted for shader
      type `t`: those set before and those some node of `s` sets. */
  ghost function Accumulated(c: Caps, g: Graph, s: set<NodeId>, t: ShaderType): Caps
  {
    c + set k | k in TypeCaps(t) && Recorded(g, s, t, k)
  }

  /** Some node of `s` sets flag `k`. */
  ghost predicate Recorded(g: Graph, s: set<NodeId>, t: ShaderType, k: Cap)
  {
    exists n :: n in s && n < |g.nodes| && k in NodeCaps(g.nodes[n].features, t)
  }

  /** A flag is recorded when it was set before or some node of the batch
      sets it. */
  lemma AccumulatedMeaning(c: Caps, g: Graph, s: set<NodeId>, t: ShaderType, k: Cap)
    ensures k in Accumulated(c, g, s, t) <==>
            k in c || exists n :: n in s && n < |g.nodes| && k in NodeCaps(g.nodes[n].features, t)
  {
    if Recorded(g, s, t, k) {
      var n :| n in s && n < |g.nodes| && k in NodeCaps(g.nodes[n].features, t);
      NodeCapsWithinType(g.nodes[n].features, t);
    }
  }


  /** Emitting one more node adds its flags. */
  lemma AccumulatedStep(c: Caps, g: Graph, s: set<NodeId>, n: NodeId, t: ShaderType)
    requires n < |g.nodes|
    ensures Accumulated(c, g, s + {n}, t) == Accumulated(c, g, s, t) + NodeCaps(g.nodes[n].features, t)
  {
    forall k
      ensures k in Accumulated(c, g, s + {n}, t) <==> k in Accumulated(c, g, s, t) + NodeCaps(g.nodes[n].features, t)
    {
      AccumulatedMeaning(c, g, s + {n}, t, k);
      AccumulatedMeaning(c, g, s, t, k);
      if k in NodeCaps(g.nodes[n].features, t) {
        assert n in s + {n};
      }
      if Recorded(g, s + {n}, t, k) {
        var m :| m in s + {n} && m < |g.nodes| && k in NodeCaps(g.nodes[m].features, t);
        assert m == n || m in s;
      }
    }
  }


  /** generate_nodes only sets flags, and only those of the shader type it
      emits: never has_surface, has_volume or has_displacement, and none at
      all for bump or displacement. */
  lemma {:induction false} AccumulatedOnlySets(c: Caps, g: Graph, s: set<NodeId>, t: ShaderType)
    ensures c <= Accumulated(c, g, s, t) <= c + TypeCaps(t)
  {
    forall k | k in Accumulated(c, g, s, t) && k !in c
      ensures k in TypeCaps(t)
    {
      AccumulatedMeaning(c, g, s, t, k);
      var n :| n in s && n < |g.nodes| && k in NodeCaps(g.nodes[n].features, t);
      NodeCapsWithinType(g.nodes[n].features, t);
    }
  }


  lemma NodeCapsWithinType(f: NodeFeatures, t: ShaderType)
    ensures NodeCaps(f, t) <= TypeCaps(t)
  {
  }

  /** The flags of two batches emitted one after the other add up. */
  lemma AccumulatedSplit(c: Caps, g: Graph, a: set<NodeId>, b: set<NodeId>, t: ShaderType)
    ensures Accumulated(Accumulated(c, g, a, t), g, b, t) == Accumulated(c, g, a + b, t)
  {
    forall k
      ensures k in Accumulated(Accumulated(c, g, a, t), g, b, t) <==> k in Accumulated(c, g, a + b, t)
    {
      AccumulatedMeaning(c, g, a, t, k);
      AccumulatedMeaning(Accumulated(c, g, a, t), g, b, t, k);
      AccumulatedMeaning(c, g, a + b, t, k);
      if Recorded(g, a + b, t, k) {
        var n :| n in a + b && n < |g.nodes| && k in NodeCaps(g.nodes[n].features, t);
        assert n in a || n in b;
      }
      if Recorded(g, a, t, k) {
        var n :| n in a && n < |g.nodes| && k in NodeCaps(g.nodes[n].features, t);
        assert n in a + b;
      }
      if Recorded(g, b, t, k) {
        var n :| n in b && n < |g.nodes| && k in NodeCaps(g.nodes[n].features, t);
        assert n in a + b;
      }
    }
  }


  /** Among non-empty `s`, a node of least rank. */
  lemma {:induction false} LeastRanked(s: set<NodeId>, rank: seq<nat>) returns (m: NodeId)
    requires s != {} && forall x :: x in s ==> x < |rank|
    ensures m in s && forall x :: x in s ==> rank[m] <= rank[x]
    decreases |s|
  {
    var y :| y in s;
    if s == {y} {
      m := y;
    } else {
      var rest := LeastRanked(s - {y}, rank);
      m := if rank[y] < rank[rest] then y else rest;
    }
  }

  lemma ProperSubsetSmaller(a: set<NodeId>, b: set<NodeId>, x: NodeId)
    requires a <= b && x in b && x !in a
    ensures |a| < |b|
  {
    assert b == a + (b - a);
    assert x in b - a;
  }

  /** In a pass that starts with `done0` done, the pending node of least
      rank finds all its followed inputs done. */
  lemma LeastIsReady(g: Graph, t: ShaderType, nodes: set<NodeId>, done0: set<NodeId>, done: set<NodeId>,
                     least: NodeId, rank: seq<nat>)
    requires WellFormed(g) && RankedBy(g, rank) && Closed(g, t, nodes) && done0 <= done
    requires least in nodes - done0 && forall x :: x in nodes - done0 ==> rank[least] <= rank[x]
    ensures ParentsIn(g, t, least, done, [])
  {
    assert ParentsIn(g, t, least, nodes, []);
  }

  /** The flags OSLCompiler::compile resets to false. has_surface_raytrace
      is not among them; has_bump and has_bssrdf_bump take the computed
      has_bump instead. */
  const ResetFlags: Caps := {HasSurface, HasSurfaceEmission, HasSurfaceTransparent, HasSurfaceBssrdf,
                             HasBump, HasBssrdfBump, HasVolume, HasDisplacement, HasSurfaceSpatialVarying,
                             HasVolumeSpatialVarying, HasVolumeAttributeDependency, HasIntegratorDependency}

  /** The output-node input of a shader type. */
  function ClosureInput(g: Graph, t: ShaderType): (r: Input)
    requires WellFormed(g)
    ensures r in g.nodes[g.output].inputs && r.name == ClosureInputName(t)
    ensures r.link.Some? ==> r.link.value < |g.nodes|
  {
    assert OutputInputNames[0] == "Surface" && OutputInputNames[1] == "Volume";
    assert OutputInputNames[2] == "Displacement" && OutputInputNames[3] == "Normal";
    InputNamed(g.nodes[g.output], ClosureInputName(t))
  }

  /** The nodes compile_type emits before the output node. */
  ghost function TypeNodes(g: Graph, t: ShaderType, rank: seq<nat>): set<NodeId>
    requires WellFormed(g) && RankedBy(g, rank)
  {
    LinkAncestors(g, t, ClosureInput(g, t), rank)
  }

  /** A group for type `t`: the nodes it needs, each once and after every
      node it reads, then the output node. */
  ghost predicate GroupFor(g: Graph, t: ShaderType, rank: seq<nat>, group: GroupRef)
    requires WellFormed(g) && RankedBy(g, rank)
  {
    var layers := group.layers;
    |layers| >= 1 && layers[|layers| - 1] == g.output &&
    Distinct(layers[..|layers| - 1]) && PostOrder(g, t, {}, layers[..|layers| - 1]) &&
    forall x :: x in layers[..|layers| - 1] <==> x in TypeNodes(g, t, rank)
  }

  /** The flags compile leaves, given which groups it built. */
  ghost function CompiledCaps(c: Caps, g: Graph, rank: seq<nat>, hasBump: bool,
                              surface: bool, volume: bool, displacement: bool): Caps
    requires WellFormed(g) && RankedBy(g, rank)
  {
    var reset := c - ResetFlags + (if hasBump then {HasBump, HasBssrdfBump} else {});
    Stage(Stage(Stage(reset, g, rank, Surface, surface), g, rank, Volume, volume), g, rank, Displacement, displacement)
  }

  /** The flags after one block of compile: when the group of type `t`
      was built, the flags its nodes record and the type's own flag. */
  ghost function Stage(c: Caps, g: Graph, rank: seq<nat>, t: ShaderType, built: bool): Caps
    requires WellFormed(g) && RankedBy(g, rank)
  {
    if built then Accumulated(c, g, TypeNodes(g, t, rank), t) + {BuiltFlag(t)} else c
  }

  /** has_surface, has_volume, has_displacement. */
  function BuiltFlag(t: ShaderType): Cap
  {
    match t
    case Surface => HasSurface
    case Volume => HasVolume
    case _ => HasDisplacement
  }

  /** The shader fields compile leaves, from the flags `c` it started
      with: a group of each type exactly when the shader is referenced and
      the type's closure input is linked (the bump group also needs
      has_bump), each a group for its type, and the flags CompiledCaps
      says. */
  ghost predicate CompiledState(g: Graph, rank: seq<nat>, referenceCount: nat, displacement: DisplacementMethod,
                                c: Caps, caps: Caps, surfaceRef: Option<GroupRef>, bumpRef: Option<GroupRef>,
                                volumeRef: Option<GroupRef>, displacementRef: Option<GroupRef>)
    requires WellFormed(g) && RankedBy(g, rank)
  {
    var used := referenceCount != 0;
    var surface := used && ClosureInput(g, Surface).link.Some?;
    var volume := used && ClosureInput(g, Volume).link.Some?;
    var displaced := used && ClosureInput(g, Displacement).link.Some?;
    var bump := BuildsBump(g, displacement);
    (surfaceRef.Some? <==> surface) && (bumpRef.Some? <==> surface && bump) &&
    (volumeRef.Some? <==> volume) && (displacementRef.Some? <==> displaced) &&
    caps == CompiledCaps(c, g, rank, bump, surface, volume, displaced) &&
    (surfaceRef.Some? ==> GroupFor(g, Surface, rank, surfaceRef.value)) &&
    (bumpRef.Some? ==> GroupFor(g, Bump, rank, bumpRef.value)) &&
    (volumeRef.Some? ==> GroupFor(g, Volume, rank, volumeRef.value)) &&
    (displacementRef.Some? ==> GroupFor(g, Displacement, rank, displacementRef.value))
  }

  /** The three blocks of compile, run on the reset flags, leave what
      CompiledState says. */
  lemma CompiledFromBlocks(g: Graph, rank: seq<nat>, referenceCount: nat, displacement: DisplacementMethod,
                           c: Caps, reset: Caps, afterSurface: Caps, afterVolume: Caps, caps: Caps,
                           surfaceRef: Option<GroupRef>, bumpRef: Option<GroupRef>,
                           volumeRef: Option<GroupRef>, displacementRef: Option<GroupRef>)
    requires WellFormed(g) && RankedBy(g, rank)
    requires reset == c - ResetFlags + (if BuildsBump(g, displacement) then {HasBump, HasBssrdfBump} else {})
    requires var built := referenceCount != 0 && ClosureInput(g, Surface).link.Some?;
             (surfaceRef.Some? <==> built) && (bumpRef.Some? <==> built && BuildsBump(g, displacement)) &&
             afterSurface == Stage(reset, g, rank, Surface, built)
    requires var built := referenceCount != 0 && ClosureInput(g, Volume).link.Some?;
             (volumeRef.Some? <==> built) && afterVolume == Stage(afterSurface, g, rank, Volume, built)
    requires var built := referenceCount != 0 && ClosureInput(g, Displacement).link.Some?;
             (displacementRef.Some? <==> built) && caps == Stage(afterVolume, g, rank, Displacement, built)
    requires surfaceRef.Some? ==> GroupFor(g, Surface, rank, surfaceRef.value)
    requires bumpRef.Some? ==> GroupFor(g, Bump, rank, bumpRef.value)
    requires volumeRef.Some? ==> GroupFor(g, Volume, rank, volumeRef.value)
    requires displacementRef.Some? ==> GroupFor(g, Displacement, rank, displacementRef.value)
    ensures CompiledState(g, rank, referenceCount, displacement, c, caps, surfaceRef, bumpRef, volumeRef, displacementRef)
  {
  }

  /** Whether compile builds a bump group: the displacement method is not
      true displacement and both Surface and Displacement are linked. */
  function BuildsBump(g: Graph, displacement: DisplacementMethod): bool
    requires WellFormed(g)
  {
    displacement != DisplaceTrue && ClosureInput(g, Surface).link.Some? && ClosureInput(g, Displacement).link.Some?
  }

  /** A socket name without its spaces. */
  function RemoveSpaces(s: string): (r: string)
    ensures |r| <= |s|
  {
    if s == [] then []
    else if s[0] == ' ' then RemoveSpaces(s[1..])
    else [s[0]] + RemoveSpaces(s[1..])
  }

  lemma {:induction false} RemoveSpacesConcat(a: string, b: string)
    ensures RemoveSpaces(a + b) == RemoveSpaces(a) + RemoveSpaces(b)
  {
    if a != [] {
      assert (a + b)[1..] == a[1..] + b;
      RemoveSpacesConcat(a[1..], b);
    } else {
      assert a + b == b;
    }
  }

  /** The result has no space and keeps every other character in order:
      removing spaces again changes nothing, and a name without spaces is
      kept as it is. */
  lemma {:induction false} RemoveSpacesMeaning(s: string)
    ensures ' ' !in RemoveSpaces(s)
    ensures RemoveSpaces(RemoveSpaces(s)) == RemoveSpaces(s)
    ensures ' ' !in s ==> RemoveSpaces(s) == s
  {
    if s != [] {
      RemoveSpacesMeaning(s[1..]);
      if s[0] != ' ' {
        assert RemoveSpaces([s[0]] + RemoveSpaces(s[1..])) == [s[0]] + RemoveSpaces(RemoveSpaces(s[1..])) by {
          assert ([s[0]] + RemoveSpaces(s[1..]))[1..] == RemoveSpaces(s[1..]);
        }
      }
    }
  }

  /** compatible_name for an input: spaces removed, and "In" appended when
      the node has an output of the same name. */
  function CompatibleInput(n: Node, inp: Input): string
  {
    RemoveSpaces(inp.name) + (if inp.name in n.outputs then "In" else "")
  }

  /** compatible_name for an output: spaces removed, and "Out" appended
      when the node has an input of the same name. */
  function CompatibleOutput(n: Node, output: string): string
  {
    RemoveSpaces(output) + (if exists i :: 0 <= i < |n.inputs| && n.inputs[i].name == output then "Out" else "")
  }

  /** An input and an output of one node that share a name get different
      OSL parameter names. */
  lemma CompatibleNamesDiffer(n: Node, i: nat, output: string)
    requires i < |n.inputs| && output in n.outputs && n.inputs[i].name == output
    ensures CompatibleInput(n, n.inputs[i]) != CompatibleOutput(n, output)
  {
    var a := CompatibleInput(n, n.inputs[i]);
    var b := CompatibleOutput(n, output);
    assert a == RemoveSpaces(output) + "In";
    assert b == RemoveSpaces(output) + "Out";
    assert |a| != |b|;
  }

  /** Removes the first space of `s`. */
  lemma RemoveFirstSpace(s: string, i: nat)
    requires i < |s| && s[i] == ' '
    ensures RemoveSpaces(s[..i] + s[i + 1..]) == RemoveSpaces(s)
  {
    assert s == s[..i] + ([' '] + s[i + 1..]);
    RemoveSpacesConcat(s[..i], [' '] + s[i + 1..]);
    RemoveSpacesConcat(s[..i], s[i + 1..]);
    assert ([' '] + s[i + 1..])[1..] == s[i + 1..];
  }

  /** The whitespace strip of compatible_name: find a space, remove it,
      until none is left. */
  method StripSpaces(name: string) returns (s: string)
    ensures s == RemoveSpaces(name)
  {
    s := name;
    while ' ' in s
      invariant RemoveSpaces(s) == RemoveSpaces(name)
      decreases |s|
    {
      var i := 0;
      while s[i] != ' '
        invariant 0 <= i < |s| && ' ' in s[i..]
        decreases |s| - i
      {
        i := i + 1;
      }
      RemoveFirstSpace(s, i);
      s := s[..i] + s[i + 1..];
    }
    RemoveSpacesMeaning(s);
  }

  class Compiler {
    var currentType: ShaderType
    var currentShader: Shader?
    /** The layers of the shader group under construction, in order. */
    var emitted: seq<NodeId>

    constructor ()
      ensures currentType == Surface && currentShader == null && emitted == []
    {
      currentType := Surface;
      currentShader := null;
      emitted := [];
    }

    /** OSLCompiler::compatible_name(node, input). */
    method CompatibleInputName(n: Node, inp: Input) returns (r: string)
      ensures r == CompatibleInput(n, inp)
    {
      r := StripSpaces(inp.name);
      var k := 0;
      while k < |n.outputs|
        invariant 0 <= k <= |n.outputs| && inp.name !in n.outputs[..k]
      {
        if inp.name == n.outputs[k] {
          return r + "In";
        }
        k := k + 1;
      }
      assert n.outputs[..k] == n.outputs;
    }

    /** OSLCompiler::compatible_name(node, output). */
    method CompatibleOutputName(n: Node, output: string) returns (r: string)
      ensures r == CompatibleOutput(n, output)
    {
      r := StripSpaces(output);
      var k := 0;
      while k < |n.inputs|
        invariant 0 <= k <= |n.inputs| && forall j :: 0 <= j < k ==> n.inputs[j].name != output
      {
        if n.inputs[k].name == output {
          return r + "Out";
        }
        k := k + 1;
      }
    }

    /** The inputs_done test of generate_nodes: every input of `n` the
        current type follows leads to a node in `done`. */
    method InputsDone(g: Graph, n: NodeId, done: set<NodeId>) returns (r: bool)
      requires WellFormed(g) && n < |g.nodes|
      ensures r <==> ParentsIn(g, currentType, n, done, [])
    {
      r := true;
      var inputs := g.nodes[n].inputs;
      var i := 0;
      while i < |inputs|
        invariant 0 <= i <= |inputs|
        invariant r <==> forall j | 0 <= j < i && inputs[j].link.Some? && !SkipInput(g, currentType, n, inputs[j]) ::
                           inputs[j].link.value in done
      {
        if !SkipInput(g, currentType, n, inputs[i]) {
          if inputs[i].link.Some? && inputs[i].link.value !in done {
            r := false;
          }
        }
        i := i + 1;
      }
    }

    /** The flag block of generate_nodes for one emitted node. */
    method RecordNodeFlags(f: NodeFeatures)
      requires currentShader != null
      modifies currentShader`caps
      ensures currentShader.caps == old(currentShader.caps) + NodeCaps(f, currentType)
    {
      var c := currentShader.caps;
      if currentType == Surface {
        if f.surfaceEmission {
          c := c + {HasSurfaceEmission};
        }
        if f.surfaceTransparent {
          c := c + {HasSurfaceTransparent};
        }
        if f.raytrace {
          c := c + {HasSurfaceRaytrace};
        }
        if f.spatialVarying {
          c := c + {HasSurfaceSpatialVarying};
        }
        if f.surfaceBssrdf {
          c := c + {HasSurfaceBssrdf};
          if f.bssrdfBump {
            c := c + {HasBssrdfBump};
          }
        }
        if f.bump {
          c := c + {HasBump};
        }
      } else if currentType == Volume {
        if f.spatialVarying {
          c := c + {HasVolumeSpatialVarying};
        }
      }
      currentShader.caps := c;
    }

    /** The emitted layers are `prefix` followed by `layers`, which hold
        the nodes of `done`, each once and after every node it reads. */
    ghost predicate Logged(g: Graph, prefix: seq<NodeId>, layers: seq<NodeId>, done: set<NodeId>)
      requires WellFormed(g)
      reads this
    {
      emitted == prefix + layers && Distinct(layers) && PostOrder(g, currentType, {}, layers) &&
      forall x :: x in layers <==> x in done
    }

    /** node->compile and done.insert in generate_nodes: emits node `id`,
        whose followed inputs are all done, and records its flags. */
    method EmitNode(g: Graph, id: NodeId, done: set<NodeId>, ghost prefix: seq<NodeId>, ghost layers: seq<NodeId>,
                    ghost c0: Caps, ghost base: set<NodeId>)
      returns (ghost next: seq<NodeId>)
      requires WellFormed(g) && id < |g.nodes| && currentShader != null && id !in done && base <= done
      requires ParentsIn(g, currentType, id, done, [])
      requires Logged(g, prefix, layers, done)
      requires currentShader.caps == Accumulated(c0, g, done - base, currentType)
      modifies this`emitted, currentShader`caps
      ensures Logged(g, prefix, next, done + {id})
      ensures currentShader.caps == Accumulated(c0, g, (done + {id}) - base, currentType)
    {
      emitted := emitted + [id];
      RecordNodeFlags(g.nodes[id].features);
      AccumulatedStep(c0, g, done - base, id, currentType);
      assert (done - base) + {id} == (done + {id}) - base;
      assert PostOrder(g, currentType, {} + (set x | x in layers), [id]) by {
        assert [id][..0] == [];
        assert {} + (set x | x in layers) == done;
      }
      PostOrderAppend(g, currentType, {}, layers, [id]);
      DistinctAppend(layers, [id]);
      next := layers + [id];
    }

    /** One pass of generate_nodes over `nodes` in id order: emits every
        node not yet done whose followed inputs are all done. `nodesDone`
        is whether no node was left waiting. */
    method GeneratePass(g: Graph, nodes: set<NodeId>, done0: set<NodeId>, ghost prefix: seq<NodeId>,
                        ghost layers0: seq<NodeId>, ghost rank: seq<nat>)
      returns (done: set<NodeId>, nodesDone: bool, ghost layers: seq<NodeId>)
      requires WellFormed(g) && RankedBy(g, rank) && Closed(g, currentType, nodes) && currentShader != null
      requires done0 <= nodes && Logged(g, prefix, layers0, done0)
      modifies this`emitted, currentShader`caps
      ensures done0 <= done <= nodes && Logged(g, prefix, layers, done)
      ensures currentShader.caps == Accumulated(old(currentShader.caps), g, done - done0, currentType)
      ensures nodesDone ==> done == nodes
      ensures !nodesDone ==> |nodes - done| < |nodes - done0|
    {
      ghost var c0 := currentShader.caps;
      ghost var pending := nodes - done0;
      ghost var least: NodeId := 0;
      if pending != {} {
        least := LeastRanked(pending, rank);
      }
      done := done0;
      nodesDone := true;
      layers := layers0;
      var id := 0;
      while id < |g.nodes|
        invariant 0 <= id <= |g.nodes|
        invariant done0 <= done <= nodes && Logged(g, prefix, layers, done)
        invariant currentShader.caps == Accumulated(c0, g, done - done0, currentType)
        invariant nodesDone ==> forall j :: 0 <= j < id && j in nodes ==> j in done
        invariant !nodesDone ==> pending != {}
        invariant pending != {} && least < id ==> least in done
      {
        if id in nodes && id !in done {
          var ready := InputsDone(g, id, done);
          if id == least {
            LeastIsReady(g, currentType, nodes, done0, done, least, rank);
          }
          if ready {
            layers := EmitNode(g, id, done, prefix, layers, c0, done0);
            done := done + {id};
          } else {
            nodesDone := false;
          }
        }
        id := id + 1;
      }
      if !nodesDone {
        ProperSubsetSmaller(nodes - done, pending, least);
      }
    }

    /** OSLCompiler::generate_nodes: emits each node of `nodes` exactly
        once, after every node it reads, and records their features in the
        current shader's flags. */
    method GenerateNodes(g: Graph, nodes: set<NodeId>, ghost rank: seq<nat>)
      requires WellFormed(g) && RankedBy(g, rank) && Closed(g, currentType, nodes) && currentShader != null
      modifies this`emitted, currentShader`caps
      ensures |emitted| >= |old(emitted)| && emitted[..|old(emitted)|] == old(emitted)
      ensures Distinct(emitted[|old(emitted)|..]) && PostOrder(g, currentType, {}, emitted[|old(emitted)|..])
      ensures forall x :: x in emitted[|old(emitted)|..] <==> x in nodes
      ensures currentShader.caps == Accumulated(old(currentShader.caps), g, nodes, currentType)
    {
      var done: set<NodeId> := {};
      ghost var layers: seq<NodeId> := [];
      var nodesDone := false;
      while !nodesDone
        invariant done <= nodes && Logged(g, old(emitted), layers, done)
        invariant currentShader.caps == Accumulated(old(currentShader.caps), g, done, currentType)
        invariant nodesDone ==> done == nodes
        decreases |nodes - done| + (if nodesDone then 0 else 1)
      {
        var next;
        ghost var nextLayers;
        next, nodesDone, nextLayers := GeneratePass(g, nodes, done, old(emitted), layers, rank);
        AccumulatedSplit(old(currentShader.caps), g, done, next - done, currentType);
        assert done + (next - done) == next;
        done := next;
        layers := nextLayers;
      }
      assert emitted[..|old(emitted)|] == old(emitted);
      assert emitted[|old(emitted)|..] == layers;
    }

    /** OSLCompiler::compile_type: a group holding the nodes the closure
        input of type `t` needs, in dependency order, then the output node. */
    method CompileType(g: Graph, t: ShaderType, ghost rank: seq<nat>) returns (group: GroupRef)
      requires WellFormed(g) && RankedBy(g, rank) && currentShader != null
      modifies this`currentType, this`emitted, currentShader`caps
      ensures currentType == t && GroupFor(g, t, rank, group) && emitted == group.layers
      ensures currentShader.caps == Accumulated(old(currentShader.caps), g, TypeNodes(g, t, rank), t)
    {
      currentType := t;
      emitted := [];
      var output := g.nodes[g.output];
      var inp := ClosureInput(g, t);
      assert Closed(g, t, {});
      var deps;
      ghost var added;
      deps, added := FindDependencies(g, t, {}, inp, rank);
      ResolvedClosed(g, t, {}, deps, added);
      FindDependenciesExact(g, t, {}, inp, rank, deps);
      GenerateNodes(g, deps, rank);
      emitted := emitted + [g.output];
      group := GroupRef(emitted);
      assert group.layers[..|group.layers| - 1] == emitted[0..][..|group.layers| - 1];
    }

    /** OSLCompiler::compile: when the shader was modified, resets its
        flags and builds the surface (and bump), volume and displacement
        groups of a referenced shader whose closure inputs are linked; an
        unbuilt group is cleared. The graph is taken as already finalized. */
    method Compile(shader: Shader, ghost rank: seq<nat>)
      requires shader.graph.Some? && WellFormed(shader.graph.value) && RankedBy(shader.graph.value, rank)
      modifies this, shader`caps, shader`oslSurfaceRef, shader`oslSurfaceBumpRef, shader`oslVolumeRef,
               shader`oslDisplacementRef
      ensures !old(shader.modified) ==> unchanged(shader) && unchanged(this)
      ensures old(shader.modified) ==> Compiled(shader, old(shader.caps), rank) && currentShader == shader
    {
      if shader.modified {
        CompileModified(shader, rank);
      }
    }

    /** What compile leaves in a modified shader whose flags were `c`. */
    ghost predicate Compiled(shader: Shader, c: Caps, rank: seq<nat>)
      requires shader.graph.Some? && WellFormed(shader.graph.value) && RankedBy(shader.graph.value, rank)
      reads shader
    {
      CompiledState(shader.graph.value, rank, shader.referenceCount, shader.displacementMethod, c, shader.caps,
                    shader.oslSurfaceRef, shader.oslSurfaceBumpRef, shader.oslVolumeRef, shader.oslDisplacementRef)
    }

    /** The body of compile for a modified shader. */
    method CompileModified(shader: Shader, ghost rank: seq<nat>)
      requires shader.graph.Some? && WellFormed(shader.graph.value) && RankedBy(shader.graph.value, rank)
      modifies this, shader`caps, shader`oslSurfaceRef, shader`oslSurfaceBumpRef, shader`oslVolumeRef,
               shader`oslDisplacementRef
      ensures Compiled(shader, old(shader.caps), rank) && currentShader == shader
    {
      var g := shader.graph.value;
      var hasBump := shader.displacementMethod != DisplaceTrue &&
                     ClosureInput(g, Surface).link.Some? && ClosureInput(g, Displacement).link.Some?;
      currentShader := shader;
      shader.caps := shader.caps - ResetFlags;
      if hasBump {
        shader.caps := shader.caps + {HasBump, HasBssrdfBump};
      }
      ghost var reset := shader.caps;
      ghost var afterSurface, afterVolume := CompileBlocks(shader, g, hasBump, rank);
      CompiledFromBlocks(g, rank, shader.referenceCount, shader.displacementMethod, old(shader.caps), reset,
                         afterSurface, afterVolume, shader.caps, shader.oslSurfaceRef, shader.oslSurfaceBumpRef,
                         shader.oslVolumeRef, shader.oslDisplacementRef);
    }

    /** The three blocks of compile in turn; `afterSurface` and
        `afterVolume` are the flags between them. */
    method CompileBlocks(shader: Shader, g: Graph, hasBump: bool, ghost rank: seq<nat>)
      returns (ghost afterSurface: Caps, ghost afterVolume: Caps)
      requires currentShader == shader && WellFormed(g) && RankedBy(g, rank)
      modifies this`currentType, this`emitted, shader`caps, shader`oslSurfaceRef, shader`oslSurfaceBumpRef,
               shader`oslVolumeRef, shader`oslDisplacementRef
      ensures var built := shader.referenceCount != 0 && ClosureInput(g, Surface).link.Some?;
              (shader.oslSurfaceRef.Some? <==> built) && (shader.oslSurfaceBumpRef.Some? <==> built && hasBump) &&
              afterSurface == Stage(old(shader.caps), g, rank, Surface, built)
      ensures var built := shader.referenceCount != 0 && ClosureInput(g, Volume).link.Some?;
              (shader.oslVolumeRef.Some? <==> built) && afterVolume == Stage(afterSurface, g, rank, Volume, built)
      ensures var built := shader.referenceCount != 0 && ClosureInput(g, Displacement).link.Some?;
              (shader.oslDisplacementRef.Some? <==> built) && shader.caps == Stage(afterVolume, g, rank, Displacement, built)
      ensures shader.oslSurfaceRef.Some? ==> GroupFor(g, Surface, rank, shader.oslSurfaceRef.value)
      ensures shader.oslSurfaceBumpRef.Some? ==> GroupFor(g, Bump, rank, shader.oslSurfaceBumpRef.value)
      ensures shader.oslVolumeRef.Some? ==> GroupFor(g, Volume, rank, shader.oslVolumeRef.value)
      ensures shader.oslDisplacementRef.Some? ==> GroupFor(g, Displacement, rank, shader.oslDisplacementRef.value)
    {
      CompileSurface(shader, g, hasBump, rank);
      afterSurface := shader.caps;
      CompileVolume(shader, g, rank);
      afterVolume := shader.caps;
      CompileDisplacement(shader, g, rank);
    }

    /** The surface block of compile: builds the surface group, and the
        bump group when `hasBump`, for a referenced shader whose Surface
        input is linked, and then sets has_surface. */
    method CompileSurface(shader: Shader, g: Graph, hasBump: bool, ghost rank: seq<nat>)
      requires currentShader == shader && WellFormed(g) && RankedBy(g, rank)
      modifies this`currentType, this`emitted, shader`caps, shader`oslSurfaceRef, shader`oslSurfaceBumpRef
      ensures var built := shader.referenceCount != 0 && ClosureInput(g, Surface).link.Some?;
              (shader.oslSurfaceRef.Some? <==> built) && (shader.oslSurfaceBumpRef.Some? <==> built && hasBump) &&
              shader.caps == Stage(old(shader.caps), g, rank, Surface, built)
      ensures shader.oslSurfaceRef.Some? ==> GroupFor(g, Surface, rank, shader.oslSurfaceRef.value)
      ensures shader.oslSurfaceBumpRef.Some? ==> GroupFor(g, Bump, rank, shader.oslSurfaceBumpRef.value)
    {
      if shader.referenceCount != 0 && ClosureInput(g, Surface).link.Some? {
        var surface := CompileType(g, Surface, rank);
        shader.oslSurfaceRef := Some(surface);
        if hasBump {
          var bump := CompileType(g, Bump, rank);
          shader.oslSurfaceBumpRef := Some(bump);
        } else {
          shader.oslSurfaceBumpRef := None;
        }
        shader.caps := shader.caps + {HasSurface};
      } else {
        shader.oslSurfaceRef := None;
        shader.oslSurfaceBumpRef := None;
      }
    }

    /** The volume block of compile. */
    method CompileVolume(shader: Shader, g: Graph, ghost rank: seq<nat>)
      requires currentShader == shader && WellFormed(g) && RankedBy(g, rank)
      modifies this`currentType, this`emitted, shader`caps, shader`oslVolumeRef
      ensures var built := shader.referenceCount != 0 && ClosureInput(g, Volume).link.Some?;
              (shader.oslVolumeRef.Some? <==> built) &&
              shader.caps == Stage(old(shader.caps), g, rank, Volume, built)
      ensures shader.oslVolumeRef.Some? ==> GroupFor(g, Volume, rank, shader.oslVolumeRef.value)
    {
      if shader.referenceCount != 0 && ClosureInput(g, Volume).link.Some? {
        var volume := CompileType(g, Volume, rank);
        shader.oslVolumeRef := Some(volume);
        shader.caps := shader.caps + {HasVolume};
      } else {
        shader.oslVolumeRef := None;
      }
    }

    /** The displacement block of compile. */
    method CompileDisplacement(shader: Shader, g: Graph, ghost rank: seq<nat>)
      requires currentShader == shader && WellFormed(g) && RankedBy(g, rank)
      modifies this`currentType, this`emitted, shader`caps, shader`oslDisplacementRef
      ensures var built := shader.referenceCount != 0 && ClosureInput(g, Displacement).link.Some?;
              (shader.oslDisplacementRef.Some? <==> built) &&
              shader.caps == Stage(old(shader.caps), g, rank, Displacement, built)
      ensures shader.oslDisplacementRef.Some? ==> GroupFor(g, Displacement, rank, shader.oslDisplacementRef.value)
    {
      if shader.referenceCount != 0 && ClosureInput(g, Displacement).link.Some? {
        var displacement := CompileType(g, Displacement, rank);
        shader.oslDisplacementRef := Some(displacement);
        shader.caps := shader.caps + {HasDisplacement};
      } else {
        shader.oslDisplacementRef := None;
      }
    }
  }
}
