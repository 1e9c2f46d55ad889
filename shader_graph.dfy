/**
 * The shader graph as the OSL compiler reads it: nodes identified by their
 * index, each with its inputs (linked or not) and output names. The graph
 * sources themselves (graph.h, nodes.h) are not part of this model; only
 * the facts the compiler relies on are stated here.
 */
module ShaderGraph {
  import opened Wrappers

  type NodeId = nat

  /** ShaderNodeSpecialType, the two kinds the compiler tests for. */
  datatype SpecialType = OtherSpecial | OutputSpecial | BumpSpecial

  /** A ShaderInput: its name, whether it carries SVM_INTERNAL, and the node
      whose output it is linked to, if any. */
  datatype Input = Input(name: string, svmInternal: bool, link: Option<NodeId>)

  /** What a node reports about itself once compiled. */
  datatype NodeFeatures = NodeFeatures(surfaceEmission: bool, surfaceTransparent: bool, raytrace: bool,
                                       spatialVarying: bool, surfaceBssrdf: bool, bssrdfBump: bool,
                                       bump: bool)

  datatype Node = Node(special: SpecialType, inputs: seq<Input>, outputs: seq<string>, features: NodeFeatures)

  datatype Graph = Graph(nodes: seq<Node>, output: NodeId)

  /** The names of the output node's closure inputs. */
  const OutputInputNames: seq<string> := ["Surface", "Volume", "Displacement", "Normal"]

  predicate HasInput(n: Node, name: string)
  {
    exists i :: 0 <= i < |n.inputs| && n.inputs[i].name == name
  }

  /** Every link names a node of the graph, and the output node is a node
      with the four closure inputs. */
  predicate WellFormed(g: Graph)
  {
    g.output < |g.nodes| &&
    (forall n, i | 0 <= n < |g.nodes| && 0 <= i < |g.nodes[n].inputs| && g.nodes[n].inputs[i].link.Some? ::
      g.nodes[n].inputs[i].link.value < |g.nodes|) &&
    g.nodes[g.output].special == OutputSpecial &&
    forall k :: 0 <= k < |OutputInputNames| ==> HasInput(g.nodes[g.output], OutputInputNames[k])
  }

  /** The graph has no cycles: every link goes to a node of lower rank. */
  ghost predicate RankedBy(g: Graph, rank: seq<nat>)
  {
    |rank| == |g.nodes| &&
    forall n, i | 0 <= n < |g.nodes| && 0 <= i < |g.nodes[n].inputs| && g.nodes[n].inputs[i].link.Some? ::
      g.nodes[n].inputs[i].link.value < |rank| && rank[g.nodes[n].inputs[i].link.value] < rank[n]
  }

  /** ShaderNode::input(name): the first input of that name. */
  function InputNamed(n: Node, name: string): (r: Input)
    requires HasInput(n, name)
    ensures r in n.inputs && r.name == name
  {
    InputNamedFrom(n.inputs, name)
  }

  function InputNamedFrom(inputs: seq<Input>, name: string): (r: Input)
    requires exists i :: 0 <= i < |inputs| && inputs[i].name == name
    ensures r in inputs && r.name == name
  {
    if inputs[0].name == name then inputs[0] else InputNamedFrom(inputs[1..], name)
  }
}
