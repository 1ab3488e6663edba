/** The trees below the steps of a dictionary that the circular reference check has accepted. */
module ConceptTrees {
  import opened Substitution
  import opened ConceptSteps
  import ConceptGraph

  /** The fields of a step that resolution reads. */
  datatype Node = Node(value: string, args: seq<Arg>, isConcept: bool, formals: seq<string>, lookup: Env,
      inside: seq<Step>)

  type Nodes = map<Step, Node>

  ghost predicate Closed(nodes: Nodes) {
    forall s, i :: s in nodes && 0 <= i < |nodes[s].inside| ==> nodes[s].inside[i] in nodes
  }

  /** The tree below a step, cut off after `n` levels. */
  ghost function TreeOf(nodes: Nodes, s: Step, n: nat): Tree
    requires s in nodes && Closed(nodes)
    decreases n
  {
    var node := nodes[s];
    Tree(node.value, node.args, node.isConcept, node.formals, node.lookup,
         if n == 0 then []
         else seq(|node.inside|, i requires 0 <= i < |node.inside| => TreeOf(nodes, node.inside[i], n - 1)))
  }

  /** The steps inside a concept step are the calls of the concept that it names. */
  ghost predicate Mirrors(g: ConceptGraph.Graph, nodes: Nodes) {
    && (forall s :: s in nodes ==> if nodes[s].isConcept then nodes[s].value in g else nodes[s].inside == [])
    && forall s, k :: s in nodes && nodes[s].isConcept && 0 <= k < |nodes[s].inside| ==>
         && nodes[s].inside[k] in nodes && k < |g[nodes[s].value]|
         && g[nodes[s].value][k] == CallOf(nodes, nodes[s].inside[k])
  }

  ghost function CallOf(nodes: Nodes, s: Step): ConceptGraph.Call
    requires s in nodes
  {
    ConceptGraph.Call(nodes[s].value, nodes[s].isConcept)
  }

  lemma {:induction false} ChainGrows(g: ConceptGraph.Graph, path: seq<string>, name: string)
    requires ConceptGraph.Chain(g, path) && ConceptGraph.Links(g, path[|path| - 1], name)
    ensures ConceptGraph.Chain(g, path + [name])
  {
    forall k | 0 <= k < |path| ensures ConceptGraph.Links(g, (path + [name])[k], (path + [name])[k + 1]) {
      if k < |path| - 1 {
        assert ConceptGraph.Links(g, path[k], path[k + 1]);
      }
    }
  }

  /** With more levels than concepts left on a chain nothing is cut off. */
  lemma {:induction false} NothingCutOff(g: ConceptGraph.Graph, nodes: Nodes, s: Step, path: seq<string>, n: nat)
    requires Mirrors(g, nodes) && Closed(nodes) && s in nodes
    requires ConceptGraph.WellFormed(g) && !(exists v :: ConceptGraph.ClosedBy(g, v))
    requires nodes[s].isConcept ==>
               ConceptGraph.Chain(g, path) && path[|path| - 1] == nodes[s].value && n + |path| > |g|
    ensures TreeOf(nodes, s, n) == TreeOf(nodes, s, n + 1)
    decreases n
  {
    hide ConceptGraph.WellFormed, ConceptGraph.ClosedBy, ConceptGraph.Chain, TreeOf;
    if nodes[s].isConcept {
      ConceptGraph.ChainsAreShort(g, path);
      forall k | 0 <= k < |nodes[s].inside|
        ensures TreeOf(nodes, nodes[s].inside[k], n - 1) == TreeOf(nodes, nodes[s].inside[k], n)
      {
        var c := nodes[s].inside[k];
        if nodes[c].isConcept {
          ChainGrows(g, path, nodes[c].value);
          NothingCutOff(g, nodes, c, path + [nodes[c].value], n - 1);
        } else {
          NothingCutOff(g, nodes, c, path, n - 1);
        }
      }
    }
    SameBelow(nodes, s, n);
  }

  lemma {:induction false} SameBelow(nodes: Nodes, s: Step, n: nat)
    requires Closed(nodes) && s in nodes
    requires nodes[s].inside == [] ||
             (n > 0 && forall k :: 0 <= k < |nodes[s].inside| ==>
               TreeOf(nodes, nodes[s].inside[k], n - 1) == TreeOf(nodes, nodes[s].inside[k], n))
    ensures TreeOf(nodes, s, n) == TreeOf(nodes, s, n + 1)
  {
  }

  /** In an accepted dictionary as many levels as there are concepts are enough for every step. */
  lemma {:induction false} EnoughLevels(g: ConceptGraph.Graph, nodes: Nodes)
    requires Mirrors(g, nodes) && Closed(nodes)
    requires ConceptGraph.WellFormed(g) && !(exists v :: ConceptGraph.ClosedBy(g, v))
    ensures forall s :: s in nodes ==> TreeOf(nodes, s, |g|) == TreeOf(nodes, s, |g| + 1)
  {
    hide ConceptGraph.WellFormed, ConceptGraph.ClosedBy;
    forall s | s in nodes ensures TreeOf(nodes, s, |g|) == TreeOf(nodes, s, |g| + 1) {
      NothingCutOff(g, nodes, s, [nodes[s].value], |g|);
    }
  }

  /** The lookup of every concept step inside another concept is right for its arguments. */
  ghost predicate InsideAgrees(nodes: Nodes) {
    forall s, k :: s in nodes && 0 <= k < |nodes[s].inside| && nodes[s].inside[k] in nodes ==>
      NodeAgrees(nodes[nodes[s].inside[k]])
  }

  ghost predicate NodeAgrees(node: Node) {
    node.isConcept ==> |node.formals| == |node.args| && AlikeEnvs(node.lookup, Bind(node.formals, node.args))
  }

  lemma {:induction false} TreesAgree(nodes: Nodes, s: Step, n: nat)
    requires Closed(nodes) && InsideAgrees(nodes) && s in nodes && NodeAgrees(nodes[s])
    ensures Agrees(TreeOf(nodes, s, n))
    decreases n
  {
    hide Bind;
    if n > 0 {
      forall k | 0 <= k < |nodes[s].inside| ensures Agrees(TreeOf(nodes, nodes[s].inside[k], n - 1)) {
        TreesAgree(nodes, nodes[s].inside[k], n - 1);
      }
    }
  }
}
