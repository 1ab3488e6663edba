/** The circular reference check of the concept dictionary, on every reference graph. */
module ConceptGraph {

  /** A step inside a concept. It is linked when it was turned into a concept step. */
  datatype Call = Call(value: string, isConcept: bool)

  /** The steps of every defined concept. */
  type Graph = map<string, seq<Call>>

  /** Linked steps name defined concepts. */
  ghost predicate WellFormed(g: Graph) {
    forall name, k :: name in g && 0 <= k < |g[name]| && g[name][k].isConcept ==> g[name][k].value in g
  }

  ghost predicate Names(g: Graph, a: string, b: string) {
    a in g && exists k :: 0 <= k < |g[a]| && g[a][k].value == b
  }

  ghost predicate Links(g: Graph, a: string, b: string) {
    a in g && exists k :: 0 <= k < |g[a]| && g[a][k].value == b && g[a][k].isConcept
  }

  /** A chain of concepts in which each one is a linked step of the one before. */
  ghost predicate Chain(g: Graph, w: seq<string>) {
    w != [] && w[0] in g && forall k :: 0 <= k < |w| - 1 ==> Links(g, w[k], w[k + 1])
  }

  /** A chain whose last concept names one that came before in the chain or is in `above`. */
  ghost predicate Returns(g: Graph, above: set<string>, w: seq<string>, last: string) {
    Chain(g, w) && Names(g, w[|w| - 1], last) && (last in above || last in w)
  }

  /** A chain that is closed by its last concept naming the first. */
  ghost predicate ClosedBy(g: Graph, w: seq<string>) {
    Chain(g, w) && Names(g, w[|w| - 1], w[0])
  }

  /** Every step that names another defined concept is linked. */
  ghost predicate FullyLinked(g: Graph) {
    forall name, k :: name in g && 0 <= k < |g[name]| && g[name][k].value in g && g[name][k].value != name ==>
      g[name][k].isConcept
  }

  /** A cycle of the reference graph, whether linked or not. */
  ghost predicate Cycle(g: Graph, w: seq<string>) {
    w != [] && (forall k :: 0 <= k < |w| - 1 ==> Names(g, w[k], w[k + 1])) && Names(g, w[|w| - 1], w[0])
  }

  class TraversedSteps {
    var names: set<string>

    constructor ()
      ensures names == {}
    {
      names := {};
    }
  }

  /** What one pass over the steps of `name` has to establish. */
  lemma {:induction false} NoReturnFrom(g: Graph, above: set<string>, name: string)
    requires WellFormed(g) && name in g
    requires forall k :: 0 <= k < |g[name]| ==> g[name][k].value !in above + {name}
    requires forall k, w, last :: 0 <= k < |g[name]| && g[name][k].isConcept && w != [] && w[0] == g[name][k].value
               ==> !Returns(g, above + {name}, w, last)
    ensures forall w, last :: w != [] && w[0] == name ==> !Returns(g, above, w, last)
  {
    forall w, last | w != [] && w[0] == name ensures !Returns(g, above, w, last) {
      if Chain(g, w) && |w| > 1 {
        assert !Returns(g, above + {name}, w[1..], last);
      }
    }
  }

  class ConceptDictionary {
    const concepts: Graph

    constructor (g: Graph)
      ensures concepts == g
    {
      concepts := g;
    }

    /** `found` tells whether a circular reference was found below `name`; `w` and `last` are
        then the chain and the reference that close it. */
    method CheckCircularReferencing(name: string, traversed: TraversedSteps)
      returns (found: bool, ghost w: seq<string>, ghost last: string)
      requires WellFormed(concepts) && name in concepts
      requires traversed.names <= concepts.Keys && name !in traversed.names
      modifies traversed
      ensures found ==> w != [] && w[0] == name && Returns(concepts, old(traversed.names), w, last)
      ensures !found ==> traversed.names == old(traversed.names)
      ensures !found ==> forall w, last :: w != [] && w[0] == name ==> !Returns(concepts, traversed.names, w, last)
      decreases |concepts.Keys - traversed.names|
    {
      ghost var above := traversed.names;
      w, last := [], "";
      traversed.names := traversed.names + {name};
      assert concepts.Keys - traversed.names == (concepts.Keys - above) - {name};
      var steps := concepts[name];
      var i := 0;
      while i < |steps|
        invariant 0 <= i <= |steps| && traversed.names == above + {name}
        invariant forall k :: 0 <= k < i ==> steps[k].value !in above + {name}
        invariant forall k, w, last :: 0 <= k < i && steps[k].isConcept && w != [] && w[0] == steps[k].value
                    ==> !Returns(concepts, above + {name}, w, last)
      {
        if steps[i].value in traversed.names {
          found, w, last := true, [name], steps[i].value;
          return;
        }
        if steps[i].isConcept {
          found, w, last := CheckCircularReferencing(steps[i].value, traversed);
          if found {
            w := [name] + w;
            return;
          }
        }
        i := i + 1;
      }
      traversed.names := traversed.names - {name};
      NoReturnFrom(concepts, above, name);
      found := false;
    }

    /** The check over all concepts, in whatever order the map yields them. */
    method ValidateConcepts(order: seq<string>) returns (found: bool)
      requires WellFormed(concepts) && (forall name :: name in order <==> name in concepts)
      ensures found <==> exists w :: ClosedBy(concepts, w)
    {
      var i := 0;
      while i < |order|
        invariant 0 <= i <= |order|
        invariant forall k, w, last :: 0 <= k < i && w != [] && w[0] == order[k] ==> !Returns(concepts, {}, w, last)
      {
        var traversed := new TraversedSteps();
        assert order[i] in order;
        ghost var w, last;
        found, w, last := CheckCircularReferencing(order[i], traversed);
        if found {
          CloseReturn(concepts, w, last);
          return;
        }
        i := i + 1;
      }
      forall w ensures !ClosedBy(concepts, w) {
        if Chain(concepts, w) {
          assert w[0] in order;
          assert !Returns(concepts, {}, w, w[0]);
        }
      }
      found := false;
    }
  }

  lemma {:induction false} CloseReturn(g: Graph, w: seq<string>, last: string)
    requires WellFormed(g) && Returns(g, {}, w, last)
    ensures exists v :: ClosedBy(g, v)
  {
    var i :| 0 <= i < |w| && w[i] == last;
    ChainFrom(g, w, i);
    assert ClosedBy(g, w[i..]);
  }

  lemma {:induction false} ChainFrom(g: Graph, w: seq<string>, i: nat)
    requires WellFormed(g) && Chain(g, w) && i < |w|
    ensures Chain(g, w[i..])
  {
    if i > 0 {
      ChainFrom(g, w[1..], i - 1);
      assert w[1..][i - 1..] == w[i..];
    }
  }

  /** In a fully linked dictionary the check finds exactly the cyclic reference graphs. */
  lemma {:induction false} LinkedCheckFindsCycles(g: Graph)
    requires WellFormed(g) && FullyLinked(g)
    ensures (exists w :: ClosedBy(g, w)) <==> (exists w :: Cycle(g, w))
  {
    if w :| ClosedBy(g, w) {
      assert Cycle(g, w);
    }
    if w :| Cycle(g, w) {
      CycleIsInside(g, w);
      if k :| 0 <= k < |w| - 1 && w[k] == w[k + 1] {
        assert Names(g, w[k], w[k + 1]);
        assert ClosedBy(g, [w[k]]);
      } else {
        forall k | 0 <= k < |w| - 1 ensures Links(g, w[k], w[k + 1]) {
          assert Names(g, w[k], w[k + 1]);
        }
        assert ClosedBy(g, w);
      }
    }
  }

  lemma {:induction false} CycleIsInside(g: Graph, w: seq<string>)
    requires Cycle(g, w)
    ensures forall k :: 0 <= k < |w| ==> w[k] in g
  {
    forall k | 0 <= k < |w| ensures w[k] in g {
      if k < |w| - 1 { assert Names(g, w[k], w[k + 1]); }
    }
  }

  ghost predicate MissedCycle(g: Graph) {
    (exists w :: Cycle(g, w)) && !exists w :: ClosedBy(g, w)
  }

  /** A cycle of three concepts with two unlinked steps, and a concept that took the links. */
  const MISSED: Graph := map["p" := [Call("b", true), Call("c", true)], "a" := [Call("b", false)],
                             "b" := [Call("c", false)], "c" := [Call("a", true)]]

  /** A cycle with two unlinked steps goes unnoticed. */
  lemma {:induction false} UnlinkedCycleIsMissed()
    ensures WellFormed(MISSED) && MissedCycle(MISSED)
  {
    assert Names(MISSED, "a", "b") && Names(MISSED, "b", "c") && Names(MISSED, "c", "a") by {
      assert MISSED["a"][0].value == "b" && MISSED["b"][0].value == "c" && MISSED["c"][0].value == "a";
    }
    assert Cycle(MISSED, ["a", "b", "c"]);
    forall x, y ensures Links(MISSED, x, y) ==> (x == "p" && y != "p") || (x == "c" && y == "a") {
    }
    forall w ensures !ClosedBy(MISSED, w) {
      if Chain(MISSED, w) {
        var n := |w| - 1;
        assert n > 0 ==> Links(MISSED, w[0], w[0 + 1]);
        assert n > 1 ==> Links(MISSED, w[1], w[1 + 1]);
      }
    }
  }

  /* ---------- expanding an accepted dictionary ---------- */

  ghost predicate DistinctNames(w: seq<string>) {
    forall i, j :: 0 <= i < j < |w| ==> w[i] != w[j]
  }

  lemma {:induction false} DistinctNamesFit(w: seq<string>, s: set<string>)
    requires DistinctNames(w) && forall k :: 0 <= k < |w| ==> w[k] in s
    ensures |w| <= |s|
  {
    if w != [] {
      DistinctNamesFit(w[1..], s - {w[0]});
    }
  }

  /** In an accepted dictionary no chain repeats a concept, so none is longer than there are
      concepts. */
  lemma {:induction false} ChainsAreShort(g: Graph, w: seq<string>)
    requires WellFormed(g) && !(exists v :: ClosedBy(g, v)) && Chain(g, w)
    ensures DistinctNames(w) && |w| <= |g|
  {
    forall k | 0 <= k < |w| ensures w[k] in g {
      if k > 0 { assert Links(g, w[k - 1], w[k - 1 + 1]); }
    }
    forall i, j | 0 <= i < j < |w| ensures w[i] != w[j] {
      if w[i] == w[j] {
        ChainFrom(g, w[..j], i);
        assert Links(g, w[j - 1], w[j - 1 + 1]);
        assert ClosedBy(g, w[..j][i..]);
      }
    }
    DistinctNamesFit(w, g.Keys);
    assert |g.Keys| == |g|;
  }

  datatype Expansion = Leaf(value: string) | Concept(value: string, steps: seq<Expansion>)

  function Depth(e: Expansion): nat {
    match e
    case Leaf(_) => 0
    case Concept(_, steps) => 1 + DepthOfAll(steps)
  }

  function DepthOfAll(es: seq<Expansion>): nat {
    if es == [] then 0
    else
      var first, rest := Depth(es[0]), DepthOfAll(es[1..]);
      if first > rest then first else rest
  }

  /** `getCopy`: the whole tree below a concept. `path` is the chain that leads to it. */
  function GetCopy(g: Graph, name: string, ghost path: seq<string>): (e: Expansion)
    requires WellFormed(g) && !(exists v :: ClosedBy(g, v))
    requires Chain(g, path) && path[|path| - 1] == name && |path| <= |g|
    ensures Depth(e) <= |g| + 1 - |path|
    decreases |g| - |path|, 1, 0
  {
    assert name in g by {
      if |path| > 1 { assert Links(g, path[|path| - 2], path[|path| - 2 + 1]); }
    }
    Concept(name, CopySteps(g, g[name], path))
  }

  function CopySteps(g: Graph, steps: seq<Call>, ghost path: seq<string>): (es: seq<Expansion>)
    requires WellFormed(g) && !(exists v :: ClosedBy(g, v))
    requires Chain(g, path) && |path| <= |g|
    requires forall k :: 0 <= k < |steps| && steps[k].isConcept ==> Links(g, path[|path| - 1], steps[k].value)
    ensures DepthOfAll(es) <= |g| - |path|
    decreases |g| - |path|, 0, |steps|
  {
    if steps == [] then []
    else
      var e :=
        if steps[0].isConcept then
          ChainsAreShort(g, path + [steps[0].value]);
          GetCopy(g, steps[0].value, path + [steps[0].value])
        else Leaf(steps[0].value);
      var es := [e] + CopySteps(g, steps[1..], path);
      assert es[1..] == CopySteps(g, steps[1..], path);
      es
  }
}
