/** Steps and concepts as the program holds them: objects that share lookups and steps. */
module ConceptSteps {
  import opened Substitution

  /** The values of a concept's parameters; the same object may be held by several steps. */
  class Lookup {
    const names: set<string>
    ghost const formals: seq<string>
    var values: Env

    constructor (names: set<string>, ghost formals: seq<string>)
      ensures this.names == names && this.formals == formals && values == map[]
    {
      this.names, this.formals, values := names, formals, map[];
    }

    ghost predicate Valid()
      reads this
    {
      values.Keys <= names && (forall n :: n in names <==> n in formals)
    }

    method AddArgValue(name: string, arg: Arg)
      requires name in names
      modifies this
      ensures values == old(values)[name := arg]
    {
      values := values[name := arg];
    }

    /** A new lookup with the same names and values. */
    method GetCopy() returns (copy: Lookup)
      requires Valid()
      ensures fresh(copy) && copy.Valid()
      ensures copy.names == names && copy.formals == formals && copy.values == values
    {
      copy := new Lookup(names, formals);
      var rest := values.Keys;
      while rest != {}
        invariant rest <= values.Keys && copy.values == values - rest
        invariant copy.names == names && copy.formals == formals && fresh(copy)
        decreases rest
      {
        var name :| name in rest;
        copy.AddArgValue(name, values[name]);
        rest := rest - {name};
      }
    }
  }

  class Step {
    var value: string
    var args: seq<Arg>
    var isConcept: bool
    var lookup: Lookup
    var conceptSteps: seq<Step>
    var parent: Step?
    /** The step and everything below it as a value. */
    ghost var tree: Tree

    constructor (value: string, args: seq<Arg>, isConcept: bool, lookup: Lookup, steps: seq<Step>, parent: Step?)
      requires lookup.Valid()
      ensures this.value == value && this.args == args && this.isConcept == isConcept && this.lookup == lookup
      ensures conceptSteps == steps && this.parent == parent
      ensures Models()
    {
      this.value, this.args, this.isConcept, this.lookup := value, args, isConcept, lookup;
      conceptSteps, this.parent := steps, parent;
      tree := Tree(value, args, isConcept, lookup.formals, lookup.values,
                   seq(|steps|, i requires 0 <= i < |steps| reads set s | s in steps => steps[i].tree));
    }

    /** The ghost value is that of the fields, one level deep. */
    ghost predicate Models()
      reads this, lookup, conceptSteps
    {
      && tree.value == value && tree.args == args && tree.isConcept == isConcept
      && tree.formals == lookup.formals && tree.lookup == lookup.values && lookup.Valid()
      && |tree.steps| == |conceptSteps|
      && forall i :: 0 <= i < |conceptSteps| ==> tree.steps[i] == conceptSteps[i].tree
    }
  }

  ghost function Lookups(region: set<Step>): set<Lookup>
    reads region`lookup
  {
    set s | s in region :: s.lookup
  }

  /** A set of steps closed under containment, all of them modelled by their ghost values. */
  ghost predicate Region(region: set<Step>)
    reads region, Lookups(region)
  {
    && (forall s, c :: s in region && c in s.conceptSteps ==> c in region)
    && (forall s :: s in region ==> s.Models())
  }

  lemma {:induction false} RegionAdd(region: set<Step>, s: Step)
    requires Region(region) && s.Models() && forall c :: c in s.conceptSteps ==> c in region
    ensures Region(region + {s})
  {
  }

  /** `getCopy`: concepts are copied with their lookups, plain steps are shared. */
  method GetCopy(step: Step, ghost region: set<Step>) returns (copy: Step, ghost added: set<Step>)
    requires step in region && Region(region)
    ensures copy in region + added && copy.tree == step.tree && (copy == step || copy in added)
    ensures forall s :: s in added ==> fresh(s) && fresh(s.lookup)
    ensures Region(region + added)
    decreases step.tree, 2
  {
    if !step.isConcept {
      assert region + {} == region;
      return step, {};
    }
    copy, added := CopyConcept(step, region);
    RegionAdd(region + added, copy);
    assert region + added + {copy} == region + (added + {copy});
    added := added + {copy};
  }

  /** The copy of a concept; `added` are the steps copied below it. */
  method CopyConcept(step: Step, ghost region: set<Step>) returns (copy: Step, ghost added: set<Step>)
    requires step in region && Region(region) && step.isConcept
    ensures fresh(copy) && fresh(copy.lookup) && copy.lookup.names == step.lookup.names
    ensures copy.Models() && copy.tree == step.tree && copy.parent == step.parent
    ensures forall s :: s in added ==> fresh(s) && fresh(s.lookup) && s.lookup != copy.lookup
    ensures copy !in added
    ensures forall c :: c in copy.conceptSteps ==> c in region + added && (c in step.conceptSteps || c in added)
    ensures Region(region + added)
    decreases step.tree, 1
  {
    var nestedStepsCopy;
    nestedStepsCopy, added := CopySteps(step, region);
    var lookup := step.lookup.GetCopy();
    copy := new Step(step.value, step.args, true, lookup, nestedStepsCopy, step.parent);
    assert copy.tree.steps == step.tree.steps;
  }

  lemma {:induction false} StepsInside(step: Step, region: set<Step>)
    requires step in region && Region(region)
    ensures |step.tree.steps| == |step.conceptSteps|
    ensures forall i :: 0 <= i < |step.conceptSteps| ==>
              step.conceptSteps[i] in region && step.tree.steps[i] == step.conceptSteps[i].tree
  {
    assert step.Models();
  }

  method CopySteps(step: Step, ghost region: set<Step>) returns (copies: seq<Step>, ghost added: set<Step>)
    requires step in region && Region(region)
    ensures |copies| == |step.conceptSteps|
    ensures forall k :: 0 <= k < |copies| ==> copies[k] in region + added && copies[k].tree == step.conceptSteps[k].tree
    ensures forall k :: 0 <= k < |copies| ==> copies[k] == step.conceptSteps[k] || copies[k] in added
    ensures forall s :: s in added ==> fresh(s) && fresh(s.lookup)
    ensures Region(region + added)
    decreases step.tree, 0
  {
    hide Region, Step.Models, Lookups;
    copies, added := [], {};
    assert region + {} == region;
    StepsInside(step, region);
    var i := 0;
    while i < |step.conceptSteps|
      invariant 0 <= i <= |step.conceptSteps| && |copies| == i
      invariant forall s :: s in added ==> fresh(s) && fresh(s.lookup)
      invariant Region(region + added)
      invariant forall k :: 0 <= k < i ==> copies[k] in region + added && copies[k].tree == step.conceptSteps[k].tree
      invariant forall k :: 0 <= k < i ==> copies[k] == step.conceptSteps[k] || copies[k] in added
    {
      ghost var more;
      var copy;
      copy, more := GetCopy(step.conceptSteps[i], region + added);
      assert region + added + more == region + (added + more);
      added := added + more;
      copies := copies + [copy];
      i := i + 1;
    }
  }

  lemma {:induction false} BindNothing(formals: seq<string>)
    ensures Bind<Arg>(formals, []) == map[]
  {
  }

  lemma {:induction false} BindNext(formals: seq<string>, args: seq<Arg>, i: nat)
    requires i < |args| <= |formals|
    ensures Bind(formals, args[..i + 1]) == Bind(formals, args[..i])[formals[i] := args[i]]
  {
    assert args[..i + 1][..i] == args[..i];
  }

  /** `populateConceptLookup` */
  method PopulateConceptLookup(lookup: Lookup, conceptArgs: seq<Arg>, stepArgs: seq<Arg>)
    requires |stepArgs| <= |conceptArgs| && lookup.Valid()
    requires forall i :: 0 <= i < |conceptArgs| ==> conceptArgs[i].value in lookup.names
    modifies lookup
    ensures lookup.Valid()
    ensures lookup.values == old(lookup.values) + Bind(Values(conceptArgs), stepArgs)
  {
    hide Bind, Values;
    var formals := Values(conceptArgs);
    var i := 0;
    BindNothing(formals);
    while i < |stepArgs|
      invariant 0 <= i <= |stepArgs| && lookup.Valid()
      invariant lookup.values == old(lookup.values) + Bind(formals, stepArgs[..i])
    {
      BindNext(formals, stepArgs, i);
      lookup.AddArgValue(conceptArgs[i].value, stepArgs[i]);
      i := i + 1;
    }
    assert stepArgs[..i] == stepArgs;
  }

  function Values(args: seq<Arg>): (values: seq<string>)
    ensures |values| == |args| && forall i :: 0 <= i < |args| ==> values[i] == args[i].value
  {
    seq(|args|, i requires 0 <= i < |args| => args[i].value)
  }

  method SetParents(steps: seq<Step>, parent: Step)
    modifies (set s | s in steps)`parent
    ensures forall s :: s in steps ==> s.parent == parent
  {
    var i := 0;
    while i < |steps|
      invariant 0 <= i <= |steps|
      invariant forall k :: 0 <= k < i ==> steps[k].parent == parent
    {
      steps[i].parent := parent;
      i := i + 1;
    }
  }

  /** Nothing that `Region` speaks of has changed. */
  twostate lemma {:induction false} OnlyParentsChanged(region: set<Step>)
    requires old(Region(region))
    requires forall s :: s in region ==>
               && s.value == old(s.value) && s.args == old(s.args) && s.isConcept == old(s.isConcept)
               && s.lookup == old(s.lookup) && s.lookup.values == old(s.lookup.values)
               && s.conceptSteps == old(s.conceptSteps) && s.tree == old(s.tree)
    ensures Region(region)
  {
    forall s | s in region ensures s.Models() {
      assert old(s.Models());
    }
  }

  /** A concept used with arguments of its own. */
  function Use(concept: Tree, args: seq<Arg>): Tree
    requires |args| <= |concept.formals|
  {
    concept.(args := args, lookup := concept.lookup + Bind(concept.formals, args))
  }

  /** `createConceptStep`: turns a step of a specification into a use of a concept. Of the
      dictionary only parent pointers change. */
  method CreateConceptStep(concept: Step, originalStep: Step, ghost region: set<Step>) returns (ghost added: set<Step>)
    requires Region(region) && concept in region && originalStep !in region
    requires concept.isConcept && concept.parent == null
    requires concept.lookup.formals == Values(concept.args) && |originalStep.args| <= |concept.args|
    modifies originalStep, region`parent
    ensures Region(region + added) && Region(region + added + {originalStep})
    ensures forall s :: s in added ==> fresh(s) && fresh(s.lookup)
    ensures fresh(originalStep.lookup) && originalStep.parent == null
    ensures forall s :: s in originalStep.conceptSteps ==> s in region + added && s.parent == originalStep
    ensures forall s :: s in region && s !in concept.conceptSteps ==> s.parent == old(s.parent)
    ensures originalStep.tree == Use(old(concept.tree), old(originalStep.args))
  {
    hide Use, Bind;
    var stepCopy;
    stepCopy, added := CopyConcept(concept, region);
    TakeCopy(originalStep, stepCopy, concept.args, region + added);
  }

  /** The second half of `createConceptStep`: the step takes over the fields of the copy,
      keeps its own arguments, becomes the parent of the steps inside, and binds. */
  method TakeCopy(originalStep: Step, stepCopy: Step, conceptArgs: seq<Arg>, ghost region: set<Step>)
    requires Region(region) && originalStep !in region && stepCopy !in region && originalStep != stepCopy
    requires stepCopy.Models() && stepCopy.parent == null && stepCopy.lookup !in Lookups(region)
    requires stepCopy.lookup.formals == Values(conceptArgs) && |originalStep.args| <= |conceptArgs|
    requires forall c :: c in stepCopy.conceptSteps ==> c in region
    modifies originalStep, (set c | c in stepCopy.conceptSteps)`parent, stepCopy.lookup
    ensures Region(region) && Region(region + {originalStep})
    ensures originalStep.lookup == old(stepCopy.lookup) && originalStep.parent == null
    ensures originalStep.conceptSteps == old(stepCopy.conceptSteps)
    ensures forall s :: s in originalStep.conceptSteps ==> s.parent == originalStep
    ensures originalStep.tree == Use(old(stepCopy.tree), old(originalStep.args))
  {
    hide Bind, Values;
    var originalArgs := originalStep.args;
    CopyFrom(originalStep, stepCopy);
    originalStep.args := originalArgs;
    SetParents(originalStep.conceptSteps, originalStep);
    PopulateConceptLookup(originalStep.lookup, conceptArgs, originalStep.args);
    originalStep.tree := Use(originalStep.tree, originalArgs);
    OnlyParentsChanged(region);
    RegionAdd(region, originalStep);
  }

  method CopyFrom(target: Step, source: Step)
    modifies target
    ensures target.value == source.value && target.args == source.args && target.isConcept == source.isConcept
    ensures target.lookup == source.lookup && target.conceptSteps == source.conceptSteps
    ensures target.parent == source.parent && target.tree == source.tree
  {
    target.isConcept, target.args, target.conceptSteps := source.isConcept, source.args, source.conceptSteps;
    target.value, target.lookup, target.parent := source.value, source.lookup, source.parent;
    target.tree := source.tree;
  }

  /** The concepts that may be used: what each one needs for `CreateConceptStep`. */
  ghost predicate Dictionary(concepts: map<string, Step>, region: set<Step>)
    reads region, Lookups(region)
  {
    && Region(region)
    && forall name :: name in concepts ==>
         && concepts[name] in region && concepts[name].isConcept && concepts[name].parent == null
         && concepts[name].lookup.formals == Values(concepts[name].args)
         && (forall s :: s in region ==> concepts[name] !in s.conceptSteps)
  }

  /** What a step of a specification becomes. */
  ghost function Processed(step: Tree, concepts: map<string, Tree>): Tree {
    if step.value in concepts && |step.args| <= |concepts[step.value].formals|
    then Use(concepts[step.value], step.args) else step
  }

  ghost predicate TreesAre(concepts: map<string, Step>, trees: map<string, Tree>)
    reads concepts.Values
  {
    concepts.Keys == trees.Keys && forall name :: name in concepts ==> concepts[name].tree == trees[name]
  }

  /** `processConceptStep` */
  method ProcessConceptStep(step: Step, concepts: map<string, Step>, ghost trees: map<string, Tree>,
      ghost region: set<Step>)
    returns (ghost added: set<Step>)
    requires Dictionary(concepts, region) && TreesAre(concepts, trees)
    requires step !in region && step.Models() && step.tree.steps == []
    requires step.value in concepts ==> |step.args| <= |concepts[step.value].args|
    modifies step, region`parent
    ensures Dictionary(concepts, region) && TreesAre(concepts, trees)
    ensures Region(region + added) && Region(region + added + {step})
    ensures forall s :: s in added ==> fresh(s) && fresh(s.lookup)
    ensures step.tree == Processed(old(step.tree), trees)
    ensures old(step.parent) == null ==> step.parent == null
    ensures forall c :: c in step.conceptSteps ==> c in region + added
  {
    if step.value in concepts {
      var concept := concepts[step.value];
      added := CreateConceptStep(concept, step, region);
      OnlyParentsChanged(region);
    } else {
      added := {};
      RegionAdd(region, step);
      assert region + {} + {step} == region + {step} && region + {} == region;
    }
  }

  /** The uses `done` and all steps inside them, which were copied into `added`. */
  ghost predicate Uses(region: set<Step>, added: set<Step>, done: set<Step>)
    reads region, added, done, Lookups(region + added + done)
  {
    && Region(region + added) && Region(region + added + done)
    && forall s, c :: s in done && c in s.conceptSteps ==> c in region + added
  }

  lemma {:induction false} UsesGrow(region: set<Step>, added: set<Step>, done: set<Step>, more: set<Step>, step: Step)
    requires Uses(region, added, done) && Region(region + more) && Region(region + more + {step})
    requires forall c :: c in step.conceptSteps ==> c in region + more
    ensures Uses(region, added + more, done + {step})
  {
    assert region + added + (region + more) == region + (added + more);
    assert region + added + done + (region + more + {step}) == region + (added + more) + (done + {step});
  }

  /** The same among the uses that were made before. */
  method ProcessNext(step: Step, concepts: map<string, Step>, ghost trees: map<string, Tree>,
                     ghost region: set<Step>, ghost added: set<Step>, ghost done: set<Step>)
    returns (ghost more: set<Step>)
    requires Dictionary(concepts, region) && TreesAre(concepts, trees)
    requires Uses(region, added, done) && step !in region + added + done && step.Models() && step.tree.steps == []
    requires step.value in concepts ==> |step.args| <= |concepts[step.value].args|
    modifies step, region`parent
    ensures Dictionary(concepts, region) && TreesAre(concepts, trees)
    ensures Uses(region, added + more, done + {step})
    ensures forall s :: s in more ==> fresh(s) && fresh(s.lookup)
    ensures step.tree == Processed(old(step.tree), trees)
    ensures old(step.parent) == null ==> step.parent == null
  {
    hide Processed, Use, Bind, Dictionary, TreesAre, Region;
    more := ProcessConceptStep(step, concepts, trees, region);
    OnlyParentsChanged(region + added);
    OnlyParentsChanged(region + added + done);
    UsesGrow(region, added, done, more, step);
  }

  /** `processConceptStepsFrom` for the steps of a specification, in order: every step that
      names a concept becomes its own use of it, whatever was used before; the dictionary and
      its lookups stay as they are. */
  method ProcessConceptSteps(steps: seq<Step>, concepts: map<string, Step>, ghost trees: map<string, Tree>,
      ghost region: set<Step>)
    returns (ghost added: set<Step>)
    requires Dictionary(concepts, region) && TreesAre(concepts, trees)
    requires forall i :: 0 <= i < |steps| ==>
               steps[i] !in region && steps[i].Models() && steps[i].tree.steps == [] && steps[i].parent == null
    requires forall i, j :: 0 <= i < j < |steps| ==> steps[i] != steps[j]
    requires forall i :: 0 <= i < |steps| && steps[i].value in concepts ==>
               |steps[i].args| <= |concepts[steps[i].value].args|
    modifies (set s | s in steps), region`parent
    ensures Dictionary(concepts, region) && TreesAre(concepts, trees)
    ensures Uses(region, added, set s | s in steps)
    ensures forall s :: s in added ==> fresh(s)
    ensures forall i :: 0 <= i < |steps| ==>
              steps[i].tree == Processed(old(steps[i].tree), trees) && steps[i].parent == null
  {
    hide Processed, Use, Bind, Dictionary, TreesAre, Uses;
    added := {};
    ghost var done: set<Step> := {};
    var i := 0;
    NoUses(concepts, region);
    while i < |steps|
      invariant 0 <= i <= |steps| && Dictionary(concepts, region) && TreesAre(concepts, trees)
      invariant forall k :: 0 <= k < |steps| ==> (steps[k] in done <==> k < i)
      invariant forall s :: s in done ==> s in steps
      invariant forall s :: s in added ==> fresh(s) && fresh(s.lookup)
      invariant Uses(region, added, done)
      invariant forall k :: i <= k < |steps| ==> steps[k].Models() && steps[k].tree == old(steps[k].tree)
      invariant forall k :: 0 <= k < i ==> steps[k].tree == Processed(old(steps[k].tree), trees)
      invariant forall k :: 0 <= k < |steps| ==> steps[k].parent == null
    {
      ghost var more := ProcessNext(steps[i], concepts, trees, region, added, done);
      added, done := added + more, done + {steps[i]};
      i := i + 1;
    }
    assert done == (set s | s in steps);
  }

  lemma {:induction false} NoUses(concepts: map<string, Step>, region: set<Step>)
    requires Dictionary(concepts, region)
    ensures Uses(region, {}, {})
    ensures forall name :: name in concepts ==> concepts[name] in region
  {
    assert region + {} + {} == region && region + {} == region;
  }
}
