/** Building the concept dictionary: which steps become linked to the concepts they name. */
module ConceptLinking {
  import opened Text
  import opened ConceptSteps
  import ConceptGraph

  /** What the dictionary has seen: a concept is defined, and then come the steps inside it.
      `owner` is the position of the definition a step belongs to. */
  datatype Entry = Definition(text: string) | Inner(text: string, owner: nat)

  /** What a concept with the texts of its steps adds, when it is defined at `at`. */
  ghost function OneConcept(name: string, texts: seq<string>, at: nat): (entries: seq<Entry>)
    ensures |entries| == |texts| + 1 && entries[0] == Definition(name)
    ensures forall k :: 0 <= k < |texts| ==> entries[k + 1] == Inner(texts[k], at)
  {
    [Definition(name)] + seq(|texts|, k requires 0 <= k < |texts| => Inner(texts[k], at))
  }

  /** A log with a concept of which `n` steps have come in. */
  ghost function Begun(log: seq<Entry>, name: string, texts: seq<string>, n: nat): (r: seq<Entry>)
    requires n <= |texts|
    ensures |r| == |log| + 1 + n
  {
    log + OneConcept(name, texts, |log|)[..n + 1]
  }

  lemma {:induction false} BegunNow(log: seq<Entry>, name: string, texts: seq<string>)
    ensures Begun(log, name, texts, 0) == log + [Definition(name)]
    ensures Begun(log, name, texts, |texts|) == log + OneConcept(name, texts, |log|)
  {
  }

  lemma {:induction false} BegunNext(log: seq<Entry>, name: string, texts: seq<string>, n: nat)
    requires n < |texts|
    ensures Begun(log, name, texts, n + 1) == Begun(log, name, texts, n) + [Inner(texts[n], |log|)]
  {
    hide OneConcept;
    var entries := OneConcept(name, texts, |log|);
    assert entries[..n + 2] == entries[..n + 1] + [entries[n + 1]];
  }

  /** Only the concept itself is newly defined. */
  lemma {:induction false} DefinedNext(log: seq<Entry>, name: string, texts: seq<string>, n: nat)
    requires Defined(log, name).None? && n <= |texts|
    ensures forall v :: Defined(Begun(log, name, texts, n), v) == if v == name then Some(|log|) else Defined(log, v)
  {
    hide OneConcept, Defined, First, Begun;
    if n == 0 {
      BegunNow(log, name, texts);
      Appended(log, Definition(name));
    } else {
      DefinedNext(log, name, texts, n - 1);
      BegunNext(log, name, texts, n - 1);
      Appended(Begun(log, name, texts, n - 1), Inner(texts[n - 1], |log|));
    }
  }

  /** What the first `n` of some concepts add, one after the other, from position `start` on. */
  ghost function Entries(names: seq<string>, texts: seq<seq<string>>, n: nat, start: nat): seq<Entry>
    requires n <= |names| == |texts|
  {
    if n == 0 then []
    else
      var front := Entries(names, texts, n - 1, start);
      front + OneConcept(names[n - 1], texts[n - 1], start + |front|)
  }

  /** The first entry with a text. */
  ghost function First(log: seq<Entry>, text: string): (r: Option<nat>)
    ensures r.Some? ==> r.value < |log| && log[r.value].text == text
    ensures r.Some? ==> forall e :: 0 <= e < r.value ==> log[e].text != text
    ensures r.None? ==> forall e :: 0 <= e < |log| ==> log[e].text != text
  {
    if log == [] then None
    else
      var n := |log| - 1;
      var r := First(log[..n], text);
      if r.Some? then r else if log[n].text == text then Some(n) else None
  }

  /** The definition of a concept. */
  ghost function Defined(log: seq<Entry>, text: string): (r: Option<nat>)
    ensures r.Some? ==> r.value < |log| && log[r.value] == Definition(text)
    ensures r.None? ==> forall e :: 0 <= e < |log| ==> log[e] != Definition(text)
  {
    if log == [] then None
    else
      var n := |log| - 1;
      var r := Defined(log[..n], text);
      if r.Some? then r else if log[n] == Definition(text) then Some(n) else None
  }

  /** A step is linked when its concept was complete before the step, or when the step is the
      first entry of all with its text and the concept comes later. */
  ghost predicate Linked(log: seq<Entry>, e: nat): (linked: bool)
    requires e < |log|
    ensures linked ==> log[e].Inner? && Defined(log, log[e].text).Some?
  {
    && log[e].Inner?
    && var d := Defined(log, log[e].text);
    && d.Some?
    && ((d.value < e && d.value != log[e].owner) || (e < d.value && First(log, log[e].text) == Some(e)))
  }

  lemma {:induction false} Appended(log: seq<Entry>, entry: Entry)
    ensures forall text :: First(log + [entry], text) ==
              (if First(log, text).Some? then First(log, text)
               else if entry.text == text then Some(|log|) else None)
    ensures forall text :: Defined(log + [entry], text) ==
              (if Defined(log, text).Some? then Defined(log, text)
               else if entry == Definition(text) then Some(|log|) else None)
  {
    assert (log + [entry])[..|log|] == log;
  }

  /** Defining a concept links the first step with its text, if there is one, and no other. */
  lemma {:induction false} DefinitionLinks(log: seq<Entry>, text: string)
    requires Defined(log, text).None?
    ensures forall e :: 0 <= e < |log| ==>
              (Linked(log + [Definition(text)], e) <==> Linked(log, e) || First(log, text) == Some(e))
  {
    hide First, Defined;
    Appended(log, Definition(text));
    forall e | 0 <= e < |log|
      ensures Linked(log + [Definition(text)], e) <==> Linked(log, e) || First(log, text) == Some(e)
    {
      assert (log + [Definition(text)])[e] == log[e];
    }
  }

  /** A further step links no other step. */
  lemma {:induction false} InnerLinks(log: seq<Entry>, text: string, owner: nat)
    requires owner < |log|
    ensures forall e :: 0 <= e < |log| ==> (Linked(log + [Inner(text, owner)], e) <==> Linked(log, e))
    ensures Linked(log + [Inner(text, owner)], |log|) <==>
            Defined(log, text).Some? && Defined(log, text) != Some(owner)
  {
    hide First, Defined;
    Appended(log, Inner(text, owner));
    forall e | 0 <= e < |log|
      ensures Linked(log + [Inner(text, owner)], e) <==> Linked(log, e)
    {
      assert (log + [Inner(text, owner)])[e] == log[e];
    }
  }

  /** Every step that names another defined concept is linked. */
  ghost predicate AllLinked(log: seq<Entry>) {
    forall e :: 0 <= e < |log| && NamesAnother(log, e) ==> Linked(log, e)
  }

  ghost predicate NamesAnother(log: seq<Entry>, e: nat)
    requires e < |log|
  {
    log[e].Inner? && Defined(log, log[e].text).Some? && Defined(log, log[e].text) != Some(log[e].owner)
  }

  /** A step that names a concept which is defined only after it. */
  ghost predicate Forward(log: seq<Entry>, e: nat)
    requires e < |log|
  {
    log[e].Inner? && Defined(log, log[e].text).Some? && e < Defined(log, log[e].text).value
  }

  /** Everything is linked exactly when no concept has two steps that name it ahead of its
      definition. */
  lemma {:induction false} AllLinkedIff(log: seq<Entry>)
    requires forall e :: 0 <= e < |log| && log[e].Inner? ==> log[e].owner < e && log[log[e].owner].Definition?
    requires forall d, e :: 0 <= d < e < |log| && log[d].Definition? && log[e].Definition? ==> log[d] != log[e]
    ensures AllLinked(log) <==>
            forall e, f :: 0 <= e < f < |log| && Forward(log, e) && Forward(log, f) ==> log[e].text != log[f].text
  {
    hide First, Defined;
    if AllLinked(log) {
      forall e, f | 0 <= e < f < |log| && Forward(log, e) && Forward(log, f)
        ensures log[e].text != log[f].text
      {
        assert NamesAnother(log, f) && Linked(log, f);
      }
    } else {
      var f :| 0 <= f < |log| && NamesAnother(log, f) && !Linked(log, f);
      var e := First(log, log[f].text).value;
      assert Forward(log, f);
      assert Forward(log, e) && e < f;
    }
  }

  /** A log as the construction of a dictionary leaves it: every definition is followed by the
      steps inside it, and no concept is defined twice. */
  ghost predicate Built(log: seq<Entry>) {
    && (forall d, e :: 0 <= d < e < |log| && log[d].Definition? && log[e].Definition? ==> log[d] != log[e])
    && forall e :: 0 <= e < |log| && log[e].Inner? ==>
         log[e].owner < e && log[log[e].owner].Definition? && forall k :: log[e].owner < k < e ==> log[k].Inner?
  }

  /** The calls of the graph are the steps of the log, with the same ones linked. */
  ghost predicate GraphOf(log: seq<Entry>, g: ConceptGraph.Graph) {
    (forall v :: v in g <==> Defined(log, v).Some?) && CallsAreSteps(log, g) && StepsAreCalls(log, g)
  }

  ghost predicate CallsAreSteps(log: seq<Entry>, g: ConceptGraph.Graph) {
    forall v, k :: v in g && Defined(log, v).Some? && 0 <= k < |g[v]| ==>
      CallIsStep(log, Defined(log, v).value, g[v][k], k)
  }

  ghost predicate CallIsStep(log: seq<Entry>, d: nat, call: ConceptGraph.Call, k: nat) {
    && d + 1 + k < |log| && log[d + 1 + k] == Inner(call.value, d)
    && (call.isConcept <==> Linked(log, d + 1 + k))
  }

  ghost predicate StepsAreCalls(log: seq<Entry>, g: ConceptGraph.Graph) {
    forall e :: 0 <= e < |log| && log[e].Inner? ==> StepIsCall(log, g, e)
  }

  ghost predicate StepIsCall(log: seq<Entry>, g: ConceptGraph.Graph, e: nat)
    requires e < |log| && log[e].Inner?
  {
    && log[e].owner < e && log[log[e].owner].Definition?
    && var v := log[log[e].owner].text;
    Defined(log, v) == Some(log[e].owner) && v in g && e - log[e].owner - 1 < |g[v]|
  }

  /** A log has one graph. */
  lemma {:induction false} OneGraph(log: seq<Entry>, g: ConceptGraph.Graph, h: ConceptGraph.Graph)
    requires GraphOf(log, g) && GraphOf(log, h)
    ensures g == h
  {
    hide First, Defined, Linked;
    forall v | v in g ensures g[v] == h[v] {
      NoMoreCalls(log, g, h, v);
      NoMoreCalls(log, h, g, v);
      forall k | 0 <= k < |g[v]| ensures g[v][k] == h[v][k] {
        var d := Defined(log, v).value;
        assert CallIsStep(log, d, g[v][k], k) && CallIsStep(log, d, h[v][k], k);
      }
    }
  }

  lemma {:induction false} NoMoreCalls(log: seq<Entry>, g: ConceptGraph.Graph, h: ConceptGraph.Graph, v: string)
    requires GraphOf(log, g) && GraphOf(log, h) && v in g
    ensures v in h && |g[v]| <= |h[v]|
  {
    hide First, Defined, Linked;
    assert Defined(log, v).Some?;
    if |g[v]| > 0 {
      var d, k := Defined(log, v).value, |g[v]| - 1;
      assert CallIsStep(log, d, g[v][k], k);
      assert StepIsCall(log, h, d + 1 + k);
    }
  }

  /* ---------- linking by what is added ---------- */

  /** Where the entries of concept `i` start. */
  function Offset(texts: seq<seq<string>>, i: nat): nat
    requires i <= |texts|
  {
    if i == 0 then 0 else Offset(texts, i - 1) + 1 + |texts[i - 1]|
  }

  lemma {:induction false} OffsetsGrow(texts: seq<seq<string>>, i: nat, j: nat)
    requires i < j <= |texts|
    ensures Offset(texts, i) + |texts[i]| < Offset(texts, j)
  {
    if i + 1 < j {
      OffsetsGrow(texts, i, j - 1);
    }
  }

  /** The entries of concept `i`. */
  lemma {:induction false} Placed(names: seq<string>, texts: seq<seq<string>>, n: nat, start: nat, i: nat)
    requires n <= |names| == |texts| && i <= n
    ensures var entries := Entries(names, texts, n, start);
            && |entries| == Offset(texts, n) && Offset(texts, i) <= |entries|
            && (i < n ==>
                  && Offset(texts, i) + |texts[i]| < |entries| && entries[Offset(texts, i)] == Definition(names[i])
                  && forall k :: 0 <= k < |texts[i]| ==>
                       entries[Offset(texts, i) + 1 + k] == Inner(texts[i][k], start + Offset(texts, i)))
  {
    hide OneConcept;
    if n > 0 {
      Placed(names, texts, n - 1, start, if i < n then i else n - 1);
    }
  }

  /** Every entry is one of some concept. */
  lemma {:induction false} PlaceOf(names: seq<string>, texts: seq<seq<string>>, n: nat, e: nat)
      returns (i: nat, k: nat)
    requires n <= |names| == |texts| && e < |Entries(names, texts, n, 0)|
    ensures i < n && k <= |texts[i]| && e == Offset(texts, i) + k
    ensures Entries(names, texts, n, 0)[e] ==
            if k == 0 then Definition(names[i]) else Inner(texts[i][k - 1], Offset(texts, i))
  {
    hide OneConcept, Offset;
    var front := |Entries(names, texts, n - 1, 0)|;
    if e < front {
      i, k := PlaceOf(names, texts, n - 1, e);
    } else {
      Placed(names, texts, n - 1, 0, n - 1);
      i, k := n - 1, e - front;
    }
  }

  /** Step `k` of concept `i` names a concept that comes after it. */
  ghost predicate Ahead(names: seq<string>, texts: seq<seq<string>>, i: int, k: int): (ahead: bool)
    ensures ahead ==> 0 <= i < |texts| && 0 <= k < |texts[i]|
  {
    0 <= i < |texts| && 0 <= k < |texts[i]| && exists m :: i < m < |names| && names[m] == texts[i][k]
  }

  /** No concept is named twice ahead of its definition. */
  ghost predicate OnceAhead(names: seq<string>, texts: seq<seq<string>>) {
    forall i, k, j, l :: Ahead(names, texts, i, k) && Ahead(names, texts, j, l) && (i != j || k != l) ==>
      texts[i][k] != texts[j][l]
  }

  lemma {:induction false} ForwardIff(names: seq<string>, texts: seq<seq<string>>, i: nat, k: nat)
    requires |names| == |texts| && AllNew({}, names, |names|) && i < |texts| && k < |texts[i]|
    ensures var log, e := Entries(names, texts, |names|, 0), Offset(texts, i) + 1 + k;
            && e < |log| && log[e] == Inner(texts[i][k], Offset(texts, i))
            && (Forward(log, e) <==> Ahead(names, texts, i, k))
  {
    hide First, Defined, Entries, Offset, AllNew;
    var log, e := Entries(names, texts, |names|, 0), Offset(texts, i) + 1 + k;
    Placed(names, texts, |names|, 0, i);
    var text := texts[i][k];
    if Forward(log, e) {
      var d := Defined(log, text).value;
      var m, l := PlaceOf(names, texts, |names|, d);
      if m < i {
        OffsetsGrow(texts, m, i);
      }
      assert Ahead(names, texts, i, k);
    }
    if m :| i < m < |names| && names[m] == text {
      DefinedByInput(names, texts, m);
      OffsetsGrow(texts, i, m);
    }
  }

  lemma {:induction false} DefinedByInput(names: seq<string>, texts: seq<seq<string>>, m: nat)
    requires |names| == |texts| && AllNew({}, names, |names|) && m < |names|
    ensures Defined(Entries(names, texts, |names|, 0), names[m]) == Some(Offset(texts, m))
  {
    hide First, Defined, Entries, Offset;
    var log := Entries(names, texts, |names|, 0);
    Placed(names, texts, |names|, 0, m);
    assert log[Offset(texts, m)] == Definition(names[m]);
    var d := Defined(log, names[m]).value;
    var n, l := PlaceOf(names, texts, |names|, d);
    DistinctNames(names, m, n);
  }

  lemma {:induction false} DistinctNames(names: seq<string>, m: nat, n: nat)
    requires AllNew({}, names, |names|) && m < |names| && n < |names|
    ensures names[m] == names[n] ==> m == n
  {
    if m != n {
      var i, j := if m < n then m else n, if m < n then n else m;
      assert names[j] !in names[..j] && names[..j][i] == names[i];
    }
  }

  /** Every step that names another concept is linked exactly when no concept is named twice ahead
      of its definition, for the concepts in the order in which they are added. */
  lemma {:induction false} ForwardOnceIff(names: seq<string>, texts: seq<seq<string>>)
    requires |names| == |texts| && AllNew({}, names, |names|)
    ensures var log := Entries(names, texts, |names|, 0);
            (forall e, f :: 0 <= e < f < |log| && Forward(log, e) && Forward(log, f) ==> log[e].text != log[f].text)
            <==> OnceAhead(names, texts)
  {
    hide First, Defined, Entries, Offset, AllNew, Forward, Ahead;
    var log := Entries(names, texts, |names|, 0);
    Placed(names, texts, |names|, 0, |names|);
    if OnceAhead(names, texts) {
      forall e, f | 0 <= e < f < |log| && Forward(log, e) && Forward(log, f) ensures log[e].text != log[f].text {
        var i, k := ForwardStep(names, texts, e);
        var j, l := ForwardStep(names, texts, f);
        assert i != j || k != l;
      }
    }
    if forall e, f :: 0 <= e < f < |log| && Forward(log, e) && Forward(log, f) ==> log[e].text != log[f].text {
      forall i, k, j, l | Ahead(names, texts, i, k) && Ahead(names, texts, j, l) && (i != j || k != l)
        ensures texts[i][k] != texts[j][l]
      {
        ForwardIff(names, texts, i, k);
        ForwardIff(names, texts, j, l);
        DifferentPlaces(texts, i, k, j, l);
        var e, f := Offset(texts, i) + 1 + k, Offset(texts, j) + 1 + l;
        assert if e < f then log[e].text != log[f].text else log[f].text != log[e].text;
      }
    }
  }

  lemma {:induction false} ForwardStep(names: seq<string>, texts: seq<seq<string>>, e: nat) returns (i: nat, k: nat)
    requires |names| == |texts| && AllNew({}, names, |names|)
    requires e < |Entries(names, texts, |names|, 0)| && Forward(Entries(names, texts, |names|, 0), e)
    ensures i < |texts| && k < |texts[i]| && e == Offset(texts, i) + 1 + k && Ahead(names, texts, i, k)
    ensures Entries(names, texts, |names|, 0)[e].text == texts[i][k]
  {
    hide First, Defined, Entries, Offset, AllNew, Ahead;
    var l;
    i, l := PlaceOf(names, texts, |names|, e);
    k := l - 1;
    ForwardIff(names, texts, i, k);
  }

  lemma {:induction false} DifferentPlaces(texts: seq<seq<string>>, i: nat, k: nat, j: nat, l: nat)
    requires i < |texts| && k < |texts[i]| && j < |texts| && l < |texts[j]| && (i != j || k != l)
    ensures Offset(texts, i) + 1 + k != Offset(texts, j) + 1 + l
  {
    if i < j {
      OffsetsGrow(texts, i, j);
    } else if j < i {
      OffsetsGrow(texts, j, i);
    }
  }

  /** Adding concepts in several calls is adding them in one. */
  lemma {:induction false} EntriesAppend(
      names: seq<string>, texts: seq<seq<string>>, more: seq<string>, others: seq<seq<string>>, n: nat)
    requires |names| == |texts| && |more| == |others| && n <= |more|
    ensures var front := Entries(names, texts, |names|, 0);
            Entries(names + more, texts + others, |names| + n, 0) == front + Entries(more, others, n, |front|)
  {
    hide OneConcept;
    var front := Entries(names, texts, |names|, 0);
    if n == 0 {
      SameEntries(names, texts, more, others, |names|);
      assert front + [] == front;
    } else {
      EntriesAppend(names, texts, more, others, n - 1);
      var m := |names| + n - 1;
      assert (names + more)[m] == more[n - 1] && (texts + others)[m] == others[n - 1];
    }
  }

  lemma {:induction false} SameEntries(
      names: seq<string>, texts: seq<seq<string>>, more: seq<string>, others: seq<seq<string>>, n: nat)
    requires |names| == |texts| && |more| == |others| && n <= |names|
    ensures Entries(names + more, texts + others, n, 0) == Entries(names, texts, n, 0)
  {
    if n > 0 {
      SameEntries(names, texts, more, others, n - 1);
      assert (names + more)[n - 1] == names[n - 1] && (texts + others)[n - 1] == texts[n - 1];
    }
  }

  /** The concepts p, a, b and c, each with the texts of its steps. */
  const MISSED_NAMES := ["p", "a", "b", "c"]
  const MISSED_TEXTS := [["b", "c"], ["b"], ["c"], ["a"]]

  const MISSED_LOG: seq<Entry> := [
    Definition("p"), Inner("b", 0), Inner("c", 0), Definition("a"), Inner("b", 3),
    Definition("b"), Inner("c", 5), Definition("c"), Inner("a", 7)]

  lemma {:induction false} DefinedAt(log: seq<Entry>, text: string, d: nat)
    requires Built(log) && d < |log| && log[d] == Definition(text)
    ensures Defined(log, text) == Some(d)
  {
    hide Defined;
  }

  lemma {:induction false} FirstAt(log: seq<Entry>, text: string, e: nat)
    requires e < |log| && log[e].text == text && forall k :: 0 <= k < e ==> log[k].text != text
    ensures First(log, text) == Some(e)
  {
    hide First;
  }

  lemma {:induction false} MissedLogIsBuilt()
    ensures Built(MISSED_LOG)
    ensures Defined(MISSED_LOG, "p") == Some(0) && Defined(MISSED_LOG, "a") == Some(3)
    ensures Defined(MISSED_LOG, "b") == Some(5) && Defined(MISSED_LOG, "c") == Some(7)
    ensures First(MISSED_LOG, "b") == Some(1) && First(MISSED_LOG, "c") == Some(2)
    ensures forall v :: Defined(MISSED_LOG, v).Some? ==> v == "p" || v == "a" || v == "b" || v == "c"
  {
    hide First, Defined;
    DefinedAt(MISSED_LOG, "p", 0);
    DefinedAt(MISSED_LOG, "a", 3);
    DefinedAt(MISSED_LOG, "b", 5);
    DefinedAt(MISSED_LOG, "c", 7);
    FirstAt(MISSED_LOG, "b", 1);
    FirstAt(MISSED_LOG, "c", 2);
  }

  lemma {:induction false} LinkedInMissedLog()
    ensures Linked(MISSED_LOG, 1) && Linked(MISSED_LOG, 2) && !Linked(MISSED_LOG, 4)
    ensures !Linked(MISSED_LOG, 6) && Linked(MISSED_LOG, 8)
  {
    hide First, Defined, Built;
    MissedLogIsBuilt();
  }

  /** Adding the concepts p, a, b and c in this order gives a dictionary whose cycle the check
      does not see: `p` has the first steps that name `b` and `c`, so the steps of `a` and `b`
      that name them are not linked. */
  lemma {:induction false} MissedCycleIsBuilt(g: ConceptGraph.Graph)
    requires GraphOf(Entries(MISSED_NAMES, MISSED_TEXTS, 4, 0), g)
    ensures g == ConceptGraph.MISSED && ConceptGraph.MissedCycle(g)
  {
    hide GraphOf, ConceptGraph.MissedCycle, Entries;
    MissedEntries();
    MissedGraph();
    OneGraph(MISSED_LOG, g, ConceptGraph.MISSED);
  }

  lemma {:induction false} MissedEntries()
    ensures Entries(MISSED_NAMES, MISSED_TEXTS, 4, 0) == MISSED_LOG
  {
    hide Entries;
    NoEntries(MISSED_NAMES, MISSED_TEXTS, 0);
    NextEntries(MISSED_NAMES, MISSED_TEXTS, 0, 0);
    NextEntries(MISSED_NAMES, MISSED_TEXTS, 1, 0);
    NextEntries(MISSED_NAMES, MISSED_TEXTS, 2, 0);
    NextEntries(MISSED_NAMES, MISSED_TEXTS, 3, 0);
  }

  lemma {:induction false} MissedGraph()
    ensures Built(MISSED_LOG) && GraphOf(MISSED_LOG, ConceptGraph.MISSED)
    ensures ConceptGraph.MissedCycle(ConceptGraph.MISSED)
  {
    hide First, Defined, Built, StepsAreCalls, CallIsStep, ConceptGraph.MissedCycle, ConceptGraph.WellFormed;
    ConceptGraph.UnlinkedCycleIsMissed();
    MissedLogIsBuilt();
    MissedCalls();
    MissedSteps();
    assert ConceptGraph.MISSED.Keys == {"p", "a", "b", "c"};
  }

  lemma {:induction false} MissedCalls()
    ensures CallIsStep(MISSED_LOG, 0, ConceptGraph.MISSED["p"][0], 0)
    ensures CallIsStep(MISSED_LOG, 0, ConceptGraph.MISSED["p"][1], 1)
    ensures CallIsStep(MISSED_LOG, 3, ConceptGraph.MISSED["a"][0], 0)
    ensures CallIsStep(MISSED_LOG, 5, ConceptGraph.MISSED["b"][0], 0)
    ensures CallIsStep(MISSED_LOG, 7, ConceptGraph.MISSED["c"][0], 0)
  {
    hide First, Defined, Linked;
    LinkedInMissedLog();
  }

  lemma {:induction false} MissedSteps()
    ensures StepsAreCalls(MISSED_LOG, ConceptGraph.MISSED)
  {
    hide First, Defined, Built, StepIsCall;
    MissedStep(1);
    MissedStep(2);
    MissedStep(4);
    MissedStep(6);
    MissedStep(8);
  }

  lemma {:induction false} MissedStep(e: nat)
    requires e == 1 || e == 2 || e == 4 || e == 6 || e == 8
    ensures StepIsCall(MISSED_LOG, ConceptGraph.MISSED, e)
  {
    hide First, Defined, Built;
    MissedLogIsBuilt();
  }

  ghost predicate TracksFirst(log: seq<Entry>, seen: seq<Step>, constructionMap: map<string, Step>)
    requires |seen| == |log|
  {
    && (forall v :: v in constructionMap <==> First(log, v).Some?)
    && (forall v :: v in constructionMap ==> constructionMap[v] == seen[First(log, v).value])
  }

  ghost predicate FindsComplete(log: seq<Entry>, seen: seq<Step>, conceptsMap: map<string, Step>, open: Option<nat>)
    requires |seen| == |log|
  {
    && (forall v :: v in conceptsMap <==> Defined(log, v).Some? && Defined(log, v) != open)
    && (forall v :: v in conceptsMap ==> conceptsMap[v] == seen[Defined(log, v).value])
  }

  lemma {:induction false} TracksNext(
      log: seq<Entry>, seen: seq<Step>, constructionMap: map<string, Step>, entry: Entry, step: Step)
    requires |seen| == |log| && TracksFirst(log, seen, constructionMap)
    ensures TracksFirst(log + [entry], seen + [step],
              if entry.text in constructionMap then constructionMap else constructionMap[entry.text := step])
  {
    hide First, Defined;
    Appended(log, entry);
  }

  lemma {:induction false} TracksMeans(log: seq<Entry>, seen: seq<Step>, constructionMap: map<string, Step>, v: string)
    requires |seen| == |log| && TracksFirst(log, seen, constructionMap)
    ensures v in constructionMap <==> First(log, v).Some?
    ensures v in constructionMap ==> constructionMap[v] == seen[First(log, v).value]
  {
  }

  lemma {:induction false} FindsMeans(
      log: seq<Entry>, seen: seq<Step>, conceptsMap: map<string, Step>, open: Option<nat>, v: string)
    requires |seen| == |log| && FindsComplete(log, seen, conceptsMap, open)
    ensures v in conceptsMap <==> Defined(log, v).Some? && Defined(log, v) != open
    ensures v in conceptsMap ==> conceptsMap[v] == seen[Defined(log, v).value]
  {
  }

  lemma {:induction false} Complete(
      log: seq<Entry>, seen: seq<Step>, conceptsMap: map<string, Step>, d: nat, concept: Step)
    requires |seen| == |log| && d < |log| && FindsComplete(log, seen, conceptsMap, Some(d))
    requires Defined(log, concept.value) == Some(d) && seen[d] == concept
    ensures FindsComplete(log, seen, conceptsMap[concept.value := concept], None)
  {
    hide Defined;
  }

  lemma {:induction false} FindsNext(
      log: seq<Entry>, seen: seq<Step>, conceptsMap: map<string, Step>, entry: Entry, step: Step,
      before: Option<nat>, open: Option<nat>)
    requires |seen| == |log| && FindsComplete(log, seen, conceptsMap, before)
    requires entry.Definition? ==> Defined(log, entry.text).None? && before.None? && open == Some(|log|)
    requires entry.Inner? ==> open == before
    ensures FindsComplete(log + [entry], seen + [step], conceptsMap, open)
  {
    hide First, Defined;
    Appended(log, entry);
  }

  class Dictionary {
    var conceptsMap: map<string, Step>
    var constructionMap: map<string, Step>
    ghost var log: seq<Entry>
    /** The step object of every entry. */
    ghost var seen: seq<Step>
    /** The lookups that came in with the steps. */
    ghost var homes: set<Lookup>

    constructor ()
      ensures Valid(None) && log == [] && homes == {}
    {
      conceptsMap, constructionMap, log, seen, homes := map[], map[], [], [], {};
    }

    ghost predicate Shaped()
      reads `log, `seen, seen`value
    {
      && |seen| == |log|
      && (forall d, e :: 0 <= d < e < |seen| ==> seen[d] != seen[e])
      && (forall e :: 0 <= e < |seen| ==> seen[e].value == log[e].text)
      && (forall e :: 0 <= e < |log| && log[e].Inner? ==> log[e].owner < e && log[log[e].owner].Definition?)
      && (forall e :: 0 <= e < |log| && log[e].Definition? ==> Defined(log, log[e].text) == Some(e))
    }

    /** The two maps: the first entry with a text, and the concepts that are complete. */
    ghost predicate Maps(open: Option<nat>)
      requires |seen| == |log|
      reads `log, `seen, `constructionMap, `conceptsMap
    {
      TracksFirst(log, seen, constructionMap) && FindsComplete(log, seen, conceptsMap, open)
    }

    /** Exactly the linked steps are concepts, with the steps and the lookup of the definition. */
    ghost predicate Linking()
      requires |seen| == |log|
      reads `log, `seen, seen`isConcept, seen`conceptSteps, seen`lookup
    {
      forall e :: 0 <= e < |log| ==> EntryLinked(e)
    }

    ghost predicate EntryLinked(e: nat)
      requires |seen| == |log| && e < |log|
      reads `log, `seen, seen`isConcept, seen`conceptSteps, seen`lookup
    {
      if log[e].Definition? then seen[e].isConcept
      else
        && (seen[e].isConcept <==> Linked(log, e))
        && (Linked(log, e) ==> Takes(seen[e], seen[Defined(log, log[e].text).value]))
    }

    /** Plain steps have no steps inside, and no lookup is made up. */
    ghost predicate Kinds()
      reads `seen, `homes, seen`isConcept, seen`conceptSteps, seen`lookup
    {
      forall s :: s in seen ==> Kind(s)
    }

    ghost predicate Kind(s: Step)
      reads `homes, s`isConcept, s`conceptSteps, s`lookup
    {
      s.lookup in homes && (!s.isConcept ==> s.conceptSteps == [])
    }

    /** The entries after a definition are the steps inside it. */
    ghost predicate Contents(open: Option<nat>)
      requires |seen| == |log|
      reads `log, `seen, seen`conceptSteps
    {
      && (forall d :: 0 <= d < |log| && log[d].Definition? && Some(d) != open ==> |seen[d].conceptSteps| < |log| - d)
      && forall d, e :: 0 <= d < e < |log| && log[d].Definition? ==>
           && (log[e].Inner? && log[e].owner == d <==> e - d <= |seen[d].conceptSteps|)
           && (e - d <= |seen[d].conceptSteps| ==> seen[e] == seen[d].conceptSteps[e - d - 1])
    }

    ghost predicate Open(d: nat)
      reads `log
    {
      d < |log| && log[d].Definition? && forall e :: d < e < |log| ==> log[e].Inner?
    }

    /** `open` is the concept whose steps are still coming in. */
    ghost predicate Valid(open: Option<nat>)
      reads this, seen`value, seen`isConcept, seen`conceptSteps, seen`lookup
    {
      && Shaped() && Maps(open) && Linking() && Kinds() && Contents(open)
      && (open.Some? ==> Open(open.value))
    }

    /** `updateStep`: remembers the first step with a text, or turns the one remembered into
        what the given step is. */
    method UpdateStep(step: Step)
      modifies `constructionMap
      modifies (if step.value in constructionMap then {constructionMap[step.value]} else {})`isConcept
      modifies (if step.value in constructionMap then {constructionMap[step.value]} else {})`conceptSteps
      modifies (if step.value in constructionMap then {constructionMap[step.value]} else {})`lookup
      ensures if step.value in old(constructionMap)
              then constructionMap == old(constructionMap)
              else constructionMap == old(constructionMap)[step.value := step]
      ensures step.value in old(constructionMap) ==>
                var t := constructionMap[step.value];
                if old(t.isConcept)
                then t.isConcept && t.conceptSteps == old(t.conceptSteps) && t.lookup == old(t.lookup)
                else t.isConcept == old(step.isConcept) && t.conceptSteps == old(step.conceptSteps)
                     && t.lookup == old(step.lookup)
    {
      if step.value !in constructionMap {
        constructionMap := constructionMap[step.value := step];
      } else {
        var t := constructionMap[step.value];
        if !t.isConcept {
          t.isConcept := step.isConcept;
          t.conceptSteps := step.conceptSteps;
          t.lookup := step.lookup;
        }
      }
    }

    /** The definitions that were there have kept their fields. */
    twostate predicate DefinitionsUnchanged()
      reads this, seen
    {
      forall e :: 0 <= e < |old(log)| && e < |old(seen)| && e < |seen| && seen[e] == old(seen)[e] &&
                  old(log)[e].Definition? ==>
        SameFields(seen[e])
    }

    /** A step that is a concept keeps its fields. */
    twostate predicate ConceptsUnchanged()
      reads `seen, seen
    {
      forall s :: s in old(seen) && s in seen && old(s.isConcept) ==> SameFields(s)
    }

    /** Of the steps that were there only the one of entry `i`, a plain one, has changed: it became
        what the newest step is. */
    twostate predicate TookAt(i: Option<nat>)
      reads `seen, seen
    {
      && |seen| == |old(seen)| + 1 && seen[..|old(seen)|] == old(seen)
      && (i.Some? ==> i.value < |old(seen)| && old(!seen[i.value].isConcept) && Takes(seen[i.value], seen[|old(seen)|]))
      && forall e :: 0 <= e < |old(seen)| && Some(e) != i ==> SameFields(seen[e])
    }

    /** The linking after that, when the newest step is a definition. */
    twostate lemma {:induction false} DefinitionLinked(i: Option<nat>)
      requires old(Shaped()) && old(Linking()) && TookAt(i) && seen[|old(seen)|].isConcept
      requires log == old(log) + [Definition(seen[|old(seen)|].value)]
      requires Defined(old(log), seen[|old(seen)|].value).None? && i == First(old(log), seen[|old(seen)|].value)
      ensures Linking()
    {
      hide First, Defined, Linked;
      var concept := seen[|old(log)|];
      Appended(old(log), Definition(concept.value));
      DefinitionLinks(old(log), concept.value);
      forall e | 0 <= e < |log| ensures EntryLinked(e) {
        if e < |old(log)| {
          assert log[e] == old(log)[e] && seen[e] == old(seen)[e] && old(EntryLinked(e));
          if Linked(old(log), e) {
            var d := Defined(old(log), log[e].text).value;
            assert log[d] == old(log)[d] && seen[d] == old(seen)[d] && old(EntryLinked(d));
          }
        }
      }
    }

    /** The same for the kinds of the steps. */
    twostate lemma {:induction false} DefinitionKinds(i: Option<nat>)
      requires old(Kinds()) && homes == old(homes) && TookAt(i)
      requires Kind(seen[|old(seen)|]) && seen[|old(seen)|].isConcept
      ensures Kinds() && ConceptsUnchanged()
    {
      forall s | s in seen ensures Kind(s) {
        var e :| 0 <= e < |seen| && seen[e] == s;
        if e < |old(seen)| {
          assert seen[e] == old(seen)[e] && old(Kind(seen[e]));
        }
      }
      forall s | s in old(seen) && s in seen && old(s.isConcept) ensures SameFields(s) {
        var e :| 0 <= e < |old(seen)| && old(seen)[e] == s;
        assert seen[e] == old(seen)[e];
      }
    }

    lemma {:induction false} KindsOf()
      ensures Kinds() <==> forall s :: s in seen ==> Kind(s)
    {
    }

    /** More lookups may come in. */
    ghost method Announce(more: set<Lookup>)
      requires Valid(None)
      modifies `homes
      ensures Valid(None) && homes == old(homes) + more
    {
      hide First, Defined, Linked, Shaped, Maps, Linking, Contents;
      homes := homes + more;
    }

    lemma {:induction false} FirstIsPlain(text: string)
      requires Shaped() && Linking() && Defined(log, text).None? && First(log, text).Some?
      ensures log[First(log, text).value].Inner? && !seen[First(log, text).value].isConcept
    {
      hide First, Defined, Linked;
      assert EntryLinked(First(log, text).value);
    }

    /** The shape after one more entry. */
    twostate lemma {:induction false} Grown(entry: Entry)
      requires old(Shaped()) && log == old(log) + [entry]
      requires |seen| == |old(log)| + 1 && seen[..|old(log)|] == old(seen)
      requires var step := seen[|old(log)|]; step !in old(seen) && step.value == entry.text
      requires entry.Definition? ==> Defined(old(log), entry.text).None?
      requires entry.Inner? ==> entry.owner < |old(log)| && old(log)[entry.owner].Definition?
      requires forall e :: 0 <= e < |old(seen)| ==> old(seen)[e].value == old(seen[e].value)
      ensures Shaped()
    {
      hide First, Defined;
      Appended(old(log), entry);
      assert forall e :: 0 <= e < |old(log)| ==> log[e] == old(log)[e] && seen[e] == old(seen)[e];
    }

    twostate lemma {:induction false} FirstTook(i: Option<nat>)
      requires |seen| == |old(seen)| + 1 && seen[..|old(seen)|] == old(seen)
      requires i.Some? ==>
               i.value < |old(seen)| && old(!seen[i.value].isConcept) && Takes(seen[i.value], seen[|old(seen)|])
      requires forall s :: s in old(seen) && (i.None? || s != old(seen)[i.value]) ==> SameFields(s)
      requires forall d, e :: 0 <= d < e < |old(seen)| ==> old(seen)[d] != old(seen)[e]
      ensures TookAt(i)
    {
      assert forall e :: 0 <= e < |old(seen)| ==> seen[e] == old(seen)[e];
    }

    /** The definition of a concept comes in; a search will find it only later. */
    method Define(concept: Step)
      requires Valid(None) && concept !in seen && concept.isConcept && Defined(log, concept.value).None?
               && Kind(concept)
      modifies `constructionMap, `log, `seen
      modifies (set s | s in seen)`isConcept, (set s | s in seen)`conceptSteps, (set s | s in seen)`lookup
      ensures Valid(Some(|old(log)|))
      ensures log == old(log) + [Definition(concept.value)] && seen == old(seen) + [concept]
      ensures DefinitionsUnchanged() && ConceptsUnchanged()
    {
      hide First, Defined, Linked, Linking, TracksFirst, FindsComplete, Contents, Kinds, TookAt;
      TracksMeans(log, seen, constructionMap, concept.value);
      TracksNext(log, seen, constructionMap, Definition(concept.value), concept);
      FindsNext(log, seen, conceptsMap, Definition(concept.value), concept, None, Some(|log|));
      ghost var i := First(log, concept.value);
      if i.Some? {
        FirstIsPlain(concept.value);
      }
      UpdateStep(concept);
      log := log + [Definition(concept.value)];
      seen := seen + [concept];
      Grown(Definition(concept.value));
      FirstTook(i);
      DefinitionLinked(i);
      DefinitionKinds(i);
      DefinitionContents();
    }

    /** The linking after one more step came in: concepts keep their fields, plain steps stay plain. */
    twostate lemma {:induction false} InnerLinked(owner: nat)
      requires old(Shaped()) && old(Linking()) && owner < |old(log)|
      requires |seen| == |old(log)| + 1 && seen[..|old(log)|] == old(seen)
      requires log == old(log) + [Inner(seen[|old(log)|].value, owner)]
      requires forall e :: 0 <= e < |old(seen)| ==>
                 if old(seen[e].isConcept) then SameFields(seen[e]) else !seen[e].isConcept
      requires var step := seen[|old(log)|];
               var d := Defined(old(log), step.value);
               (step.isConcept <==> d.Some? && d != Some(owner)) && (step.isConcept ==> Takes(step, seen[d.value]))
      ensures Linking()
    {
      hide First, Defined, Linked;
      var text := seen[|old(log)|].value;
      Appended(old(log), Inner(text, owner));
      InnerLinks(old(log), text, owner);
      forall e | 0 <= e < |log| ensures EntryLinked(e) {
        if e < |old(log)| {
          assert log[e] == old(log)[e] && seen[e] == old(seen)[e] && old(EntryLinked(e));
          if Linked(old(log), e) {
            var d := Defined(old(log), log[e].text).value;
            assert log[d] == old(log)[d] && seen[d] == old(seen)[d] && old(EntryLinked(d));
          }
        }
      }
    }

    lemma {:induction false} DefinitionsAreConcepts()
      requires |seen| == |log| && Linking()
      ensures forall e :: 0 <= e < |log| && log[e].Definition? ==> seen[e].isConcept
    {
      forall e | 0 <= e < |log| && log[e].Definition? ensures seen[e].isConcept {
        assert EntryLinked(e);
      }
    }

    /** The loop body of `replaceNestedConceptSteps`: a step inside the concept at `owner` becomes a
        concept when a search finds one. */
    method ReplaceNestedConceptStep(step: Step, ghost owner: nat)
      requires Valid(Some(owner)) && step !in seen && !step.isConcept && Kind(step)
      modifies `constructionMap, `log, `seen
      modifies step`isConcept, step`conceptSteps, step`lookup
      modifies (set s | s in seen)`isConcept, (set s | s in seen)`conceptSteps, (set s | s in seen)`lookup
      ensures log == old(log) + [Inner(step.value, owner)] && seen == old(seen) + [step]
      ensures constructionMap ==
              if step.value in old(constructionMap) then old(constructionMap)
                else old(constructionMap)[step.value := step]
      ensures forall s :: s in old(seen) ==> if old(s.isConcept) then SameFields(s) else !s.isConcept
      ensures Kind(step) && forall s :: s in seen ==> Kind(s)
      ensures step.isConcept <==> step.value in conceptsMap
      ensures step.value in conceptsMap ==> Takes(step, conceptsMap[step.value])
    {
      hide First, Defined, Linked, TracksFirst, FindsComplete, Contents, Linking, Shaped;
      SizeOfSeen(Some(owner));
      DefinitionsAreConcepts();
      TracksMeans(log, seen, constructionMap, step.value);
      FindsMeans(log, seen, conceptsMap, Some(owner), step.value);
      if step.value in conceptsMap {
        var nestedConcept := conceptsMap[step.value];
        assert nestedConcept in seen && Kind(nestedConcept);
        step.conceptSteps := nestedConcept.conceptSteps;
        step.isConcept := nestedConcept.isConcept;
        step.lookup := nestedConcept.lookup;
      } else {
        UpdateStep(step);
      }
      log := log + [Inner(step.value, owner)];
      seen := seen + [step];
    }

    lemma {:induction false} OpenMeans(d: nat)
      ensures Open(d) <==> d < |log| && log[d].Definition? && forall e :: d < e < |log| ==> log[e].Inner?
    {
    }

    /** The two maps with one more step inside the concept at `owner`. */
    lemma {:induction false} MapsNext(step: Step, owner: nat)
      requires Valid(Some(owner))
      ensures |seen| == |log| && owner < |log|
      ensures TracksFirst(log + [Inner(step.value, owner)], seen + [step],
                if step.value in constructionMap then constructionMap else constructionMap[step.value := step])
      ensures FindsComplete(log + [Inner(step.value, owner)], seen + [step], conceptsMap, Some(owner))
      ensures step.value in conceptsMap <==> Defined(log, step.value).Some? && Defined(log, step.value) != Some(owner)
      ensures step.value in conceptsMap ==> conceptsMap[step.value] == seen[Defined(log, step.value).value]
    {
      hide First, Defined, Linked, TracksFirst, FindsComplete, Contents, Linking, Shaped, Kinds;
      SizeOfSeen(Some(owner));
      TracksNext(log, seen, constructionMap, Inner(step.value, owner), step);
      FindsNext(log, seen, conceptsMap, Inner(step.value, owner), step, Some(owner), Some(owner));
      FindsMeans(log, seen, conceptsMap, Some(owner), step.value);
    }

    lemma {:induction false} MapsOf(open: Option<nat>)
      requires |seen| == |log| && TracksFirst(log, seen, constructionMap) && FindsComplete(log, seen, conceptsMap, open)
      ensures Maps(open)
    {
    }

    /** When concepts keep their fields, so do definitions. */
    twostate lemma {:induction false} DefinitionsKept()
      requires |old(seen)| == |old(log)| && old(Linking())
      requires forall s :: s in old(seen) && old(s.isConcept) ==> SameFields(s)
      ensures DefinitionsUnchanged() && ConceptsUnchanged()
    {
      forall e | 0 <= e < |old(log)| && e < |seen| && seen[e] == old(seen)[e] && old(log)[e].Definition?
        ensures SameFields(seen[e])
      {
        assert old(EntryLinked(e));
      }
    }

    /** A step inside the concept at `owner` comes in. */
    method AddInner(step: Step, ghost owner: nat)
      requires Valid(Some(owner)) && step !in seen && !step.isConcept && Kind(step)
      requires |log| - owner <= |seen[owner].conceptSteps| && step == seen[owner].conceptSteps[|log| - owner - 1]
      modifies `constructionMap, `log, `seen
      modifies step`isConcept, step`conceptSteps, step`lookup
      modifies (set s | s in seen)`isConcept, (set s | s in seen)`conceptSteps, (set s | s in seen)`lookup
      ensures Valid(Some(owner))
      ensures log == old(log) + [Inner(step.value, owner)] && seen == old(seen) + [step]
      ensures DefinitionsUnchanged() && ConceptsUnchanged()
    {
      hide First, Defined, Linked, TracksFirst, FindsComplete, Contents, Linking, Shaped, Kinds, Kind, Open, Maps,
        DefinitionsUnchanged, ConceptsUnchanged;
      SizeOfSeen(Some(owner));
      OpenMeans(owner);
      DefinitionsAreConcepts();
      MapsNext(step, owner);
      assert seen[owner] in seen && seen[owner].isConcept;
      ReplaceNestedConceptStep(step, owner);
      Grown(Inner(step.value, owner));
      InnerLinked(owner);
      DefinitionsKept();
      InnerContents(owner);
      KindsOf();
      OpenMeans(owner);
      MapsOf(Some(owner));
    }

    twostate lemma {:induction false} DefinitionContents()
      requires |old(seen)| == |old(log)| && old(Contents(None))
      requires |seen| == |log| == |old(log)| + 1 && log[..|old(log)|] == old(log) && seen[..|old(log)|] == old(seen)
      requires log[|old(log)|].Definition?
      requires DefinitionsUnchanged()
      ensures Contents(Some(|old(log)|))
    {
      assert forall d :: 0 <= d < |old(log)| ==> log[d] == old(log)[d] && seen[d] == old(seen)[d];
    }

    twostate lemma {:induction false} InnerContents(owner: nat)
      requires |old(seen)| == |old(log)| && old(Contents(Some(owner))) && owner < |old(log)|
      requires |seen| == |log| == |old(log)| + 1 && log[..|old(log)|] == old(log) && seen[..|old(log)|] == old(seen)
      requires forall e :: owner < e < |old(log)| ==> old(log)[e].Inner?
      requires log[|old(log)|].Inner? && log[|old(log)|].owner == owner
      requires |old(log)| - owner - 1 < |seen[owner].conceptSteps|
      requires seen[|old(log)|] == seen[owner].conceptSteps[|old(log)| - owner - 1]
      requires DefinitionsUnchanged()
      ensures Contents(Some(owner))
    {
      assert forall d :: 0 <= d < |old(log)| ==> log[d] == old(log)[d] && seen[d] == old(seen)[d];
    }

    /** The steps inside a concept that is defined at `d`. */
    method AddSteps(concept: Step, ghost before: seq<Entry>, ghost texts: seq<string>)
      requires Valid(Some(|before|)) && log == Begun(before, concept.value, texts, 0) && concept.isConcept
      requires |seen| == |log| && seen[|before|] == concept && texts == ValuesOf(concept.conceptSteps)
      requires var steps := concept.conceptSteps;
               && (forall k :: 0 <= k < |steps| ==> steps[k] !in seen && !steps[k].isConcept && Kind(steps[k]))
               && forall j, k :: 0 <= j < k < |steps| ==> steps[j] != steps[k]
      modifies `constructionMap, `log, `seen
      modifies (set s | s in concept.conceptSteps)`isConcept, (set s | s in concept.conceptSteps)`conceptSteps,
        (set s | s in concept.conceptSteps)`lookup
      modifies (set s | s in seen)`isConcept, (set s | s in seen)`conceptSteps, (set s | s in seen)`lookup
      ensures Valid(Some(|before|)) && |texts| == |concept.conceptSteps|
      ensures log == Begun(before, concept.value, texts, |texts|)
      ensures seen == old(seen) + concept.conceptSteps && ConceptsUnchanged()
    {
      hide First, Defined, Linked, Linking, Maps, Contents, Shaped, ValuesOf, Begun, Kinds, Open;
      var steps := concept.conceptSteps;
      for i := 0 to |steps|
        invariant Valid(Some(|before|)) && log == Begun(before, concept.value, texts, i)
        invariant seen == old(seen) + steps[..i] && concept.conceptSteps == steps
        invariant forall k :: i <= k < |steps| ==> !steps[k].isConcept && Kind(steps[k])
        invariant ConceptsUnchanged()
      {
        BegunNext(before, concept.value, texts, i);
        AddInner(steps[i], |before|);
      }
    }

    /** `replaceNestedConceptSteps`: the concept and then every step inside it. */
    method ReplaceNestedConceptSteps(concept: Step, ghost texts: seq<string>)
      requires Valid(None) && Incoming(concept, seen) && Defined(log, concept.value).None?
      requires texts == ValuesOf(concept.conceptSteps)
      requires forall s :: s in Parts(concept) ==> s.lookup in homes
      modifies `constructionMap, `log, `seen
      modifies (set s | s in Parts(concept))`isConcept, (set s | s in Parts(concept))`conceptSteps,
        (set s | s in Parts(concept))`lookup
      modifies (set s | s in seen)`isConcept, (set s | s in seen)`conceptSteps, (set s | s in seen)`lookup
      ensures Valid(Some(|old(log)|))
      ensures log == old(log) + OneConcept(concept.value, texts, |old(log)|) && |texts| == |concept.conceptSteps|
      ensures seen == old(seen) + Parts(concept) && Parts(concept) == old(Parts(concept))
      ensures ConceptsUnchanged() && SameFields(concept)
    {
      hide First, Defined, Linked, Linking, Maps, Contents, Shaped, OneConcept, ValuesOf, Begun, Kinds;
      SizeOfSeen(None);
      IncomingMeans(concept, seen);
      Define(concept);
      BegunNow(old(log), concept.value, texts);
      SizeOfSeen(Some(|old(log)|));
      AddSteps(concept, old(log), texts);
    }

    /** One concept: duplicates are refused, otherwise a search finds it from now on. */
    method AddConcept(concept: Step, ghost texts: seq<string>) returns (duplicate: bool)
      requires Valid(None) && Incoming(concept, seen) && texts == ValuesOf(concept.conceptSteps)
      requires forall s :: s in Parts(concept) ==> s.lookup in homes
      modifies `constructionMap, `conceptsMap, `log, `seen
      modifies (set s | s in Parts(concept))`isConcept, (set s | s in Parts(concept))`conceptSteps,
        (set s | s in Parts(concept))`lookup
      modifies (set s | s in seen)`isConcept, (set s | s in seen)`conceptSteps, (set s | s in seen)`lookup
      ensures Valid(None) && duplicate == (concept.value in old(conceptsMap))
      ensures conceptsMap == if duplicate then old(conceptsMap) else old(conceptsMap)[concept.value := concept]
      ensures seen == (if duplicate then old(seen) else old(seen) + Parts(concept))
              && Parts(concept) == old(Parts(concept))
      ensures log == if duplicate then old(log) else old(log) + OneConcept(concept.value, texts, |old(log)|)
      ensures ConceptsUnchanged() && SameFields(concept)
    {
      hide First, Defined, Linked, Linking, TracksFirst, FindsComplete, Contents, Shaped, Incoming, OneConcept,
        ValuesOf, Begun;
      SizeOfSeen(None);
      FindsMeans(log, seen, conceptsMap, None, concept.value);
      if concept.value in conceptsMap {
        return true;
      }
      ghost var d := |log|;
      ReplaceNestedConceptSteps(concept, texts);
      BegunNow(old(log), concept.value, texts);
      DefinedNext(old(log), concept.value, texts, |texts|);
      SizeOfSeen(Some(d));
      Complete(log, seen, conceptsMap, d, concept);
      Closed(d);
      conceptsMap := conceptsMap[concept.value := concept];
      duplicate := false;
    }

    /** Once all its steps have come in a concept is complete. */
    lemma {:induction false} Closed(d: nat)
      requires Valid(Some(d)) && |log| == d + 1 + |seen[d].conceptSteps|
      ensures Contents(None)
    {
    }

    /** The concepts from `i` on are still to come in. */
    ghost predicate Waiting(concepts: seq<Step>, i: nat)
      reads `seen, `homes, concepts, AllParts(concepts)
    {
      forall j :: i <= j < |concepts| ==> Expected(concepts[j])
    }

    ghost predicate Expected(concept: Step)
      reads `seen, `homes, concept, set s | s in Parts(concept)
    {
      Incoming(concept, seen) && forall s :: s in Parts(concept) ==> s.lookup in homes
    }

    lemma {:induction false} AllNewConcepts(concepts: seq<Step>)
      requires Waiting(concepts, 0)
      ensures forall j :: 0 <= j < |concepts| ==> concepts[j].isConcept && concepts[j] !in seen
    {
      forall j | 0 <= j < |concepts| ensures concepts[j].isConcept && concepts[j] !in seen {
        assert Expected(concepts[j]) && Parts(concepts[j])[0] == concepts[j];
      }
    }

    /** A concept that has not come in yet is not touched when another one does. */
    twostate lemma {:induction false} StillExpected(concept: Step)
      requires old(Expected(concept)) && homes == old(homes)
      requires forall s :: s in old(Parts(concept)) ==> SameFields(s) && s !in seen
      ensures Expected(concept)
    {
      StillParsed(concept);
    }

    /** One concept of a list. */
    method AddNext(concepts: seq<Step>, i: nat, ghost texts: seq<string>) returns (duplicate: bool)
      requires i < |concepts| && texts == ValuesOf(concepts[i].conceptSteps)
      requires Valid(None) && Waiting(concepts, i) && Apart(concepts)
      requires forall j :: 0 <= j < |concepts| ==> concepts[j].isConcept && (concepts[j] in seen <==> j < i)
      modifies `constructionMap, `conceptsMap, `log, `seen
      modifies AllParts(concepts)`isConcept
      modifies AllParts(concepts)`conceptSteps
      modifies AllParts(concepts)`lookup
      modifies (set s | s in seen)`isConcept, (set s | s in seen)`conceptSteps, (set s | s in seen)`lookup
      ensures Valid(None) && duplicate == (concepts[i].value in old(conceptsMap))
      ensures conceptsMap == if duplicate then old(conceptsMap) else old(conceptsMap)[concepts[i].value := concepts[i]]
      ensures seen == if duplicate then old(seen) else old(seen) + Parts(concepts[i])
      ensures log == if duplicate then old(log) else old(log) + OneConcept(concepts[i].value, texts, |old(log)|)
      ensures ConceptsUnchanged() && forall j :: 0 <= j < |concepts| ==> SameFields(concepts[j])
      ensures AllParts(concepts) == old(AllParts(concepts))
      ensures forall s :: s in seen ==> s in old(seen) || s in old(AllParts(concepts))
      ensures !duplicate ==> Waiting(concepts, i + 1)
      ensures !duplicate ==> forall j :: 0 <= j < |concepts| ==> (concepts[j] in seen <==> j <= i)
    {
      hide Valid, Parsed, Incoming, AllParts, Waiting, Apart, OneConcept, ValuesOf, Expected;
      NextExpected(concepts, i);
      duplicate := AddConcept(concepts[i], texts);
      forall j | 0 <= j < |concepts| ensures SameFields(concepts[j]) {
        if j < i {
          assert concepts[j] in old(seen) && concepts[j] in seen;
        } else if i < j {
          assert concepts[j] in old(Parts(concepts[j])) && concepts[j] !in old(Parts(concepts[i]));
        }
      }
      assert AllParts(concepts) == old(AllParts(concepts)) by { SameParts(concepts); }
      if !duplicate {
        forall j | i < j < |concepts| ensures Expected(concepts[j]) && concepts[j] !in seen {
          assert concepts[j] in old(Parts(concepts[j]));
          forall s | s in old(Parts(concepts[j])) ensures SameFields(s) && s !in seen {
            assert s !in old(Parts(concepts[i])) && s !in old(seen);
          }
          StillExpected(concepts[j]);
        }
        AllExpected(concepts, i + 1);
      }
    }

    lemma {:induction false} AllExpected(concepts: seq<Step>, i: nat)
      requires forall j :: i <= j < |concepts| ==> Expected(concepts[j])
      ensures Waiting(concepts, i)
    {
    }

    lemma {:induction false} NextExpected(concepts: seq<Step>, i: nat)
      requires i < |concepts| && Waiting(concepts, i) && Apart(concepts)
      ensures forall j :: i <= j < |concepts| ==> Expected(concepts[j])
      ensures Incoming(concepts[i], seen) && forall j :: i <= j < |concepts| ==> concepts[j] in Parts(concepts[j])
      ensures forall s :: s in Parts(concepts[i]) ==> s in AllParts(concepts) && s.lookup in homes
      ensures forall j, s :: i < j < |concepts| && s in Parts(concepts[j]) ==> s !in seen && s !in Parts(concepts[i])
    {
      hide Parsed;
    }

    /** `add`: concepts in order until one is a duplicate. What has come in is what the first
        `count` of them say, concept by concept and step by step. */
    method Add(concepts: seq<Step>, ghost names: seq<string>, ghost texts: seq<seq<string>>)
        returns (duplicate: bool, ghost count: nat)
      requires Described(concepts, names, texts)
      requires Valid(None) && Waiting(concepts, 0) && Apart(concepts)
      modifies `constructionMap, `conceptsMap, `log, `seen
      modifies AllParts(concepts)`isConcept
      modifies AllParts(concepts)`conceptSteps
      modifies AllParts(concepts)`lookup
      modifies (set s | s in seen)`isConcept, (set s | s in seen)`conceptSteps, (set s | s in seen)`lookup
      ensures Valid(None) && count <= |names| == |texts| == |concepts|
      ensures duplicate <==> !AllNew(old(conceptsMap.Keys), names, |names|)
      ensures AllNew(old(conceptsMap.Keys), names, count)
      ensures if duplicate then count < |names| && !AllNew(old(conceptsMap.Keys), names, count + 1)
              else count == |names|
      ensures log == old(log) + Entries(names, texts, count, |old(log)|)
      ensures Holds(conceptsMap, old(conceptsMap), names, concepts, count)
      ensures forall s :: s in seen ==> s in old(seen) || s in old(AllParts(concepts))
      ensures ConceptsUnchanged() && forall i :: 0 <= i < |concepts| ==> SameFields(concepts[i])
    {
      hide Valid, AllNew, TextsOf, Waiting, Apart, Parts, AllParts, Entries, OneConcept, ValuesOf, Holds;
      NothingYet(conceptsMap.Keys, names);
      HoldsNothing(conceptsMap, names, concepts);
      AllNewConcepts(concepts);
      LogStarts(log, names, texts);
      count := 0;
      for i := 0 to |concepts|
        invariant count == i && Valid(None) && Waiting(concepts, i)
        invariant forall j :: 0 <= j < |concepts| ==> concepts[j].isConcept && (concepts[j] in seen <==> j < i)
        invariant AllParts(concepts) == old(AllParts(concepts)) && forall s :: s in old(seen) ==> s in seen
        invariant forall s :: s in seen ==> s in old(seen) || s in old(AllParts(concepts))
        invariant ConceptsUnchanged() && forall j :: 0 <= j < |concepts| ==> SameFields(concepts[j])
        invariant Holds(conceptsMap, old(conceptsMap), names, concepts, i)
        invariant log == old(log) + Entries(names, texts, i, |old(log)|)
        invariant AllNew(old(conceptsMap.Keys), names, i)
      {
        OneMore(old(conceptsMap.Keys), names, i);
        HoldsNext(conceptsMap, old(conceptsMap), names, concepts, i);
        LogGrows(old(log), names, texts, i);
        assert concepts[i].conceptSteps == old(concepts[i].conceptSteps);
        duplicate := AddNext(concepts, i, texts[i]);
        if duplicate {
          return;
        }
        count := i + 1;
      }
      duplicate := false;
    }

    /** The reference graph that the circular reference check works on. */
    ghost predicate Graphed(g: ConceptGraph.Graph)
      reads `conceptsMap, conceptsMap.Values
      reads set v, s | v in conceptsMap && s in conceptsMap[v].conceptSteps :: s
    {
      && g.Keys == conceptsMap.Keys
      && forall v :: v in g ==>
           && |g[v]| == |conceptsMap[v].conceptSteps|
           && forall k :: 0 <= k < |g[v]| ==>
                var step := conceptsMap[v].conceptSteps[k];
                step in conceptsMap[v].conceptSteps && g[v][k] == ConceptGraph.Call(step.value, step.isConcept)
    }

    lemma {:induction false} Located(g: ConceptGraph.Graph, v: string, k: nat)
      requires Valid(None) && Graphed(g) && v in g && k < |g[v]|
      ensures Defined(log, v).Some?
      ensures var d := Defined(log, v).value;
              && d + 1 + k < |log| && log[d + 1 + k] == Inner(g[v][k].value, d)
              && (g[v][k].isConcept <==> Linked(log, d + 1 + k))
    {
      hide First, Defined, Linked;
      var d := Defined(log, v).value;
      assert seen[d] == conceptsMap[v] && log[d].Definition?;
      assert log[d + 1 + k].Inner? && seen[d + 1 + k] == seen[d].conceptSteps[k];
      assert EntryLinked(d + 1 + k);
    }

    lemma {:induction false} Owned(g: ConceptGraph.Graph, e: nat)
      requires Valid(None) && Graphed(g) && e < |log| && log[e].Inner?
      ensures log[e].owner < e && log[log[e].owner].Definition?
      ensures var v := log[log[e].owner].text;
              Defined(log, v) == Some(log[e].owner) && v in g && e - log[e].owner - 1 < |g[v]|
    {
      hide First, Defined, Linked;
      var d := log[e].owner;
      assert seen[d] == conceptsMap[log[d].text];
    }

    lemma {:induction false} InGraph(g: ConceptGraph.Graph)
      requires Valid(None) && Graphed(g)
      ensures forall v :: v in g <==> Defined(log, v).Some?
      ensures forall e :: 0 <= e < |log| && log[e].Definition? ==> Defined(log, log[e].text) == Some(e)
    {
      hide First, Defined, Linked;
    }

    lemma {:induction false} IsBuilt()
      requires Valid(None)
      ensures Built(log)
    {
      hide First, Defined, Linked, Maps, Linking, Kinds;
      forall e, k | 0 <= e < |log| && log[e].Inner? && log[e].owner < k < e ensures log[k].Inner? {
        assert k - log[e].owner <= |seen[log[e].owner].conceptSteps|;
      }
    }

    /** The log and the reference graph of a dictionary belong together in this way. */
    lemma {:induction false} GraphOfLog(g: ConceptGraph.Graph)
      requires Valid(None) && Graphed(g)
      ensures Built(log) && GraphOf(log, g)
    {
      hide First, Defined, Linked, Valid, Graphed;
      InGraph(g);
      IsBuilt();
      forall v, k | v in g && 0 <= k < |g[v]|
        ensures CallIsStep(log, Defined(log, v).value, g[v][k], k)
      {
        Located(g, v, k);
      }
      forall e | 0 <= e < |log| && log[e].Inner?
        ensures log[e].owner < e && log[log[e].owner].Definition?
        ensures var v := log[log[e].owner].text;
                Defined(log, v) == Some(log[e].owner) && v in g && e - log[e].owner - 1 < |g[v]|
      {
        Owned(g, e);
      }
    }

    lemma {:induction false} LinksInGraph(g: ConceptGraph.Graph)
      requires Valid(None) && Graphed(g) && AllLinked(log)
      ensures ConceptGraph.FullyLinked(g)
    {
      hide First, Defined, Linked, Valid, Graphed;
      InGraph(g);
      forall v, k | v in g && 0 <= k < |g[v]| && g[v][k].value in g && g[v][k].value != v
        ensures g[v][k].isConcept
      {
        Located(g, v, k);
        assert NamesAnother(log, Defined(log, v).value + 1 + k);
      }
    }

    lemma {:induction false} LinksInLog(g: ConceptGraph.Graph)
      requires Valid(None) && Graphed(g) && ConceptGraph.FullyLinked(g)
      ensures AllLinked(log)
    {
      hide First, Defined, Linked, Valid, Graphed;
      InGraph(g);
      forall e | 0 <= e < |log| && NamesAnother(log, e)
        ensures Linked(log, e)
      {
        Owned(g, e);
        Located(g, log[log[e].owner].text, e - log[e].owner - 1);
      }
    }

    /** Links name defined concepts, and every step that names another defined concept is linked
        exactly when no concept has two steps that name it ahead of its definition. */
    lemma {:induction false} FullyLinkedIff(g: ConceptGraph.Graph)
      requires Valid(None) && Graphed(g)
      ensures ConceptGraph.WellFormed(g)
      ensures ConceptGraph.FullyLinked(g) <==>
              forall e, f :: 0 <= e < f < |log| && Forward(log, e) && Forward(log, f) ==> log[e].text != log[f].text
    {
      hide First, Defined, Linked, Valid, Graphed, Forward, AllLinked, ConceptGraph.FullyLinked;
      InGraph(g);
      forall v, k | v in g && 0 <= k < |g[v]|
        ensures g[v][k].isConcept ==> g[v][k].value in g
      {
        Located(g, v, k);
      }
      forall e | 0 <= e < |log| && log[e].Inner?
        ensures log[e].owner < e && log[log[e].owner].Definition?
      {
        Owned(g, e);
      }
      AllLinkedIff(log);
      if AllLinked(log) {
        LinksInGraph(g);
      }
      if ConceptGraph.FullyLinked(g) {
        LinksInLog(g);
      }
    }

    /** With at most one step that names each concept ahead of its definition, the circular
        reference check finds exactly the cycles. */
    lemma {:induction false} CheckIsExact(g: ConceptGraph.Graph)
      requires Valid(None) && Graphed(g)
      requires forall e, f :: 0 <= e < f < |log| && Forward(log, e) && Forward(log, f) ==> log[e].text != log[f].text
      ensures (exists w :: ConceptGraph.ClosedBy(g, w)) <==> (exists w :: ConceptGraph.Cycle(g, w))
    {
      hide Valid, Graphed, Forward, ConceptGraph.FullyLinked, ConceptGraph.WellFormed, ConceptGraph.ClosedBy,
        ConceptGraph.Cycle;
      FullyLinkedIff(g);
      ConceptGraph.LinkedCheckFindsCycles(g);
    }

    /** The same for the concepts in the order in which they were added: everything is linked exactly
        when no concept is named twice ahead of its definition, and then the check finds exactly the
        cycles. */
    lemma {:induction false} LinkedByInputIff(g: ConceptGraph.Graph, names: seq<string>, texts: seq<seq<string>>)
      requires Valid(None) && Graphed(g) && |names| == |texts| && AllNew({}, names, |names|)
      requires log == Entries(names, texts, |names|, 0)
      ensures ConceptGraph.FullyLinked(g) <==> OnceAhead(names, texts)
      ensures OnceAhead(names, texts) ==>
                ((exists w :: ConceptGraph.ClosedBy(g, w)) <==> (exists w :: ConceptGraph.Cycle(g, w)))
    {
      hide Valid, Graphed, Forward, ConceptGraph.FullyLinked, ConceptGraph.WellFormed, ConceptGraph.ClosedBy,
        ConceptGraph.Cycle, Entries, OnceAhead;
      FullyLinkedIff(g);
      ForwardOnceIff(names, texts);
      if OnceAhead(names, texts) {
        CheckIsExact(g);
      }
    }

    lemma {:induction false} SizeOfSeen(open: Option<nat>)
      requires Valid(open)
      ensures |seen| == |log|
    {
    }
  }

  ghost function ValuesOf(steps: seq<Step>): (values: seq<string>)
    reads (set s | s in steps)`value
    ensures |values| == |steps| && forall k :: 0 <= k < |steps| ==> values[k] == steps[k].value
  {
    if steps == [] then []
    else
      var n := |steps| - 1;
      ValuesOf(steps[..n]) + [steps[n].value]
  }

  /** The names of the concepts and the texts of the steps inside them. */
  ghost predicate Described(concepts: seq<Step>, names: seq<string>, texts: seq<seq<string>>)
    reads concepts, set i, s | 0 <= i < |concepts| && s in concepts[i].conceptSteps :: s
  {
    && |names| == |texts| == |concepts|
    && forall i :: 0 <= i < |concepts| ==>
         concepts[i].value == names[i] && ValuesOf(concepts[i].conceptSteps) == texts[i]
  }

  lemma {:induction false} NoEntries(names: seq<string>, texts: seq<seq<string>>, start: nat)
    requires |names| == |texts|
    ensures Entries(names, texts, 0, start) == []
  {
  }

  lemma {:induction false} NextEntries(names: seq<string>, texts: seq<seq<string>>, n: nat, start: nat)
    requires n < |names| == |texts|
    ensures var front := Entries(names, texts, n, start);
            Entries(names, texts, n + 1, start) == front + OneConcept(names[n], texts[n], start + |front|)
  {
    hide OneConcept;
  }

  lemma {:induction false} LogStarts(log: seq<Entry>, names: seq<string>, texts: seq<seq<string>>)
    requires |names| == |texts|
    ensures log + Entries(names, texts, 0, |log|) == log
  {
  }

  lemma {:induction false} LogGrows(log: seq<Entry>, names: seq<string>, texts: seq<seq<string>>, n: nat)
    requires n < |names| == |texts|
    ensures var now := log + Entries(names, texts, n, |log|);
            log + Entries(names, texts, n + 1, |log|) == now + OneConcept(names[n], texts[n], |now|)
  {
    hide OneConcept;
    NextEntries(names, texts, n, |log|);
  }

  /** A concept and the steps inside it. */
  ghost function Parts(concept: Step): seq<Step>
    reads concept
  {
    [concept] + concept.conceptSteps
  }

  ghost function TextsOf(names: seq<string>): set<string> {
    set v | v in names
  }

  /** Besides what a dictionary held before it holds the first `n` of some concepts. */
  ghost predicate Holds(now: map<string, Step>, before: map<string, Step>, names: seq<string>, concepts: seq<Step>,
      n: nat)
    requires n <= |names| == |concepts|
  {
    && now.Keys == before.Keys + TextsOf(names[..n])
    && (forall v :: v in before ==> now[v] == before[v])
    && forall i :: 0 <= i < n ==> names[i] in now && now[names[i]] == concepts[i]
  }

  lemma {:induction false} HoldsNothing(before: map<string, Step>, names: seq<string>, concepts: seq<Step>)
    requires |names| == |concepts|
    ensures Holds(before, before, names, concepts, 0)
  {
  }

  lemma {:induction false} HoldsNext(
      now: map<string, Step>, before: map<string, Step>, names: seq<string>, concepts: seq<Step>, n: nat)
    requires n < |names| == |concepts| && Holds(now, before, names, concepts, n)
    ensures now.Keys == before.Keys + TextsOf(names[..n])
    ensures names[n] !in now ==> Holds(now[names[n] := concepts[n]], before, names, concepts, n + 1)
  {
    assert names[..n + 1] == names[..n] + [names[n]];
  }

  /** None of the first `n` names is taken, before or by an earlier one. */
  ghost predicate AllNew(taken: set<string>, names: seq<string>, n: nat)
    requires n <= |names|
  {
    forall i :: 0 <= i < n ==> names[i] !in taken && names[i] !in names[..i]
  }

  lemma {:induction false} NothingYet(taken: set<string>, names: seq<string>)
    ensures AllNew(taken, names, 0) && TextsOf(names[..0]) == {}
  {
  }

  lemma {:induction false} OneMore(taken: set<string>, names: seq<string>, i: nat)
    requires i < |names| && AllNew(taken, names, i)
    ensures AllNew(taken, names, i + 1) <==> names[i] !in taken + TextsOf(names[..i])
    ensures names[i] !in taken + TextsOf(names[..i]) ==>
              names[i] !in taken && forall j :: 0 <= j < i ==> names[j] != names[i]
    ensures names[i] in taken + TextsOf(names[..i]) ==> !AllNew(taken, names, |names|)
    ensures TextsOf(names[..i + 1]) == TextsOf(names[..i]) + {names[i]}
  {
    assert names[..i + 1] == names[..i] + [names[i]];
  }

  twostate lemma {:induction false} StillParsed(concept: Step)
    requires old(Parsed(concept)) && forall s :: s in old(Parts(concept)) ==> SameFields(s)
    ensures Parsed(concept) && Parts(concept) == old(Parts(concept))
  {
    assert SameFields(old(Parts(concept))[0]);
    forall i | 0 <= i < |concept.conceptSteps|
      ensures !concept.conceptSteps[i].isConcept && concept.conceptSteps[i].conceptSteps == []
    {
      assert old(Parts(concept))[i + 1] == concept.conceptSteps[i];
      assert SameFields(concept.conceptSteps[i]);
    }
  }

  ghost function AllParts(concepts: seq<Step>): set<Step>
    reads concepts
  {
    set i, s | 0 <= i < |concepts| && s in Parts(concepts[i]) :: s
  }

  /** No concept shares an object with another one. */
  twostate lemma {:induction false} SameParts(concepts: seq<Step>)
    requires forall j :: 0 <= j < |concepts| ==> SameFields(concepts[j])
    ensures AllParts(concepts) == old(AllParts(concepts))
  {
    assert forall j :: 0 <= j < |concepts| ==> Parts(concepts[j]) == old(Parts(concepts[j]));
  }

  ghost predicate Apart(concepts: seq<Step>)
    reads concepts
  {
    forall i, j, s :: 0 <= i < j < |concepts| && s in Parts(concepts[i]) ==> s !in Parts(concepts[j])
  }

  lemma {:induction false} IncomingMeans(concept: Step, seen: seq<Step>)
    requires Incoming(concept, seen)
    ensures var steps := concept.conceptSteps;
            && concept !in steps && concept !in seen
            && (forall i :: 0 <= i < |steps| ==> steps[i] !in seen && !steps[i].isConcept)
            && forall i, j :: 0 <= i < j < |steps| ==> steps[i] != steps[j]
  {
    var parts, steps := Parts(concept), concept.conceptSteps;
    assert parts[0] == concept;
    assert forall i :: 0 <= i < |steps| ==> parts[i + 1] == steps[i];
    forall i | 0 <= i < |steps|
      ensures steps[i] != concept && steps[i] !in seen
    {
      assert parts[i + 1] in parts;
    }
  }

  /** A concept as it comes from the parser: new objects, and only the concept itself is a concept. */
  ghost predicate Incoming(concept: Step, seen: seq<Step>)
    reads concept, set s | s in Parts(concept)
  {
    Parsed(concept) && forall s :: s in Parts(concept) ==> s !in seen
  }

  ghost predicate Parsed(concept: Step)
    reads concept, set s | s in Parts(concept)
  {
    && concept.isConcept && (forall s :: s in concept.conceptSteps ==> !s.isConcept && s.conceptSteps == [])
    && forall i, j :: 0 <= i < j < |Parts(concept)| ==> Parts(concept)[i] != Parts(concept)[j]
  }

  twostate predicate SameFields(step: Step)
    reads step
  {
    step.isConcept == old(step.isConcept) && step.conceptSteps == old(step.conceptSteps)
      && step.lookup == old(step.lookup)
  }

  ghost predicate Takes(step: Step, other: Step)
    reads {step, other}`isConcept, {step, other}`conceptSteps, {step, other}`lookup
  {
    step.isConcept == other.isConcept && step.conceptSteps == other.conceptSteps && step.lookup == other.lookup
  }
}
