/** Aggregating the results of parallel streams in whatever order they arrive. */
module ParallelResults {
  import opened Text
  import opened Protocol
  import opened ItemExecution
  import opened SpecResults
  import opened SpecExecution
  import opened ExecutionOrder
  import opened SuiteExecution
  import opened Parallel

  /** A suite result. `preSuite` and `postSuite` stand for the hook failures that are stored, and
      `skipped` has the number of specifications of every stream whose runner did not start. */
  datatype Summary<R, H> = Summary(
    isFailed: bool, specsFailedCount: nat, specResults: seq<R>, preSuite: Option<H>, postSuite: Option<H>,
    executionTime: int, skipped: seq<nat>)
  {
    /** The failure of the hook before the suite, or of the one after it. */
    function Hook(before: bool): Option<H> { if before then preSuite else postSuite }
  }

  /** The aggregate of the results in this order. */
  function Aggregate<R, H>(results: seq<Summary<R, H>>): Summary<R, H> {
    if results == [] then Summary(false, 0, [], None, None, 0, [])
    else
      var a, last := Aggregate(results[..|results| - 1]), results[|results| - 1];
      Summary(a.isFailed || last.isFailed, a.specsFailedCount + last.specsFailedCount, a.specResults + last.specResults,
              if last.preSuite.Some? then last.preSuite else a.preSuite,
              if last.postSuite.Some? then last.postSuite else a.postSuite,
              a.executionTime + last.executionTime, a.skipped + last.skipped)
  }

  method AggregateResults<R, H>(results: seq<Summary<R, H>>) returns (aggregate: Summary<R, H>)
    ensures aggregate == Aggregate(results)
  {
    aggregate := Summary(false, 0, [], None, None, 0, []);
    for i := 0 to |results|
      invariant aggregate == Aggregate(results[..i])
    {
      var result := results[i];
      assert results[..i + 1][..i] == results[..i];
      aggregate := aggregate.(
        executionTime := aggregate.executionTime + result.executionTime,
        specsFailedCount := aggregate.specsFailedCount + result.specsFailedCount,
        specResults := aggregate.specResults + result.specResults);
      if result.isFailed {
        aggregate := aggregate.(isFailed := true);
      }
      if result.preSuite.Some? {
        aggregate := aggregate.(preSuite := result.preSuite);
      }
      if result.postSuite.Some? {
        aggregate := aggregate.(postSuite := result.postSuite);
      }
      aggregate := aggregate.(skipped := aggregate.skipped + result.skipped);
    }
    assert results[..|results|] == results;
  }

  /* ---------- what does not depend on the order ---------- */

  datatype Totals<!R> = Totals(failed: bool, count: int, results: multiset<R>, time: int, skipped: int) {
    function Plus(other: Totals<R>): Totals<R> {
      Totals(failed || other.failed, count + other.count, results + other.results, time + other.time,
             skipped + other.skipped)
    }
  }

  function Sum(ns: seq<int>): int {
    if ns == [] then 0 else Sum(ns[..|ns| - 1]) + ns[|ns| - 1]
  }

  lemma {:induction false} SumAppend(a: seq<int>, b: seq<int>)
    ensures Sum(a + b) == Sum(a) + Sum(b)
  {
    if b == [] {
      assert a + b == a;
    } else {
      assert (a + b)[..|a + b| - 1] == a + b[..|b| - 1];
      SumAppend(a, b[..|b| - 1]);
    }
  }

  function TotalsOf<R, H>(s: Summary<R, H>): Totals<R> {
    Totals(s.isFailed, s.specsFailedCount, multiset(s.specResults), s.executionTime, Sum(s.skipped))
  }

  function AllTotals<R, H>(results: seq<Summary<R, H>>): Totals<R> {
    if results == [] then Totals(false, 0, multiset{}, 0, 0)
    else AllTotals(results[..|results| - 1]).Plus(TotalsOf(results[|results| - 1]))
  }

  lemma {:induction false} AggregateTotals<R, H>(results: seq<Summary<R, H>>)
    ensures TotalsOf(Aggregate(results)) == AllTotals(results)
  {
    if results != [] {
      var front, last := results[..|results| - 1], results[|results| - 1];
      AggregateTotals(front);
      SumAppend(Aggregate(front).skipped, last.skipped);
    }
  }

  lemma {:induction false} PlusAssociates<R>(a: Totals<R>, b: Totals<R>, c: Totals<R>)
    ensures a.Plus(b).Plus(c) == a.Plus(b.Plus(c))
    ensures a.Plus(Totals(false, 0, multiset{}, 0, 0)) == a
    ensures Totals(false, 0, multiset{}, 0, 0).Plus(a) == a
    ensures a.Plus(b) == b.Plus(a)
  {
  }

  lemma {:induction false} TotalsAppend<R, H>(a: seq<Summary<R, H>>, b: seq<Summary<R, H>>)
    ensures AllTotals(a + b) == AllTotals(a).Plus(AllTotals(b))
  {
    hide TotalsOf, Totals.Plus;
    if b == [] {
      assert a + b == a;
      PlusAssociates(AllTotals(a), AllTotals(a), AllTotals(a));
    } else {
      var n := |b| - 1;
      assert (a + b)[..|a + b| - 1] == a + b[..n] && (a + b)[|a + b| - 1] == b[n];
      TotalsAppend(a, b[..n]);
      PlusAssociates(AllTotals(a), AllTotals(b[..n]), TotalsOf(b[n]));
    }
  }

  lemma {:induction false} OneTotal<R, H>(s: Summary<R, H>)
    ensures AllTotals([s]) == TotalsOf(s)
  {
    hide TotalsOf, Totals.Plus;
    assert [s][..0] == [];
    PlusAssociates(TotalsOf(s), TotalsOf(s), TotalsOf(s));
  }

  /** Cutting one result out and adding it at the end changes no total. */
  lemma {:induction false} MoveToEnd<R, H>(results: seq<Summary<R, H>>, i: nat)
    requires i < |results|
    ensures AllTotals(results) == AllTotals(results[..i] + results[i + 1..]).Plus(TotalsOf(results[i]))
  {
    hide TotalsOf, AllTotals, Totals.Plus;
    var a, x, b := AllTotals(results[..i]), TotalsOf(results[i]), AllTotals(results[i + 1..]);
    PlusAssociates(a, x, b);
    PlusAssociates(a, b, x);
    PlusAssociates(x, b, a);
    assert results == results[..i] + ([results[i]] + results[i + 1..]);
    TotalsAppend(results[..i], [results[i]] + results[i + 1..]);
    TotalsAppend([results[i]], results[i + 1..]);
    OneTotal(results[i]);
    TotalsAppend(results[..i], results[i + 1..]);
  }

  /** The failure flag, the number of failed specifications, the specification results, the
      times and the skipped specifications are the same for every order of arrival. */
  lemma {:induction false} AnyOrder<R, H>(results: seq<Summary<R, H>>, other: seq<Summary<R, H>>)
    requires multiset(results) == multiset(other)
    ensures TotalsOf(Aggregate(results)) == TotalsOf(Aggregate(other))
  {
    AggregateTotals(results);
    AggregateTotals(other);
    SameTotals(results, other);
  }

  lemma {:induction false} SameTotals<R, H>(results: seq<Summary<R, H>>, other: seq<Summary<R, H>>)
    requires multiset(results) == multiset(other)
    ensures AllTotals(results) == AllTotals(other)
  {
    hide TotalsOf, Totals.Plus;
    if results == [] {
      assert |other| == |multiset(other)| == 0;
    } else {
      var n := |results| - 1;
      assert results == results[..n] + [results[n]];
      assert results[n] in multiset(other);
      var i :| 0 <= i < |other| && other[i] == results[n];
      assert other == other[..i] + [other[i]] + other[i + 1..];
      assert multiset(results[..n]) == multiset(results) - multiset{results[n]};
      assert multiset(other[..i] + other[i + 1..]) == multiset(other) - multiset{other[i]};
      SameTotals(results[..n], other[..i] + other[i + 1..]);
      MoveToEnd(other, i);
    }
  }

  function FailedCounts<R, H>(results: seq<Summary<R, H>>): seq<int> {
    seq(|results|, k requires 0 <= k < |results| => results[k].specsFailedCount)
  }

  function ResultLists<R, H>(results: seq<Summary<R, H>>): seq<seq<R>> {
    seq(|results|, k requires 0 <= k < |results| => results[k].specResults)
  }

  function TimesOf<R, H>(results: seq<Summary<R, H>>): seq<int> {
    seq(|results|, k requires 0 <= k < |results| => results[k].executionTime)
  }

  /** One more result adds to every total. */
  lemma {:induction false} ListsGrow<R, H>(results: seq<Summary<R, H>>)
    requires results != []
    ensures var front, last := results[..|results| - 1], results[|results| - 1];
            && Sum(FailedCounts(results)) == Sum(FailedCounts(front)) + last.specsFailedCount
            && Sum(TimesOf(results)) == Sum(TimesOf(front)) + last.executionTime
            && Together(ResultLists(results)) == Together(ResultLists(front)) + multiset(last.specResults)
  {
    var n := |results| - 1;
    var front := results[..n];
    assert FailedCounts(results)[..n] == FailedCounts(front);
    assert ResultLists(results)[..n] == ResultLists(front);
    assert TimesOf(results)[..n] == TimesOf(front);
  }

  ghost predicate SomeFailure<R, H>(results: seq<Summary<R, H>>) {
    exists k :: 0 <= k < |results| && results[k].isFailed
  }

  lemma {:induction false} FailureGrows<R, H>(results: seq<Summary<R, H>>, last: Summary<R, H>)
    ensures SomeFailure(results + [last]) <==> SomeFailure(results) || last.isFailed
  {
    var all := results + [last];
    assert forall k :: 0 <= k < |results| ==> all[k] == results[k];
    assert all[|results|] == last;
  }

  /** The totals, one by one. */
  lemma {:induction false} TotalsAre<R, H>(results: seq<Summary<R, H>>)
    ensures var t := AllTotals(results);
            && (t.failed <==> SomeFailure(results))
            && t.count == Sum(FailedCounts(results))
            && t.results == Together(ResultLists(results))
            && t.time == Sum(TimesOf(results))
  {
    if results != [] {
      hide Sum, Together, FailedCounts, ResultLists, TimesOf, SomeFailure;
      var n := |results| - 1;
      TotalsAre(results[..n]);
      ListsGrow(results);
      FailureGrows(results[..n], results[n]);
      assert results == results[..n] + [results[n]];
    }
  }

  lemma {:induction false} TotalsRead<R, H>(s: Summary<R, H>)
    ensures var t := TotalsOf(s);
            && t.failed == s.isFailed && t.count == s.specsFailedCount && t.results == multiset(s.specResults)
            && t.time == s.executionTime && t.skipped == Sum(s.skipped)
            && |t.results| == |s.specResults|
  {
  }

  /* ---------- what does ---------- */

  /** The stored hook failure is that of the last result that has one. */
  lemma {:induction false} LastHookFailureWins<R, H>(results: seq<Summary<R, H>>, last: Summary<R, H>, before: bool)
    ensures Aggregate(results + [last]).Hook(before) ==
            if last.Hook(before).Some? then last.Hook(before) else Aggregate(results).Hook(before)
  {
    assert (results + [last])[..|results|] == results;
  }

  ghost predicate HasHookFailure<R, H>(results: seq<Summary<R, H>>, s: Summary<R, H>, before: bool) {
    s in results && s.Hook(before).Some?
  }

  lemma {:induction false} SomeHookFailure<R, H>(results: seq<Summary<R, H>>, before: bool)
    ensures Aggregate(results).Hook(before).None? ==> forall s :: !HasHookFailure(results, s, before)
    ensures Aggregate(results).Hook(before).Some? ==>
              exists s :: HasHookFailure(results, s, before) && s.Hook(before) == Aggregate(results).Hook(before)
  {
    if results != [] {
      var n := |results| - 1;
      var front, last := results[..n], results[n];
      SomeHookFailure(front, before);
      assert results == front + [last];
      if last.Hook(before).Some? {
        assert HasHookFailure(results, last, before);
      } else if Aggregate(front).Hook(before).Some? {
        var s :| HasHookFailure(front, s, before) && s.Hook(before) == Aggregate(front).Hook(before);
        assert HasHookFailure(results, s, before);
      } else {
        forall s ensures !HasHookFailure(results, s, before) {
          assert !HasHookFailure(front, s, before);
        }
      }
    }
  }

  /** Which hook failure is kept, before the suite or after it, does not depend on the order exactly
      when all of them are the same. */
  lemma {:induction false} HookFailureOrderIff<R, H>(results: seq<Summary<R, H>>, before: bool)
    ensures (forall other: seq<Summary<R, H>> :: multiset(other) == multiset(results) ==>
               Aggregate(other).Hook(before) == Aggregate(results).Hook(before)) <==>
            (forall s, t :: HasHookFailure(results, s, before) && HasHookFailure(results, t, before) ==>
              s.Hook(before) == t.Hook(before))
  {
    hide Aggregate;
    if forall s, t :: HasHookFailure(results, s, before) && HasHookFailure(results, t, before) ==>
      s.Hook(before) == t.Hook(before) {
      forall other: seq<Summary<R, H>> | multiset(other) == multiset(results)
        ensures Aggregate(other).Hook(before) == Aggregate(results).Hook(before)
      {
        SameMembers(results, other);
        assert forall s :: HasHookFailure(results, s, before) <==> HasHookFailure(other, s, before);
        SomeHookFailure(results, before);
        SomeHookFailure(other, before);
      }
    } else {
      var s, t :| HasHookFailure(results, s, before) && HasHookFailure(results, t, before)
        && s.Hook(before) != t.Hook(before);
      var first := LastArrival(results, s, before);
      var second := LastArrival(results, t, before);
      assert Aggregate(first).Hook(before) != Aggregate(second).Hook(before);
    }
  }

  /** Any result with a hook failure may be the last to arrive. */
  lemma {:induction false} LastArrival<R, H>(results: seq<Summary<R, H>>, s: Summary<R, H>, before: bool)
      returns (other: seq<Summary<R, H>>)
    requires HasHookFailure(results, s, before)
    ensures multiset(other) == multiset(results) && Aggregate(other).Hook(before) == s.Hook(before)
  {
    hide Aggregate;
    var i :| 0 <= i < |results| && results[i] == s;
    var rest := results[..i] + results[i + 1..];
    other := rest + [s];
    LastHookFailureWins(rest, s, before);
    assert results == results[..i] + [s] + results[i + 1..];
  }

  lemma {:induction false} SameMembers<T>(a: seq<T>, b: seq<T>)
    requires multiset(a) == multiset(b)
    ensures forall x :: x in a <==> x in b
  {
    forall x | x in a || x in b
      ensures x in a && x in b
    {
      assert x in multiset(a) && x in multiset(b);
    }
  }

  /* ---------- a parallel run ---------- */

  /** What stream `k` delivers: the result of its suite as it is, with what the results of its
      specifications show. When its runner does not start, all its specifications are skipped and
      the result is not marked as failed. */
  ghost predicate Delivers(
      s: Summary<SpecResult, nat>, stream: seq<SpecPlan>, started: bool, run: SuiteRun, k: nat, elapsed: int)
    reads s.specResults, Seen(s.specResults)
  {
    if !started then s == Summary(false, 0, [], None, None, 0, [|stream|])
    else
      && s.isFailed == AnyFailed(run.Events()) && s.specsFailedCount == CountFailedSpecs(run.specs)
      && ShowsSpecs(s.specResults, stream, run.specs)
      && |s.specResults| == (if run.starting.answer.failed then 0 else |stream|) && s.skipped == []
      && s.preSuite == (if run.starting.answer.failed then Some(k) else None)
      && s.postSuite == (if run.ending.answer.failed then Some(k) else None)
      && s.executionTime == elapsed
  }

  /** `startSpecsExecution` of stream `k`. */
  method RunStream(stream: seq<SpecPlan>, runner: Option<Runner>, k: nat, elapsed: int)
      returns (s: Summary<SpecResult, nat>, ghost run: SuiteRun)
    requires forall i :: 0 <= i < |stream| ==> stream[i].Valid()
    modifies if runner.Some? then {runner.value} else {}
    ensures fresh(s.specResults) && Delivers(s, stream, runner.Some?, run, k, elapsed)
    ensures runner.Some? ==>
              Recorded(runner.value, stream, run, old(runner.value.sent), old(runner.value.Truthful()))
  {
    hide AnyFailed, CountFailedSpecs, Nesting.Scan, SuiteRun.Events, SuiteRun.Legal, SuiteLeaves, Runner.Truthful,
      ShowsSpecs, Seen, FollowsSuite;
    if runner.None? {
      return Summary(false, 0, [], None, None, 0, [|stream|]), *;
    }
    var suite;
    suite, run := Start(runner.value, stream, elapsed);
    s := Summary(suite.isFailed, suite.specsFailedCount, suite.specResults,
                 if suite.preHookFailed then Some(k) else None, if suite.postHookFailed then Some(k) else None,
                 suite.executionTime, []);
  }

  /** The last stream is somewhere among the arrivals. */
  lemma {:induction false} WithoutLast(arrival: seq<nat>, n: nat) returns (p: nat)
    requires multiset(arrival) == multiset(Everyone(n + 1))
    ensures p < |arrival| && arrival[p] == n
    ensures multiset(arrival[..p] + arrival[p + 1..]) == multiset(Everyone(n))
  {
    hide Everyone;
    LastOne(n);
    assert n in multiset(arrival);
    p :| 0 <= p < |arrival| && arrival[p] == n;
    assert arrival == arrival[..p] + [n] + arrival[p + 1..];
    assert multiset(arrival[..p] + arrival[p + 1..]) == multiset(arrival) - multiset([n]);
  }

  lemma {:induction false} AllInRange(arrival: seq<nat>, n: nat)
    requires multiset(arrival) == multiset(Everyone(n))
    ensures forall i :: 0 <= i < |arrival| ==> arrival[i] < n
    ensures |arrival| == n
  {
    hide Everyone;
    forall i | 0 <= i < |arrival|
      ensures arrival[i] < n
    {
      assert arrival[i] in multiset(arrival);
    }
    assert |arrival| == |multiset(arrival)|;
  }

  /** Adding up in the order of arrival or stream by stream is the same. */
  lemma {:induction false} ArrivalTotals<R, H>(summaries: seq<Summary<R, H>>, arrival: seq<nat>)
    requires multiset(arrival) == multiset(Everyone(|summaries|))
    ensures forall i :: 0 <= i < |arrival| ==> arrival[i] < |summaries|
    ensures AllTotals(Arrived(summaries, arrival)) == AllTotals(summaries)
  {
    hide TotalsOf, Totals.Plus, Everyone, AllTotals;
    AllInRange(arrival, |summaries|);
    if summaries == [] {
      assert Arrived(summaries, arrival) == summaries;
    } else {
      var n := |summaries| - 1;
      var p := WithoutLast(arrival, n);
      var rest, arrived := arrival[..p] + arrival[p + 1..], Arrived(summaries, arrival);
      ArrivalTotals(summaries[..n], rest);
      assert arrived[..p] + arrived[p + 1..] == Arrived(summaries[..n], rest);
      MoveToEnd(arrived, p);
      MoveToEnd(summaries, n);
      assert summaries[..n] + summaries[n + 1..] == summaries[..n];
    }
  }

  lemma {:induction false} LastOne(n: nat)
    ensures n in Everyone(n + 1) && multiset(Everyone(n + 1)) - multiset([n]) == multiset(Everyone(n))
  {
    assert Everyone(n + 1) - {n} == Everyone(n);
  }

  function Arrived<R, H>(summaries: seq<Summary<R, H>>, arrival: seq<nat>): seq<Summary<R, H>>
    requires forall i :: 0 <= i < |arrival| ==> arrival[i] < |summaries|
  {
    seq(|arrival|, i requires 0 <= i < |arrival| => summaries[arrival[i]])
  }

  /** The specifications in streams whose before-suite hook failed. */
  function Blocked(streams: seq<seq<SpecPlan>>, started: seq<bool>, runs: seq<SuiteRun>): nat
    requires |streams| == |started| == |runs|
  {
    if streams == [] then 0
    else
      var n := |streams| - 1;
      Blocked(streams[..n], started[..n], runs[..n]) +
      if started[n] && runs[n].starting.answer.failed then |streams[n]| else 0
  }

  /** Every specification is executed, skipped because its runner did not start, or in a stream
      whose before-suite hook failed. */
  lemma {:induction false} EverySpecIsAccountedFor(
      streams: seq<seq<SpecPlan>>, started: seq<bool>, runs: seq<SuiteRun>, summaries: seq<Summary<SpecResult, nat>>,
      times: seq<int>)
    requires |streams| == |started| == |runs| == |summaries| == |times|
    requires forall k :: 0 <= k < |streams| ==> Delivers(summaries[k], streams[k], started[k], runs[k], k, times[k])
    ensures var t := AllTotals(summaries);
            |t.results| + t.skipped + Blocked(streams, started, runs) == |Together(streams)|
  {
    if streams != [] {
      var n := |streams| - 1;
      EverySpecIsAccountedFor(streams[..n], started[..n], runs[..n], summaries[..n], times[..n]);
      assert Delivers(summaries[n], streams[n], started[n], runs[n], n, times[n]);
      OneSkipped(|streams[n]|);
    }
  }

  lemma {:induction false} OneSkipped(n: nat)
    ensures Sum([n]) == n && Sum([]) == 0
  {
    assert [n][..0] == [];
  }

  /** The aggregate failed exactly when some stream failed; a stream that did not start does not
      count as failed. */
  lemma {:induction false} SomeStreamFailed(
      streams: seq<seq<SpecPlan>>, started: seq<bool>, runs: seq<SuiteRun>, summaries: seq<Summary<SpecResult, nat>>,
      times: seq<int>)
    requires |streams| == |started| == |runs| == |summaries| == |times|
    requires forall k :: 0 <= k < |streams| ==> Delivers(summaries[k], streams[k], started[k], runs[k], k, times[k])
    ensures AllTotals(summaries).failed <==> exists k :: 0 <= k < |runs| && started[k] && AnyFailed(runs[k].Events())
  {
    hide AnyFailed, SuiteRun.Events, CountFailedSpecs, ShowsSpecs, Seen, AllTotals;
    TotalsAre(summaries);
    forall k | 0 <= k < |runs|
      ensures summaries[k].isFailed <==> started[k] && AnyFailed(runs[k].Events())
    {
      assert Delivers(summaries[k], streams[k], started[k], runs[k], k, times[k]);
    }
  }

  function Started(runners: seq<Option<Runner>>): seq<bool> {
    seq(|runners|, k requires 0 <= k < |runners| => runners[k].Some?)
  }

  /** The failure of the hook before the suite, or of the one after it. */
  predicate HookFailed(run: SuiteRun, before: bool) {
    if before then run.starting.answer.failed else run.ending.answer.failed
  }

  /** The hook failure of some stream is kept, if there is one. */
  ghost predicate KeepsHookFailure(hook: Option<nat>, started: seq<bool>, runs: seq<SuiteRun>, before: bool)
    requires |started| == |runs|
  {
    if hook.Some? then hook.value < |runs| && started[hook.value] && HookFailed(runs[hook.value], before)
    else forall k :: 0 <= k < |runs| ==> !(started[k] && HookFailed(runs[k], before))
  }

  lemma {:induction false} HookFailureKept(
      streams: seq<seq<SpecPlan>>, started: seq<bool>, runs: seq<SuiteRun>, summaries: seq<Summary<SpecResult, nat>>,
      times: seq<int>, arrival: seq<nat>, before: bool)
    requires |streams| == |started| == |runs| == |summaries| == |times|
    requires forall k :: 0 <= k < |streams| ==> Delivers(summaries[k], streams[k], started[k], runs[k], k, times[k])
    requires multiset(arrival) == multiset(Everyone(|summaries|))
    ensures forall i :: 0 <= i < |arrival| ==> arrival[i] < |summaries|
    ensures KeepsHookFailure(Aggregate(Arrived(summaries, arrival)).Hook(before), started, runs, before)
  {
    hide Aggregate, AnyFailed, SuiteRun.Events, CountFailedSpecs, Everyone, ShowsSpecs, Seen;
    AllInRange(arrival, |summaries|);
    EveryoneArrives(arrival, |summaries|);
    var arrived := Arrived(summaries, arrival);
    SomeHookFailure(arrived, before);
    forall k | 0 <= k < |runs|
      ensures summaries[k] in arrived
      ensures summaries[k].Hook(before) == if started[k] && HookFailed(runs[k], before) then Some(k) else None
    {
      assert Delivers(summaries[k], streams[k], started[k], runs[k], k, times[k]);
      assert k in arrival;
      var i :| 0 <= i < |arrival| && arrival[i] == k;
      assert arrived[i] == summaries[k];
    }
    if Aggregate(arrived).Hook(before).Some? {
      var s :| HasHookFailure(arrived, s, before) && s.Hook(before) == Aggregate(arrived).Hook(before);
      var i :| 0 <= i < |arrived| && arrived[i] == s;
      assert s == summaries[arrival[i]];
    } else {
      assert forall k :: 0 <= k < |runs| ==> !HasHookFailure(arrived, summaries[k], before);
    }
  }

  /** A legal run of the specifications that the runner has recorded after the events `before`,
      and answered. */
  ghost predicate Recorded(
      runner: Runner, stream: seq<SpecPlan>, run: SuiteRun, before: seq<Event>, truthful: bool)
    reads runner
  {
    && (forall i :: 0 <= i < |stream| ==> stream[i].Valid())
    && run.Legal(SuiteLeaves(stream)) && FollowsSuite(run, stream) && runner.sent == before + run.Events()
    && (truthful ==> runner.Truthful())
  }

  /** What the runners have recorded so far, and whether they told the truth. */
  ghost function Records(runners: seq<Option<Runner>>): (records: seq<(seq<Event>, bool)>)
    reads set k | 0 <= k < |runners| && runners[k].Some? :: runners[k].value
    ensures |records| == |runners|
  {
    seq(|runners|, k requires 0 <= k < |runners|
      reads set j | 0 <= j < |runners| && runners[j].Some? :: runners[j].value =>
      if runners[k].Some? then (runners[k].value.sent, runners[k].value.Truthful()) else ([], false))
  }

  /** Stream `k` has run and delivered its result. */
  ghost predicate Done(runners: seq<Option<Runner>>, streams: seq<seq<SpecPlan>>, times: seq<int>,
      before: seq<(seq<Event>, bool)>, k: nat, s: Summary<SpecResult, nat>, run: SuiteRun)
    requires k < |runners| == |streams| == |times| == |before|
    reads s.specResults, Seen(s.specResults), if runners[k].Some? then {runners[k].value} else {}
  {
    && Delivers(s, streams[k], runners[k].Some?, run, k, times[k])
    && (runners[k].Some? ==> Recorded(runners[k].value, streams[k], run, before[k].0, before[k].1))
  }

  lemma {:induction false} IsDone(runners: seq<Option<Runner>>, streams: seq<seq<SpecPlan>>, times: seq<int>,
      before: seq<(seq<Event>, bool)>, k: nat, s: Summary<SpecResult, nat>, run: SuiteRun)
    requires k < |runners| == |streams| == |times| == |before|
    requires Delivers(s, streams[k], runners[k].Some?, run, k, times[k])
    requires runners[k].Some? ==> Recorded(runners[k].value, streams[k], run, before[k].0, before[k].1)
    ensures Done(runners, streams, times, before, k, s, run)
  {
    hide Delivers, Recorded, Seen;
  }

  /** No two streams have the same runner. */
  predicate OwnRunners(runners: seq<Option<Runner>>) {
    forall j, k :: 0 <= j < k < |runners| && runners[j].Some? && runners[k].Some? ==>
      runners[j].value != runners[k].value
  }

  /** One more stream runs; what was delivered before stays as it is. */
  method RunNext(streams: seq<seq<SpecPlan>>, runners: seq<Option<Runner>>, times: seq<int>, k: nat,
      ghost before: seq<(seq<Event>, bool)>, ghost delivered: map<nat, Summary<SpecResult, nat>>,
      ghost ran: map<nat, SuiteRun>)
      returns (s: Summary<SpecResult, nat>, ghost run: SuiteRun)
    requires k < |streams| == |runners| == |times| == |before| && OwnRunners(runners) && k !in delivered
    requires forall i :: 0 <= i < |streams[k]| ==> streams[k][i].Valid()
    requires forall j: nat :: j in delivered ==>
               j < |runners| && j in ran && Done(runners, streams, times, before, j, delivered[j], ran[j])
    requires runners[k].Some? ==> before[k] == (runners[k].value.sent, runners[k].value.Truthful())
    modifies if runners[k].Some? then {runners[k].value} else {}
    ensures Done(runners, streams, times, before, k, s, run)
    ensures forall j: nat :: j in delivered ==> Done(runners, streams, times, before, j, delivered[j], ran[j])
  {
    hide Done, Delivers, Recorded, Runner.Truthful, SpecPlan.Valid, Seen;
    assert forall j: nat :: j in delivered ==> allocated(Seen(delivered[j].specResults));
    label running:
    s, run := RunStream(streams[k], runners[k], k, times[k]);
    forall j: nat | j in delivered
      ensures Done(runners, streams, times, before, j, delivered[j], ran[j])
    {
      assert j != k && old@running(Done(runners, streams, times, before, j, delivered[j], ran[j]));
    }
    IsDone(runners, streams, times, before, k, s, run);
  }

  /** The streams run, and their results are received in the order of arrival. */
  method RunStreams(streams: seq<seq<SpecPlan>>, runners: seq<Option<Runner>>, arrival: seq<nat>, times: seq<int>)
      returns (received: seq<Summary<SpecResult, nat>>, ghost delivered: map<nat, Summary<SpecResult, nat>>,
               ghost ran: map<nat, SuiteRun>)
    requires |streams| == |runners| == |times| && multiset(arrival) == multiset(Everyone(|runners|))
    requires forall k, i :: 0 <= k < |streams| && 0 <= i < |streams[k]| ==> streams[k][i].Valid()
    requires OwnRunners(runners)
    modifies set k | 0 <= k < |runners| && runners[k].Some? :: runners[k].value
    ensures forall k: nat :: k < |runners| ==>
              k in delivered && k in ran
              && Done(runners, streams, times, old(Records(runners)), k, delivered[k], ran[k])
    ensures |received| == |arrival|
    ensures forall j :: 0 <= j < |arrival| ==> arrival[j] in delivered && received[j] == delivered[arrival[j]]
  {
    hide Done, Everyone, Runner.Truthful, SpecPlan.Valid;
    AllInRange(arrival, |runners|);
    received, delivered, ran := [], map[], map[];
    ghost var before := Records(runners);
    for i := 0 to |arrival|
      invariant |received| == i
      invariant forall j :: 0 <= j < i ==> arrival[j] in delivered && received[j] == delivered[arrival[j]]
      invariant forall j :: j in delivered <==> j in arrival[..i]
      invariant forall j: nat :: j in delivered ==>
                  j < |runners| && j in ran && Done(runners, streams, times, before, j, delivered[j], ran[j])
      invariant forall j :: 0 <= j < |runners| && runners[j].Some? && j !in delivered ==> unchanged(runners[j].value)
    {
      var k := arrival[i];
      Distinct(arrival, |runners|, i);
      var s;
      ghost var run;
      s, run := RunNext(streams, runners, times, k, before, delivered, ran);
      assert arrival[..i + 1] == arrival[..i] + [k];
      received := received + [s];
      delivered, ran := delivered[k := s], ran[k := run];
    }
    EveryoneArrives(arrival, |runners|);
    assert arrival[..|arrival|] == arrival;
  }

  /** A parallel run: the specifications are dealt out, every stream delivers, and the results
      are aggregated in the order in which they arrive. */
  method StartParallel(specs: seq<SpecPlan>, distributions: nat, runners: seq<Option<Runner>>, arrival: seq<nat>,
      times: seq<int>, elapsed: int)
      returns (aggregate: Summary<SpecResult, nat>, ghost streams: seq<seq<SpecPlan>>,
               ghost summaries: seq<Summary<SpecResult, nat>>, ghost runs: seq<SuiteRun>)
    requires distributions > 0 && forall i :: 0 <= i < |specs| ==> specs[i].Valid()
    requires |runners| == |times| == (if distributions > |specs| then |specs| else distributions)
    requires multiset(arrival) == multiset(Everyone(|runners|))
    requires OwnRunners(runners)
    modifies set k | 0 <= k < |runners| && runners[k].Some? :: runners[k].value
    ensures |streams| == |summaries| == |runs| == |runners| && Together(streams) == multiset(specs)
    ensures forall k :: 0 <= k < |runners| ==>
              Done(runners, streams, times, old(Records(runners)), k, summaries[k], runs[k])
    ensures aggregate.isFailed <==>
            exists k :: 0 <= k < |runners| && runners[k].Some? && AnyFailed(runs[k].Events())
    ensures aggregate.specsFailedCount == Sum(FailedCounts(summaries))
    ensures multiset(aggregate.specResults) == Together(ResultLists(summaries))
    ensures |aggregate.specResults| + Sum(aggregate.skipped) + Blocked(streams, Started(runners), runs) ==
            |Together(streams)|
    ensures forall before :: KeepsHookFailure(aggregate.Hook(before), Started(runners), runs, before)
    ensures aggregate.executionTime == elapsed
  {
    hide Done, AllTotals, TotalsOf, Everyone, Stream, Together, Aggregate, SuiteRun.Events, Runner.Truthful,
      SpecPlan.Valid, Sum, Seen, Records, AnyFailed, KeepsHookFailure, Blocked, FailedCounts, ResultLists;
    var collections := DistributeSpecs(specs, distributions);
    streams := collections;
    StreamsShare(specs, |runners|, collections);
    var received;
    ghost var delivered, ran := map[], map[];
    received, delivered, ran := RunStreams(collections, runners, arrival, times);
    summaries := seq(|runners|, k requires 0 <= k < |runners| => delivered[k]);
    runs := seq(|runners|, k requires 0 <= k < |runners| => ran[k]);
    AllInRange(arrival, |runners|);
    assert received == Arrived(summaries, arrival);
    Totalled(streams, runners, runs, summaries, times, arrival, old(Records(runners)));
    assert forall k :: 0 <= k < |runners| ==> allocated(Seen(summaries[k].specResults));
    var total := AggregateResults(received);
    TotalsRead(total);
    aggregate := total.(executionTime := elapsed);
    forall before ensures KeepsHookFailure(aggregate.Hook(before), Started(runners), runs, before) {
      assert aggregate.Hook(before) == total.Hook(before);
    }
  }

  /** What the aggregate of all streams says, in whatever order they arrive. */
  lemma {:induction false} Totalled(
      streams: seq<seq<SpecPlan>>, runners: seq<Option<Runner>>, runs: seq<SuiteRun>,
      summaries: seq<Summary<SpecResult, nat>>, times: seq<int>, arrival: seq<nat>,
      records: seq<(seq<Event>, bool)>)
    requires |streams| == |runners| == |runs| == |summaries| == |times| == |records|
    requires forall k :: 0 <= k < |runners| ==> Done(runners, streams, times, records, k, summaries[k], runs[k])
    requires multiset(arrival) == multiset(Everyone(|summaries|))
    ensures forall i :: 0 <= i < |arrival| ==> arrival[i] < |summaries|
    ensures var t := TotalsOf(Aggregate(Arrived(summaries, arrival)));
            && (t.failed <==> exists k :: 0 <= k < |runners| && runners[k].Some? && AnyFailed(runs[k].Events()))
            && t.count == Sum(FailedCounts(summaries)) && t.results == Together(ResultLists(summaries))
            && |t.results| + t.skipped + Blocked(streams, Started(runners), runs) == |Together(streams)|
    ensures forall before ::
              KeepsHookFailure(Aggregate(Arrived(summaries, arrival)).Hook(before), Started(runners), runs, before)
  {
    hide Delivers, AllTotals, TotalsOf, Everyone, Together, Aggregate, Recorded, SuiteRun.Events, Runner.Truthful,
      Sum, Seen, AnyFailed, KeepsHookFailure, Blocked, FailedCounts, ResultLists;
    var started := Started(runners);
    ArrivalTotals(summaries, arrival);
    AggregateTotals(Arrived(summaries, arrival));
    TotalsAre(summaries);
    assert forall k :: 0 <= k < |runners| ==>
        Done(runners, streams, times, records, k, summaries[k], runs[k])
        && Delivers(summaries[k], streams[k], started[k], runs[k], k, times[k]);
    SomeStreamFailed(streams, started, runs, summaries, times);
    EverySpecIsAccountedFor(streams, started, runs, summaries, times);
    forall before
      ensures KeepsHookFailure(Aggregate(Arrived(summaries, arrival)).Hook(before), started, runs, before)
    {
      HookFailureKept(streams, started, runs, summaries, times, arrival, before);
    }
  }

  lemma {:induction false} StreamsShare(specs: seq<SpecPlan>, n: nat, collections: seq<seq<SpecPlan>>)
    requires |collections| == n <= |specs| && (n == 0 ==> specs == [])
    requires forall k :: 0 <= k < n ==> collections[k] == Stream(specs, n, k, |specs|)
    ensures Together(collections) == multiset(specs)
    ensures (forall i :: 0 <= i < |specs| ==> specs[i].Valid()) ==>
              forall k, i :: 0 <= k < n && 0 <= i < |collections[k]| ==> collections[k][i].Valid()
  {
    hide Stream;
    if n > 0 {
      StreamsPartition(specs, n, |specs|);
      assert collections == Streams(specs, n, |specs|) && specs[..|specs|] == specs;
      forall k, i | 0 <= k < n && 0 <= i < |collections[k]|
        ensures collections[k][i] in specs
      {
        FromSpecs(specs, n, k, |specs|, i);
      }
    }
  }

  lemma {:induction false} FromSpecs<T>(specs: seq<T>, n: nat, k: nat, i: nat, j: nat)
    requires 0 < n && i <= |specs| && j < |Stream(specs, n, k, i)|
    ensures Stream(specs, n, k, i)[j] in specs
  {
    if j < |Stream(specs, n, k, i - 1)| {
      FromSpecs(specs, n, k, i - 1, j);
    }
  }

  lemma {:induction false} EveryoneArrives(arrival: seq<nat>, n: nat)
    requires multiset(arrival) == multiset(Everyone(n))
    ensures forall k: nat :: k < n ==> k in arrival
  {
    hide Everyone;
    forall k: nat | k < n
      ensures k in arrival
    {
      assert k in multiset(Everyone(n));
      assert k in multiset(arrival);
    }
  }

  /** No stream arrives twice. */
  lemma {:induction false} Distinct(arrival: seq<nat>, n: nat, i: nat)
    requires multiset(arrival) == multiset(Everyone(n)) && i < |arrival|
    ensures arrival[i] !in arrival[..i]
  {
    hide Everyone;
    var k := arrival[i];
    assert arrival == arrival[..i] + [k] + arrival[i + 1..];
    assert multiset(Everyone(n))[k] <= 1;
    assert multiset(arrival)[k] == multiset(arrival[..i])[k] + 1 + multiset(arrival[i + 1..])[k];
  }
}
