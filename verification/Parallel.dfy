/** Running specifications in parallel streams: how they are dealt out, how the results come in
    and what becomes of them. */
module Parallel {

  /* ---------- dealing out the specifications ---------- */

  /** Stream `k` of `n` after the first `i` specifications were dealt out. */
  function Stream<T>(specs: seq<T>, n: nat, k: nat, i: nat): seq<T>
    requires 0 < n && i <= |specs|
  {
    if i == 0 then [] else Stream(specs, n, k, i - 1) + if (i - 1) % n == k then [specs[i - 1]] else []
  }

  method DistributeSpecs<T>(specs: seq<T>, distributions: nat) returns (collections: seq<seq<T>>)
    requires distributions > 0
    ensures |collections| == if distributions > |specs| then |specs| else distributions
    ensures forall k :: 0 <= k < |collections| ==> collections[k] == Stream(specs, |collections|, k, |specs|)
  {
    var n := distributions;
    if n > |specs| {
      n := |specs|;
    }
    collections := seq(n, k => []);
    for i := 0 to |specs|
      invariant |collections| == n
      invariant forall k :: 0 <= k < n ==> collections[k] == Stream(specs, n, k, i)
    {
      var mod := i % n;
      collections := collections[mod := collections[mod] + [specs[i]]];
    }
  }

  lemma {:induction false} NextDivMod(i: nat, n: nat)
    requires n > 0
    ensures if i % n == n - 1 then (i + 1) % n == 0 && (i + 1) / n == i / n + 1
            else (i + 1) % n == i % n + 1 && (i + 1) / n == i / n
  {
    var q, r := i / n, i % n;
    assert i == q * n + r;
    if r == n - 1 {
      assert i + 1 == (q + 1) * n;
      DivModUnique(i + 1, n, q + 1, 0);
    } else {
      DivModUnique(i + 1, n, q, r + 1);
    }
  }

  lemma {:induction false} DivModUnique(i: nat, n: nat, q: nat, r: nat)
    requires 0 <= r < n && i == q * n + r
    ensures i / n == q && i % n == r
  {
    var d := i / n - q;
    assert d * n == r - i % n;
  }

  /** Sizes of the streams differ by at most one. */
  lemma {:induction false} StreamSize<T>(specs: seq<T>, n: nat, k: nat, i: nat)
    requires k < n && i <= |specs|
    ensures |Stream(specs, n, k, i)| == i / n + if k < i % n then 1 else 0
  {
    if i > 0 {
      StreamSize(specs, n, k, i - 1);
      NextDivMod(i - 1, n);
    }
  }

  /** Specification `i` is in stream `i % n` at position `i / n`: the order is kept. */
  lemma {:induction false} StreamPosition<T>(specs: seq<T>, n: nat, j: nat, i: nat)
    requires 0 < n && j < i <= |specs|
    ensures j / n < |Stream(specs, n, j % n, i)| && Stream(specs, n, j % n, i)[j / n] == specs[j]
  {
    if j == i - 1 {
      StreamSize(specs, n, j % n, j);
    } else {
      StreamPosition(specs, n, j, i - 1);
    }
  }

  /** All streams together. */
  function Together<T>(collections: seq<seq<T>>): multiset<T> {
    if collections == [] then multiset{}
    else Together(collections[..|collections| - 1]) + multiset(collections[|collections| - 1])
  }

  function Streams<T>(specs: seq<T>, n: nat, i: nat): seq<seq<T>>
    requires 0 < n && i <= |specs|
  {
    seq(n, k requires 0 <= k < n => Stream(specs, n, k, i))
  }

  lemma {:induction false} TogetherUpdate<T>(collections: seq<seq<T>>, k: nat, x: T)
    requires k < |collections|
    ensures Together(collections[k := collections[k] + [x]]) == Together(collections) + multiset{x}
  {
    var n := |collections| - 1;
    var changed := collections[k := collections[k] + [x]];
    if k == n {
      assert changed[..n] == collections[..n];
    } else {
      assert changed[..n] == collections[..n][k := collections[..n][k] + [x]];
      TogetherUpdate(collections[..n], k, x);
    }
  }

  lemma {:induction false} TogetherNothing<T>(n: nat)
    ensures Together<T>(seq(n, k => [])) == multiset{}
  {
    var s: seq<seq<T>> := seq(n, k => []);
    if n > 0 {
      TogetherNothing<T>(n - 1);
      assert s[..n - 1] == seq(n - 1, k => []);
    }
  }

  lemma {:induction false} NextStreams<T>(specs: seq<T>, n: nat, i: nat)
    requires 0 < n && 0 < i <= |specs|
    ensures var before, k := Streams(specs, n, i - 1), (i - 1) % n;
            Streams(specs, n, i) == before[k := before[k] + [specs[i - 1]]]
  {
    var before, k := Streams(specs, n, i - 1), (i - 1) % n;
    var changed := before[k := before[k] + [specs[i - 1]]];
    forall j | 0 <= j < n
      ensures Streams(specs, n, i)[j] == changed[j]
    {
      assert Stream(specs, n, j, i - 1) + [] == Stream(specs, n, j, i - 1);
    }
  }

  lemma {:induction false} NoStreams<T>(specs: seq<T>, n: nat)
    requires 0 < n
    ensures Streams(specs, n, 0) == seq(n, k => [])
  {
  }

  /** The streams share out the specifications: nothing is lost and nothing runs twice. */
  lemma {:induction false} StreamsPartition<T>(specs: seq<T>, n: nat, i: nat)
    requires 0 < n && i <= |specs|
    ensures Together(Streams(specs, n, i)) == multiset(specs[..i])
  {
    hide Together, Stream;
    if i == 0 {
      TogetherNothing<T>(n);
      NoStreams(specs, n);
    } else {
      StreamsPartition(specs, n, i - 1);
      var before, k := Streams(specs, n, i - 1), (i - 1) % n;
      TogetherUpdate(before, k, specs[i - 1]);
      NextStreams(specs, n, i);
      assert specs[..i] == specs[..i - 1] + [specs[i - 1]];
    }
  }

  /* ---------- the channel ---------- */

  /** The streams that have not sent yet, the buffered channel and what was received. */
  datatype Channel = Channel(running: set<nat>, buffer: seq<nat>, received: seq<nat>)

  function Everyone(n: nat): (all: set<nat>)
    ensures |all| == n && forall k: nat :: k in all <==> k < n
  {
    if n == 0 then {} else Everyone(n - 1) + {n - 1}
  }

  function Begin(n: nat): Channel {
    Channel(Everyone(n), [], [])
  }

  /** A stream sends its result once, when there is room. */
  ghost predicate Sends(c: Channel, d: Channel, n: nat, k: nat) {
    k in c.running && |c.buffer| < n && d == Channel(c.running - {k}, c.buffer + [k], c.received)
  }

  /** The main loop takes the next result until it has one of every stream. */
  ghost predicate Receives(c: Channel, d: Channel, n: nat) {
    |c.received| < n && c.buffer != [] && d == Channel(c.running, c.buffer[1..], c.received + [c.buffer[0]])
  }

  ghost predicate Step(c: Channel, d: Channel, n: nat) {
    Receives(c, d, n) || exists k :: k in c.running && Sends(c, d, n, k)
  }

  ghost predicate Run(states: seq<Channel>, n: nat) {
    && states != [] && states[0] == Begin(n)
    && forall i :: 0 <= i < |states| - 1 ==> Step(states[i], states[i + 1], n)
  }

  /** Every stream is running, in the buffer or received, and only once. */
  ghost predicate Conserved(c: Channel, n: nat) {
    && (forall k :: k in c.running ==> k < n)
    && multiset(c.running) + multiset(c.buffer) + multiset(c.received) == multiset(Everyone(n))
  }

  lemma {:induction false} ReceiveConserves(c: Channel, d: Channel, n: nat)
    requires Conserved(c, n) && Receives(c, d, n)
    ensures Conserved(d, n)
  {
    hide Everyone;
    var next := c.buffer[0];
    assert c.buffer == [next] + c.buffer[1..];
    assert multiset(c.buffer) == multiset{next} + multiset(d.buffer);
    assert multiset(d.received) == multiset(c.received) + multiset{next};
  }

  lemma {:induction false} SendConserves(c: Channel, d: Channel, n: nat, k: nat)
    requires Conserved(c, n) && Sends(c, d, n, k)
    ensures Conserved(d, n)
  {
    hide Everyone;
    assert multiset(c.running) == multiset(d.running) + multiset{k};
    assert multiset(d.buffer) == multiset(c.buffer) + multiset{k};
  }

  lemma {:induction false} StepConserves(c: Channel, d: Channel, n: nat)
    requires Conserved(c, n) && Step(c, d, n)
    ensures Conserved(d, n)
    ensures 2 * |d.running| + |d.buffer| < 2 * |c.running| + |c.buffer|
  {
    hide Conserved;
    if Receives(c, d, n) {
      ReceiveConserves(c, d, n);
    } else {
      var k :| k in c.running && Sends(c, d, n, k);
      SendConserves(c, d, n, k);
    }
  }

  lemma {:induction false} RunConserves(states: seq<Channel>, n: nat, i: nat)
    requires Run(states, n) && i < |states|
    ensures Conserved(states[i], n)
  {
    if i == 0 {
    } else {
      RunConserves(states, n, i - 1);
      StepConserves(states[i - 1], states[i - 1 + 1], n);
    }
  }

  lemma {:induction false} Counted(c: Channel, n: nat)
    requires Conserved(c, n)
    ensures |c.running| + |c.buffer| + |c.received| == n
  {
    assert |multiset(c.running) + multiset(c.buffer) + multiset(c.received)| == |Everyone(n)|;
  }

  /** A stream that still runs can send at once: nobody blocks. */
  lemma {:induction false} SendNeverBlocks(states: seq<Channel>, n: nat, i: nat, k: nat)
    requires Run(states, n) && i < |states| && k in states[i].running
    ensures |states[i].buffer| < n
  {
    RunConserves(states, n, i);
    Counted(states[i], n);
  }

  /** A run can go on until one result of every stream was received. */
  lemma {:induction false} NeverStuck(states: seq<Channel>, n: nat, i: nat)
    requires Run(states, n) && i < |states|
    ensures (exists d :: Step(states[i], d, n)) <==> |states[i].received| < n
  {
    var c := states[i];
    RunConserves(states, n, i);
    Counted(c, n);
    if |c.received| < n {
      if c.buffer != [] {
        assert Receives(c, Channel(c.running, c.buffer[1..], c.received + [c.buffer[0]]), n);
        assert Step(c, Channel(c.running, c.buffer[1..], c.received + [c.buffer[0]]), n);
      } else {
        var k :| k in c.running;
        assert Sends(c, Channel(c.running - {k}, c.buffer + [k], c.received), n, k);
        assert Step(c, Channel(c.running - {k}, c.buffer + [k], c.received), n);
      }
    }
  }

  /** When the main loop ends it has received every stream exactly once. */
  lemma {:induction false} AllArrive(states: seq<Channel>, n: nat, i: nat)
    requires Run(states, n) && i < |states| && |states[i].received| == n
    ensures multiset(states[i].received) == multiset(Everyone(n))
  {
    var c := states[i];
    RunConserves(states, n, i);
    Counted(c, n);
    assert c.running == {} && c.buffer == [];
  }
}
