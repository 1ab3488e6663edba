/** Splitting the text of a step at its placeholders. */
module Fragments {
  import opened Text
  import opened StepFormat

  /** What of a step decides whether its text can be split: its placeholders, and which of its
      arguments can be shown. */
  datatype Shape = Shape(holes: nat, shown: seq<bool>)

  /** A step without arguments is not split; otherwise every placeholder needs an argument that
      can be shown. */
  predicate Fits(shape: Shape) {
    shape.shown == [] || (shape.holes <= |shape.shown| && forall k :: 0 <= k < shape.holes ==> shape.shown[k])
  }

  /** A piece of text, or the parameter at an index. */
  datatype Fragment = TextFragment(text: string) | ParameterFragment(index: nat)

  /** Where the placeholders of `s` from position `i` on begin. */
  function HoleStarts(s: string, i: nat): (starts: seq<nat>)
    requires i <= |s|
    ensures |starts| == CountHoles(s[i..])
    ensures forall k :: 0 <= k < |starts| ==>
            i <= starts[k] && starts[k] + 2 <= |s| && s[starts[k]..starts[k] + 2] == "{}"
    ensures forall j, k :: 0 <= j < k < |starts| ==> starts[j] + 2 <= starts[k]
    decreases |s| - i
  {
    if i == |s| then []
    else
      assert s[i..][1..] == s[i + 1..];
      if HoleInFront(s[i..]) then
        assert s[i..][2..] == s[i + 2..];
        [i] + HoleStarts(s, i + 2)
      else HoleStarts(s, i + 1)
  }

  /** The text with a placeholder for every parameter. */
  function Joined(fragments: seq<Fragment>): string {
    if fragments == [] then ""
    else
      var last := fragments[|fragments| - 1];
      Joined(fragments[..|fragments| - 1]) + if last.TextFragment? then last.text else "{}"
  }

  /** The parameters in the order in which they occur. */
  function Parameters(fragments: seq<Fragment>): seq<nat> {
    if fragments == [] then []
    else
      var last := fragments[|fragments| - 1];
      Parameters(fragments[..|fragments| - 1]) + if last.ParameterFragment? then [last.index] else []
  }

  function UpTo(n: nat): seq<nat> {
    if n == 0 then [] else UpTo(n - 1) + [n - 1]
  }

  lemma {:induction false} Push(fragments: seq<Fragment>, f: Fragment)
    ensures Joined(fragments + [f]) == Joined(fragments) + (if f.TextFragment? then f.text else "{}")
    ensures Parameters(fragments + [f]) == Parameters(fragments) + (if f.ParameterFragment? then [f.index] else [])
  {
    assert (fragments + [f])[..|fragments|] == fragments;
  }

  lemma {:induction false} Piece(s: string, a: nat, b: nat)
    requires a <= b <= |s|
    ensures s[..a] + s[a..b] == s[..b]
  {
  }

  /** The text between two placeholders, unless there is none. */
  method AddText(fragments: seq<Fragment>, value: string, start: nat, end: nat) returns (r: seq<Fragment>)
    requires start <= end <= |value| && Joined(fragments) == value[..start]
    ensures Joined(r) == value[..end] && Parameters(r) == Parameters(fragments)
  {
    hide Joined, Parameters;
    r := fragments;
    if start < end {
      Push(fragments, TextFragment(value[start..end]));
      Piece(value, start, end);
      r := fragments + [TextFragment(value[start..end])];
    }
  }

  /** `populateFragments` for a step with `n` arguments. None when an argument is missing, where
      the program stops with an index out of range. */
  method PopulateFragments(value: string, n: nat) returns (r: Option<seq<Fragment>>)
    ensures r.None? <==> 0 < n < CountHoles(value)
    ensures r.Some? ==> Joined(r.value) == value
    ensures r.Some? ==> Parameters(r.value) == if n == 0 then [] else UpTo(CountHoles(value))
  {
    hide Joined, Parameters, HoleStarts, CountHoles;
    assert value[0..] == value;
    var starts := HoleStarts(value, 0);
    var fragments: seq<Fragment> := [];
    Empty();
    if n == 0 {
      Push([], TextFragment(value));
      assert [] + [TextFragment(value)] == [TextFragment(value)] && "" + value == value;
      return Some([TextFragment(value)]);
    }
    var textStart := 0;
    for k := 0 to |starts|
      invariant textStart == if k == 0 then 0 else starts[k - 1] + 2
      invariant k <= n && textStart <= |value|
      invariant Joined(fragments) == value[..textStart] && Parameters(fragments) == UpTo(k)
    {
      fragments := AddText(fragments, value, textStart, starts[k]);
      if k >= n {
        return None;
      }
      Push(fragments, ParameterFragment(k));
      Piece(value, starts[k], starts[k] + 2);
      fragments := fragments + [ParameterFragment(k)];
      textStart := starts[k] + 2;
    }
    fragments := AddText(fragments, value, textStart, |value|);
    assert value[..|value|] == value;
    return Some(fragments);
  }

  lemma {:induction false} Empty()
    ensures Joined([]) == "" && Parameters([]) == []
  {
  }

  /** An inline table adds one placeholder at the end. */
  lemma {:induction false} TableAddsHole(value: string)
    ensures CountHoles(value + " {}") == CountHoles(value) + 1
  {
    if value == "" {
      assert "" + " {}" == " {}" && " {}"[1..] == "{}" && "{}"[2..] == "";
    } else if HoleInFront(value) {
      assert (value + " {}")[2..] == value[2..] + " {}";
      TableAddsHole(value[2..]);
    } else {
      assert (value + " {}")[1..] == value[1..] + " {}";
      assert !HoleInFront(value + " {}");
      TableAddsHole(value[1..]);
    }
  }
}
