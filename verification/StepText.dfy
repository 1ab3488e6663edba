/** The step text parser: a character machine that separates literal text from static
    ("..."), dynamic (<...>) and special (<kind:...>) parameters. */
module StepText {
  import opened Text

  datatype Kind = Static | Dynamic | Special

  /** What the parser writes into the step value in place of a parameter. */
  function Marker(k: Kind): string {
    match k
    case Static => "{static}"
    case Dynamic => "{dynamic}"
    case Special => "{special}"
  }

  datatype Mode = InDefault | InQuotes | InDynamicParam

  /** State of the machine. `kinds` records the kinds of the parameters read so far. */
  datatype Machine = Machine(
    value: string, args: seq<string>, kinds: seq<Kind>, arg: string,
    mode: Mode, special: bool, escaping: bool)
  {
    predicate Plain() { mode == InDefault && !special }

    function Write(c: char): Machine {
      if mode == InDefault then this.(value := value + [c]) else this.(arg := arg + [c])
    }

    function Emit(k: Kind): Machine {
      Machine(value + Marker(k), args + [arg], kinds + [k], "", InDefault, false, false)
    }
  }

  const START := Machine("", [], [], "", InDefault, false, false)

  datatype Error = ReservedCharacter | StringNotTerminated | ParameterNotTerminated

  datatype Result = Ok(value: string, args: seq<string>, kinds: seq<Kind>) | Err(error: Error)

  /** `getEscapedRuneIfValid`. */
  function Unescape(c: char): char {
    if c == 't' then '\t' else if c == 'n' then '\n' else c
  }

  /** One character; None for an unescaped brace in literal text. A colon sets the special
      bit in every mode, also in literal text, where it then disables all parameters. */
  function Next(m: Machine, c: char): Option<Machine> {
    if m.escaping then Some(m.(escaping := false).Write(Unescape(c)))
    else if c == '\\' then Some(m.(escaping := true))
    else
      var m := if c == ':' then m.(special := true) else m;
      if c == '<' && m.Plain() then Some(m.(mode := InDynamicParam))
      else if c == '>' && m.mode == InDynamicParam then Some(m.Emit(if m.special then Special else Dynamic))
      else if c == '"' && m.Plain() then Some(m.(mode := InQuotes))
      else if c == '"' && m.mode == InQuotes then Some(m.Emit(Static))
      else if c in "{}" && m.Plain() then None
      else Some(m.Write(c))
  }

  function Steps(m: Machine, text: string): Option<Machine>
    decreases |text|
  {
    if text == [] then Some(m)
    else match Next(m, text[0])
      case None => None
      case Some(m') => Steps(m', text[1..])
  }

  /** The checks after the last character. They look for the exact state "in quotes" and for
      the dynamic bit, so a pending escape or a colon inside the quotes hides the open quote. */
  function Finish(m: Machine): Result {
    if !m.escaping && m.mode == InQuotes && !m.special then Err(StringNotTerminated)
    else if !m.escaping && m.mode == InDynamicParam then Err(ParameterNotTerminated)
    else Ok(TrimSpace(m.value), m.args, m.kinds)
  }

  function Parse(text: string): Result {
    match Steps(START, text)
    case None => Err(ReservedCharacter)
    case Some(m) => Finish(m)
  }

  /* ---------- the bitmask loop ---------- */

  const IN_DEFAULT: bv8 := 1
  const IN_QUOTES: bv8 := 2
  const IN_ESCAPE: bv8 := 4
  const IN_DYNAMIC_PARAM: bv8 := 8
  const IN_SPECIAL_PARAM: bv8 := 16

  function ModeBits(m: Machine): bv8 {
    (match m.mode case InDefault => IN_DEFAULT case InQuotes => IN_QUOTES case InDynamicParam => IN_DYNAMIC_PARAM)
    | (if m.special then IN_SPECIAL_PARAM else 0)
  }

  /** `acceptor`: the next state and whether the character was a parameter boundary. */
  function Accept(start: char, end: char, c: char, state: bv8, inState: bv8): (r: (bv8, bool)) {
    if c == start && state == IN_DEFAULT then (inState, true)
    else if c == end && state & inState != 0 then (IN_DEFAULT, true)
    else (state, false)
  }

  method ProcessStepText(text: string) returns (r: Result)
    ensures r == Parse(text)
  {
    var stepValue, argText, args, kinds := "", "", [], [];
    var currentState, lastState := IN_DEFAULT, IN_DEFAULT;
    ghost var m := START;
    var i := 0;
    assert text[0..] == text;
    while i < |text|
      invariant 0 <= i <= |text|
      invariant Steps(START, text) == Steps(m, text[i..])
      invariant m.value == stepValue && m.arg == argText && m.args == args && m.kinds == kinds
      invariant if m.escaping then currentState == IN_ESCAPE && lastState == ModeBits(m)
                else currentState == ModeBits(m)
    {
      var element := text[i];
      i := i + 1;
      m := if Next(m, element).Some? then Next(m, element).value else m;
      if currentState == IN_ESCAPE {
        currentState := lastState;
        element := Unescape(element);
      } else if element == '\\' {
        lastState := currentState;
        currentState := IN_ESCAPE;
        continue;
      } else {
        if element == ':' {
          currentState := currentState | IN_SPECIAL_PARAM;
        }
        var before := currentState;
        var (afterDynamic, inDynamicBoundary) := Accept('<', '>', element, currentState, IN_DYNAMIC_PARAM);
        currentState := afterDynamic;
        if inDynamicBoundary {
          if currentState == IN_DEFAULT {
            var kind := if before & IN_SPECIAL_PARAM != 0 then Special else Dynamic;
            stepValue, args, kinds, argText := stepValue + Marker(kind), args + [argText], kinds + [kind], "";
          }
          continue;
        }
        var (afterStatic, inStaticBoundary) := Accept('"', '"', element, currentState, IN_QUOTES);
        currentState := afterStatic;
        if inStaticBoundary {
          if currentState == IN_DEFAULT {
            stepValue, args, kinds, argText := stepValue + Marker(Static), args + [argText], kinds + [Static], "";
          }
          continue;
        }
        if currentState == IN_DEFAULT && element in "{}" {
          return Err(ReservedCharacter);
        }
      }
      if currentState & (IN_QUOTES | IN_DYNAMIC_PARAM) != 0 {
        argText := argText + [element];
      } else {
        stepValue := stepValue + [element];
      }
    }
    if currentState == IN_QUOTES {
      return Err(StringNotTerminated);
    } else if currentState & IN_DYNAMIC_PARAM != 0 {
      return Err(ParameterNotTerminated);
    }
    return Ok(TrimSpace(stepValue), args, kinds);
  }

  /* ---------- facts about the machine ---------- */

  lemma {:induction false} StepsAppend(m: Machine, a: string, b: string)
    ensures Steps(m, a + b) == match Steps(m, a) case None => None case Some(m') => Steps(m', b)
    decreases |a|
  {
    if a == [] {
      assert a + b == b;
    } else {
      assert (a + b)[1..] == a[1..] + b;
      match Next(m, a[0])
      case None =>
      case Some(m') => StepsAppend(m', a[1..], b);
    }
  }

  /** Once a bare colon stood in literal text, the rest of the text is read without error and
      no parameter is recognised in it, whatever it contains. */
  lemma {:induction false} ColonDisablesParameters(m: Machine, text: string)
    requires m.mode == InDefault && m.special
    ensures var r := Steps(m, text);
            && r.Some? && r.value.args == m.args && r.value.kinds == m.kinds
            && r.value.mode == InDefault && r.value.special
            && Finish(r.value).Ok?
    decreases |text|
  {
    if text != [] {
      ColonDisablesParameters(Next(m, text[0]).value, text[1..]);
    }
  }

  /** Character `i` is a bare colon in literal text. */
  predicate BareColon(text: string, i: nat)
    requires i < |text|
  {
    && text[i] == ':' && Steps(START, text[..i]).Some?
    && var m := Steps(START, text[..i]).value; m.mode == InDefault && !m.escaping
  }

  /** The mark that disables parameters stands exactly behind a bare colon in literal text. */
  lemma {:induction false} BareColonIsSeen(text: string, n: nat)
    requires n <= |text| && Steps(START, text[..n]).Some?
    ensures var m := Steps(START, text[..n]).value;
            (exists i :: 0 <= i < n && BareColon(text, i)) <==> m.mode == InDefault && m.special
  {
    if n > 0 {
      assert text[..n] == text[..n - 1] + [text[n - 1]];
      StepsAppend(START, text[..n - 1], [text[n - 1]]);
      BareColonIsSeen(text, n - 1);
      OneStep(Steps(START, text[..n - 1]).value, text[n - 1]);
      assert (exists i :: 0 <= i < n && BareColon(text, i)) <==>
             (exists i :: 0 <= i < n - 1 && BareColon(text, i)) || BareColon(text, n - 1);
    }
  }

  lemma {:induction false} OneStep(m: Machine, c: char)
    ensures Steps(m, [c]) == Next(m, c)
    ensures Next(m, c).Some? ==>
              var m' := Next(m, c).value;
              (m'.mode == InDefault && m'.special <==>
               m.mode == InDefault && (m.special || (c == ':' && !m.escaping)))
  {
    assert [c][1..] == [];
    if Next(m, c).Some? {
      assert Steps(Next(m, c).value, []) == Some(Next(m, c).value);
    }
  }

  /** In literal text a quote or an angle bracket starts a parameter exactly when no bare colon in
      literal text came before it. */
  lemma {:induction false} ParameterStartsIff(before: string, c: char)
    requires c == '"' || c == '<'
    requires Steps(START, before).Some?
    requires Steps(START, before).value.mode == InDefault && !Steps(START, before).value.escaping
    ensures Steps(START, before + [c]).Some?
    ensures Steps(START, before + [c]).value.mode != InDefault <==>
            !exists i :: 0 <= i < |before| && BareColon(before, i)
  {
    assert before[..|before|] == before;
    BareColonIsSeen(before, |before|);
    StepsAppend(START, before, [c]);
    OneStep(Steps(START, before).value, c);
  }

  lemma {:induction false} StepsCons(m: Machine, c: char, rest: string)
    requires Next(m, c).Some?
    ensures Steps(m, [c] + rest) == Steps(Next(m, c).value, rest)
  {
    assert ([c] + rest)[1..] == rest;
  }

  /** A quoted letter after a blank: an argument, or text when parameters are disabled. */
  lemma {:induction false} QuotedLetter(m: Machine)
    requires !m.escaping && m.mode == InDefault && m.arg == ""
    ensures Steps(m, " \"b\"") ==
            Some(if m.special then m.(value := m.value + " \"b\"")
                 else m.(value := m.value + " {static}", args := m.args + ["b"], kinds := m.kinds + [Static]))
  {
    var m1 := m.(value := m.value + " ");
    var m2 := if m.special then m1.(value := m1.value + "\"") else m1.(mode := InQuotes);
    var m3 := if m.special then m2.(value := m2.value + "b") else m2.(arg := "b");
    var m4 := if m.special then m3.(value := m3.value + "\"") else m3.Emit(Static);
    StepsCons(m, ' ', "\"b\"");
    StepsCons(m1, '"', "b\"");
    StepsCons(m2, 'b', "\"");
    StepsCons(m3, '"', "");
    assert " \"b\"" == [' '] + "\"b\"" && "\"b\"" == ['"'] + "b\"" && "b\"" == ['b'] + "\"" && "\"" == ['"'] + "";
    assert m.arg + ['b'] == "b";
    assert Next(m, ' ') == Some(m1) && Next(m1, '"') == Some(m2);
    assert Next(m2, 'b') == Some(m3) && Next(m3, '"') == Some(m4);
    assert m4.value == m.value + if m.special then " \"b\"" else " {static}";
    assert Steps(m4, "") == Some(m4);
  }

  lemma {:induction false} BeforeArgument()
    ensures Steps(START, "a \"b\"") == Steps(START.(value := "a"), " \"b\"")
    ensures Steps(START, "a: \"b\"") == Steps(START.(value := "a:", special := true), " \"b\"")
  {
    hide Steps;
    var plain, marked := START.(value := "a"), START.(value := "a:", special := true);
    assert START.value + ['a'] == "a" && plain.value + [':'] == "a:";
    assert Next(START, 'a') == Some(plain) && Next(plain, ':') == Some(marked);
    StepsCons(START, 'a', " \"b\"");
    StepsCons(START, 'a', ": \"b\"");
    StepsCons(plain, ':', " \"b\"");
    assert "a \"b\"" == ['a'] + " \"b\"" && "a: \"b\"" == ['a'] + ": \"b\"" && ": \"b\"" == [':'] + " \"b\"";
  }

  /** With a colon in front a quoted argument is part of the text. */
  lemma {:induction false} ColonHidesArgument()
    ensures Parse("a \"b\"") == Ok("a {static}", ["b"], [Static])
    ensures Parse("a: \"b\"") == Ok("a: \"b\"", [], [])
  {
    hide Steps, TrimSpace, Next;
    BeforeArgument();
    QuotedLetter(START.(value := "a"));
    QuotedLetter(START.(value := "a:", special := true));
    TrimSpaceIsIdentity("a {static}");
    TrimSpaceIsIdentity("a: \"b\"");
    assert "a" + " {static}" == "a {static}" && "a:" + " \"b\"" == "a: \"b\"";
    assert [] + ["b"] == ["b"] && [] + [Static] == [Static];
  }

  /** A character is in the text without a backslash in front. */
  predicate HasUnescaped(c: char, s: string)
    decreases |s|
  {
    s != "" && if s[0] == '\\' then |s| > 1 && HasUnescaped(c, s[2..]) else s[0] == c || HasUnescaped(c, s[1..])
  }

  /** The last character is a backslash that escapes nothing. */
  predicate EndsInEscape(s: string)
    decreases |s|
  {
    s != "" && if s[0] == '\\' then |s| == 1 || EndsInEscape(s[2..]) else EndsInEscape(s[1..])
  }

  /** A quote that opens an argument which nothing closes is reported only when no bare colon
      follows it and the text does not end inside an escape. Otherwise the step is accepted and
      all that follows the quote is lost. */
  lemma {:induction false} OpenQuoteGoesUnnoticed(before: string, s: string)
    requires Steps(START, before).Some? && Steps(START, before).value.Plain() && !Steps(START, before).value.escaping
    requires !HasUnescaped('"', s)
    ensures var m := Steps(START, before).value;
            Parse(before + "\"" + s) ==
            if HasUnescaped(':', s) || EndsInEscape(s) then Ok(TrimSpace(m.value), m.args, m.kinds)
            else Err(StringNotTerminated)
  {
    var m := Steps(START, before).value;
    StepsAppend(START, before, "\"" + s);
    assert before + "\"" + s == before + ("\"" + s) && ("\"" + s)[1..] == s;
    ReadInsideQuotes(m.(mode := InQuotes), s);
  }

  lemma {:induction false} ReadInsideQuotes(m: Machine, s: string)
    requires m.mode == InQuotes && !m.escaping && !HasUnescaped('"', s)
    ensures var r := Steps(m, s);
            && r.Some? && r.value.value == m.value && r.value.args == m.args && r.value.kinds == m.kinds
            && r.value.mode == InQuotes && r.value.special == (m.special || HasUnescaped(':', s))
            && r.value.escaping == EndsInEscape(s)
    decreases |s|
  {
    if s != "" {
      var next := Next(m, s[0]).value;
      if s[0] != '\\' {
        ReadInsideQuotes(next, s[1..]);
      } else if |s| > 1 {
        assert s[1..][1..] == s[2..];
        ReadInsideQuotes(Next(next, s[1]).value, s[2..]);
      }
    }
  }

  /* ---------- markers in the parsed value ---------- */

  predicate AtMarker(s: string) {
    Marker(Static) <= s || Marker(Dynamic) <= s || Marker(Special) <= s
  }

  function FirstKind(s: string): (k: Kind)
    requires AtMarker(s)
    ensures Marker(k) <= s && |Marker(k)| > 0
  {
    if Marker(Static) <= s then Static else if Marker(Dynamic) <= s then Dynamic else Special
  }

  /** `extractStepValueAndParameterTypes`: markers from left to right, each replaced by `{}`. */
  function Extract(s: string): (r: (string, seq<Kind>))
    decreases |s|
  {
    if s == [] then ("", [])
    else if AtMarker(s) then
      var k := FirstKind(s);
      Prepend("{}", [k], Extract(s[|Marker(k)|..]))
    else Prepend([s[0]], [], Extract(s[1..]))
  }

  function Prepend(text: string, kinds: seq<Kind>, r: (string, seq<Kind>)): (string, seq<Kind>) {
    (text + r.0, kinds + r.1)
  }

  function Kinds(s: string): seq<Kind> {
    Extract(s).1
  }

  lemma {:induction false} MarkerShape(k: Kind)
    ensures |Marker(k)| >= 8 && Marker(k)[0] == '{' && Marker(k)[|Marker(k)| - 1] == '}'
    ensures forall i :: 1 <= i < |Marker(k)| ==> Marker(k)[i] != '{'
    ensures forall i :: 0 <= i < |Marker(k)| ==> !IsSpace(Marker(k)[i])
    ensures forall i :: 0 <= i < |Marker(k)| - 1 ==> Marker(k)[i] != '}'
  {
  }

  /** What stands at the front of a string decides the first step of `Extract`. */
  lemma {:induction false} MarkerInFront(k: Kind, s: string)
    ensures Extract(Marker(k) + s) == Prepend("{}", [k], Extract(s))
  {
    var t := Marker(k) + s;
    assert t[|Marker(k)|..] == s && Marker(k) <= t;
    assert t[2] == Marker(k)[2];
  }

  lemma {:induction false} NoBraceNoMarker(s: string)
    requires '{' !in s
    ensures Extract(s) == (s, [])
    decreases |s|
  {
    if s != [] {
      assert s[0] in s && s[0] != '{';
      assert !AtMarker(s);
      NoBraceNoMarker(s[1..]);
      assert Extract(s).0 == s;
      assert Extract(s).1 == [];
    }
  }

  lemma {:induction false} NoMarkerAcross(s: string, j: Kind, k: Kind)
    requires s != [] && !(Marker(j) <= s)
    ensures !(Marker(j) <= s + Marker(k))
  {
    hide Marker;
    MarkerShape(j);
    MarkerShape(k);
    var t := s + Marker(k);
    if |s| < |Marker(j)| {
      assert t[|s|] == '{' != Marker(j)[|s|];
    } else {
      assert t[..|Marker(j)|] == s[..|Marker(j)|];
    }
  }

  lemma {:induction false} NoneAcross(s: string, k: Kind)
    requires s != [] && !AtMarker(s)
    ensures !AtMarker(s + Marker(k))
  {
    hide Marker;
    NoMarkerAcross(s, Static, k);
    NoMarkerAcross(s, Dynamic, k);
    NoMarkerAcross(s, Special, k);
  }

  lemma {:induction false} KindsAppendMarker(s: string, k: Kind)
    ensures Kinds(s + Marker(k)) == Kinds(s) + [k]
    decreases |s|
  {
    hide Marker, AtMarker, FirstKind;
    var t := s + Marker(k);
    if s == [] {
      MarkerInFront(k, "");
      assert t == Marker(k) + "";
    } else if AtMarker(s) {
      var j := FirstKind(s);
      var rest := s[|Marker(j)|..];
      KindsAppendMarker(rest, k);
      MarkerInFront(j, rest + Marker(k));
      assert t == Marker(j) + (rest + Marker(k));
    } else {
      NoneAcross(s, k);
      KindsAppendMarker(s[1..], k);
      assert t[1..] == s[1..] + Marker(k);
    }
  }

  lemma {:induction false} SingleChar(c: char)
    ensures Kinds([c]) == [] && Kinds("") == []
  {
    assert [c][1..] == "" && Extract("") == ("", []);
    assert !AtMarker([c]);
    assert Extract([c]) == Prepend([c], [], Extract(""));
  }

  lemma {:induction false} CompletedMarker(s: string, c: char)
    requires s != [] && !AtMarker(s) && AtMarker(s + [c])
    ensures c == '}' && Kinds(s) == [] && Kinds(s + [c]) == [FirstKind(s + [c])]
  {
    var t := s + [c];
    var j := FirstKind(t);
    MarkerShape(j);
    assert |s| >= |Marker(j)| ==> Marker(j) <= s;
    assert t == Marker(j) + "";
    MarkerInFront(j, "");
    assert s == Marker(j)[..|s|];
    NoBraceNoMarker(s[1..]);
  }

  /** One more character completes at most one more marker, at the end. */
  lemma {:induction false} KindsAppendChar(s: string, c: char)
    ensures Kinds(s + [c]) == Kinds(s) || (c == '}' && exists k :: Kinds(s + [c]) == Kinds(s) + [k])
    decreases |s|
  {
    hide Marker, AtMarker, FirstKind;
    var t := s + [c];
    if s == [] {
      assert t == [c];
      SingleChar(c);
    } else if AtMarker(s) {
      var j := FirstKind(s);
      var rest := s[|Marker(j)|..];
      KindsAppendChar(rest, c);
      MarkerInFront(j, rest + [c]);
      assert t == Marker(j) + (rest + [c]);
      if Kinds(t) != Kinds(s) {
        var k :| Kinds(rest + [c]) == Kinds(rest) + [k];
        assert Kinds(t) == Kinds(s) + [k];
      }
    } else if AtMarker(t) {
      CompletedMarker(s, c);
    } else {
      assert t[1..] == s[1..] + [c];
      KindsAppendChar(s[1..], c);
      if Kinds(t) != Kinds(s) {
        var k :| Kinds(s[1..] + [c]) == Kinds(s[1..]) + [k];
        assert Kinds(t) == Kinds(s) + [k];
      }
    }
  }

  lemma {:induction false} TrimKeepsKinds(s: string)
    ensures Kinds(TrimSpace(s)) == Kinds(s)
  {
    TrimLeftKeepsKinds(s);
    TrimRightKeepsKinds(TrimLeft(s));
  }

  lemma {:induction false} TrimLeftKeepsKinds(s: string)
    ensures Kinds(TrimLeft(s)) == Kinds(s)
    decreases |s|
  {
    if s != [] && IsSpace(s[0]) {
      assert !AtMarker(s);
      TrimLeftKeepsKinds(s[1..]);
    }
  }

  lemma {:induction false} TrimRightKeepsKinds(s: string)
    ensures Kinds(TrimRight(s)) == Kinds(s)
    decreases |s|
  {
    if s != [] && IsSpace(s[|s| - 1]) {
      var front := s[..|s| - 1];
      KindsAppendChar(front, s[|s| - 1]);
      assert s == front + [s[|s| - 1]];
      TrimRightKeepsKinds(front);
    }
  }

  /* ---------- markers and arguments ---------- */

  predicate Subsequence(a: seq<Kind>, b: seq<Kind>)
    decreases |b|
  {
    a == [] ||
    (b != [] &&
     ((a[|a| - 1] == b[|b| - 1] && Subsequence(a[..|a| - 1], b[..|b| - 1])) || Subsequence(a, b[..|b| - 1])))
  }

  lemma {:induction false} SubsequenceLength(a: seq<Kind>, b: seq<Kind>)
    requires Subsequence(a, b)
    ensures |a| <= |b| && (|a| == |b| ==> a == b)
    decreases |b|
  {
    if a != [] {
      var b' := b[..|b| - 1];
      if a[|a| - 1] == b[|b| - 1] && Subsequence(a[..|a| - 1], b') {
        SubsequenceLength(a[..|a| - 1], b');
        assert a == a[..|a| - 1] + [a[|a| - 1]] && b == b' + [b[|b| - 1]];
      } else {
        SubsequenceLength(a, b');
      }
    }
  }

  ghost predicate MarkersCover(m: Machine) {
    |m.kinds| == |m.args| && Subsequence(m.kinds, Kinds(m.value))
  }

  lemma {:induction false} SubsequenceExtend(a: seq<Kind>, b: seq<Kind>, k: Kind)
    requires Subsequence(a, b)
    ensures Subsequence(a, b + [k]) && Subsequence(a + [k], b + [k])
  {
    assert (b + [k])[..|b|] == b && (a + [k])[..|a|] == a;
  }

  lemma {:induction false} StepKeepsMarkersCover(m: Machine, c: char)
    requires MarkersCover(m) && Next(m, c).Some?
    ensures MarkersCover(Next(m, c).value)
  {
    hide Marker, Extract, Subsequence, Kinds, Unescape;
    var m' := Next(m, c).value;
    if m'.kinds != m.kinds {
      var k := m'.kinds[|m.kinds|];
      KindsAppendMarker(m.value, k);
      SubsequenceExtend(m.kinds, Kinds(m.value), k);
    } else if m'.value != m.value {
      KindsAppendChar(m.value, m'.value[|m.value|]);
      if Kinds(m'.value) != Kinds(m.value) {
        var k :| Kinds(m'.value) == Kinds(m.value) + [k];
        SubsequenceExtend(m.kinds, Kinds(m.value), k);
      }
    }
  }

  lemma {:induction false} RunKeepsMarkersCover(m: Machine, text: string)
    requires MarkersCover(m) && Steps(m, text).Some?
    ensures MarkersCover(Steps(m, text).value)
    decreases |text|
  {
    if text != [] {
      StepKeepsMarkersCover(m, text[0]);
      RunKeepsMarkersCover(Next(m, text[0]).value, text[1..]);
    }
  }

  /** The length test of `createStepUsingLookup`. */
  predicate AcceptsMarkers(r: Result)
    requires r.Ok?
  {
    Kinds(r.value) == [] || |Kinds(r.value)| == |r.args|
  }

  /** For every text: a parsed value has at least as many markers as there are arguments, and
      when the step is accepted, marker `i` is the one written for argument `i`. */
  lemma {:induction false} MarkersMatchArguments(text: string)
    requires Parse(text).Ok?
    ensures var r := Parse(text);
            && |r.args| == |r.kinds| <= |Kinds(r.value)|
            && (AcceptsMarkers(r) <==> Kinds(r.value) == r.kinds)
  {
    RunKeepsMarkersCover(START, text);
    var m := Steps(START, text).value;
    TrimKeepsKinds(m.value);
    SubsequenceLength(m.kinds, Kinds(m.value));
  }
}
