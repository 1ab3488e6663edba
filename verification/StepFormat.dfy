/** The step printer and its round trip through the step text parser. */
module StepFormat {
  import opened Text
  import opened StepText

  /* ---------- strconv.Quote ---------- */

  /** `unicode.IsPrint`; its tables beyond ASCII are the parameter `printable`. */
  predicate IsPrint(c: char, printable: char -> bool) {
    if c < '\U{80}' then ' ' <= c <= '~' else printable(c)
  }

  function HexDigits(n: nat, count: nat): (s: string)
    ensures |s| == count && NoneOf(s, "\\\"<>{}:")
  {
    if count == 0 then "" else HexDigits(n / 16, count - 1) + ["0123456789abcdef"[n % 16]]
  }

  function QuoteChar(c: char, printable: char -> bool): string {
    if c == '"' || c == '\\' then ['\\', c]
    else if IsPrint(c, printable) then [c]
    else if c == '\n' then "\\n"
    else if c == '\t' then "\\t"
    else if c == '\r' then "\\r"
    else if c == '\U{7}' then "\\a"
    else if c == '\U{8}' then "\\b"
    else if c == '\U{B}' then "\\v"
    else if c == '\U{C}' then "\\f"
    else if c < ' ' || c == '\U{7F}' then "\\x" + HexDigits(c as int, 2)
    else if c < '\U{10000}' then "\\u" + HexDigits(c as int, 4)
    else "\\U" + HexDigits(c as int, 8)
  }

  /** `getUnescapedString`: the quoted form without its quotes. */
  function Quote(s: string, printable: char -> bool): string {
    if s == "" then "" else QuoteChar(s[0], printable) + Quote(s[1..], printable)
  }

  /* ---------- formatStep ---------- */

  datatype StepArg = StepArg(kind: Kind, name: string, value: string) {
    /** Special parameters are printed by name, all others by value. */
    function Text(): string { if kind == Special then name else value }
  }

  function FormatArg(arg: StepArg, printable: char -> bool): string {
    match arg.kind
    case Static => "\"" + Quote(arg.value, printable) + "\""
    case Dynamic => "<" + Quote(arg.value, printable) + ">"
    case Special => "<" + Quote(arg.name, printable) + ">"
  }

  predicate HoleInFront(s: string) {
    |s| >= 2 && s[0] == '{' && s[1] == '}'
  }

  /** `strings.Count(text, "{}")`. */
  function CountHoles(s: string): nat {
    if s == "" then 0 else if HoleInFront(s) then 1 + CountHoles(s[2..]) else CountHoles(s[1..])
  }

  /** `strings.Replace(text, "{}", by, 1)`. */
  function ReplaceHole(s: string, with: string): string {
    if s == "" then "" else if HoleInFront(s) then with + s[2..] else [s[0]] + ReplaceHole(s[1..], with)
  }

  function Fill(s: string, fills: seq<string>): string
    decreases |fills|
  {
    if fills == [] then s else Fill(ReplaceHole(s, fills[0]), fills[1..])
  }

  function Formats(args: seq<StepArg>, printable: char -> bool): seq<string> {
    seq(|args|, i requires 0 <= i < |args| => FormatArg(args[i], printable))
  }

  /** How `generateTokens` recognises a step line and takes its text. */
  function StepTextOfLine(line: string): Option<string> {
    var t := TrimSpace(line);
    if t != "" && t[0] == '*' && (|t| == 1 || t[1] != '*') then Some(TrimSpace(t[1..])) else None
  }

  /* ---------- literal text with something in the places of the parameters ---------- */

  function Weave(texts: seq<string>, fills: seq<string>): string
    requires |texts| == |fills| + 1
    decreases |fills|
  {
    if fills == [] then texts[0] else texts[0] + (fills[0] + Weave(texts[1..], fills[1..]))
  }

  function Holes(n: nat): seq<string> {
    seq(n, i => "{}")
  }

  function Markers(kinds: seq<Kind>): seq<string> {
    seq(|kinds|, i requires 0 <= i < |kinds| => Marker(kinds[i]))
  }

  function KindsOf(args: seq<StepArg>): seq<Kind> {
    seq(|args|, i requires 0 <= i < |args| => args[i].kind)
  }

  /** No hole inside, and no brace at the end that could open one. */
  ghost predicate Clean(s: string) {
    forall i :: 0 <= i < |s| && s[i] == '{' ==> i + 1 < |s| && s[i + 1] != '}'
  }

  ghost predicate NoHole(s: string) {
    forall i :: 0 <= i < |s| - 1 ==> s[i] != '{' || s[i + 1] != '}'
  }

  /** Literal text that the printer may write as it is. */
  ghost predicate Literal(s: string) {
    NoneOf(s, "\\\"<{}:")
  }

  /** What the printed form of a parameter relies on. */
  ghost predicate Writable(arg: StepArg) {
    && NoHole(arg.Text())
    && (arg.kind != Static ==> '>' !in arg.Text())
    && (arg.kind == Dynamic ==> ':' !in arg.Text())
    && (arg.kind == Special ==> ':' in arg.Text())
  }

  /* ---------- the printer ---------- */

  lemma {:induction false} CleanAppend(a: string, b: string)
    requires Clean(a) && Clean(b)
    ensures Clean(a + b)
  {
  }

  lemma {:induction false} ReplaceFirstHole(p: string, rest: string, with: string)
    requires Clean(p)
    ensures ReplaceHole(p + ("{}" + rest), with) == p + (with + rest)
  {
    var s := p + ("{}" + rest);
    if p == "" {
      assert s == "{}" + rest;
    } else {
      assert s[0] == p[0] && (p[0] == '{' ==> s[1] == p[1]);
      assert s[1..] == p[1..] + ("{}" + rest);
      ReplaceFirstHole(p[1..], rest, with);
    }
  }

  lemma {:induction false} FillIsWeave(p: string, texts: seq<string>, fills: seq<string>)
    requires |texts| == |fills| + 1 && Clean(p)
    requires forall t :: t in texts ==> Literal(t)
    requires forall f :: f in fills ==> Clean(f)
    ensures Fill(p + Weave(texts, Holes(|fills|)), fills) == p + Weave(texts, fills)
    decreases |fills|
  {
    if fills != [] {
      var n := |fills|;
      assert Holes(n)[1..] == Holes(n - 1);
      var rest := Weave(texts[1..], Holes(n - 1));
      assert texts[0] in texts && fills[0] in fills;
      CleanAppend(p, texts[0]);
      ReplaceFirstHole(p + texts[0], rest, fills[0]);
      assert p + (texts[0] + ("{}" + rest)) == (p + texts[0]) + ("{}" + rest);
      var p' := p + texts[0] + fills[0];
      CleanAppend(p + texts[0], fills[0]);
      assert (p + texts[0]) + (fills[0] + rest) == p' + rest;
      FillIsWeave(p', texts[1..], fills[1..]);
      assert p' + Weave(texts[1..], fills[1..]) == p + (texts[0] + (fills[0] + Weave(texts[1..], fills[1..])));
    }
  }

  lemma {:induction false} CountInText(t: string, rest: string)
    requires Clean(t)
    ensures CountHoles(t + rest) == CountHoles(rest)
  {
    if t == "" {
      assert t + rest == rest;
    } else {
      assert (t + rest)[1..] == t[1..] + rest;
      assert (t + rest)[0] == t[0] && (t[0] == '{' ==> (t + rest)[1] == t[1]);
      CountInText(t[1..], rest);
    }
  }

  lemma {:induction false} CountOfWeave(texts: seq<string>)
    requires texts != [] && forall t :: t in texts ==> Literal(t)
    ensures CountHoles(Weave(texts, Holes(|texts| - 1))) == |texts| - 1
  {
    assert texts[0] in texts;
    var n := |texts| - 1;
    if n == 0 {
      CountInText(texts[0], "");
      assert texts[0] + "" == texts[0];
    } else {
      assert Holes(n)[1..] == Holes(n - 1);
      var rest := Weave(texts[1..], Holes(n - 1));
      CountInText(texts[0], "{}" + rest);
      assert ("{}" + rest)[2..] == rest;
      CountOfWeave(texts[1..]);
    }
  }

  lemma {:induction false} QuoteKeepsNoHole(s: string, printable: char -> bool)
    requires NoHole(s)
    ensures NoHole(Quote(s, printable))
    ensures s != "" ==> Quote(s, printable) != "" && (Quote(s, printable)[0] == '}' <==> s[0] == '}')
  {
    if s != "" {
      forall i | 0 <= i < |s[1..]| - 1 ensures s[1..][i] != '{' || s[1..][i + 1] != '}' {
        assert s[i + 1] != '{' || s[i + 2] != '}';
      }
      QuoteKeepsNoHole(s[1..], printable);
      var q, rest := QuoteChar(s[0], printable), Quote(s[1..], printable);
      forall i | 0 <= i < |q + rest| - 1 ensures (q + rest)[i] != '{' || (q + rest)[i + 1] != '}' {
        if i >= |q| {
          assert rest[i - |q|] != '{' || rest[i - |q| + 1] != '}';
        } else if q[i] == '{' {
          assert i == 0 && q == [s[0]];
          assert |s| > 1 ==> s[1] != '}';
        }
      }
    }
  }

  lemma {:induction false} FormatIsClean(arg: StepArg, printable: char -> bool)
    requires NoHole(arg.Text())
    ensures Clean(FormatArg(arg, printable))
  {
    QuoteKeepsNoHole(arg.Text(), printable);
  }

  /* ---------- the parser on printed text ---------- */

  /** What the parser reads from the quoted form of a character. */
  function ReadBackChar(c: char, printable: char -> bool): string {
    var q := QuoteChar(c, printable);
    if |q| > 1 then [Unescape(q[1])] + q[2..] else q
  }

  function ReadBack(s: string, printable: char -> bool): string {
    if s == "" then "" else ReadBackChar(s[0], printable) + ReadBack(s[1..], printable)
  }

  /** Characters that survive quoting and reading back. */
  predicate Quotable(c: char, printable: char -> bool) {
    IsPrint(c, printable) || c == '\n' || c == '\t'
  }

  lemma {:induction false} ReadPlain(m: Machine, s: string)
    requires m.mode != InDefault && !m.escaping && NoneOf(s, "\\\"<>{}:")
    ensures Steps(m, s) == Some(m.(arg := m.arg + s))
    decreases |s|
  {
    if s == "" {
      assert m.arg + s == m.arg;
    } else {
      assert s[0] !in "\\\"<>{}:";
      var m' := m.(arg := m.arg + [s[0]]);
      assert Next(m, s[0]) == Some(m');
      ReadPlain(m', s[1..]);
      assert m'.arg + s[1..] == m.arg + s;
    }
  }

  lemma {:induction false} QuoteCharShape(c: char, printable: char -> bool)
    ensures var q := QuoteChar(c, printable);
            if |q| > 1 then q[0] == '\\' && c != ':' && NoneOf(q[2..], "\\\"<>{}:")
            else q == [c] && c != '\\' && c != '"'
  {
  }

  /** The machine after it has read `text` into the current parameter. */
  function Reading(m: Machine, text: string, colon: bool): Machine {
    m.(arg := m.arg + text, special := m.special || colon)
  }

  lemma {:induction false} ReadEscape(m: Machine, c: char)
    requires m.mode != InDefault && !m.escaping
    ensures Steps(m, ['\\', c]) == Some(Reading(m, [Unescape(c)], false))
  {
    var s := ['\\', c];
    var m1 := m.(escaping := true);
    assert s[1..] == [c] && [c][1..] == [];
    assert Next(m, s[0]) == Some(m1);
    assert Next(m1, c) == Some(m.(arg := m.arg + [Unescape(c)]));
    assert Steps(m1, [c]) == Steps(Next(m1, c).value, []);
  }

  lemma {:induction false} ReadUnescaped(m: Machine, c: char)
    requires m.mode != InDefault && !m.escaping && (m.mode == InDynamicParam ==> c != '>')
    requires c != '\\' && c != '"'
    ensures Steps(m, [c]) == Some(Reading(m, [c], c == ':'))
  {
    assert [c][1..] == [];
    assert Steps(m, [c]) == Steps(Next(m, c).value, []);
  }

  lemma {:induction false} ReadQuotedChar(m: Machine, c: char, printable: char -> bool)
    requires m.mode != InDefault && !m.escaping && (m.mode == InDynamicParam ==> c != '>')
    ensures Steps(m, QuoteChar(c, printable)) == Some(Reading(m, ReadBackChar(c, printable), c == ':'))
  {
    QuoteCharShape(c, printable);
    hide QuoteChar, Steps, Next, Unescape;
    var q := QuoteChar(c, printable);
    if |q| > 1 {
      assert q == ['\\', q[1]] + q[2..];
      StepsAppend(m, ['\\', q[1]], q[2..]);
      ReadEscape(m, q[1]);
      ReadPlain(Reading(m, [Unescape(q[1])], false), q[2..]);
      assert m.arg + ([Unescape(q[1])] + q[2..]) == m.arg + [Unescape(q[1])] + q[2..];
    } else {
      ReadUnescaped(m, c);
    }
  }

  lemma {:induction false} ReadingTwice(m: Machine, a: string, b: string, c: bool, d: bool)
    ensures Reading(Reading(m, a, c), b, d) == Reading(m, a + b, c || d)
  {
    assert m.arg + (a + b) == m.arg + a + b;
  }

  lemma {:induction false} ReadQuoted(m: Machine, s: string, printable: char -> bool)
    requires m.mode != InDefault && !m.escaping && (m.mode == InDynamicParam ==> '>' !in s)
    ensures Steps(m, Quote(s, printable)) == Some(Reading(m, ReadBack(s, printable), ':' in s))
    decreases |s|
  {
    if s == "" {
      assert m.arg + "" == m.arg;
    } else {
      assert s[0] in s && s == [s[0]] + s[1..];
      var head, colon, rest := ReadBackChar(s[0], printable), s[0] == ':', s[1..];
      var m' := Reading(m, head, colon);
      hide QuoteChar, Steps, Next, ReadBackChar;
      ReadQuotedChar(m, s[0], printable);
      ReadQuoted(m', rest, printable);
      hide Reading;
      StepsAppend(m, QuoteChar(s[0], printable), Quote(rest, printable));
      ReadingTwice(m, head, ReadBack(rest, printable), colon, ':' in rest);
      assert ':' in s <==> colon || ':' in rest;
    }
  }

  /** Reading back returns the text exactly when all its characters are quotable. */
  lemma {:induction false} ReadBackIsExact(s: string, printable: char -> bool)
    ensures ReadBack(s, printable) == s <==> forall i :: 0 <= i < |s| ==> Quotable(s[i], printable)
  {
    if s != "" {
      ReadBackIsExact(s[1..], printable);
      var head, rest := ReadBackChar(s[0], printable), ReadBack(s[1..], printable);
      ReadBackCharIsExact(s[0], printable);
      if Quotable(s[0], printable) {
        assert [s[0]] + rest == s <==> rest == s[1..];
        assert forall i :: 0 <= i < |s| ==> (s[i] == if i == 0 then s[0] else s[1..][i - 1]);
      } else {
        assert (head + rest)[0] == head[0] != s[0];
      }
    }
  }

  lemma {:induction false} ReadBackCharIsExact(c: char, printable: char -> bool)
    ensures var r := ReadBackChar(c, printable);
            r != "" && (if Quotable(c, printable) then r == [c] else r[0] != c)
  {
  }

  lemma {:induction false} ReadLiteral(m: Machine, t: string)
    requires m.Plain() && !m.escaping && Literal(t)
    ensures Steps(m, t) == Some(m.(value := m.value + t))
    decreases |t|
  {
    if t == "" {
      assert m.value + t == m.value;
    } else {
      assert t[0] !in "\\\"<{}:";
      var m' := m.(value := m.value + [t[0]]);
      assert Next(m, t[0]) == Some(m');
      ReadLiteral(m', t[1..]);
      assert m'.value + t[1..] == m.value + t;
    }
  }

  lemma {:induction false} OneStep(m: Machine, c: char)
    ensures Steps(m, [c]) == Next(m, c)
  {
    assert [c][1..] == [];
  }

  lemma {:induction false} ReadArg(m: Machine, arg: StepArg, printable: char -> bool)
    requires m.Plain() && !m.escaping && m.arg == "" && Writable(arg)
    ensures Steps(m, FormatArg(arg, printable)) ==
            Some(m.(arg := ReadBack(arg.Text(), printable)).Emit(arg.kind))
  {
    hide Steps, Quote, ReadBack, Marker;
    var open, close, mode := "<", ">", InDynamicParam;
    if arg.kind == Static {
      open, close, mode := "\"", "\"", InQuotes;
    }
    var text, q := arg.Text(), Quote(arg.Text(), printable);
    var m1 := m.(mode := mode);
    var m2 := Reading(m1, ReadBack(text, printable), ':' in text);
    OneStep(m, open[0]);
    ReadQuoted(m1, text, printable);
    OneStep(m2, close[0]);
    assert m.arg + ReadBack(text, printable) == ReadBack(text, printable);
    StepsAppend(m1, q, close);
    StepsAppend(m, open, q + close);
    assert FormatArg(arg, printable) == open + (q + close);
  }

  function ReadBacks(args: seq<StepArg>, printable: char -> bool): seq<string> {
    seq(|args|, i requires 0 <= i < |args| => ReadBack(args[i].Text(), printable))
  }

  /** The machine after it has read `value` with the parameters `args` of kinds `kinds`. */
  function Woven(m: Machine, value: string, args: seq<string>, kinds: seq<Kind>): Machine {
    m.(value := m.value + value, args := m.args + args, kinds := m.kinds + kinds)
  }

  lemma {:induction false} WovenTwice(m: Machine, v: string, v': string, a: seq<string>, a': seq<string>,
                                      k: seq<Kind>, k': seq<Kind>)
    ensures Woven(Woven(m, v, a, k), v', a', k') == Woven(m, v + v', a + a', k + k')
  {
    assert m.value + v + v' == m.value + (v + v');
    assert m.args + a + a' == m.args + (a + a');
    assert m.kinds + k + k' == m.kinds + (k + k');
  }

  lemma {:induction false} ReadTextAndArg(m: Machine, t: string, arg: StepArg, printable: char -> bool)
    requires m.Plain() && !m.escaping && m.arg == "" && Literal(t) && Writable(arg)
    ensures Steps(m, t + FormatArg(arg, printable)) ==
            Some(Woven(m, t + Marker(arg.kind), [ReadBack(arg.Text(), printable)], [arg.kind]))
  {
    hide Steps, FormatArg, Marker, ReadBack;
    var m1 := m.(value := m.value + t);
    ReadLiteral(m, t);
    ReadArg(m1, arg, printable);
    StepsAppend(m, t, FormatArg(arg, printable));
    assert m.value + t + Marker(arg.kind) == m.value + (t + Marker(arg.kind));
  }

  lemma {:induction false} WeaveTail(texts: seq<string>, f: seq<string>)
    requires |texts| == |f| + 1 && f != []
    ensures Weave(texts, f) == (texts[0] + f[0]) + Weave(texts[1..], f[1..])
  {
    assert texts[0] + (f[0] + Weave(texts[1..], f[1..])) == (texts[0] + f[0]) + Weave(texts[1..], f[1..]);
  }

  lemma {:induction false} Tails(args: seq<StepArg>, printable: char -> bool)
    requires args != []
    ensures |Formats(args, printable)| == |Markers(KindsOf(args))| == |args|
    ensures Formats(args, printable)[0] == FormatArg(args[0], printable)
    ensures Formats(args, printable)[1..] == Formats(args[1..], printable)
    ensures Markers(KindsOf(args))[0] == Marker(args[0].kind)
    ensures KindsOf(args) == [args[0].kind] + KindsOf(args[1..])
    ensures Markers(KindsOf(args))[1..] == Markers(KindsOf(args[1..]))
    ensures ReadBacks(args, printable) == [ReadBack(args[0].Text(), printable)] + ReadBacks(args[1..], printable)
  {
    hide FormatArg, Marker, ReadBack;
    assert KindsOf(args)[1..] == KindsOf(args[1..]);
  }

  lemma {:induction false} ReadWeave(m: Machine, texts: seq<string>, args: seq<StepArg>, printable: char -> bool)
    requires |texts| == |args| + 1
    requires m.Plain() && !m.escaping && m.arg == ""
    requires forall t :: t in texts ==> Literal(t)
    requires forall a :: a in args ==> Writable(a)
    ensures Steps(m, Weave(texts, Formats(args, printable))) ==
            Some(Woven(m, Weave(texts, Markers(KindsOf(args))), ReadBacks(args, printable), KindsOf(args)))
    decreases |args|
  {
    assert texts[0] in texts;
    if args == [] {
      ReadLiteral(m, texts[0]);
      assert Formats(args, printable) == [] && Markers(KindsOf(args)) == [];
      assert m.args + ReadBacks(args, printable) == m.args && m.kinds + KindsOf(args) == m.kinds;
    } else {
      assert args[0] in args;
      hide Steps, Weave, Marker, FormatArg, ReadBack, Literal, Writable;
      var tail, kind := args[1..], args[0].kind;
      var v, a, k := texts[0] + Marker(kind), [ReadBack(args[0].Text(), printable)], [kind];
      ReadTextAndArg(m, texts[0], args[0], printable);
      ReadWeave(Woven(m, v, a, k), texts[1..], tail, printable);
      Tails(args, printable);
      hide Woven, Formats, KindsOf, Markers, ReadBacks;
      WeaveTail(texts, Formats(args, printable));
      WeaveTail(texts, Markers(KindsOf(args)));
      StepsAppend(m, texts[0] + FormatArg(args[0], printable), Weave(texts[1..], Formats(tail, printable)));
      WovenTwice(m, v, Weave(texts[1..], Markers(KindsOf(tail))), a, ReadBacks(tail, printable), k, KindsOf(tail));
    }
  }

  /* ---------- reading the markers ---------- */

  lemma {:induction false} ExtractText(t: string, rest: string)
    requires '{' !in t
    ensures Extract(t + rest) == Prepend(t, [], Extract(rest))
  {
    if t == "" {
      assert t + rest == rest && "" + Extract(rest).0 == Extract(rest).0 && [] + Extract(rest).1 == Extract(rest).1;
    } else {
      assert t[0] in t && (t + rest)[0] != '{' && (t + rest)[1..] == t[1..] + rest;
      assert !AtMarker(t + rest);
      ExtractText(t[1..], rest);
      assert Extract(t + rest) == Prepend([t[0]], [], Extract(t[1..] + rest));
      assert [t[0]] + (t[1..] + Extract(rest).0) == t + Extract(rest).0;
      assert [] + ([] + Extract(rest).1) == [] + Extract(rest).1;
    }
  }

  lemma {:induction false} ExtractWeave(texts: seq<string>, kinds: seq<Kind>)
    requires |texts| == |kinds| + 1
    requires forall t :: t in texts ==> Literal(t)
    ensures Extract(Weave(texts, Markers(kinds))) == (Weave(texts, Holes(|kinds|)), kinds)
    decreases |kinds|
  {
    hide Marker, Extract;
    assert texts[0] in texts;
    if kinds == [] {
      ExtractText(texts[0], "");
      NoBraceNoMarker("");
      assert texts[0] + "" == texts[0];
    } else {
      ExtractWeave(texts[1..], kinds[1..]);
      assert Markers(kinds)[1..] == Markers(kinds[1..]) && Holes(|kinds|)[1..] == Holes(|kinds[1..]|);
      var rest := Weave(texts[1..], Markers(kinds[1..]));
      MarkerInFront(kinds[0], rest);
      ExtractText(texts[0], Marker(kinds[0]) + rest);
      assert [] + ([kinds[0]] + kinds[1..]) == kinds;
    }
  }

  /* ---------- white space at the ends ---------- */

  ghost predicate SolidEnds(f: string) {
    f != "" && !IsSpace(f[0]) && !IsSpace(f[|f| - 1])
  }

  /** Ends that are white space come from the literal text. */
  lemma {:induction false} WeaveEnds(texts: seq<string>, f: seq<string>, g: seq<string>)
    requires |texts| == |f| + 1 && |f| == |g|
    requires forall x :: x in f || x in g ==> SolidEnds(x)
    ensures var s, t := Weave(texts, f), Weave(texts, g);
            && (s == "" <==> t == "")
            && (s != "" ==> (IsSpace(s[0]) <==> IsSpace(t[0])) && (IsSpace(s[|s| - 1]) <==> IsSpace(t[|t| - 1])))
    decreases |f|
  {
    hide IsSpace;
    if f != [] {
      assert f[0] in f && g[0] in g;
      assert forall x :: x in f[1..] || x in g[1..] ==> x in f || x in g;
      WeaveEnds(texts[1..], f[1..], g[1..]);
      var s, t := Weave(texts[1..], f[1..]), Weave(texts[1..], g[1..]);
      if s == "" {
        assert f[0] + s == f[0] && g[0] + t == g[0];
      }
    }
  }

  /* ---------- the round trip ---------- */

  lemma {:induction false} MarkersAreSolid(kinds: seq<Kind>)
    ensures forall f :: f in Markers(kinds) ==> SolidEnds(f)
  {
    forall i | 0 <= i < |kinds| ensures SolidEnds(Marker(kinds[i])) {
      MarkerShape(kinds[i]);
    }
  }

  lemma {:induction false} FormatsAreClean(args: seq<StepArg>, printable: char -> bool)
    requires forall a :: a in args ==> Writable(a)
    ensures forall f :: f in Formats(args, printable) ==> Clean(f) && SolidEnds(f)
  {
    forall i | 0 <= i < |args|
      ensures Clean(FormatArg(args[i], printable)) && SolidEnds(FormatArg(args[i], printable))
    {
      assert args[i] in args;
      FormatIsClean(args[i], printable);
    }
  }

  lemma {:induction false} PrintedStep(texts: seq<string>, args: seq<StepArg>, printable: char -> bool)
    requires |texts| == |args| + 1
    requires forall t :: t in texts ==> Literal(t)
    requires forall a :: a in args ==> Writable(a)
    ensures Fill(Weave(texts, Holes(|args|)), Formats(args, printable)) == Weave(texts, Formats(args, printable))
  {
    FormatsAreClean(args, printable);
    var formats := Formats(args, printable);
    hide Weave, Fill, Clean, Literal, Writable, SolidEnds, FormatArg, Holes;
    assert Clean("") by { CleanEmpty(); }
    FillIsWeave("", texts, formats);
    assert "" + Weave(texts, formats) == Weave(texts, formats);
    assert "" + Weave(texts, Holes(|args|)) == Weave(texts, Holes(|args|));
  }

  lemma {:induction false} CleanEmpty()
    ensures Clean("")
  {
  }

  lemma {:induction false} TrimmedWeave(texts: seq<string>, f: seq<string>, g: seq<string>)
    requires |texts| == |f| + 1 && |f| == |g|
    requires forall x :: x in f || x in g ==> SolidEnds(x)
    requires Trimmed(Weave(texts, f))
    ensures Trimmed(Weave(texts, g))
  {
    hide Weave, IsSpace, SolidEnds;
    WeaveEnds(texts, f, g);
  }

  /** Printing a step and parsing the printed text gives back its value, and its arguments
      kind by kind as they read back from their quoted forms. */
  lemma {:induction false} StepRoundTrip(texts: seq<string>, args: seq<StepArg>, printable: char -> bool)
    requires |texts| == |args| + 1
    requires forall t :: t in texts ==> Literal(t)
    requires forall a :: a in args ==> Writable(a)
    requires Trimmed(Weave(texts, Holes(|args|)))
    ensures var value := Weave(texts, Holes(|args|));
            var text := Fill(value, Formats(args, printable));
            var r := Parse(text);
            && CountHoles(value) == |args| && Trimmed(text)
            && r.Ok? && r.args == ReadBacks(args, printable)
            && Extract(r.value) == (value, KindsOf(args)) && AcceptsMarkers(r)
  {
    var formats, kinds := Formats(args, printable), KindsOf(args);
    var marked, texts' := Weave(texts, Markers(kinds)), ReadBacks(args, printable);
    assert Woven(START, marked, texts', kinds) == Machine(marked, texts', kinds, "", InDefault, false, false);
    hide Woven;
    CountOfWeave(texts);
    PrintedStep(texts, args, printable);
    FormatsAreClean(args, printable);
    MarkersAreSolid(kinds);
    hide Weave, Steps, Marker, FormatArg, Extract, CountHoles, Fill, ReadBack, Clean, IsSpace, Literal, Writable;
    TrimmedWeave(texts, Holes(|args|), Markers(kinds));
    TrimmedWeave(texts, Holes(|args|), formats);
    ReadWeave(START, texts, args, printable);
    ExtractWeave(texts, kinds);
    TrimSpaceIsIdentity(marked);
    assert Parse(Weave(texts, formats)) == Ok(marked, texts', kinds);
  }

  /** The arguments come back unchanged exactly when all their characters are quotable. */
  lemma {:induction false} ArgumentsComeBack(args: seq<StepArg>, printable: char -> bool)
    ensures ReadBacks(args, printable) == seq(|args|, i requires 0 <= i < |args| => args[i].Text())
            <==> forall a, i :: a in args && 0 <= i < |a.Text()| ==> Quotable(a.Text()[i], printable)
  {
    hide ReadBack, Quotable;
    var texts := seq(|args|, i requires 0 <= i < |args| => args[i].Text());
    forall j | 0 <= j < |args|
      ensures ReadBacks(args, printable)[j] == texts[j]
              <==> forall i :: 0 <= i < |args[j].Text()| ==> Quotable(args[j].Text()[i], printable)
    {
      ReadBackIsExact(args[j].Text(), printable);
    }
    assert forall a :: a in args <==> exists j :: 0 <= j < |args| && args[j] == a;
  }

  /** The printed line is recognised as a step line with that text. */
  lemma {:induction false} StepLine(text: string)
    requires Trimmed(text)
    ensures StepTextOfLine("* " + text + "\n") == Some(text)
  {
    var line := "* " + text + "\n";
    var front := "* " + text;
    assert TrimLeft(line) == line by { assert line[0] == '*'; }
    assert line[..|line| - 1] == front && line[|line| - 1] == '\n';
    assert TrimSpace(line) == TrimRight(front);
    if text == "" {
      assert front[..1] == "*" && TrimRight("*") == "*";
      assert TrimSpace(line) == "*" && "*"[1..] == "";
    } else {
      assert front[|front| - 1] == text[|text| - 1];
      assert TrimSpace(line) == front;
      assert front[1..] == " " + text && (" " + text)[1..] == text;
      TrimSpaceIsIdentity(text);
    }
  }
}
