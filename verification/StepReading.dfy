/** The step text read piece by piece, with a scan ahead for the end of each parameter. The
    character machine computes the same, and fails exactly where this says. */
module StepReading {
  import opened Text
  import opened StepText

  /** The position of the first such character without a backslash in front, or -1. */
  function FirstUnescaped(c: char, s: string): (i: int)
    ensures -1 <= i < |s| && (i >= 0 ==> s[i] == c)
    ensures i >= 0 <==> HasUnescaped(c, s)
    decreases |s|
  {
    if s == "" then -1
    else if s[0] == '\\' then
      if |s| == 1 then -1
      else
        var i := FirstUnescaped(c, s[2..]); if i < 0 then -1 else i + 2
    else if s[0] == c then 0
    else
      var i := FirstUnescaped(c, s[1..]); if i < 0 then -1 else i + 1
  }

  /** The text that is meant: a backslash stands for the next character, at the end for nothing. */
  function Unescaped(s: string): string
    decreases |s|
  {
    if s == "" then ""
    else if s[0] == '\\' then
      if |s| == 1 then ""
      else [if s[1] == 't' then '\t' else if s[1] == 'n' then '\n' else s[1]] + Unescaped(s[2..])
    else [s[0]] + Unescaped(s[1..])
  }

  /** The rest of a step after a quote in literal text. */
  function AfterQuote(s: string, value: string, args: seq<string>, kinds: seq<Kind>): Result
    decreases |s|, 1
  {
    var i := FirstUnescaped('"', s);
    if i >= 0 then Descend(s[i + 1..], value + "{static}", args + [Unescaped(s[..i])], kinds + [Static])
    else if HasUnescaped(':', s) || EndsInEscape(s) then Ok(TrimSpace(value), args, kinds)
    else Err(StringNotTerminated)
  }

  /** The rest of a step after an angle bracket in literal text. */
  function AfterBracket(s: string, value: string, args: seq<string>, kinds: seq<Kind>): Result
    decreases |s|, 1
  {
    var i := FirstUnescaped('>', s);
    if i >= 0 then
      if HasUnescaped(':', s[..i])
      then Descend(s[i + 1..], value + "{special}", args + [Unescaped(s[..i])], kinds + [Special])
      else Descend(s[i + 1..], value + "{dynamic}", args + [Unescaped(s[..i])], kinds + [Dynamic])
    else if EndsInEscape(s) then Ok(TrimSpace(value), args, kinds)
    else Err(ParameterNotTerminated)
  }

  /** The rest of a step from literal text on; a colon makes all that follows it literal. */
  function Descend(s: string, value: string, args: seq<string>, kinds: seq<Kind>): Result
    decreases |s|, 0
  {
    if s == "" || s == "\\" then Ok(TrimSpace(value), args, kinds)
    else
      match s[0]
      case '\\' => Descend(s[2..], value + Unescaped(s[..2]), args, kinds)
      case ':' => Ok(TrimSpace(value + Unescaped(s)), args, kinds)
      case '"' => AfterQuote(s[1..], value, args, kinds)
      case '<' => AfterBracket(s[1..], value, args, kinds)
      case '{' => Err(ReservedCharacter)
      case '}' => Err(ReservedCharacter)
      case _ => Descend(s[1..], value + [s[0]], args, kinds)
  }

  /** Before the end of a parameter nothing ends it and no escape is pending. */
  lemma {:induction false} BeforeTheFirst(c: char, s: string)
    requires c != '\\' && HasUnescaped(c, s)
    ensures var t := s[..FirstUnescaped(c, s)]; !HasUnescaped(c, t) && !EndsInEscape(t)
    decreases |s|
  {
    var i := FirstUnescaped(c, s);
    if s[0] == '\\' {
      BeforeTheFirst(c, s[2..]);
      assert s[..i][2..] == s[2..][..i - 2];
    } else if s[0] != c {
      BeforeTheFirst(c, s[1..]);
      assert s[..i][1..] == s[1..][..i - 1];
    }
  }

  /** A backslash and the character behind it are read together. */
  lemma {:induction false} StepsEscape(m: Machine, s: string)
    requires !m.escaping && |s| > 1 && s[0] == '\\'
    ensures Steps(m, s) == Steps(m.Write(Unescape(s[1])), s[2..])
    ensures Unescaped(s) == [Unescape(s[1])] + Unescaped(s[2..])
    ensures EndsInEscape(s) == EndsInEscape(s[2..])
    ensures forall c :: c != '\\' ==> HasUnescaped(c, s) == HasUnescaped(c, s[2..])
  {
    hide Steps;
    assert s == ['\\'] + ([s[1]] + s[2..]);
    StepsCons(m, '\\', [s[1]] + s[2..]);
    StepsCons(m.(escaping := true), s[1], s[2..]);
    assert m.(escaping := true).(escaping := false) == m;
  }

  /** The end of a text, and one more character that is no backslash. */
  lemma {:induction false} StepsEnd(m: Machine)
    ensures Steps(m, "") == Some(m) && Steps(m, "\\") == Next(m, '\\')
    ensures Unescaped("") == "" == Unescaped("\\") && EndsInEscape("\\") && !EndsInEscape("")
    ensures forall c :: !HasUnescaped(c, "") && !HasUnescaped(c, "\\")
  {
    hide Unescape;
    assert "\\"[1..] == "";
  }

  lemma {:induction false} StepsOn(m: Machine, s: string)
    requires s != "" && s[0] != '\\' && Next(m, s[0]).Some?
    ensures Steps(m, s) == Steps(Next(m, s[0]).value, s[1..])
    ensures Unescaped(s) == [s[0]] + Unescaped(s[1..]) && EndsInEscape(s) == EndsInEscape(s[1..])
    ensures forall c :: HasUnescaped(c, s) == (s[0] == c || HasUnescaped(c, s[1..]))
  {
    hide Next;
  }

  /** Inside a parameter that is not closed everything is added to the argument. */
  lemma {:induction false} InsideParameter(m: Machine, s: string)
    requires !m.escaping && m.mode != InDefault
    requires !HasUnescaped(if m.mode == InQuotes then '"' else '>', s)
    ensures Steps(m, s) ==
            Some(m.(arg := m.arg + Unescaped(s), special := m.special || HasUnescaped(':', s),
                    escaping := EndsInEscape(s)))
    decreases |s|
  {
    hide Steps, Unescaped, HasUnescaped, EndsInEscape, Unescape;
    if s == "" || s == "\\" {
      StepsEnd(m);
      assert m.arg + "" == m.arg;
    } else if s[0] == '\\' {
      StepsEscape(m, s);
      InsideParameter(m.Write(Unescape(s[1])), s[2..]);
      assert m.arg + ([Unescape(s[1])] + Unescaped(s[2..])) == m.Write(Unescape(s[1])).arg + Unescaped(s[2..]);
    } else {
      InsideOn(m, s);
      var next := m.(arg := m.arg + [s[0]], special := m.special || s[0] == ':');
      InsideParameter(next, s[1..]);
      assert m.arg + ([s[0]] + Unescaped(s[1..])) == next.arg + Unescaped(s[1..]);
    }
  }

  lemma {:induction false} InsideOn(m: Machine, s: string)
    requires !m.escaping && m.mode != InDefault && s != "" && s[0] != '\\'
    requires !HasUnescaped(if m.mode == InQuotes then '"' else '>', s)
    ensures Steps(m, s) == Steps(m.(arg := m.arg + [s[0]], special := m.special || s[0] == ':'), s[1..])
    ensures Unescaped(s) == [s[0]] + Unescaped(s[1..]) && EndsInEscape(s) == EndsInEscape(s[1..])
    ensures forall c :: HasUnescaped(c, s) == (s[0] == c || HasUnescaped(c, s[1..]))
  {
    hide Steps;
    assert Next(m, s[0]) == Some(m.(arg := m.arg + [s[0]], special := m.special || s[0] == ':'));
    StepsOn(m, s);
  }

  /** After a bare colon everything is added to the text. */
  lemma {:induction false} AfterColon(m: Machine, s: string)
    requires !m.escaping && m.mode == InDefault && m.special
    ensures Steps(m, s) == Some(m.(value := m.value + Unescaped(s), escaping := EndsInEscape(s)))
    decreases |s|
  {
    hide Steps, Unescaped, HasUnescaped, EndsInEscape, Unescape;
    if s == "" || s == "\\" {
      StepsEnd(m);
      assert m.value + "" == m.value;
    } else if s[0] == '\\' {
      StepsEscape(m, s);
      AfterColon(m.Write(Unescape(s[1])), s[2..]);
      assert m.value + ([Unescape(s[1])] + Unescaped(s[2..])) == m.Write(Unescape(s[1])).value + Unescaped(s[2..]);
    } else {
      assert Next(m, s[0]) == Some(m.(value := m.value + [s[0]]));
      StepsOn(m, s);
      AfterColon(m.(value := m.value + [s[0]]), s[1..]);
      assert m.value + ([s[0]] + Unescaped(s[1..])) == m.value + [s[0]] + Unescaped(s[1..]);
    }
  }

  /** Literal text in which parameters are recognised. */
  predicate AtText(m: Machine) {
    m.Plain() && !m.escaping && m.arg == ""
  }

  /** What a parameter that is closed leaves behind. */
  lemma {:induction false} ClosedParameter(m: Machine, s: string)
    requires !m.escaping && m.mode != InDefault && !m.special && m.arg == ""
    requires HasUnescaped(if m.mode == InQuotes then '"' else '>', s)
    ensures var close := if m.mode == InQuotes then '"' else '>';
            var i := FirstUnescaped(close, s);
            var kind := if m.mode == InQuotes then Static else if HasUnescaped(':', s[..i]) then Special else Dynamic;
            Steps(m, s) ==
            Steps(Machine(m.value + Marker(kind), m.args + [Unescaped(s[..i])], m.kinds + [kind], "", InDefault, false,
                          false), s[i + 1..])
  {
    hide Steps, Unescaped, Marker;
    var close := if m.mode == InQuotes then '"' else '>';
    var i := FirstUnescaped(close, s);
    BeforeTheFirst(close, s);
    InsideParameter(m, s[..i]);
    assert s == s[..i] + ([close] + s[i + 1..]);
    StepsAppend(m, s[..i], [close] + s[i + 1..]);
    assert "" + Unescaped(s[..i]) == Unescaped(s[..i]);
    StepsCons(Steps(m, s[..i]).value, close, s[i + 1..]);
  }

  function Finished(r: Option<Machine>): Result {
    if r.None? then Err(ReservedCharacter) else Finish(r.value)
  }

  /** From literal text on the machine computes what the reading says. */
  lemma {:induction false} FromText(m: Machine, s: string)
    requires AtText(m)
    ensures Finished(Steps(m, s)) == Descend(s, m.value, m.args, m.kinds)
    decreases |s|
  {
    hide HasUnescaped, EndsInEscape, FirstUnescaped, Marker, TrimSpace;
    if s == "" {
    } else if s[0] == '\\' {
      if |s| > 1 {
        FromEscape(m, s);
      } else {
        assert s[1..] == "" && s == "\\";
      }
    } else if s[0] == ':' {
      FromColon(m, s);
    } else if s[0] == '"' || s[0] == '<' {
      FromParameter(m, s);
    } else if s[0] !in "{}" {
      FromText(Next(m, s[0]).value, s[1..]);
    }
  }

  lemma {:induction false} FromEscape(m: Machine, s: string)
    requires AtText(m) && |s| > 1 && s[0] == '\\'
    ensures Finished(Steps(m, s)) == Descend(s, m.value, m.args, m.kinds)
    decreases |s|, 0
  {
    hide HasUnescaped, EndsInEscape, FirstUnescaped, Marker, TrimSpace;
    var next := Next(Next(m, s[0]).value, s[1]).value;
    assert s[1..][1..] == s[2..] && s[..2][2..] == "";
    assert next.value == m.value + Unescaped(s[..2]);
    FromText(next, s[2..]);
  }

  lemma {:induction false} FromColon(m: Machine, s: string)
    requires AtText(m) && s != "" && s[0] == ':'
    ensures Finished(Steps(m, s)) == Descend(s, m.value, m.args, m.kinds)
  {
    hide HasUnescaped, EndsInEscape, FirstUnescaped, Marker, TrimSpace, Steps, Unescaped;
    var next := Next(m, s[0]).value;
    StepsOn(m, s);
    AfterColon(next, s[1..]);
    assert next.value + Unescaped(s[1..]) == m.value + ([s[0]] + Unescaped(s[1..]));
  }

  lemma {:induction false} FromParameter(m: Machine, s: string)
    requires AtText(m) && s != "" && (s[0] == '"' || s[0] == '<')
    ensures Finished(Steps(m, s)) == Descend(s, m.value, m.args, m.kinds)
    decreases |s|, 0
  {
    hide HasUnescaped, EndsInEscape, TrimSpace;
    var next := Next(m, s[0]).value;
    var close := if s[0] == '"' then '"' else '>';
    var rest := s[1..];
    if HasUnescaped(close, rest) {
      var i := FirstUnescaped(close, rest);
      ClosedParameter(next, rest);
      var kind := if s[0] == '"' then Static else if HasUnescaped(':', rest[..i]) then Special else Dynamic;
      FromText(Machine(m.value + Marker(kind), m.args + [Unescaped(rest[..i])], m.kinds + [kind], "", InDefault, false,
                       false), rest[i + 1..]);
    } else {
      InsideParameter(next, rest);
    }
  }

  /** The character machine reads every text like this. */
  lemma {:induction false} ParseIsDescend(text: string)
    ensures Parse(text) == Descend(text, "", [], [])
  {
    hide Descend, Steps, Finish;
    FromText(START, text);
  }

  /* ---------- where a step text fails ---------- */

  /** The length of the first piece of a step text: a character of literal text, an escape or a
      parameter that is closed. None where the reading ends or fails, and at a bare colon. */
  function Piece(s: string): (k: nat)
    ensures k <= |s|
  {
    if s == "" || s[0] in ":{}" then 0
    else if s[0] == '\\' then if |s| > 1 then 2 else 0
    else if s[0] == '"' || s[0] == '<' then
      var i := FirstUnescaped(if s[0] == '"' then '"' else '>', s[1..]);
      if i >= 0 then i + 2 else 0
    else 1
  }

  /** The text ends in literal text, with no bare colon before and no escape pending. */
  predicate EndsInText(s: string)
    decreases |s|
  {
    s == "" || (Piece(s) > 0 && EndsInText(s[Piece(s)..]))
  }

  lemma {:induction false} FirstInPrefix(c: char, s: string, n: nat)
    requires n <= |s|
    ensures FirstUnescaped(c, s[..n]) == if FirstUnescaped(c, s) < n then FirstUnescaped(c, s) else -1
    decreases |s|
  {
    if n > 0 && s[0] == '\\' && n > 1 {
      assert s[..n][2..] == s[2..][..n - 2];
      FirstInPrefix(c, s[2..], n - 2);
    } else if n > 0 && s[0] != '\\' {
      assert s[..n][1..] == s[1..][..n - 1];
      FirstInPrefix(c, s[1..], n - 1);
    }
  }

  lemma {:induction false} PieceOfPrefix(s: string, n: nat)
    requires 0 < n <= |s|
    ensures Piece(s[..n]) == if Piece(s) <= n then Piece(s) else 0
  {
    hide FirstUnescaped;
    if s[0] == '"' || s[0] == '<' {
      assert s[..n][1..] == s[1..][..n - 1];
      FirstInPrefix(if s[0] == '"' then '"' else '>', s[1..], n - 1);
    }
  }

  /** Character `i` is where the reading fails. */
  ghost predicate FailsAt(s: string, i: nat, e: Error) {
    && i < |s| && EndsInText(s[..i])
    && var rest := s[i + 1..];
    match e
    case ReservedCharacter => s[i] in "{}"
    case StringNotTerminated =>
      s[i] == '"' && !HasUnescaped('"', rest) && !HasUnescaped(':', rest) && !EndsInEscape(rest)
    case ParameterNotTerminated => s[i] == '<' && !HasUnescaped('>', rest) && !EndsInEscape(rest)
  }

  /** Behind the first piece everything is as it was. */
  lemma {:induction false} FailsBehind(s: string, i: nat, e: Error)
    requires 0 < Piece(s)
    ensures FailsAt(s, i, e) <==> Piece(s) <= i && FailsAt(s[Piece(s)..], i - Piece(s), e)
  {
    hide HasUnescaped, EndsInEscape, Piece;
    var k := Piece(s);
    if i == 0 {
      StartsAPiece(s, e);
    } else if i < |s| {
      PieceOfPrefix(s, i);
      if k <= i {
        assert s[..i][k..] == s[k..][..i - k] && s[i + 1..] == s[k..][i - k + 1..];
      }
    }
  }

  lemma {:induction false} StartsAPiece(s: string, e: Error)
    requires 0 < Piece(s)
    ensures !FailsAt(s, 0, e)
  {
    hide EndsInEscape;
  }

  lemma {:induction false} FailsAtOnce(s: string, i: nat, e: Error)
    requires Piece(s) == 0 && i > 0
    ensures !FailsAt(s, i, e)
  {
    hide HasUnescaped, EndsInEscape;
    if i < |s| {
      PieceOfPrefix(s, i);
    }
  }

  /** The reading goes on behind the first piece, or decides at once. */
  lemma {:induction false} DescendByPiece(s: string, value: string, args: seq<string>, kinds: seq<Kind>)
      returns (v: string, a: seq<string>, k: seq<Kind>)
    ensures Piece(s) > 0 ==> Descend(s, value, args, kinds) == Descend(s[Piece(s)..], v, a, k)
    ensures Piece(s) == 0 ==> forall e :: Descend(s, value, args, kinds) == Err(e) <==> FailsAt(s, 0, e)
  {
    hide HasUnescaped, EndsInEscape, Unescaped, TrimSpace;
    assert EndsInText(s[..0]);
    v, a, k := value, args, kinds;
    if Piece(s) > 0 {
      if s[0] == '"' || s[0] == '<' {
        var i := FirstUnescaped(if s[0] == '"' then '"' else '>', s[1..]);
        var special := s[0] == '<' && HasUnescaped(':', s[1..][..i]);
        v := value + if s[0] == '"' then "{static}" else if special then "{special}" else "{dynamic}";
        a := args + [Unescaped(s[1..][..i])];
        k := kinds + [if s[0] == '"' then Static else if special then Special else Dynamic];
        assert s[1..][i + 1..] == s[Piece(s)..];
      } else {
        v := value + if s[0] == '\\' then Unescaped(s[..2]) else [s[0]];
      }
    }
  }

  ghost predicate Fails(s: string, e: Error) {
    exists i: nat :: FailsAt(s, i, e)
  }

  lemma {:induction false} DescendFailsIff(s: string, value: string, args: seq<string>, kinds: seq<Kind>)
    ensures forall e :: Descend(s, value, args, kinds) == Err(e) <==> Fails(s, e)
    decreases |s|
  {
    hide Descend, Piece, FailsAt;
    var v, a, k := DescendByPiece(s, value, args, kinds);
    var n := Piece(s);
    if n > 0 {
      DescendFailsIff(s[n..], v, a, k);
      forall e ensures Fails(s, e) <==> Fails(s[n..], e) {
        if i: nat :| FailsAt(s, i, e) {
          FailsBehind(s, i, e);
        }
        if i: nat :| FailsAt(s[n..], i, e) {
          FailsBehind(s, i + n, e);
        }
      }
    } else {
      forall e, i: nat | FailsAt(s, i, e) ensures i == 0 {
        if i > 0 {
          FailsAtOnce(s, i, e);
        }
      }
    }
  }

  /** A brace in literal text is refused exactly when it has no backslash in front and no bare
      colon before it. A quote or an angle bracket that opens a parameter which nothing closes is
      reported exactly when the text does not end inside an escape and, for a quote, no bare
      colon follows. Nothing else fails. */
  lemma {:induction false} ParseFailsIff(text: string)
    ensures forall e :: Parse(text) == Err(e) <==> exists i: nat :: FailsAt(text, i, e)
  {
    hide Descend, Parse, FailsAt;
    ParseIsDescend(text);
    DescendFailsIff(text, "", [], []);
  }
}
