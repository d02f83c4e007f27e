/** What the stages of the command pipeline mean together. */
module CommandMeaning {
  import opened Commands
  import opened Sequences

  // ----- unquoting undoes printing -----

  /** A character that prints as itself, or a quote. */
  predicate IsPlain(c: char) { c != BACKSLASH && !IsControl(c) }

  predicate Plain(s: string) { forall c :: c in s ==> IsPlain(c) }

  /** The printed form of a character (section 7 of RFC 8259). */
  lemma PrintedForm(c: char)
    ensures c == '"' ==> EscapeChar(c) == "\\\""
    ensures c == '\\' ==> EscapeChar(c) == "\\\\"
    ensures c == '\n' ==> EscapeChar(c) == "\\n"
    ensures c == '\t' ==> EscapeChar(c) == "\\t"
    ensures c == '\r' ==> EscapeChar(c) == "\\r"
    ensures c == 1 as char ==> EscapeChar(c) == "\\u0001"
    ensures c == 31 as char ==> EscapeChar(c) == "\\u001f"
    ensures c >= ' ' && c != '"' && c != '\\' ==> EscapeChar(c) == [c]
  {
  }

  lemma {:induction false} UnescapedPast(p: string, rest: string)
    requires BACKSLASH !in p
    ensures Unescaped(p + rest) == p + Unescaped(rest)
  {
    if p == [] {
      assert p + rest == rest;
    } else {
      assert (p + rest)[1..] == p[1..] + rest;
      UnescapedPast(p[1..], rest);
    }
  }

  lemma EscapedHead(s: string)
    ensures Escaped(s) != [] ==> Escaped(s)[0] != QUOTE
  {
  }

  lemma ControlEscapeShape(c: char)
    requires IsControl(c)
    ensures var e := ControlEscape(c);
            && |e| >= 1 && BACKSLASH !in e && QUOTE !in e && '&' !in e && ';' !in e && 'R' !in e
  {
  }

  lemma UnescapedQuoteEscape(rest: string)
    ensures Unescaped([BACKSLASH, QUOTE] + rest) == [QUOTE] + Unescaped(rest)
  {
    assert ([BACKSLASH, QUOTE] + rest)[2..] == rest;
  }

  lemma UnescapedOther(c: char, rest: string)
    requires c != BACKSLASH || (rest != [] ==> rest[0] != QUOTE)
    ensures Unescaped([c] + rest) == [c] + Unescaped(rest)
  {
    assert ([c] + rest)[1..] == rest;
  }

  /** Unescaping gives a quote or a plain character back, and more than one character for any other. */
  lemma UnescapedEscape(c: char, s: string)
    ensures IsPlain(c) ==> Unescaped(EscapeChar(c) + Escaped(s)) == [c] + Unescaped(Escaped(s))
    ensures !IsPlain(c) ==> |Unescaped(EscapeChar(c) + Escaped(s))| >= 2 + |Unescaped(Escaped(s))|
  {
    hide Unescaped, Escaped, ControlEscape;
    var rest := Escaped(s);
    EscapedHead(s);
    if c == QUOTE {
      UnescapedQuoteEscape(rest);
    } else if c == BACKSLASH {
      assert EscapeChar(c) + rest == [BACKSLASH] + ([BACKSLASH] + rest);
      UnescapedOther(BACKSLASH, [BACKSLASH] + rest);
      UnescapedOther(BACKSLASH, rest);
    } else if IsControl(c) {
      ControlEscapeShape(c);
      var e := ControlEscape(c);
      assert EscapeChar(c) + rest == [BACKSLASH] + (e + rest);
      assert (e + rest)[0] == e[0] && e[0] in e;
      UnescapedOther(BACKSLASH, e + rest);
      UnescapedPast(e, rest);
    } else {
      UnescapedOther(c, rest);
    }
  }

  lemma {:induction false} UnescapedEscaped(s: string)
    ensures |Unescaped(Escaped(s))| >= |s|
    ensures Plain(s) ==> Unescaped(Escaped(s)) == s
    ensures !Plain(s) ==> |Unescaped(Escaped(s))| > |s|
  {
    if s == [] {
    } else {
      assert s == [s[0]] + s[1..];
      UnescapedEscaped(s[1..]);
      UnescapedEscape(s[0], s[1..]);
      assert Escaped(s) == EscapeChar(s[0]) + Escaped(s[1..]);
      assert Plain(s) <==> IsPlain(s[0]) && Plain(s[1..]);
    }
  }

  lemma UnquotedPrinted(s: string)
    ensures Unquoted(Printed(s)) == Unescaped(Escaped(s))
  {
    assert Printed(s)[1..|Printed(s)| - 1] == Escaped(s);
  }

  /** removeQuotes takes the printed form of a string back to the string exactly when it holds no backslash and no
      control character. */
  lemma UnquotingUndoesPrinting(s: string)
    ensures Unquoted(Printed(s)) == s <==> Plain(s)
  {
    UnquotedPrinted(s);
    UnescapedEscaped(s);
  }

  // ----- the background fix commutes with printing -----

  lemma {:induction false} BackgroundConcat(amp: bool, a: string, b: string)
    ensures BackgroundFrom(amp, a + b) ==
            BackgroundFrom(amp, a) + BackgroundFrom(if a == [] then amp else a[|a| - 1] == '&', b)
    decreases |a|
  {
    if a == [] {
      assert a + b == b;
    } else {
      assert (a + b)[1..] == a[1..] + b;
      BackgroundConcat(a[0] == '&', a[1..], b);
    }
  }

  lemma {:induction false} BackgroundKeeps(amp: bool, e: string)
    requires ';' !in e
    ensures BackgroundFrom(amp, e) == e
    decreases |e|
  {
    if e == [] {
    } else {
      assert e[0] in e;
      BackgroundKeeps(e[0] == '&', e[1..]);
    }
  }

  lemma BackgroundEscapeChar(amp: bool, c: char)
    ensures var e, fixed := EscapeChar(c), if amp && c == ';' then ' ' else c;
            && BackgroundFrom(amp, e) == EscapeChar(fixed)
            && |e| > 0 && (e[|e| - 1] == '&' <==> c == '&')
  {
    var e := EscapeChar(c);
    if c == ';' {
      assert [';'][1..] == [];
    } else {
      if IsControl(c) { ControlEscapeShape(c); }
      BackgroundKeeps(amp, e);
    }
  }

  lemma {:induction false} BackgroundEscaped(amp: bool, s: string)
    ensures BackgroundFrom(amp, Escaped(s)) == Escaped(BackgroundFrom(amp, s))
    decreases |s|
  {
    if s == [] {
    } else {
      BackgroundEscaped(s[0] == '&', s[1..]);
      BackgroundConcat(amp, EscapeChar(s[0]), Escaped(s[1..]));
      BackgroundEscapeChar(amp, s[0]);
      assert BackgroundFrom(amp, s)[1..] == BackgroundFrom(s[0] == '&', s[1..]);
    }
  }

  lemma BackgroundPrinted(s: string)
    ensures Backgrounded(Printed(s)) == Printed(Backgrounded(s))
  {
    assert Printed(s) == [QUOTE] + (Escaped(s) + [QUOTE]);
    BackgroundConcat(false, [QUOTE], Escaped(s) + [QUOTE]);
    BackgroundKeeps(false, [QUOTE]);
    var amp := Escaped(s) != [] && Escaped(s)[|Escaped(s)| - 1] == '&';
    BackgroundConcat(false, Escaped(s), [QUOTE]);
    BackgroundKeeps(amp, [QUOTE]);
    BackgroundEscaped(false, s);
  }

  // ----- merging printed commands -----

  lemma {:induction false} EscapedConcat(a: string, b: string)
    ensures Escaped(a + b) == Escaped(a) + Escaped(b)
  {
    if a == [] {
      assert a + b == b;
    } else {
      assert (a + b)[1..] == a[1..] + b;
      EscapedConcat(a[1..], b);
      Assoc(EscapeChar(a[0]), Escaped(a[1..]), Escaped(b));
    }
  }

  lemma MergedQuoted(x: string, y: string)
    ensures Merged([QUOTE] + x + [QUOTE], [QUOTE] + y + [QUOTE]) == [QUOTE] + (x + ";" + y) + [QUOTE]
  {
    var s, d := [QUOTE] + x + [QUOTE], [QUOTE] + y + [QUOTE];
    assert s[..|s| - 1] == [QUOTE] + x && d[1..] == y + [QUOTE];
  }

  /** The merge of two printed commands is the printed form of the two joined by a semicolon. */
  lemma MergedPrinted(a: string, b: string)
    ensures Merged(Printed(a), Printed(b)) == Printed(a + ";" + b)
  {
    hide Merged;
    EscapedConcat(a + ";", b);
    EscapedConcat(a, ";");
    assert Escaped(";") == ";" by { assert ";"[1..] == []; }
    MergedQuoted(Escaped(a), Escaped(b));
  }

  // ----- macro substitution commutes with printing -----

  lemma MacroShape()
    ensures MACRO[0] == 'R' && QUOTE !in MACRO && ';' !in MACRO
    ensures forall c :: c in MACRO ==> 'A' <= c <= 'Z' || c == '_'
  {
  }

  /** A macro in front of text with a foreign character ends before that character. */
  lemma MacroBeforeSeam(a: string, c: char, b: string)
    requires c !in MACRO
    ensures MACRO <= a + [c] + b <==> MACRO <= a
  {
    var s := a + [c] + b;
    assert s[|a|] == c;
    assert forall i :: 0 <= i < |MACRO| ==> MACRO[i] in MACRO;
    if MACRO <= s {
      assert forall i :: 0 <= i < |MACRO| ==> s[i] == MACRO[i];
      assert |MACRO| <= |a|;
      assert a[..|MACRO|] == s[..|MACRO|];
    }
  }

  lemma ReplacedMatch(s: string, dir: string)
    requires MACRO <= s
    ensures Replaced(s, dir) == dir + Replaced(s[|MACRO|..], dir)
  {
  }

  lemma NotAMacro(s: string)
    requires !(MACRO <= s)
    ensures |s| < |MACRO| || s[..|MACRO|] != MACRO
  {
  }

  /** A character that is not part of a macro separates the replacements. */
  lemma {:induction false} ReplacedSeam(a: string, c: char, b: string, dir: string)
    requires c !in MACRO
    ensures Replaced(a + [c] + b, dir) == Replaced(a, dir) + [c] + Replaced(b, dir)
    decreases |a|
  {
    hide Replaced;
    var s := a + [c] + b;
    MacroBeforeSeam(a, c, b);
    if MACRO <= a {
      ReplacedMatch(s, dir);
      ReplacedMatch(a, dir);
      assert s[|MACRO|..] == a[|MACRO|..] + [c] + b;
      ReplacedSeam(a[|MACRO|..], c, b, dir);
      Assoc(dir, Replaced(a[|MACRO|..], dir), [c]);
      Assoc(dir, Replaced(a[|MACRO|..], dir) + [c], Replaced(b, dir));
    } else {
      NotAMacro(s);
      NotAMacro(a);
      ShortReplaced(s, dir);
      if a == [] {
        assert s[1..] == b && s[0] == c;
        NothingReplaced(dir);
      } else {
        assert s[1..] == a[1..] + [c] + b && s[0] == a[0];
        ReplacedSeam(a[1..], c, b, dir);
        ShortReplaced(a, dir);
        Assoc([a[0]], Replaced(a[1..], dir), [c]);
        Assoc([a[0]], Replaced(a[1..], dir) + [c], Replaced(b, dir));
      }
    }
  }

  lemma NothingReplaced(dir: string)
    ensures Replaced([], dir) == []
  {
  }

  lemma ShortReplaced(a: string, dir: string)
    requires a != [] && (|a| < |MACRO| || a[..|MACRO|] != MACRO)
    ensures Replaced(a, dir) == [a[0]] + Replaced(a[1..], dir)
  {
  }

  /** Text in which no macro can begin is kept. */
  lemma {:induction false} ReplacedPast(e: string, rest: string, dir: string)
    requires 'R' !in e
    ensures Replaced(e + rest, dir) == e + Replaced(rest, dir)
  {
    if e == [] {
      assert e + rest == rest;
    } else {
      var s := e + rest;
      assert s[1..] == e[1..] + rest && e[0] in e;
      ReplacedPast(e[1..], rest, dir);
      assert |s| >= |MACRO| ==> s[..|MACRO|][0] == e[0];
      ShortReplaced(s, dir);
    }
  }

  predicate Printable(c: char) { EscapeChar(c) == [c] }

  lemma PrefixStep(c: char, p: string, t: string)
    requires p != []
    ensures p <= [c] + t <==> p[0] == c && p[1..] <= t
  {
    assert ([c] + t)[1..] == t && p == [p[0]] + p[1..];
    if p <= [c] + t {
      assert p[1..] == ([c] + t)[..|p|][1..] == t[..|p| - 1];
    }
  }

  lemma EscapedStep(s: string)
    requires s != []
    ensures s == [s[0]] + s[1..] && Escaped(s) == EscapeChar(s[0]) + Escaped(s[1..])
  {
  }

  /** A prefix made of characters that print as themselves is a prefix of the printed text exactly when it is one of
      the text. */
  lemma {:induction false} EscapedPrefix(s: string, p: string)
    requires forall c :: c in p ==> Printable(c) && c != BACKSLASH
    ensures p <= Escaped(s) <==> p <= s
  {
    if p == [] || s == [] {
    } else {
      hide Escaped;
      EscapedStep(s);
      assert p[0] in p;
      PrefixStep(s[0], p, s[1..]);
      if Printable(s[0]) {
        PrefixStep(s[0], p, Escaped(s[1..]));
        if p[0] == s[0] {
          assert forall c :: c in p[1..] ==> c in p;
          EscapedPrefix(s[1..], p[1..]);
        }
      } else {
        assert Escaped(s) == [BACKSLASH] + Escaped(s)[1..];
        PrefixStep(BACKSLASH, p, Escaped(s)[1..]);
      }
    }
  }

  predicate PlainDir(dir: string) { forall c :: c in dir ==> Printable(c) }

  lemma {:induction false} EscapedPlain(dir: string)
    requires PlainDir(dir)
    ensures Escaped(dir) == dir
  {
    if dir == [] {
    } else {
      assert dir[0] in dir;
      EscapedPlain(dir[1..]);
    }
  }

  lemma MacroPrintable()
    ensures forall c :: c in MACRO ==> Printable(c) && c != BACKSLASH
  {
    MacroShape();
  }

  lemma {:induction false} ReplacedEscaped(s: string, dir: string)
    requires PlainDir(dir)
    ensures Replaced(Escaped(s), dir) == Escaped(Replaced(s, dir))
    decreases |s|
  {
    hide Replaced, Escaped;
    MacroPrintable();
    EscapedPrefix(s, MACRO);
    if s == [] {
      NothingReplaced(dir);
      NothingEscaped();
    } else if MACRO <= s {
      ReplacedEscaped(s[|MACRO|..], dir);
      EscapedMatched(s, dir);
    } else {
      ReplacedEscaped(s[1..], dir);
      EscapedUnmatched(s, dir);
    }
  }

  lemma NothingEscaped()
    ensures Escaped([]) == []
  {
  }

  lemma EscapedMatched(s: string, dir: string)
    requires PlainDir(dir) && MACRO <= s
    requires Replaced(Escaped(s[|MACRO|..]), dir) == Escaped(Replaced(s[|MACRO|..], dir))
    ensures Replaced(Escaped(s), dir) == Escaped(Replaced(s, dir))
  {
    hide Replaced, Escaped;
    var rest := s[|MACRO|..];
    assert s == MACRO + rest;
    EscapedConcat(MACRO, rest);
    MacroPrintable();
    EscapedPlain(MACRO);
    assert (MACRO + Escaped(rest))[|MACRO|..] == Escaped(rest);
    ReplacedMatch(Escaped(s), dir);
    ReplacedMatch(s, dir);
    EscapedConcat(dir, Replaced(rest, dir));
    EscapedPlain(dir);
  }

  lemma EscapedUnmatched(s: string, dir: string)
    requires s != [] && !(MACRO <= s) && !(MACRO <= Escaped(s))
    requires Replaced(Escaped(s[1..]), dir) == Escaped(Replaced(s[1..], dir))
    ensures Replaced(Escaped(s), dir) == Escaped(Replaced(s, dir))
  {
    var c, e := s[0], EscapeChar(s[0]);
    assert |s| >= |MACRO| ==> s[..|MACRO|] != MACRO;
    ShortReplaced(s, dir);
    assert ([c] + Replaced(s[1..], dir))[1..] == Replaced(s[1..], dir);
    assert Escaped(Replaced(s, dir)) == e + Escaped(Replaced(s[1..], dir));
    if e == [c] {
      var t := Escaped(s);
      assert t[1..] == Escaped(s[1..]);
      assert |t| >= |MACRO| ==> t[..|MACRO|] != MACRO;
      ShortReplaced(t, dir);
    } else {
      if IsControl(c) { ControlEscapeShape(c); }
      ReplacedPast(e, Escaped(s[1..]), dir);
    }
  }

  lemma ReplacedPrinted(s: string, dir: string)
    requires PlainDir(dir)
    ensures Replaced(Printed(s), dir) == Printed(Replaced(s, dir))
  {
    MacroShape();
    assert Printed(s) == [] + [QUOTE] + (Escaped(s) + [QUOTE] + []);
    ReplacedSeam([], QUOTE, Escaped(s) + [QUOTE] + [], dir);
    ReplacedSeam(Escaped(s), QUOTE, [], dir);
    ReplacedEscaped(s, dir);
    assert Replaced([], dir) == [];
  }

  // ----- the whole pipeline -----

  /** The text a request for one profile's command hands to the shell. */
  function SingleRun(command: string, dir: string): string {
    ShellText(Backgrounded(Printed(command)), dir)
  }

  /** The text an append request hands to the shell. */
  function AppendRun(staticCmd: string, dynamicCmd: string, dir: string): string {
    ShellText(Merged(Backgrounded(Printed(staticCmd)), Backgrounded(Printed(dynamicCmd))), dir)
  }

  /** What one command is meant to become. */
  function Meaning(command: string, dir: string): string { Replaced(Backgrounded(command), dir) }

  lemma SingleRunIs(a: string, dir: string)
    requires PlainDir(dir)
    ensures SingleRun(a, dir) == Unquoted(Printed(Meaning(a, dir)))
  {
    BackgroundPrinted(a);
    ReplacedPrinted(Backgrounded(a), dir);
  }

  lemma AppendRunIs(a: string, b: string, dir: string)
    requires PlainDir(dir)
    ensures AppendRun(a, b, dir) == Unquoted(Printed(Meaning(a, dir) + ";" + Meaning(b, dir)))
  {
    hide Printed, Replaced, Backgrounded, Unquoted, Merged;
    BackgroundPrinted(a);
    BackgroundPrinted(b);
    MergedPrinted(Backgrounded(a), Backgrounded(b));
    ReplacedPrinted(Backgrounded(a) + ";" + Backgrounded(b), dir);
    MacroShape();
    ReplacedSeam(Backgrounded(a), ';', Backgrounded(b), dir);
  }

  lemma {:induction false} PlainReplaced(s: string, dir: string)
    requires Plain(dir)
    ensures Plain(Replaced(s, dir)) <==> Plain(s)
    decreases |s|
  {
    MacroShape();
    if |s| < |MACRO| {
    } else {
      if s[..|MACRO|] == MACRO {
        PlainReplaced(s[|MACRO|..], dir);
        assert s == MACRO + s[|MACRO|..];
        assert forall c :: c in s <==> c in MACRO || c in s[|MACRO|..];
      } else {
        PlainReplaced(s[1..], dir);
        assert s == [s[0]] + s[1..];
        assert forall c :: c in s <==> c == s[0] || c in s[1..];
      }
    }
  }

  lemma {:induction false} PlainBackground(amp: bool, s: string)
    ensures Plain(BackgroundFrom(amp, s)) <==> Plain(s)
    decreases |s|
  {
    if s == [] {
    } else {
      PlainBackground(s[0] == '&', s[1..]);
      assert s == [s[0]] + s[1..];
    }
  }

  lemma PlainMeaning(s: string, dir: string)
    requires PlainDir(dir)
    ensures Plain(Meaning(s, dir)) <==> Plain(s)
  {
    assert Plain(dir) by {
      forall c | c in dir
        ensures IsPlain(c)
      {
        assert Printable(c) && |EscapeChar(c)| == 1;
      }
    }
    PlainReplaced(Backgrounded(s), dir);
    PlainBackground(false, s);
  }

  /** Unescaping works on both sides of a character that is neither quote nor backslash. */
  lemma {:induction false} UnescapedSeam(p: string, c: char, rest: string)
    requires c != QUOTE && c != BACKSLASH
    ensures Unescaped(p + [c] + rest) == Unescaped(p) + [c] + Unescaped(rest)
    decreases |p|
  {
    hide Unescaped;
    if p == [] {
      assert p + [c] + rest == [c] + rest;
      UnescapedOther(c, rest);
      NothingUnescaped();
      assert [] + [c] == [c];
    } else if |p| >= 2 && p[0] == BACKSLASH && p[1] == QUOTE {
      assert p == [BACKSLASH, QUOTE] + p[2..];
      UnescapedSeam(p[2..], c, rest);
      UnescapedQuoteEscape(p[2..]);
      UnescapedQuoteEscape(p[2..] + [c] + rest);
      assert p + [c] + rest == [BACKSLASH, QUOTE] + (p[2..] + [c] + rest);
    } else {
      assert p == [p[0]] + p[1..];
      UnescapedSeam(p[1..], c, rest);
      assert |p| >= 2 ==> p[1..][0] == p[1];
      UnescapedOther(p[0], p[1..]);
      assert (p[1..] + [c] + rest)[0] == if |p| == 1 then c else p[1];
      UnescapedOther(p[0], p[1..] + [c] + rest);
      assert p + [c] + rest == [p[0]] + (p[1..] + [c] + rest);
    }
  }

  lemma NothingUnescaped()
    ensures Unescaped([]) == []
  {
  }

  /** An append request hands the shell what requests for its two commands would hand it, joined by a semicolon. */
  lemma AppendIsTwoSingles(a: string, b: string, dir: string)
    requires PlainDir(dir)
    ensures AppendRun(a, b, dir) == SingleRun(a, dir) + ";" + SingleRun(b, dir)
  {
    hide Meaning, Escaped, Unescaped, Unquoted, Printed, AppendRun, SingleRun;
    var x, y := Meaning(a, dir), Meaning(b, dir);
    AppendRunIs(a, b, dir);
    SingleRunIs(a, dir);
    SingleRunIs(b, dir);
    UnquotedPrinted(x);
    UnquotedPrinted(y);
    UnquotedPrinted(x + ";" + y);
    EscapedJoin(x, y);
    UnescapedSeam(Escaped(x), ';', Escaped(y));
  }

  lemma EscapedJoin(x: string, y: string)
    ensures Escaped(x + ";" + y) == Escaped(x) + [';'] + Escaped(y)
  {
    EscapedConcat(x + ";", y);
    EscapedConcat(x, ";");
    assert Escaped(";") == [';'] by { assert ";"[1..] == []; }
  }

  /** A command reaches the shell as it is meant exactly when it holds no backslash and no control character. */
  lemma SingleRunMeaning(a: string, dir: string)
    requires PlainDir(dir)
    ensures SingleRun(a, dir) == Meaning(a, dir) <==> Plain(a)
  {
    hide Meaning, SingleRun, Unquoted, Printed;
    SingleRunIs(a, dir);
    UnquotingUndoesPrinting(Meaning(a, dir));
    PlainMeaning(a, dir);
  }

  /** An append request hands the shell the static and the dynamic command, each fixed and substituted on its own,
      joined by a semicolon, exactly when neither holds a backslash or a control character. */
  lemma AppendRunMeaning(a: string, b: string, dir: string)
    requires PlainDir(dir)
    ensures AppendRun(a, b, dir) == Meaning(a, dir) + ";" + Meaning(b, dir) <==> Plain(a) && Plain(b)
  {
    hide Meaning, AppendRun, Unquoted, Printed;
    AppendRunIs(a, b, dir);
    var x, y := Meaning(a, dir), Meaning(b, dir);
    UnquotingUndoesPrinting(x + ";" + y);
    PlainMeaning(a, dir);
    PlainMeaning(b, dir);
    assert Plain(x + ";" + y) <==> Plain(x) && Plain(y) by {
      assert forall c :: c in x + ";" + y <==> c in x || c == ';' || c in y;
    }
  }
}
