/** What survives of the pattern check, and what is left of macros, after the stages that follow it. */
module CommandFilter {
  import opened CString
  import opened Commands
  import opened CommandMeaning
  import opened Sequences

  // ----- substrings across seams -----

  lemma {:induction false} OccursPrefix(s: string, q: string)
    ensures Occurs(s, q) <==> q <= s || (s != [] && Occurs(s[1..], q))
  {
    if Occurs(s, q) {
      var i: nat :| OccursAt(s, q, i);
      if i > 0 {
        assert s[1..][i - 1..i - 1 + |q|] == s[i..i + |q|];
        assert OccursAt(s[1..], q, i - 1);
      } else {
        assert q == s[0..0 + |q|];
      }
    }
    if q <= s {
      assert OccursAt(s, q, 0);
    }
    if s != [] && Occurs(s[1..], q) {
      var i: nat :| OccursAt(s[1..], q, i);
      assert s[1..][i..i + |q|] == s[i + 1..i + 1 + |q|];
      assert OccursAt(s, q, i + 1);
    }
  }

  lemma PrefixBeforeSeam(a: string, c: char, b: string, q: string)
    requires c !in q
    ensures q <= a + [c] + b <==> q <= a
  {
    var s := a + [c] + b;
    assert s[|a|] == c;
    assert forall i :: 0 <= i < |q| ==> q[i] in q;
    if q <= s {
      assert forall i :: 0 <= i < |q| ==> s[i] == q[i];
      assert |q| <= |a|;
      assert a[..|q|] == s[..|q|];
    }
  }

  /** A pattern without c occurs on one of the sides of c or nowhere. */
  lemma {:induction false} OccursSeam(a: string, c: char, b: string, q: string)
    requires c !in q
    ensures Occurs(a + [c] + b, q) <==> Occurs(a, q) || Occurs(b, q)
    decreases |a|
  {
    var s := a + [c] + b;
    OccursPrefix(s, q);
    PrefixBeforeSeam(a, c, b, q);
    OccursPrefix(a, q);
    if a == [] {
      assert s[1..] == b;
      assert q <= a ==> q == [] && q <= b;
      OccursPrefix(b, q);
    } else {
      assert s[1..] == a[1..] + [c] + b;
      OccursSeam(a[1..], c, b, q);
    }
  }

  /** Neither text lies in the other, and no end of one is a beginning of the other. */
  ghost predicate Apart(dir: string, q: string) {
    && !Occurs(dir, q) && !Occurs(q, dir)
    && (forall k :: 0 < k < |q| ==> !(q[k..] <= dir))
    && (forall k :: 0 < k < |q| ==> !EndsWith(dir, q[..k]))
  }

  /** A pattern apart from a text does not arise by putting that text between two others. */
  lemma OccursBetween(a: string, dir: string, b: string, q: string)
    requires Apart(dir, q)
    ensures Occurs(a + dir + b, q) ==> Occurs(a, q) || Occurs(b, q)
  {
    hide Apart;
    var s := a + dir + b;
    assert s == a + (dir + b);
    var from, to := |a|, |a| + |dir|;
    if i: nat :| OccursAt(s, q, i) {
      if i + |q| <= from {
        OccursLeft(a, dir + b, q, i);
      } else if i >= to {
        OccursRight(a + dir, b, q, i);
      } else {
        ReachingIn(s, from, to, i, dir, q);
      }
    }
  }

  lemma OccursLeft(a: string, b: string, q: string, i: nat)
    requires OccursAt(a + b, q, i) && i + |q| <= |a|
    ensures Occurs(a, q)
  {
    assert a[i..i + |q|] == (a + b)[i..i + |q|];
    assert OccursAt(a, q, i);
  }

  lemma OccursRight(a: string, b: string, q: string, i: nat)
    requires OccursAt(a + b, q, i) && i >= |a|
    ensures Occurs(b, q)
  {
    var j := i - |a|;
    assert b[j..j + |q|] == (a + b)[i..i + |q|];
    assert OccursAt(b, q, j);
  }

  /** A pattern that reaches into a text, and is not just elsewhere, is not apart from it. */
  lemma ReachingIn(s: string, from: nat, to: nat, i: nat, dir: string, q: string)
    requires from <= to <= |s| && s[from..to] == dir
    requires OccursAt(s, q, i) && i < to && from < i + |q|
    ensures !Apart(dir, q)
  {
    var end := i + |q|;
    if i <= from && to <= end {
      SliceOfSlice(s, i, end, from - i, to - i);
      assert OccursAt(q, dir, from - i);
    } else if from <= i && end <= to {
      SliceOfSlice(s, from, to, i - from, end - from);
      assert OccursAt(dir, q, i - from);
    } else if i < from {
      SliceOfSlice(s, i, end, from - i, |q|);
      SliceOfSlice(s, from, to, 0, end - from);
      assert q[from - i..] == q[from - i..|q|] && dir[..end - from] == dir[0..end - from];
    } else {
      SliceOfSlice(s, i, end, 0, to - i);
      SliceOfSlice(s, from, to, i - from, |dir|);
      assert q[..to - i] == q[0..to - i] && dir[i - from..] == dir[i - from..|dir|];
      assert EndsWith(dir, q[..to - i]);
    }
  }

  /** A directory whose first and last characters are foreign to a pattern it does not hold is apart from it. */
  lemma ForeignEndsApart(dir: string, q: string)
    requires dir != [] && dir[0] !in q && dir[|dir| - 1] !in q && !Occurs(dir, q)
    ensures Apart(dir, q)
  {
    forall i: nat
      ensures !OccursAt(q, dir, i)
    {
      if i + |dir| <= |q| {
        assert q[i] in q && q[i..i + |dir|][0] == q[i];
      }
    }
    forall k | 0 < k < |q|
      ensures !(q[k..] <= dir) && !EndsWith(dir, q[..k])
    {
      assert q[k..][0] in q && q[..k][k - 1] in q;
      if k <= |dir| {
        assert dir[|dir| - k..][k - 1] == dir[|dir| - 1];
      }
    }
  }

  /** The text before the first macro. */
  function Stretch(s: string): (n: nat)
    ensures n <= |s|
  {
    if |s| < |MACRO| then |s| else if s[..|MACRO|] == MACRO then 0 else 1 + Stretch(s[1..])
  }

  lemma {:induction false} StretchIs(s: string, dir: string)
    ensures var n := Stretch(s);
            && !Occurs(s[..n], MACRO)
            && if MACRO <= s[n..] then Replaced(s, dir) == s[..n] + dir + Replaced(s[n..][|MACRO|..], dir)
               else n == |s| && Replaced(s, dir) == s
    decreases |s|
  {
    if |s| < |MACRO| {
      assert s[..|s|] == s && s[|s|..] == [];
    } else if s[..|MACRO|] == MACRO {
      assert s[..0] == [] && s[0..] == s;
      assert s[..0] + dir == dir;
    } else {
      StretchIs(s[1..], dir);
      StretchFree(s);
      StretchStep(s, dir);
    }
  }

  lemma StretchStep(s: string, dir: string)
    requires |s| >= |MACRO| && s[..|MACRO|] != MACRO
    requires var t, n := s[1..], Stretch(s[1..]);
             if MACRO <= t[n..] then Replaced(t, dir) == t[..n] + dir + Replaced(t[n..][|MACRO|..], dir)
             else n == |t| && Replaced(t, dir) == t
    ensures var n := Stretch(s);
            if MACRO <= s[n..] then Replaced(s, dir) == s[..n] + dir + Replaced(s[n..][|MACRO|..], dir)
            else n == |s| && Replaced(s, dir) == s
  {
    var t, n := s[1..], Stretch(s[1..]);
    ShortReplaced(s, dir);
    hide Replaced;
    assert t[n..] == s[n + 1..] && s[..n + 1] == [s[0]] + t[..n];
    assert s == [s[0]] + t;
    if MACRO <= t[n..] {
      var rest := Replaced(t[n..][|MACRO|..], dir);
      Assoc(t[..n], dir, rest);
      Assoc([s[0]], t[..n], dir + rest);
      Assoc(s[..n + 1], dir, rest);
    }
  }

  lemma TakenPrefix(s: string, n: nat, p: string)
    requires n <= |s| && p <= s[..n]
    ensures p <= s
  {
  }

  lemma StretchFree(s: string)
    requires |s| >= |MACRO| && s[..|MACRO|] != MACRO && !Occurs(s[1..][..Stretch(s[1..])], MACRO)
    ensures !Occurs(s[..Stretch(s)], MACRO)
  {
    var t := s[..Stretch(s)];
    assert t[1..] == s[1..][..Stretch(s[1..])];
    hide Stretch, Occurs;
    OccursPrefix(t, MACRO);
    if MACRO <= t {
      TakenPrefix(s, Stretch(s), MACRO);
    }
  }

  /** Substrings of a text without a pattern are without it. */
  lemma OccursWithin(s: string, q: string, from: nat, to: nat)
    requires from <= to <= |s| && Occurs(s[from..to], q)
    ensures Occurs(s, q)
  {
    var u := s[from..to];
    var i: nat :| OccursAt(u, q, i);
    forall k | 0 <= k < |q|
      ensures s[from + i + k] == q[k]
    {
      assert u[i..i + |q|][k] == u[i + k];
    }
    assert s[from + i..from + i + |q|] == q;
    assert OccursAt(s, q, from + i);
  }

  /** Substitution brings a pattern in only with the directory. */
  lemma {:induction false} ReplacedFree(s: string, dir: string, q: string)
    requires Apart(dir, q) && !Occurs(s, q)
    ensures !Occurs(Replaced(s, dir), q)
    decreases |s|
  {
    hide Replaced, Stretch, Occurs, Apart;
    var n := Stretch(s);
    StretchIs(s, dir);
    if MACRO <= s[n..] {
      var rest := s[n..][|MACRO|..];
      assert s[..n] == s[0..n] && rest == s[n + |MACRO|..|s|];
      if Occurs(s[..n], q) { OccursWithin(s, q, 0, n); }
      if Occurs(rest, q) { OccursWithin(s, q, n + |MACRO|, |s|); }
      ReplacedFree(rest, dir, q);
      OccursBetween(s[..n], dir, Replaced(rest, dir), q);
    }
  }

  /** With a directory apart from the macro, none is left. */
  lemma {:induction false} NoMacroLeft(s: string, dir: string)
    requires Apart(dir, MACRO)
    ensures !Occurs(Replaced(s, dir), MACRO)
    decreases |s|
  {
    hide Replaced, Stretch, Occurs, Apart;
    var n := Stretch(s);
    StretchIs(s, dir);
    if MACRO <= s[n..] {
      var rest := s[n..][|MACRO|..];
      NoMacroLeft(rest, dir);
      OccursBetween(s[..n], dir, Replaced(rest, dir), MACRO);
    } else {
      assert s[..n] == s;
    }
  }

  /** The background fix writes blanks only, each behind an '&'. */
  lemma BackgroundFree(s: string, q: string)
    requires q != [] && q[0] != ' ' && '&' !in q && !Occurs(s, q)
    ensures !Occurs(Backgrounded(s), q)
  {
    var r := Backgrounded(s);
    if Occurs(r, q) {
      var i: nat :| OccursAt(r, q, i);
      forall k | 0 <= k < |q|
        ensures s[i + k] == q[k]
      {
        BackgroundFromAt(false, s, i + k);
        assert r[i..i + |q|][k] == r[i + k] && q[k] in q;
        if k > 0 {
          assert r[i..i + |q|][k - 1] == r[i + (k - 1)] && q[k - 1] in q;
          BackgroundFromAt(false, s, i + (k - 1));
        }
      }
      assert s[i..i + |q|] == q;
      assert OccursAt(s, q, i);
    }
  }

  lemma UnescapedHead(s: string)
    requires s != []
    ensures Unescaped(s) != []
    ensures Unescaped(s)[0] != QUOTE ==> Unescaped(s) == [s[0]] + Unescaped(s[1..])
  {
  }

  lemma {:induction false} UnescapedPrefix(s: string, q: string)
    requires QUOTE !in q && q <= Unescaped(s)
    ensures q <= s
  {
    if q == [] {
    } else {
      assert q[0] in q && q[0] == Unescaped(s)[0];
      UnescapedHead(s);
      assert forall c :: c in q[1..] ==> c in q;
      PrefixStep(s[0], q, Unescaped(s[1..]));
      UnescapedPrefix(s[1..], q[1..]);
      PrefixStep(s[0], q, s[1..]);
      assert s == [s[0]] + s[1..];
    }
  }

  /** Unescaping brings no pattern without a quote in. */
  lemma {:induction false} UnescapedFree(s: string, q: string)
    requires q != [] && QUOTE !in q && !Occurs(s, q)
    ensures !Occurs(Unescaped(s), q)
    decreases |s|
  {
    if s == [] {
    } else {
      var u := Unescaped(s);
      OccursPrefix(u, q);
      OccursPrefix(s, q);
      if q <= u { UnescapedPrefix(s, q); }
      UnescapedFree(s[1..], q);
      if |s| >= 2 && s[0] == BACKSLASH && s[1] == QUOTE {
        OccursPrefix(s[1..], q);
        UnescapedFree(s[2..], q);
        assert s[1..][1..] == s[2..] && u[1..] == Unescaped(s[2..]);
      } else {
        assert u[1..] == Unescaped(s[1..]);
      }
    }
  }

  /** What the filter needs of a pattern: nothing that the stages after the check add, remove or rewrite. */
  predicate Pattern(q: string) {
    q != [] && q[0] != ' ' && '&' !in q && ';' !in q && QUOTE !in q
  }

  /** What a directory must be for the verdict on a pattern to hold up to the shell: apart from the pattern, unless
      the pattern lies in every macro, or holds a macro. */
  ghost predicate Lasting(dir: string, q: string) {
    Apart(dir, q) || Occurs(MACRO, q) || (Occurs(q, MACRO) && Apart(dir, MACRO))
  }

  lemma InsideQuotes(x: string, q: string)
    requires QUOTE !in q
    ensures Occurs([QUOTE] + x + [QUOTE], q) <==> Occurs(x, q) || q == []
  {
    assert [QUOTE] + x + [QUOTE] == [] + [QUOTE] + (x + [QUOTE] + []);
    OccursSeam([], QUOTE, x + [QUOTE] + [], q);
    OccursSeam(x, QUOTE, [], q);
    assert q == [] ==> OccursAt(x, q, 0);
  }

  lemma OccursThrough(s: string, q: string, p: string)
    requires Occurs(s, q) && Occurs(q, p)
    ensures Occurs(s, p)
  {
    var i: nat :| OccursAt(s, q, i);
    assert s[i..i + |q|] == q;
    OccursWithin(s, p, i, i + |q|);
  }

  lemma NothingToReplace(s: string, dir: string)
    requires !Occurs(s, MACRO)
    ensures Replaced(s, dir) == s
  {
    ReplacedSkip(s, dir, 0, |s|);
    assert s[0..] == s && s[|s|..] == [] && s[0..|s|] == s;
  }

  /** Substitution brings no such pattern in. */
  lemma SubstitutedFree(s: string, dir: string, q: string)
    requires Lasting(dir, q) && !Occurs(s, q)
    ensures !Occurs(Replaced(s, dir), q)
  {
    hide Replaced, Occurs, Apart;
    if Apart(dir, q) {
      ReplacedFree(s, dir, q);
    } else if Occurs(MACRO, q) {
      if Occurs(s, MACRO) { OccursThrough(s, MACRO, q); }
      NothingToReplace(s, dir);
    } else {
      NoMacroLeft(s, dir);
      if Occurs(Replaced(s, dir), q) { OccursThrough(Replaced(s, dir), q, MACRO); }
    }
  }

  /** One command: what was checked has no pattern, so neither has its meaning when printed. */
  lemma MeaningFree(command: string, dir: string, q: string)
    requires PlainDir(dir) && Pattern(q) && Lasting(dir, q) && !Occurs(Printed(command), q)
    ensures !Occurs(Escaped(Meaning(command, dir)), q)
  {
    InsideQuotes(Escaped(command), q);
    BackgroundFree(Escaped(command), q);
    BackgroundEscaped(false, command);
    SubstitutedFree(Escaped(Backgrounded(command)), dir, q);
    ReplacedEscaped(Backgrounded(command), dir);
  }

  /** A pattern found absent by the check stays absent from what the shell gets. */
  lemma FilterHoldsForSingle(command: string, dir: string, q: string)
    requires PlainDir(dir) && Pattern(q) && Lasting(dir, q) && !Occurs(Printed(command), q)
    ensures !Occurs(SingleRun(command, dir), q)
  {
    hide Lasting, Meaning, SingleRun;
    MeaningFree(command, dir, q);
    SingleRunIs(command, dir);
    UnquotedPrinted(Meaning(command, dir));
    UnescapedFree(Escaped(Meaning(command, dir)), q);
  }

  /** And so for the merged command of an append request, when it is absent from both. */
  lemma FilterHoldsForAppend(a: string, b: string, dir: string, q: string)
    requires PlainDir(dir) && Pattern(q) && Lasting(dir, q)
    requires !Occurs(Printed(a), q) && !Occurs(Printed(b), q)
    ensures !Occurs(AppendRun(a, b, dir), q)
  {
    hide Lasting, Meaning, AppendRun;
    var x, y := Meaning(a, dir), Meaning(b, dir);
    MeaningFree(a, dir, q);
    MeaningFree(b, dir, q);
    EscapedJoin(x, y);
    OccursSeam(Escaped(x), ';', Escaped(y), q);
    AppendRunIs(a, b, dir);
    UnquotedPrinted(x + ";" + y);
    UnescapedFree(Escaped(x + ";" + y), q);
  }

  // ----- where the filter fails -----

  /** A command that passes the check and brings the pattern to the shell. */
  ghost predicate Evades(command: string, dir: string, q: string) {
    !Occurs(Printed(command), q) && Occurs(SingleRun(command, dir), q)
  }

  /** No end of a macro is a beginning of one. */
  lemma MacroHasNoBorder(k: nat)
    requires 0 < k < |MACRO|
    ensures MACRO[0] == 'R' && MACRO[k..][0] == MACRO[k]
    ensures !(MACRO[k..] <= MACRO)
  {
    if k == 1 {
      assert MACRO[1..][1] == 'D' && MACRO[1] == 'R';
    } else {
      assert MACRO[k] != 'R';
    }
  }

  lemma NoEarlierMacro(u: string, v: string)
    requires u != [] && !Occurs(u, MACRO)
    ensures !(MACRO <= u + MACRO + v)
  {
    if MACRO <= u + MACRO + v {
      if |u| >= |MACRO| {
        assert u + MACRO + v == u + (MACRO + v);
        OccursInFront(u, MACRO + v, MACRO);
      } else {
        EarlierMacroIsBorder(u, v);
        MacroHasNoBorder(|u|);
      }
    }
  }

  lemma OccursInFront(u: string, v: string, p: string)
    requires |p| <= |u| && p <= u + v
    ensures Occurs(u, p)
  {
    assert u[0..0 + |p|] == (u + v)[..|p|] == p;
    assert OccursAt(u, p, 0);
  }

  lemma EarlierMacroIsBorder(u: string, v: string)
    requires |u| < |MACRO| && MACRO <= u + MACRO + v
    ensures MACRO[|u|..] <= MACRO
  {
    var c := u + MACRO + v;
    assert MACRO[|u|..] == c[..|MACRO|][|u|..] == c[|u|..|MACRO|] == MACRO[..|MACRO| - |u|];
  }

  /** A macro between two texts that hold none is the one that is replaced. */
  lemma {:induction false} ReplacedOne(u: string, v: string, dir: string)
    requires !Occurs(u, MACRO) && !Occurs(v, MACRO)
    ensures Replaced(u + MACRO + v, dir) == u + dir + v
    decreases |u|
  {
    hide Replaced, Occurs;
    var c := u + MACRO + v;
    if u == [] {
      assert c == MACRO + v && c[|MACRO|..] == v;
      ReplacedMatch(c, dir);
      NothingToReplace(v, dir);
      assert [] + dir == dir;
    } else {
      NoEarlierMacro(u, v);
      NotAMacro(c);
      ShortReplaced(c, dir);
      assert c[1..] == u[1..] + MACRO + v;
      if Occurs(u[1..], MACRO) {
        assert u[1..] == u[1..|u|];
        OccursWithin(u, MACRO, 1, |u|);
      }
      ReplacedOne(u[1..], v, dir);
      assert [u[0]] + (u[1..] + dir + v) == u + dir + v;
    }
  }

  /** A pattern with a character foreign to the macro where only the macro could supply it does not occur. */
  lemma NotAround(u: string, v: string, q: string, j: nat)
    requires |u| <= j < |q| - |v| && q[j] !in MACRO
    ensures !Occurs(u + MACRO + v, q)
  {
    var c := u + MACRO + v;
    forall i: nat
      ensures !OccursAt(c, q, i)
    {
      if OccursAt(c, q, i) {
        MacroSupplies(u, v, q, i, j);
      }
    }
  }

  lemma MacroSupplies(u: string, v: string, q: string, i: nat, j: nat)
    requires OccursAt(u + MACRO + v, q, i) && |u| <= j < |q| - |v|
    ensures q[j] in MACRO
  {
    var c := u + MACRO + v;
    assert q[j] == c[i..i + |q|][j] == c[i + j] == MACRO[i + j - |u|];
  }

  lemma WitnessEvades(u: string, v: string, dir: string, q: string)
    requires PlainDir(dir) && Pattern(q) && Plain(q) && (forall c :: c in u + v ==> c in q)
    requires !Occurs(u, MACRO) && !Occurs(v, MACRO)
    requires !Occurs(u + MACRO + v, q) && Occurs(u + dir + v, q)
    ensures Plain(u + MACRO + v) && Meaning(u + MACRO + v, dir) == u + dir + v && Evades(u + MACRO + v, dir, q)
  {
    hide Occurs, Replaced, SingleRun, Printed, Escaped, Unquoted;
    var command := u + MACRO + v;
    MacroPrintable();
    forall c | c in command
      ensures Printable(c) && IsPlain(c) && c != '&'
    {
      assert c in u + v || c in MACRO;
    }
    EscapedPlain(command);
    PrintedIs(command);
    InsideQuotes(command, q);
    NoAmpersand(command);
    ReplacedOne(u, v, dir);
    SingleRunMeaning(command, dir);
  }

  lemma NoAmpersand(s: string)
    requires '&' !in s
    ensures Backgrounded(s) == s
  {
    BackgroundAt(s);
    forall i | 0 <= i < |s|
      ensures Backgrounded(s)[i] == s[i]
    {
      if i > 0 { assert s[i - 1] in s; }
    }
  }

  lemma PrintedIs(s: string)
    ensures Printed(s) == [QUOTE] + Escaped(s) + [QUOTE]
  {
  }

  /** An end of the pattern that begins the directory: what precedes it, in front of a macro. */
  lemma SuffixEvades(dir: string, q: string, k: nat)
    requires PlainDir(dir) && Pattern(q) && Plain(q) && !Occurs(q, MACRO)
    requires dir != [] && dir[0] !in MACRO && 0 < k < |q| && q[k..] <= dir
    ensures Plain(q[..k] + MACRO + []) && Meaning(q[..k] + MACRO + [], dir) == q[..k] + dir + []
    ensures Evades(q[..k] + MACRO + [], dir, q)
  {
    var u, s := q[..k], q[..k] + dir + [];
    if Occurs(u, MACRO) { assert u == q[0..k]; OccursWithin(q, MACRO, 0, k); }
    assert q[k] == q[k..][0] == dir[0];
    NotAround(u, [], q, k);
    assert s[0..0 + |q|] == q;
    assert OccursAt(s, q, 0);
    WitnessEvades(u, [], dir, q);
  }

  /** A beginning of the pattern that ends the directory: what follows it, behind a macro. */
  lemma PrefixEvades(dir: string, q: string, k: nat)
    requires PlainDir(dir) && Pattern(q) && Plain(q) && !Occurs(q, MACRO)
    requires dir != [] && dir[|dir| - 1] !in MACRO && 0 < k < |q| && EndsWith(dir, q[..k])
    ensures Plain([] + MACRO + q[k..]) && Meaning([] + MACRO + q[k..], dir) == [] + dir + q[k..]
    ensures Evades([] + MACRO + q[k..], dir, q)
  {
    var v, s := q[k..], [] + dir + q[k..];
    if Occurs(v, MACRO) { assert v == q[k..|q|]; OccursWithin(q, MACRO, k, |q|); }
    assert q[k - 1] == q[..k][k - 1] == dir[|dir| - k..][k - 1] == dir[|dir| - 1];
    NotAround([], v, q, k - 1);
    assert s[|dir| - k..|dir| - k + |q|] == dir[|dir| - k..] + v == q;
    assert OccursAt(s, q, |dir| - k);
    WitnessEvades([], v, dir, q);
  }

  /** A pattern around the directory: the macro in the place of the directory. */
  lemma AroundEvades(dir: string, q: string, i: nat)
    requires PlainDir(dir) && Pattern(q) && Plain(q) && !Occurs(q, MACRO)
    requires dir != [] && dir[0] !in MACRO && OccursAt(q, dir, i)
    ensures var u, v := q[..i], q[i + |dir|..];
            Plain(u + MACRO + v) && Meaning(u + MACRO + v, dir) == u + dir + v && Evades(u + MACRO + v, dir, q)
  {
    var u, v := q[..i], q[i + |dir|..];
    if Occurs(u, MACRO) { assert u == q[0..i]; OccursWithin(q, MACRO, 0, i); }
    if Occurs(v, MACRO) { assert v == q[i + |dir|..|q|]; OccursWithin(q, MACRO, i + |dir|, |q|); }
    assert q[i] == q[i..i + |dir|][0] == dir[0];
    NotAround(u, v, q, i);
    assert (u + dir + v)[0..0 + |q|] == u + dir + v == q;
    assert OccursAt(u + dir + v, q, 0);
    WitnessEvades(u, v, dir, q);
  }

  /** A pattern in the directory: the bare macro. */
  lemma InsideEvades(dir: string, q: string)
    requires PlainDir(dir) && Pattern(q) && Plain(q) && Occurs(dir, q) && !Occurs(MACRO, q)
    ensures Plain([] + MACRO + []) && Meaning([] + MACRO + [], dir) == [] + dir + []
    ensures Evades([] + MACRO + [], dir, q)
  {
    assert [] + MACRO + [] == MACRO && [] + dir + [] == dir;
    WitnessEvades([], [], dir, q);
  }

  /** What is known of the output directory: an absolute path that ends in a digit, so in characters no macro has. */
  ghost predicate OutputDir(dir: string) {
    PlainDir(dir) && dir != [] && dir[0] !in MACRO && dir[|dir| - 1] !in MACRO && !Occurs(dir, MACRO)
  }

  lemma Evasion(dir: string, q: string) returns (command: string)
    requires OutputDir(dir) && Pattern(q) && Plain(q) && !Lasting(dir, q)
    ensures Plain(command) && Occurs(Meaning(command, dir), q) && Evades(command, dir, q)
  {
    hide Evades, Meaning, Plain, PlainDir;
    ForeignEndsApart(dir, MACRO);
    if Occurs(dir, q) {
      InsideEvades(dir, q);
      command := [] + MACRO + [];
    } else if i: nat :| OccursAt(q, dir, i) {
      AroundEvades(dir, q, i);
      command := q[..i] + MACRO + q[i + |dir|..];
    } else if k :| 0 < k < |q| && q[k..] <= dir {
      SuffixEvades(dir, q, k);
      command := q[..k] + MACRO + [];
    } else {
      var k :| 0 < k < |q| && EndsWith(dir, q[..k]);
      PrefixEvades(dir, q, k);
      command := [] + MACRO + q[k..];
    }
    PlainRun(command, dir, q);
  }

  lemma PlainRun(command: string, dir: string, q: string)
    requires PlainDir(dir) && Plain(command) && Evades(command, dir, q)
    ensures Occurs(Meaning(command, dir), q)
  {
    SingleRunMeaning(command, dir);
  }

  /** The filter is sound for a pattern, whatever the command, exactly under that condition. */
  lemma FilterExact(dir: string, q: string)
    requires OutputDir(dir) && Pattern(q) && Plain(q)
    ensures (forall command :: !Occurs(Printed(command), q) ==> !Occurs(SingleRun(command, dir), q))
            <==> Lasting(dir, q)
  {
    hide Lasting, Plain, Meaning, SingleRun, Occurs;
    if Lasting(dir, q) {
      forall command | !Occurs(Printed(command), q)
        ensures !Occurs(SingleRun(command, dir), q)
      {
        FilterHoldsForSingle(command, dir, q);
      }
    } else {
      var command := Evasion(dir, q);
      assert Evades(command, dir, q);
    }
  }

  /** And exactly under the same one for append requests. */
  lemma FilterExactForAppend(dir: string, q: string)
    requires OutputDir(dir) && Pattern(q) && Plain(q)
    ensures (forall a, b :: !Occurs(Printed(a), q) && !Occurs(Printed(b), q) ==> !Occurs(AppendRun(a, b, dir), q))
            <==> Lasting(dir, q)
  {
    hide Lasting, Meaning, AppendRun, Occurs;
    if Lasting(dir, q) {
      forall a, b | !Occurs(Printed(a), q) && !Occurs(Printed(b), q)
        ensures !Occurs(AppendRun(a, b, dir), q)
      {
        FilterHoldsForAppend(a, b, dir, q);
      }
    } else {
      var a := Evasion(dir, q);
      AppendEvades(a, dir, q);
    }
  }

  lemma AppendEvades(a: string, dir: string, q: string)
    requires PlainDir(dir) && Pattern(q) && Plain(a) && Occurs(Meaning(a, dir), q)
    ensures !Occurs(Printed(""), q) && Occurs(AppendRun(a, "", dir), q)
  {
    hide Meaning, AppendRun;
    InsideQuotes("", q);
    var x, rest := Meaning(a, dir), ";" + Meaning("", dir);
    AppendRunMeaning(a, "", dir);
    assert (x + rest)[0..|x|] == x;
    OccursWithin(x + rest, q, 0, |x|);
    assert x + rest == x + ";" + Meaning("", dir);
  }

  /** An instance: a harmless-looking argument becomes the listed pattern once the directory takes its place. */
  lemma FilterFailure()
    ensures Evades("rm RRD_LOCATION", "/t1", "rm /")
  {
    var dir, q := "/t1", "rm /";
    assert q[3..] == "/" == dir[..1];
    assert q[..3] + MACRO + [] == "rm RRD_LOCATION";
    forall i: nat
      ensures !OccursAt(q, MACRO, i)
    {
    }
    SuffixEvades(dir, q, 3);
  }

  // ----- what a list entry stands for -----

  /** A listed string: plain, without quotes, its last character no blank; and blanks behind it. */
  predicate Listable(q: string, blanks: string) {
    Plain(q) && QUOTE !in q && (q == [] || q[|q| - 1] != ' ') && forall c :: c in blanks ==> c == ' '
  }

  lemma {:induction false} TrimmedBlanks(q: string, blanks: string)
    requires Listable(q, blanks)
    ensures Trimmed(q + blanks) == q
  {
    if blanks == [] {
      assert q + blanks == q;
      if q != [] {
        assert IsPlain(q[|q| - 1]) by { assert q[|q| - 1] in q; }
      }
    } else {
      var init := blanks[..|blanks| - 1];
      assert blanks[|blanks| - 1] == ' ' by { assert blanks[|blanks| - 1] in blanks; }
      assert (q + blanks)[..|q + blanks| - 1] == q + init;
      assert forall c :: c in init ==> c in blanks;
      TrimmedBlanks(q, init);
    }
  }

  /** The entry of a listed string, printed, stands for the string without quotes and trailing blanks. */
  lemma PatternOfPrinted(q: string, blanks: string)
    requires Listable(q, blanks)
    ensures PatternOf(Printed(q + blanks)) == q
  {
    var s := q + blanks;
    assert forall c :: c in s ==> Printable(c);
    EscapedPlain(s);
    assert Printed(s) == [QUOTE] + s + [QUOTE] by { PrintedIs(s); }
    assert ([QUOTE] + s + [QUOTE])[1..|s| + 1] == s;
    TrimmedBlanks(q, blanks);
  }

  /** A list of such entries. */
  predicate ListOf(sanity: seq<string>, qs: seq<string>, blanks: seq<string>) {
    && |sanity| == |qs| == |blanks|
    && forall k :: 0 <= k < |qs| ==> Listable(qs[k], blanks[k]) && sanity[k] == Printed(qs[k] + blanks[k])
  }

  /** A command is harmful exactly when one of the listed strings is in it. */
  lemma HarmfulExact(cmd: string, sanity: seq<string>, qs: seq<string>, blanks: seq<string>)
    requires ListOf(sanity, qs, blanks)
    ensures Harmful(cmd, sanity) <==> exists k :: 0 <= k < |qs| && Occurs(cmd, qs[k])
  {
    hide PatternOf, Occurs, Listable, Printed;
    forall k | 0 <= k < |qs|
      ensures PatternOf(sanity[k]) == qs[k]
    {
      PatternOfPrinted(qs[k], blanks[k]);
    }
  }

  /** Character by character, what the check may change. */
  predicate OnlyFixed(s: string, r: string, fix: bool) {
    && |r| == |s|
    && forall i :: 0 <= i < |r| ==> r[i] == if fix && s[i] == ';' && i > 0 && s[i - 1] == '&' then ' ' else s[i]
  }

  /** The check, of a command against a list of strings: 1 exactly when one of them is in it; and when none is, every
      ';' behind an '&' becomes a blank, and nothing else changes. */
  method CheckAgainst(issuecmd: array<char>, qs: seq<string>, blanks: seq<string>) returns (rc: int)
    requires Terminated(issuecmd[..])
    requires |qs| == |blanks| && forall k :: 0 <= k < |qs| ==> Listable(qs[k], blanks[k])
    modifies issuecmd
    ensures rc == 1 || rc == 0
    ensures rc == 1 <==> exists k :: 0 <= k < |qs| && Occurs(old(Text(issuecmd[..])), qs[k])
    ensures Terminated(issuecmd[..])
    ensures OnlyFixed(old(Text(issuecmd[..])), Text(issuecmd[..]), rc == 0)
  {
    hide Listable, Harmful, Backgrounded, Text, Printed, OnlyFixed;
    var sanity := seq(|qs|, k requires 0 <= k < |qs| => Printed(qs[k] + blanks[k]));
    ghost var s := Text(issuecmd[..]);
    HarmfulExact(s, sanity, qs, blanks);
    rc := IsCommandsValid(issuecmd, sanity);
    Fixed(s, Text(issuecmd[..]), rc == 0);
  }

  lemma Fixed(s: string, r: string, fix: bool)
    requires r == if fix then Backgrounded(s) else s
    ensures OnlyFixed(s, r, fix)
  {
    forall i | 0 <= i < |r|
      ensures r[i] == if fix && s[i] == ';' && i > 0 && s[i - 1] == '&' then ' ' else s[i]
    {
      if fix {
        BackgroundFromAt(false, s, i);
      }
    }
  }

  // ----- two lists -----

  /** What comes of a pattern itself as one of the two commands. */
  lemma PatternRuns(q: string, dir: string)
    requires PlainDir(dir) && Pattern(q) && Plain(q) && !Occurs(q, MACRO)
    ensures SingleRun(q, dir) == q && Printed(q) == [QUOTE] + q + [QUOTE]
  {
    hide Occurs, Replaced, SingleRun, Escaped;
    NoAmpersand(q);
    NothingToReplace(q, dir);
    SingleRunMeaning(q, dir);
    assert PlainDir(q) by { PatternPrints(q); }
    EscapedPlain(q);
    PrintedIs(q);
  }

  lemma PatternPrints(q: string)
    requires QUOTE !in q && Plain(q)
    ensures PlainDir(q)
  {
  }

  /** A pattern that one of the commands holds is in the result. */
  lemma ListedByOne(q: string, dir: string)
    requires PlainDir(dir) && Pattern(q) && Plain(q) && !Occurs(q, MACRO)
    ensures Occurs(AppendRun("", q, dir), q) && Occurs(AppendRun(q, "", dir), q) && !Occurs(Printed(""), q)
  {
    hide AppendRun, SingleRun;
    PatternRuns(q, dir);
    AppendIsTwoSingles("", q, dir);
    AppendIsTwoSingles(q, "", dir);
    var e := SingleRun("", dir);
    InsideQuotes("", q);
    PrintedNothing();
    var front, back := q + ";" + e, e + ";" + q;
    assert front[0..0 + |q|] == q && back[|e| + 1..|e| + 1 + |q|] == q;
    assert OccursAt(front, q, 0) && OccursAt(back, q, |e| + 1);
  }

  /** The patterns of a list, and each of them such that its verdict holds up to the shell. */
  ghost predicate Sound(sanity: seq<string>, dir: string) {
    forall k :: 0 <= k < |sanity| ==> Pattern(PatternOf(sanity[k])) && Lasting(dir, PatternOf(sanity[k]))
  }

  /** A command that passes a list holds nothing at the shell that the list catches. */
  lemma CaughtBySingle(a: string, dir: string, sanity: seq<string>, q: string)
    requires PlainDir(dir) && Sound(sanity, dir) && !Harmful(Printed(a), sanity) && Harmful(q, sanity)
    ensures !Occurs(SingleRun(a, dir), q)
  {
    hide SingleRun, Lasting, Occurs;
    var k :| 0 <= k < |sanity| && Occurs(q, PatternOf(sanity[k]));
    FilterHoldsForSingle(a, dir, PatternOf(sanity[k]));
    if Occurs(SingleRun(a, dir), q) {
      OccursThrough(SingleRun(a, dir), q, PatternOf(sanity[k]));
    }
  }

  /** What a list does not catch bare, it does not catch in quotes. */
  lemma UncaughtInQuotes(x: string, dir: string, sanity: seq<string>)
    requires Sound(sanity, dir) && !Harmful(x, sanity)
    ensures !Harmful([QUOTE] + x + [QUOTE], sanity)
  {
    hide Occurs, Lasting;
    forall k | 0 <= k < |sanity|
      ensures !Occurs([QUOTE] + x + [QUOTE], PatternOf(sanity[k]))
    {
      InsideQuotes(x, PatternOf(sanity[k]));
    }
  }

  /** An append request, whose two commands are checked against a list each: a pattern stays out of the result, whatever
      the commands, exactly when both lists catch it. */
  lemma AppendListsExact(fixed: seq<string>, dynamic: seq<string>, dir: string, q: string)
    requires PlainDir(dir) && Sound(fixed, dir) && Sound(dynamic, dir)
    requires Pattern(q) && Plain(q) && !Occurs(q, MACRO)
    ensures (forall a, b :: !Harmful(Printed(a), fixed) && !Harmful(Printed(b), dynamic) ==>
                              !Occurs(AppendRun(a, b, dir), q))
            <==> Harmful(q, fixed) && Harmful(q, dynamic)
  {
    hide Harmful, Sound, AppendRun, SingleRun, Occurs, PlainDir;
    if Harmful(q, fixed) && Harmful(q, dynamic) {
      forall a, b | !Harmful(Printed(a), fixed) && !Harmful(Printed(b), dynamic)
        ensures !Occurs(AppendRun(a, b, dir), q)
      {
        CaughtBySingle(a, dir, fixed, q);
        CaughtBySingle(b, dir, dynamic, q);
        AppendIsTwoSingles(a, b, dir);
        OccursSeam(SingleRun(a, dir), ';', SingleRun(b, dir), q);
      }
    } else {
      ListedByOne(q, dir);
      PatternRuns(q, dir);
      PrintedNothing();
      NothingCaught(fixed, dir);
      NothingCaught(dynamic, dir);
      if !Harmful(q, fixed) {
        UncaughtInQuotes(q, dir, fixed);
        assert !Harmful(Printed(q), fixed) && !Harmful(Printed(""), dynamic);
      } else {
        UncaughtInQuotes(q, dir, dynamic);
        assert !Harmful(Printed(""), fixed) && !Harmful(Printed(q), dynamic);
      }
    }
  }

  lemma PrintedNothing()
    ensures Printed("") == [QUOTE] + "" + [QUOTE]
  {
  }

  lemma NothingCaught(sanity: seq<string>, dir: string)
    requires Sound(sanity, dir)
    ensures !Harmful(Printed(""), sanity)
  {
    PrintedNothing();
    UncaughtInQuotes("", dir, sanity);
  }

  // ----- macros left over -----

  lemma ShortTextHasNoMacro(u: string)
    requires |u| < |MACRO|
    ensures !Occurs(u, MACRO)
  {
  }

  /** A text that turns into a macro, or one with a macro in it, when the directory takes the place of its macro. */
  lemma MacroArises(u: string, v: string, dir: string, i: nat)
    requires |u| < |MACRO| && |v| < |MACRO| && OccursAt(u + dir + v, MACRO, i)
    ensures Occurs(Replaced(u + MACRO + v, dir), MACRO)
  {
    ShortTextHasNoMacro(u);
    ShortTextHasNoMacro(v);
    ReplacedOne(u, v, dir);
  }

  lemma MacroInside(dir: string, i: nat)
    requires OccursAt(dir, MACRO, i)
    ensures Occurs(Replaced([] + MACRO + [], dir), MACRO)
  {
    assert [] + dir + [] == dir;
    MacroArises([], [], dir, i);
  }

  lemma MacroAround(dir: string, i: nat)
    requires OccursAt(MACRO, dir, i) && (dir == [] ==> 0 < i < |MACRO|)
    ensures Occurs(Replaced(MACRO[..i] + MACRO + MACRO[i + |dir|..], dir), MACRO)
  {
    hide Replaced, Occurs;
    Around(MACRO, dir, i);
    WholeMacro();
    MacroArises(MACRO[..i], MACRO[i + |dir|..], dir, 0);
  }

  lemma Around(s: string, p: string, i: nat)
    requires OccursAt(s, p, i)
    ensures s[..i] + p + s[i + |p|..] == s
  {
  }

  lemma MacroAcrossStart(dir: string, k: nat)
    requires 0 < k < |MACRO| && MACRO[k..] <= dir
    ensures Occurs(Replaced(MACRO[..k] + MACRO + [], dir), MACRO)
  {
    var u := MACRO[..k];
    assert (u + dir + [])[0..0 + |MACRO|] == u + MACRO[k..] == MACRO;
    MacroArises(u, [], dir, 0);
  }

  lemma MacroAcrossEnd(dir: string, k: nat)
    requires 0 < k < |MACRO| && EndsWith(dir, MACRO[..k])
    ensures Occurs(Replaced([] + MACRO + MACRO[k..], dir), MACRO)
  {
    var v := MACRO[k..];
    assert ([] + dir + v)[|dir| - k..|dir| - k + |MACRO|] == MACRO[..k] + v == MACRO;
    MacroArises([], v, dir, |dir| - k);
  }

  lemma MacroFrom(dir: string) returns (s: string)
    requires !Apart(dir, MACRO)
    ensures Occurs(Replaced(s, dir), MACRO)
  {
    hide Replaced;
    if i: nat :| OccursAt(dir, MACRO, i) {
      MacroInside(dir, i);
      s := [] + MACRO + [];
    } else if i: nat :| OccursAt(MACRO, dir, i) {
      var j := if dir == [] then 1 else i;
      MacroAround(dir, j);
      s := MACRO[..j] + MACRO + MACRO[j + |dir|..];
    } else if k :| 0 < k < |MACRO| && MACRO[k..] <= dir {
      MacroAcrossStart(dir, k);
      s := MACRO[..k] + MACRO + [];
    } else {
      var k :| 0 < k < |MACRO| && EndsWith(dir, MACRO[..k]);
      MacroAcrossEnd(dir, k);
      s := [] + MACRO + MACRO[k..];
    }
  }

  lemma WholeMacro()
    ensures OccursAt(MACRO, MACRO, 0)
  {
    assert MACRO[0..0 + |MACRO|] == MACRO;
  }

  /** Substitution leaves no macro, whatever the command, exactly when directory and macro are apart. */
  lemma NoMacroLeftExact(dir: string)
    ensures (forall s :: !Occurs(Replaced(s, dir), MACRO)) <==> Apart(dir, MACRO)
  {
    hide Apart, Replaced, Occurs;
    if Apart(dir, MACRO) {
      forall s
        ensures !Occurs(Replaced(s, dir), MACRO)
      {
        NoMacroLeft(s, dir);
      }
    } else {
      var s := MacroFrom(dir);
      assert Occurs(Replaced(s, dir), MACRO);
    }
  }

  // ----- "&;" after the merge -----

  /** No "&;" is left in a fixed command. */
  lemma BackgroundClean(s: string)
    ensures !Occurs(Backgrounded(s), "&;")
  {
    var r := Backgrounded(s);
    forall i: nat
      ensures !OccursAt(r, "&;", i)
    {
      if i + 2 <= |s| {
        BackgroundFromAt(false, s, i);
        BackgroundFromAt(false, s, i + 1);
        assert r[i..i + 2] == [r[i], r[i + 1]];
        assert "&;"[0] == '&' && "&;"[1] == ';';
      }
    }
  }

  /** The fix runs before the merge: the merged command holds "&;" exactly when the static command ends in '&'. */
  lemma MergedBackground(a: string, b: string)
    ensures Occurs(Merged(Backgrounded(Printed(a)), Backgrounded(Printed(b))), "&;") <==> a != "" && a[|a| - 1] == '&'
  {
    var x, y := Backgrounded(a), Backgrounded(b);
    BackgroundPrinted(a);
    BackgroundPrinted(b);
    MergedPrinted(x, y);
    EscapedJoin(x, y);
    BackgroundEscaped(false, a);
    BackgroundEscaped(false, b);
    InsideQuotes(Escaped(x + ";" + y), "&;");
    BackgroundClean(Escaped(a));
    BackgroundClean(Escaped(b));
    PairAtSeam(Escaped(x), Escaped(y));
    LastEscaped(a);
  }

  /** "&;" across a semicolon. */
  lemma PairAtSeam(s: string, t: string)
    requires !Occurs(s, "&;") && !Occurs(t, "&;")
    ensures Occurs(s + [';'] + t, "&;") <==> s != [] && s[|s| - 1] == '&'
  {
    var u := s + [';'] + t;
    if s != [] && s[|s| - 1] == '&' {
      assert u[|s| - 1..|s| + 1] == "&;";
      assert OccursAt(u, "&;", |s| - 1);
    } else {
      forall i: nat
        ensures !OccursAt(u, "&;", i)
      {
        if i + 2 <= |u| {
          assert u[i..i + 2] == [u[i], u[i + 1]];
          if i + 1 < |s| {
            assert s[i..i + 2] == u[i..i + 2] && !OccursAt(s, "&;", i);
          } else if i > |s| {
            assert t[i - |s| - 1..i - |s| + 1] == u[i..i + 2] && !OccursAt(t, "&;", i - |s| - 1);
          }
        }
      }
    }
  }

  lemma LastEscaped(a: string)
    ensures var e := Escaped(Backgrounded(a));
            (e != [] && e[|e| - 1] == '&') <==> a != "" && a[|a| - 1] == '&'
  {
    if a != "" {
      var init, c := a[..|a| - 1], a[|a| - 1];
      assert a == init + [c];
      BackgroundConcat(false, init, [c]);
      var amp := init != [] && init[|init| - 1] == '&';
      var fixed := if amp && c == ';' then ' ' else c;
      assert BackgroundFrom(amp, [c]) == [fixed] by { assert [c][1..] == []; }
      EscapedConcat(BackgroundFrom(false, init), [fixed]);
      assert Escaped([fixed]) == EscapeChar(fixed) by { assert [fixed][1..] == []; }
      BackgroundEscapeChar(false, fixed);
    }
  }
}
