/** A request from the profiles to the shell: the command is selected, checked, fixed, merged, substituted and unquoted
    in its buffers, one stage after the other. */
module CommandRun {
  import opened CString
  import opened CommandFilter
  import opened CommandMeaning
  import opened Commands
  import opened Handlers
  import opened IssueName
  import opened Profile
  import opened Protocol

  /** The lengths of the stages fit size_t. */
  predicate Fits(printed: string, dir: string) {
    NUL !in dir && |dir| < SIZE_MAX_1 && |Replaced(printed, dir)| + 1 < SIZE_MAX_1
  }

  /** No listed pattern for which the check is sound is in a text. */
  ghost predicate FreeOfPatterns(text: string, dir: string, sanity: seq<string>) {
    forall k :: 0 <= k < |sanity| && Pattern(PatternOf(sanity[k])) && Lasting(dir, PatternOf(sanity[k])) ==>
      !Occurs(text, PatternOf(sanity[k]))
  }

  lemma SingleFree(a: string, dir: string, sanity: seq<string>)
    requires PlainDir(dir) && !Harmful(Printed(a), sanity)
    ensures FreeOfPatterns(SingleRun(a, dir), dir, sanity)
  {
    hide Occurs, Lasting, SingleRun, PlainDir, Pattern;
    forall k | 0 <= k < |sanity| && Pattern(PatternOf(sanity[k])) && Lasting(dir, PatternOf(sanity[k]))
      ensures !Occurs(SingleRun(a, dir), PatternOf(sanity[k]))
    {
      FilterHoldsForSingle(a, dir, PatternOf(sanity[k]));
    }
  }

  /** A request for the command of one profile. */
  method RunSingle(profile: Parsed, n: Nodes, dir: string) returns (text: array?<char>)
    requires var a := Chosen(profile, n.category, n.issueType); a.Some? ==> Fits(Backgrounded(Printed(a.value)), dir)
    ensures var a := Chosen(profile, n.category, n.issueType);
            && (text == null <==> a.None?)
            && (text != null ==>
                  && Terminated(text[..]) && Text(text[..]) == SingleRun(a.value, dir)
                  && (PlainDir(dir) ==>
                        && FreeOfPatterns(Text(text[..]), dir, profile.sanity)
                        && (Text(text[..]) == Meaning(a.value, dir) <==> Plain(a.value))))
  {
    hide Replaced, Lasting, PlainDir, SingleRun;
    var command, timeout := GetIssueCommandInfo(profile, n.category, n.issueType);
    if command == null {
      return null;
    }
    ghost var a := Chosen(profile, n.category, n.issueType).value;
    SingleRunText(a, dir);
    text := PrepareCommand(command, dir);
    if PlainDir(dir) {
      SingleRunMeaning(a, dir);
      SingleFree(a, dir, profile.sanity);
    }
  }

  lemma SingleRunText(a: string, dir: string)
    ensures SingleRun(a, dir) == ShellText(Backgrounded(Printed(a)), dir)
  {
  }

  /** An append request, from the routing on: the outcome says whether there is a text for the shell. The text is what
      each command alone would give, joined by a semicolon, and each half is free of what the list of its own profile
      catches. */
  method RunAppend(m: Message, n: Nodes, files: Files, dir: string) returns (outcome: Outcome, text: array?<char>)
    requires m.appendMode
    requires Usable(files.fixed, n) && Usable(files.installed, n) ==>
               Fits(Merged(Backgrounded(Printed(CommandOf(files.fixed, n))),
                           Backgrounded(Printed(CommandOf(files.installed, n)))), dir)
    ensures outcome == Route(m, LookUpAll(files, n))
    ensures text != null <==> Usable(files.fixed, n) && Usable(files.installed, n)
    ensures outcome == Fault <==>
              || (Listed(files.installed, n) && !Usable(files.installed, n))
              || (Usable(files.installed, n) && Listed(files.fixed, n) && !Usable(files.fixed, n))
    ensures text != null ==>
              var a, b := CommandOf(files.fixed, n), CommandOf(files.installed, n);
              && Terminated(text[..]) && Text(text[..]) == AppendRun(a, b, dir)
              && (PlainDir(dir) ==>
                    && Text(text[..]) == SingleRun(a, dir) + ";" + SingleRun(b, dir)
                    && FreeOfPatterns(SingleRun(a, dir), dir, files.fixed.value.sanity)
                    && FreeOfPatterns(SingleRun(b, dir), dir, files.installed.value.sanity)
                    && (Text(text[..]) == Meaning(a, dir) + ";" + Meaning(b, dir) <==> Plain(a) && Plain(b)))
  {
    hide Replaced, Lasting, PlainDir, AppendRun, SingleRun, Merged, Backgrounded, Printed, Lists;
    var merged;
    outcome, merged := ProcessIssueType(m, n, files);
    if merged == null {
      return outcome, null;
    }
    ghost var a, b := CommandOf(files.fixed, n), CommandOf(files.installed, n);
    AppendRunText(a, b, dir);
    text := PrepareCommand(merged, dir);
    if PlainDir(dir) {
      AppendIsTwoSingles(a, b, dir);
      AppendRunMeaning(a, b, dir);
      SingleFree(a, dir, files.fixed.value.sanity);
      SingleFree(b, dir, files.installed.value.sanity);
    }
  }

  lemma AppendRunText(a: string, b: string, dir: string)
    ensures AppendRun(a, b, dir) == ShellText(Merged(Backgrounded(Printed(a)), Backgrounded(Printed(b))), dir)
  {
  }
}
