/**
 What re-importing a printed script does to its meaning: exactly when a list of rules does to a message what it did
 before.
 */
module SieveReimportMeaning {
  import opened Seqs
  import opened SieveText
  import opened SieveModel
  import opened SievePrinter
  import opened SieveParser
  import opened SieveFlatten
  import opened SieveCompile
  import opened SieveReimport
  import opened SieveRoundTrip
  import opened SieveFixedPoint
  import opened SieveMeaning

  // ----- conditions -----

  lemma RereadMatches(c: Condition, m: Message)
    requires ConditionText(c).Some? && !NotTrue(c)
    ensures MatchesCondition(RereadCondition(c), m) == MatchesCondition(c, m)
  {
    SplitRelist(c.header);
  }

  lemma {:induction false} RereadMatchesAll(cs: seq<Condition>, m: Message)
    requires forall c :: c in cs ==> ConditionText(c).Some? && !NotTrue(c)
    ensures MatchesAll(AllOf, RereadConditions(cs), m) == MatchesAll(AllOf, cs, m)
    ensures MatchesAll(AnyOf, RereadConditions(cs), m) == MatchesAll(AnyOf, cs, m)
  {
    if cs != [] {
      var rest := cs[1..];
      assert cs == [cs[0]] + rest;
      assert forall c :: c in cs <==> c == cs[0] || c in rest;
      assert forall c :: c in RereadConditions(cs) <==> c == RereadCondition(cs[0]) || c in RereadConditions(rest);
      RereadMatches(cs[0], m);
      RereadMatchesAll(rest, m);
    }
  }

  // ----- actions -----

  /** The printed flag actions before the first stop have at most one leading backslash in each flag. */
  predicate PlainBeforeStop(actions: seq<Action>) {
    actions == [] || actions[0] == Stop || (PlainFlags(actions[0]) && PlainBeforeStop(actions[1..]))
  }

  /** Nothing is carried out before the next stop. */
  predicate Idle(actions: seq<Action>) {
    actions == [] || actions[0] == Stop || (CommandOf(actions[0]).None? && Idle(actions[1..]))
  }

  lemma {:induction false} IdleRun(actions: seq<Action>)
    ensures Idle(actions) <==> RunActions(actions).effects == []
    ensures Idle(actions) ==> PlainBeforeStop(actions)
  {
    if actions != [] {
      IdleRun(actions[1..]);
      if CommandOf(actions[0]).None? { UnprintedPlain(actions[0]); }
    }
  }

  lemma SameTail<T>(x: T, a: seq<T>, y: T, b: seq<T>)
    ensures [x] + a == [y] + b <==> x == y && a == b
  {
    ConsTail(x, a);
    ConsTail(y, b);
  }

  /** Re-reading keeps what a body does exactly when the flags it sets before its first stop are plain. */
  lemma {:induction false} RereadRun(actions: seq<Action>)
    ensures RunActions(RereadPrinted(actions)).effects == RunActions(actions).effects <==> PlainBeforeStop(actions)
    ensures RunActions(RereadPrinted(actions)).stopped == RunActions(actions).stopped
    ensures |RunActions(RereadPrinted(actions)).effects| == |RunActions(actions).effects|
  {
    if actions != [] {
      var a, rest := actions[0], actions[1..];
      HeadTail(actions);
      RereadRun(rest);
      if CommandOf(a).None? {
        UnprintedPlain(a);
        RunStep(a, rest);
        Units(RereadPrinted(rest));
        Units(RunActions(rest).effects);
      } else {
        RereadActionCommand(a);
        assert RereadAction(a) == Stop <==> a == Stop;
        if a == Stop {
          RunStop(rest);
          RunStop(RereadPrinted(rest));
        } else {
          RunStep(a, rest);
          RunStep(RereadAction(a), RereadPrinted(rest));
          SameTail(CommandOf(RereadAction(a)).value, RunActions(RereadPrinted(rest)).effects, CommandOf(a).value,
            RunActions(rest).effects);
        }
      }
    }
  }

  lemma RereadRuleRun(r: Rule)
    requires r.conditions != [] && Printable(r) && Rereadable(r)
    ensures RunRule(RereadRule(r)[0]).effects == RunRule(r).effects <==> PlainBeforeStop(r.actions)
    ensures RunRule(RereadRule(r)[0]).stopped == RunRule(r).stopped
    ensures |RunRule(RereadRule(r)[0]).effects| == |RunRule(r).effects|
  {
    var actions := r.actions;
    RereadRun(actions);
    StoppedIsStop(actions);
    NoSecondStop(actions);
    StoppedIsStop(RereadPrinted(actions));
    StoppedIsStop(RereadActions(actions));
    RereadStaysReadable(r);
    if AddsStop(actions) {
      RunActionsConcat(RereadPrinted(actions), [Stop]);
      OneActionRun(Stop);
      assert RunActions(RereadPrinted(actions)).effects + [] == RunActions(RereadPrinted(actions)).effects;
    } else {
      assert RereadActions(actions) == RereadPrinted(actions);
      assert HasTerminal(actions) ==> Stop in actions;
    }
  }

  // ----- conditional rules -----

  lemma RereadApplies(r: Rule, m: Message)
    requires r.enabled && r.conditions != [] && Printable(r) && Rereadable(r)
    ensures Applies(RereadRule(r)[0], m) == Applies(r, m)
  {
    RereadStaysReadable(r);
    RereadMatchesAll(r.conditions, m);
    RereadConditionTexts(r.conditions);
    if |r.conditions| == 1 {
      JoinOfOne(r.conditions, m);
      JoinOfOne(RereadConditions(r.conditions), m);
    }
  }

  // ----- rules without conditions -----

  /** Nothing is carried out between the first complete terminal action and the next stop. */
  predicate TerminalLast(actions: seq<Action>) {
    if actions == [] || actions[0] == Stop then true
    else if IsTerminal(actions[0]) && CommandOf(actions[0]).Some? then Idle(actions[1..])
    else TerminalLast(actions[1..])
  }

  /** The run of a list of one-action rules. */
  function RunEach(actions: seq<Action>): Run {
    if actions == [] then Run([], false)
    else if actions[0] == Stop then Run([], true)
    else
      var own := if CommandOf(actions[0]).Some? then [CommandOf(actions[0]).value] else [];
      if IsTerminal(actions[0]) && CommandOf(actions[0]).Some? then Run(own, true)
      else var r := RunEach(actions[1..]); Run(own + r.effects, r.stopped)
  }

  lemma OneActionRule(a: Action, m: Message)
    requires CommandOf(a).Some?
    ensures var r := Rule(UNCONDITIONAL, true, AllOf, [], [a]);
            Applies(r, m) && RunRule(r) == if a == Stop then Run([], true) else Run([CommandOf(a).value], IsTerminal(a))
  {
    OneActionRun(a);
    assert [a][0] == a && forall b :: b in [a] ==> b == a;
    assert HasTerminal([a]) == IsTerminal(a);
  }

  lemma UnconditionalStep(a: Action, rest: seq<Action>, more: seq<Rule>, m: Message)
    requires CommandOf(a).Some?
    ensures RunRules(Unconditional([a] + rest) + more, m)
         == RunRule(Rule(UNCONDITIONAL, true, AllOf, [], [a])).Then(RunRules(Unconditional(rest) + more, m))
  {
    ConsTail(a, rest);
    OneActionRule(a, m);
    var r := Rule(UNCONDITIONAL, true, AllOf, [], [a]);
    Assoc([r], Unconditional(rest), more);
    ConsTail(r, Unconditional(rest) + more);
  }

  /** One-action rules, and then other rules. */
  lemma {:induction false} UnconditionalRun(actions: seq<Action>, more: seq<Rule>, m: Message)
    requires forall a :: a in actions ==> CommandOf(a).Some?
    ensures RunRules(Unconditional(actions) + more, m) == RunEach(actions).Then(RunRules(more, m))
  {
    var later := RunRules(more, m);
    if actions == [] {
      Units(more);
      Units(later);
    } else {
      var a, rest := actions[0], actions[1..];
      HeadTail(actions);
      UnconditionalRun(rest, more, m);
      UnconditionalStep(a, rest, more, m);
      OneActionRule(a, m);
      if a == Stop { RunEachStop(rest); } else { RunEachStep(a, rest); }
      Assoc([CommandOf(a).value], RunEach(rest).effects, later);
    }
  }

  /** How one action starts the run of one-action rules. */
  lemma RunEachStep(a: Action, rest: seq<Action>)
    requires a != Stop
    ensures var own := if CommandOf(a).Some? then [CommandOf(a).value] else [];
            RunEach([a] + rest) == if IsTerminal(a) && CommandOf(a).Some? then Run(own, true)
                                   else Run(own + RunEach(rest).effects, RunEach(rest).stopped)
  {
    ConsTail(a, rest);
  }

  lemma RunEachStop(rest: seq<Action>)
    ensures RunEach([Stop] + rest) == Run([], true)
  {
    ConsTail(Stop, rest);
  }

  /** The one-action rules stop somewhere exactly when an action stops or is terminal. */
  lemma {:induction false} EachStops(actions: seq<Action>)
    requires forall a :: a in actions ==> CommandOf(a).Some?
    ensures RunEach(actions).stopped <==> Stop in actions || HasTerminal(actions)
  {
    if actions != [] {
      HeadTail(actions);
      EachStops(actions[1..]);
      if a :| a in actions && IsTerminal(a) { assert a == actions[0] || a in actions[1..]; }
    }
  }

  lemma {:induction false} TerminalsPrinted(actions: seq<Action>)
    ensures HasTerminal(RereadPrinted(actions)) ==> HasTerminal(actions)
  {
    NoSecondStop(actions);
    if a :| a in RereadPrinted(actions) && IsTerminal(a) {
      var b :| b in actions && IsTerminal(b);
    }
  }

  lemma EachStopsAsRule(r: Rule)
    requires r.conditions == []
    ensures RunEach(RereadActions(r.actions)).stopped <==> (RunActions(r.actions).stopped || HasTerminal(r.actions))
  {
    var actions, again := r.actions, RereadActions(r.actions);
    PrintedAreCommands(actions);
    NoSecondStop(actions);
    TerminalsPrinted(actions);
    StoppedIsStop(actions);
    EachStops(again);
    if AddsStop(actions) {
      assert Stop in again;
    } else {
      assert again == RereadPrinted(actions);
      assert HasTerminal(actions) ==> Stop in actions;
    }
  }

  lemma EffectsStep(own: seq<Command>, x: seq<Command>, y: seq<Command>)
    ensures own + x == own + y <==> x == y
  {
    assert (own + x)[|own|..] == x && (own + y)[|own|..] == y;
  }

  /**
   What the one-action rules do is what the body does, exactly when nothing follows a terminal action and flags are
   plain.
   */
  lemma {:induction false} RereadEach(actions: seq<Action>, tail: seq<Action>)
    requires tail == [] || tail == [Stop]
    ensures RunEach(RereadPrinted(actions) + tail).effects == RunActions(actions).effects
       <==> TerminalLast(actions) && PlainBeforeStop(actions)
  {
    if actions == [] {
      Units(tail);
    } else {
      var a, rest := actions[0], actions[1..];
      HeadTail(actions);
      RereadEach(rest, tail);
      if CommandOf(a).None? {
        UnprintedPlain(a);
        RunStep(a, rest);
        Units(RereadPrinted(rest));
        Units(RunActions(rest).effects);
      } else {
        RereadPrintedStep(a, rest, tail);
      }
    }
  }

  lemma RereadPrintedStep(a: Action, rest: seq<Action>, tail: seq<Action>)
    requires CommandOf(a).Some?
    requires RunEach(RereadPrinted(rest) + tail).effects == RunActions(rest).effects
            <==> TerminalLast(rest) && PlainBeforeStop(rest)
    ensures RunEach(RereadPrinted([a] + rest) + tail).effects == RunActions([a] + rest).effects
       <==> TerminalLast([a] + rest) && PlainBeforeStop([a] + rest)
  {
    var again, b := RereadPrinted(rest) + tail, RereadAction(a);
    ConsTail(a, rest);
    Assoc([b], RereadPrinted(rest), tail);
    RereadActionCommand(a);
    assert b == Stop <==> a == Stop;
    assert IsTerminal(b) <==> IsTerminal(a);
    if a == Stop {
      RunEachStop(again);
      RunStop(rest);
    } else {
      RunEachStep(b, again);
      RunStep(a, rest);
      IdleRun(rest);
      if IsTerminal(a) {
        Units([CommandOf(a).value]);
        EffectsStep([CommandOf(a).value], [], RunActions(rest).effects);
      } else {
        SameTail(CommandOf(b).value, RunEach(again).effects, CommandOf(a).value, RunActions(rest).effects);
      }
    }
  }

  lemma {:induction false} NothingPrinted(actions: seq<Action>)
    ensures RereadPrinted(actions) == [] ==> RunActions(actions) == Run([], false)
    ensures RunActions(actions) == Run([], false) ==> RereadPrinted(actions) == []
  {
    if actions != [] { NothingPrinted(actions[1..]); }
  }

  /** Without terminal actions, one-action rules do what one body does. */
  lemma {:induction false} EachAsBody(actions: seq<Action>)
    requires !HasTerminal(actions)
    ensures RunEach(actions) == RunActions(actions)
  {
    if actions != [] {
      HeadTail(actions);
      EachAsBody(actions[1..]);
    }
  }

  /** What a printable rule does after a re-import. */
  ghost function RunAgain(r: Rule): Run
    requires Printable(r)
  {
    if r.conditions != [] then RunRule(RereadRule(r)[0])
    else if RereadActions(r.actions) == [] then Run([KEEP], false)
    else RunEach(RereadActions(r.actions))
  }

  lemma AgainRuns(r: Rule, more: seq<Rule>, m: Message)
    requires r.enabled && Rereadable(r)
    ensures RunRules(RereadRule(r) + more, m) == if Applies(r, m) then RunAgain(r).Then(RunRules(more, m))
            else RunRules(more, m)
  {
    if !Printable(r) {
      Units(more);
    } else if r.conditions == [] {
      AloneRuns(r, more, m);
    } else {
      RereadIsOne(r);
      RereadApplies(r, m);
      ConsTail(RereadRule(r)[0], more);
    }
  }

  lemma AloneRuns(r: Rule, more: seq<Rule>, m: Message)
    requires r.conditions == []
    ensures RunRules(RereadRule(r) + more, m) == RunAgain(r).Then(RunRules(more, m))
  {
    if RereadActions(r.actions) == [] {
      UnconditionalRun([Keep], more, m);
      RunEachStep(Keep, []);
      assert [Keep] + [] == [Keep] && [KEEP] + [] == [KEEP];
    } else {
      PrintedAreCommands(r.actions);
      UnconditionalRun(RereadActions(r.actions), more, m);
    }
  }

  lemma NothingIsDone(r: Rule)
    requires r.conditions == [] && RereadActions(r.actions) == []
    ensures RunRule(r) == Run([KEEP], false) && TerminalLast(r.actions) && PlainBeforeStop(r.actions)
  {
    NothingPrinted(r.actions);
    NoSecondStop(r.actions);
    IdleRun(r.actions);
    IdleIsLast(r.actions);
    assert RereadPrinted(r.actions) == [] && !AddsStop(r.actions);
    assert HasTerminal(r.actions) ==> Stop in r.actions;
  }

  lemma SomethingIsDone(r: Rule)
    requires r.conditions == [] && RereadActions(r.actions) != []
    ensures RunRule(r).effects == RunActions(r.actions).effects
    ensures RunRule(r).stopped == (RunActions(r.actions).stopped || HasTerminal(r.actions))
  {
    NothingPrinted(r.actions);
    if RereadPrinted(r.actions) == [] { assert AddsStop(r.actions); }
    else { NoStopNothing(r.actions); }
  }

  lemma NoStopNothing(actions: seq<Action>)
    requires RereadPrinted(actions) != []
    ensures RunActions(actions) != Run([], false)
  {
    NothingPrinted(actions);
  }

  // ----- whole lists -----

  /** What a rule must satisfy to do the same after a re-import. */
  predicate Keeps(r: Rule) {
    Rereadable(r) && PlainBeforeStop(r.actions) && (r.conditions == [] ==> TerminalLast(r.actions))
  }

  /**
   A re-read rule stops when the rule does, does the same exactly when the rule is kept, and no less unless it stops.
   */
  lemma AgainIsRun(r: Rule)
    requires Printable(r) && Rereadable(r)
    ensures RunAgain(r).stopped == RunRule(r).stopped
    ensures RunAgain(r).effects == RunRule(r).effects <==> Keeps(r)
    ensures !RunRule(r).stopped ==> |RunAgain(r).effects| == |RunRule(r).effects|
  {
    if r.conditions != [] {
      RereadRuleRun(r);
    } else if RereadActions(r.actions) == [] {
      NothingIsDone(r);
    } else {
      SomethingIsDone(r);
      EachStopsAsRule(r);
      RereadEach(r.actions, if AddsStop(r.actions) then [Stop] else []);
      if !RunRule(r).stopped { AgainIsAsLong(r.actions); }
    }
  }

  lemma AgainIsAsLong(actions: seq<Action>)
    requires !HasTerminal(actions)
    ensures |RunEach(RereadActions(actions)).effects| == |RunActions(actions).effects|
  {
    TerminalsPrinted(actions);
    Units(RereadPrinted(actions));
    EachAsBody(RereadPrinted(actions));
    RereadRun(actions);
  }

  lemma SameRun(a: Run, b: Run, x: seq<Command>, y: seq<Command>)
    requires a.stopped == b.stopped && (!a.stopped ==> |a.effects| == |b.effects|)
    ensures a.Then(x) == b.Then(y) <==> a.effects == b.effects && (a.stopped || x == y)
  {
    if !a.stopped && a.effects + x == b.effects + y {
      assert a.effects == (a.effects + x)[..|a.effects|] && b.effects == (b.effects + y)[..|b.effects|];
      assert x == (a.effects + x)[|a.effects|..] && y == (b.effects + y)[|b.effects|..];
    }
  }

  /** The rules that apply to a message, up to the first that ends the script, are kept. */
  ghost predicate ReachedKept(rules: seq<Rule>, m: Message) {
    if rules == [] then true
    else if !Applies(rules[0], m) then ReachedKept(rules[1..], m)
    else Keeps(rules[0]) && (RunRule(rules[0]).stopped || ReachedKept(rules[1..], m))
  }

  lemma {:induction false} RereadExactly(rules: seq<Rule>, m: Message)
    requires forall r :: r in rules ==> r.enabled && Rereadable(r)
    ensures RereadRules(rules).Some?
    ensures RunRules(RereadRules(rules).value, m) == RunRules(rules, m) <==> ReachedKept(rules, m)
  {
    if rules != [] {
      var r := rules[0];
      HeadTail(rules);
      RereadExactly(rules[1..], m);
      var more := RereadRules(rules[1..]).value;
      AgainRuns(r, more, m);
      if Applies(r, m) {
        AgainIsRun(r);
        SameRun(RunAgain(r), RunRule(r), RunRules(more, m), RunRules(rules[1..], m));
      }
    }
  }

  /**
   Importing a printed script, for every list whose enabled rules have one-line names: it succeeds exactly when no
   negated constant test is printed, and the imported rules do the same to a message exactly when the rules that apply
   to it, up to the first that ends the script, set plain flags and, without conditions, do nothing after a terminal
   action.
   */
  lemma ReimportMeaning(rules: seq<Rule>, m: Message)
    requires OneLineNames(Enabled(rules))
    ensures Import(PrintScript(rules)).Some? <==> forall r :: r in Enabled(rules) ==> Rereadable(r)
    ensures Import(PrintScript(rules)).Some? ==>
              (RunRules(Import(PrintScript(rules)).value, m) == RunRules(rules, m) <==> ReachedKept(Enabled(rules), m))
  {
    ImportOfPrint(rules);
    EnabledMeaning(rules, m);
    RereadSome(Enabled(rules));
    if Import(PrintScript(rules)).Some? { RereadExactly(Enabled(rules), m); }
  }

  lemma {:induction false} AllKept(rules: seq<Rule>, m: Message)
    requires forall r :: r in rules ==> Keeps(r)
    ensures ReachedKept(rules, m)
  {
    if rules != [] {
      HeadTail(rules);
      AllKept(rules[1..], m);
    }
  }

  /** In particular a list of kept rules does the same to every message. */
  lemma KeptMeaning(rules: seq<Rule>, m: Message)
    requires OneLineNames(Enabled(rules)) && forall r :: r in Enabled(rules) ==> Keeps(r)
    ensures Import(PrintScript(rules)).Some? && RunRules(Import(PrintScript(rules)).value, m) == RunRules(rules, m)
  {
    ReimportMeaning(rules, m);
    AllKept(Enabled(rules), m);
  }

  /** And one rule that applies does the same exactly when it is kept. */
  lemma OneRuleMeaning(r: Rule, m: Message)
    requires r.enabled && Applies(r, m) && '\n' !in r.name
    ensures Import(PrintScript([r])).Some? <==> Rereadable(r)
    ensures Rereadable(r) ==> (RunRules(Import(PrintScript([r])).value, m) == RunRules([r], m) <==> Keeps(r))
  {
    assert Enabled([r]) == [r] by { assert [r][1..] == []; }
    ReimportMeaning([r], m);
    assert [r][0] in [r] && [r][1..] == [];
  }

  /** In particular a rule without conditions, which applies to every message. */
  lemma UnconditionalMeaning(r: Rule, m: Message)
    requires r.enabled && r.conditions == [] && '\n' !in r.name
    ensures Import(PrintScript([r])).Some?
    ensures RunRules(Import(PrintScript([r])).value, m) == RunRules([r], m)
            <==> TerminalLast(r.actions) && PlainBeforeStop(r.actions)
  {
    OneRuleMeaning(r, m);
  }

  lemma {:induction false} IdleIsLast(actions: seq<Action>)
    requires Idle(actions)
    ensures TerminalLast(actions)
  {
    if actions != [] && actions[0] != Stop { IdleIsLast(actions[1..]); }
  }

  lemma OneItem(s: string)
    requires CleanItem(s)
    ensures SplitList(s) == [s]
  {
    SplitJoinOfClean([s]);
  }

  /** Two filings in a rule without conditions: the second is lost when the printed script is imported. */
  lemma SecondFilingLost(a: string, b: string, m: Message)
    requires CleanItem(a) && CleanItem(b)
    ensures var r := Rule("copy", true, AllOf, [], [FileInto(a, false), FileInto(b, false)]);
            Import(PrintScript([r])).Some? && RunRules(Import(PrintScript([r])).value, m) != RunRules([r], m)
  {
    var r := Rule("copy", true, AllOf, [], [FileInto(a, false), FileInto(b, false)]);
    OneItem(a);
    OneItem(b);
    TwoFilings(FileInto(a, false), FileInto(b, false));
    UnconditionalMeaning(r, m);
  }

  lemma TwoFilings(a: Action, b: Action)
    requires a.FileInto? && b.FileInto? && CommandOf(a).Some? && CommandOf(b).Some?
    ensures !TerminalLast([a, b])
  {
    assert [a, b][1..] == [b];
    assert !Idle([b]);
  }
}
