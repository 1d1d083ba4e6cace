/** Importing a printed script and printing it again: exactly when the text stays the same. */
module SieveFixedPoint {
  import opened Wrappers
  import opened Seqs
  import opened SieveText
  import opened SieveModel
  import opened SievePrinter
  import opened SieveLexer
  import opened SieveLexing
  import opened SieveParser
  import opened SieveSyntax
  import opened SieveFlatten
  import opened SieveCompile
  import opened SieveReimport
  import opened SieveRoundTrip
  import opened SieveNormal
  import opened SieveNames

  // ----- the condition -----

  predicate PlainFlags(a: Action) {
    a.Flag? ==> forall f :: f in SplitList(a.flag) ==> OneBackslashAtMost(f)
  }

  /** A rule without conditions is re-read as one rule for each of its commands, with a fixed name. */
  predicate Stable(r: Rule) {
    && Printable(r) && AllPlain(r.actions)
    && if r.conditions != [] then NormalName(r.name) else r.name == UNCONDITIONAL && |TopLevel(r.actions)| == 1
  }

  function Printed(actions: seq<Action>): seq<Action> {
    if actions == [] then []
    else
      var last := actions[|actions| - 1];
      Printed(actions[..|actions| - 1]) + (if CommandOf(last).Some? then [last] else [])
  }

  function OnlyPrinted(rules: seq<Rule>): seq<Rule> {
    if rules == [] then [] else [rules[0].(actions := Printed(rules[0].actions))] + OnlyPrinted(rules[1..])
  }

  /** No action that is not printed asks for an extension that no printed action needs. */
  predicate NeedsCovered(rules: seq<Rule>) { NeedsOf(rules) == NeedsOf(OnlyPrinted(rules)) }

  // ----- one action, one body -----

  lemma SplitRelist(s: string)
    ensures SplitList(Relist(s)) == SplitList(s)
  {
    SplitListClean(s);
    SplitJoin(SplitList(s));
  }

  lemma RereadActionCommand(a: Action)
    requires CommandOf(a).Some?
    ensures CommandOf(RereadAction(a)).Some? && Needs(RereadAction(a)) == Needs(a)
    ensures CommandOf(RereadAction(a)) == CommandOf(a) <==> PlainFlags(a)
    ensures PlainFlags(a) ==> ActionText(RereadAction(a)) == ActionText(a)
  {
    match a
    case FileInto(mailbox, _) => SplitRelist(mailbox);
    case Flag(_, flag) =>
      RereadFlagItems(flag);
      SplitListClean(flag);
      OneBackslashEachIdentity(SplitList(flag));
    case _ =>
  }

  lemma Snoc(actions: seq<Action>, a: Action)
    ensures CommandsOf(actions + [a]) == CommandsOf(actions) + (if CommandOf(a).Some? then [CommandOf(a).value] else [])
    ensures ActionLines(actions + [a]) ==
            ActionLines(actions) + (if ActionText(a).Some? then Line(ActionText(a).value) else "")
    ensures Printed(actions + [a]) == Printed(actions) + (if CommandOf(a).Some? then [a] else [])
    ensures RereadPrinted(actions + [a]) ==
            RereadPrinted(actions) + (if CommandOf(a).Some? then [RereadAction(a)] else [])
  {
    assert (actions + [a])[..|actions|] == actions;
    RereadPrintedSnoc(actions, a);
  }

  predicate AllPlain(actions: seq<Action>) { forall a :: a in actions ==> PlainFlags(a) }

  lemma AllPlainSnoc(actions: seq<Action>, a: Action)
    ensures AllPlain(actions + [a]) <==> AllPlain(actions) && PlainFlags(a)
  {
    assert forall b :: b in actions + [a] <==> b in actions || b == a;
  }

  lemma {:induction false} CommandsOfPrinted(actions: seq<Action>)
    ensures |CommandsOf(RereadPrinted(actions))| == |CommandsOf(actions)|
    ensures CommandsOf(RereadPrinted(actions)) == CommandsOf(actions) <==> AllPlain(Printed(actions))
    ensures AllPlain(Printed(actions)) ==> ActionLines(RereadPrinted(actions)) == ActionLines(actions)
  {
    if actions != [] {
      var front, last := actions[..|actions| - 1], actions[|actions| - 1];
      assert actions == front + [last];
      CommandsOfPrinted(front);
      Snoc(front, last);
      ActionIsCommand(last);
      if CommandOf(last).Some? {
        var re, again := RereadPrinted(front), RereadAction(last);
        RereadActionCommand(last);
        ActionIsCommand(again);
        Snoc(re, again);
        LastCommand(CommandsOf(re), CommandOf(again).value, CommandsOf(front), CommandOf(last).value);
        AllPlainSnoc(Printed(front), last);
      } else {
        assert RereadPrinted(actions) == RereadPrinted(front) && Printed(actions) == Printed(front);
        assert CommandsOf(actions) == CommandsOf(front) && ActionLines(actions) == ActionLines(front);
      }
    }
  }

  lemma LastCommand(a: seq<Command>, x: Command, b: seq<Command>, y: Command)
    requires |a| == |b|
    ensures a + [x] == b + [y] <==> a == b && x == y
  {
    if a + [x] == b + [y] {
      assert a == (a + [x])[..|a|] == (b + [y])[..|b|] == b;
      assert x == (a + [x])[|a|];
    }
  }

  lemma UnprintedPlain(a: Action)
    requires CommandOf(a).None?
    ensures PlainFlags(a)
  {}

  lemma {:induction false} PrintedFlags(actions: seq<Action>)
    ensures AllPlain(Printed(actions)) <==> AllPlain(actions)
  {
    if actions != [] {
      var front, last := actions[..|actions| - 1], actions[|actions| - 1];
      PrintedFlags(front);
      FrontLast(actions);
      Snoc(front, last);
      AllPlainSnoc(front, last);
      if CommandOf(last).None? {
        UnprintedPlain(last);
        Units(Printed(front));
      } else {
        AllPlainSnoc(Printed(front), last);
      }
    }
  }

  /** A re-read body already has its stop. */
  lemma {:induction false} NoSecondStop(actions: seq<Action>)
    ensures !AddsStop(RereadActions(actions))
    ensures forall a :: a in RereadPrinted(actions) && IsTerminal(a) ==> exists b :: b in actions && IsTerminal(b)
    ensures Stop in RereadPrinted(actions) <==> Stop in actions
  {
    if actions != [] {
      var a, rest := actions[0], actions[1..];
      NoSecondStop(rest);
      assert actions == [a] + rest;
      assert forall b :: b in actions <==> b == a || b in rest;
      assert IsTerminal(RereadAction(a)) <==> IsTerminal(a);
      assert RereadAction(a) == Stop <==> a == Stop;
    }
  }

  lemma BodyOfReread(actions: seq<Action>)
    ensures BodyOf(RereadActions(actions)) == BodyOf(actions) <==> AllPlain(actions)
    ensures AllPlain(actions) ==> BodyText(RereadActions(actions)) == BodyText(actions)
  {
    var re := RereadPrinted(actions);
    CommandsOfPrinted(actions);
    PrintedFlags(actions);
    NoSecondStop(actions);
    if AddsStop(actions) {
      assert (re + [Stop])[..|re|] == re;
      LastCommand(CommandsOf(re), STOP, CommandsOf(actions), STOP);
      assert BodyOf(RereadActions(actions)) == CommandsOf(re) + [STOP];
      assert BodyText(RereadActions(actions)) == ActionLines(re) + Line("stop");
    } else {
      assert RereadActions(actions) == re && BodyOf(re) == CommandsOf(re) && BodyOf(actions) == CommandsOf(actions);
      assert BodyText(re) == ActionLines(re) && BodyText(actions) == ActionLines(actions);
    }
  }

  // ----- one rule -----

  /** A condition with the same headers and value has the same text. */
  lemma SameCore(c: Condition, d: Condition)
    requires d.test == c.test && d.negated == c.negated && SplitList(d.header) == SplitList(c.header)
    requires c.test == Address ==> d.part == c.part
    requires c.test == Address || c.test == Header ==> d.op == c.op && d.value == c.value
    ensures ConditionText(d) == ConditionText(c)
  {}

  lemma RereadConditionText(c: Condition)
    requires ConditionText(c).Some? && !NotTrue(c)
    ensures ConditionText(RereadCondition(c)) == ConditionText(c)
  {
    SplitRelist(c.header);
    if c.test != True { SameCore(c, RereadCondition(c)); }
  }

  lemma {:induction false} RereadConditionTexts(cs: seq<Condition>)
    requires forall c :: c in cs ==> ConditionText(c).Some? && !NotTrue(c)
    ensures |RereadConditions(cs)| == |cs|
    ensures forall c :: c in RereadConditions(cs) ==> ConditionText(c).Some? && !NotTrue(c)
    ensures ConditionTexts(RereadConditions(cs)) == ConditionTexts(cs)
  {
    if cs != [] {
      assert cs[0] in cs && forall c :: c in cs[1..] ==> c in cs;
      RereadConditionText(cs[0]);
      RereadConditionTexts(cs[1..]);
      assert RereadConditions(cs)[1..] == RereadConditions(cs[1..]);
    }
  }

  lemma {:induction false} TextsLength(cs: seq<Condition>)
    requires forall c :: c in cs ==> ConditionText(c).Some?
    ensures |ConditionTexts(cs)| == |cs|
  {
    if cs != [] { TextsLength(cs[1..]); }
  }

  lemma ConditionalText(r: Rule)
    requires Stable(r) && Rereadable(r) && r.conditions != []
    ensures RuleText(RereadRule(r)[0]) == RuleText(r)
  {
    RereadNameNormal(r.name);
    RereadConditionTexts(r.conditions);
    TextsLength(r.conditions);
    BodyOfReread(r.actions);
    var again := RereadRule(r)[0];
    assert Printable(again);
    assert ExprText(again) == ExprText(r);
  }

  lemma {:induction false} UnconditionalLength(actions: seq<Action>)
    ensures |Unconditional(actions)| == |actions|
  {
    if actions != [] { UnconditionalLength(actions[1..]); }
  }

  /** A rule without conditions is re-read as one rule for each of its commands. */
  lemma RereadCount(r: Rule)
    requires r.conditions == []
    ensures |RereadRule(r)| == |TopLevel(r.actions)| && TopLevel(r.actions) != []
    ensures RereadActions(r.actions) == [] <==> BodyOf(r.actions) == []
  {
    BodyToActions(r.actions);
    ToActionsLength(BodyOf(r.actions));
    UnconditionalLength(RereadActions(r.actions));
    assert Unconditional([Keep])[1..] == [];
  }

  /** What the one rule is whose text may stay the same. */
  lemma RereadAlone(r: Rule)
    requires r.conditions == [] && |TopLevel(r.actions)| == 1
    ensures RereadRule(r) ==
            [Rule(UNCONDITIONAL, true, AllOf, [],
              if RereadActions(r.actions) == [] then [Keep] else RereadActions(r.actions))]
  {
    RereadCount(r);
    var actions := if RereadActions(r.actions) == [] then [Keep] else RereadActions(r.actions);
    UnconditionalLength(actions);
    assert actions == [actions[0]] && actions[1..] == [];
  }

  lemma UnconditionalText(r: Rule)
    requires Stable(r) && r.conditions == []
    ensures RuleText(RereadRule(r)[0]) == RuleText(r)
  {
    RereadAlone(r);
    RereadCount(r);
    BodyOfReread(r.actions);
    BodyShape(r.actions);
    if RereadActions(r.actions) == [] {
      KeepAlone();
    } else {
      BodyShape(RereadActions(r.actions));
    }
  }

  lemma KeepAlone()
    ensures BodyText([Keep]) == Line("keep") && BodyOf([Keep]) == [KEEP]
  {
    Snoc([], Keep);
    Units(Line("keep"));
    Units([Keep]);
    Units([KEEP]);
    assert !AddsStop([Keep]);
    assert ActionLines([]) == "" && CommandsOf([]) == [];
  }

  lemma RereadOne(r: Rule)
    requires Stable(r) && Rereadable(r)
    ensures |RereadRule(r)| == 1 && RuleText(RereadRule(r)[0]) == RuleText(r)
  {
    if r.conditions == [] {
      RereadAlone(r);
      UnconditionalText(r);
    } else {
      ConditionalText(r);
    }
  }

  lemma {:induction false} RuleTextsCons(r: Rule, rest: seq<Rule>)
    ensures RuleTexts([r] + rest) == RuleText(r) + RuleTexts(rest)
  {
    var rules := [r] + rest;
    if rest == [] {
      assert rules == [r] && [r][..0] == [];
      assert RuleTexts([r]) == RuleTexts([]) + RuleText(r);
      assert "" + RuleText(r) == RuleText(r) + "";
    } else {
      var front, last := rest[..|rest| - 1], rest[|rest| - 1];
      assert rules[..|rules| - 1] == [r] + front && rules[|rules| - 1] == last;
      RuleTextsCons(r, front);
      Assoc(RuleText(r), RuleTexts(front), RuleText(last));
    }
  }

  lemma {:induction false} RereadTexts(rules: seq<Rule>)
    requires forall r :: r in rules ==> Stable(r) && Rereadable(r)
    ensures RereadRules(rules).Some? && RuleTexts(RereadRules(rules).value) == RuleTexts(rules)
  {
    if rules != [] {
      var r, rest := rules[0], rules[1..];
      HeadTail(rules);
      RereadOne(r);
      RereadTexts(rest);
      RuleTextsCons(r, rest);
      RereadRestTexts(r, rest);
    }
  }

  lemma RereadRestTexts(r: Rule, rest: seq<Rule>)
    requires |RereadRule(r)| == 1 && RereadRules(rest).Some?
    ensures RuleTexts(RereadRule(r) + RereadRules(rest).value) ==
            RuleText(RereadRule(r)[0]) + RuleTexts(RereadRules(rest).value)
  {
    assert RereadRule(r) == [RereadRule(r)[0]];
    RuleTextsCons(RereadRule(r)[0], RereadRules(rest).value);
  }

  // ----- extensions -----

  lemma NeedsOfConcat(a: seq<Rule>, b: seq<Rule>)
    ensures NeedsOf(a + b) == NeedsOf(a) + NeedsOf(b)
  {}

  lemma NeedsAllConcat(a: seq<Action>, b: seq<Action>)
    ensures NeedsAll(a + b) == NeedsAll(a) + NeedsAll(b)
  {}

  lemma NeedsSnoc(actions: seq<Action>, a: Action)
    ensures NeedsAll(actions + [a]) == NeedsAll(actions) + Needs(a)
  {
    NeedsAllConcat(actions, [a]);
    assert NeedsAll([a]) == Needs(a);
  }

  lemma {:induction false} NeedsOfReread(actions: seq<Action>)
    ensures NeedsAll(RereadPrinted(actions)) == NeedsAll(Printed(actions))
  {
    if actions != [] {
      var front, last := actions[..|actions| - 1], actions[|actions| - 1];
      assert actions == front + [last];
      NeedsOfReread(front);
      Snoc(front, last);
      if CommandOf(last).Some? {
        RereadActionCommand(last);
        NeedsSnoc(RereadPrinted(front), RereadAction(last));
        NeedsSnoc(Printed(front), last);
      } else {
        assert RereadPrinted(actions) == RereadPrinted(front) && Printed(actions) == Printed(front);
      }
    }
  }

  lemma NeedsOfOne(r: Rule)
    ensures NeedsOf([r]) == NeedsAll(r.actions)
  {}

  lemma RereadIsOne(r: Rule)
    requires Printable(r) && r.conditions != []
    ensures RereadRule(r) == [RereadRule(r)[0]] && RereadRule(r)[0].actions == RereadActions(r.actions)
  {}

  lemma NeedsOfRereadActions(actions: seq<Action>)
    ensures NeedsAll(RereadActions(actions)) == NeedsAll(Printed(actions))
  {
    NeedsOfReread(actions);
    if AddsStop(actions) {
      NeedsSnoc(RereadPrinted(actions), Stop);
    } else {
      assert RereadActions(actions) == RereadPrinted(actions);
    }
  }

  lemma {:induction false} NeedsOfUnconditional(actions: seq<Action>)
    ensures NeedsOf(Unconditional(actions)) == NeedsAll(actions)
  {
    if actions != [] {
      var r := Rule(UNCONDITIONAL, true, AllOf, [], [actions[0]]);
      HeadTail(actions);
      NeedsOfUnconditional(actions[1..]);
      NeedsOfConcat([r], Unconditional(actions[1..]));
      NeedsAllConcat([actions[0]], actions[1..]);
      NeedsOfOne(r);
    }
  }

  lemma NeedsOfKeep()
    ensures NeedsOf(Unconditional([Keep])) == {} && NeedsAll([]) == {}
  {
    NeedsOfUnconditional([Keep]);
    assert NeedsAll([Keep]) == {};
  }

  lemma NeedsOfRereadRule(r: Rule)
    requires Printable(r)
    ensures NeedsOf(RereadRule(r)) == NeedsAll(Printed(r.actions))
  {
    NeedsOfRereadActions(r.actions);
    if r.conditions == [] {
      NeedsOfUnconditional(RereadActions(r.actions));
      NeedsOfKeep();
    } else {
      RereadIsOne(r);
      NeedsOfOne(RereadRule(r)[0]);
    }
  }

  lemma {:induction false} NeedsOfRereadRules(rules: seq<Rule>)
    requires forall r :: r in rules ==> Printable(r) && Rereadable(r)
    ensures RereadRules(rules).Some? && NeedsOf(RereadRules(rules).value) == NeedsOf(OnlyPrinted(rules))
  {
    if rules != [] {
      var r, rest := rules[0], rules[1..];
      assert r in rules && forall x :: x in rest ==> x in rules;
      NeedsOfRereadRule(r);
      NeedsOfRereadRules(rest);
      NeedsOfConcat(RereadRule(r), RereadRules(rest).value);
      NeedsOfConcat([r.(actions := Printed(r.actions))], OnlyPrinted(rest));
      NeedsOfOne(r.(actions := Printed(r.actions)));
    }
  }

  /** An imported rule is enabled, printed, and can be read again. */
  predicate Lasting(r: Rule) { r.enabled && Printable(r) && Rereadable(r) }

  lemma {:induction false} UnconditionalLasting(actions: seq<Action>)
    ensures forall r :: r in Unconditional(actions) ==> Lasting(r)
  {
    if actions != [] { UnconditionalLasting(actions[1..]); }
  }

  lemma RereadRuleLasting(r: Rule)
    requires Rereadable(r)
    ensures forall x :: x in RereadRule(r) ==> Lasting(x)
    ensures Printable(r) ==> RereadRule(r) != []
  {
    if Printable(r) {
      if r.conditions == [] {
        RereadCount(r);
        UnconditionalLasting(RereadActions(r.actions));
        UnconditionalLasting([Keep]);
      } else {
        RereadIsOne(r);
        RereadConditionTexts(r.conditions);
      }
    }
  }

  lemma {:induction false} RereadLasting(rules: seq<Rule>)
    ensures RereadRules(rules).Some? ==> forall r :: r in RereadRules(rules).value ==> Lasting(r)
    ensures RereadRules(rules).Some? && (forall r :: r in rules ==> Printable(r)) ==>
            |RereadRules(rules).value| >= |rules|
  {
    if rules != [] {
      var r := rules[0];
      HeadTail(rules);
      RereadLasting(rules[1..]);
      if Rereadable(r) { RereadRuleLasting(r); }
    }
  }

  // ----- equal texts have equal blocks and extensions -----

  predicate NoComments(ts: Toks) { forall t :: t in ts ==> !t.Comment? }

  lemma {:induction false} ItemsPlain(items: seq<string>)
    ensures NoComments(ItemToks(items)) && NoComments(ListToks(items))
  {
    if |items| > 1 { ItemsPlain(items[1..]); }
  }

  lemma {:induction false} ListsPlain(lists: seq<seq<string>>)
    ensures NoComments(ListsToks(lists))
  {
    if lists != [] {
      ItemsPlain(lists[0]);
      ListsPlain(lists[1..]);
    }
  }

  lemma AnnotationsPlain(t: TestNode)
    requires t.Simple?
    ensures NoComments(AnnotationToks(t))
  {}

  lemma NodePlain(t: TestNode)
    requires t.Simple?
    ensures NoComments(TestToks(t))
  {
    AnnotationsPlain(t);
    ListsPlain(Lists(t));
  }

  lemma ConditionPlain(c: Condition)
    ensures NoComments(ConditionToks(c))
  {
    if c.test != True { NodePlain(NodeOf(c)); }
  }

  lemma {:induction false} ConditionsPlain(cs: seq<Condition>)
    ensures NoComments(ConditionsToks(cs))
  {
    if cs != [] {
      ConditionPlain(cs[0]);
      ConditionsPlain(cs[1..]);
    }
  }

  lemma {:induction false} AnnotsPlain(annots: seq<string>)
    ensures NoComments(AnnotToks(annots))
  {
    if annots != [] { AnnotsPlain(annots[1..]); }
  }

  lemma {:induction false} CommandsPlain(cs: seq<Command>)
    ensures NoComments(CommandsToks(cs))
  {
    if cs != [] {
      AnnotsPlain(cs[0].annots);
      ItemsPlain(cs[0].strs);
      CommandsPlain(cs[1..]);
    }
  }

  lemma OwnPlain(r: Rule)
    ensures NoComments(OwnToks(r))
  {
    CommandsPlain(TopLevel(r.actions));
    CommandsPlain(BodyOf(r.actions));
    if r.conditions != [] {
      ConditionPlain(r.conditions[0]);
      ConditionsPlain(r.conditions);
      assert NoComments(ExprToks(r));
    }
  }

  /** What follows the comment of a rule. */
  function Block(r: Rule): Toks { if Printable(r) then OwnToks(r) else [] }

  lemma BlockPlain(r: Rule)
    ensures NoComments(Block(r))
  {
    OwnPlain(r);
  }

  lemma BlockToks(r: Rule, rest: seq<Rule>)
    ensures RulesToks([r] + rest) == [Comment(RuleTitle(r.name))] + (Block(r) + RulesToks(rest))
  {
    ConsTail(r, rest);
    RuleToksShape(r, RulesToks(rest));
  }

  lemma NotLonger(a: Toks, x: Toks, b: Toks, y: Toks)
    requires NoComments(a) && a + x == b + y && (y == [] || y[0].Comment?)
    ensures |a| <= |b|
  {
    assert forall k :: 0 <= k < |a| ==> !(a + x)[k].Comment? by {
      assert forall k :: 0 <= k < |a| ==> (a + x)[k] == a[k] && a[k] in a;
    }
    assert y != [] ==> (b + y)[|b|] == y[0];
  }

  /** Text without comments before the next comment is determined. */
  lemma CutAtComment(a: Toks, x: Toks, b: Toks, y: Toks)
    requires NoComments(a) && NoComments(b) && a + x == b + y
    requires (x == [] || x[0].Comment?) && (y == [] || y[0].Comment?)
    ensures a == b && x == y
  {
    NotLonger(a, x, b, y);
    NotLonger(b, y, a, x);
    assert a == (a + x)[..|a|] && b == (b + y)[..|b|];
    assert x == (a + x)[|a|..] && y == (b + y)[|b|..];
  }

  lemma RulesStartTitle(rules: seq<Rule>)
    ensures if rules == [] then RulesToks(rules) == []
            else RulesToks(rules) != [] && RulesToks(rules)[0] == Comment(RuleTitle(rules[0].name))
  {
    if rules != [] { RuleToksShape(rules[0], RulesToks(rules[1..])); }
  }

  lemma {:induction false} BlocksEqual(a: seq<Rule>, b: seq<Rule>)
    requires RulesToks(a) == RulesToks(b)
    ensures |a| == |b| && forall k :: 0 <= k < |a| ==> a[k].name == b[k].name && Block(a[k]) == Block(b[k])
  {
    RulesStartTitle(a);
    RulesStartTitle(b);
    if a != [] && b != [] {
      var r, q := a[0], b[0];
      HeadTail(a);
      HeadTail(b);
      BlockToks(r, a[1..]);
      BlockToks(q, b[1..]);
      ConsTail(Comment(RuleTitle(r.name)), Block(r) + RulesToks(a[1..]));
      ConsTail(Comment(RuleTitle(q.name)), Block(q) + RulesToks(b[1..]));
      TitleName(r.name, q.name);
      BlockPlain(r);
      BlockPlain(q);
      RulesStartTitle(a[1..]);
      RulesStartTitle(b[1..]);
      CutAtComment(Block(r), RulesToks(a[1..]), Block(q), RulesToks(b[1..]));
      BlocksEqual(a[1..], b[1..]);
    }
  }

  lemma TitleName(a: string, b: string)
    requires RuleTitle(a) == RuleTitle(b)
    ensures a == b
  {
    assert RuleTitle(a)[6..|a| + 6] == a && RuleTitle(b)[6..|b| + 6] == b;
    assert |RuleTitle(a)| == |a| + 7 && |RuleTitle(b)| == |b| + 7;
  }

  /** What follows the preamble. */
  function Tail(enabled: seq<Rule>): Toks { if enabled == [] then [NO_RULES_TOK] else RulesToks(enabled) }

  lemma TailsEqual(a: seq<Rule>, b: seq<Rule>)
    requires Tail(a) == Tail(b)
    ensures RulesToks(a) == RulesToks(b)
  {
    RulesStartTitle(a);
    RulesStartTitle(b);
    NotesAreNoTitles();
    if a != [] { TitleIsRuleComment(a[0].name); }
    if b != [] { TitleIsRuleComment(b[0].name); }
  }

  lemma TitleIsRuleComment(name: string)
    ensures IsRuleComment(RuleTitle(name))
  {
    assert RuleTitle(name)[..5] == "rule:";
  }

  lemma {:induction false} OrderedMembers(names: seq<string>, req: set<string>)
    ensures forall e :: e in Ordered(names, req) <==> e in names && e in req
  {
    if names != [] {
      OrderedMembers(names[1..], req);
      assert names == [names[0]] + names[1..];
      assert forall e :: e in names <==> e == names[0] || e in names[1..];
    }
  }

  lemma NeedsInOrder(rules: seq<Rule>)
    ensures forall e :: e in NeedsOf(rules) ==> e in ORDER
  {
    assert forall a, e :: e in Needs(a) ==> e in ORDER;
  }

  lemma TailHead(enabled: seq<Rule>)
    ensures Tail(enabled) != [] && Tail(enabled)[0].Comment?
  {}

  lemma RequireHead(req: set<string>, tail: Toks)
    requires Ordered(ORDER, req) != []
    ensures (RequireToks(req) + tail)[0] == Word("require")
    ensures PList((RequireToks(req) + tail)[1..]) == Ok(Ordered(ORDER, req), [Punct(';')] + tail)
  {
    var names := Ordered(ORDER, req);
    var semi := [Punct(';')] + tail;
    RequireShape(names, tail);
    ReadItems(names, semi);
    Uncons(Punct('['), ItemToks(names) + ([Punct(']')] + semi));
  }

  lemma RequireDetermines(q1: set<string>, t1: Toks, q2: set<string>, t2: Toks)
    requires RequireToks(q1) + t1 == RequireToks(q2) + t2
    requires t1 != [] && t1[0].Comment? && t2 != [] && t2[0].Comment?
    ensures Ordered(ORDER, q1) == Ordered(ORDER, q2)
  {
    if Ordered(ORDER, q1) != [] { RequireHead(q1, t1); } else { assert [] + t1 == t1; }
    if Ordered(ORDER, q2) != [] { RequireHead(q2, t2); } else { assert [] + t2 == t2; }
  }

  lemma SameOrderedSame(a: seq<Rule>, b: seq<Rule>)
    requires Ordered(ORDER, NeedsOf(a)) == Ordered(ORDER, NeedsOf(b))
    ensures NeedsOf(a) == NeedsOf(b)
  {
    NeedsInOrder(a);
    NeedsInOrder(b);
    OrderedMembers(ORDER, NeedsOf(a));
    OrderedMembers(ORDER, NeedsOf(b));
    assert forall e :: e in NeedsOf(a) <==> e in Ordered(ORDER, NeedsOf(a));
    assert forall e :: e in NeedsOf(b) <==> e in Ordered(ORDER, NeedsOf(b));
  }

  lemma AfterBanner(rules: seq<Rule>)
    ensures ScriptToks(rules) == [BANNER_TOK] + (RequireToks(NeedsOf(Enabled(rules))) + Tail(Enabled(rules)))
  {
    Assoc([BANNER_TOK], RequireToks(NeedsOf(Enabled(rules))), Tail(Enabled(rules)));
  }

  lemma EqualTokens(a: seq<Rule>, b: seq<Rule>)
    requires ScriptToks(a) == ScriptToks(b)
    ensures NeedsOf(Enabled(a)) == NeedsOf(Enabled(b)) && RulesToks(Enabled(a)) == RulesToks(Enabled(b))
  {
    var x, y := RequireToks(NeedsOf(Enabled(a))), RequireToks(NeedsOf(Enabled(b)));
    AfterBanner(a);
    AfterBanner(b);
    Uncons2(BANNER_TOK, x + Tail(Enabled(a)));
    Uncons2(BANNER_TOK, y + Tail(Enabled(b)));
    TailHead(Enabled(a));
    TailHead(Enabled(b));
    RequireDetermines(NeedsOf(Enabled(a)), Tail(Enabled(a)), NeedsOf(Enabled(b)), Tail(Enabled(b)));
    SameOrderedSame(Enabled(a), Enabled(b));
    SamePrefix(x, Tail(Enabled(a)), Tail(Enabled(b)));
    TailsEqual(Enabled(a), Enabled(b));
  }

  lemma SamePrefix(x: Toks, s: Toks, t: Toks)
    requires x + s == x + t
    ensures s == t
  {
    assert s == (x + s)[|x|..] && t == (x + t)[|x|..];
  }

  lemma Uncons2(t: Tok, rest: Toks)
    ensures ([t] + rest)[1..] == rest
  {}

  // ----- equal blocks have equal bodies -----

  lemma BodiesEqual(r: Rule, q: Rule)
    requires r.conditions != [] && q.conditions != [] && IfToks(r) == IfToks(q)
    requires Printable(r) && Rereadable(r) && Printable(q) && Rereadable(q)
    ensures BodyOf(r.actions) == BodyOf(q.actions)
  {
    IfIsRead(r);
    IfIsRead(q);
  }

  lemma IfIsRead(r: Rule)
    requires r.conditions != [] && Printable(r) && Rereadable(r)
    ensures IfToks(r) != [] && PIf(IfToks(r)[1..]) == Ok((TestOf(r), BodyOf(r.actions)), [])
  {
    var none: Toks := [];
    ExprIsTest(r);
    BodyToActions(r.actions);
    ReadIf(TestOf(r), BodyOf(r.actions), none);
    Units([Punct('}')]);
    Uncons2(Word("if"), ExprToks(r) + ([Punct('{')] + (CommandsToks(BodyOf(r.actions)) + [Punct('}')])));
  }

  lemma {:induction false} SameBare(a: seq<Command>, b: seq<Command>)
    requires BareStmts(a) == BareStmts(b)
    ensures a == b
  {
    if a != [] && b != [] {
      ConsTail(Bare(a[0]), BareStmts(a[1..]));
      ConsTail(Bare(b[0]), BareStmts(b[1..]));
      SameBare(a[1..], b[1..]);
      HeadTail(a);
      HeadTail(b);
    }
  }

  lemma CommandsEqual(a: seq<Command>, b: seq<Command>)
    requires Supported(a) && Supported(b) && CommandsToks(a) == CommandsToks(b)
    ensures a == b
  {
    CommandsAreRead(a);
    CommandsAreRead(b);
    SameBare(a, b);
  }

  lemma CommandsAreRead(cs: seq<Command>)
    requires Supported(cs)
    ensures ReadScript(CommandsToks(cs), "") == Some(BareStmts(cs))
  {
    var none: Toks := [];
    ReadBare(cs, none, "");
    Units(CommandsToks(cs));
    assert ReadScript(none, "") == Some([]);
    Units(BareStmts(cs));
  }

  lemma RereadStaysReadable(r: Rule)
    requires Printable(r) && Rereadable(r) && r.conditions != []
    ensures var again := RereadRule(r)[0]; Printable(again) && Rereadable(again) && again.conditions != []
    ensures RereadRule(r)[0].actions == RereadActions(r.actions)
  {
    RereadConditionTexts(r.conditions);
  }

  /** A rule that is re-read as one rule with the same name and block is stable. */
  lemma SameBlockIsStable(r: Rule)
    requires Printable(r) && Rereadable(r) && |RereadRule(r)| == 1
    requires RereadRule(r)[0].name == r.name && Block(RereadRule(r)[0]) == Block(r)
    ensures Stable(r)
  {
    if r.conditions != [] {
      RereadStaysReadable(r);
      RereadNameNormal(r.name);
      BodiesEqual(RereadRule(r)[0], r);
      BodyOfReread(r.actions);
    } else {
      RereadCount(r);
      RereadAlone(r);
      SameTopLevel(r);
    }
  }

  lemma SameTopLevel(r: Rule)
    requires r.conditions == [] && |TopLevel(r.actions)| == 1 && Block(RereadRule(r)[0]) == Block(r)
    ensures AllPlain(r.actions)
  {
    var actions := RereadActions(r.actions);
    RereadAlone(r);
    RereadCount(r);
    CommandsOfPrinted(r.actions);
    PrintedFlags(r.actions);
    if actions == [] {
      assert CommandsOf(r.actions) == [];
      assert CommandsOf(RereadPrinted(r.actions)) == [];
    } else {
      TopLevelToActions(actions);
      TopLevelToActions(r.actions);
      CommandsEqual(TopLevel(actions), TopLevel(r.actions));
      BodyOfReread(r.actions);
      BodyNotEmpty(r.actions);
    }
  }

  lemma BodyNotEmpty(actions: seq<Action>)
    requires RereadActions(actions) != []
    ensures BodyOf(RereadActions(actions)) != []
  {
    PrintedAreCommands(actions);
    CommandsOfAll(RereadActions(actions));
  }

  lemma {:induction false} PrintedAreCommands(actions: seq<Action>)
    ensures forall a :: a in RereadPrinted(actions) ==> CommandOf(a).Some?
  {
    if actions != [] {
      PrintedAreCommands(actions[1..]);
      if CommandOf(actions[0]).Some? { RereadActionCommand(actions[0]); }
    }
  }

  lemma CommandsOfAll(actions: seq<Action>)
    requires actions != [] && forall a :: a in actions ==> CommandOf(a).Some?
    ensures CommandsOf(actions) != []
  {
    FrontLast(actions);
  }

  // ----- both directions -----

  predicate FixedPointCondition(enabled: seq<Rule>) {
    (forall r :: r in enabled ==> Stable(r)) && NeedsCovered(enabled)
  }

  lemma StableIsFixed(rules: seq<Rule>)
    requires (forall r :: r in Enabled(rules) ==> Rereadable(r)) && FixedPointCondition(Enabled(rules))
    ensures RereadRules(Enabled(rules)).Some? && PrintScript(RereadRules(Enabled(rules)).value) == PrintScript(rules)
  {
    var enabled := Enabled(rules);
    RereadTexts(enabled);
    NeedsOfRereadRules(enabled);
    RereadLasting(enabled);
    EnabledAll(RereadRules(enabled).value);
  }

  lemma {:induction false} RereadSome(rules: seq<Rule>)
    ensures RereadRules(rules).Some? <==> forall r :: r in rules ==> Rereadable(r)
  {
    if rules != [] {
      assert rules == [rules[0]] + rules[1..];
      RereadSome(rules[1..]);
    }
  }

  /** Every printable rule is re-read as at least one rule, so equal numbers mean one each. */
  lemma {:induction false} OneEach(rules: seq<Rule>)
    requires (forall r :: r in rules ==> Printable(r)) && RereadRules(rules).Some? &&
            |RereadRules(rules).value| == |rules|
    ensures forall k :: 0 <= k < |rules| ==>
            Rereadable(rules[k]) && RereadRule(rules[k]) == [RereadRules(rules).value[k]]
  {
    if rules != [] {
      var r, rest := rules[0], rules[1..];
      HeadTail(rules);
      RereadLasting(rest);
      RereadRuleLasting(r);
      var own, more := RereadRule(r), RereadRules(rest).value;
      assert RereadRules(rules).value == own + more;
      OneEach(rest);
      forall k | 0 <= k < |rules| ensures Rereadable(rules[k]) &&
        RereadRule(rules[k]) == [RereadRules(rules).value[k]] {
        if k > 0 { assert rules[k] == rest[k - 1] && (own + more)[k] == more[k - 1]; }
      }
    }
  }

  lemma FixedIsStable(rules: seq<Rule>)
    requires OneLineNames(Enabled(rules)) && Import(PrintScript(rules)) == RereadRules(Enabled(rules)) &&
            RereadRules(Enabled(rules)).Some?
    requires PrintScript(RereadRules(Enabled(rules)).value) == PrintScript(rules)
    ensures FixedPointCondition(Enabled(rules))
  {
    var enabled := Enabled(rules);
    var again := RereadRules(enabled).value;
    RereadLasting(enabled);
    EnabledAll(again);
    ImportedNamesAreOneLine(PrintScript(rules));
    PrintedTokens(rules);
    PrintedTokens(again);
    EqualTokens(rules, again);
    BlocksEqual(enabled, again);
    forall k | 0 <= k < |enabled| ensures Printable(enabled[k]) {
      assert again[k] in again;
      OwnHead(again[k]);
      assert Block(enabled[k]) == Block(again[k]);
    }
    OneEach(enabled);
    forall k | 0 <= k < |enabled| ensures Stable(enabled[k]) { SameBlockIsStable(enabled[k]); }
    RereadSome(enabled);
    NeedsOfRereadRules(enabled);
  }

  /**
   Printing as a fixed point of re-import, for every list whose enabled rules have one-line names: it is imported
   exactly when no negated constant test is printed, and the second text then equals the first exactly when every
   enabled rule is printed, its flags have at most one leading backslash, its name is normal or, without conditions,
   the fixed one over a single command, and no extension is asked for by an action that is not printed alone.
   */
  lemma PrintFixedPoint(rules: seq<Rule>)
    requires OneLineNames(Enabled(rules))
    ensures Import(PrintScript(rules)).Some? <==> forall r :: r in Enabled(rules) ==> Rereadable(r)
    ensures Import(PrintScript(rules)).Some? ==>
              (FixedPointCondition(Enabled(rules))
              <==> PrintScript(Import(PrintScript(rules)).value) == PrintScript(rules))
  {
    ImportOfPrint(rules);
    RereadSome(Enabled(rules));
    if Import(PrintScript(rules)).Some? {
      if FixedPointCondition(Enabled(rules)) {
        StableIsFixed(rules);
      } else if PrintScript(RereadRules(Enabled(rules)).value) == PrintScript(rules) {
        FixedIsStable(rules);
      }
    }
  }

  // ----- text that never settles -----

  const ONLY_STOP := Rule(UNCONDITIONAL, true, AllOf, [], [Stop])

  function Stops(k: nat): seq<Rule> { if k == 0 then [] else [ONLY_STOP] + Stops(k - 1) }

  function Filing(mailbox: string): Rule { Rule(UNCONDITIONAL, true, AllOf, [], [FileInto(mailbox, false)]) }

  /** A filing without conditions, and then `k` stops. */
  function Grown(mailbox: string, k: nat): seq<Rule> { [Filing(mailbox)] + Stops(k) }

  lemma {:induction false} StopsLasting(k: nat)
    ensures |Stops(k)| == k && forall r :: r in Stops(k) ==> r == ONLY_STOP
    ensures RereadRules(Stops(k)) == Some(Stops(k))
  {
    if k > 0 {
      StopsLasting(k - 1);
      ConsTail(ONLY_STOP, Stops(k - 1));
      StopAgain();
    }
  }

  lemma StopAgain()
    ensures Rereadable(ONLY_STOP) && RereadRule(ONLY_STOP) == [ONLY_STOP]
  {
    assert [Stop][1..] == [] && !AddsStop([Stop]);
    assert RereadActions([Stop]) == [Stop];
    assert Unconditional([Stop]) == [ONLY_STOP];
  }

  lemma FilingAgain(mailbox: string)
    requires CleanItem(mailbox)
    ensures Rereadable(Filing(mailbox)) && RereadRule(Filing(mailbox)) == [Filing(mailbox)] + [ONLY_STOP]
    ensures !Stable(Filing(mailbox))
  {
    var a := FileInto(mailbox, false);
    SplitJoinOfClean([mailbox]);
    assert a in [a] && IsTerminal(a) && AddsStop([a]);
    assert RereadAction(a) == a && CommandOf(a).Some?;
    assert [a][1..] == [];
    Units([a]);
    assert RereadPrinted([a]) == [a];
    UnconditionalOfTwo(a, Stop);
    RereadCount(Filing(mailbox));
  }

  lemma UnconditionalOfTwo(a: Action, b: Action)
    ensures Unconditional([a] + [b]) ==
            [Rule(UNCONDITIONAL, true, AllOf, [], [a])] + [Rule(UNCONDITIONAL, true, AllOf, [], [b])]
  {
    ConsTail(a, [b]);
    assert [b][1..] == [] && Unconditional([]) == [];
    assert Unconditional([b]) == [Rule(UNCONDITIONAL, true, AllOf, [], [b])] + [];
    Units([Rule(UNCONDITIONAL, true, AllOf, [], [b])]);
  }

  lemma RereadStep(r: Rule, own: seq<Rule>, rest: seq<Rule>, more: seq<Rule>)
    requires Rereadable(r) && RereadRule(r) == own && RereadRules(rest) == Some(more)
    ensures RereadRules([r] + rest) == Some(own + more)
  {
    ConsTail(r, rest);
  }

  lemma GrownAgain(mailbox: string, k: nat)
    requires CleanItem(mailbox)
    ensures RereadRules(Grown(mailbox, k)) == Some(Grown(mailbox, k + 1))
  {
    StopsLasting(k);
    FilingAgain(mailbox);
    RereadStep(Filing(mailbox), [Filing(mailbox)] + [ONLY_STOP], Stops(k), Stops(k));
    Assoc([Filing(mailbox)], [ONLY_STOP], Stops(k));
  }

  lemma FixedNameIsOneLine()
    ensures '\n' !in UNCONDITIONAL
  {}

  lemma GrownRules(mailbox: string, k: nat)
    ensures |Grown(mailbox, k)| == k + 1 && forall r :: r in Grown(mailbox, k) ==> r.enabled && r.name == UNCONDITIONAL
  {
    StopsLasting(k);
  }

  lemma NamedAlike(rules: seq<Rule>, name: string)
    requires '\n' !in name && forall r :: r in rules ==> r.enabled && r.name == name
    ensures Enabled(rules) == rules && OneLineNames(rules)
  {
    EnabledAll(rules);
  }

  lemma GrownEnabled(mailbox: string, k: nat)
    ensures Enabled(Grown(mailbox, k)) == Grown(mailbox, k) && OneLineNames(Grown(mailbox, k))
    ensures |Grown(mailbox, k)| == k + 1
  {
    FixedNameIsOneLine();
    GrownRules(mailbox, k);
    NamedAlike(Grown(mailbox, k), UNCONDITIONAL);
  }

  /** A filing without conditions becomes one more rule, and another text, each time the script is loaded and saved. */
  lemma FilingGrows(mailbox: string, k: nat)
    requires CleanItem(mailbox)
    ensures |Grown(mailbox, k)| == k + 1
    ensures Import(PrintScript(Grown(mailbox, k))) == Some(Grown(mailbox, k + 1))
    ensures PrintScript(Grown(mailbox, k + 1)) != PrintScript(Grown(mailbox, k))
  {
    GrownEnabled(mailbox, k);
    GrownAgain(mailbox, k);
    ImportOfPrint(Grown(mailbox, k));
    PrintFixedPoint(Grown(mailbox, k));
    FilingAgain(mailbox);
    assert Grown(mailbox, k)[0] == Filing(mailbox);
  }
}
