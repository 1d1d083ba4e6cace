/**
 What scripts and rules do to a message. Tests follow sections 5.1 to 5.9 of RFC 5228 over the header fields of a
 message and any way of matching them; a run is the list of commands carried out.
 */
module SieveMeaning {
  import opened Seqs
  import opened SieveText
  import opened SieveModel
  import opened SievePrinter
  import opened SieveLexer
  import opened SieveParser
  import opened SieveCompile
  import opened SieveReimport
  import opened SieveRoundTrip
  import opened SieveFixedPoint

  /**
   * How header fields are read: when a key matches a text, which addresses (part by part) a field body holds, and
   * which bodies can occur at all. Comparators, wildcards and address syntax are inside these three.
   */
  datatype Mail = Mail(matches: (Op, string, string) -> bool, addresses: string -> iset<(Part, string)>,
    possible: iset<string>)

  /** A message: its header fields, by lower-case name and body. */
  datatype Message = Message(mail: Mail, fields: iset<(string, string)>)

  ghost predicate Possible(m: Message) { forall field :: field in m.fields ==> field.1 in m.mail.possible }

  // ----- scripts -----

  /** A key matches a field body, or an address in it. */
  ghost predicate Hits(mail: Mail, kind: TestKind, part: Part, op: Op, text: string, v: string) {
    match kind
    case Header => mail.matches(op, text, v)
    case Address => exists a :: (part, a) in mail.addresses(text) && mail.matches(op, a, v)
    case _ => true
  }

  ghost predicate FieldHits(m: Message, kind: TestKind, part: Part, op: Op, h: string, text: string, v: string) {
    (Lower(h), text) in m.fields && Hits(m.mail, kind, part, op, text, v)
  }

  ghost predicate HasField(m: Message, h: string) { exists text :: (Lower(h), text) in m.fields }

  /** An address test without header names looks at every field. */
  predicate LooksAt(kind: TestKind, headers: seq<string>, h: string) {
    h in headers || (kind == Address && headers == [])
  }

  ghost predicate SomeFieldHits(kind: TestKind, part: Part, op: Op, headers: seq<string>, v: string, m: Message) {
    exists h, text :: LooksAt(kind, headers, h) && FieldHits(m, kind, part, op, h, text, v)
  }

  ghost predicate HoldsValue(kind: TestKind, part: Part, op: Op, headers: seq<string>, v: string, m: Message) {
    match kind
    case Header => SomeFieldHits(Header, Whole, op, headers, v, m)
    case Address => SomeFieldHits(Address, part, op, headers, v, m)
    case Exists => forall h :: h in headers ==> HasField(m, h)
    case True => true
  }

  ghost predicate HoldsTest(t: TestNode, m: Message)
    decreases t
  {
    match t
    case TrueTest => true
    case Simple(kind, part, op, negated, headers, values) =>
      negated != (if kind == Exists then HoldsValue(kind, part, op, headers, "", m)
                  else exists v :: v in values && HoldsValue(kind, part, op, headers, v, m))
    case Group(all, children) =>
      if all then forall c :: c in children ==> HoldsTest(c, m) else exists c :: c in children && HoldsTest(c, m)
  }

  /** The commands carried out and whether a stop was among those reached. */
  datatype Run = Run(effects: seq<Command>, stopped: bool) {
    function Then(rest: seq<Command>): seq<Command> { if stopped then effects else effects + rest }
  }

  function RunCommands(cs: seq<Command>): Run {
    if cs == [] then Run([], false)
    else if cs[0].name == "stop" then Run([], true)
    else var r := RunCommands(cs[1..]); Run([cs[0]] + r.effects, r.stopped)
  }

  ghost function RunStmt(s: Stmt, m: Message): Run {
    match s
    case Bare(c) => RunCommands([c])
    case If(_, test, block) => if HoldsTest(test, m) then RunCommands(block) else Run([], false)
  }

  ghost function RunScript(ss: seq<Stmt>, m: Message): seq<Command> {
    if ss == [] then [] else RunStmt(ss[0], m).Then(RunScript(ss[1..], m))
  }

  // ----- rules -----

  ghost predicate MatchesCondition(c: Condition, m: Message) {
    c.negated != HoldsValue(c.test, c.part, c.op, SplitList(c.header), c.value, m)
  }

  ghost predicate MatchesAll(join: JoinKind, cs: seq<Condition>, m: Message) {
    if join == AllOf then forall c :: c in cs ==> MatchesCondition(c, m)
    else exists c :: c in cs && MatchesCondition(c, m)
  }

  /** A rule applies when it is on, every condition names what it needs, and the conditions match. */
  ghost predicate Applies(r: Rule, m: Message) {
    r.enabled && Printable(r) && (r.conditions == [] || MatchesAll(r.join, r.conditions, m))
  }

  /** The actions of a rule in order, up to its first stop; incomplete actions do nothing. */
  function RunActions(actions: seq<Action>): Run {
    if actions == [] then Run([], false)
    else if actions[0] == Stop then Run([], true)
    else
      var r := RunActions(actions[1..]);
      Run((if CommandOf(actions[0]).Some? then [CommandOf(actions[0]).value] else []) + r.effects, r.stopped)
  }

  ghost predicate HasTerminal(actions: seq<Action>) {
    exists a :: a in actions && (a.FileInto? || a.Redirect? || a.Discard? || a.Reject?)
  }

  /** A rule with a filing, redirecting, rejecting or discarding action is the last one to run. */
  ghost function RunRule(r: Rule): Run {
    var run := RunActions(r.actions);
    var stopped := run.stopped || HasTerminal(r.actions);
    if r.conditions == [] && run.effects == [] && !stopped then Run([KEEP], false) else Run(run.effects, stopped)
  }

  ghost function RunRules(rules: seq<Rule>, m: Message): seq<Command> {
    if rules == [] then []
    else if Applies(rules[0], m) then RunRule(rules[0]).Then(RunRules(rules[1..], m))
    else RunRules(rules[1..], m)
  }

  // ----- bodies -----

  lemma {:induction false} RunCommandsConcat(a: seq<Command>, b: seq<Command>)
    ensures RunCommands(a + b) ==
            if RunCommands(a).stopped then RunCommands(a)
              else Run(RunCommands(a).effects + RunCommands(b).effects, RunCommands(b).stopped)
  {
    if a == [] {
      assert a + b == b;
      assert [] + RunCommands(b).effects == RunCommands(b).effects;
    } else {
      RunCommandsConcat(a[1..], b);
      assert (a + b)[1..] == a[1..] + b && (a + b)[0] == a[0];
      assert [a[0]] + (RunCommands(a[1..]).effects + RunCommands(b).effects) ==
        ([a[0]] + RunCommands(a[1..]).effects) + RunCommands(b).effects;
    }
  }

  lemma StopIsStop(a: Action)
    requires CommandOf(a).Some?
    ensures CommandOf(a).value.name == "stop" <==> a == Stop
  {
    if a.Flag? { FlagItems(a.kind); }
  }

  lemma RunStep(a: Action, rest: seq<Action>)
    requires a != Stop
    ensures RunActions([a] + rest) ==
            Run((if CommandOf(a).Some? then [CommandOf(a).value] else []) + RunActions(rest).effects,
              RunActions(rest).stopped)
  {
    ConsTail(a, rest);
  }

  lemma RunStop(rest: seq<Action>)
    ensures RunActions([Stop] + rest) == Run([], true)
  {
    ConsTail(Stop, rest);
  }

  lemma {:induction false} RunActionsConcat(a: seq<Action>, b: seq<Action>)
    ensures RunActions(a + b) ==
            if RunActions(a).stopped then RunActions(a)
              else Run(RunActions(a).effects + RunActions(b).effects, RunActions(b).stopped)
  {
    if a == [] {
      Units(b);
      Units(RunActions(b).effects);
    } else {
      var rest := a[1..];
      HeadTail(a);
      RunActionsConcat(rest, b);
      Assoc([a[0]], rest, b);
      if a[0] == Stop {
        RunStop(rest);
        RunStop(rest + b);
      } else {
        RunStep(a[0], rest);
        RunStep(a[0], rest + b);
        Assoc(if CommandOf(a[0]).Some? then [CommandOf(a[0]).value] else [], RunActions(rest).effects,
          RunActions(b).effects);
      }
    }
  }

  lemma OneCommand(c: Command)
    ensures RunCommands([c]) == if c.name == "stop" then Run([], true) else Run([c], false)
  {
    assert [c][1..] == [];
  }

  lemma OneActionRun(a: Action)
    ensures RunActions([a]) ==
            if a == Stop then Run([], true) else Run(if CommandOf(a).Some? then [CommandOf(a).value] else [], false)
  {
    assert [a][1..] == [];
  }

  lemma {:induction false} RunCommandsOf(actions: seq<Action>)
    ensures RunCommands(CommandsOf(actions)) == RunActions(actions)
  {
    if actions != [] {
      var front, last := actions[..|actions| - 1], actions[|actions| - 1];
      assert actions == front + [last];
      RunCommandsOf(front);
      Snoc(front, last);
      RunActionsConcat(front, [last]);
      OneActionRun(last);
      if CommandOf(last).Some? {
        RunCommandsConcat(CommandsOf(front), [CommandOf(last).value]);
        OneCommand(CommandOf(last).value);
        StopIsStop(last);
      } else {
        assert CommandsOf(actions) == CommandsOf(front);
        assert RunActions(front).effects + [] == RunActions(front).effects;
      }
    }
  }

  lemma {:induction false} StoppedIsStop(actions: seq<Action>)
    ensures RunActions(actions).stopped <==> Stop in actions
  {
    if actions != [] {
      assert actions == [actions[0]] + actions[1..];
      StoppedIsStop(actions[1..]);
    }
  }

  /** The printed body does what the rule's actions do, and ends the script exactly when the rule should. */
  lemma RunBody(actions: seq<Action>)
    ensures RunCommands(BodyOf(actions)) ==
            Run(RunActions(actions).effects, RunActions(actions).stopped || HasTerminal(actions))
  {
    RunCommandsOf(actions);
    StoppedIsStop(actions);
    if AddsStop(actions) {
      RunCommandsConcat(CommandsOf(actions), [STOP]);
      OneCommand(STOP);
      assert RunActions(actions).effects + [] == RunActions(actions).effects;
    } else {
      assert BodyOf(actions) == CommandsOf(actions);
    }
  }

  lemma {:induction false} NoCommandsRun(cs: seq<Command>)
    ensures RunCommands(cs) == Run([], false) <==> cs == []
  {}

  lemma RunTopLevel(actions: seq<Action>)
    ensures RunCommands(TopLevel(actions)) == RunRule(Rule("", true, AllOf, [], actions))
  {
    RunBody(actions);
    NoCommandsRun(BodyOf(actions));
    OneCommand(KEEP);
  }

  // ----- tests -----

  lemma OneValue(kind: TestKind, part: Part, op: Op, headers: seq<string>, v: string, m: Message)
    ensures (exists x :: x in [v] && HoldsValue(kind, part, op, headers, x, m)) ==
            HoldsValue(kind, part, op, headers, v, m)
  {
    assert v in [v] && forall x :: x in [v] ==> x == v;
  }

  lemma NodeMeaning(c: Condition, m: Message)
    requires ConditionText(c).Some? && !NotTrue(c)
    ensures HoldsTest(NodeOf(c), m) == MatchesCondition(c, m)
  {
    match c.test
    case True =>
    case Exists =>
    case Address => OneValue(Address, c.part, c.op, SplitList(c.header), c.value, m);
    case Header => OneValue(Header, Whole, c.op, SplitList(c.header), c.value, m);
  }

  lemma {:induction false} NodesMeaning(cs: seq<Condition>, m: Message)
    requires forall c :: c in cs ==> ConditionText(c).Some? && !NotTrue(c)
    ensures (forall t :: t in NodesOf(cs) ==> HoldsTest(t, m)) <==> forall c :: c in cs ==> MatchesCondition(c, m)
    ensures (exists t :: t in NodesOf(cs) && HoldsTest(t, m)) <==> exists c :: c in cs && MatchesCondition(c, m)
  {
    if cs != [] {
      var rest := cs[1..];
      assert cs == [cs[0]] + rest;
      assert forall c :: c in cs <==> c == cs[0] || c in rest;
      NodeMeaning(cs[0], m);
      NodesMeaning(rest, m);
      assert forall t :: t in NodesOf(cs) <==> t == NodeOf(cs[0]) || t in NodesOf(rest);
    }
  }

  lemma OneMatches(c: Condition, cs: seq<Condition>, join: JoinKind, m: Message)
    requires cs == [c]
    ensures MatchesAll(join, cs, m) == MatchesCondition(c, m)
  {
    assert cs[0] in cs && forall x :: x in cs ==> x == c;
  }

  lemma GroupMeaning(join: JoinKind, cs: seq<Condition>, m: Message)
    requires forall c :: c in cs ==> ConditionText(c).Some? && !NotTrue(c)
    ensures HoldsTest(Group(join == AllOf, NodesOf(cs)), m) == MatchesAll(join, cs, m)
  {
    NodesMeaning(cs, m);
  }

  lemma TestMeaning(r: Rule, m: Message)
    requires Printable(r) && Rereadable(r) && r.conditions != []
    ensures HoldsTest(TestOf(r), m) == MatchesAll(r.join, r.conditions, m)
  {
    var cs := r.conditions;
    if |cs| == 1 {
      assert cs[0] in cs && cs == [cs[0]];
      NodeMeaning(cs[0], m);
      OneMatches(cs[0], cs, r.join, m);
    } else {
      GroupMeaning(r.join, cs, m);
    }
  }

  // ----- the printed script -----

  /** A script whose continuation is already known. */
  ghost function RunStmts(ss: seq<Stmt>, rest: seq<Command>, m: Message): seq<Command> {
    if ss == [] then rest else RunStmt(ss[0], m).Then(RunStmts(ss[1..], rest, m))
  }

  lemma {:induction false} RunStmtsConcat(a: seq<Stmt>, b: seq<Stmt>, m: Message)
    ensures RunScript(a + b, m) == RunStmts(a, RunScript(b, m), m)
  {
    if a == [] {
      assert a + b == b;
    } else {
      RunStmtsConcat(a[1..], b, m);
      assert (a + b)[1..] == a[1..] + b && (a + b)[0] == a[0];
    }
  }

  lemma BareStepRun(c: Command, more: seq<Stmt>, rest: seq<Command>, m: Message)
    ensures RunStmts([Bare(c)] + more, rest, m) == RunCommands([c]).Then(RunStmts(more, rest, m))
  {
    ConsTail(Bare(c), more);
  }

  lemma RunCommandsStep(c: Command, rest: seq<Command>)
    ensures RunCommands([c] + rest) ==
            if c.name == "stop" then Run([], true) else Run([c] + RunCommands(rest).effects, RunCommands(rest).stopped)
  {
    ConsTail(c, rest);
  }

  lemma {:induction false} BareMeaning(cs: seq<Command>, rest: seq<Command>, m: Message)
    ensures RunStmts(BareStmts(cs), rest, m) == RunCommands(cs).Then(rest)
  {
    if cs == [] {
      Units(rest);
    } else {
      HeadTail(cs);
      BareMeaning(cs[1..], rest, m);
      OneCommand(cs[0]);
      BareStepRun(cs[0], BareStmts(cs[1..]), rest, m);
      RunCommandsStep(cs[0], cs[1..]);
      Assoc([cs[0]], RunCommands(cs[1..]).effects, rest);
    }
  }

  lemma RuleMeaning(r: Rule, rest: seq<Command>, m: Message)
    requires r.enabled && Rereadable(r)
    ensures RunStmts(RuleStmts(r), rest, m) == if Applies(r, m) then RunRule(r).Then(rest) else rest
  {
    if Printable(r) {
      if r.conditions == [] {
        BareMeaning(TopLevel(r.actions), rest, m);
        RunTopLevel(r.actions);
      } else {
        TestMeaning(r, m);
        RunBody(r.actions);
        assert RuleStmts(r)[1..] == [];
        assert [] + rest == rest;
      }
    }
  }

  lemma {:induction false} StmtsMeaning(rules: seq<Rule>, m: Message)
    requires forall r :: r in rules ==> r.enabled && Rereadable(r)
    ensures Stmts(rules).Some? && RunScript(Stmts(rules).value, m) == RunRules(rules, m)
  {
    if rules != [] {
      assert rules[0] in rules && forall r :: r in rules[1..] ==> r in rules;
      StmtsMeaning(rules[1..], m);
      RunStmtsConcat(RuleStmts(rules[0]), Stmts(rules[1..]).value, m);
      RuleMeaning(rules[0], RunRules(rules[1..], m), m);
    }
  }

  lemma {:induction false} EnabledMeaning(rules: seq<Rule>, m: Message)
    ensures RunRules(Enabled(rules), m) == RunRules(rules, m)
    ensures forall r :: r in Enabled(rules) ==> r.enabled
  {
    if rules != [] {
      EnabledMeaning(rules[1..], m);
      if rules[0].enabled { ConsTail(rules[0], Enabled(rules[1..])); } else { Units(Enabled(rules[1..])); }
    }
  }

  /**
   The generated script does to every message what the rules do: read back from its text,
   it carries out the same commands in the same order.
   */
  lemma ReadBackMeaning(rules: seq<Rule>, m: Message)
    requires OneLineNames(Enabled(rules)) && forall r :: r in Enabled(rules) ==> Rereadable(r)
    ensures Lex(PrintScript(rules)).Some?
    ensures var ss := ReadScript(Lex(PrintScript(rules)).value, "");
            ss.Some? && RunScript(ss.value, m) == RunRules(rules, m)
  {
    PrintedTokens(rules);
    ReadPrinted(rules);
    EnabledMeaning(rules, m);
    StmtsMeaning(Enabled(rules), m);
  }

  lemma JoinOfOne(cs: seq<Condition>, m: Message)
    requires |cs| == 1
    ensures MatchesAll(AllOf, cs, m) == MatchesAll(AnyOf, cs, m)
  {
    assert cs[0] in cs && forall c :: c in cs ==> c == cs[0];
  }
}
