/**
 Printing followed by re-reading, as one function on rules: what each rule becomes, and the proof that the parser reads
 the tokens of printed rules to the statements they stand for.
 */
module SieveReimport {
  import opened Wrappers
  import opened Seqs
  import opened SieveText
  import opened SieveModel
  import opened SievePrinter
  import opened SieveLexer
  import opened SieveParser
  import opened SieveSyntax
  import opened SieveFlatten
  import opened SieveCompile

  // ----- what re-reading does to each part -----

  function Relist(s: string): string { Join(SplitList(s), ",") }

  function RereadCondition(c: Condition): Condition {
    match c.test
    case True => TRUE_CONDITION
    case Exists => Condition(Exists, Whole, Is, c.negated, Relist(c.header), "")
    case Address => c.(header := Relist(c.header))
    case Header => c.(part := Whole, header := Relist(c.header))
  }

  function RereadConditions(cs: seq<Condition>): seq<Condition> {
    if cs == [] then [] else [RereadCondition(cs[0])] + RereadConditions(cs[1..])
  }

  function RereadAction(a: Action): Action {
    match a
    case FileInto(mailbox, copy) => FileInto(Relist(mailbox), copy)
    case Reject(text) => Reject(if text == "" then "Rejected" else text)
    case Flag(kind, flag) => Flag(kind, Join(OneBackslashEach(SplitList(flag)), ","))
    case _ => a
  }

  /** The printed actions of a rule, re-read, and the stop the printer adds. */
  function RereadActions(actions: seq<Action>): seq<Action> {
    RereadPrinted(actions) + if AddsStop(actions) then [Stop] else []
  }

  function RereadPrinted(actions: seq<Action>): seq<Action> {
    if actions == [] then []
    else (if CommandOf(actions[0]).Some? then [RereadAction(actions[0])] else []) + RereadPrinted(actions[1..])
  }

  /**
   A name is cut at its first bracket and trimmed; without one character before that, the opening bracket is taken.
   */
  function RereadName(name: string): string {
    var k := Run(name, NotBracket);
    if k == 0 then "[" else Trim(name[..k])
  }

  function Unconditional(actions: seq<Action>): seq<Rule> {
    if actions == [] then [] else [Rule(UNCONDITIONAL, true, AllOf, [], [actions[0]])] + Unconditional(actions[1..])
  }

  function RereadRule(r: Rule): seq<Rule> {
    if !Printable(r) then []
    else if r.conditions == [] then
      var actions := RereadActions(r.actions);
      Unconditional(if actions == [] then [Keep] else actions)
    else
      [Rule(RereadName(r.name), true, if |r.conditions| == 1 then AllOf else r.join, RereadConditions(r.conditions),
        RereadActions(r.actions))]
  }

  predicate Rereadable(r: Rule) {
    Printable(r) ==> forall c :: c in r.conditions ==> !NotTrue(c)
  }

  function RereadRules(rules: seq<Rule>): Option<seq<Rule>> {
    if rules == [] then Some([])
    else if !Rereadable(rules[0]) then None
    else match RereadRules(rules[1..]) case None => None case Some(rest) => Some(RereadRule(rules[0]) + rest)
  }

  // ----- actions and commands -----

  lemma {:induction false} FlagItems(kind: FlagKind)
    ensures FlagKindOf(FlagText(kind)) == Some(kind)
    ensures FlagText(kind) != "fileinto" && FlagText(kind) != "redirect" && FlagText(kind) != "reject" &&
            FlagText(kind) != "ereject"
    ensures FlagText(kind) != "discard" && FlagText(kind) != "keep" && FlagText(kind) != "stop"
  {}

  lemma CommandToAction(a: Action)
    requires CommandOf(a).Some?
    ensures ToAction(CommandOf(a).value) == Some(RereadAction(a))
  {
    if a.Flag? { FlagItems(a.kind); }
  }

  lemma {:induction false} RereadPrintedSnoc(actions: seq<Action>, a: Action)
    ensures RereadPrinted(actions + [a]) ==
            RereadPrinted(actions) + (if CommandOf(a).Some? then [RereadAction(a)] else [])
  {
    var own := if CommandOf(a).Some? then [RereadAction(a)] else [];
    if actions == [] {
      Units([a]);
      assert [a][1..] == [];
      Units(own);
    } else {
      RereadPrintedSnoc(actions[1..], a);
      TailOfConcat(actions, [a]);
      Assoc(if CommandOf(actions[0]).Some? then [RereadAction(actions[0])] else [], RereadPrinted(actions[1..]), own);
    }
  }

  lemma {:induction false} ToActionsConcat(a: seq<Command>, b: seq<Command>)
    requires Supported(a) && Supported(b)
    ensures Supported(a + b) && ToActions(a + b) == ToActions(a) + ToActions(b)
  {
    if a == [] {
      Units(b);
      Units(ToActions(b));
    } else {
      assert forall c :: c in a[1..] ==> c in a;
      ToActionsConcat(a[1..], b);
      TailOfConcat(a, b);
      Assoc([ToAction(a[0]).value], ToActions(a[1..]), ToActions(b));
    }
  }

  lemma OneAction(c: Command)
    requires ToAction(c).Some?
    ensures Supported([c]) && ToActions([c]) == [ToAction(c).value]
  {
    assert [c][1..] == [];
  }

  lemma AppendAction(cs: seq<Command>, a: Action)
    requires Supported(cs) && CommandOf(a).Some?
    ensures Supported(cs + [CommandOf(a).value])
    ensures ToActions(cs + [CommandOf(a).value]) == ToActions(cs) + [RereadAction(a)]
  {
    CommandToAction(a);
    OneAction(CommandOf(a).value);
    ToActionsConcat(cs, [CommandOf(a).value]);
  }

  lemma {:induction false} CommandsToActions(actions: seq<Action>)
    ensures Supported(CommandsOf(actions)) && ToActions(CommandsOf(actions)) == RereadPrinted(actions)
  {
    if actions != [] {
      var front, last := actions[..|actions| - 1], actions[|actions| - 1];
      CommandsToActions(front);
      RereadPrintedSnoc(front, last);
      FrontLast(actions);
      if CommandOf(last).Some? {
        AppendAction(CommandsOf(front), last);
      } else {
        Units(CommandsOf(front));
        Units(RereadPrinted(front));
      }
    }
  }

  lemma BodyToActions(actions: seq<Action>)
    ensures Supported(BodyOf(actions)) && ToActions(BodyOf(actions)) == RereadActions(actions)
  {
    CommandsToActions(actions);
    if AddsStop(actions) {
      AppendAction(CommandsOf(actions), Stop);
    } else {
      Units(CommandsOf(actions));
      Units(RereadPrinted(actions));
    }
  }

  lemma TopLevelToActions(actions: seq<Action>)
    ensures Supported(TopLevel(actions))
    ensures ToActions(TopLevel(actions)) == if RereadActions(actions) == [] then [Keep] else RereadActions(actions)
  {
    BodyToActions(actions);
    OneAction(KEEP);
    assert |ToActions(BodyOf(actions))| == |BodyOf(actions)| by { ToActionsLength(BodyOf(actions)); }
  }

  lemma {:induction false} ToActionsLength(cs: seq<Command>)
    requires Supported(cs)
    ensures |ToActions(cs)| == |cs|
  {
    if cs != [] { ToActionsLength(cs[1..]); }
  }

  // ----- tests -----

  function NodesOf(cs: seq<Condition>): seq<TestNode> {
    if cs == [] then [] else [NodeOf(cs[0])] + NodesOf(cs[1..])
  }

  function TestOf(r: Rule): TestNode
    requires r.conditions != []
  {
    if |r.conditions| == 1 then NodeOf(r.conditions[0]) else Group(r.join == AllOf, NodesOf(r.conditions))
  }

  lemma NodeWellFormed(c: Condition)
    requires ConditionText(c).Some?
    ensures WellFormed(NodeOf(c))
  {}

  lemma {:induction false} NodesWellFormed(cs: seq<Condition>)
    requires forall c :: c in cs ==> ConditionText(c).Some?
    ensures |NodesOf(cs)| == |cs|
    ensures forall t :: t in NodesOf(cs) ==> WellFormed(t)
  {
    if cs != [] {
      assert cs[0] in cs;
      NodeWellFormed(cs[0]);
      NodesWellFormed(cs[1..]);
    }
  }

  lemma {:induction false} NodesToks(cs: seq<Condition>)
    requires forall c :: c in cs ==> !NotTrue(c)
    ensures ConditionsToks(cs) == TestsToks(NodesOf(cs))
  {
    if cs != [] {
      assert cs[0] in cs;
      NodesToks(cs[1..]);
      assert NodesOf(cs)[1..] == NodesOf(cs[1..]);
      NodesLength(cs);
      if |cs| > 1 {
        assert TestsToks(NodesOf(cs)) == ConditionToks(cs[0]) + [Punct(',')] + TestsToks(NodesOf(cs[1..]));
        Assoc(ConditionToks(cs[0]), [Punct(',')], ConditionsToks(cs[1..]));
      }
    }
  }

  lemma {:induction false} NodesLength(cs: seq<Condition>)
    ensures |NodesOf(cs)| == |cs|
  {
    if cs != [] { NodesLength(cs[1..]); }
  }

  lemma ExprIsTest(r: Rule)
    requires Printable(r) && Rereadable(r) && r.conditions != []
    ensures ExprToks(r) == TestToks(TestOf(r)) && WellFormed(TestOf(r))
  {
    var cs := r.conditions;
    NodesWellFormed(cs);
    NodesToks(cs);
    if |cs| == 1 {
      assert cs[0] in cs;
      NodeWellFormed(cs[0]);
    } else {
      GroupShape(r.join, NodesOf(cs), ConditionsToks(cs));
    }
  }

  lemma GroupShape(join: JoinKind, nodes: seq<TestNode>, ts: Toks)
    requires ts == TestsToks(nodes)
    ensures TestToks(Group(join == AllOf, nodes)) == [Word(JoinText(join))] + ([Punct('(')] + (ts + [Punct(')')]))
  {}

  /** Flattening a printed test gives the conditions back. */
  lemma FlattenNode(c: Condition)
    requires ConditionText(c).Some? && !NotTrue(c)
    ensures FlattenTest(NodeOf(c)) == Some(Flat(AllOf, [RereadCondition(c)]))
  {
    if c.test != True {
      var t := NodeOf(c);
      var base := Condition(t.kind, t.part, t.op, t.negated, Join(t.headers, ","), "");
      var v := if c.test == Exists then "" else c.value;
      assert PerValue(base, [v]) == [base.(value := v)] by { assert [v][1..] == []; }
      assert base.(value := v) == RereadCondition(c);
    }
  }

  lemma FlattenStep(all: bool, alone: bool, t: TestNode, c: Condition, ts: seq<TestNode>, cs: seq<Condition>)
    requires FlattenTest(t) == Some(Flat(AllOf, [c])) && FlattenChildren(all, alone, ts) == Some(cs)
    ensures FlattenChildren(all, alone, [t] + ts) == Some([c] + cs)
  {
    assert ([t] + ts)[1..] == ts;
  }

  lemma {:induction false} FlattenNodes(cs: seq<Condition>, all: bool, alone: bool)
    requires forall c :: c in cs ==> ConditionText(c).Some? && !NotTrue(c)
    ensures FlattenChildren(all, alone, NodesOf(cs)) == Some(RereadConditions(cs))
  {
    if cs != [] {
      assert cs[0] in cs && forall c :: c in cs[1..] ==> c in cs;
      FlattenNode(cs[0]);
      FlattenNodes(cs[1..], all, alone);
      FlattenStep(all, alone, NodeOf(cs[0]), RereadCondition(cs[0]), NodesOf(cs[1..]), RereadConditions(cs[1..]));
    }
  }

  lemma FlattenPrinted(r: Rule)
    requires Printable(r) && Rereadable(r) && r.conditions != []
    ensures FlattenTest(TestOf(r)) ==
            Some(Flat(if |r.conditions| == 1 then AllOf else r.join, RereadConditions(r.conditions)))
  {
    var cs := r.conditions;
    assert cs[0] in cs;
    if |cs| == 1 {
      FlattenNode(cs[0]);
      assert RereadConditions(cs) == [RereadCondition(cs[0])] by { assert cs[1..] == []; }
    } else {
      NodesLength(cs);
      FlattenNodes(cs, r.join == AllOf, false);
    }
  }

  // ----- names -----

  lemma {:induction false} RunCut(name: string, tail: string)
    requires tail == "]"
    ensures Run(name + tail, NotBracket) == Run(name, NotBracket)
  {
    if name == "" {
      assert name + tail == tail;
    } else {
      RunCut(name[1..], tail);
      assert (name + tail)[1..] == name[1..] + tail;
    }
  }

  lemma NameOfTitle(name: string, before: nat)
    ensures RuleName(RuleTitle(name), before) == RereadName(name)
  {
    var s := RuleTitle(name);
    assert s[..5] == "rule:" && Lower("rule:") == "rule:";
    assert s[5..] == "[" + (name + "]");
    var body := "[" + (name + "]");
    assert body[Run(body, IsSpace)..] == body;
    assert body[1..] == name + "]";
    RunCut(name, "]");
    var k := Run(name, NotBracket);
    assert (name + "]")[..k] == name[..k];
    assert body != name + "]" by { assert |body| == |name| + 2; }
    assert NameAfter(s[5..]) == Some(if k > 0 then name[..k] else "[");
    assert NameMatch(s) == NameAfter(s[5..]);
    assert Trim("[") == "[";
  }

  // ----- reading the tokens of a rule -----

  function BareStmts(cs: seq<Command>): seq<Stmt> {
    if cs == [] then [] else [Bare(cs[0])] + BareStmts(cs[1..])
  }

  /** The statements a rule is printed as. */
  function RuleStmts(r: Rule): seq<Stmt> {
    if !Printable(r) then []
    else if r.conditions == [] then BareStmts(TopLevel(r.actions))
    else [If(RuleTitle(r.name), TestOf(r), BodyOf(r.actions))]
  }

  function Stmts(rules: seq<Rule>): Option<seq<Stmt>> {
    if rules == [] then Some([])
    else if !Rereadable(rules[0]) then None
    else match Stmts(rules[1..]) case None => None case Some(rest) => Some(RuleStmts(rules[0]) + rest)
  }

  function Prefix(ss: seq<Stmt>, rest: Option<seq<Stmt>>): Option<seq<Stmt>> {
    match rest case None => None case Some(us) => Some(ss + us)
  }

  lemma BareStep(c: Command, rest: Toks, title: string)
    requires ToAction(c).Some?
    ensures ReadScript(CommandToks(c) + rest, title) == Cons(Bare(c), ReadScript(rest, title))
  {
    ReadCommand(c, rest);
    CommandHead(c);
    TailOfConcat(CommandToks(c), rest);
    assert c.name != "require" && c.name != "if";
  }

  lemma {:induction false} ReadBare(cs: seq<Command>, rest: Toks, title: string)
    requires Supported(cs)
    ensures ReadScript(CommandsToks(cs) + rest, title) == Prefix(BareStmts(cs), ReadScript(rest, title))
  {
    if cs == [] {
      Units(rest);
      PrefixNothing(ReadScript(rest, title));
    } else {
      HeadTail(cs);
      ReadBare(cs[1..], rest, title);
      BareStep(cs[0], CommandsToks(cs[1..]) + rest, title);
      CommandsToksCons(cs, rest);
      ConsPrefix(Bare(cs[0]), BareStmts(cs[1..]), ReadScript(rest, title));
    }
  }

  lemma PrefixNothing(rest: Option<seq<Stmt>>)
    ensures Prefix([], rest) == rest
  {
    if rest.Some? { Units(rest.value); }
  }

  lemma ConsPrefix(s: Stmt, ss: seq<Stmt>, rest: Option<seq<Stmt>>)
    ensures Cons(s, Prefix(ss, rest)) == Prefix([s] + ss, rest)
  {
    if rest.Some? { Assoc([s], ss, rest.value); }
  }

  lemma CommentStep(text: string, rest: Toks, title: string)
    ensures ReadScript([Comment(text)] + rest, title) == ReadScript(rest, if IsRuleComment(text) then text else title)
            || Skip(rest) == []
    ensures Skip(rest) == [] ==> ReadScript([Comment(text)] + rest, title) == Some([])
  {
    ConsTail(Comment(text), rest);
  }

  lemma ReadIfRule(r: Rule, rest: Toks)
    requires Printable(r) && Rereadable(r) && r.conditions != [] && NoBranch(rest)
    ensures ReadScript(IfToks(r) + rest, RuleTitle(r.name)) == Prefix(RuleStmts(r), ReadScript(rest, ""))
  {
    ExprIsTest(r);
    BodyToActions(r.actions);
    var test, block := TestOf(r), BodyOf(r.actions);
    ReadIf(test, block, rest);
    IfToksShape(test, block, rest);
    assert IfToks(r) == StmtToks(If("", test, block));
    var after := TestToks(test) + ([Punct('{')] + (CommandsToks(block) + ([Punct('}')] + rest)));
    Uncons(Word("if"), after);
  }

  // ----- a negated constant test stops the parser -----

  lemma NotTrueFails(rest: Toks)
    ensures PTest([Word("not"), Word("true")] + rest, 0) == Fail
  {
    Uncons(Word("true"), rest);
    Uncons(Word("not"), [Word("true")] + rest);
    assert [Word("not")] + [Word("true")] == [Word("not"), Word("true")];
    Assoc([Word("not")], [Word("true")], rest);
    assert KindOf("not") == None;
    TrueStep(rest, 1);
  }

  lemma ConditionsToksCons(cs: seq<Condition>, rest: Toks)
    requires |cs| > 1
    ensures ConditionsToks(cs) + rest == ConditionToks(cs[0]) + ([Punct(',')] + (ConditionsToks(cs[1..]) + rest))
  {
    Assoc(ConditionToks(cs[0]), [Punct(',')] + ConditionsToks(cs[1..]), rest);
    Assoc([Punct(',')], ConditionsToks(cs[1..]), rest);
  }

  lemma TestsFail(ts: Toks, child: TestNode, more: Toks)
    requires PTest(ts, 0) == Ok(child, [Punct(',')] + more) && PTests(more, 0) == Fail
    ensures PTests(ts, 0) == Fail
  {
    Uncons(Punct(','), more);
  }

  lemma {:induction false} NotTrueAmong(cs: seq<Condition>, rest: Toks)
    requires forall c :: c in cs ==> ConditionText(c).Some?
    requires exists c :: c in cs && NotTrue(c)
    ensures PTests(ConditionsToks(cs) + rest, 0) == Fail
  {
    var more := ConditionsToks(cs[1..]) + rest;
    HeadTail(cs);
    if NotTrue(cs[0]) {
      if |cs| == 1 {
        NotTrueFails(rest);
      } else {
        NotTrueFails([Punct(',')] + more);
        ConditionsToksCons(cs, rest);
      }
    } else {
      NodeWellFormed(cs[0]);
      assert exists c :: c in cs[1..] && NotTrue(c);
      NotTrueAmong(cs[1..], rest);
      Uncons(Punct(','), more);
      ReadTest(NodeOf(cs[0]), [Punct(',')] + more, 0);
      TestsFail(ConditionToks(cs[0]) + ([Punct(',')] + more), NodeOf(cs[0]), more);
      ConditionsToksCons(cs, rest);
    }
  }

  lemma GroupFails(join: JoinKind, inner: Toks)
    requires PTests(inner, 0) == Fail
    ensures PTest([Word(JoinText(join))] + ([Punct('(')] + inner), 0) == Fail
  {
    Uncons(Word(JoinText(join)), [Punct('(')] + inner);
    Uncons(Punct('('), inner);
    assert KindOf(JoinText(join)) == None;
  }

  lemma ExprHead(r: Rule)
    requires r.conditions != []
    ensures ExprToks(r) != [] && ExprToks(r)[0].Word?
  {
    TestToksHead(NodeOf(r.conditions[0]));
  }

  lemma ExprShape(r: Rule, rest: Toks)
    requires |r.conditions| > 1
    ensures ExprToks(r) + rest ==
            [Word(JoinText(r.join))] + ([Punct('(')] + (ConditionsToks(r.conditions) + ([Punct(')')] + rest)))
  {
    var inner := ConditionsToks(r.conditions);
    Assoc([Word(JoinText(r.join))], [Punct('(')] + (inner + [Punct(')')]), rest);
    Assoc([Punct('(')], inner + [Punct(')')], rest);
    Assoc(inner, [Punct(')')], rest);
  }

  lemma OneConditionFails(r: Rule, rest: Toks)
    requires |r.conditions| == 1 && NotTrue(r.conditions[0])
    ensures PTest(ExprToks(r) + rest, 0) == Fail
  {
    NotTrueFails(rest);
  }

  lemma ManyConditionsFail(r: Rule, rest: Toks)
    requires |r.conditions| > 1 && PTests(ConditionsToks(r.conditions) + ([Punct(')')] + rest), 0) == Fail
    ensures PTest(ExprToks(r) + rest, 0) == Fail
  {
    GroupFails(r.join, ConditionsToks(r.conditions) + ([Punct(')')] + rest));
    ExprShape(r, rest);
  }

  lemma ExprFails(r: Rule, rest: Toks)
    requires Printable(r) && !Rereadable(r)
    ensures PTest(ExprToks(r) + rest, 0) == Fail
  {
    var c :| c in r.conditions && NotTrue(c);
    if |r.conditions| == 1 {
      assert r.conditions[0] == c;
      OneConditionFails(r, rest);
    } else {
      NotTrueAmong(r.conditions, [Punct(')')] + rest);
      ManyConditionsFail(r, rest);
    }
  }

  lemma IfRuleFails(r: Rule, rest: Toks)
    requires Printable(r) && !Rereadable(r)
    ensures ReadScript(IfToks(r) + rest, RuleTitle(r.name)) == None
  {
    var block := [Punct('{')] + (CommandsToks(BodyOf(r.actions)) + [Punct('}')]);
    ExprFails(r, block + rest);
    ExprHead(r);
    var after := ExprToks(r) + (block + rest);
    Assoc([Word("if")], ExprToks(r) + block, rest);
    Assoc(ExprToks(r), block, rest);
    Uncons(Word("if"), after);
    TailOfConcat(ExprToks(r), block + rest);
    assert Skip(after) == after;
    assert PIf(after) == Fail;
  }

  // ----- reading the tokens of all rules -----

  /** What follows the comment of a printable rule. */
  function OwnToks(r: Rule): Toks { if r.conditions == [] then CommandsToks(TopLevel(r.actions)) else IfToks(r) }

  lemma OwnHead(r: Rule)
    ensures OwnToks(r) != [] && OwnToks(r)[0].Word? && OwnToks(r)[0] != Word("elsif") && OwnToks(r)[0] != Word("else")
  {
    if r.conditions == [] {
      TopLevelToActions(r.actions);
      CommandsHead(TopLevel(r.actions));
    }
  }

  lemma CommandsHead(cs: seq<Command>)
    requires cs != [] && Supported(cs)
    ensures CommandsToks(cs) != [] && CommandsToks(cs)[0].Word?
    ensures CommandsToks(cs)[0] != Word("elsif") && CommandsToks(cs)[0] != Word("else")
  {
    assert cs[0] in cs;
    CommandHead(cs[0]);
    TailOfConcat(CommandToks(cs[0]), CommandsToks(cs[1..]));
  }

  lemma CommandHead(c: Command)
    requires ToAction(c).Some?
    ensures CommandToks(c) != [] && CommandToks(c)[0] == Word(c.name)
    ensures c.name != "elsif" && c.name != "else"
  {}

  lemma RuleToksShape(r: Rule, rest: Toks)
    ensures RuleToks(r) + rest == [Comment(RuleTitle(r.name))] + ((if Printable(r) then OwnToks(r) else []) + rest)
  {
    Assoc([Comment(RuleTitle(r.name))], if Printable(r) then OwnToks(r) else [], rest);
  }

  lemma SkipComment(text: string, rest: Toks)
    ensures Skip([Comment(text)] + rest) == Skip(rest)
  {
    ConsTail(Comment(text), rest);
  }

  /** The first token that is not a comment, if any, is never `elsif` or `else`. */
  lemma {:induction false} RulesStartPlain(rules: seq<Rule>)
    ensures NoBranch(RulesToks(rules))
  {
    if rules != [] {
      var r, rest := rules[0], RulesToks(rules[1..]);
      RulesStartPlain(rules[1..]);
      RuleToksShape(r, rest);
      SkipComment(RuleTitle(r.name), (if Printable(r) then OwnToks(r) else []) + rest);
      if Printable(r) {
        OwnHead(r);
        TailOfConcat(OwnToks(r), rest);
      } else {
        Units(rest);
      }
    }
  }

  lemma ReadOwn(r: Rule, rest: Toks)
    requires NoBranch(rest) && Printable(r) && Rereadable(r)
    ensures exists next: string ::
              ReadScript(OwnToks(r) + rest, RuleTitle(r.name)) == Prefix(RuleStmts(r), ReadScript(rest, next))
  {
    if r.conditions == [] {
      TopLevelToActions(r.actions);
      ReadBare(TopLevel(r.actions), rest, RuleTitle(r.name));
    } else {
      ReadIfRule(r, rest);
    }
  }

  /** One rule: its comment, then its statements. */
  lemma ReadRule(r: Rule, rest: Toks, title: string)
    requires NoBranch(rest) && Rereadable(r)
    ensures exists next: string :: ReadScript(RuleToks(r) + rest, title) == Prefix(RuleStmts(r), ReadScript(rest, next))
  {
    var name := RuleTitle(r.name);
    assert IsRuleComment(name) by { assert name[..5] == "rule:"; }
    RuleToksShape(r, rest);
    if Printable(r) {
      OwnHead(r);
      TailOfConcat(OwnToks(r), rest);
      CommentStep(name, OwnToks(r) + rest, title);
      ReadOwn(r, rest);
    } else {
      Units(rest);
      CommentStep(name, rest, title);
      PrefixNothing(ReadScript(rest, name));
    }
  }

  lemma RuleFails(r: Rule, rest: Toks, title: string)
    requires !Rereadable(r)
    ensures ReadScript(RuleToks(r) + rest, title) == None
  {
    var name := RuleTitle(r.name);
    assert name[..5] == "rule:";
    assert RuleToks(r) + rest == [Comment(name)] + (IfToks(r) + rest);
    CommentStep(name, IfToks(r) + rest, title);
    IfRuleFails(r, rest);
  }

  lemma {:induction false} ReadRules(rules: seq<Rule>, title: string)
    ensures ReadScript(RulesToks(rules), title) == Stmts(rules)
  {
    if rules != [] {
      var rest := RulesToks(rules[1..]);
      RulesStartPlain(rules[1..]);
      if Rereadable(rules[0]) {
        ReadRule(rules[0], rest, title);
        var next: string :| ReadScript(RuleToks(rules[0]) + rest, title) ==
          Prefix(RuleStmts(rules[0]), ReadScript(rest, next));
        ReadRules(rules[1..], next);
      } else {
        RuleFails(rules[0], rest, title);
      }
    }
  }
}
