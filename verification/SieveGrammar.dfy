/**
 The language of the printed scripts: a `require` line ends with a semicolon, and `not` stands before any test, as in
 sections 3 and 8.2 of RFC 5228, where the repository's parser is laxer and stricter. Tokens, simple tests, commands
 and blocks are read by that parser's functions. Every printed script is in the language, and does to every message
 what the rules do.
 */
module SieveGrammar {
  import opened Wrappers
  import opened Seqs
  import opened SieveModel
  import opened SievePrinter
  import opened SieveLexer
  import opened SieveLexing
  import opened SieveParser
  import opened SieveSyntax
  import opened SieveCompile
  import opened SieveReimport
  import opened SieveRoundTrip
  import opened SieveMeaning

  datatype Test = Truth | Leaf(simple: TestNode) | Not(test: Test) | Join(all: bool, tests: seq<Test>)

  datatype Statement = IfThen(test: Test, block: seq<Command>) | Do(command: Command)

  // ----- reading -----

  /** A test: a constant, a simple test, a negated test or a group. */
  function GTest(ts: Toks): (r: Res<Test>)
    ensures r.Ok? ==> |r.rest| < |ts|
    decreases |ts|, 0
  {
    var us := Skip(ts);
    if us == [] || !us[0].Word? then Fail
    else if us[0].text == "true" then Ok(Truth, us[1..])
    else if us[0].text == "not" then
      match GTest(us[1..]) case Ok(t, rest) => Ok(Not(t), rest) case _ => Fail
    else if KindOf(us[0].text).Some? then
      match PSimple(KindOf(us[0].text).value, us[1..]) case Ok(t, rest) => Ok(Leaf(t), rest) case _ => Fail
    else if (us[0].text == "allof" || us[0].text == "anyof") && Next(us[1..], Punct('(')) then
      match GTests(After(us[1..]))
      case Ok(tests, rest) => if Next(rest, Punct(')')) then Ok(Join(us[0].text == "allof", tests), After(rest))
        else Fail
      case _ => Fail
    else Fail
  }

  function GTests(ts: Toks): (r: Res<seq<Test>>)
    ensures r.Ok? ==> |r.rest| < |ts|
    decreases |ts|, 1
  {
    match GTest(ts)
    case Ok(t, rest) =>
      if Next(rest, Punct(',')) then
        (match GTests(After(rest)) case Ok(more, rest') => Ok([t] + more, rest') case _ => Fail)
      else Ok([t], rest)
    case _ => Fail
  }

  function GIf(ts: Toks): (r: Res<Statement>)
    ensures r.Ok? ==> |r.rest| < |ts|
  {
    match GTest(ts)
    case Ok(t, rest) =>
      (match PBlock(rest)
       case Ok(b, rest') => if b.nested || !NoBranch(rest') then Fail else Ok(IfThen(t, b.commands), rest')
       case _ => Fail)
    case _ => Fail
  }

  function Before(s: Statement, rest: Option<seq<Statement>>): Option<seq<Statement>> {
    match rest case None => None case Some(ss) => Some([s] + ss)
  }

  /** A script: require lines, conditional blocks and commands, with comments anywhere. */
  function GScript(ts: Toks): Option<seq<Statement>>
    decreases |ts|
  {
    var us := Skip(ts);
    if us == [] then Some([])
    else if us[0] == Word("require") then
      match PList(us[1..]) case Ok(_, rest) => if Next(rest, Punct(';')) then GScript(After(rest))
        else None case _ => None
    else if us[0] == Word("if") then
      match GIf(us[1..]) case Ok(s, rest) => Before(s, GScript(rest)) case _ => None
    else match PCommand(us) case Ok(c, rest) => Before(Do(c), GScript(rest)) case _ => None
  }

  // ----- meaning -----

  ghost predicate Holds(t: Test, m: Message)
    decreases t
  {
    match t
    case Truth => true
    case Leaf(simple) => HoldsTest(simple, m)
    case Not(inner) => !Holds(inner, m)
    case Join(all, tests) => if all then forall x :: x in tests ==> Holds(x, m)
      else exists x :: x in tests && Holds(x, m)
  }

  ghost function RunStatement(s: Statement, m: Message): Run {
    match s
    case Do(c) => RunCommands([c])
    case IfThen(t, block) => if Holds(t, m) then RunCommands(block) else Run([], false)
  }

  /** The statements in order, up to the first stop, and then `rest`. */
  ghost function RunStatements(ss: seq<Statement>, rest: seq<Command>, m: Message): seq<Command> {
    if ss == [] then rest else RunStatement(ss[0], m).Then(RunStatements(ss[1..], rest, m))
  }

  lemma {:induction false} RunStatementsConcat(a: seq<Statement>, b: seq<Statement>, rest: seq<Command>, m: Message)
    ensures RunStatements(a + b, rest, m) == RunStatements(a, RunStatements(b, rest, m), m)
  {
    if a == [] {
      Units(b);
    } else {
      RunStatementsConcat(a[1..], b, rest, m);
      TailOfConcat(a, b);
    }
  }

  // ----- the tree of a printed rule -----

  function ConditionTest(c: Condition): Test {
    var core := if c.test == True then Truth else Leaf(NodeOf(c.(negated := false)));
    if c.negated then Not(core) else core
  }

  function ConditionTests(cs: seq<Condition>): seq<Test> {
    if cs == [] then [] else [ConditionTest(cs[0])] + ConditionTests(cs[1..])
  }

  function RuleTest(r: Rule): Test
    requires r.conditions != []
  {
    if |r.conditions| == 1 then ConditionTest(r.conditions[0]) else Join(r.join == AllOf, ConditionTests(r.conditions))
  }

  function DoAll(cs: seq<Command>): seq<Statement> { if cs == [] then [] else [Do(cs[0])] + DoAll(cs[1..]) }

  function RuleStatements(r: Rule): seq<Statement> {
    if !Printable(r) then []
    else if r.conditions == [] then DoAll(TopLevel(r.actions))
    else [IfThen(RuleTest(r), BodyOf(r.actions))]
  }

  function ScriptOf(rules: seq<Rule>): seq<Statement> {
    if rules == [] then [] else RuleStatements(rules[0]) + ScriptOf(rules[1..])
  }

  // ----- its tokens are read back -----

  lemma CoreStep(t: TestNode, rest: Toks)
    requires t.Simple? && WellFormed(t) && !t.negated && !StartsList(rest)
    ensures GTest(TestToks(t) + rest) == Ok(Leaf(t), rest)
  {
    var args := AnnotationToks(t) + (ListsToks(Lists(t)) + rest);
    ReadCore(t, rest);
    SimpleToksShape(t, rest);
    Uncons(Word(KindText(t.kind)), args);
    assert KindOf(KindText(t.kind)) == Some(t.kind) && KindText(t.kind) != "true" && KindText(t.kind) != "not";
  }

  lemma NotStep(ts: Toks, t: Test, rest: Toks)
    requires GTest(ts) == Ok(t, rest)
    ensures GTest([Word("not")] + ts) == Ok(Not(t), rest)
  {
    Uncons(Word("not"), ts);
  }

  lemma TruthStep(rest: Toks)
    ensures GTest([Word("true")] + rest) == Ok(Truth, rest)
  {
    Uncons(Word("true"), rest);
  }

  /** A condition is its plain form, or `not` and its plain form. */
  lemma ConditionShape(c: Condition, rest: Toks)
    ensures var plain := TestToks(NodeOf(c.(negated := false)));
            ConditionToks(c) + rest == if c.negated then [Word("not")] + (plain + rest) else plain + rest
  {
    var plain := TestToks(NodeOf(c.(negated := false)));
    if c.test == True {
      assert plain == [Word("true")] && [Word("not")] + plain == [Word("not"), Word("true")];
    } else {
      Units(CoreToks(NodeOf(c)));
      assert CoreToks(NodeOf(c)) == CoreToks(NodeOf(c.(negated := false)));
    }
    Assoc([Word("not")], plain, rest);
  }

  lemma ReadCondition(c: Condition, rest: Toks)
    requires ConditionText(c).Some? && !StartsList(rest)
    ensures GTest(ConditionToks(c) + rest) == Ok(ConditionTest(c), rest)
  {
    var plain := c.(negated := false);
    ConditionShape(c, rest);
    NodeWellFormed(plain);
    if c.test == True { TruthStep(rest); } else { CoreStep(NodeOf(plain), rest); }
    if c.negated { NotStep(TestToks(NodeOf(plain)) + rest, ConditionTest(plain), rest); }
  }

  lemma TestsStep(ts: Toks, t: Test, more: Toks, tests: seq<Test>, rest: Toks)
    requires GTest(ts) == Ok(t, [Punct(',')] + more) && GTests(more) == Ok(tests, rest)
    ensures GTests(ts) == Ok([t] + tests, rest)
  {
    Uncons(Punct(','), more);
  }

  lemma LastTest(ts: Toks, t: Test, rest: Toks)
    requires GTest(ts) == Ok(t, rest) && !Next(rest, Punct(','))
    ensures GTests(ts) == Ok([t], rest)
  {}

  lemma {:induction false} ReadConditions(cs: seq<Condition>, rest: Toks)
    requires cs != [] && forall c :: c in cs ==> ConditionText(c).Some?
    requires !StartsList(rest) && !Next(rest, Punct(','))
    ensures GTests(ConditionsToks(cs) + rest) == Ok(ConditionTests(cs), rest)
  {
    HeadTail(cs);
    var t := ConditionTest(cs[0]);
    if |cs| == 1 {
      ReadCondition(cs[0], rest);
      LastTest(ConditionToks(cs[0]) + rest, t, rest);
      Units([t]);
    } else {
      var more := ConditionsToks(cs[1..]) + rest;
      Uncons(Punct(','), more);
      ReadCondition(cs[0], [Punct(',')] + more);
      ReadConditions(cs[1..], rest);
      TestsStep(ConditionToks(cs[0]) + ([Punct(',')] + more), t, more, ConditionTests(cs[1..]), rest);
      Assoc(ConditionToks(cs[0]), [Punct(',')] + ConditionsToks(cs[1..]), rest);
      Assoc([Punct(',')], ConditionsToks(cs[1..]), rest);
    }
  }

  lemma JoinStep(join: JoinKind, inner: Toks, tests: seq<Test>, rest: Toks)
    requires GTests(inner) == Ok(tests, [Punct(')')] + rest)
    ensures GTest([Word(JoinText(join))] + ([Punct('(')] + inner)) == Ok(Join(join == AllOf, tests), rest)
  {
    Uncons(Word(JoinText(join)), [Punct('(')] + inner);
    Uncons(Punct('('), inner);
    Uncons(Punct(')'), rest);
    assert KindOf(JoinText(join)) == None;
  }

  lemma JoinShape(join: JoinKind, inside: Toks, rest: Toks)
    ensures ([Word(JoinText(join))] + ([Punct('(')] + (inside + [Punct(')')]))) + rest
         == [Word(JoinText(join))] + ([Punct('(')] + (inside + ([Punct(')')] + rest)))
  {
    Assoc([Word(JoinText(join))], [Punct('(')] + (inside + [Punct(')')]), rest);
    Assoc([Punct('(')], inside + [Punct(')')], rest);
    Assoc(inside, [Punct(')')], rest);
  }

  lemma ReadExpr(r: Rule, rest: Toks)
    requires Printable(r) && r.conditions != [] && !StartsList(rest)
    ensures GTest(ExprToks(r) + rest) == Ok(RuleTest(r), rest)
  {
    var cs := r.conditions;
    assert cs[0] in cs;
    if |cs| == 1 {
      ReadCondition(cs[0], rest);
    } else {
      var close := [Punct(')')] + rest;
      Uncons(Punct(')'), rest);
      ReadConditions(cs, close);
      JoinStep(r.join, ConditionsToks(cs) + close, ConditionTests(cs), rest);
      JoinShape(r.join, ConditionsToks(cs), rest);
    }
  }

  lemma IfShape(r: Rule, rest: Toks)
    requires r.conditions != []
    ensures IfToks(r) + rest
         == [Word("if")] + (ExprToks(r) + ([Punct('{')] + (CommandsToks(BodyOf(r.actions)) + ([Punct('}')] + rest))))
  {
    var body := CommandsToks(BodyOf(r.actions)) + [Punct('}')];
    Assoc([Word("if")], ExprToks(r) + ([Punct('{')] + body), rest);
    Assoc(ExprToks(r), [Punct('{')] + body, rest);
    Assoc([Punct('{')], body, rest);
    Assoc(CommandsToks(BodyOf(r.actions)), [Punct('}')], rest);
  }

  lemma IfStep(ts: Toks, t: Test, mid: Toks, block: seq<Command>, rest: Toks)
    requires GTest(ts) == Ok(t, mid) && PBlock(mid) == Ok(Block(block, false), rest) && NoBranch(rest)
    ensures GScript([Word("if")] + ts) == Before(IfThen(t, block), GScript(rest))
  {
    Uncons(Word("if"), ts);
    assert GIf(ts) == Ok(IfThen(t, block), rest);
  }

  lemma ReadIfThen(r: Rule, rest: Toks)
    requires Printable(r) && r.conditions != [] && NoBranch(rest)
    ensures GScript(IfToks(r) + rest) == Before(IfThen(RuleTest(r), BodyOf(r.actions)), GScript(rest))
  {
    var block := BodyOf(r.actions);
    var mid := [Punct('{')] + (CommandsToks(block) + ([Punct('}')] + rest));
    Uncons(Punct('{'), CommandsToks(block) + ([Punct('}')] + rest));
    BodyToActions(r.actions);
    ReadExpr(r, mid);
    ReadBlock(block, rest);
    IfStep(ExprToks(r) + mid, RuleTest(r), mid, block, rest);
    IfShape(r, rest);
  }

  lemma DoStep(c: Command, rest: Toks)
    requires ToAction(c).Some?
    ensures GScript(CommandToks(c) + rest) == Before(Do(c), GScript(rest))
  {
    ReadCommand(c, rest);
    CommandHead(c);
    TailOfConcat(CommandToks(c), rest);
    assert c.name != "require" && c.name != "if";
  }

  function Joined(ss: seq<Statement>, rest: Option<seq<Statement>>): Option<seq<Statement>> {
    match rest case None => None case Some(us) => Some(ss + us)
  }

  lemma JoinedNothing(rest: Option<seq<Statement>>)
    ensures Joined([], rest) == rest
  {
    if rest.Some? { Units(rest.value); }
  }

  lemma JoinedCons(s: Statement, ss: seq<Statement>, rest: Option<seq<Statement>>)
    ensures Before(s, Joined(ss, rest)) == Joined([s] + ss, rest) && Before(s, rest) == Joined([s], rest)
  {
    if rest.Some? { Assoc([s], ss, rest.value); }
  }

  lemma {:induction false} ReadAll(cs: seq<Command>, rest: Toks)
    requires Supported(cs)
    ensures GScript(CommandsToks(cs) + rest) == Joined(DoAll(cs), GScript(rest))
  {
    if cs == [] {
      Units(rest);
      JoinedNothing(GScript(rest));
    } else {
      HeadTail(cs);
      ReadAll(cs[1..], rest);
      DoStep(cs[0], CommandsToks(cs[1..]) + rest);
      CommandsToksCons(cs, rest);
      JoinedCons(Do(cs[0]), DoAll(cs[1..]), GScript(rest));
    }
  }

  lemma SameSkip(a: Toks, b: Toks)
    requires Skip(a) == Skip(b)
    ensures GScript(a) == GScript(b)
  {}

  lemma ReadRuleStatements(r: Rule, rest: Toks)
    requires NoBranch(rest)
    ensures GScript(RuleToks(r) + rest) == Joined(RuleStatements(r), GScript(rest))
  {
    var own := if Printable(r) then OwnToks(r) else [];
    RuleToksShape(r, rest);
    SkipComment(RuleTitle(r.name), own + rest);
    SameSkip(RuleToks(r) + rest, own + rest);
    if !Printable(r) {
      Units(rest);
      JoinedNothing(GScript(rest));
    } else if r.conditions == [] {
      TopLevelToActions(r.actions);
      ReadAll(TopLevel(r.actions), rest);
    } else {
      ReadIfThen(r, rest);
      JoinedCons(IfThen(RuleTest(r), BodyOf(r.actions)), [], GScript(rest));
    }
  }

  lemma {:induction false} ReadScriptOf(rules: seq<Rule>)
    ensures GScript(RulesToks(rules)) == Some(ScriptOf(rules))
  {
    if rules != [] {
      RulesStartPlain(rules[1..]);
      ReadScriptOf(rules[1..]);
      ReadRuleStatements(rules[0], RulesToks(rules[1..]));
    }
  }

  lemma ReadRequire(req: set<string>, rest: Toks)
    ensures GScript(RequireToks(req) + rest) == GScript(rest)
  {
    var names := Ordered(ORDER, req);
    if names == [] {
      Units(rest);
    } else {
      var semi := [Punct(';')] + rest;
      var list := [Punct('[')] + (ItemToks(names) + ([Punct(']')] + semi));
      RequireShape(names, rest);
      Uncons(Word("require"), list);
      ReadItems(names, semi);
      Uncons(Punct('['), ItemToks(names) + ([Punct(']')] + semi));
      assert PList(list) == Ok(names, semi);
      Uncons(Punct(';'), rest);
    }
  }

  /** The grammar reads the tokens of every rule list. */
  lemma ReadPrintedScript(rules: seq<Rule>)
    ensures GScript(ScriptToks(rules)) == Some(ScriptOf(Enabled(rules)))
  {
    var enabled := Enabled(rules);
    var req := RequireToks(NeedsOf(enabled));
    var tail := if enabled == [] then [NO_RULES_TOK] else RulesToks(enabled);
    Assoc([BANNER_TOK], req, tail);
    SkipComment(BANNER_NOTE, req + tail);
    SameSkip(ScriptToks(rules), req + tail);
    ReadRequire(NeedsOf(enabled), tail);
    if enabled == [] { assert Skip(tail) == []; } else { ReadScriptOf(enabled); }
  }

  // ----- its meaning is that of the rules -----

  lemma ConditionHolds(c: Condition, m: Message)
    requires ConditionText(c).Some?
    ensures Holds(ConditionTest(c), m) == MatchesCondition(c, m)
  {
    if c.test != True { NodeMeaning(c.(negated := false), m); }
  }

  lemma {:induction false} ConditionsHold(cs: seq<Condition>, m: Message)
    requires forall c :: c in cs ==> ConditionText(c).Some?
    ensures (forall t :: t in ConditionTests(cs) ==> Holds(t, m)) <==> forall c :: c in cs ==> MatchesCondition(c, m)
    ensures (exists t :: t in ConditionTests(cs) && Holds(t, m)) <==> exists c :: c in cs && MatchesCondition(c, m)
  {
    if cs != [] {
      HeadTail(cs);
      ConditionHolds(cs[0], m);
      ConditionsHold(cs[1..], m);
      assert forall t :: t in ConditionTests(cs) <==> t == ConditionTest(cs[0]) || t in ConditionTests(cs[1..]);
    }
  }

  lemma JoinHolds(join: JoinKind, cs: seq<Condition>, m: Message)
    requires forall c :: c in cs ==> ConditionText(c).Some?
    ensures Holds(Join(join == AllOf, ConditionTests(cs)), m) == MatchesAll(join, cs, m)
  {
    ConditionsHold(cs, m);
  }

  lemma RuleTestHolds(r: Rule, m: Message)
    requires Printable(r) && r.conditions != []
    ensures Holds(RuleTest(r), m) == MatchesAll(r.join, r.conditions, m)
  {
    var cs := r.conditions;
    if |cs| == 1 {
      assert cs[0] in cs && cs == [cs[0]];
      ConditionHolds(cs[0], m);
      OneMatches(cs[0], cs, r.join, m);
    } else {
      JoinHolds(r.join, cs, m);
    }
  }

  lemma {:induction false} DoAllRuns(cs: seq<Command>, rest: seq<Command>, m: Message)
    ensures RunStatements(DoAll(cs), rest, m) == RunCommands(cs).Then(rest)
  {
    if cs == [] {
      Units(rest);
    } else {
      DoAllRuns(cs[1..], rest, m);
      OneCommand(cs[0]);
      TailOfConcat([Do(cs[0])], DoAll(cs[1..]));
      Units(DoAll(cs[1..]));
      Assoc([cs[0]], RunCommands(cs[1..]).effects, rest);
    }
  }

  lemma RuleRuns(r: Rule, rest: seq<Command>, m: Message)
    requires r.enabled
    ensures RunStatements(RuleStatements(r), rest, m) == if Applies(r, m) then RunRule(r).Then(rest) else rest
  {
    if Printable(r) {
      if r.conditions == [] {
        DoAllRuns(TopLevel(r.actions), rest, m);
        RunTopLevel(r.actions);
      } else {
        RuleTestHolds(r, m);
        RunBody(r.actions);
        assert RuleStatements(r)[1..] == [];
        Units(rest);
      }
    }
  }

  lemma {:induction false} ScriptRuns(rules: seq<Rule>, m: Message)
    requires forall r :: r in rules ==> r.enabled
    ensures RunStatements(ScriptOf(rules), [], m) == RunRules(rules, m)
  {
    if rules != [] {
      HeadTail(rules);
      ScriptRuns(rules[1..], m);
      RunStatementsConcat(RuleStatements(rules[0]), ScriptOf(rules[1..]), [], m);
      RuleRuns(rules[0], RunRules(rules[1..], m), m);
    }
  }

  /**
   The generated script does to every message what the rules do, for every list whose names are one line:
   its text is a script of the grammar, and that script carries out the same commands in the same order.
   */
  lemma PrintedMeaning(rules: seq<Rule>, m: Message)
    requires OneLineNames(Enabled(rules))
    ensures Lex(PrintScript(rules)).Some?
    ensures var ss := GScript(Lex(PrintScript(rules)).value);
            ss.Some? && RunStatements(ss.value, [], m) == RunRules(rules, m)
  {
    PrintedTokens(rules);
    ReadPrintedScript(rules);
    EnabledMeaning(rules, m);
    ScriptRuns(Enabled(rules), m);
  }
}
