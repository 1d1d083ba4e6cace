/**
 Importing scripts from the server: exactly when the rules that a script is turned into do to a message what the script
 does. A rule ends with its filing action, while a script goes on until it stops.
 */
module SieveImportedScripts {
  import opened Wrappers
  import opened Seqs
  import opened SieveText
  import opened SieveModel
  import opened SievePrinter
  import opened SieveLexer
  import opened SieveLexing
  import opened SieveParser
  import opened SieveSyntax
  import opened SieveFlatten
  import opened SieveCompile
  import opened SieveReimport
  import opened SieveRoundTrip
  import opened SieveMeaning
  import opened SieveReimportMeaning
  import opened SieveImportMeaning

  /** A command that the builder would print again as it was written. */
  predicate Kept(c: Command) { ToAction(c).Some? && CommandOf(ToAction(c).value) == Some(c) }

  /** Every command up to the first stop is printed again as it was written. */
  predicate KeptUpToStop(cs: seq<Command>) {
    cs == [] || cs[0].name == "stop" || (Kept(cs[0]) && KeptUpToStop(cs[1..]))
  }

  function Body(s: Stmt): seq<Command> {
    match s case Bare(c) => [c] case If(_, _, block) => block
  }

  predicate GrammaticalStmt(s: Stmt) { s.If? ==> Grammatical(s.test) }

  lemma {:induction false} ReadStmts(ts: Toks, title: string)
    ensures ReadScript(ts, title).Some? ==> forall s :: s in ReadScript(ts, title).value ==> GrammaticalStmt(s)
    decreases |ts|
  {
    if Skip(ts) != [] {
      match ts[0]
      case Comment(text) => ReadStmts(ts[1..], if IsRuleComment(text) then text else title);
      case Word(w) =>
        if w == "require" {
          match PList(ts[1..])
          case Ok(_, rest) => ReadStmts(SkipSemicolon(rest), title);
          case _ =>
        } else if w == "if" {
          match PIf(ts[1..])
          case Ok((test, block), rest) =>
            ParsedIsGrammatical(ts[1..], 0);
            ReadStmts(rest, "");
          case _ =>
        } else {
          match PCommand(ts)
          case Ok(c, rest) => ReadStmts(rest, title);
          case _ =>
        }
      case _ =>
    }
  }

  // ----- a body -----

  lemma StopName(c: Command)
    requires ToAction(c).Some?
    ensures ToAction(c).value == Stop <==> c.name == "stop"
  {}

  lemma BodyStep(c: Command, rest: seq<Command>)
    requires Supported([c] + rest)
    ensures ToAction(c).Some? && Supported(rest) && ToActions([c] + rest) == [ToAction(c).value] + ToActions(rest)
    ensures KeptUpToStop([c] + rest) <==> c.name == "stop" || (Kept(c) && KeptUpToStop(rest))
  {
    ConsTail(c, rest);
    assert c in [c] + rest && forall x :: x in rest ==> x in [c] + rest;
  }

  lemma OwnEffect(c: Command, a: seq<Command>, b: seq<Command>)
    requires ToAction(c).Some? && |a| <= |b|
    ensures var own := if CommandOf(ToAction(c).value).Some? then [CommandOf(ToAction(c).value).value] else [];
            |own + a| <= |[c] + b| && (own + a == [c] + b <==> Kept(c) && a == b)
  {
    var action := CommandOf(ToAction(c).value);
    if action.Some? { SameTail(action.value, a, c, b); }
  }

  /** The actions that commands become stop where they stop, do no more, and do the same when all are kept. */
  lemma {:induction false} BodyRun(cs: seq<Command>)
    requires Supported(cs)
    ensures RunActions(ToActions(cs)).stopped == RunCommands(cs).stopped
    ensures |RunActions(ToActions(cs)).effects| <= |RunCommands(cs).effects|
    ensures RunActions(ToActions(cs)).effects == RunCommands(cs).effects <==> KeptUpToStop(cs)
  {
    if cs != [] {
      var c, rest := cs[0], cs[1..];
      HeadTail(cs);
      BodyStep(c, rest);
      BodyRun(rest);
      StopName(c);
      RunCommandsStep(c, rest);
      if c.name == "stop" {
        RunStop(ToActions(rest));
      } else {
        RunStep(ToAction(c).value, ToActions(rest));
        OwnEffect(c, RunActions(ToActions(rest)).effects, RunCommands(rest).effects);
      }
    }
  }

  // ----- tests -----

  lemma {:induction false} FlatPrintable(t: TestNode)
    requires Grammatical(t) && CleanHeaders(t) && FlattenTest(t).Some?
    ensures forall c :: c in FlattenTest(t).value.conds ==> ConditionText(c).Some?
    decreases t, 0
  {
    match t
    case TrueTest =>
    case Simple(_, _, _, _, headers, _) =>
      PerValueMembers(Condition(t.kind, t.part, t.op, t.negated, Join(headers, ","), ""), LeafValues(t));
      SplitJoin(headers);
      if t.kind == Exists { ExistsHasHeaders(t); }
    case Group(all, children) => ChildrenPrintable(all, |children| == 1, children);
  }

  /** An `exists` test of the parser names at least one header. */
  lemma ExistsHasHeaders(t: TestNode)
    requires t.Simple? && t.kind == Exists && Grammatical(t)
    ensures t.headers != []
  {}

  lemma {:induction false} ChildrenPrintable(all: bool, alone: bool, children: seq<TestNode>)
    requires forall c :: c in children ==> Grammatical(c) && CleanHeaders(c)
    requires FlattenChildren(all, alone, children).Some?
    ensures forall c :: c in FlattenChildren(all, alone, children).value ==> ConditionText(c).Some?
    decreases children, 1
  {
    if children != [] {
      assert children[0] in children && forall c :: c in children[1..] ==> c in children;
      FlatPrintable(children[0]);
      ChildrenPrintable(all, alone, children[1..]);
    }
  }

  // ----- one statement -----

  ghost function RunIfApplies(r: Rule, m: Message): Run {
    if Applies(r, m) then RunRule(r) else Run([], false)
  }

  /** Whether the commands of a statement are carried out. */
  ghost predicate Reached(s: Stmt, m: Message) { s.If? ==> HoldsTest(s.test, m) }

  /** On this message the rule applies just when the test holds. */
  ghost predicate Agrees(s: Stmt, m: Message) {
    s.If? && FlattenTest(s.test).Some? ==>
      (FlatHolds(s.test, m) && (forall c :: c in FlattenTest(s.test).value.conds ==> ConditionText(c).Some?)) ==
        HoldsTest(s.test, m)
  }

  /** It does so on every possible message when header names are clean and negated values are alike. */
  lemma SoundAgrees(s: Stmt, m: Message)
    requires GrammaticalStmt(s) && Possible(m) && (s.If? ==> CleanHeaders(s.test) && NegatedAlike(s.test, m.mail))
    ensures Agrees(s, m)
  {
    if s.If? && FlattenTest(s.test).Some? {
      FlatPrintable(s.test);
      TreeSound(s.test, m);
    }
  }

  lemma RuleApplies(s: Stmt, n: nat, m: Message)
    requires GrammaticalStmt(s) && ToRule(s, n).Some? && Agrees(s, m)
    ensures Applies(ToRule(s, n).value, m) == Reached(s, m)
  {
    if s.If? { FlattenNonEmpty(s.test); }
  }

  /** Whether the rule for these commands is the last one to run although the commands never stop. */
  ghost predicate EndsEarly(cs: seq<Command>)
    requires Supported(cs)
  {
    HasTerminal(ToActions(cs)) && !RunCommands(cs).stopped
  }

  lemma BareRun(c: Command)
    requires ToAction(c).Some?
    ensures Supported([c]) && ToActions([c]) == [ToAction(c).value]
    ensures var a, run := ToAction(c).value, RunRule(Rule(UNCONDITIONAL, true, AllOf, [], [ToAction(c).value]));
            && run.stopped == (a == Stop || IsTerminal(a))
            && |run.effects| <= |RunCommands([c]).effects|
            && (run.effects == RunCommands([c]).effects <==> KeptUpToStop([c]))
  {
    var a := ToAction(c).value;
    OneAction(c);
    OneActionRun(a);
    OneCommand(c);
    BodyRun([c]);
    StopName(c);
    assert [a][0] == a && HasTerminal([a]) == IsTerminal(a);
    assert KeptUpToStop([c]) <==> c.name == "stop" || Kept(c) by { assert [c][1..] == []; }
    if a != Stop && CommandOf(a).None? { assert [KEEP][0] != [c][0]; }
  }

  /** The rule of a statement against its commands. */
  lemma RuleAndBody(s: Stmt, n: nat)
    requires GrammaticalStmt(s) && ToRule(s, n).Some?
    ensures Supported(Body(s))
    ensures var run, own := RunRule(ToRule(s, n).value), RunCommands(Body(s));
            && run.stopped == (own.stopped || HasTerminal(ToActions(Body(s))))
            && |run.effects| <= |own.effects|
            && (run.effects == own.effects <==> KeptUpToStop(Body(s)))
  {
    match s
    case Bare(c) =>
      BareRun(c);
      OneCommand(c);
      StopName(c);
      var a := ToAction(c).value;
      assert [a][0] == a && HasTerminal([a]) == IsTerminal(a);
    case If(_, test, block) =>
      FlattenNonEmpty(test);
      BodyRun(block);
  }

  /** A rule whose actions are not printed and end nothing does nothing. */
  ghost predicate Inert(actions: seq<Action>) { RereadPrinted(actions) == [] && !HasTerminal(actions) }

  /**
   One statement, on any message: its rule has the same run, and ends the script in the same way, exactly when
   - the test holds and the rule applies: every command up to the first stop is kept, and the body stops if it files,
     redirects, rejects or discards;
   - the test holds and the rule does not apply: the block is empty;
   - the rule applies and the test does not hold: the rule does nothing.
   */
  lemma StmtExactly(s: Stmt, n: nat, m: Message)
    requires GrammaticalStmt(s) && ToRule(s, n).Some?
    ensures Supported(Body(s))
    ensures RunIfApplies(ToRule(s, n).value, m) == RunStmt(s, m) <==>
            if Applies(ToRule(s, n).value, m) == Reached(s, m) then Reached(s, m) ==>
              KeptUpToStop(Body(s)) && !EndsEarly(Body(s))
            else if Reached(s, m) then Body(s) == []
            else Inert(ToActions(Body(s)))
  {
    RuleAndBody(s, n);
    RunStmtReached(s, m);
    if Applies(ToRule(s, n).value, m) != Reached(s, m) {
      NoCommandsRun(Body(s));
      RuleDoesNothing(s, n);
    }
  }

  lemma RuleDoesNothing(s: Stmt, n: nat)
    requires s.If? && GrammaticalStmt(s) && ToRule(s, n).Some?
    ensures Supported(s.block) && (RunRule(ToRule(s, n).value) == Run([], false) <==> Inert(ToActions(s.block)))
  {
    FlattenNonEmpty(s.test);
    NothingPrinted(ToActions(s.block));
  }

  // ----- whole scripts -----

  /** No statement of the script carries out a command. */
  ghost predicate Silent(ss: seq<Stmt>, m: Message) {
    ss == [] || if Reached(ss[0], m) then RunCommands(Body(ss[0])).effects == [] &&
      (RunCommands(Body(ss[0])).stopped || Silent(ss[1..], m))
                else Silent(ss[1..], m)
  }

  lemma {:induction false} SilentIsNothing(ss: seq<Stmt>, m: Message)
    ensures Silent(ss, m) <==> RunScript(ss, m) == []
  {
    if ss != [] { SilentIsNothing(ss[1..], m); }
  }

  /**
   The reached statements are kept, each up to its first stop, and the first that files, redirects, rejects or discards
   without a stop is followed by nothing that would be carried out.
   */
  ghost predicate ScriptKept(ss: seq<Stmt>, m: Message)
    requires forall s :: s in ss ==> Supported(Body(s))
  {
    if ss == [] then true
    else
      var s, rest := ss[0], ss[1..];
      if !Reached(s, m) then ScriptKept(rest, m)
      else
        && KeptUpToStop(Body(s))
        && (RunCommands(Body(s)).stopped || if EndsEarly(Body(s)) then Silent(rest, m) else ScriptKept(rest, m))
  }

  /** Two runs of which the first does no more than the second, and stops wherever it does. */
  lemma SameThen(a: Run, b: Run, x: seq<Command>, y: seq<Command>)
    requires |a.effects| <= |b.effects| && |x| <= |y| && (b.stopped ==> a.stopped)
    ensures |a.Then(x)| <= |b.Then(y)|
    ensures a.Then(x) == b.Then(y)
       <==> a.effects == b.effects && (b.stopped || if a.stopped then y == [] else x == y)
  {
    var u, v := if a.stopped then [] else x, if b.stopped then [] else y;
    assert a.Then(x) == a.effects + u && b.Then(y) == b.effects + v;
    if a.Then(x) == b.Then(y) {
      assert |a.effects| == |b.effects|;
      assert a.effects == (a.effects + u)[..|a.effects|] && b.effects == (b.effects + v)[..|b.effects|];
      EffectsStep(a.effects, u, v);
    }
  }

  lemma RulesStep(r: Rule, more: seq<Rule>, m: Message)
    ensures RunRules([r] + more, m) == RunIfApplies(r, m).Then(RunRules(more, m))
  {
    ConsTail(r, more);
    Units(RunRules(more, m));
  }

  lemma ToRulesStep(ss: seq<Stmt>, n: nat)
    requires ss != [] && ToRules(ss, n).Some?
    ensures ToRule(ss[0], n).Some? && ToRules(ss[1..], n + 1).Some?
    ensures ToRules(ss, n).value == [ToRule(ss[0], n).value] + ToRules(ss[1..], n + 1).value
  {}

  lemma RunStmtReached(s: Stmt, m: Message)
    ensures RunStmt(s, m) == if Reached(s, m) then RunCommands(Body(s)) else Run([], false)
  {}

  lemma {:induction false} ScriptExactly(ss: seq<Stmt>, n: nat, m: Message)
    requires (forall s :: s in ss ==> GrammaticalStmt(s) && Agrees(s, m)) && ToRules(ss, n).Some?
    ensures forall s :: s in ss ==> Supported(Body(s))
    ensures |RunRules(ToRules(ss, n).value, m)| <= |RunScript(ss, m)|
    ensures RunRules(ToRules(ss, n).value, m) == RunScript(ss, m) <==> ScriptKept(ss, m)
  {
    if ss != [] {
      var s, rest := ss[0], ss[1..];
      HeadTail(ss);
      ToRulesStep(ss, n);
      ScriptExactly(rest, n + 1, m);
      var r, more := ToRule(s, n).value, ToRules(rest, n + 1).value;
      RuleApplies(s, n, m);
      RuleAndBody(s, n);
      RulesStep(r, more, m);
      RunStmtReached(s, m);
      SameThen(RunIfApplies(r, m), RunStmt(s, m), RunRules(more, m), RunScript(rest, m));
      SilentIsNothing(rest, m);
    }
  }

  /**
   For every script that is accepted and every message on which its tests survive being flattened: the imported rules
   carry out no more commands than the script, and the same commands exactly when the script is kept.
   */
  lemma ImportKeepsMeaning(src: string, ss: seq<Stmt>, m: Message)
    requires Lex(src).Some? && ReadScript(Lex(src).value, "") == Some(ss)
    requires Import(src).Some? && forall s :: s in ss ==> Agrees(s, m)
    ensures forall s :: s in ss ==> Supported(Body(s))
    ensures |RunRules(Import(src).value, m)| <= |RunScript(ss, m)|
    ensures RunRules(Import(src).value, m) == RunScript(ss, m) <==> ScriptKept(ss, m)
  {
    ReadStmts(Lex(src).value, "");
    ScriptExactly(ss, 0, m);
  }

  /** In particular for every possible message, when header names are clean and negated values are alike. */
  lemma SoundTestsKeepMeaning(src: string, ss: seq<Stmt>, m: Message)
    requires Lex(src).Some? && ReadScript(Lex(src).value, "") == Some(ss) && Import(src).Some? && Possible(m)
    requires forall s :: s in ss && s.If? ==> CleanHeaders(s.test) && NegatedAlike(s.test, m.mail)
    ensures forall s :: s in ss ==> Supported(Body(s))
    ensures RunRules(Import(src).value, m) == RunScript(ss, m) <==> ScriptKept(ss, m)
  {
    ReadStmts(Lex(src).value, "");
    forall s | s in ss ensures Agrees(s, m) { SoundAgrees(s, m); }
    ImportKeepsMeaning(src, ss, m);
  }

  // ----- two filings in a row -----

  function Filing(mailbox: string): Command { Command("fileinto", [], [mailbox]) }

  /** `if true { fileinto "<mailbox>"; }` */
  function FileIfText(mailbox: string): string {
    "if " + "true" + " " + ("{\n" + Line("fileinto " + Quote(mailbox)) + "}") + "\n\n"
  }

  function FileIf(mailbox: string): Stmt { If("", TrueTest, [Filing(mailbox)]) }

  lemma LexFileIf(mailbox: string)
    ensures Lexes(FileIfText(mailbox), StmtToks(FileIf(mailbox)), true)
  {
    var body := Line("fileinto " + Quote(mailbox));
    LexWord("true");
    LexFileInto(false, [mailbox]);
    assert "fileinto " + "" + Quote(mailbox) == "fileinto " + Quote(mailbox);
    LexLine("fileinto " + Quote(mailbox), Filing(mailbox));
    CommandsToksOne(Filing(mailbox));
    assert body[..2] == "  " && body[2] == 'f';
    LexIf("true", [Word("true")], body, CommandToks(Filing(mailbox)));
  }

  lemma ReadFileIf(mailbox: string, rest: Toks)
    requires NoBranch(rest)
    ensures ReadScript(StmtToks(FileIf(mailbox)) + rest, "") == Cons(FileIf(mailbox), ReadScript(rest, ""))
  {
    var block := [Filing(mailbox)];
    OneAction(Filing(mailbox));
    ReadIf(TrueTest, block, rest);
    IfToksShape(TrueTest, block, rest);
    Uncons(Word("if"), TestToks(TrueTest) + ([Punct('{')] + (CommandsToks(block) + ([Punct('}')] + rest))));
  }

  lemma LexTwoIfs(a: string, b: string)
    ensures Lex(FileIfText(a) + FileIfText(b)) == Some(StmtToks(FileIf(a)) + StmtToks(FileIf(b)))
  {
    LexFileIf(a);
    LexFileIf(b);
    var first, second := StmtToks(FileIf(a)), StmtToks(FileIf(b));
    LexConcat(FileIfText(a), first, true, FileIfText(b), second, true);
    LexWhole(FileIfText(a) + FileIfText(b), first + second, true);
  }

  lemma LastFileIf(mailbox: string)
    ensures ReadScript(StmtToks(FileIf(mailbox)), "") == Some([FileIf(mailbox)])
    ensures StmtToks(FileIf(mailbox)) != [] && NoBranch(StmtToks(FileIf(mailbox)))
  {
    var none: Toks := [];
    Units(StmtToks(FileIf(mailbox)));
    ReadFileIf(mailbox, none);
    assert ReadScript(none, "") == Some([]);
    Units([FileIf(mailbox)]);
  }

  lemma {:induction false} TwoStmts(first: Toks, s: Stmt, second: Toks, t: Stmt)
    requires ReadScript(first + second, "") == Cons(s, ReadScript(second, "")) && ReadScript(second, "") == Some([t])
    ensures ReadScript(first + second, "") == Some([s, t])
  {
    assert [s] + [t] == [s, t];
  }

  lemma ReadTwoIfs(a: string, b: string)
    ensures ReadScript(StmtToks(FileIf(a)) + StmtToks(FileIf(b)), "") == Some([FileIf(a), FileIf(b)])
    ensures StmtToks(FileIf(a)) + StmtToks(FileIf(b)) != []
  {
    LastFileIf(b);
    ReadFileIf(a, StmtToks(FileIf(b)));
    TwoStmts(StmtToks(FileIf(a)), FileIf(a), StmtToks(FileIf(b)), FileIf(b));
  }

  /** What the first of the two becomes: a rule that files and is the last to run. */
  lemma FileIfRule(mailbox: string, n: nat, m: Message)
    requires CleanItem(mailbox)
    ensures ToRule(FileIf(mailbox), n).Some? &&
            RunIfApplies(ToRule(FileIf(mailbox), n).value, m) == Run([Filing(mailbox)], true)
    ensures RunStmt(FileIf(mailbox), m) == Run([Filing(mailbox)], false)
  {
    var a := FileInto(mailbox, false);
    OneCommand(Filing(mailbox));
    OneAction(Filing(mailbox));
    assert ToAction(Filing(mailbox)) == Some(a) by { assert [mailbox][1..] == []; }
    OneItem(mailbox);
    OneActionRun(a);
    assert a in [a] && IsTerminal(a);
    assert FlattenTest(TrueTest).value.conds[0] == TRUE_CONDITION && MatchesCondition(TRUE_CONDITION, m);
    assert forall c :: c in [TRUE_CONDITION] <==> c == TRUE_CONDITION;
  }

  /**
   Two filings, each in an `if` of its own and without a stop: the script files the message twice, and the rules it is
   imported as file it only once.
   */
  lemma TwoIfsLoseOne(a: string, b: string, m: Message)
    requires CleanItem(a) && CleanItem(b)
    ensures Import(FileIfText(a) + FileIfText(b)).Some?
    ensures ReadScript(Lex(FileIfText(a) + FileIfText(b)).value, "") == Some([FileIf(a), FileIf(b)])
    ensures RunScript([FileIf(a), FileIf(b)], m) == [Filing(a), Filing(b)]
    ensures RunRules(Import(FileIfText(a) + FileIfText(b)).value, m) == [Filing(a)]
  {
    var ss := [FileIf(a), FileIf(b)];
    LexTwoIfs(a, b);
    ReadTwoIfs(a, b);
    FileIfRule(a, 0, m);
    FileIfRule(b, 1, m);
    assert ss[1..] == [FileIf(b)] && [FileIf(b)][1..] == [];
    assert RunScript([FileIf(b)], m) == [Filing(b)];
    ToRulesOfTwo(FileIf(a), FileIf(b));
    RulesStep(ToRule(FileIf(a), 0).value, [ToRule(FileIf(b), 1).value], m);
  }

  lemma ToRulesOfTwo(s: Stmt, t: Stmt)
    requires ToRule(s, 0).Some? && ToRule(t, 1).Some?
    ensures ToRules([s, t], 0) == Some([ToRule(s, 0).value] + [ToRule(t, 1).value])
  {
    assert [s, t][1..] == [t];
    OneStmt(t, 1);
  }
}
