/** The extensions that a printed script uses, seen in its tokens, and those that its `require` line declares. */
module SieveExtensions {
  import opened Wrappers
  import opened Seqs
  import opened SieveModel
  import opened SievePrinter
  import opened SieveLexer
  import opened SieveLexing
  import opened SieveParser
  import opened SieveSyntax
  import opened SieveCompile
  import opened SieveReimport
  import opened SieveFixedPoint

  /**
   The extension that a word or an annotation belongs to: RFC 5228 (`fileinto`), RFC 5429 (`reject`),
   RFC 5232 (flags), RFC 3894 (`:copy`) and RFC 5233 (`:user`).
   */
  function ExtensionOf(t: Tok): Option<string> {
    match t
    case Word(w) =>
      if w == "fileinto" then Some("fileinto") else if w == "reject" then Some("reject")
      else if FlagKindOf(w).Some? then Some("imap4flags") else None
    case Annot(a) => if a == ":copy" then Some("copy") else if a == ":user" then Some("subaddress") else None
    case _ => None
  }

  /** The extensions that a text uses. */
  function Extensions(ts: Toks): set<string> {
    set t | t in ts && ExtensionOf(t).Some? :: ExtensionOf(t).value
  }

  predicate Core(ts: Toks) { forall t :: t in ts ==> ExtensionOf(t).None? }

  lemma CoreUsesNothing(ts: Toks)
    requires Core(ts)
    ensures Extensions(ts) == {}
  {}

  lemma ExtensionsConcat(a: Toks, b: Toks)
    ensures Extensions(a + b) == Extensions(a) + Extensions(b)
  {}

  lemma ExtensionsOne(t: Tok)
    ensures Extensions([t]) == if ExtensionOf(t).Some? then {ExtensionOf(t).value} else {}
  {}

  /** Tokens around others. */
  lemma ExtensionsAround(a: Toks, inner: Toks, b: Toks)
    requires Core(a) && Core(b)
    ensures Extensions(a + (inner + b)) == Extensions(inner)
  {
    CoreUsesNothing(a);
    CoreUsesNothing(b);
    ExtensionsConcat(a, inner + b);
    ExtensionsConcat(inner, b);
  }

  lemma {:induction false} ItemsCore(items: seq<string>)
    ensures Core(ItemToks(items)) && Core(ListToks(items))
  {
    if |items| > 1 { ItemsCore(items[1..]); }
  }

  lemma {:induction false} ListsCore(lists: seq<seq<string>>)
    ensures Core(ListsToks(lists))
  {
    if lists != [] {
      ItemsCore(lists[0]);
      ListsCore(lists[1..]);
    }
  }

  // ----- actions -----

  lemma CommandExtensions(c: Command)
    ensures Extensions(CommandToks(c)) == Extensions([Word(c.name)]) + Extensions(AnnotToks(c.annots))
  {
    ItemsCore(c.strs);
    var rest := StringToks(c.strs) + [Punct(';')];
    CoreUsesNothing(rest);
    ExtensionsConcat(AnnotToks(c.annots), rest);
    ExtensionsConcat([Word(c.name)], AnnotToks(c.annots) + rest);
  }

  lemma CopyAnnots()
    ensures AnnotToks([]) == [] && AnnotToks([":copy"]) == [Annot(":copy")]
  {
    assert [":copy"][1..] == [];
  }

  /** A printed action uses just what it asks for. */
  lemma ActionExtensions(a: Action)
    requires CommandOf(a).Some?
    ensures Extensions(CommandToks(CommandOf(a).value)) == Needs(a)
  {
    var c := CommandOf(a).value;
    CommandExtensions(c);
    CopyAnnots();
    ExtensionsOne(Word(c.name));
    ExtensionsOne(Annot(":copy"));
    if a.Flag? { FlagItems(a.kind); }
  }

  lemma {:induction false} CommandsExtensions(actions: seq<Action>)
    ensures Extensions(CommandsToks(CommandsOf(actions))) == NeedsAll(Printed(actions))
  {
    if actions != [] {
      var front, last := actions[..|actions| - 1], actions[|actions| - 1];
      FrontLast(actions);
      CommandsExtensions(front);
      Snoc(front, last);
      if CommandOf(last).Some? {
        var c := CommandOf(last).value;
        ActionExtensions(last);
        SieveFixedPoint.NeedsSnoc(Printed(front), last);
        CommandsToksOne(c);
        CommandsToksConcat(CommandsOf(front), [c]);
        ExtensionsConcat(CommandsToks(CommandsOf(front)), CommandToks(c));
      } else {
        Units(CommandsOf(front));
        Units(Printed(front));
      }
    }
  }

  lemma StopAndKeep()
    ensures Extensions(CommandsToks([STOP])) == {} && Extensions(CommandsToks([KEEP])) == {}
    ensures Extensions(CommandsToks([])) == {}
  {
    ActionExtensions(Stop);
    ActionExtensions(Keep);
    CommandsToksOne(STOP);
    CommandsToksOne(KEEP);
    assert CommandsToks([]) == [] && Extensions([]) == {};
  }

  lemma BodyExtensions(actions: seq<Action>)
    ensures Extensions(CommandsToks(BodyOf(actions))) == NeedsAll(Printed(actions))
  {
    CommandsExtensions(actions);
    StopAndKeep();
    if AddsStop(actions) {
      CommandsToksConcat(CommandsOf(actions), [STOP]);
      ExtensionsConcat(CommandsToks(CommandsOf(actions)), CommandsToks([STOP]));
    } else {
      Units(CommandsOf(actions));
    }
  }

  lemma TopLevelExtensions(actions: seq<Action>)
    ensures Extensions(CommandsToks(TopLevel(actions))) == NeedsAll(Printed(actions))
  {
    BodyExtensions(actions);
    StopAndKeep();
  }

  // ----- conditions -----

  /** An address condition on the part that RFC 5233 adds. */
  predicate UsesUserPart(c: Condition) { c.test == Address && c.part == User }

  function ConditionNeeds(c: Condition): set<string> { if UsesUserPart(c) then {"subaddress"} else {} }

  function ConditionsNeed(cs: seq<Condition>): set<string> {
    if cs == [] then {} else ConditionNeeds(cs[0]) + ConditionsNeed(cs[1..])
  }

  lemma AnnotationExtensions(t: TestNode)
    requires t.Simple? && (t.kind != Address ==> t.part == Whole)
    ensures Extensions(AnnotationToks(t)) == if t.kind == Address && t.part == User then {"subaddress"} else {}
  {
    var none: Toks := [];
    var op := Annot(":" + OpText(t.op));
    CoreUsesNothing(none);
    ExtensionsConcat(PartToks(t.part), [op]);
    ExtensionsOne(op);
    OpIsCore(t.op);
    PartExtension(t.part);
  }

  lemma OpIsCore(op: Op)
    ensures ExtensionOf(Annot(":" + OpText(op))).None?
  {
    assert |":" + OpText(op)| != |":copy"| && |":copy"| == |":user"|;
  }

  lemma PartExtension(part: Part)
    ensures Extensions(PartToks(part)) == if part == User then {"subaddress"} else {}
  {
    var name := ":" + PartText(part);
    ExtensionsOne(Annot(name));
    match part
    case Whole => CoreUsesNothing(PartToks(Whole));
    case User => assert name == ":user";
    case _ => assert name[1] != ":copy"[1] && name[1] != ":user"[1];
  }

  lemma CoreExtensions(t: TestNode)
    requires t.Simple?
    ensures Extensions(TestToks(t)) == Extensions(AnnotationToks(t))
  {
    var head := [Word(KindText(t.kind))];
    ListsCore(Lists(t));
    assert Core([Word("not")]) && Core(head) && Core([]);
    ExtensionsAround(head, AnnotationToks(t), ListsToks(Lists(t)));
    CoreUsesNothing(if t.negated then [Word("not")] else []);
    ExtensionsConcat(if t.negated then [Word("not")] else [], CoreToks(t));
    Assoc(head, AnnotationToks(t), ListsToks(Lists(t)));
  }

  lemma ConditionExtensions(c: Condition)
    ensures Extensions(ConditionToks(c)) == ConditionNeeds(c)
  {
    if c.test == True {
      assert Core([Word("true")]) && Core([Word("not"), Word("true")]);
    } else {
      CoreExtensions(NodeOf(c));
      AnnotationExtensions(NodeOf(c));
    }
  }

  lemma {:induction false} ConditionsExtensions(cs: seq<Condition>)
    ensures Extensions(ConditionsToks(cs)) == ConditionsNeed(cs)
  {
    if cs != [] {
      ConditionExtensions(cs[0]);
      ConditionsExtensions(cs[1..]);
      if |cs| > 1 {
        ExtensionsConcat(ConditionToks(cs[0]), [Punct(',')] + ConditionsToks(cs[1..]));
        ExtensionsConcat([Punct(',')], ConditionsToks(cs[1..]));
        assert Core([Punct(',')]);
        CoreUsesNothing([Punct(',')]);
      }
    }
  }

  lemma ExprExtensions(r: Rule)
    requires r.conditions != []
    ensures Extensions(ExprToks(r)) == ConditionsNeed(r.conditions)
  {
    ConditionsExtensions(r.conditions);
    if |r.conditions| == 1 {
      ConditionExtensions(r.conditions[0]);
    } else {
      assert Core([Word(JoinText(r.join)), Punct('(')]) && Core([Punct(')')]);
      ExtensionsAround([Word(JoinText(r.join)), Punct('(')], ConditionsToks(r.conditions), [Punct(')')]);
      Assoc([Word(JoinText(r.join))], [Punct('(')], ConditionsToks(r.conditions) + [Punct(')')]);
      assert [Word(JoinText(r.join))] + [Punct('(')] == [Word(JoinText(r.join)), Punct('(')];
    }
  }

  // ----- rules -----

  function RuleUses(r: Rule): set<string> {
    if Printable(r) then ConditionsNeed(r.conditions) + NeedsAll(Printed(r.actions)) else {}
  }

  function RulesUse(rules: seq<Rule>): set<string> {
    if rules == [] then {} else RuleUses(rules[0]) + RulesUse(rules[1..])
  }

  lemma IfExtensions(r: Rule)
    requires r.conditions != []
    ensures Extensions(IfToks(r)) == ConditionsNeed(r.conditions) + NeedsAll(Printed(r.actions))
  {
    var body := CommandsToks(BodyOf(r.actions));
    ExprExtensions(r);
    BodyExtensions(r.actions);
    assert Core([Word("if")]) && Core([Punct('{')]) && Core([Punct('}')]);
    CoreUsesNothing([Word("if")]);
    ExtensionsAround([Punct('{')], body, [Punct('}')]);
    ExtensionsConcat(ExprToks(r), [Punct('{')] + (body + [Punct('}')]));
    ExtensionsConcat([Word("if")], ExprToks(r) + ([Punct('{')] + (body + [Punct('}')])));
  }

  lemma RuleExtensions(r: Rule)
    ensures Extensions(RuleToks(r)) == RuleUses(r)
  {
    var title := [Comment(RuleTitle(r.name))];
    assert Core(title);
    CoreUsesNothing(title);
    if Printable(r) {
      if r.conditions == [] { TopLevelExtensions(r.actions); } else { IfExtensions(r); }
      ExtensionsConcat(title, OwnToks(r));
    } else {
      Units(title);
    }
  }

  lemma {:induction false} RulesExtensions(rules: seq<Rule>)
    ensures Extensions(RulesToks(rules)) == RulesUse(rules)
  {
    if rules != [] {
      RuleExtensions(rules[0]);
      RulesExtensions(rules[1..]);
      ExtensionsConcat(RuleToks(rules[0]), RulesToks(rules[1..]));
    }
  }

  lemma ScriptExtensions(rules: seq<Rule>)
    ensures Extensions(ScriptToks(rules)) == RulesUse(Enabled(rules))
  {
    var enabled := Enabled(rules);
    HeadIsCore(NeedsOf(enabled));
    CoreUsesNothing([BANNER_TOK] + RequireToks(NeedsOf(enabled)));
    CoreUsesNothing([NO_RULES_TOK]);
    RulesExtensions(enabled);
    ExtensionsConcat([BANNER_TOK] + RequireToks(NeedsOf(enabled)), Tail(enabled));
  }

  lemma HeadIsCore(req: set<string>)
    ensures Core([BANNER_TOK] + RequireToks(req)) && Core([NO_RULES_TOK])
  {
    ItemsCore(Ordered(ORDER, req));
  }

  // ----- declared and used -----

  /** The extensions on the `require` line. */
  function Declared(rules: seq<Rule>): seq<string> { Ordered(ORDER, NeedsOf(Enabled(rules))) }

  /** The require line names an extension exactly when an action of an enabled rule asks for it. */
  lemma RequireDeclares(rules: seq<Rule>, e: string)
    ensures e in Declared(rules) <==> exists r, a :: r in Enabled(rules) && a in r.actions && e in Needs(a)
  {
    OrderedMembers(ORDER, NeedsOf(Enabled(rules)));
    assert forall a: Action :: Needs(a) <= {ORDER[0], ORDER[1], ORDER[2], ORDER[3]};
    if r, a :| r in Enabled(rules) && a in r.actions && e in Needs(a) {
      assert e in NeedsAll(r.actions);
      assert e in ORDER;
    }
  }

  lemma {:induction false} PrintedAmong(actions: seq<Action>)
    ensures forall a :: a in Printed(actions) <==> a in actions && CommandOf(a).Some?
  {
    if actions != [] {
      FrontLast(actions);
      PrintedAmong(actions[..|actions| - 1]);
    }
  }

  lemma {:induction false} UserPartAmong(cs: seq<Condition>)
    ensures ConditionsNeed(cs) == if exists c :: c in cs && UsesUserPart(c) then {"subaddress"} else {}
  {
    if cs != [] {
      HeadTail(cs);
      UserPartAmong(cs[1..]);
    }
  }

  lemma {:induction false} UsedBy(rules: seq<Rule>, e: string)
    ensures e in RulesUse(rules) <==> exists r :: r in rules && e in RuleUses(r)
  {
    if rules != [] {
      HeadTail(rules);
      UsedBy(rules[1..], e);
    }
  }

  lemma NotDeclared(rules: seq<Rule>)
    ensures "subaddress" !in Declared(rules)
  {
    RequireDeclares(rules, "subaddress");
    assert forall a: Action :: "subaddress" !in Needs(a);
  }

  lemma ActionsDeclared(rules: seq<Rule>, r: Rule, e: string)
    requires r in Enabled(rules) && e in NeedsAll(Printed(r.actions))
    ensures e in Declared(rules)
  {
    PrintedAmong(r.actions);
    RequireDeclares(rules, e);
  }

  lemma UserPartIsUsed(rules: seq<Rule>, r: Rule, c: Condition)
    requires r in Enabled(rules) && Printable(r) && c in r.conditions && UsesUserPart(c)
    ensures "subaddress" in Extensions(ScriptToks(rules))
  {
    UserPartAmong(r.conditions);
    UsedBy(Enabled(rules), "subaddress");
    ScriptExtensions(rules);
  }

  /** A condition on `:user` is in the script. */
  ghost predicate PrintsUserPart(rules: seq<Rule>) {
    exists r, c :: r in Enabled(rules) && Printable(r) && c in r.conditions && UsesUserPart(c)
  }

  /**
   Every extension whose words occur in the tokens of the printed text is declared there, exactly when no printed
   address condition looks at the part before the detail separator.
   */
  lemma UsedIsDeclared(rules: seq<Rule>)
    requires OneLineNames(Enabled(rules))
    ensures Lex(PrintScript(rules)).Some?
    ensures (forall e :: e in Extensions(Lex(PrintScript(rules)).value) ==> e in Declared(rules))
            <==> !PrintsUserPart(rules)
  {
    PrintedTokens(rules);
    ScriptExtensions(rules);
    if PrintsUserPart(rules) {
      var r, c :| r in Enabled(rules) && Printable(r) && c in r.conditions && UsesUserPart(c);
      UserPartIsUsed(rules, r, c);
      NotDeclared(rules);
    } else {
      forall e | e in Extensions(ScriptToks(rules)) ensures e in Declared(rules) {
        UsedBy(Enabled(rules), e);
        var r :| r in Enabled(rules) && e in RuleUses(r);
        UserPartAmong(r.conditions);
        ActionsDeclared(rules, r, e);
      }
    }
  }
}
