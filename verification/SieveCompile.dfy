/**
 The script that a rule list stands for, as a syntax tree, and the proof that
 the printed text has exactly the tokens of that tree.
 */
module SieveCompile {
  import opened Wrappers
  import opened Seqs
  import opened SieveText
  import opened SieveModel
  import opened SievePrinter
  import opened SieveLexer
  import opened SieveLexing
  import opened SieveParser
  import opened SieveSyntax

  /** The command an action is printed as; None is an action that is not printed. */
  function CommandOf(a: Action): Option<Command> {
    match a
    case FileInto(mailbox, copy) =>
      if SplitList(mailbox) == [] then None
      else Some(Command("fileinto", if copy then [":copy"] else [], SplitList(mailbox)))
    case Redirect(address) => if address == "" then None else Some(Command("redirect", [], [address]))
    case Reject(text) => Some(Command("reject", [], [if text == "" then "Rejected" else text]))
    case Discard => Some(Command("discard", [], []))
    case Keep => Some(Command("keep", [], []))
    case Stop => Some(Command("stop", [], []))
    case Flag(kind, flag) => if SplitList(flag) == [] then None else Some(Command(FlagText(kind), [], SplitList(flag)))
  }

  const STOP := Command("stop", [], [])
  const KEEP := Command("keep", [], [])

  function CommandsOf(actions: seq<Action>): (cs: seq<Command>) {
    if actions == [] then []
    else
      var last := actions[|actions| - 1];
      CommandsOf(actions[..|actions| - 1]) + (if CommandOf(last).Some? then [CommandOf(last).value] else [])
  }

  /** The commands of a rule, with the stop that the builder adds. */
  function BodyOf(actions: seq<Action>): seq<Command> {
    CommandsOf(actions) + if AddsStop(actions) then [STOP] else []
  }

  /** The test of a printable condition, without its `not` when it is the constant test. */
  function NodeOf(c: Condition): TestNode {
    match c.test
    case True => TrueTest
    case Exists => Simple(Exists, Whole, Is, c.negated, SplitList(c.header), [])
    case Address => Simple(Address, c.part, c.op, c.negated, SplitList(c.header), [c.value])
    case Header => Simple(Header, Whole, c.op, c.negated, SplitList(c.header), [c.value])
  }

  /** A negated constant test: the one condition that is printed but cannot be read back. */
  predicate NotTrue(c: Condition) { c.test == True && c.negated }

  function ConditionToks(c: Condition): Toks {
    if NotTrue(c) then [Word("not"), Word("true")] else TestToks(NodeOf(c))
  }

  function ConditionsToks(cs: seq<Condition>): Toks {
    if cs == [] then [] else if |cs| == 1 then ConditionToks(cs[0])
    else ConditionToks(cs[0]) + ([Punct(',')] + ConditionsToks(cs[1..]))
  }

  function ExprToks(r: Rule): Toks
    requires r.conditions != []
  {
    if |r.conditions| == 1 then ConditionToks(r.conditions[0])
    else [Word(JoinText(r.join))] + ([Punct('(')] + (ConditionsToks(r.conditions) + [Punct(')')]))
  }

  function RuleToks(r: Rule): Toks {
    [Comment(RuleTitle(r.name))] +
    if !Printable(r) then [] else if r.conditions == [] then CommandsToks(TopLevel(r.actions)) else IfToks(r)
  }

  /** The commands of a rule without conditions. */
  function TopLevel(actions: seq<Action>): seq<Command> {
    if BodyOf(actions) == [] then [KEEP] else BodyOf(actions)
  }

  function IfToks(r: Rule): Toks
    requires r.conditions != []
  {
    [Word("if")] + (ExprToks(r) + ([Punct('{')] + (CommandsToks(BodyOf(r.actions)) + [Punct('}')])))
  }

  function RulesToks(rules: seq<Rule>): Toks {
    if rules == [] then [] else RuleToks(rules[0]) + RulesToks(rules[1..])
  }

  function RequireToks(req: set<string>): Toks {
    var names := Ordered(ORDER, req);
    if names == [] then [] else [Word("require"), Punct('[')] + ItemToks(names) + [Punct(']'), Punct(';')]
  }

  const BANNER_TOK := Comment(BANNER_NOTE)
  const NO_RULES_TOK := Comment(NO_RULES_NOTE)

  function ScriptToks(rules: seq<Rule>): Toks {
    [BANNER_TOK] + RequireToks(NeedsOf(Enabled(rules))) +
    if Enabled(rules) == [] then [NO_RULES_TOK] else RulesToks(Enabled(rules))
  }

  // ----- conditions -----

  lemma LexOp(op: Op)
    ensures Lexes(":" + OpText(op) + " ", [Annot(":" + OpText(op))], true)
  {
    LexAnnotSpace(OpText(op));
  }

  lemma LexPart(part: Part)
    ensures Lexes(if part == Whole then "" else ":" + PartText(part) + " ", PartToks(part), true)
  {
    if part == Whole { LexNothing(); } else { LexAnnotSpace(PartText(part)); }
  }

  lemma LexListSpace(items: seq<string>)
    ensures Lexes(QuoteListOrOne(items) + " ", ListToks(items), true)
  {
    LexList(items);
    LexSpace(' ');
    LexConcat(QuoteListOrOne(items), ListToks(items), true, " ", [], true);
    Units(ListToks(items));
  }

  lemma LexAddress(c: Condition)
    requires c.test == Address
    ensures Lexes(CoreText(c).value, CoreToks(NodeOf(c)), true)
  {
    var headers := SplitList(c.header);
    var part := if c.part == Whole then "" else ":" + PartText(c.part) + " ";
    var op := ":" + OpText(c.op) + " ";
    var names := if headers == [] then "" else QuoteListOrOne(headers) + " ";
    var nameToks := if headers == [] then [] else ListToks(headers);
    var opToks := [Annot(":" + OpText(c.op))];
    assert "address" + " " == "address ";
    LexWordSpace("address");
    LexPart(c.part);
    LexOp(c.op);
    if headers == [] { LexNothing(); } else { LexListSpace(headers); }
    LexQuote(c.value);
    LexConcat("address ", [Word("address")], true, part, PartToks(c.part), true);
    LexConcat("address " + part, [Word("address")] + PartToks(c.part), true, op, opToks, true);
    LexConcat("address " + part + op, [Word("address")] + PartToks(c.part) + opToks, true, names, nameToks, true);
    LexConcat("address " + part + op + names, [Word("address")] + PartToks(c.part) + opToks + nameToks, true,
      Quote(c.value), [Quoted(c.value)], true);
    AddressToksShape(c);
  }

  lemma AddressToksShape(c: Condition)
    requires c.test == Address
    ensures CoreToks(NodeOf(c)) ==
            [Word("address")] + PartToks(c.part) + [Annot(":" + OpText(c.op))]
            + (if SplitList(c.header) == [] then [] else ListToks(SplitList(c.header))) + [Quoted(c.value)]
  {
    var t := NodeOf(c);
    var op, names := [Annot(":" + OpText(c.op))], if t.headers == [] then [] else ListToks(t.headers);
    AddressLists(t.headers, c.value);
    assert ListsToks(Lists(t)) == names + [Quoted(c.value)];
    Assoc([Word("address")] + PartToks(c.part), op, names);
    Assoc([Word("address")] + PartToks(c.part), op + names, [Quoted(c.value)]);
    Assoc(op, names, [Quoted(c.value)]);
    Assoc([Word("address")], PartToks(c.part), op + (names + [Quoted(c.value)]));
    Assoc(PartToks(c.part), op, names + [Quoted(c.value)]);
  }

  lemma AddressLists(headers: seq<string>, value: string)
    ensures ListsToks((if headers == [] then [] else [headers]) + [[value]])
         == (if headers == [] then [] else ListToks(headers)) + [Quoted(value)]
  {
    ListsOfOne([value]);
    if headers == [] {
      Units([[value]]);
      Units(ListToks([value]));
    } else {
      ListsOfTwo(headers, [value]);
      assert [headers] + [[value]] == [headers, [value]];
    }
  }

  lemma ListsOfOne(a: seq<string>)
    ensures ListsToks([a]) == ListToks(a)
  {
    assert [a][1..] == [];
    Units(ListToks(a));
  }

  lemma ListsOfTwo(a: seq<string>, b: seq<string>)
    ensures ListsToks([a, b]) == ListToks(a) + ListToks(b)
  {
    assert [a, b][1..] == [b];
    ListsOfOne(b);
  }

  lemma LexHeader(c: Condition)
    requires c.test == Header && SplitList(c.header) != []
    ensures Lexes(CoreText(c).value, CoreToks(NodeOf(c)), true)
  {
    var headers := SplitList(c.header);
    var op, names := ":" + OpText(c.op) + " ", QuoteListOrOne(headers) + " ";
    var opToks := [Annot(":" + OpText(c.op))];
    assert "header" + " " == "header ";
    LexWordSpace("header");
    LexOp(c.op);
    LexListSpace(headers);
    LexQuote(c.value);
    LexConcat("header ", [Word("header")], true, op, opToks, true);
    LexConcat("header " + op, [Word("header")] + opToks, true, names, ListToks(headers), true);
    LexConcat("header " + op + names, [Word("header")] + opToks + ListToks(headers), true, Quote(c.value),
      [Quoted(c.value)], true);
    HeaderToksShape(c);
  }

  lemma HeaderToksShape(c: Condition)
    requires c.test == Header && SplitList(c.header) != []
    ensures CoreToks(NodeOf(c)) ==
            [Word("header")] + [Annot(":" + OpText(c.op))] + ListToks(SplitList(c.header)) + [Quoted(c.value)]
  {
    var t := NodeOf(c);
    var op, names := [Annot(":" + OpText(c.op))], ListToks(t.headers);
    AddressLists(t.headers, c.value);
    assert ListsToks(Lists(t)) == names + [Quoted(c.value)];
    Units(op);
    assert AnnotationToks(t) == op;
    Assoc4([Word("header")], op, names, [Quoted(c.value)]);
    Assoc(op, names, [Quoted(c.value)]);
  }

  lemma ExistsToksShape(c: Condition)
    requires c.test == Exists && SplitList(c.header) != []
    ensures CoreToks(NodeOf(c)) == [Word("exists")] + ListToks(SplitList(c.header))
  {
    var t := NodeOf(c);
    Units([t.headers]);
    ListsOfOne(t.headers);
    Units(ListsToks(Lists(t)));
  }

  lemma LexExists(c: Condition)
    requires c.test == Exists && SplitList(c.header) != []
    ensures Lexes(CoreText(c).value, CoreToks(NodeOf(c)), true)
  {
    var headers := SplitList(c.header);
    assert "exists" + " " == "exists ";
    LexWordSpace("exists");
    LexList(headers);
    LexConcat("exists ", [Word("exists")], true, QuoteListOrOne(headers), ListToks(headers), true);
    ExistsToksShape(c);
  }

  function CoreToksOf(c: Condition): Toks { if c.test == True then [Word("true")] else CoreToks(NodeOf(c)) }

  lemma LexCore(c: Condition)
    requires CoreText(c).Some?
    ensures Lexes(CoreText(c).value, CoreToksOf(c), false)
  {
    match c.test
    case True => LexWord("true");
    case Exists => LexExists(c); Open(CoreText(c).value, CoreToksOf(c));
    case Address => LexAddress(c); Open(CoreText(c).value, CoreToksOf(c));
    case Header => LexHeader(c); Open(CoreText(c).value, CoreToksOf(c));
  }

  lemma Open(s: string, ts: Toks)
    requires Lexes(s, ts, true)
    ensures Lexes(s, ts, false)
  {}

  lemma ConditionToksShape(c: Condition)
    requires ConditionText(c).Some?
    ensures ConditionToks(c) == if c.negated then [Word("not")] + CoreToksOf(c) else CoreToksOf(c)
  {}

  lemma LexCondition(c: Condition)
    requires ConditionText(c).Some?
    ensures Lexes(ConditionText(c).value, ConditionToks(c), false)
  {
    LexCore(c);
    ConditionToksShape(c);
    if c.negated { LexNot(CoreText(c).value, CoreToksOf(c)); }
  }

  lemma LexNot(core: string, ts: Toks)
    requires Lexes(core, ts, false)
    ensures Lexes("not " + core, [Word("not")] + ts, false)
  {
    assert "not" + " " == "not ";
    LexWordSpace("not");
    LexConcat("not ", [Word("not")], true, core, ts, false);
  }

  lemma LexCommaSpace()
    ensures Lexes(", ", [Punct(',')], true)
  {
    LexMark(',');
    LexSpace(' ');
    LexConcat(",", [Punct(',')], true, " ", [], true);
    assert "," + " " == ", " && [Punct(',')] + [] == [Punct(',')];
  }

  lemma LexComma(a: string, ta: Toks, b: string, tb: Toks)
    requires Lexes(a, ta, false) && Lexes(b, tb, false)
    ensures Lexes(a + ", " + b, ta + ([Punct(',')] + tb), false)
  {
    LexCommaSpace();
    LexConcat(a, ta, false, ", ", [Punct(',')], true);
    LexConcat(a + ", ", ta + [Punct(',')], true, b, tb, false);
    Assoc(ta, [Punct(',')], tb);
  }

  lemma {:induction false} LexConditions(cs: seq<Condition>)
    requires cs != [] && forall c :: c in cs ==> ConditionText(c).Some?
    ensures Lexes(Join(ConditionTexts(cs), ", "), ConditionsToks(cs), false)
  {
    var texts := ConditionTexts(cs);
    assert cs[0] in cs;
    LexCondition(cs[0]);
    if |cs| > 1 {
      LexConditions(cs[1..]);
      JoinTail(cs);
      LexComma(texts[0], ConditionToks(cs[0]), Join(ConditionTexts(cs[1..]), ", "), ConditionsToks(cs[1..]));
    } else {
      assert cs == [cs[0]] && texts == [texts[0]];
    }
  }

  lemma JoinTail(cs: seq<Condition>)
    requires |cs| > 1 && forall c :: c in cs ==> ConditionText(c).Some?
    ensures |ConditionTexts(cs)| > 0
    ensures Join(ConditionTexts(cs), ", ") == ConditionTexts(cs)[0] + ", " + Join(ConditionTexts(cs[1..]), ", ")
  {
    assert ConditionTexts(cs)[1..] == ConditionTexts(cs[1..]);
    assert |ConditionTexts(cs[1..])| > 0;
  }

  lemma LexGroup(word: string, inner: string, ts: Toks)
    requires word != "" && IsWordStart(word[0]) && IsLowerName(word) && Lexes(inner, ts, false)
    ensures Lexes(word + " (" + inner + ")", [Word(word)] + ([Punct('(')] + (ts + [Punct(')')])), false)
  {
    LexWordSpace(word);
    LexMark('(');
    LexMark(')');
    LexConcat(word + " ", [Word(word)], true, "(", [Punct('(')], true);
    assert word + " " + "(" == word + " (";
    LexConcat(word + " (", [Word(word)] + [Punct('(')], true, inner, ts, false);
    LexConcat(word + " (" + inner, [Word(word)] + [Punct('(')] + ts, false, ")", [Punct(')')], true);
    Assoc4([Word(word)], [Punct('(')], ts, [Punct(')')]);
    Open(word + " (" + inner + ")", [Word(word)] + ([Punct('(')] + (ts + [Punct(')')])));
  }

  lemma LexOneCondition(r: Rule)
    requires Printable(r) && |r.conditions| == 1
    ensures Lexes(ExprText(r), ExprToks(r), false)
  {
    assert r.conditions[0] in r.conditions;
    LexCondition(r.conditions[0]);
    assert ExprText(r) == ConditionText(r.conditions[0]).value;
  }

  lemma JoinWord(join: JoinKind)
    ensures JoinText(join) != "" && IsWordStart(JoinText(join)[0]) && IsLowerName(JoinText(join))
  {}

  lemma ManyShape(r: Rule)
    requires Printable(r) && |r.conditions| > 1
    ensures ExprText(r) == JoinText(r.join) + " (" + Join(ConditionTexts(r.conditions), ", ") + ")"
    ensures ExprToks(r) == [Word(JoinText(r.join))] + ([Punct('(')] + (ConditionsToks(r.conditions) + [Punct(')')]))
  {}

  lemma LexManyConditions(r: Rule)
    requires Printable(r) && |r.conditions| > 1
    ensures Lexes(ExprText(r), ExprToks(r), false)
  {
    LexConditions(r.conditions);
    JoinWord(r.join);
    ManyShape(r);
    LexGroup(JoinText(r.join), Join(ConditionTexts(r.conditions), ", "), ConditionsToks(r.conditions));
  }

  lemma LexExpr(r: Rule)
    requires Printable(r) && r.conditions != []
    ensures Lexes(ExprText(r), ExprToks(r), false)
  {
    if |r.conditions| == 1 { LexOneCondition(r); } else { LexManyConditions(r); }
  }

  // ----- actions -----

  lemma ActionIsCommand(a: Action)
    ensures ActionText(a).Some? <==> CommandOf(a).Some?
  {}

  /** A command before its semicolon. */
  function HeadToks(c: Command): Toks { [Word(c.name)] + (AnnotToks(c.annots) + StringToks(c.strs)) }

  lemma CommandToksShape(c: Command)
    ensures CommandToks(c) == HeadToks(c) + [Punct(';')]
  {
    Assoc([Word(c.name)], AnnotToks(c.annots) + StringToks(c.strs), [Punct(';')]);
    Assoc(AnnotToks(c.annots), StringToks(c.strs), [Punct(';')]);
  }

  lemma LexWordList(word: string, items: seq<string>)
    requires word != "" && IsWordStart(word[0]) && IsLowerName(word) && items != []
    ensures Lexes(word + " " + QuoteListOrOne(items), HeadToks(Command(word, [], items)), false)
  {
    LexWordSpace(word);
    LexList(items);
    LexConcat(word + " ", [Word(word)], true, QuoteListOrOne(items), ListToks(items), true);
    Units(ListToks(items));
    Open(word + " " + QuoteListOrOne(items), HeadToks(Command(word, [], items)));
  }

  lemma CopyToks(boxes: seq<string>)
    requires boxes != []
    ensures HeadToks(Command("fileinto", [":copy"], boxes)) == [Word("fileinto")] + [Annot(":copy")] + ListToks(boxes)
  {
    assert [":copy"][1..] == [];
    Units([Annot(":copy")]);
    Assoc([Word("fileinto")], [Annot(":copy")], ListToks(boxes));
  }

  lemma LexFileInto(copy: bool, boxes: seq<string>)
    requires boxes != []
    ensures Lexes("fileinto " + (if copy then ":copy " else "") + QuoteListOrOne(boxes),
                  HeadToks(Command("fileinto", if copy then [":copy"] else [], boxes)), false)
  {
    assert "fileinto" + " " == "fileinto ";
    if copy {
      assert ":" + "copy" + " " == ":copy ";
      assert ":" + "copy" == ":copy";
      LexWordSpace("fileinto");
      LexAnnotSpace("copy");
      LexList(boxes);
      LexConcat("fileinto ", [Word("fileinto")], true, ":copy ", [Annot(":copy")], true);
      LexConcat("fileinto " + ":copy ", [Word("fileinto")] + [Annot(":copy")], true, QuoteListOrOne(boxes),
        ListToks(boxes), true);
      CopyToks(boxes);
      Open("fileinto " + ":copy " + QuoteListOrOne(boxes), HeadToks(Command("fileinto", [":copy"], boxes)));
    } else {
      LexWordList("fileinto", boxes);
      assert "fileinto " + "" == "fileinto ";
    }
  }

  lemma LexBareWord(word: string)
    requires word != "" && IsWordStart(word[0]) && IsLowerName(word)
    ensures Lexes(word, HeadToks(Command(word, [], [])), false)
  {
    var none: Toks := [];
    LexWord(word);
    Units(none);
    Units([Word(word)]);
  }

  lemma LexOneString(word: string, arg: string)
    requires word == "redirect" || word == "reject"
    ensures Lexes(word + " " + Quote(arg), HeadToks(Command(word, [], [arg])), false)
  {
    LexWordList(word, [arg]);
  }

  lemma LexSimpleAction(a: Action)
    requires a.Discard? || a.Keep? || a.Stop?
    ensures Lexes(ActionText(a).value, HeadToks(CommandOf(a).value), false)
  {
    LexBareWord(ActionText(a).value);
  }

  lemma LexRedirect(a: Action)
    requires a.Redirect? && CommandOf(a).Some?
    ensures Lexes(ActionText(a).value, HeadToks(CommandOf(a).value), false)
  {
    assert "redirect" + " " == "redirect ";
    LexOneString("redirect", a.address);
  }

  lemma LexReject(a: Action)
    requires a.Reject?
    ensures Lexes(ActionText(a).value, HeadToks(CommandOf(a).value), false)
  {
    assert "reject" + " " == "reject ";
    LexOneString("reject", if a.text == "" then "Rejected" else a.text);
  }

  lemma FlagWord(kind: FlagKind)
    ensures FlagText(kind) != "" && IsWordStart(FlagText(kind)[0]) && IsLowerName(FlagText(kind))
  {}

  lemma FlagShape(a: Action)
    requires a.Flag? && CommandOf(a).Some?
    ensures SplitList(a.flag) != [] && CommandOf(a).value == Command(FlagText(a.kind), [], SplitList(a.flag))
    ensures ActionText(a) == Some(FlagText(a.kind) + " " + QuoteListOrOne(SplitList(a.flag)))
  {}

  lemma LexFlag(a: Action)
    requires a.Flag? && CommandOf(a).Some?
    ensures ActionText(a).Some? && Lexes(ActionText(a).value, HeadToks(CommandOf(a).value), false)
  {
    FlagShape(a);
    LexFlagOf(a.kind, SplitList(a.flag));
  }

  lemma LexFlagOf(kind: FlagKind, flags: seq<string>)
    requires flags != []
    ensures Lexes(FlagText(kind) + " " + QuoteListOrOne(flags), HeadToks(Command(FlagText(kind), [], flags)), false)
  {
    FlagWord(kind);
    LexWordList(FlagText(kind), flags);
  }

  lemma LexAction(a: Action)
    requires CommandOf(a).Some?
    ensures Lexes(ActionText(a).value, HeadToks(CommandOf(a).value), false)
  {
    match a
    case FileInto(mailbox, copy) => LexFileInto(copy, SplitList(mailbox));
    case Redirect(_) => LexRedirect(a);
    case Reject(_) => LexReject(a);
    case Flag(_, _) => LexFlag(a);
    case _ => LexSimpleAction(a);
  }

  lemma LexLine(text: string, c: Command)
    requires Lexes(text, HeadToks(c), false)
    ensures Lexes(Line(text), CommandToks(c), true)
  {
    LexSpace(' ');
    LexSpace('\n');
    LexMark(';');
    LexConcat(" ", [], true, " ", [], true);
    LexConcat(";", [Punct(';')], true, "\n", [], true);
    assert " " + " " == "  " && ";" + "\n" == ";\n";
    LexConcat("  ", [] + [], true, text, HeadToks(c), false);
    LexConcat("  " + text, [] + [] + HeadToks(c), false, ";\n", [Punct(';')] + [], true);
    CommandToksShape(c);
    var none: Toks := [];
    Units(none);
    Units([Punct(';')]);
    Units(HeadToks(c));
  }

  lemma CommandsToksOf(c: Command, cs: seq<Command>)
    ensures CommandsToks([c] + cs) == CommandToks(c) + CommandsToks(cs)
  {
    ConsTail(c, cs);
  }

  lemma {:induction false} CommandsToksConcat(a: seq<Command>, b: seq<Command>)
    ensures CommandsToks(a + b) == CommandsToks(a) + CommandsToks(b)
  {
    if a == [] {
      Units(b);
      Units(CommandsToks(b));
    } else {
      var c, cs := a[0], a[1..];
      HeadTail(a);
      Assoc([c], cs, b);
      calc {
        CommandsToks(a + b);
        { CommandsToksOf(c, cs + b); CommandsToksConcat(cs, b); }
        CommandToks(c) + (CommandsToks(cs) + CommandsToks(b));
        { Assoc(CommandToks(c), CommandsToks(cs), CommandsToks(b)); }
        (CommandToks(c) + CommandsToks(cs)) + CommandsToks(b);
        { CommandsToksOf(c, cs); }
        CommandsToks(a) + CommandsToks(b);
      }
    }
  }

  lemma CommandsToksOne(c: Command)
    ensures CommandsToks([c]) == CommandToks(c)
  {
    assert [c][1..] == [];
    Units(CommandToks(c));
  }

  lemma LexLineAfter(text: string, cs: seq<Command>, line: string, c: Command)
    requires Lexes(text, CommandsToks(cs), true) && Lexes(line, CommandToks(c), true)
    ensures Lexes(text + line, CommandsToks(cs + [c]), true)
  {
    LexConcat(text, CommandsToks(cs), true, line, CommandToks(c), true);
    CommandsToksOne(c);
    CommandsToksConcat(cs, [c]);
  }

  lemma {:induction false} LexActionLines(actions: seq<Action>)
    ensures Lexes(ActionLines(actions), CommandsToks(CommandsOf(actions)), true)
  {
    if actions == [] {
      LexNothing();
    } else {
      var front, last := actions[..|actions| - 1], actions[|actions| - 1];
      LexActionLines(front);
      ActionIsCommand(last);
      if CommandOf(last).Some? {
        LexAction(last);
        LexLine(ActionText(last).value, CommandOf(last).value);
        LexLineAfter(ActionLines(front), CommandsOf(front), Line(ActionText(last).value), CommandOf(last).value);
      } else {
        Units(ActionLines(front));
        Units(CommandsOf(front));
      }
    }
  }

  lemma LexStopLine()
    ensures Lexes(Line("stop"), CommandToks(STOP), true)
  {
    LexBareWord("stop");
    LexLine("stop", STOP);
  }

  lemma LexBody(actions: seq<Action>)
    ensures Lexes(BodyText(actions), CommandsToks(BodyOf(actions)), true)
  {
    LexActionLines(actions);
    if AddsStop(actions) {
      LexStopLine();
      LexLineAfter(ActionLines(actions), CommandsOf(actions), Line("stop"), STOP);
    } else {
      Units(ActionLines(actions));
      Units(CommandsOf(actions));
    }
  }

  /** A printed body is empty or starts with an indented command word. */
  lemma {:induction false} ActionLinesShape(actions: seq<Action>)
    ensures IsBody(ActionLines(actions))
    ensures ActionLines(actions) == "" <==> CommandsOf(actions) == []
  {
    if actions != [] {
      var front, last := actions[..|actions| - 1], actions[|actions| - 1];
      ActionLinesShape(front);
      ActionIsCommand(last);
      if ActionText(last).Some? { LineShape(ActionLines(front), last); }
    }
  }

  lemma TextStartsWord(a: Action)
    requires ActionText(a).Some?
    ensures ActionText(a).value != "" && IsWordStart(ActionText(a).value[0])
  {}

  lemma LineShape(before: string, a: Action)
    requires ActionText(a).Some? && IsBody(before)
    ensures IsBody(before + Line(ActionText(a).value)) && before + Line(ActionText(a).value) != ""
  {
    var text := ActionText(a).value;
    TextStartsWord(a);
    assert Line(text)[..2] == "  " && Line(text)[2] == text[0];
    if before != "" {
      assert (before + Line(text))[..2] == before[..2];
    } else {
      assert before + Line(text) == Line(text);
    }
  }

  lemma BodyShape(actions: seq<Action>)
    ensures IsBody(BodyText(actions))
    ensures BodyText(actions) == "" <==> BodyOf(actions) == []
  {
    ActionLinesShape(actions);
    LineShape(ActionLines(actions), Stop);
    assert ActionLines(actions) + "" == ActionLines(actions);
  }

  // ----- rules and scripts -----

  lemma LexKeepLine()
    ensures Lexes(Line("keep"), CommandToks(KEEP), true)
  {
    LexBareWord("keep");
    LexLine("keep", KEEP);
  }

  lemma LexTopLevel(actions: seq<Action>)
    ensures Lexes(if BodyText(actions) == "" then Line("keep") else BodyText(actions), CommandsToks(TopLevel(actions)),
            true)
  {
    LexBody(actions);
    BodyShape(actions);
    LexKeepLine();
    CommandsToksOne(KEEP);
  }

  lemma LexIf(expr: string, exprToks: Toks, body: string, bodyToks: Toks)
    requires Lexes(expr, exprToks, false) && Lexes(body, bodyToks, true) && IsBody(body)
    ensures Lexes("if " + expr + " " + ("{\n" + body + "}") + "\n\n",
                  [Word("if")] + (exprToks + ([Punct('{')] + (bodyToks + [Punct('}')]))), true)
  {
    var block, blockToks := "{\n" + body + "}", [Punct('{')] + bodyToks + [Punct('}')];
    assert "if" + " " == "if ";
    LexWordSpace("if");
    LexSpace(' ');
    LexSpace('\n');
    LexBlock(body, bodyToks);
    LexConcat("\n", [], true, "\n", [], true);
    assert "\n" + "\n" == "\n\n";
    LexConcat("if ", [Word("if")], true, expr, exprToks, false);
    LexConcat("if " + expr, [Word("if")] + exprToks, false, " ", [], true);
    LexConcat("if " + expr + " ", [Word("if")] + exprToks + [], true, block, blockToks, true);
    LexConcat("if " + expr + " " + block, [Word("if")] + exprToks + [] + blockToks, true, "\n\n", [] + [], true);
    IfShape(exprToks, bodyToks);
  }

  lemma IfShape(exprToks: Toks, bodyToks: Toks)
    ensures [Word("if")] + exprToks + [] + ([Punct('{')] + bodyToks + [Punct('}')]) + ([] + [])
            == [Word("if")] + (exprToks + ([Punct('{')] + (bodyToks + [Punct('}')])))
  {
    var block: Toks := [Punct('{')] + bodyToks + [Punct('}')];
    Units([Word("if")] + exprToks);
    Units([Word("if")] + exprToks + block);
    Assoc([Word("if")], exprToks, block);
    Assoc([Punct('{')], bodyToks, [Punct('}')]);
  }

  lemma TrimPadded(s: string)
    requires s != "" && !IsSpace(s[0]) && !IsSpace(s[|s| - 1])
    ensures Trim(" " + s) == s
  {
    assert (" " + s)[1..] == s && TrimStart(s) == s && TrimStart(" " + s) == s;
  }

  lemma LexNote(text: string)
    requires text != "" && !IsSpace(text[0]) && !IsSpace(text[|text| - 1]) && '\n' !in text
    ensures Lexes(Note(text), [Comment(text)], true)
  {
    LexComment(" " + text);
    TrimPadded(text);
  }

  lemma LexRuleRest(r: Rule)
    requires Printable(r)
    ensures var body := BodyText(r.actions);
            if r.conditions == []
              then Lexes(if body == "" then Line("keep") else body, CommandsToks(TopLevel(r.actions)), true)
            else Lexes("if " + ExprText(r) + " " + ("{\n" + body + "}") + "\n\n", IfToks(r), true)
  {
    if r.conditions == [] {
      LexTopLevel(r.actions);
    } else {
      LexExpr(r);
      LexBody(r.actions);
      BodyShape(r.actions);
      LexIf(ExprText(r), ExprToks(r), BodyText(r.actions), CommandsToks(BodyOf(r.actions)));
    }
  }

  lemma LexRule(r: Rule)
    requires '\n' !in r.name
    ensures Lexes(RuleText(r), RuleToks(r), true)
  {
    var title := [Comment(RuleTitle(r.name))];
    LexNote(RuleTitle(r.name));
    if !Printable(r) {
      Units(RuleComment(r.name));
      Units(title);
    } else {
      LexRuleRest(r);
      var body := BodyText(r.actions);
      if r.conditions == [] {
        LexConcat(RuleComment(r.name), title, true, if body == "" then Line("keep") else body,
          CommandsToks(TopLevel(r.actions)), true);
      } else {
        LexConcat(RuleComment(r.name), title, true, "if " + ExprText(r) + " " + ("{\n" + body + "}") + "\n\n",
          IfToks(r), true);
      }
    }
  }

  lemma {:induction false} RulesToksSnoc(rules: seq<Rule>, r: Rule)
    ensures RulesToks(rules + [r]) == RulesToks(rules) + RuleToks(r)
  {
    if rules == [] {
      Units([r]);
      assert [r][1..] == [];
      Units(RuleToks(r));
    } else {
      RulesToksSnoc(rules[1..], r);
      TailOfConcat(rules, [r]);
      Assoc(RuleToks(rules[0]), RulesToks(rules[1..]), RuleToks(r));
    }
  }

  predicate OneLineNames(rules: seq<Rule>) { forall r :: r in rules ==> '\n' !in r.name }

  lemma {:induction false} LexRules(rules: seq<Rule>)
    requires OneLineNames(rules)
    ensures Lexes(RuleTexts(rules), RulesToks(rules), true)
  {
    if rules == [] {
      LexNothing();
    } else {
      var front, last := rules[..|rules| - 1], rules[|rules| - 1];
      LexRules(front);
      LexRule(last);
      LexConcat(RuleTexts(front), RulesToks(front), true, RuleText(last), RuleToks(last), true);
      RulesToksSnoc(front, last);
      FrontLast(rules);
    }
  }

  predicate PlainName(s: string) { forall k :: 0 <= k < |s| ==> IsWordChar(s[k]) }

  lemma {:induction false} EscPlain(s: string)
    requires PlainName(s)
    ensures Esc(s) == s
  {
    if s != "" {
      EscHead(s);
      EscPlain(s[1..]);
      assert [s[0]] + s[1..] == s;
    }
  }

  lemma {:induction false} QuotePlainIsQuote(items: seq<string>)
    requires forall k :: 0 <= k < |items| ==> PlainName(items[k])
    ensures QuotePlain(items) == QuoteAll(items)
  {
    if items != [] {
      EscPlain(items[0]);
      QuotePlainIsQuote(items[1..]);
    }
  }

  lemma {:induction false} OrderedPlain(names: seq<string>, req: set<string>)
    requires forall k :: 0 <= k < |names| ==> PlainName(names[k])
    ensures forall k :: 0 <= k < |Ordered(names, req)| ==> PlainName(Ordered(names, req)[k])
  {
    if names != [] { OrderedPlain(names[1..], req); }
  }

  lemma LexRequire(req: set<string>)
    ensures Lexes(RequireText(req), RequireToks(req), true)
  {
    var names := Ordered(ORDER, req);
    OrderedPlain(ORDER, req);
    QuotePlainIsQuote(names);
    if names == [] {
      LexNothing();
    } else {
      var items := Join(QuoteAll(names), ",");
      LexItems(names);
      LexRequireLine(items, ItemToks(names));
    }
  }

  lemma LexRequireLine(items: string, ts: Toks)
    requires Lexes(items, ts, true)
    ensures Lexes("require [" + items + "];\n", [Word("require"), Punct('[')] + ts + [Punct(']'), Punct(';')], true)
  {
    assert "require" + " " == "require " && "require " + "[" == "require [";
    assert "]" + ";" == "];" && "];" + "\n" == "];\n";
    LexWordSpace("require");
    LexMark('[');
    LexMark(']');
    LexMark(';');
    LexSpace('\n');
    LexConcat("require ", [Word("require")], true, "[", [Punct('[')], true);
    LexConcat("]", [Punct(']')], true, ";", [Punct(';')], true);
    LexConcat("];", [Punct(']')] + [Punct(';')], true, "\n", [], true);
    LexConcat("require [", [Word("require")] + [Punct('[')], true, items, ts, true);
    LexConcat("require [" + items, [Word("require")] + [Punct('[')] + ts, true, "];\n",
      [Punct(']')] + [Punct(';')] + [], true);
    assert [Word("require")] + [Punct('[')] + ts + ([Punct(']')] + [Punct(';')] + [])
        == [Word("require"), Punct('[')] + ts + [Punct(']'), Punct(';')];
  }

  lemma BannerIsOneLine()
    ensures '\n' !in BANNER_NOTE
  {}

  lemma LexBanner()
    ensures Lexes(BANNER, [BANNER_TOK], true)
  {
    BannerIsOneLine();
    LexNote(BANNER_NOTE);
  }

  lemma LexNoRules()
    ensures Lexes(NO_RULES, [NO_RULES_TOK], true)
  {
    LexNote(NO_RULES_NOTE);
  }

  lemma LexPreamble(rules: seq<Rule>)
    ensures Lexes(Preamble(rules), [BANNER_TOK] + RequireToks(NeedsOf(Enabled(rules))), true)
  {
    var req := NeedsOf(Enabled(rules));
    LexBanner();
    LexRequire(req);
    LexSpace('\n');
    LexConcat(BANNER, [BANNER_TOK], true, RequireText(req), RequireToks(req), true);
    LexConcat(BANNER + RequireText(req), [BANNER_TOK] + RequireToks(req), true, "\n", [], true);
    Units([BANNER_TOK] + RequireToks(req));
  }

  /** Every printed script tokenizes, into the tokens of the rules it was printed from. */
  lemma PrintedTokens(rules: seq<Rule>)
    requires OneLineNames(Enabled(rules))
    ensures Lex(PrintScript(rules)) == Some(ScriptToks(rules))
  {
    var enabled := Enabled(rules);
    LexPreamble(rules);
    var head := [BANNER_TOK] + RequireToks(NeedsOf(enabled));
    if enabled == [] {
      LexNoRules();
      LexConcat(Preamble(rules), head, true, NO_RULES, [NO_RULES_TOK], true);
    } else {
      LexRules(enabled);
      LexConcat(Preamble(rules), head, true, RuleTexts(enabled), RulesToks(enabled), true);
    }
    LexWhole(PrintScript(rules), ScriptToks(rules), true);
  }
}
