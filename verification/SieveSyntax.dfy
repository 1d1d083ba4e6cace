/**
 The tokens of a syntax tree, and the proof that the parser reads them back:
 for every well-formed test tree, command and block, whatever tokens follow.
 */
module SieveSyntax {
  import opened Wrappers
  import opened Seqs
  import opened SieveModel
  import opened SieveLexer
  import opened SieveParser
  import opened SieveLexing

  function KindText(kind: TestKind): string {
    match kind case Header => "header" case Address => "address" case Exists => "exists" case True => "true"
  }

  /** A tree that the grammar can express. */
  predicate WellFormed(t: TestNode) {
    match t
    case TrueTest => true
    case Simple(kind, part, op, _, headers, values) =>
      && kind != True
      && (kind != Address ==> part == Whole)
      && (kind != Address ==> headers != [])
      && (if kind == Exists then op == Is && values == [] else values != [])
    case Group(_, children) => children != [] && forall c :: c in children ==> WellFormed(c)
  }

  function TestToks(t: TestNode): Toks
    decreases t, 0
  {
    match t
    case TrueTest => [Word("true")]
    case Simple(_, _, _, negated, _, _) => (if negated then [Word("not")] else []) + CoreToks(t)
    case Group(all, children) =>
      [Word(if all then "allof" else "anyof"), Punct('(')] + TestsToks(children) + [Punct(')')]
  }

  function TestsToks(ts: seq<TestNode>): Toks
    decreases ts, 1
  {
    if ts == [] then [] else if |ts| == 1 then TestToks(ts[0])
    else TestToks(ts[0]) + [Punct(',')] + TestsToks(ts[1..])
  }

  lemma Uncons(t: Tok, rest: Toks)
    requires !t.Comment?
    ensures ([t] + rest)[1..] == rest
    ensures Skip([t] + rest) == [t] + rest
  {}

  // ----- lists -----

  lemma ItemsStep(item: string, more: Toks, items: seq<string>, rest: Toks)
    requires PItems(more) == Ok(items, rest)
    ensures PItems([Quoted(item)] + ([Punct(',')] + more)) == Ok([item] + items, rest)
  {
    Uncons(Punct(','), more);
    Uncons(Quoted(item), [Punct(',')] + more);
  }

  lemma LastItem(item: string, rest: Toks)
    ensures PItems([Quoted(item)] + ([Punct(']')] + rest)) == Ok([item], rest)
  {
    Uncons(Punct(']'), rest);
    Uncons(Quoted(item), [Punct(']')] + rest);
  }

  lemma ItemToksCons(items: seq<string>, rest: Toks)
    requires |items| > 1
    ensures ItemToks(items) + rest == [Quoted(items[0])] + ([Punct(',')] + (ItemToks(items[1..]) + rest))
  {
    Assoc([Quoted(items[0]), Punct(',')], ItemToks(items[1..]), rest);
    Assoc([Quoted(items[0])], [Punct(',')], ItemToks(items[1..]) + rest);
    assert [Quoted(items[0])] + [Punct(',')] == [Quoted(items[0]), Punct(',')];
  }

  lemma {:induction false} ReadItems(items: seq<string>, rest: Toks)
    requires items != []
    ensures PItems(ItemToks(items) + ([Punct(']')] + rest)) == Ok(items, rest)
  {
    var close := [Punct(']')] + rest;
    if |items| == 1 {
      LastItem(items[0], rest);
      assert items == [items[0]];
    } else {
      ReadItems(items[1..], rest);
      ItemsStep(items[0], ItemToks(items[1..]) + close, items[1..], rest);
      ItemToksCons(items, close);
      HeadTail(items);
    }
  }

  lemma ReadList(items: seq<string>, rest: Toks)
    requires items != []
    ensures StartsList(ListToks(items) + rest)
    ensures !ListToks(items)[0].Comment? && !ListToks(items)[0].Annot?
    ensures PList(ListToks(items) + rest) == Ok(items, rest)
  {
    if |items| == 1 {
      Uncons(Quoted(items[0]), rest);
      assert items == [items[0]];
    } else {
      ReadItems(items, rest);
      var inner := ItemToks(items) + ([Punct(']')] + rest);
      Uncons(Punct('['), inner);
      Assoc4([Punct('[')], ItemToks(items), [Punct(']')], rest);
    }
  }

  function ListsToks(lists: seq<seq<string>>): Toks {
    if lists == [] then [] else ListToks(lists[0]) + ListsToks(lists[1..])
  }

  lemma ListsStep(us: Toks, l: seq<string>, mid: Toks, ls: seq<seq<string>>, rest: Toks)
    requires PList(us) == Ok(l, mid) && PLists(mid) == Ok(ls, rest)
    ensures PLists(us) == Ok([l] + ls, rest)
  {}

  lemma {:induction false} ReadLists(lists: seq<seq<string>>, rest: Toks)
    requires forall k :: 0 <= k < |lists| ==> lists[k] != []
    requires !StartsList(rest)
    ensures PLists(ListsToks(lists) + rest) == Ok(lists, rest)
  {
    if lists == [] {
      Units(rest);
    } else {
      var l, ls := lists[0], lists[1..];
      var mid := ListsToks(ls) + rest;
      ReadList(l, mid);
      ReadLists(ls, rest);
      ListsStep(ListToks(l) + mid, l, mid, ls, rest);
      Assoc(ListToks(l), ListsToks(ls), rest);
      HeadTail(lists);
    }
  }

  // ----- tests -----

  lemma OpAndPartTexts(op: Op, part: Part)
    ensures OpOf(":" + OpText(op)) == Some(op)
    ensures part != Whole ==> OpOf(":" + PartText(part)) == None && PartOf(":" + PartText(part)) == Some(part)
  {}

  lemma ReadOp(op: Op, part: Part, rest: Toks)
    requires rest != [] && !rest[0].Comment? && !rest[0].Annot?
    ensures PAnnots([Annot(":" + OpText(op))] + rest, None, part) == Ok((op, part), rest)
  {
    OpAndPartTexts(op, part);
    Uncons(Annot(":" + OpText(op)), rest);
    assert PAnnots(rest, Some(op), part) == Ok((op, part), rest);
  }

  lemma ReadPart(part: Part, rest: Toks)
    requires part != Whole
    ensures PAnnots([Annot(":" + PartText(part))] + rest, None, Whole) == PAnnots(rest, None, part)
  {
    OpAndPartTexts(Is, part);
    Uncons(Annot(":" + PartText(part)), rest);
  }

  lemma ReadAnnots(part: Part, op: Op, rest: Toks)
    requires rest != [] && !rest[0].Comment? && !rest[0].Annot?
    ensures PAnnots(PartToks(part) + ([Annot(":" + OpText(op))] + rest), None, Whole) == Ok((op, part), rest)
  {
    var ts := [Annot(":" + OpText(op))] + rest;
    ReadOp(op, part, rest);
    if part == Whole {
      Units(ts);
    } else {
      ReadPart(part, ts);
    }
  }

  function PartToks(part: Part): Toks { if part == Whole then [] else [Annot(":" + PartText(part))] }

  /** The argument lists of a test. */
  function Lists(t: TestNode): seq<seq<string>>
    requires t.Simple?
  {
    (if t.headers == [] then [] else [t.headers]) + (if t.kind == Exists then [] else [t.values])
  }

  function CoreToks(t: TestNode): Toks
    requires t.Simple?
  {
    [Word(KindText(t.kind))] + (AnnotationToks(t) + ListsToks(Lists(t)))
  }

  function AnnotationToks(t: TestNode): Toks
    requires t.Simple?
  {
    if t.kind == Exists then [] else PartToks(t.part) + [Annot(":" + OpText(t.op))]
  }

  lemma ReadAnnotations(t: TestNode, rest: Toks)
    requires t.Simple? && WellFormed(t)
    requires rest != [] && !rest[0].Comment? && !rest[0].Annot?
    ensures PAnnots(AnnotationToks(t) + rest, None, Whole) == Ok((t.op, t.part), rest)
  {
    if t.kind == Exists {
      Units(rest);
    } else {
      ReadAnnots(t.part, t.op, rest);
      Assoc(PartToks(t.part), [Annot(":" + OpText(t.op))], rest);
    }
  }

  lemma ReadCore(t: TestNode, rest: Toks)
    requires t.Simple? && WellFormed(t) && !StartsList(rest)
    ensures PSimple(t.kind, AnnotationToks(t) + (ListsToks(Lists(t)) + rest)) == Ok(t.(negated := false), rest)
  {
    var lists := Lists(t);
    assert |lists| > 0 && forall k :: 0 <= k < |lists| ==> lists[k] != [];
    ReadLists(lists, rest);
    ReadList(lists[0], []);
    var args := ListsToks(lists) + rest;
    assert args[0] == ListToks(lists[0])[0];
    ReadAnnotations(t, args);
    assert Arguments(t.kind, lists) == Some((t.headers, t.values));
  }

  lemma PlainStep(kind: TestKind, args: Toks, t: TestNode, rest: Toks, negDepth: nat)
    requires kind != True && PSimple(kind, args) == Ok(t, rest)
    ensures PTest([Word(KindText(kind))] + args, negDepth) == Ok(t, rest)
  {
    Uncons(Word(KindText(kind)), args);
    assert KindOf(KindText(kind)) == Some(kind) && KindText(kind) != "true" && KindText(kind) != "not";
  }

  lemma NotStep(core: Toks, t: TestNode, rest: Toks)
    requires t.Simple? && PTest(core, 1) == Ok(t, rest)
    ensures PTest([Word("not")] + core, 0) == Ok(t.(negated := true), rest)
  {
    Uncons(Word("not"), core);
    assert KindOf("not") == None;
  }

  lemma SimpleToksShape(t: TestNode, rest: Toks)
    requires t.Simple?
    ensures var core := [Word(KindText(t.kind))] + (AnnotationToks(t) + (ListsToks(Lists(t)) + rest));
            TestToks(t) + rest == if t.negated then [Word("not")] + core else core
  {
    var name, core := [Word(KindText(t.kind))], CoreToks(t);
    Assoc(name, AnnotationToks(t) + ListsToks(Lists(t)), rest);
    Assoc(AnnotationToks(t), ListsToks(Lists(t)), rest);
    Units(core);
    Assoc([Word("not")], core, rest);
  }

  lemma ReadNegatable(t: TestNode, rest: Toks, negDepth: nat)
    requires t.Simple? && WellFormed(t) && !StartsList(rest)
    requires t.negated ==> negDepth == 0
    ensures PTest(TestToks(t) + rest, negDepth) == Ok(t, rest)
  {
    var args := AnnotationToks(t) + (ListsToks(Lists(t)) + rest);
    var plain := t.(negated := false);
    ReadCore(t, rest);
    SimpleToksShape(t, rest);
    if t.negated {
      PlainStep(t.kind, args, plain, rest, 1);
      NotStep([Word(KindText(t.kind))] + args, plain, rest);
    } else {
      PlainStep(t.kind, args, plain, rest, negDepth);
    }
  }

  lemma GroupToksShape(all: bool, children: seq<TestNode>, rest: Toks)
    ensures TestToks(Group(all, children)) + rest ==
            [Word(if all then "allof" else "anyof")] + ([Punct('(')] + (TestsToks(children) + ([Punct(')')] + rest)))
  {
    var word := Word(if all then "allof" else "anyof");
    assert [word] + [Punct('(')] == [word, Punct('(')];
    Assoc4([word, Punct('(')], TestsToks(children), [Punct(')')], rest);
    Assoc(TestsToks(children), [Punct(')')], rest);
    Assoc([word, Punct('(')], TestsToks(children), [Punct(')')] + rest);
    Assoc([word], [Punct('(')], TestsToks(children) + ([Punct(')')] + rest));
  }

  lemma TestsToksCons(ts: seq<TestNode>, rest: Toks)
    requires |ts| > 1
    ensures TestsToks(ts) + rest == TestToks(ts[0]) + ([Punct(',')] + (TestsToks(ts[1..]) + rest))
  {
    Assoc4(TestToks(ts[0]), [Punct(',')], TestsToks(ts[1..]), rest);
  }

  lemma LastTest(ts: Toks, child: TestNode, rest: Toks)
    requires PTest(ts, 0) == Ok(child, rest) && !Next(rest, Punct(','))
    ensures PTests(ts, 0) == Ok([child], rest)
  {}

  lemma TrueStep(rest: Toks, negDepth: nat)
    ensures PTest([Word("true")] + rest, negDepth) == Ok(TrueTest, rest)
  {
    Uncons(Word("true"), rest);
  }

  lemma GroupStep(all: bool, children: seq<TestNode>, inner: Toks, rest: Toks)
    requires PTests(inner, 0) == Ok(children, [Punct(')')] + rest)
    ensures PTest([Word(if all then "allof" else "anyof")] + ([Punct('(')] + inner), 0) ==
            Ok(Group(all, children), rest)
  {
    var word := Word(if all then "allof" else "anyof");
    Uncons(word, [Punct('(')] + inner);
    Uncons(Punct('('), inner);
    Uncons(Punct(')'), rest);
  }

  /** The parser reads every well-formed tree back from its tokens. */
  lemma {:induction false} ReadTest(t: TestNode, rest: Toks, negDepth: nat)
    requires WellFormed(t) && !StartsList(rest)
    requires t.Simple? && t.negated ==> negDepth == 0
    requires t.Group? ==> negDepth == 0
    ensures PTest(TestToks(t) + rest, negDepth) == Ok(t, rest)
    decreases t, 0
  {
    match t
    case TrueTest => TrueStep(rest, negDepth);
    case Simple(_, _, _, _, _, _) => ReadNegatable(t, rest, negDepth);
    case Group(all, children) =>
      var tail := [Punct(')')] + rest;
      Uncons(Punct(')'), rest);
      ReadTests(children, tail);
      GroupStep(all, children, TestsToks(children) + tail, rest);
      GroupToksShape(all, children, rest);
  }

  lemma TestsStep(ts: Toks, child: TestNode, more: Toks, children: seq<TestNode>, rest: Toks)
    requires PTest(ts, 0) == Ok(child, [Punct(',')] + more)
    requires PTests(more, 0) == Ok(children, rest)
    ensures PTests(ts, 0) == Ok([child] + children, rest)
  {
    Uncons(Punct(','), more);
  }

  lemma {:induction false} ReadTests(ts: seq<TestNode>, rest: Toks)
    requires ts != [] && forall t :: t in ts ==> WellFormed(t)
    requires !StartsList(rest) && !Next(rest, Punct(','))
    ensures PTests(TestsToks(ts) + rest, 0) == Ok(ts, rest)
    decreases ts, 1
  {
    HeadTail(ts);
    if |ts| == 1 {
      ReadTest(ts[0], rest, 0);
      LastTest(TestToks(ts[0]) + rest, ts[0], rest);
      Units([ts[0]]);
    } else {
      var more := TestsToks(ts[1..]) + rest;
      Uncons(Punct(','), more);
      ReadTest(ts[0], [Punct(',')] + more, 0);
      ReadTests(ts[1..], rest);
      TestsStep(TestToks(ts[0]) + ([Punct(',')] + more), ts[0], more, ts[1..], rest);
      TestsToksCons(ts, rest);
    }
  }

  // ----- commands -----

  function AnnotToks(annots: seq<string>): Toks {
    if annots == [] then [] else [Annot(annots[0])] + AnnotToks(annots[1..])
  }

  function StringToks(strs: seq<string>): Toks { if strs == [] then [] else ListToks(strs) }

  function CommandToks(c: Command): Toks {
    [Word(c.name)] + (AnnotToks(c.annots) + (StringToks(c.strs) + [Punct(';')]))
  }

  function CommandsToks(cs: seq<Command>): Toks {
    if cs == [] then [] else CommandToks(cs[0]) + CommandsToks(cs[1..])
  }

  lemma ReadStrings(strs: seq<string>, rest: Toks)
    ensures PArgs(StringToks(strs) + ([Punct(';')] + rest)) == Ok(([], strs), rest)
  {
    var ts := [Punct(';')] + rest;
    Uncons(Punct(';'), rest);
    assert PArgs(ts) == Ok(([], []), rest);
    if strs == [] {
      Units(ts);
    } else {
      ReadList(strs, ts);
      Units(strs);
    }
  }

  lemma ArgsStep(annot: string, us: Toks, annots: seq<string>, strs: seq<string>, rest: Toks)
    requires PArgs(us) == Ok((annots, strs), rest)
    ensures PArgs([Annot(annot)] + us) == Ok(([annot] + annots, strs), rest)
  {
    Uncons(Annot(annot), us);
  }

  lemma {:induction false} ReadArgs(annots: seq<string>, strs: seq<string>, rest: Toks)
    ensures PArgs(AnnotToks(annots) + (StringToks(strs) + ([Punct(';')] + rest))) == Ok((annots, strs), rest)
  {
    var args := StringToks(strs) + ([Punct(';')] + rest);
    if annots == [] {
      ReadStrings(strs, rest);
      Units(args);
    } else {
      ReadArgs(annots[1..], strs, rest);
      ArgsStep(annots[0], AnnotToks(annots[1..]) + args, annots[1..], strs, rest);
      Assoc([Annot(annots[0])], AnnotToks(annots[1..]), args);
      HeadTail(annots);
    }
  }

  /** The parser reads every supported command back from its tokens. */
  lemma ReadCommand(c: Command, rest: Toks)
    requires ToAction(c).Some?
    ensures PCommand(CommandToks(c) + rest) == Ok(c, rest)
  {
    var args := AnnotToks(c.annots) + (StringToks(c.strs) + ([Punct(';')] + rest));
    Uncons(Word(c.name), args);
    CommandRest(c, rest);
    ReadArgs(c.annots, c.strs, rest);
  }

  lemma CommandRest(c: Command, rest: Toks)
    ensures CommandToks(c) + rest ==
            [Word(c.name)] + (AnnotToks(c.annots) + (StringToks(c.strs) + ([Punct(';')] + rest)))
  {
    var tail := StringToks(c.strs) + [Punct(';')];
    Assoc([Word(c.name)], AnnotToks(c.annots) + tail, rest);
    Assoc(AnnotToks(c.annots), tail, rest);
    Assoc(StringToks(c.strs), [Punct(';')], rest);
  }

  /** No supported command is named like a branch. */
  lemma CommandsStep(us: Toks, c: Command, mid: Toks, cs: seq<Command>, rest: Toks)
    requires us != [] && us[0] == Word(c.name)
    requires PCommand(us) == Ok(c, mid) && PCommands(mid) == Ok(Block(cs, false), rest)
    ensures PCommands(us) == Ok(Block([c] + cs, false), rest)
  {
    assert Skip(us) == us;
    assert !IsBranchWord(us[0]);
  }

  lemma CommandsEnd(rest: Toks)
    ensures PCommands([Punct('}')] + rest) == Ok(Block([], false), rest)
  {
    Uncons(Punct('}'), rest);
  }

  lemma CommandsToksCons(cs: seq<Command>, rest: Toks)
    requires cs != []
    ensures CommandsToks(cs) + rest == CommandToks(cs[0]) + (CommandsToks(cs[1..]) + rest)
  {
    Assoc(CommandToks(cs[0]), CommandsToks(cs[1..]), rest);
  }

  lemma {:induction false} ReadCommands(cs: seq<Command>, rest: Toks)
    requires Supported(cs)
    ensures PCommands(CommandsToks(cs) + ([Punct('}')] + rest)) == Ok(Block(cs, false), rest)
  {
    var tail := [Punct('}')] + rest;
    if cs == [] {
      CommandsEnd(rest);
      Units(tail);
    } else {
      var c, mid := cs[0], CommandsToks(cs[1..]) + tail;
      HeadTail(cs);
      ReadCommand(c, mid);
      ReadCommands(cs[1..], rest);
      CommandRest(c, mid);
      CommandsStep(CommandToks(c) + mid, c, mid, cs[1..], rest);
      CommandsToksCons(cs, tail);
    }
  }

  // ----- statements -----

  function StmtToks(s: Stmt): Toks {
    match s
    case If(title, test, block) =>
      [Word("if")] + (TestToks(test) + ([Punct('{')] + (CommandsToks(block) + [Punct('}')])))
    case Bare(c) => CommandToks(c)
  }

  lemma ReadBlock(block: seq<Command>, rest: Toks)
    requires Supported(block)
    ensures PBlock([Punct('{')] + (CommandsToks(block) + ([Punct('}')] + rest))) == Ok(Block(block, false), rest)
  {
    Uncons(Punct('{'), CommandsToks(block) + ([Punct('}')] + rest));
    ReadCommands(block, rest);
  }

  predicate NoBranch(ts: Toks) {
    Skip(ts) == [] || (Skip(ts)[0] != Word("elsif") && Skip(ts)[0] != Word("else"))
  }

  lemma IfStep(ts: Toks, test: TestNode, mid: Toks, block: seq<Command>, rest: Toks)
    requires Skip(ts) != [] && Skip(ts)[0].Word?
    requires PTest(ts, 0) == Ok(test, mid) && PBlock(mid) == Ok(Block(block, false), rest) && NoBranch(rest)
    ensures PIf(ts) == Ok((test, block), rest)
  {}

  lemma {:induction false} TestToksHead(t: TestNode)
    ensures TestToks(t) != [] && TestToks(t)[0].Word?
  {}

  lemma IfToksShape(test: TestNode, block: seq<Command>, rest: Toks)
    ensures StmtToks(If("", test, block)) + rest ==
            [Word("if")] + (TestToks(test) + ([Punct('{')] + (CommandsToks(block) + ([Punct('}')] + rest))))
  {
    var body := CommandsToks(block) + [Punct('}')];
    Assoc([Word("if")], TestToks(test) + ([Punct('{')] + body), rest);
    Assoc(TestToks(test), [Punct('{')] + body, rest);
    Assoc([Punct('{')], body, rest);
    Assoc(CommandsToks(block), [Punct('}')], rest);
  }

  lemma ReadIf(test: TestNode, block: seq<Command>, rest: Toks)
    requires WellFormed(test) && Supported(block) && NoBranch(rest)
    ensures PIf(TestToks(test) + ([Punct('{')] + (CommandsToks(block) + ([Punct('}')] + rest)))) ==
            Ok((test, block), rest)
  {
    var mid := [Punct('{')] + (CommandsToks(block) + ([Punct('}')] + rest));
    assert Skip(mid) == mid && mid[0] == Punct('{');
    ReadTest(test, mid, 0);
    ReadBlock(block, rest);
    TestToksHead(test);
    IfStep(TestToks(test) + mid, test, mid, block, rest);
  }
}
