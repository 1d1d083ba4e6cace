/** The parser object: a token list, a position and an error flag, moved step by step. */
module SieveParserClass {
  import opened Wrappers
  import opened Seqs
  import opened SieveModel
  import opened SieveLexer
  import opened SieveParser
  import opened SieveFlatten

  /** How a parsing method must end when its meaning is `spec`. */
  ghost predicate Ends<T>(spec: Res<T>, r: Option<T>, rest: Toks, error: bool, before: bool) {
    match spec
    case Ok(v, us) => r == Some(v) && rest == us && error == before
    case Fail => r == None && error
    case Cut => r == None && error == before
  }

  class Parser {
    const toks: Toks
    var i: nat
    var error: bool

    constructor (toks: Toks)
      ensures this.toks == toks && Rest() == toks && !error
    {
      this.toks, i, error := toks, 0, false;
    }

    ghost function Rest(): Toks
      reads this
    {
      if i <= |toks| then toks[i..] else []
    }

    /** The position of the next token that is not a comment. */
    method SkipComments() returns (j: nat)
      ensures j >= i && (j < |toks| <==> Skip(Rest()) != [])
      ensures j < |toks| ==> toks[j..] == Skip(Rest())
    {
      j := i;
      while j < |toks| && toks[j].Comment?
        invariant i <= j
        invariant j <= |toks| ==> Skip(toks[j..]) == Skip(Rest())
        invariant j > |toks| ==> Rest() == []
      {
        assert toks[j..][1..] == toks[j + 1..];
        j := j + 1;
      }
    }

    method Peek() returns (t: Option<Tok>)
      ensures t == if Skip(Rest()) == [] then None else Some(Skip(Rest())[0])
    {
      var j := SkipComments();
      t := if j < |toks| then Some(toks[j]) else None;
    }

    method Next() returns (t: Option<Tok>)
      modifies this`i
      ensures t == if Skip(old(Rest())) == [] then None else Some(Skip(old(Rest()))[0])
      ensures Rest() == if Skip(old(Rest())) == [] then [] else After(old(Rest()))
    {
      var j := SkipComments();
      t := if j < |toks| then Some(toks[j]) else None;
      assert j < |toks| ==> toks[j..][1..] == toks[j + 1..];
      i := j + 1;
    }

    method ExpectPunct(p: char) returns (ok: bool)
      modifies this
      ensures ok == SieveParser.Next(old(Rest()), Punct(p))
      ensures ok ==> Rest() == After(old(Rest())) && error == old(error)
      ensures !ok ==> error
    {
      var t := Peek();
      if t == Some(Punct(p)) {
        var _ := Next();
        return true;
      }
      error := true;
      return false;
    }

    method ParseStringList() returns (r: Option<seq<string>>)
      modifies this
      ensures Ends(PList(old(Rest())), r, Rest(), error, old(error))
    {
      var t := Peek();
      if t.None? {
        error := true;
        return None;
      }
      if t.value.Quoted? {
        var _ := Next();
        return Some([t.value.text]);
      }
      if t.value == Punct('[') {
        var _ := Next();
        r := ParseItems();
        return;
      }
      error := true;
      return None;
    }

    /** The loop over the items of a bracketed list. */
    method ParseItems() returns (r: Option<seq<string>>)
      modifies this
      ensures Ends(PItems(old(Rest())), r, Rest(), error, old(error))
    {
      var items: seq<string> := [];
      AfterNone(PItems(Rest()));
      while true
        invariant error == old(error)
        invariant PItems(old(Rest())) == AfterAll(items, PItems(Rest()))
        decreases |Rest()|
      {
        AfterItem(items, Rest());
        var it := Peek();
        if it.Some? && it.value.Quoted? {
          items := items + [it.value.text];
          var _ := Next();
        } else {
          error := true;
          return None;
        }
        var sep := Peek();
        if sep == Some(Punct(',')) {
          var _ := Next();
          continue;
        }
        if sep == Some(Punct(']')) {
          var _ := Next();
          return Some(items);
        }
        error := true;
        return None;
      }
    }

    method ParseTestAnnotations() returns (r: Option<(Op, Part)>)
      modifies this
      ensures Ends(PAnnots(old(Rest()), None, Whole), r, Rest(), error, old(error))
    {
      var op: Option<Op>, part := None, Whole;
      while true
        invariant error == old(error)
        invariant PAnnots(Rest(), op, part) == PAnnots(old(Rest()), None, Whole)
        decreases |Rest()|
      {
        var t := Peek();
        if t.None? || !t.value.Annot? {
          break;
        }
        var _ := Next();
        var a := t.value.text;
        if OpOf(a).Some? {
          if op.Some? && op != OpOf(a) {
            error := true;
            return None;
          }
          op := OpOf(a);
        } else if PartOf(a).Some? {
          if part != Whole {
            error := true;
            return None;
          }
          part := PartOf(a).value;
        } else if a == ":comparator" {
          var s := Peek();
          if s.Some? && s.value.Quoted? {
            var _ := Next();
          }
        } else {
          error := true;
          return None;
        }
      }
      return Some((if op.None? then Is else op.value, part));
    }

    method ParseLists() returns (r: Option<seq<seq<string>>>)
      modifies this
      ensures Ends(PLists(old(Rest())), r, Rest(), error, old(error))
    {
      var lists: seq<seq<string>> := [];
      AfterNone(PLists(Rest()));
      while true
        invariant error == old(error)
        invariant PLists(old(Rest())) == AfterAll(lists, PLists(Rest()))
        decreases |Rest()|
      {
        var p := Peek();
        if p.Some? && (p.value.Quoted? || p.value == Punct('[')) {
          var s := ParseStringList();
          if s.None? { return None; }
          AfterOne(lists, s.value, PLists(Rest()));
          lists := lists + [s.value];
        } else {
          break;
        }
      }
      Units(lists);
      return Some(lists);
    }

    method ParseSimpleTest(kind: TestKind) returns (r: Option<TestNode>)
      requires kind != True && Skip(Rest()) != []
      modifies this
      ensures Ends(PSimple(kind, After(old(Rest()))), r, Rest(), error, old(error))
    {
      var _ := Next();
      var annots := ParseTestAnnotations();
      if annots.None? { return None; }
      var lists := ParseLists();
      if lists.None? { return None; }
      var args := Arguments(kind, lists.value);
      if args.None? {
        error := true;
        return None;
      }
      var part := if kind == Address then annots.value.1 else Whole;
      return Some(Simple(kind, part, annots.value.0, false, args.value.0, args.value.1));
    }

    method ParseTest(negDepth: nat) returns (r: Option<TestNode>)
      modifies this
      ensures Ends(PTest(old(Rest()), negDepth), r, Rest(), error, old(error))
      decreases |Rest()|, 0
    {
      var t := Peek();
      if t.None? {
        error := true;
        return None;
      }
      if t.value == Punct('(') {
        var _ := Next();
        var inner := ParseTest(negDepth);
        if inner.None? { return None; }
        var ok := ExpectPunct(')');
        return if ok then inner else None;
      }
      if !t.value.Word? {
        error := true;
        return None;
      }
      var word := t.value.text;
      if word == "true" {
        var _ := Next();
        return Some(TrueTest);
      }
      if KindOf(word).Some? {
        r := ParseSimpleTest(KindOf(word).value);
        return;
      }
      if word != "allof" && word != "anyof" && word != "not" {
        error := true;
        return None;
      }
      var _ := Next();
      if word == "not" {
        if negDepth > 0 {
          error := true;
          return None;
        }
        var child := ParseTest(negDepth + 1);
        if child.None? || !child.value.Simple? {
          error := true;
          return None;
        }
        return Some(child.value.(negated := true));
      }
      var open := ExpectPunct('(');
      if !open { return None; }
      var children := ParseChildren(negDepth);
      if children.None? { return None; }
      var closed := ExpectPunct(')');
      return if closed then Some(Group(word == "allof", children.value)) else None;
    }

    /** The loop over the members of a group. */
    method ParseChildren(negDepth: nat) returns (r: Option<seq<TestNode>>)
      modifies this
      ensures Ends(PTests(old(Rest()), negDepth), r, Rest(), error, old(error))
      decreases |Rest()|, 1
    {
      var children: seq<TestNode> := [];
      ghost var start := Rest();
      AfterNone(PTests(start, negDepth));
      while true
        invariant error == old(error) && |Rest()| <= |start|
        invariant PTests(start, negDepth) == AfterAll(children, PTests(Rest(), negDepth))
        decreases |Rest()|
      {
        var child := ParseTest(negDepth);
        if child.None? { return None; }
        var sep := Peek();
        if sep == Some(Punct(',')) {
          var _ := Next();
          AfterOne(children, child.value, PTests(Rest(), negDepth));
        }
        children := children + [child.value];
        if sep != Some(Punct(',')) {
          return Some(children);
        }
      }
    }

    method ParseTestEntry() returns (r: Option<TestNode>)
      modifies this
      ensures Ends(PTestEntry(old(Rest())), r, Rest(), error, old(error))
    {
      var t := Peek();
      if t.None? || !t.value.Word? {
        error := true;
        return None;
      }
      r := ParseTest(0);
    }

    /** `parseCommand`: the ghost result is the command as written, the real one the action it becomes. */
    method ParseCommand() returns (r: Option<Action>, ghost raw: Option<Command>)
      modifies this
      ensures Ends(PCommand(old(Rest())), raw, Rest(), error, old(error))
      ensures r == if raw.Some? then ToAction(raw.value) else None
    {
      raw := None;
      ghost var start := Rest();
      var nameTok := Next();
      if nameTok.None? || !nameTok.value.Word? {
        error := true;
        return None, None;
      }
      var args := ParseArgs();
      if args.None? { return None, None; }
      var cmd := Command(nameTok.value.text, args.value.0, args.value.1);
      r := ToAction(cmd);
      if r.None? {
        error := true;
      } else {
        raw := Some(cmd);
      }
    }

    /** The loop over the arguments of a command. */
    method ParseArgs() returns (r: Option<(seq<string>, seq<string>)>)
      modifies this
      ensures Ends(PArgs(old(Rest())), r, Rest(), error, old(error))
    {
      var annots: seq<string>, strs: seq<string> := [], [];
      WithNoArgs(PArgs(Rest()));
      while true
        invariant error == old(error)
        invariant PArgs(old(Rest())) == WithArgs(annots, strs, PArgs(Rest()))
        decreases |Rest()|
      {
        ghost var ts := Rest();
        var t := Peek();
        if t.None? {
          error := true;
          return None;
        }
        if t.value.Annot? {
          ArgsAnnot(annots, strs, ts);
          var _ := Next();
          annots := annots + [t.value.text];
        } else if t.value.Quoted? || t.value == Punct('[') {
          ArgsList(annots, strs, ts);
          var s := ParseStringList();
          if s.None? { return None; }
          strs := strs + s.value;
        } else if t.value == Punct(';') {
          ArgsEnd(annots, strs, ts);
          var _ := Next();
          return Some((annots, strs));
        } else {
          error := true;
          return None;
        }
      }
    }

    /** `parseBlock`: actions up to the closing brace, or up to a nested branch. */
    method ParseBlock() returns (r: Option<(seq<Action>, bool)>, ghost raw: Option<Block>)
      modifies this
      ensures Ends(PBlock(old(Rest())), raw, Rest(), error, old(error))
      ensures raw.None? ==> r.None?
      ensures raw.Some? ==>
              Supported(raw.value.commands) && r == Some((ToActions(raw.value.commands), raw.value.nested))
    {
      var open := ExpectPunct('{');
      if !open { return None, None; }
      r, raw := ParseActions();
    }

    /** The loop over the commands of a block. */
    method ParseActions() returns (r: Option<(seq<Action>, bool)>, ghost raw: Option<Block>)
      modifies this
      ensures Ends(PCommands(old(Rest())), raw, Rest(), error, old(error))
      ensures raw.None? ==> r.None?
      ensures raw.Some? ==>
              Supported(raw.value.commands) && r == Some((ToActions(raw.value.commands), raw.value.nested))
    {
      r, raw := None, None;
      var actions: seq<Action> := [];
      ghost var cmds: seq<Command> := [];
      ghost var start := Rest();
      WithNoCommands(PCommands(start));
      while true
        invariant error == old(error) && |Rest()| <= |start|
        invariant Supported(cmds) && actions == ToActions(cmds)
        invariant r.None? && raw.None?
        invariant PCommands(start) == WithCommands(cmds, PCommands(Rest()))
        decreases |Rest()|
      {
        var t := Peek();
        if t.None? { return; }
        if t.value == Punct('}') {
          var _ := Next();
          assert cmds + [] == cmds;
          return Some((actions, false)), Some(Block(cmds, false));
        }
        if IsBranchWord(t.value) {
          assert cmds + [] == cmds;
          return Some((actions, true)), Some(Block(cmds, true));
        }
        if !t.value.Word? {
          error := true;
          return;
        }
        assert PCommand(Skip(Rest())) == PCommand(Rest());
        var cmd, command := ParseCommand();
        if cmd.None? { return; }
        ToActionsSnoc(cmds, command.value);
        WithCommandsSnoc(cmds, command.value, PCommands(Rest()));
        actions, cmds := actions + [cmd.value], cmds + [command.value];
      }
    }

    /** The body of an `if` after its keyword, up to the conversion of the test. */
    method ParseIf() returns (test: Option<TestNode>, actions: seq<Action>, ghost raw: Option<(TestNode, seq<Command>)>)
      modifies this
      ensures Ends(PIf(old(Rest())), raw, Rest(), error, old(error))
      ensures test.Some? == raw.Some?
      ensures raw.Some? ==> Supported(raw.value.1) && test.value == raw.value.0 && actions == ToActions(raw.value.1)
    {
      test, actions, raw := None, [], None;
      var expr := ParseTestEntry();
      if expr.None? { return; }
      var blk, block := ParseBlock();
      if blk.None? { return; }
      var after := Peek();
      if after == Some(Word("elsif")) || after == Some(Word("else")) || blk.value.1 {
        error := true;
        return;
      }
      return expr, blk.value.0, Some((expr.value, block.value.commands));
    }

    /** An `if` from its keyword, made into a rule. */
    method ParseIfRule(title: string, before: nat) returns (rule: Option<Rule>, ghost raw: Option<Stmt>)
      requires Skip(Rest()) != [] && !error
      modifies this
      ensures match PIf(After(old(Rest())))
              case Ok((test, block), rest) =>
                raw == Some(If(title, test, block)) && Rest() == rest &&
                rule == ToRule(raw.value, before) && error == rule.None?
              case Fail => raw == None && rule == None && error
              case Cut => raw == None && rule == None && !error
    {
      var name := RuleName(title, before);
      var _ := Next();
      var test, actions, cmds := ParseIf();
      if test.None? { return None, None; }
      raw := Some(If(title, test.value, cmds.value.1));
      var flat := FlattenTest(test.value);
      if flat.None? {
        error := true;
        return None, raw;
      }
      rule := Some(Rule(name, true, flat.value.join, flat.value.conds, actions));
    }

    /** A `require` from its keyword to its optional semicolon. */
    method ParseRequire() returns (ok: bool)
      requires Skip(Rest()) != []
      modifies this
      ensures match PList(After(old(Rest())))
              case Ok(_, rest) => ok && Rest() == SkipSemicolon(rest) && error == old(error)
              case _ => !ok && error
    {
      var _ := Next();
      var strs := ParseStringList();
      if strs.None? { return false; }
      var semi := Peek();
      if semi == Some(Punct(';')) {
        var _ := Next();
      }
      return true;
    }

    /** A command outside of blocks, made into a rule without conditions. */
    method ParseBareRule(before: nat) returns (rule: Option<Rule>, ghost raw: Option<Stmt>)
      requires Skip(Rest()) != [] && Skip(Rest())[0].Word? && !error
      modifies this
      ensures match PCommand(Skip(old(Rest())))
              case Ok(c, rest) => raw == Some(Bare(c)) && Rest() == rest && rule.Some? &&
                rule == ToRule(raw.value, before) && !error
              case _ => rule == None && error
    {
      assert PCommand(Skip(Rest())) == PCommand(Rest());
      var cmd, command := ParseCommand();
      if cmd.None? { return None, None; }
      return Some(Rule(UNCONDITIONAL, true, AllOf, [], [cmd.value])), Some(Bare(command.value));
    }

    /** `parse`: the main loop; None when an error was met. */
    method Parse() returns (r: Option<seq<Rule>>)
      requires !error
      modifies this
      ensures r == match ReadScript(old(Rest()), "") case None => None case Some(ss) => ToRules(ss, 0)
    {
      var rules: seq<Rule>, lastComment, more := [], "", true;
      ghost var result := Remaining(rules, ReadScript(Rest(), ""));
      RemainingFromStart(ReadScript(Rest(), ""));
      while i < |toks| && more
        invariant if more then !error && result == Remaining(rules, ReadScript(Rest(), lastComment))
                  else result == if error then None else Some(rules)
        decreases more, |Rest()|
      {
        more, lastComment, rules := ParseNext(lastComment, rules);
      }
      AtEnd(rules, Rest(), lastComment);
      return if error then None else Some(rules);
    }

    /** One turn of the main loop; `more` tells whether there is another. */
    method ParseNext(title: string, before: seq<Rule>) returns (more: bool, lastComment: string, rules: seq<Rule>)
      requires i < |toks| && !error
      modifies this
      ensures more ==> !error && |Rest()| < |old(Rest())|
      ensures more ==>
              Remaining(before, ReadScript(old(Rest()), title)) == Remaining(rules, ReadScript(Rest(), lastComment))
      ensures !more ==> Remaining(before, ReadScript(old(Rest()), title)) == if error then None else Some(rules)
    {
      more, lastComment, rules := false, title, before;
      ghost var ts := Rest();
      AtEnd(rules, ts, title);
      var t := Peek();
      if t.None? { return; }
      var rawAt := toks[i];
      HeadIsAt();
      if rawAt.Comment? {
        AtComment(rules, ts, title);
        i := i + 1;
        if IsRuleComment(rawAt.text) { lastComment := rawAt.text; }
        more := true;
      } else if t == Some(Word("require")) {
        AtRequire(rules, ts, title);
        more := ParseRequire();
      } else if t.value.Word? {
        ghost var result;
        var rule;
        result, rule := ParseStatement(title, before);
        if rule.None? { return; }
        if t == Some(Word("if")) { lastComment := ""; }
        more, rules := true, rules + [rule.value];
      } else {
        error := true;
      }
    }

    lemma HeadIsAt()
      requires i < |toks|
      ensures Rest() != [] && Rest()[0] == toks[i] && Rest()[1..] == toks[i + 1..]
    {}

    /** An `if` or a command, made into a rule; `more` is what the rest of the script adds. */
    method ParseStatement(title: string, rules: seq<Rule>) returns (ghost more: Option<seq<Rule>>, rule: Option<Rule>)
      requires !error && Rest() != [] && Rest()[0].Word? && Rest()[0] != Word("require")
      modifies this
      ensures more == Remaining(rules, ReadScript(old(Rest()), title))
      ensures rule.Some? ==> !error && |Rest()| < |old(Rest())|
      ensures rule.Some? ==>
              more == Remaining(rules + [rule.value],
                ReadScript(Rest(), if old(Rest())[0] == Word("if") then "" else title))
      ensures rule.None? ==> more == if error then None else Some(rules)
    {
      ghost var ts := Rest();
      more := Remaining(rules, ReadScript(ts, title));
      var t := Peek();
      ghost var raw;
      if t == Some(Word("if")) {
        AtIf(rules, ts, title);
        rule, raw := ParseIfRule(title, |rules|);
      } else {
        AtCommand(rules, ts, title);
        rule, raw := ParseBareRule(|rules|);
      }
    }
  }

  /** A list whose first members have already been read. */
  ghost function AfterAll<T>(done: seq<T>, r: Res<seq<T>>): Res<seq<T>> {
    match r
    case Ok(more, rest) => Ok(done + more, rest)
    case Fail => Fail
    case Cut => Cut
  }

  lemma AfterNone<T>(r: Res<seq<T>>)
    ensures AfterAll([], r) == r
  {
    if r.Ok? { Units(r.value); }
  }

  lemma AfterOne<T>(done: seq<T>, x: T, r: Res<seq<T>>)
    ensures AfterAll(done, AfterAll([x], r)) == AfterAll(done + [x], r)
  {
    if r.Ok? { Assoc(done, [x], r.value); }
  }

  lemma AfterItem(done: seq<string>, ts: Toks)
    ensures var us := Skip(ts);
            AfterAll(done, PItems(ts)) ==
            if us == [] || !us[0].Quoted? then Fail
            else if SieveParser.Next(us[1..], Punct(',')) then AfterAll(done + [us[0].text], PItems(After(us[1..])))
            else if SieveParser.Next(us[1..], Punct(']')) then Ok(done + [us[0].text], After(us[1..]))
            else Fail
  {
    var us := Skip(ts);
    if us != [] && us[0].Quoted? && SieveParser.Next(us[1..], Punct(',')) {
      AfterOne(done, us[0].text, PItems(After(us[1..])));
    }
  }

  type Args = (seq<string>, seq<string>)

  /** Arguments of which the first have already been read. */
  ghost function WithArgs(annots: seq<string>, strs: seq<string>, r: Res<Args>): Res<Args> {
    match r
    case Ok(more, rest) => Ok((annots + more.0, strs + more.1), rest)
    case _ => Fail
  }

  lemma WithNoArgs(r: Res<Args>)
    requires !r.Cut?
    ensures WithArgs([], [], r) == r
  {
    if r.Ok? {
      assert [] + r.value.0 == r.value.0 && [] + r.value.1 == r.value.1;
    }
  }

  lemma ArgsAnnot(annots: seq<string>, strs: seq<string>, ts: Toks)
    requires Skip(ts) != [] && Skip(ts)[0].Annot?
    ensures WithArgs(annots, strs, PArgs(ts)) == WithArgs(annots + [Skip(ts)[0].text], strs, PArgs(After(ts)))
  {
    match PArgs(After(ts))
    case Ok(more, _) => Assoc(annots, [Skip(ts)[0].text], more.0);
    case _ =>
  }

  lemma ArgsList(annots: seq<string>, strs: seq<string>, ts: Toks)
    requires StartsList(Skip(ts))
    ensures WithArgs(annots, strs, PArgs(ts)) ==
            match PList(ts) case Ok(l, rest) => WithArgs(annots, strs + l, PArgs(rest)) case _ => Fail
  {
    assert PList(Skip(ts)) == PList(ts);
    if PList(ts).Ok? && PArgs(PList(ts).rest).Ok? {
      Assoc(strs, PList(ts).value, PArgs(PList(ts).rest).value.1);
    }
  }

  lemma ArgsEnd(annots: seq<string>, strs: seq<string>, ts: Toks)
    requires Skip(ts) != [] && Skip(ts)[0] == Punct(';')
    ensures WithArgs(annots, strs, PArgs(ts)) == Ok((annots, strs), After(ts))
  {
    assert annots + [] == annots && strs + [] == strs;
  }

  /** A block whose first commands have already been read. */
  ghost function WithCommands(cmds: seq<Command>, r: Res<Block>): Res<Block> {
    match r
    case Ok(b, rest) => Ok(Block(cmds + b.commands, b.nested), rest)
    case Fail => Fail
    case Cut => Cut
  }

  lemma WithNoCommands(r: Res<Block>)
    ensures WithCommands([], r) == r
  {
    if r.Ok? { assert [] + r.value.commands == r.value.commands; }
  }

  lemma WithCommandsSnoc(cmds: seq<Command>, c: Command, r: Res<Block>)
    ensures WithCommands(cmds, WithCommands([c], r)) == WithCommands(cmds + [c], r)
  {
    if r.Ok? { assert cmds + ([c] + r.value.commands) == (cmds + [c]) + r.value.commands; }
  }

  lemma {:induction false} ToActionsSnoc(cs: seq<Command>, c: Command)
    requires Supported(cs) && ToAction(c).Some?
    ensures Supported(cs + [c]) && ToActions(cs + [c]) == ToActions(cs) + [ToAction(c).value]
  {
    if cs == [] {
      assert [] + [c] == [c];
    } else {
      ToActionsSnoc(cs[1..], c);
      assert (cs + [c])[1..] == cs[1..] + [c];
    }
  }

  /** The rules found so far, followed by those of the statements still to come. */
  ghost function Remaining(rules: seq<Rule>, ss: Option<seq<Stmt>>): Option<seq<Rule>>
  {
    if ss.None? then None
    else match ToRules(ss.value, |rules|) case None => None case Some(rs) => Some(rules + rs)
  }

  lemma RemainingFromStart(ss: Option<seq<Stmt>>)
    ensures Remaining([], ss) == if ss.None? then None else ToRules(ss.value, 0)
  {
    if ss.Some? && ToRules(ss.value, 0).Some? { Units(ToRules(ss.value, 0).value); }
  }

  lemma RemainingCons(rules: seq<Rule>, s: Stmt, rest: Option<seq<Stmt>>)
    ensures Remaining(rules, Cons(s, rest)) ==
            if ToRule(s, |rules|).None? then None else Remaining(rules + [ToRule(s, |rules|).value], rest)
  {
    if rest.Some? && ToRule(s, |rules|).Some? {
      assert ([s] + rest.value)[1..] == rest.value;
      var more := ToRules(rest.value, |rules| + 1);
      if more.Some? {
        var r := ToRule(s, |rules|).value;
        assert rules + ([r] + more.value) == (rules + [r]) + more.value;
      }
    }
  }

  // ----- one turn of the main loop -----

  /** The rules found so far, the one of the next statement, and those still to come. */
  ghost function Extended(rules: seq<Rule>, s: Stmt, rest: Option<seq<Stmt>>): Option<seq<Rule>> {
    match ToRule(s, |rules|)
    case None => None
    case Some(rule) => Remaining(rules + [rule], rest)
  }

  lemma AtEnd(rules: seq<Rule>, ts: Toks, title: string)
    ensures Skip(ts) == [] ==> Remaining(rules, ReadScript(ts, title)) == Some(rules)
    ensures Skip(ts) != [] && !ts[0].Comment? && !ts[0].Word? ==> Remaining(rules, ReadScript(ts, title)) == None
  {
    assert rules + [] == rules;
  }

  lemma AtComment(rules: seq<Rule>, ts: Toks, title: string)
    requires Skip(ts) != [] && ts[0].Comment?
    ensures Remaining(rules, ReadScript(ts, title))
         == Remaining(rules, ReadScript(ts[1..], if IsRuleComment(ts[0].text) then ts[0].text else title))
  {}

  ghost function PastRequire(rules: seq<Rule>, r: Res<seq<string>>, title: string): Option<seq<Rule>> {
    match r
    case Ok(_, rest) => Remaining(rules, ReadScript(SkipSemicolon(rest), title))
    case _ => None
  }

  lemma AtRequire(rules: seq<Rule>, ts: Toks, title: string)
    requires ts != [] && ts[0] == Word("require")
    ensures Remaining(rules, ReadScript(ts, title)) == PastRequire(rules, PList(ts[1..]), title)
  {}

  /** After an `if`; a block cut off at the end of the script ends it silently. */
  ghost function PastIf(rules: seq<Rule>, r: Res<(TestNode, seq<Command>)>, title: string): Option<seq<Rule>> {
    match r
    case Ok(parts, rest) => Extended(rules, If(title, parts.0, parts.1), ReadScript(rest, ""))
    case Fail => None
    case Cut => Some(rules)
  }

  lemma AtIf(rules: seq<Rule>, ts: Toks, title: string)
    requires ts != [] && ts[0] == Word("if")
    ensures Remaining(rules, ReadScript(ts, title)) == PastIf(rules, PIf(ts[1..]), title)
  {
    var r := PIf(ts[1..]);
    if r.Ok? { RemainingCons(rules, If(title, r.value.0, r.value.1), ReadScript(r.rest, "")); }
    assert rules + [] == rules;
  }

  ghost function PastCommand(rules: seq<Rule>, r: Res<Command>, title: string): Option<seq<Rule>> {
    match r
    case Ok(c, rest) => Extended(rules, Bare(c), ReadScript(rest, title))
    case _ => None
  }

  lemma AtCommand(rules: seq<Rule>, ts: Toks, title: string)
    requires ts != [] && ts[0].Word? && ts[0] != Word("if") && ts[0] != Word("require")
    ensures Remaining(rules, ReadScript(ts, title)) == PastCommand(rules, PCommand(ts), title)
  {
    var r := PCommand(ts);
    if r.Ok? { RemainingCons(rules, Bare(r.value), ReadScript(r.rest, title)); }
  }

  /** `sieveToRules` as it runs: tokenize, parse, and refuse an empty result for a script that has an `if`. */
  method SieveToRules(sieve: string) returns (r: Option<seq<Rule>>)
    ensures r == Import(sieve)
  {
    var toks := Tokenize(sieve);
    if toks.None? || toks.value == [] { return None; }
    var p := new Parser(toks.value);
    var res := p.Parse();
    if res.None? { return None; }
    if res.value == [] && HasIfLine(sieve) { return None; }
    return res;
  }
}
