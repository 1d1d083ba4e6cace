/**
 Rule names and line breaks: an imported name never has one, so a list whose names are not all one line is never
 re-read as itself; what such a name puts into the script.
 */
module SieveNames {
  import opened Wrappers
  import opened Seqs
  import opened SieveText
  import opened SieveModel
  import opened SievePrinter
  import opened SieveLexer
  import opened SieveLexing
  import opened SieveParser
  import opened SieveFlatten
  import opened SieveCompile
  import opened SieveNormal

  // ----- comments are one line -----

  predicate OneLine(ts: Toks) { forall t :: t in ts && t.Comment? ==> '\n' !in t.text }

  lemma TrimOneLine(s: string)
    requires '\n' !in s
    ensures '\n' !in Trim(s)
  {
    TrimmedEnds(s);
  }

  lemma ScanOneLine(s: string)
    requires s != "" && Scan(s).Read?
    ensures OneLine(Scan(s).toks)
  {
    if s[0] == '#' { TrimOneLine(s[1..Run(s, NotNewline)]); }
  }

  lemma {:induction false} LexOneLine(s: string)
    requires Lex(s).Some?
    ensures OneLine(Lex(s).value)
    decreases |s|
  {
    if s != "" {
      ScanOneLine(s);
      LexOneLine(s[Scan(s).next..]);
    }
  }

  // ----- what a parser leaves is part of what it was given -----

  lemma {:induction false} SkipKeeps(ts: Toks)
    requires OneLine(ts)
    ensures OneLine(Skip(ts)) && (Skip(ts) != [] ==> OneLine(Skip(ts)[1..]))
  {
    if ts != [] && ts[0].Comment? {
      HeadTail(ts);
      SkipKeeps(ts[1..]);
    }
  }

  lemma {:induction false} ItemsKeep(ts: Toks)
    requires OneLine(ts)
    ensures PItems(ts).Ok? ==> OneLine(PItems(ts).rest)
    decreases |ts|
  {
    SkipKeeps(ts);
    var us := Skip(ts);
    if us != [] && us[0].Quoted? {
      SkipKeeps(us[1..]);
      if Next(us[1..], Punct(',')) { ItemsKeep(After(us[1..])); }
    }
  }

  lemma ListKeeps(ts: Toks)
    requires OneLine(ts)
    ensures PList(ts).Ok? ==> OneLine(PList(ts).rest)
  {
    SkipKeeps(ts);
    if Skip(ts) != [] { ItemsKeep(Skip(ts)[1..]); }
  }

  lemma {:induction false} ListsKeep(ts: Toks)
    requires OneLine(ts)
    ensures PLists(ts).Ok? ==> OneLine(PLists(ts).rest)
    decreases |ts|
  {
    ListKeeps(ts);
    if StartsList(ts) && PList(ts).Ok? { ListsKeep(PList(ts).rest); }
  }

  lemma {:induction false} AnnotsKeep(ts: Toks, op: Option<Op>, part: Part)
    requires OneLine(ts)
    ensures PAnnots(ts, op, part).Ok? ==> OneLine(PAnnots(ts, op, part).rest)
    decreases |ts|
  {
    SkipKeeps(ts);
    var us := Skip(ts);
    if us != [] && us[0].Annot? {
      var a, rest := us[0].text, us[1..];
      SkipKeeps(rest);
      if OpOf(a).Some? { AnnotsKeep(rest, OpOf(a), part); }
      else if PartOf(a).Some? { AnnotsKeep(rest, op, PartOf(a).value); }
      else if Skip(rest) != [] && Skip(rest)[0].Quoted? { AnnotsKeep(After(rest), op, part); }
      else { AnnotsKeep(rest, op, part); }
    }
  }

  lemma SimpleKeeps(kind: TestKind, ts: Toks)
    requires kind != True && OneLine(ts)
    ensures PSimple(kind, ts).Ok? ==> OneLine(PSimple(kind, ts).rest)
  {
    AnnotsKeep(ts, None, Whole);
    match PAnnots(ts, None, Whole)
    case Ok(_, rest) => ListsKeep(rest);
    case _ =>
  }

  lemma {:induction false} TestKeeps(ts: Toks, negDepth: nat)
    requires OneLine(ts)
    ensures PTest(ts, negDepth).Ok? ==> OneLine(PTest(ts, negDepth).rest)
    decreases |ts|, 0
  {
    SkipKeeps(ts);
    var us := Skip(ts);
    if us != [] {
      SkipKeeps(us[1..]);
      if us[0] == Punct('(') {
        TestKeeps(us[1..], negDepth);
        match PTest(us[1..], negDepth) case Ok(_, rest) => SkipKeeps(rest); case _ =>
      } else if us[0].Word? {
        if KindOf(us[0].text).Some? {
          SimpleKeeps(KindOf(us[0].text).value, us[1..]);
        } else if us[0].text == "not" {
          TestKeeps(us[1..], negDepth + 1);
        } else if Next(us[1..], Punct('(')) {
          TestsKeep(After(us[1..]), negDepth);
          match PTests(After(us[1..]), negDepth) case Ok(_, rest) => SkipKeeps(rest); case _ =>
        }
      }
    }
  }

  lemma {:induction false} TestsKeep(ts: Toks, negDepth: nat)
    requires OneLine(ts)
    ensures PTests(ts, negDepth).Ok? ==> OneLine(PTests(ts, negDepth).rest)
    decreases |ts|, 1
  {
    TestKeeps(ts, negDepth);
    match PTest(ts, negDepth)
    case Ok(_, rest) =>
      SkipKeeps(rest);
      if Next(rest, Punct(',')) { TestsKeep(After(rest), negDepth); }
    case _ =>
  }

  lemma {:induction false} ArgsKeep(ts: Toks)
    requires OneLine(ts)
    ensures PArgs(ts).Ok? ==> OneLine(PArgs(ts).rest)
    decreases |ts|
  {
    SkipKeeps(ts);
    var us := Skip(ts);
    if us != [] {
      if us[0].Annot? {
        ArgsKeep(us[1..]);
      } else if StartsList(us) && PList(us).Ok? {
        ListKeeps(us);
        ArgsKeep(PList(us).rest);
      }
    }
  }

  lemma CommandKeeps(ts: Toks)
    requires OneLine(ts)
    ensures PCommand(ts).Ok? ==> OneLine(PCommand(ts).rest)
  {
    SkipKeeps(ts);
    if Skip(ts) != [] { ArgsKeep(Skip(ts)[1..]); }
  }

  lemma {:induction false} CommandsKeep(ts: Toks)
    requires OneLine(ts)
    ensures PCommands(ts).Ok? ==> OneLine(PCommands(ts).rest)
    decreases |ts|
  {
    SkipKeeps(ts);
    CommandKeeps(Skip(ts));
    if Skip(ts) != [] && PCommand(Skip(ts)).Ok? { CommandsKeep(PCommand(Skip(ts)).rest); }
  }

  lemma IfKeeps(ts: Toks)
    requires OneLine(ts)
    ensures PIf(ts).Ok? ==> OneLine(PIf(ts).rest)
  {
    TestKeeps(ts, 0);
    match PTestEntry(ts)
    case Ok(_, rest) =>
      SkipKeeps(rest);
      if Next(rest, Punct('{')) { CommandsKeep(After(rest)); }
    case _ =>
  }

  // ----- names come from comments -----

  predicate TitleOneLine(s: Stmt) { s.If? ==> '\n' !in s.title }

  lemma RequireKeeps(ts: Toks)
    requires OneLine(ts)
    ensures PList(ts).Ok? ==> OneLine(SkipSemicolon(PList(ts).rest))
  {
    ListKeeps(ts);
    if PList(ts).Ok? { SkipKeeps(PList(ts).rest); }
  }

  lemma {:induction false} TitlesOneLine(ts: Toks, title: string)
    requires OneLine(ts) && '\n' !in title && ReadScript(ts, title).Some?
    ensures forall s :: s in ReadScript(ts, title).value ==> TitleOneLine(s)
    decreases |ts|
  {
    if Skip(ts) != [] {
      HeadTail(ts);
      match ts[0]
      case Comment(text) => TitlesOneLine(ts[1..], if IsRuleComment(text) then text else title);
      case Word(w) =>
        if w == "require" {
          RequireKeeps(ts[1..]);
          TitlesOneLine(SkipSemicolon(PList(ts[1..]).rest), title);
        } else if w == "if" {
          IfKeeps(ts[1..]);
          if PIf(ts[1..]).Ok? { TitlesOneLine(PIf(ts[1..]).rest, ""); }
        } else {
          CommandKeeps(ts);
          TitlesOneLine(PCommand(ts).rest, title);
        }
    }
  }

  lemma {:induction false} NameMatchOneLine(s: string)
    requires '\n' !in s
    ensures NameMatch(s).Some? ==> '\n' !in NameMatch(s).value
  {
    if |s| >= 5 {
      NameMatchOneLine(s[1..]);
      assert NameAfter(s[5..]).Some? ==> forall c :: c in NameAfter(s[5..]).value ==> c in s || c == '[';
    }
  }

  lemma {:induction false} DecimalOneLine(n: nat)
    ensures '\n' !in Decimal(n)
  {
    if n >= 10 { DecimalOneLine(n / 10); }
  }

  lemma RuleNameOneLine(title: string, before: nat)
    requires '\n' !in title
    ensures '\n' !in RuleName(title, before)
  {
    NameMatchOneLine(title);
    DecimalOneLine(before + 1);
    match NameMatch(title)
    case Some(n) => TrimOneLine(n);
    case None =>
  }

  lemma RuleOneLine(s: Stmt, before: nat)
    requires ToRule(s, before).Some? && TitleOneLine(s)
    ensures '\n' !in ToRule(s, before).value.name
  {
    if s.If? { RuleNameOneLine(s.title, before); }
  }

  lemma OneLineCons(r: Rule, rules: seq<Rule>)
    requires '\n' !in r.name && OneLineNames(rules)
    ensures OneLineNames([r] + rules)
  {}

  lemma {:induction false} RulesOneLine(ss: seq<Stmt>, before: nat)
    requires ToRules(ss, before).Some? && forall s :: s in ss ==> TitleOneLine(s)
    ensures OneLineNames(ToRules(ss, before).value)
  {
    if ss != [] {
      assert ss[0] in ss && forall s :: s in ss[1..] ==> s in ss;
      RulesOneLine(ss[1..], before + 1);
      RuleOneLine(ss[0], before);
      OneLineCons(ToRule(ss[0], before).value, ToRules(ss[1..], before + 1).value);
    }
  }

  /** No imported rule has a name with a line break. */
  lemma ImportedNamesAreOneLine(src: string)
    requires Import(src).Some?
    ensures OneLineNames(Import(src).value)
  {
    LexOneLine(src);
    TitlesOneLine(Lex(src).value, "");
    RulesOneLine(ReadScript(Lex(src).value, "").value, 0);
  }

  lemma {:induction false} NamesWithStops(rules: seq<Rule>)
    ensures OneLineNames(WithStops(rules)) <==> OneLineNames(rules)
  {
    if rules != [] {
      HeadTail(rules);
      NamesWithStops(rules[1..]);
      assert forall r :: r in WithStops(rules) <==> r == WithStop(rules[0]) || r in WithStops(rules[1..]);
    }
  }

  /**
   Print then parse is the identity, up to the explicit stop, exactly on the lists of rules in normal form with
   one-line names, for all lists of enabled rules with a condition.
   */
  lemma PrintParseIdentity(rules: seq<Rule>)
    requires forall r :: r in rules ==> r.enabled && r.conditions != []
    ensures Import(PrintScript(rules)) == Some(WithStops(rules))
            <==> OneLineNames(rules) && forall r :: r in rules ==> NormalRule(r)
  {
    NamesWithStops(rules);
    if OneLineNames(rules) {
      OneLineIdentity(rules);
    } else if Import(PrintScript(rules)) == Some(WithStops(rules)) {
      ImportedNamesAreOneLine(PrintScript(rules));
    }
  }

  // ----- what a line break does -----

  lemma LexWordLine(w: string)
    requires w != "" && IsWordStart(w[0]) && IsLowerName(w)
    ensures Lexes(w + ";\n", [Word(w), Punct(';')], true)
  {
    LexWord(w);
    LexMark(';');
    LexSpace('\n');
    LexConcat(";", [Punct(';')], true, "\n", [], true);
    assert ";" + "\n" == ";\n" && [Punct(';')] + [] == [Punct(';')];
    LexConcat(w, [Word(w)], false, ";\n", [Punct(';')], true);
    assert [Word(w)] + [Punct(';')] == [Word(w), Punct(';')];
  }

  /** The second line of a name is read as part of the script: here a command between two comments. */
  lemma SecondLineIsScript(a: string, w: string, b: string)
    requires '\n' !in a && '\n' !in b && w != "" && IsWordStart(w[0]) && IsLowerName(w)
    ensures Lexes(RuleComment(a + "\n" + w + ";\n#" + b),
                  [Comment(Trim(" rule:[" + a)), Word(w), Punct(';'), Comment(Trim(b + "]"))], true)
  {
    var first, last := " rule:[" + a, b + "]";
    var c1, c2 := [Comment(Trim(first))], [Comment(Trim(last))];
    LexComment(first);
    LexComment(last);
    LexWordLine(w);
    LexConcat(w + ";\n", [Word(w), Punct(';')], true, "#" + last + "\n", c2, true);
    LexConcat("#" + first + "\n", c1, true, (w + ";\n") + ("#" + last + "\n"), [Word(w), Punct(';')] + c2, true);
    assert c1 + ([Word(w), Punct(';')] + c2) == [Comment(Trim(first)), Word(w), Punct(';'), Comment(Trim(last))];
    assert RuleComment(a + "\n" + w + ";\n#" + b) == ("#" + first + "\n") + ((w + ";\n") + ("#" + last + "\n"));
  }
}
