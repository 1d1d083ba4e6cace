/** Printing a rule list and importing the text: the result, for every list with one-line names. */
module SieveRoundTrip {
  import opened Wrappers
  import opened Seqs
  import opened SieveText
  import opened SieveModel
  import opened SievePrinter
  import opened SieveLexer
  import opened SieveLexing
  import opened SieveParser
  import opened SieveSyntax
  import opened SieveFlatten
  import opened SieveCompile
  import opened SieveReimport

  // ----- statements back to rules -----

  function Chain(a: Option<seq<Rule>>, b: Option<seq<Rule>>): Option<seq<Rule>> {
    if a.None? || b.None? then None else Some(a.value + b.value)
  }

  function One(r: Option<Rule>): Option<seq<Rule>> { if r.None? then None else Some([r.value]) }

  lemma ChainAssoc(a: Option<seq<Rule>>, b: Option<seq<Rule>>, c: Option<seq<Rule>>)
    ensures Chain(a, Chain(b, c)) == Chain(Chain(a, b), c)
  {
    if a.Some? && b.Some? && c.Some? { Assoc(a.value, b.value, c.value); }
  }

  lemma ChainNothing(a: Option<seq<Rule>>)
    ensures Chain(Some([]), a) == a
  {
    if a.Some? { Units(a.value); }
  }

  lemma ToRulesJoined(a: seq<Stmt>, b: seq<Stmt>, n: nat, k: nat)
    requires a != [] && ToRules(a[1..] + b, n + 1) == Chain(ToRules(a[1..], n + 1), ToRules(b, k))
    ensures ToRules(a + b, n) == Chain(ToRules(a, n), ToRules(b, k))
  {
    TailOfConcat(a, b);
    ChainAssoc(One(ToRule(a[0], n)), ToRules(a[1..], n + 1), ToRules(b, k));
  }

  lemma ToRulesNothing(b: seq<Stmt>, n: nat)
    ensures ToRules([] + b, n) == Chain(ToRules([], n), ToRules(b, n))
  {
    Units(b);
    ChainNothing(ToRules(b, n));
  }

  lemma {:induction false} ToRulesConcat(a: seq<Stmt>, b: seq<Stmt>, n: nat, k: nat)
    requires k == n + |a|
    ensures ToRules(a + b, n) == Chain(ToRules(a, n), ToRules(b, k))
    decreases |a|
  {
    if a == [] {
      ToRulesNothing(b, n);
    } else {
      ToRulesConcat(a[1..], b, n + 1, k);
      ToRulesJoined(a, b, n, k);
    }
  }

  lemma {:induction false} BareToRules(cs: seq<Command>, n: nat)
    requires Supported(cs)
    ensures ToRules(BareStmts(cs), n) == Some(Unconditional(ToActions(cs)))
  {
    if cs != [] {
      assert cs[0] in cs;
      BareToRules(cs[1..], n + 1);
      assert BareStmts(cs)[1..] == BareStmts(cs[1..]);
    }
  }

  lemma OneStmt(s: Stmt, n: nat)
    ensures ToRules([s], n) == match ToRule(s, n) case None => None case Some(r) => Some([r])
  {
    assert [s][1..] == [] && ToRules([], n + 1) == Some([]);
    if ToRule(s, n).Some? { Units([ToRule(s, n).value]); }
  }

  lemma StmtOfIf(r: Rule, n: nat)
    requires Printable(r) && Rereadable(r) && r.conditions != []
    ensures var s := If(RuleTitle(r.name), TestOf(r), BodyOf(r.actions));
            ToRule(s, n) == Some(RereadRule(r)[0])
  {
    BodyToActions(r.actions);
    FlattenPrinted(r);
    NameOfTitle(r.name, n);
  }

  lemma StmtsOfRule(r: Rule, n: nat)
    requires Rereadable(r)
    ensures ToRules(RuleStmts(r), n) == Some(RereadRule(r))
  {
    if Printable(r) {
      if r.conditions == [] {
        TopLevelToActions(r.actions);
        BareToRules(TopLevel(r.actions), n);
      } else {
        StmtOfIf(r, n);
        OneStmt(RuleStmts(r)[0], n);
      }
    }
  }

  lemma {:induction false} StmtsToRules(rules: seq<Rule>, n: nat)
    ensures RereadRules(rules) == if Stmts(rules).None? then None else ToRules(Stmts(rules).value, n)
  {
    if rules != [] && Rereadable(rules[0]) {
      var own := RuleStmts(rules[0]);
      StmtsOfRule(rules[0], n);
      var k := n + |own|;
      StmtsToRules(rules[1..], k);
      if Stmts(rules[1..]).Some? {
        ToRulesConcat(own, Stmts(rules[1..]).value, n, k);
      }
    }
  }

  // ----- the whole token list -----

  lemma NoteStep(text: string, rest: Toks)
    requires !IsRuleComment(text)
    ensures ReadScript([Comment(text)] + rest, "") == ReadScript(rest, "")
  {
    CommentStep(text, rest, "");
  }

  lemma NotesAreNoTitles()
    ensures !IsRuleComment(BANNER_NOTE) && !IsRuleComment(NO_RULES_NOTE)
  {
    assert BANNER_NOTE[0] != "rule:"[0] && NO_RULES_NOTE[0] != "rule:"[0];
  }

  lemma RequireShape(names: seq<string>, rest: Toks)
    requires names != []
    ensures [Word("require"), Punct('[')] + ItemToks(names) + [Punct(']'), Punct(';')] + rest
         == [Word("require")] + ([Punct('[')] + (ItemToks(names) + ([Punct(']')] + ([Punct(';')] + rest))))
  {
    var items := ItemToks(names);
    assert [Word("require")] + [Punct('[')] == [Word("require"), Punct('[')];
    assert [Punct(']')] + [Punct(';')] == [Punct(']'), Punct(';')];
    Assoc([Word("require"), Punct('[')] + items, [Punct(']'), Punct(';')], rest);
    Assoc([Word("require"), Punct('[')], items, [Punct(']'), Punct(';')] + rest);
    Assoc([Word("require")], [Punct('[')], items + ([Punct(']'), Punct(';')] + rest));
    Assoc([Punct(']')], [Punct(';')], rest);
  }

  lemma RequireStep(req: set<string>, rest: Toks)
    ensures ReadScript(RequireToks(req) + rest, "") == ReadScript(rest, "")
  {
    var names := Ordered(ORDER, req);
    if names == [] {
      Units(rest);
    } else {
      var semi := [Punct(';')] + rest;
      var list := [Punct('[')] + (ItemToks(names) + ([Punct(']')] + semi));
      RequireShape(names, rest);
      Uncons(Word("require"), list);
      ReadItems(names, semi);
      Uncons(Punct('['), ItemToks(names) + ([Punct(']')] + semi));
      assert PList(list) == Ok(names, semi);
      Uncons(Punct(';'), rest);
    }
  }

  lemma ReadPrinted(rules: seq<Rule>)
    ensures ReadScript(ScriptToks(rules), "") == Stmts(Enabled(rules))
  {
    var enabled := Enabled(rules);
    var tail := if enabled == [] then [NO_RULES_TOK] else RulesToks(enabled);
    NotesAreNoTitles();
    Assoc([BANNER_TOK], RequireToks(NeedsOf(enabled)), tail);
    NoteStep(BANNER_NOTE, RequireToks(NeedsOf(enabled)) + tail);
    RequireStep(NeedsOf(enabled), tail);
    if enabled == [] {
      NoteStep(NO_RULES_NOTE, []);
      Units([NO_RULES_TOK]);
    } else {
      ReadRules(enabled, "");
    }
  }

  // ----- a script without rules has no `if` line -----

  ghost predicate QuietBefore(s: string, rest: string) { HasIfLine(s + rest) ==> HasIfLine(rest) }

  /** Text that adds no `if` line in front of anything. */
  ghost predicate Quiet(s: string) { forall rest: string {:trigger QuietBefore(s, rest)} :: QuietBefore(s, rest) }

  lemma QuietConcat(a: string, b: string)
    requires Quiet(a) && Quiet(b)
    ensures Quiet(a + b)
  {
    forall rest: string ensures QuietBefore(a + b, rest) {
      assert QuietBefore(a, b + rest) && QuietBefore(b, rest);
      Assoc(a, b, rest);
    }
  }

  lemma LineStart(x: string, rest: string)
    requires '\n' !in x
    requires x == "" || (!IsSpace(x[0]) && LowerChar(x[0]) != 'i')
    ensures StartsWithIf(x + "\n" + rest) ==> StartsWithIf(rest)
  {
    var s := x + "\n" + rest;
    if x == "" {
      assert s[1..] == rest;
      assert s[Run(s, IsSpace)..] == rest[Run(rest, IsSpace)..];
    } else {
      assert s[0] == x[0] && s[0..] == s && Run(s, IsSpace) == 0;
    }
  }

  lemma Suffix(head: string, rest: string, n: nat)
    requires n <= |rest|
    ensures (head + rest)[|head| + n..] == rest[n..]
  {}

  /** After a text whose only line break ends it, an `if` line starts in `rest`. */
  lemma QuietIndex(head: string, rest: string, k: nat)
    requires head != "" && '\n' !in head[..|head| - 1]
    requires k < |head + rest| && (head + rest)[k] == '\n' && StartsWithIf((head + rest)[k + 1..])
    ensures k + 1 >= |head| && (k + 1 == |head| ==> StartsWithIf(rest))
    ensures k + 1 > |head| ==> HasIfLine(rest)
  {
    assert forall j :: 0 <= j < |head| - 1 ==> (head + rest)[j] == head[..|head| - 1][j];
    var n := k + 1 - |head|;
    Suffix(head, rest, n);
    if n > 0 { assert rest[n - 1] == (head + rest)[k]; }
  }

  lemma QuietLine(x: string)
    requires '\n' !in x
    requires x == "" || (!IsSpace(x[0]) && LowerChar(x[0]) != 'i')
    ensures Quiet(x + "\n")
  {
    var head := x + "\n";
    assert head[..|head| - 1] == x;
    forall rest: string ensures QuietBefore(head, rest) {
      LineStart(x, rest);
      if k :| 0 <= k < |head + rest| && (head + rest)[k] == '\n' && StartsWithIf((head + rest)[k + 1..]) {
        QuietIndex(head, rest, k);
      }
    }
  }

  lemma QuietNothing()
    ensures Quiet("")
  {
    forall rest: string ensures QuietBefore("", rest) {
      Units(rest);
    }
  }

  lemma QuietNote(text: string)
    requires '\n' !in text
    ensures Quiet(Note(text))
  {
    QuietLine("#" + (" " + text));
  }

  lemma {:induction false} QuietItems(names: seq<string>)
    requires forall k :: 0 <= k < |names| ==> PlainName(names[k])
    ensures '\n' !in Join(QuotePlain(names), ",")
  {
    if names != [] {
      QuietItems(names[1..]);
      assert '\n' !in names[0];
      if |names| > 1 { assert QuotePlain(names)[1..] == QuotePlain(names[1..]); }
    }
  }

  lemma QuietRequire(req: set<string>)
    ensures Quiet(RequireText(req))
  {
    var names := Ordered(ORDER, req);
    OrderedPlain(ORDER, req);
    QuietItems(names);
    QuietNothing();
    if names != [] {
      var items := Join(QuotePlain(names), ",");
      var line := "require [" + items + "];";
      assert line[0] == 'r';
      assert '\n' !in line;
      assert line + "\n" == RequireText(req) by { assert "];" + "\n" == "];\n"; }
      QuietLine(line);
    }
  }

  lemma {:induction false} QuietRules(rules: seq<Rule>)
    requires OneLineNames(rules) && forall r :: r in rules ==> !Printable(r)
    ensures Quiet(RuleTexts(rules))
  {
    if rules == [] {
      QuietNothing();
    } else {
      var front, last := rules[..|rules| - 1], rules[|rules| - 1];
      FrontLast(rules);
      QuietRules(front);
      QuietNote(RuleTitle(last.name));
      Units(RuleComment(last.name));
      QuietConcat(RuleTexts(front), RuleText(last));
    }
  }

  lemma QuietPreamble(rules: seq<Rule>)
    ensures Quiet(Preamble(rules))
  {
    BannerIsOneLine();
    QuietNote(BANNER_NOTE);
    QuietRequire(NeedsOf(Enabled(rules)));
    QuietLine("");
    assert "" + "\n" == "\n";
    QuietConcat(BANNER, RequireText(NeedsOf(Enabled(rules))));
    QuietConcat(BANNER + RequireText(NeedsOf(Enabled(rules))), "\n");
  }

  lemma {:induction false} NothingReread(rules: seq<Rule>)
    requires RereadRules(rules) == Some([])
    ensures forall r :: r in rules ==> !Printable(r)
  {
    if rules != [] {
      var r := rules[0];
      assert RereadRule(r) == [];
      NothingReread(rules[1..]);
    }
  }

  lemma QuietScript(rules: seq<Rule>)
    requires OneLineNames(Enabled(rules)) && RereadRules(Enabled(rules)) == Some([])
    ensures !HasIfLine(PrintScript(rules))
  {
    NothingReread(Enabled(rules));
    QuietPreamble(rules);
    QuietTail(Enabled(rules));
    QuietConcat(Preamble(rules), if Enabled(rules) == [] then NO_RULES else RuleTexts(Enabled(rules)));
    QuietWhole(PrintScript(rules));
  }

  lemma QuietTail(enabled: seq<Rule>)
    requires OneLineNames(enabled) && forall r :: r in enabled ==> !Printable(r)
    ensures Quiet(if enabled == [] then NO_RULES else RuleTexts(enabled))
  {
    if enabled == [] {
      NoRulesIsOneLine();
      QuietNote(NO_RULES_NOTE);
    } else {
      QuietRules(enabled);
    }
  }

  lemma NoRulesIsOneLine()
    ensures '\n' !in NO_RULES_NOTE
  {}

  lemma QuietWhole(s: string)
    requires Quiet(s)
    ensures !HasIfLine(s)
  {
    assert QuietBefore(s, "");
    Units(s);
    assert !HasIfLine("");
  }

  /**
   The round trip of the rule builder, for every rule list whose enabled rules have one-line names:
   importing the printed text gives exactly the re-read rules, and fails exactly when
   a printed rule has a negated constant test.
   */
  lemma ImportOfPrint(rules: seq<Rule>)
    requires OneLineNames(Enabled(rules))
    ensures Import(PrintScript(rules)) == RereadRules(Enabled(rules))
  {
    PrintedTokens(rules);
    ReadPrinted(rules);
    StmtsToRules(Enabled(rules), 0);
    if RereadRules(Enabled(rules)) == Some([]) { QuietScript(rules); }
  }
}
