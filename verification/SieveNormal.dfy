/** When the round trip loses nothing: the exact conditions under which an imported list is the printed one. */
module SieveNormal {
  import opened Wrappers
  import opened SieveText
  import opened SieveModel
  import opened SievePrinter
  import opened SieveLexer
  import opened SieveParser
  import opened SieveFlatten
  import opened SieveCompile
  import opened SieveReimport
  import opened SieveRoundTrip

  // ----- normal form, as checks on the fields -----

  predicate NormalName(s: string) {
    s != "" && !IsSpace(s[0]) && !IsSpace(s[|s| - 1]) && ']' !in s
  }

  /** A comma list without empty items and without white space around items. */
  predicate NormalList(s: string) { s == "" || forall p :: p in SplitComma(s) ==> CleanItem(p) }

  predicate NormalCondition(c: Condition) {
    match c.test
    case True => c == TRUE_CONDITION
    case Exists => c.part == Whole && c.op == Is && c.value == "" && c.header != "" && NormalList(c.header)
    case Address => NormalList(c.header)
    case Header => c.part == Whole && c.header != "" && NormalList(c.header)
  }

  predicate OneBackslashAtMost(s: string) { !("\\\\" <= s) }

  predicate NormalAction(a: Action) {
    match a
    case FileInto(mailbox, _) => mailbox != "" && NormalList(mailbox)
    case Redirect(address) => address != ""
    case Reject(text) => text != ""
    case Flag(_, flag) => flag != "" && NormalList(flag) && forall f :: f in SplitComma(flag) ==> OneBackslashAtMost(f)
    case _ => true
  }

  predicate NormalRule(r: Rule) {
    && NormalName(r.name)
    && (|r.conditions| == 1 ==> r.join == AllOf)
    && (forall c :: c in r.conditions ==> NormalCondition(c))
    && (forall a :: a in r.actions ==> NormalAction(a))
  }

  /** The stop that printing makes explicit. */
  function WithStop(r: Rule): Rule { r.(actions := r.actions + if AddsStop(r.actions) then [Stop] else []) }

  function WithStops(rules: seq<Rule>): seq<Rule> {
    if rules == [] then [] else [WithStop(rules[0])] + WithStops(rules[1..])
  }

  // ----- lists -----

  lemma {:induction false} JoinSplitComma(s: string)
    ensures Join(SplitComma(s), ",") == s
  {
    if s != "" {
      var rest := SplitComma(s[1..]);
      JoinSplitComma(s[1..]);
      assert s == [s[0]] + s[1..];
      if s[0] == ',' {
        assert ([""] + rest)[1..] == rest;
      } else if |rest| > 1 {
        assert ([[s[0]] + rest[0]] + rest[1..])[1..] == rest[1..];
      }
    }
  }

  lemma {:induction false} SplitOfJoined(items: seq<string>)
    requires items != [] && forall p :: p in items ==> ',' !in p
    ensures SplitComma(Join(items, ",")) == items
  {
    assert items[0] in items;
    SplitCommaPlain(items[0], Join(items[1..], ","));
    if |items| == 1 {
      assert items == [items[0]];
    } else {
      assert forall p :: p in items[1..] ==> p in items;
      SplitOfJoined(items[1..]);
      assert items == [items[0]] + items[1..];
    }
  }

  lemma {:induction false} CleanStays(items: seq<string>)
    requires forall p :: p in items ==> CleanItem(p)
    ensures TrimNonEmpty(items) == items
  {
    if items != [] {
      assert items[0] in items && forall p :: p in items[1..] ==> p in items;
      assert Trim(items[0]) == items[0];
      CleanStays(items[1..]);
      assert [items[0]] + items[1..] == items;
    }
  }

  lemma NormalListItems(s: string)
    requires NormalList(s) && s != ""
    ensures SplitList(s) == SplitComma(s)
  {
    CleanStays(SplitComma(s));
  }

  /** Splitting a list and joining it again changes nothing exactly when it is normal. */
  lemma RelistNormal(s: string)
    ensures Relist(s) == s <==> NormalList(s)
  {
    if NormalList(s) {
      if s == "" {
        assert SplitList("") == [] by { assert SplitComma("")[1..] == []; }
      } else {
        NormalListItems(s);
        JoinSplitComma(s);
      }
    } else if Relist(s) == s {
      SplitListClean(s);
      SplitOfJoined(SplitList(s));
      assert false;
    }
  }

  // ----- names -----

  lemma {:induction false} RunAll(s: string)
    ensures Run(s, NotBracket) == |s| <==> ']' !in s
  {
    if s != "" { RunAll(s[1..]); }
  }

  lemma RereadNameNormal(name: string)
    ensures RereadName(name) == name <==> NormalName(name)
  {
    var k := Run(name, NotBracket);
    RunAll(name);
    if NormalName(name) {
      assert name[..k] == name;
      assert Trim(name) == name;
    } else if RereadName(name) == name {
      TrimmedEnds(name[..k]);
      if k > 0 { TrimShorter(name[..k]); }
      assert false;
    }
  }

  lemma TrimShorter(s: string)
    ensures |Trim(s)| <= |s|
  {}

  // ----- conditions -----

  lemma RereadConditionNormal(c: Condition)
    ensures (ConditionText(c).Some? && !NotTrue(c) && RereadCondition(c) == c) <==> NormalCondition(c)
  {
    RelistNormal(c.header);
    if NormalList(c.header) && c.header != "" {
      NormalListItems(c.header);
    }
    if c.header == "" { assert SplitList("") == [] by { assert SplitComma("")[1..] == []; } }
  }

  lemma {:induction false} RereadConditionsNormal(cs: seq<Condition>)
    requires forall c :: c in cs ==> ConditionText(c).Some? && !NotTrue(c)
    ensures RereadConditions(cs) == cs <==> forall c :: c in cs ==> NormalCondition(c)
  {
    if cs != [] {
      assert cs == [cs[0]] + cs[1..];
      RereadConditionNormal(cs[0]);
      RereadConditionsNormal(cs[1..]);
      assert RereadConditions(cs)[1..] == RereadConditions(cs[1..]);
      assert RereadConditions(cs)[0] == RereadCondition(cs[0]);
      assert forall c :: c in cs <==> c == cs[0] || c in cs[1..];
    }
  }

  // ----- actions -----

  lemma {:induction false} OneBackslashIdentity(s: string)
    ensures OneBackslash(s) == s <==> OneBackslashAtMost(s)
    ensures |OneBackslash(s)| <= |s|
    ensures OneBackslash(s) == s || |OneBackslash(s)| < |s|
  {
    if |s| > 1 && s[0] == '\\' && s[1] == '\\' {
      OneBackslashIdentity(s[1..]);
      assert s[..2] == "\\\\";
    }
  }

  lemma {:induction false} OneBackslashKeepsClean(s: string)
    requires CleanItem(s)
    ensures CleanItem(OneBackslash(s))
  {
    if |s| > 1 && s[0] == '\\' && s[1] == '\\' {
      OneBackslashKeepsClean(s[1..]);
    }
  }

  lemma {:induction false} OneBackslashEachIdentity(flags: seq<string>)
    requires forall f :: f in flags ==> CleanItem(f)
    ensures OneBackslashEach(flags) == flags <==> forall f :: f in flags ==> OneBackslashAtMost(f)
    ensures forall f :: f in OneBackslashEach(flags) ==> CleanItem(f)
    ensures |OneBackslashEach(flags)| == |flags|
  {
    if flags != [] {
      var rest := flags[1..];
      assert flags == [flags[0]] + rest;
      assert flags[0] in flags && forall f :: f in rest ==> f in flags;
      OneBackslashIdentity(flags[0]);
      OneBackslashKeepsClean(flags[0]);
      OneBackslashEachIdentity(rest);
      assert OneBackslashEach(flags)[1..] == OneBackslashEach(rest) &&
        OneBackslashEach(flags)[0] == OneBackslash(flags[0]);
      assert forall f :: f in flags <==> f == flags[0] || f in rest;
    }
  }

  /** The flags a re-read flag action carries are the printed ones, with leading backslashes collapsed. */
  lemma RereadFlagItems(flag: string)
    ensures SplitList(Join(OneBackslashEach(SplitList(flag)), ",")) == OneBackslashEach(SplitList(flag))
  {
    SplitListClean(flag);
    OneBackslashEachIdentity(SplitList(flag));
    SplitJoin(OneBackslashEach(SplitList(flag)));
  }

  lemma RereadFlagNormal(kind: FlagKind, flag: string)
    ensures (SplitList(flag) != [] && RereadAction(Flag(kind, flag)) == Flag(kind, flag))
            <==> NormalAction(Flag(kind, flag))
  {
    var flags := SplitList(flag);
    SplitListClean(flag);
    OneBackslashEachIdentity(flags);
    RelistNormal(flag);
    if NormalAction(Flag(kind, flag)) {
      NormalListItems(flag);
    } else if flags != [] && RereadAction(Flag(kind, flag)) == Flag(kind, flag) {
      RereadFlagItems(flag);
      assert flags == OneBackslashEach(flags);
      NormalListItems(flag);
      assert false;
    }
  }

  lemma RereadActionNormal(a: Action)
    ensures (CommandOf(a).Some? && RereadAction(a) == a) <==> NormalAction(a)
  {
    match a
    case FileInto(mailbox, copy) =>
      RelistNormal(mailbox);
      if mailbox == "" { assert SplitComma("")[1..] == []; } else if NormalList(mailbox) { NormalListItems(mailbox); }
    case Flag(kind, flag) => RereadFlagNormal(kind, flag);
    case _ =>
  }

  lemma {:induction false} RereadPrintedLength(actions: seq<Action>)
    ensures |RereadPrinted(actions)| <= |actions|
  {
    if actions != [] { RereadPrintedLength(actions[1..]); }
  }

  lemma {:induction false} RereadPrintedNormal(actions: seq<Action>)
    ensures RereadPrinted(actions) == actions <==> forall a :: a in actions ==> NormalAction(a)
  {
    if actions != [] {
      var a, rest := actions[0], actions[1..];
      assert actions == [a] + rest;
      assert forall b :: b in actions <==> b == a || b in rest;
      RereadActionNormal(a);
      RereadPrintedNormal(rest);
      RereadPrintedLength(rest);
      if CommandOf(a).Some? {
        assert RereadPrinted(actions)[0] == RereadAction(a) && RereadPrinted(actions)[1..] == RereadPrinted(rest);
      }
    }
  }

  lemma RereadActionsNormal(actions: seq<Action>)
    ensures RereadActions(actions) == WithStop(Rule("", true, AllOf, [], actions)).actions
            <==> forall a :: a in actions ==> NormalAction(a)
  {
    RereadPrintedNormal(actions);
    var stop := if AddsStop(actions) then [Stop] else [];
    if RereadActions(actions) == actions + stop {
      var n := |RereadPrinted(actions)|;
      assert RereadActions(actions)[..n] == RereadPrinted(actions);
      assert n == |actions|;
      assert (actions + stop)[..n] == actions;
    }
  }

  // ----- rules -----

  lemma RereadRuleNormal(r: Rule)
    requires r.enabled && r.conditions != []
    ensures (Rereadable(r) && RereadRule(r) == [WithStop(r)]) <==> NormalRule(r)
  {
    RereadNameNormal(r.name);
    RereadActionsNormal(r.actions);
    forall c | c in r.conditions
      ensures (ConditionText(c).Some? && !NotTrue(c) && RereadCondition(c) == c) <==> NormalCondition(c)
    {
      RereadConditionNormal(c);
    }
    if Printable(r) && Rereadable(r) { RereadConditionsNormal(r.conditions); }
  }

  lemma {:induction false} RereadLength(rules: seq<Rule>)
    requires forall r :: r in rules ==> r.conditions != []
    ensures RereadRules(rules).Some? ==> |RereadRules(rules).value| <= |rules|
  {
    if rules != [] {
      assert rules[0] in rules && forall r :: r in rules[1..] ==> r in rules;
      RereadLength(rules[1..]);
    }
  }

  lemma {:induction false} EnabledAll(rules: seq<Rule>)
    requires forall r :: r in rules ==> r.enabled
    ensures Enabled(rules) == rules
  {
    if rules != [] {
      assert rules[0] in rules && forall r :: r in rules[1..] ==> r in rules;
      EnabledAll(rules[1..]);
      assert rules == [rules[0]] + rules[1..];
    }
  }

  lemma {:induction false} RereadIdentity(rules: seq<Rule>)
    requires forall r :: r in rules ==> r.enabled && r.conditions != []
    ensures RereadRules(rules) == Some(WithStops(rules)) <==> forall r :: r in rules ==> NormalRule(r)
  {
    if rules != [] {
      var r, rest := rules[0], rules[1..];
      assert rules == [r] + rest && r in rules;
      assert forall x :: x in rules <==> x == r || x in rest;
      RereadRuleNormal(r);
      RereadIdentity(rest);
      RereadLength(rest);
      WithStopsLength(rest);
      if RereadRules(rules) == Some(WithStops(rules)) {
        assert |RereadRule(r)| <= 1;
        assert Printable(r);
        assert WithStops(rules)[0] == WithStop(r) && WithStops(rules)[1..] == WithStops(rest);
        assert RereadRule(r) == [WithStop(r)];
        assert (RereadRule(r) + RereadRules(rest).value)[1..] == RereadRules(rest).value;
      }
    }
  }

  lemma {:induction false} WithStopsLength(rules: seq<Rule>)
    ensures |WithStops(rules)| == |rules|
  {
    if rules != [] { WithStopsLength(rules[1..]); }
  }

  /**
   Print then parse is the identity, up to the explicit stop, exactly on the lists in normal form
   (enabled rules with a condition and a one-line name).
   */
  lemma OneLineIdentity(rules: seq<Rule>)
    requires OneLineNames(rules) && forall r :: r in rules ==> r.enabled && r.conditions != []
    ensures Import(PrintScript(rules)) == Some(WithStops(rules)) <==> forall r :: r in rules ==> NormalRule(r)
  {
    EnabledAll(rules);
    ImportOfPrint(rules);
    RereadIdentity(rules);
  }
}
