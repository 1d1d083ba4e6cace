/** Rules to script: the text that `rulesToSieve` produces, and the loop that produces it. */
module SievePrinter {
  import opened Wrappers
  import opened SieveText
  import opened SieveModel

  function Quote(s: string): string { "\"" + Esc(s) + "\"" }

  function QuoteAll(items: seq<string>): seq<string> {
    if items == [] then [] else [Quote(items[0])] + QuoteAll(items[1..])
  }

  function QuoteListOrOne(items: seq<string>): string {
    if |items| == 1 then Quote(items[0]) else "[" + Join(QuoteAll(items), ",") + "]"
  }

  /** The test of a condition before `not`; None when a header or exists condition names no header. */
  function CoreText(c: Condition): Option<string> {
    var headers := SplitList(c.header);
    match c.test
    case True => Some("true")
    case Exists => if headers == [] then None else Some("exists " + QuoteListOrOne(headers))
    case Address =>
      var part := if c.part == Whole then "" else ":" + PartText(c.part) + " ";
      var names := if headers == [] then "" else QuoteListOrOne(headers) + " ";
      Some("address " + part + (":" + OpText(c.op) + " ") + names + Quote(c.value))
    case Header =>
      if headers == [] then None
      else Some("header " + (":" + OpText(c.op) + " ") + (QuoteListOrOne(headers) + " ") + Quote(c.value))
  }

  function ConditionText(c: Condition): Option<string> {
    match CoreText(c)
    case None => None
    case Some(core) => Some(if c.negated then "not " + core else core)
  }

  function ActionText(a: Action): Option<string> {
    match a
    case FileInto(mailbox, copy) =>
      var boxes := SplitList(mailbox);
      if boxes == [] then None
      else Some("fileinto " + (if copy then ":copy " else "") + QuoteListOrOne(boxes))
    case Redirect(address) => if address == "" then None else Some("redirect " + Quote(address))
    case Reject(text) => Some("reject " + Quote(if text == "" then "Rejected" else text))
    case Discard => Some("discard")
    case Keep => Some("keep")
    case Stop => Some("stop")
    case Flag(kind, flag) =>
      var flags := SplitList(flag);
      if flags == [] then None else Some(FlagText(kind) + " " + QuoteListOrOne(flags))
  }

  function Line(text: string): string { "  " + text + ";\n" }

  function ActionLines(actions: seq<Action>): string {
    if actions == [] then ""
    else
      var last := actions[|actions| - 1];
      ActionLines(actions[..|actions| - 1]) + (if ActionText(last).Some? then Line(ActionText(last).value) else "")
  }

  function BodyText(actions: seq<Action>): string {
    ActionLines(actions) + if AddsStop(actions) then Line("stop") else ""
  }

  predicate Printable(r: Rule) { forall c :: c in r.conditions ==> ConditionText(c).Some? }

  function ConditionTexts(conditions: seq<Condition>): seq<string>
    requires forall c :: c in conditions ==> ConditionText(c).Some?
  {
    if conditions == [] then [] else [ConditionText(conditions[0]).value] + ConditionTexts(conditions[1..])
  }

  function ExprText(r: Rule): string
    requires Printable(r) && r.conditions != []
  {
    var tests := ConditionTexts(r.conditions);
    if |r.conditions| == 1 then tests[0] else JoinText(r.join) + " (" + Join(tests, ", ") + ")"
  }

  function RuleTitle(name: string): string { "rule:[" + name + "]" }

  function RuleComment(name: string): string { Note(RuleTitle(name)) }

  function RuleText(r: Rule): string {
    RuleComment(r.name) +
    if !Printable(r) then ""
    else
      var body := BodyText(r.actions);
      if r.conditions == [] then (if body == "" then Line("keep") else body)
      else "if " + ExprText(r) + " " + ("{\n" + body + "}") + "\n\n"
  }

  function RuleTexts(rules: seq<Rule>): string {
    if rules == [] then "" else RuleTexts(rules[..|rules| - 1]) + RuleText(rules[|rules| - 1])
  }

  /** The extensions one action asks for, whether or not the action itself is printed. */
  function Needs(a: Action): set<string> {
    match a
    case FileInto(_, copy) => if copy then {"fileinto", "copy"} else {"fileinto"}
    case Reject(_) => {"reject"}
    case Flag(_, _) => {"imap4flags"}
    case _ => {}
  }

  function NeedsAll(actions: seq<Action>): set<string> {
    set a, e | a in actions && e in Needs(a) :: e
  }

  function NeedsOf(rules: seq<Rule>): set<string> {
    set r, e | r in rules && e in NeedsAll(r.actions) :: e
  }

  const ORDER := ["fileinto", "imap4flags", "copy", "reject"]

  function Ordered(names: seq<string>, req: set<string>): seq<string> {
    if names == [] then [] else (if names[0] in req then [names[0]] else []) + Ordered(names[1..], req)
  }

  function QuotePlain(items: seq<string>): seq<string> {
    if items == [] then [] else ["\"" + items[0] + "\""] + QuotePlain(items[1..])
  }

  function RequireText(req: set<string>): string {
    var names := Ordered(ORDER, req);
    if names == [] then "" else "require [" + Join(QuotePlain(names), ",") + "];\n"
  }

  const BANNER_NOTE := "Generated by e2Mail Sieve Rule Builder"
  const NO_RULES_NOTE := "No rules defined"
  const BANNER := Note(BANNER_NOTE)
  const NO_RULES := Note(NO_RULES_NOTE)

  function Note(text: string): string { "#" + (" " + text) + "\n" }

  function Preamble(rules: seq<Rule>): string { BANNER + RequireText(NeedsOf(Enabled(rules))) + "\n" }

  /** `rulesToSieve` as a function. */
  function PrintScript(rules: seq<Rule>): string {
    Preamble(rules) + if Enabled(rules) == [] then NO_RULES else RuleTexts(Enabled(rules))
  }

  lemma NeedsSnoc(rules: seq<Rule>, i: nat)
    requires i < |rules|
    ensures NeedsOf(rules[..i + 1]) == NeedsOf(rules[..i]) + NeedsAll(rules[i].actions)
  {
    assert rules[..i + 1] == rules[..i] + [rules[i]];
  }

  lemma NeedsAllSnoc(actions: seq<Action>, j: nat)
    requires j < |actions|
    ensures NeedsAll(actions[..j + 1]) == NeedsAll(actions[..j]) + Needs(actions[j])
  {
    assert actions[..j + 1] == actions[..j] + [actions[j]];
  }

  method CollectNeeds(enabled: seq<Rule>) returns (req: set<string>)
    ensures req == NeedsOf(enabled)
  {
    req := {};
    for i := 0 to |enabled|
      invariant req == NeedsOf(enabled[..i])
    {
      var actions := enabled[i].actions;
      for j := 0 to |actions|
        invariant req == NeedsOf(enabled[..i]) + NeedsAll(actions[..j])
      {
        NeedsAllSnoc(actions, j);
        req := req + Needs(actions[j]);
      }
      assert actions[..|actions|] == actions;
      NeedsSnoc(enabled, i);
    }
    assert enabled[..|enabled|] == enabled;
  }

  method RulesToSieve(rules: seq<Rule>) returns (out: string)
    ensures out == PrintScript(rules)
  {
    var enabled := Enabled(rules);
    var req := CollectNeeds(enabled);
    out := BANNER + RequireText(req) + "\n";
    if |enabled| == 0 {
      out := out + NO_RULES;
    } else {
      out := AppendRules(out, enabled);
    }
  }

  lemma RuleTextsSnoc(preamble: string, rules: seq<Rule>, i: nat)
    requires i < |rules|
    ensures preamble + RuleTexts(rules[..i + 1]) == preamble + RuleTexts(rules[..i]) + RuleText(rules[i])
  {
    assert rules[..i + 1][..i] == rules[..i];
    var done, text := RuleTexts(rules[..i]), RuleText(rules[i]);
    assert preamble + (done + text) == preamble + done + text;
  }

  method AppendRules(preamble: string, enabled: seq<Rule>) returns (out: string)
    ensures out == preamble + RuleTexts(enabled)
  {
    out := preamble;
    for i := 0 to |enabled|
      invariant out == preamble + RuleTexts(enabled[..i])
    {
      var text := PrintRule(enabled[i]);
      RuleTextsSnoc(preamble, enabled, i);
      out := out + text;
    }
    assert enabled[..|enabled|] == enabled;
  }

  method PrintRule(rule: Rule) returns (out: string)
    ensures out == RuleText(rule)
  {
    out := RuleComment(rule.name);
    if Printable(rule) {
      var body := PrintBody(rule.actions);
      if rule.conditions == [] {
        out := out + (if body == "" then Line("keep") else body);
      } else {
        out := out + ("if " + ExprText(rule) + " " + ("{\n" + body + "}") + "\n\n");
      }
    }
  }

  method PrintBody(actions: seq<Action>) returns (body: string)
    ensures body == BodyText(actions)
  {
    body := "";
    for i := 0 to |actions|
      invariant body == ActionLines(actions[..i])
    {
      assert actions[..i + 1][..i] == actions[..i];
      var s := ActionText(actions[i]);
      if s.Some? { body := body + Line(s.value); }
    }
    assert actions[..|actions|] == actions;
    if AddsStop(actions) { body := body + Line("stop"); }
  }
}
