/** From syntax back to rules: flattening of tests, rule names, and the whole import. */
module SieveFlatten {
  import opened Wrappers
  import opened SieveText
  import opened SieveModel
  import opened SieveLexer
  import opened SieveParser

  datatype Flat = Flat(join: JoinKind, conds: seq<Condition>)

  const TRUE_CONDITION := Condition(True, Whole, Is, false, "", "")

  function PerValue(base: Condition, values: seq<string>): seq<Condition> {
    if values == [] then [] else [base.(value := values[0])] + PerValue(base, values[1..])
  }

  /** `simpleToConditions`: one condition per value; an exists test has none and gives one. */
  function SimpleToConditions(s: TestNode): seq<Condition>
    requires s.Simple?
  {
    var base := Condition(s.kind, s.part, s.op, s.negated, Join(s.headers, ","), "");
    PerValue(base, if s.kind == Exists then [""] else s.values)
  }

  /** `flattenTest`. */
  function FlattenTest(t: TestNode): Option<Flat>
    decreases t, 0
  {
    match t
    case TrueTest => Some(Flat(AllOf, [TRUE_CONDITION]))
    case Simple(_, _, _, _, _, _) =>
      var conds := SimpleToConditions(t);
      Some(Flat(if |conds| > 1 then AnyOf else AllOf, conds))
    case Group(all, children) =>
      match FlattenChildren(all, |children| == 1, children)
      case Some(conds) => Some(Flat(if all then AllOf else AnyOf, conds))
      case None => None
  }

  /** What one flattened child adds to the list of its group, if that is allowed. */
  function Contribution(all: bool, alone: bool, f: Flat): Option<seq<Condition>> {
    if |f.conds| > 1 && f.join == AllOf then None
    else if !all then (if f.join == AllOf || alone then Some(f.conds) else None)
    else if |f.conds| != 1 then None
    else Some(f.conds)
  }

  function FlattenChildren(all: bool, alone: bool, children: seq<TestNode>): Option<seq<Condition>>
    decreases children, 1
  {
    if children == [] then Some([])
    else
      var f := FlattenTest(children[0]);
      if f.None? then None
      else
        var own := Contribution(all, alone, f.value);
        if own.None? then None
        else match FlattenChildren(all, alone, children[1..])
          case Some(rest) => Some(own.value + rest)
          case None => None
  }

  /** The name in a rule comment: an optional bracket, then everything up to a closing bracket. */
  function NameAfter(s: string): Option<string> {
    var sp := Run(s, IsSpace);
    var body := s[sp..];
    var inner := if body != "" && body[0] == '[' then body[1..] else body;
    if Run(inner, NotBracket) > 0 then Some(inner[..Run(inner, NotBracket)])
    else if inner != body then Some("[")
    else if sp > 0 then Some(s[sp - 1..sp])
    else None
  }

  predicate NotBracket(c: char) { c != ']' }

  /** The first place in a comment where a rule name matches, in any letter case. */
  function NameMatch(s: string): Option<string> {
    if |s| < 5 then None
    else if Lower(s[..5]) == "rule:" && NameAfter(s[5..]).Some? then NameAfter(s[5..])
    else NameMatch(s[1..])
  }

  function Decimal(n: nat): string {
    (if n < 10 then "" else Decimal(n / 10)) + [('0' as int + n % 10) as char]
  }

  /** The name of the rule read after `before` other rules. */
  function RuleName(title: string, before: nat): string {
    match NameMatch(title)
    case Some(n) => Trim(n)
    case None => "Rule " + Decimal(before + 1)
  }

  const UNCONDITIONAL := "Unconditional actions"

  /** The rule a statement becomes. The reader only builds statements whose commands are supported. */
  function ToRule(s: Stmt, before: nat): Option<Rule> {
    match s
    case Bare(c) =>
      (match ToAction(c)
       case Some(a) => Some(Rule(UNCONDITIONAL, true, AllOf, [], [a]))
       case None => None)
    case If(title, test, block) =>
      if !Supported(block) then None
      else match FlattenTest(test)
        case Some(flat) => Some(Rule(RuleName(title, before), true, flat.join, flat.conds, ToActions(block)))
        case None => None
  }

  function ToRules(ss: seq<Stmt>, before: nat): Option<seq<Rule>> {
    if ss == [] then Some([])
    else match ToRule(ss[0], before)
      case None => None
      case Some(r) =>
        match ToRules(ss[1..], before + 1) case None => None case Some(rs) => Some([r] + rs)
  }

  /** White space, the word `if` in any letter case, and white space. */
  predicate StartsWithIf(s: string) {
    var t := s[Run(s, IsSpace)..];
    |t| >= 3 && Lower(t[..2]) == "if" && IsSpace(t[2])
  }

  predicate HasIfLine(s: string) {
    StartsWithIf(s) || exists k :: 0 <= k < |s| && s[k] == '\n' && StartsWithIf(s[k + 1..])
  }

  function ParseTokens(ts: Toks): Option<seq<Rule>> {
    match ReadScript(ts, "") case None => None case Some(ss) => ToRules(ss, 0)
  }

  /** `sieveToRules`: None sends the caller back to plain text. */
  function Import(src: string): Option<seq<Rule>> {
    match Lex(src)
    case None => None
    case Some(ts) =>
      if ts == [] then None
      else match ParseTokens(ts)
        case None => None
        case Some(rules) => if rules == [] && HasIfLine(src) then None else Some(rules)
  }
}
