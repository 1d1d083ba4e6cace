/** The rule builder's data: conditions, actions and rules. Generated ids are not part of the model. */
module SieveModel {
  datatype TestKind = Header | Address | Exists | True
  datatype Part = Whole | Domain | LocalPart | User
  datatype Op = Contains | Is | Matches
  datatype JoinKind = AllOf | AnyOf
  datatype FlagKind = SetFlag | AddFlag | RemoveFlag

  datatype Condition = Condition(test: TestKind, part: Part, op: Op, negated: bool, header: string, value: string)

  /** An absent optional field of the source is the empty string, or false. */
  datatype Action =
    | FileInto(mailbox: string, copy: bool)
    | Redirect(address: string)
    | Reject(text: string)
    | Discard
    | Keep
    | Stop
    | Flag(kind: FlagKind, flag: string)

  datatype Rule = Rule(name: string, enabled: bool, join: JoinKind, conditions: seq<Condition>, actions: seq<Action>)

  function OpText(op: Op): string {
    match op case Contains => "contains" case Is => "is" case Matches => "matches"
  }

  function PartText(part: Part): string {
    match part case Whole => "" case Domain => "domain" case LocalPart => "localpart" case User => "user"
  }

  function FlagText(kind: FlagKind): string {
    match kind case SetFlag => "setflag" case AddFlag => "addflag" case RemoveFlag => "removeflag"
  }

  function JoinText(join: JoinKind): string {
    match join case AllOf => "allof" case AnyOf => "anyof"
  }

  /** Actions after which the builder ends the rule with a stop. */
  predicate IsTerminal(a: Action) { a.FileInto? || a.Redirect? || a.Discard? || a.Reject? }

  predicate AddsStop(actions: seq<Action>) {
    (exists a :: a in actions && IsTerminal(a)) && Stop !in actions
  }

  function Enabled(rules: seq<Rule>): seq<Rule> {
    if rules == [] then [] else (if rules[0].enabled then [rules[0]] else []) + Enabled(rules[1..])
  }
}
