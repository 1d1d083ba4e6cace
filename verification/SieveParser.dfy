/**
 What the recursive-descent parser accepts, as functions on the tokens still to be read.
 `Cut` is the one result of the source that is neither a value nor an error:
 a block that runs into the end of the tokens.
 */
module SieveParser {
  import opened Wrappers
  import opened SieveText
  import opened SieveModel
  import opened SieveLexer

  datatype TestNode =
    | TrueTest
    | Simple(kind: TestKind, part: Part, op: Op, negated: bool, headers: seq<string>, values: seq<string>)
    | Group(all: bool, children: seq<TestNode>)

  /** A command as written: its name, its annotations and its string arguments. */
  datatype Command = Command(name: string, annots: seq<string>, strs: seq<string>)

  datatype Stmt =
    | If(title: string, test: TestNode, block: seq<Command>)
    | Bare(command: Command)

  datatype Res<+T> = Ok(value: T, rest: Toks) | Fail | Cut

  function Skip(ts: Toks): (r: Toks)
    ensures |r| <= |ts|
    ensures r != [] ==> !r[0].Comment?
    ensures ts != [] && !ts[0].Comment? ==> r == ts
  {
    if ts != [] && ts[0].Comment? then Skip(ts[1..]) else ts
  }

  /** Whether the next token that is not a comment is `t`. */
  predicate Next(ts: Toks, t: Tok) { var us := Skip(ts); us != [] && us[0] == t }

  function After(ts: Toks): (r: Toks)
    requires Skip(ts) != []
    ensures |r| < |ts|
  {
    Skip(ts)[1..]
  }

  predicate StartsList(ts: Toks) {
    var us := Skip(ts);
    us != [] && (us[0].Quoted? || us[0] == Punct('['))
  }

  /** The items after an opening bracket. */
  function PItems(ts: Toks): (r: Res<seq<string>>)
    ensures r.Ok? ==> |r.rest| < |ts| && r.value != []
    ensures !r.Cut?
    decreases |ts|
  {
    var us := Skip(ts);
    if us == [] || !us[0].Quoted? then Fail
    else if Next(us[1..], Punct(',')) then
      match PItems(After(us[1..])) case Ok(items, rest) => Ok([us[0].text] + items, rest) case _ => Fail
    else if Next(us[1..], Punct(']')) then Ok([us[0].text], After(us[1..]))
    else Fail
  }

  function PList(ts: Toks): (r: Res<seq<string>>)
    ensures r.Ok? ==> |r.rest| < |ts| && r.value != []
    ensures !r.Cut?
    ensures r.Ok? ==> StartsList(ts)
  {
    var us := Skip(ts);
    if us == [] then Fail
    else if us[0].Quoted? then Ok([us[0].text], us[1..])
    else if us[0] == Punct('[') then PItems(us[1..])
    else Fail
  }

  function PLists(ts: Toks): (r: Res<seq<seq<string>>>)
    ensures r.Ok? ==> |r.rest| <= |ts| && forall l :: l in r.value ==> l != []
    ensures !r.Cut?
    decreases |ts|
  {
    if !StartsList(ts) then Ok([], ts)
    else match PList(ts)
      case Ok(l, rest) =>
        (match PLists(rest) case Ok(ls, rest') => Ok([l] + ls, rest') case _ => Fail)
      case _ => Fail
  }

  function OpOf(annot: string): Option<Op> {
    if annot == ":is" then Some(Is) else if annot == ":contains" then Some(Contains)
    else if annot == ":matches" then Some(Matches) else None
  }

  function PartOf(annot: string): Option<Part> {
    if annot == ":domain" then Some(Domain) else if annot == ":localpart" then Some(LocalPart)
    else if annot == ":user" then Some(User) else if annot == ":all" then Some(Whole) else None
  }

  /**
   Reads annotations; `op` and `part` are what earlier ones said. A later match type must agree, a later part must not
   exist.
   */
  function PAnnots(ts: Toks, op: Option<Op>, part: Part): (r: Res<(Op, Part)>)
    ensures r.Ok? ==> |r.rest| <= |ts|
    ensures !r.Cut?
    decreases |ts|
  {
    var us := Skip(ts);
    if us == [] || !us[0].Annot? then Ok((if op.None? then Is else op.value, part), ts)
    else
      var a, rest := us[0].text, us[1..];
      if OpOf(a).Some? then
        if op.Some? && op != OpOf(a) then Fail else PAnnots(rest, OpOf(a), part)
      else if PartOf(a).Some? then
        if part != Whole then Fail else PAnnots(rest, op, PartOf(a).value)
      else if a == ":comparator" then
        if Skip(rest) != [] && Skip(rest)[0].Quoted? then PAnnots(After(rest), op, part) else PAnnots(rest, op, part)
      else Fail
  }

  function KindOf(word: string): Option<TestKind> {
    if word == "header" then Some(Header) else if word == "address" then Some(Address)
    else if word == "exists" then Some(Exists) else None
  }

  /** How the argument lists of a test become headers and values. */
  function Arguments(kind: TestKind, lists: seq<seq<string>>): Option<(seq<string>, seq<string>)> {
    match kind
    case Exists => if |lists| == 1 then Some((lists[0], [])) else None
    case Address =>
      if |lists| == 1 then Some(([], lists[0])) else if |lists| == 2 then Some((lists[0], lists[1])) else None
    case _ => if |lists| == 2 then Some((lists[0], lists[1])) else None
  }

  /** A simple test after its name. */
  function PSimple(kind: TestKind, ts: Toks): (r: Res<TestNode>)
    requires kind != True
    ensures r.Ok? ==> |r.rest| <= |ts| && r.value.Simple?
    ensures !r.Cut?
  {
    match PAnnots(ts, None, Whole)
    case Ok((op, part), rest) =>
      (match PLists(rest)
       case Ok(lists, rest') =>
         (match Arguments(kind, lists)
          case Some((headers, values)) =>
            Ok(Simple(kind, if kind == Address then part else Whole, op, false, headers, values), rest')
          case None => Fail)
       case _ => Fail)
    case _ => Fail
  }

  function PTest(ts: Toks, negDepth: nat): (r: Res<TestNode>)
    ensures r.Ok? ==> |r.rest| < |ts|
    ensures !r.Cut?
    decreases |ts|, 0
  {
    var us := Skip(ts);
    if us == [] then Fail
    else if us[0] == Punct('(') then
      match PTest(us[1..], negDepth)
      case Ok(inner, rest) => if Next(rest, Punct(')')) then Ok(inner, After(rest)) else Fail
      case _ => Fail
    else if !us[0].Word? then Fail
    else if us[0].text == "true" then Ok(TrueTest, us[1..])
    else if KindOf(us[0].text).Some? then PSimple(KindOf(us[0].text).value, us[1..])
    else if us[0].text == "not" then
      if negDepth > 0 then Fail
      else match PTest(us[1..], negDepth + 1)
        case Ok(child, rest) => if child.Simple? then Ok(child.(negated := true), rest) else Fail
        case _ => Fail
    else if us[0].text != "allof" && us[0].text != "anyof" then Fail
    else if !Next(us[1..], Punct('(')) then Fail
    else match PTests(After(us[1..]), negDepth)
      case Ok(children, rest) =>
        if Next(rest, Punct(')')) then Ok(Group(us[0].text == "allof", children), After(rest)) else Fail
      case _ => Fail
  }

  /** One or more tests separated by commas. */
  function PTests(ts: Toks, negDepth: nat): (r: Res<seq<TestNode>>)
    ensures r.Ok? ==> |r.rest| < |ts| && r.value != []
    ensures !r.Cut?
    decreases |ts|, 1
  {
    match PTest(ts, negDepth)
    case Ok(child, rest) =>
      if Next(rest, Punct(',')) then
        (match PTests(After(rest), negDepth)
         case Ok(more, rest') => Ok([child] + more, rest')
         case _ => Fail)
      else Ok([child], rest)
    case _ => Fail
  }

  /** The arguments of a command up to its semicolon. */
  function PArgs(ts: Toks): (r: Res<(seq<string>, seq<string>)>)
    ensures r.Ok? ==> |r.rest| < |ts|
    ensures !r.Cut?
    decreases |ts|
  {
    var us := Skip(ts);
    if us == [] then Fail
    else if us[0].Annot? then
      match PArgs(us[1..]) case Ok((annots, strs), rest) => Ok(([us[0].text] + annots, strs), rest) case _ => Fail
    else if StartsList(us) then
      match PList(us)
      case Ok(l, rest) =>
        (match PArgs(rest) case Ok((annots, strs), rest') => Ok((annots, l + strs), rest') case _ => Fail)
      case _ => Fail
    else if us[0] == Punct(';') then Ok(([], []), us[1..])
    else Fail
  }

  /** Leading backslashes of a flag become one. */
  function OneBackslash(s: string): string {
    if |s| > 1 && s[0] == '\\' && s[1] == '\\' then OneBackslash(s[1..]) else s
  }

  function OneBackslashEach(flags: seq<string>): seq<string> {
    if flags == [] then [] else [OneBackslash(flags[0])] + OneBackslashEach(flags[1..])
  }

  function FlagKindOf(name: string): Option<FlagKind> {
    if name == "setflag" then Some(SetFlag) else if name == "addflag" then Some(AddFlag)
    else if name == "removeflag" then Some(RemoveFlag) else None
  }

  /** The action a command stands for; None is an unsupported command. */
  function ToAction(c: Command): Option<Action> {
    if exists a :: a in c.annots && a != ":copy" then None
    else if c.name == "fileinto" then
      if c.strs == [] then None else Some(FileInto(Join(c.strs, ","), ":copy" in c.annots))
    else if c.name == "redirect" then
      if |c.strs| != 1 then None else Some(Redirect(c.strs[0]))
    else if c.name == "reject" || c.name == "ereject" then
      if |c.strs| != 1 then None else Some(Reject(c.strs[0]))
    else if c.name == "discard" then Some(Discard)
    else if c.name == "keep" then Some(Keep)
    else if c.name == "stop" then Some(Stop)
    else if FlagKindOf(c.name).Some? then
      if c.strs == [] then None else Some(Flag(FlagKindOf(c.name).value, Join(OneBackslashEach(c.strs), ",")))
    else None
  }

  predicate Supported(cs: seq<Command>) { forall c :: c in cs ==> ToAction(c).Some? }

  function ToActions(cs: seq<Command>): seq<Action>
    requires Supported(cs)
  {
    if cs == [] then [] else [ToAction(cs[0]).value] + ToActions(cs[1..])
  }

  function PCommand(ts: Toks): (r: Res<Command>)
    ensures r.Ok? ==> |r.rest| < |ts| && ToAction(r.value).Some?
    ensures !r.Cut?
  {
    var us := Skip(ts);
    if us == [] || !us[0].Word? then Fail
    else match PArgs(us[1..])
      case Ok((annots, strs), rest) =>
        var c := Command(us[0].text, annots, strs);
        if ToAction(c).None? then Fail else Ok(c, rest)
      case _ => Fail
  }

  datatype Block = Block(commands: seq<Command>, nested: bool)

  predicate IsBranchWord(t: Tok) { t.Word? && (t.text == "if" || t.text == "elsif" || t.text == "else") }

  /** The commands after an opening brace. */
  function PCommands(ts: Toks): (r: Res<Block>)
    ensures r.Ok? ==> |r.rest| <= |ts| && Supported(r.value.commands)
    decreases |ts|
  {
    var us := Skip(ts);
    if us == [] then Cut
    else if us[0] == Punct('}') then Ok(Block([], false), us[1..])
    else if IsBranchWord(us[0]) then Ok(Block([], true), ts)
    else match PCommand(us)
      case Ok(c, rest) =>
        (match PCommands(rest)
         case Ok(b, rest') => Ok(Block([c] + b.commands, b.nested), rest')
         case Fail => Fail
         case Cut => Cut)
      case _ => Fail
  }

  function PBlock(ts: Toks): (r: Res<Block>)
    ensures r.Ok? ==> |r.rest| < |ts| && Supported(r.value.commands)
  {
    if Next(ts, Punct('{')) then PCommands(After(ts)) else Fail
  }

  function PTestEntry(ts: Toks): (r: Res<TestNode>)
    ensures r.Ok? ==> |r.rest| < |ts|
    ensures !r.Cut?
  {
    if Skip(ts) == [] || !Skip(ts)[0].Word? then Fail else PTest(ts, 0)
  }

  predicate IsRuleComment(text: string) { "rule:" <= text }

  /** An optional semicolon after `require`. */
  function SkipSemicolon(ts: Toks): (r: Toks)
    ensures |r| <= |ts|
  {
    if Next(ts, Punct(';')) then After(ts) else ts
  }

  /** An `if` after its keyword: the statement without its title, or the reason to stop. */
  function PIf(ts: Toks): (r: Res<(TestNode, seq<Command>)>)
    ensures r.Ok? ==> |r.rest| < |ts| && Supported(r.value.1)
  {
    match PTestEntry(ts)
    case Ok(test, rest) =>
      (match PBlock(rest)
       case Ok(b, rest') =>
         if (Skip(rest') != [] && (Skip(rest')[0] == Word("elsif") || Skip(rest')[0] == Word("else"))) || b.nested
           then Fail
         else Ok((test, b.commands), rest')
       case Fail => Fail
       case Cut => Cut)
    case _ => Fail
  }

  function Cons(s: Stmt, rest: Option<seq<Stmt>>): Option<seq<Stmt>> {
    match rest case None => None case Some(ss) => Some([s] + ss)
  }

  /** The statements of a script; `title` is the last rule comment seen. None is an error. */
  function ReadScript(ts: Toks, title: string): Option<seq<Stmt>>
    decreases |ts|
  {
    if Skip(ts) == [] then Some([])
    else match ts[0]
      case Comment(text) => ReadScript(ts[1..], if IsRuleComment(text) then text else title)
      case Word(w) =>
        if w == "require" then
          (match PList(ts[1..]) case Ok(_, rest) => ReadScript(SkipSemicolon(rest), title) case _ => None)
        else if w == "if" then
          (match PIf(ts[1..])
           case Ok((test, block), rest) => Cons(If(title, test, block), ReadScript(rest, ""))
           case Fail => None
           case Cut => Some([]))
        else
          (match PCommand(ts) case Ok(c, rest) => Cons(Bare(c), ReadScript(rest, title)) case _ => None)
      case _ => None
  }
}
