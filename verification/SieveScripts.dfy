/**
 The scripts that the importer accepts, as a grammar of its own on top of SieveSentences: commands with what each of
 them means, blocks, conditional statements and rule comments. The reader accepts exactly these scripts, and one whose
 last block is cut off.
 */
module SieveScripts {
  import opened Wrappers
  import opened Seqs
  import opened SieveText
  import opened SieveModel
  import opened SieveLexer
  import opened SieveParser
  import opened SieveSentences

  /** An argument of a command: an annotation or a string list. */
  datatype Arg = Tag(word: string) | Strings(list: Listed)

  /** A command as written. */
  datatype Order = Order(name: string, args: seq<Arg>)

  // ----- how commands are written -----

  function WriteArgs(args: seq<Arg>, more: Toks): Toks {
    if args == [] then [Punct(';')] + more
    else match args[0]
      case Tag(word) => [Annot(word)] + WriteArgs(args[1..], more)
      case Strings(list) => WriteList(list, WriteArgs(args[1..], more))
  }

  function WriteOrder(o: Order, more: Toks): Toks { [Word(o.name)] + WriteArgs(o.args, more) }

  function WriteOrders(os: seq<Order>, more: Toks): Toks {
    if os == [] then more else WriteOrder(os[0], WriteOrders(os[1..], more))
  }

  // ----- what commands mean -----

  function Tags(args: seq<Arg>): seq<string> {
    if args == [] then [] else (if args[0].Tag? then [args[0].word] else []) + Tags(args[1..])
  }

  /** All strings of a command, lists one after another. */
  function Texts(args: seq<Arg>): seq<string> {
    if args == [] then [] else (if args[0].Strings? then Items(args[0].list) else []) + Texts(args[1..])
  }

  predicate GoodArgs(args: seq<Arg>) { forall a :: a in args && a.Strings? ==> Items(a.list) != [] }

  /** `shown` is `flag` without its first `n` characters, all backslashes; at most one is left at its start. */
  predicate Without(flag: string, shown: string, n: nat) {
    && n <= |flag| && shown == flag[n..] && (forall k :: 0 <= k < n ==> flag[k] == '\\')
    && (n > 0 ==> shown != "" && shown[0] == '\\') && !(|shown| > 1 && shown[0] == '\\' && shown[1] == '\\')
  }

  ghost predicate OneLeft(flag: string, shown: string) { exists n: nat :: Without(flag, shown, n) }

  ghost predicate EachOneLeft(flags: seq<string>, shown: seq<string>) {
    |shown| == |flags| && forall k :: 0 <= k < |flags| ==> OneLeft(flags[k], shown[k])
  }

  ghost predicate FlagsMean(flags: seq<string>, text: string) {
    exists shown: seq<string> :: EachOneLeft(flags, shown) && text == Join(shown, ",")
  }

  /** The action that a command with these tags and texts stands for. */
  ghost predicate ActionMeans(name: string, tags: seq<string>, texts: seq<string>, a: Action) {
    && (forall t :: t in tags ==> t == ":copy")
    && match a
       case FileInto(mailbox, copy) =>
         name == "fileinto" && texts != [] && mailbox == Join(texts, ",") && (copy <==> ":copy" in tags)
       case Redirect(address) => name == "redirect" && texts == [address]
       case Reject(text) => (name == "reject" || name == "ereject") && texts == [text]
       case Discard => name == "discard"
       case Keep => name == "keep"
       case Stop => name == "stop"
       case Flag(SetFlag, text) => name == "setflag" && texts != [] && FlagsMean(texts, text)
       case Flag(AddFlag, text) => name == "addflag" && texts != [] && FlagsMean(texts, text)
       case Flag(RemoveFlag, text) => name == "removeflag" && texts != [] && FlagsMean(texts, text)
  }

  ghost predicate OrderMeans(o: Order, a: Action) {
    GoodArgs(o.args) && ActionMeans(o.name, Tags(o.args), Texts(o.args), a)
  }

  function CommandFor(o: Order): Command { Command(o.name, Tags(o.args), Texts(o.args)) }

  // ----- commands -----

  lemma WithoutOneMore(flag: string, shown: string, n: nat)
    requires |flag| > 1 && flag[0] == '\\' && flag[1] == '\\'
    ensures Without(flag, shown, n + 1) <==> Without(flag[1..], shown, n)
    ensures !Without(flag, shown, 0)
  {
    if n < |flag| { assert flag[1..][n..] == flag[n + 1..]; }
    if Without(flag, shown, n + 1) { assert forall k :: 0 <= k < n ==> flag[1..][k] == flag[k + 1]; }
    if Without(flag[1..], shown, n) {
      assert forall k :: 0 < k < n + 1 ==> flag[k] == flag[1..][k - 1];
      if n == 0 { assert shown == flag[1..]; }
    }
    assert flag[0..] == flag;
  }

  lemma WithoutNone(flag: string, shown: string, n: nat)
    ensures n > 0 && Without(flag, shown, n) ==> |flag| > 1 && flag[0] == '\\' && flag[1] == '\\'
    ensures Without(flag, shown, 0) ==> shown == flag
    ensures !(|flag| > 1 && flag[0] == '\\' && flag[1] == '\\') ==> Without(flag, flag, 0)
  {
    assert flag[0..] == flag;
    if n == 1 && Without(flag, shown, n) { assert shown[0] == flag[1]; }
  }

  lemma {:induction false} OneBackslashIs(flag: string, shown: string)
    ensures OneBackslash(flag) == shown <==> OneLeft(flag, shown)
  {
    if |flag| > 1 && flag[0] == '\\' && flag[1] == '\\' {
      OneBackslashIs(flag[1..], shown);
      forall n: nat ensures Without(flag, shown, n) ==> n > 0 && Without(flag[1..], shown, n - 1) {
        WithoutOneMore(flag, shown, if n > 0 then n - 1 else 0);
      }
      if n: nat :| Without(flag[1..], shown, n) { WithoutOneMore(flag, shown, n); }
    } else {
      WithoutNone(flag, shown, 0);
      forall n: nat ensures Without(flag, shown, n) ==> n == 0 { WithoutNone(flag, shown, n); }
    }
  }

  lemma {:induction false} EachIs(flags: seq<string>, shown: seq<string>)
    ensures OneBackslashEach(flags) == shown <==> EachOneLeft(flags, shown)
    decreases |flags|
  {
    if flags != [] {
      EachIs(flags[1..], if shown == [] then [] else shown[1..]);
      ConsTail(OneBackslash(flags[0]), OneBackslashEach(flags[1..]));
      if shown != [] {
        OneBackslashIs(flags[0], shown[0]);
        HeadTail(shown);
        if EachOneLeft(flags, shown) {
          forall k | 0 <= k < |flags| - 1 ensures OneLeft(flags[1..][k], shown[1..][k]) {
            assert OneLeft(flags[k + 1], shown[k + 1]);
          }
        }
        if OneLeft(flags[0], shown[0]) && EachOneLeft(flags[1..], shown[1..]) {
          forall k | 0 <= k < |flags| ensures OneLeft(flags[k], shown[k]) {
            if k > 0 { assert OneLeft(flags[1..][k - 1], shown[1..][k - 1]); }
          }
        }
      }
    }
  }

  lemma FlagsAre(flags: seq<string>, text: string)
    ensures text == Join(OneBackslashEach(flags), ",") <==> FlagsMean(flags, text)
  {
    EachIs(flags, OneBackslashEach(flags));
    forall shown | EachOneLeft(flags, shown) ensures shown == OneBackslashEach(flags) { EachIs(flags, shown); }
  }

  /** A command is supported exactly when it means an action, and becomes that action. */
  lemma ActionExactly(c: Command, a: Action)
    ensures ToAction(c) == Some(a) <==> ActionMeans(c.name, c.annots, c.strs, a)
  {
    if a.Flag? { FlagsAre(c.strs, a.flag); }
  }

  lemma ConsArgs(a: Arg, args: seq<Arg>)
    ensures GoodArgs([a] + args) <==> (a.Strings? ==> Items(a.list) != []) && GoodArgs(args)
    ensures Tags([a] + args) == if a.Tag? then [a.word] + Tags(args) else Tags(args)
    ensures Texts([a] + args) == if a.Strings? then Items(a.list) + Texts(args) else Texts(args)
  {
    ConsTail(a, args);
    assert [] + Tags(args) == Tags(args) && [] + Texts(args) == Texts(args);
    assert forall x :: x in [a] + args <==> x == a || x in args;
  }

  lemma {:induction false} ArgsRead(ts: Toks) returns (args: seq<Arg>)
    requires PArgs(ts).Ok?
    ensures GoodArgs(args) && PArgs(ts).value == (Tags(args), Texts(args))
    ensures NoComments(ts) == WriteArgs(args, NoComments(PArgs(ts).rest))
    decreases |ts|
  {
    var us := Skip(ts);
    BareStep(ts);
    if us[0].Annot? {
      var more := ArgsRead(us[1..]);
      ConsArgs(Tag(us[0].text), more);
      args := [Tag(us[0].text)] + more;
    } else if StartsList(us) {
      var l := ListRead(us);
      BareSkip(ts);
      var more := ArgsRead(PList(us).rest);
      ConsArgs(Strings(l), more);
      args := [Strings(l)] + more;
    } else {
      args := [];
    }
  }

  lemma BareSkip(ts: Toks)
    ensures NoComments(Skip(ts)) == NoComments(ts) && Skip(Skip(ts)) == Skip(ts)
  {
    BareStep(ts);
    BareStep(Skip(ts));
  }

  lemma {:induction false} ArgsWritten(ts: Toks, args: seq<Arg>, more: Toks)
    requires GoodArgs(args) && NoComments(ts) == WriteArgs(args, more)
    ensures PArgs(ts).Ok? && PArgs(ts).value == (Tags(args), Texts(args)) && NoComments(PArgs(ts).rest) == more
    decreases |args|
  {
    var us := Skip(ts);
    if args == [] {
      Reads(ts, Punct(';'), more);
    } else {
      HeadTail(args);
      ConsArgs(args[0], args[1..]);
      match args[0]
      case Tag(word) =>
        Reads(ts, Annot(word), WriteArgs(args[1..], more));
        ArgsWritten(us[1..], args[1..], more);
      case Strings(list) =>
        BareSkip(ts);
        ListWritten(us, list, WriteArgs(args[1..], more));
        ArgsWritten(PList(us).rest, args[1..], more);
    }
  }

  /** A command of the grammar that means some action. */
  ghost predicate GoodOrder(o: Order) { exists a :: OrderMeans(o, a) }

  lemma GoodOrderIs(o: Order)
    ensures GoodOrder(o) <==> GoodArgs(o.args) && ToAction(CommandFor(o)).Some?
    ensures GoodOrder(o) ==> OrderMeans(o, ToAction(CommandFor(o)).value)
  {
    var c := CommandFor(o);
    if ToAction(c).Some? {
      ActionExactly(c, ToAction(c).value);
      assert GoodArgs(o.args) ==> OrderMeans(o, ToAction(c).value);
    }
    if a :| OrderMeans(o, a) { ActionExactly(c, a); }
  }

  lemma OrderRead(ts: Toks) returns (o: Order)
    requires PCommand(ts).Ok?
    ensures GoodOrder(o) && CommandFor(o) == PCommand(ts).value
    ensures NoComments(ts) == WriteOrder(o, NoComments(PCommand(ts).rest))
  {
    var us := Skip(ts);
    BareStep(ts);
    var args := ArgsRead(us[1..]);
    o := Order(us[0].text, args);
    GoodOrderIs(o);
  }

  lemma OrderWritten(ts: Toks, o: Order, more: Toks)
    requires GoodOrder(o) && NoComments(ts) == WriteOrder(o, more)
    ensures PCommand(ts).Ok? && PCommand(ts).value == CommandFor(o) && NoComments(PCommand(ts).rest) == more
  {
    GoodOrderIs(o);
    Reads(ts, Word(o.name), WriteArgs(o.args, more));
    ArgsWritten(Skip(ts)[1..], o.args, more);
  }

  /**
   The parser accepts a command exactly when it is written as the grammar says and means an action; it is then read
   with its tags and texts in order.
   */
  lemma CommandExactly(ts: Toks, c: Command, more: Toks)
    ensures (exists rest :: PCommand(ts) == Ok(c, rest) && NoComments(rest) == more) <==>
            exists o :: GoodOrder(o) && c == CommandFor(o) && NoComments(ts) == WriteOrder(o, more)
  {
    if rest :| PCommand(ts) == Ok(c, rest) && NoComments(rest) == more { var o := OrderRead(ts); }
    if o :| GoodOrder(o) && c == CommandFor(o) && NoComments(ts) == WriteOrder(o, more) { OrderWritten(ts, o, more); }
  }

  // ----- blocks -----

  function Commands(os: seq<Order>): seq<Command> {
    if os == [] then [] else [CommandFor(os[0])] + Commands(os[1..])
  }

  ghost predicate GoodOrders(os: seq<Order>) { forall o :: o in os ==> GoodOrder(o) }

  lemma ConsOrders(o: Order, os: seq<Order>, more: Toks)
    ensures GoodOrders([o] + os) <==> GoodOrder(o) && GoodOrders(os)
    ensures Commands([o] + os) == [CommandFor(o)] + Commands(os)
    ensures WriteOrders([o] + os, more) == WriteOrder(o, WriteOrders(os, more))
  {
    ConsTail(o, os);
    assert forall x :: x in [o] + os <==> x == o || x in os;
  }

  /** What a block that was read, or cut off, is written as. */
  lemma {:induction false} OrdersRead(ts: Toks) returns (os: seq<Order>)
    requires PCommands(ts).Cut? || (PCommands(ts).Ok? && !PCommands(ts).value.nested)
    ensures GoodOrders(os)
    ensures PCommands(ts).Ok? ==>
              && PCommands(ts).value.commands == Commands(os)
              && NoComments(ts) == WriteOrders(os, [Punct('}')] + NoComments(PCommands(ts).rest))
    ensures PCommands(ts).Cut? ==> NoComments(ts) == WriteOrders(os, [])
    decreases |ts|
  {
    var us := Skip(ts);
    BareStep(ts);
    if us == [] || us[0] == Punct('}') {
      os := [];
    } else {
      BareSkip(ts);
      var o := OrderRead(us);
      var rest := PCommand(us).rest;
      var more := OrdersRead(rest);
      os := [o] + more;
      ConsOrders(o, more, if PCommands(rest).Ok? then [Punct('}')] + NoComments(PCommands(rest).rest) else []);
    }
  }

  lemma SupportedNames(o: Order)
    requires GoodOrder(o)
    ensures o.name !in {"if", "elsif", "else", "require"}
  {}

  /** A block is read to its end; without one it is cut off. */
  lemma {:induction false} OrdersWritten(ts: Toks, os: seq<Order>, more: Toks)
    requires GoodOrders(os)
    ensures NoComments(ts) == WriteOrders(os, [Punct('}')] + more) ==>
              && PCommands(ts).Ok? && PCommands(ts).value == Block(Commands(os), false)
              && NoComments(PCommands(ts).rest) == more
    ensures NoComments(ts) == WriteOrders(os, []) ==> PCommands(ts).Cut?
    decreases |os|
  {
    var us := Skip(ts);
    BareStep(ts);
    if os == [] {
      if NoComments(ts) == [Punct('}')] + more { Reads(ts, Punct('}'), more); }
    } else {
      HeadTail(os);
      ConsOrders(os[0], os[1..], []);
      ConsOrders(os[0], os[1..], [Punct('}')] + more);
      assert os[0] in os;
      SupportedNames(os[0]);
      BareSkip(ts);
      if NoComments(ts) == WriteOrders(os, [Punct('}')] + more) {
        OneOrder(ts, os[0], WriteOrders(os[1..], [Punct('}')] + more));
        OrdersWritten(PCommand(us).rest, os[1..], more);
      }
      if NoComments(ts) == WriteOrders(os, []) {
        OneOrder(ts, os[0], WriteOrders(os[1..], []));
        OrdersWritten(PCommand(us).rest, os[1..], more);
      }
    }
  }

  lemma OneOrder(ts: Toks, o: Order, more: Toks)
    requires GoodOrder(o) && NoComments(ts) == WriteOrder(o, more)
    ensures Skip(ts) != [] && Skip(ts)[0] == Word(o.name) && !IsBranchWord(Skip(ts)[0])
    ensures PCommand(Skip(ts)).Ok? && PCommand(Skip(ts)).value == CommandFor(o)
    ensures NoComments(PCommand(Skip(ts)).rest) == more
    ensures PCommands(ts) == match PCommands(PCommand(Skip(ts)).rest)
                             case Ok(b, rest) => Ok(Block([CommandFor(o)] + b.commands, b.nested), rest)
                             case Fail => Fail
                             case Cut => Cut
  {
    SupportedNames(o);
    BareSkip(ts);
    Reads(ts, Word(o.name), WriteArgs(o.args, more));
    OrderWritten(Skip(ts), o, more);
  }

  // ----- conditional statements -----

  predicate Branch(ts: Toks) { ts != [] && (ts[0] == Word("elsif") || ts[0] == Word("else")) }

  lemma WriteStart(p: Phrase, t: TestNode, more: Toks)
    requires Means(p, t, false)
    ensures Write(p, more) != [] && (Write(p, more)[0].Word? <==> !p.Paren?)
  {}

  lemma IfRead(ts: Toks) returns (p: Phrase, os: seq<Order>)
    requires PIf(ts).Ok? || PIf(ts).Cut?
    ensures !p.Paren? && GoodOrders(os)
    ensures PIf(ts).Ok? ==>
              && Means(p, PIf(ts).value.0, false) && PIf(ts).value.1 == Commands(os)
              && !Branch(NoComments(PIf(ts).rest))
              && NoComments(ts) == Write(p, [Punct('{')] + WriteOrders(os, [Punct('}')] + NoComments(PIf(ts).rest)))
    ensures PIf(ts).Cut? ==>
              && (exists t :: Means(p, t, false))
              && NoComments(ts) == Write(p, [Punct('{')] + WriteOrders(os, []))
  {
    BareStep(ts);
    p := TestRead(ts, 0);
    var test, rest := PTest(ts, 0).value, PTest(ts, 0).rest;
    WriteStart(p, test, NoComments(rest));
    NextIsFirst(rest, Punct('{'));
    os := OrdersRead(After(rest));
    if PIf(ts).Ok? { BareStep(PIf(ts).rest); }
  }

  lemma IfWritten(ts: Toks, p: Phrase, t: TestNode, os: seq<Order>, more: Toks)
    requires !p.Paren? && Means(p, t, false) && GoodOrders(os)
    ensures NoComments(ts) == Write(p, [Punct('{')] + WriteOrders(os, [Punct('}')] + more)) && !Branch(more) ==>
              PIf(ts).Ok? && PIf(ts).value == (t, Commands(os)) && NoComments(PIf(ts).rest) == more
    ensures NoComments(ts) == Write(p, [Punct('{')] + WriteOrders(os, [])) ==> PIf(ts).Cut?
  {
    var body, cut := WriteOrders(os, [Punct('}')] + more), WriteOrders(os, []);
    BareStep(ts);
    if NoComments(ts) == Write(p, [Punct('{')] + body) && !Branch(more) {
      WriteStart(p, t, [Punct('{')] + body);
      TestWritten(ts, 0, p, [Punct('{')] + body, t);
      Reads(PTest(ts, 0).rest, Punct('{'), body);
      OrdersWritten(After(PTest(ts, 0).rest), os, more);
      BareStep(PCommands(After(PTest(ts, 0).rest)).rest);
    }
    if NoComments(ts) == Write(p, [Punct('{')] + cut) {
      WriteStart(p, t, [Punct('{')] + cut);
      TestWritten(ts, 0, p, [Punct('{')] + cut, t);
      Reads(PTest(ts, 0).rest, Punct('{'), cut);
      OrdersWritten(After(PTest(ts, 0).rest), os, []);
    }
  }

  // ----- what reading consumes -----

  /** `rest` is what follows some tokens of `ts`, the last of which is not a comment, or all of `ts`. */
  predicate Leads(ts: Toks, rest: Toks) {
    && |rest| <= |ts| && rest == ts[|ts| - |rest|..]
    && (|rest| < |ts| ==> !ts[|ts| - |rest| - 1].Comment?)
  }

  lemma LeadsOn(a: Toks, b: Toks, c: Toks)
    requires Leads(a, b) && Leads(b, c)
    ensures Leads(a, c)
  {
    assert c == a[|a| - |b|..][|b| - |c|..] == a[|a| - |c|..];
  }

  lemma {:induction false} SkipLeads(ts: Toks)
    requires Skip(ts) != []
    ensures Leads(ts, Skip(ts)[1..])
  {
    if ts[0].Comment? { SkipLeads(ts[1..]); }
  }

  /** A step past the next token. */
  lemma StepLeads(ts: Toks, mid: Toks, rest: Toks)
    requires Skip(ts) != [] && mid == Skip(ts)[1..] && Leads(mid, rest)
    ensures Leads(ts, rest)
  {
    SkipLeads(ts);
    LeadsOn(ts, mid, rest);
  }

  lemma {:induction false} ItemsLead(ts: Toks)
    requires PItems(ts).Ok?
    ensures Leads(ts, PItems(ts).rest)
    decreases |ts|
  {
    var mid := Skip(ts)[1..];
    SkipLeads(mid);
    if Next(mid, Punct(',')) {
      ItemsLead(After(mid));
      StepLeads(mid, After(mid), PItems(ts).rest);
    }
    StepLeads(ts, mid, PItems(ts).rest);
  }

  lemma ListLeads(ts: Toks)
    requires PList(ts).Ok?
    ensures Leads(ts, PList(ts).rest)
  {
    var mid := Skip(ts)[1..];
    if Skip(ts)[0].Quoted? { SkipLeads(ts); } else {
      ItemsLead(mid);
      StepLeads(ts, mid, PList(ts).rest);
    }
  }

  lemma {:induction false} ListsLead(ts: Toks)
    requires PLists(ts).Ok?
    ensures Leads(ts, PLists(ts).rest)
    decreases |ts|
  {
    if StartsList(ts) {
      ListLeads(ts);
      ListsLead(PList(ts).rest);
      LeadsOn(ts, PList(ts).rest, PLists(ts).rest);
    }
  }

  lemma {:induction false} AnnotsLead(ts: Toks, op: Option<Op>, part: Part)
    requires PAnnots(ts, op, part).Ok?
    ensures Leads(ts, PAnnots(ts, op, part).rest)
    decreases |ts|
  {
    var us, end := Skip(ts), PAnnots(ts, op, part).rest;
    if us != [] && us[0].Annot? {
      var a, mid := us[0].text, us[1..];
      if OpOf(a).Some? { AnnotsLead(mid, OpOf(a), part); }
      else if PartOf(a).Some? { AnnotsLead(mid, op, PartOf(a).value); }
      else if Skip(mid) != [] && Skip(mid)[0].Quoted? {
        AnnotsLead(After(mid), op, part);
        StepLeads(mid, After(mid), end);
      } else { AnnotsLead(mid, op, part); }
      StepLeads(ts, mid, end);
    }
  }

  lemma {:induction false} TestLeads(ts: Toks, negDepth: nat)
    requires PTest(ts, negDepth).Ok?
    ensures Leads(ts, PTest(ts, negDepth).rest)
    decreases |ts|, 0
  {
    var us, end := Skip(ts), PTest(ts, negDepth).rest;
    var mid := us[1..];
    if us[0] == Punct('(') {
      TestLeads(mid, negDepth);
      var close := PTest(mid, negDepth).rest;
      SkipLeads(close);
      LeadsOn(mid, close, end);
    } else if us[0].text != "true" && KindOf(us[0].text).Some? {
      var annots := PAnnots(mid, None, Whole).rest;
      AnnotsLead(mid, None, Whole);
      ListsLead(annots);
      LeadsOn(mid, annots, end);
    } else if us[0].text == "not" {
      TestLeads(mid, negDepth + 1);
    } else if us[0].text != "true" {
      var close := PTests(After(mid), negDepth).rest;
      TestsLead(After(mid), negDepth);
      SkipLeads(close);
      LeadsOn(After(mid), close, end);
      StepLeads(mid, After(mid), end);
    }
    StepLeads(ts, mid, end);
  }

  lemma {:induction false} TestsLead(ts: Toks, negDepth: nat)
    requires PTests(ts, negDepth).Ok?
    ensures Leads(ts, PTests(ts, negDepth).rest)
    decreases |ts|, 1
  {
    TestLeads(ts, negDepth);
    var rest := PTest(ts, negDepth).rest;
    if Next(rest, Punct(',')) {
      TestsLead(After(rest), negDepth);
      StepLeads(rest, After(rest), PTests(ts, negDepth).rest);
      LeadsOn(ts, rest, PTests(ts, negDepth).rest);
    }
  }

  lemma {:induction false} ArgsLead(ts: Toks)
    requires PArgs(ts).Ok?
    ensures Leads(ts, PArgs(ts).rest)
    decreases |ts|
  {
    var us, end := Skip(ts), PArgs(ts).rest;
    var mid := us[1..];
    if us[0].Annot? {
      ArgsLead(mid);
    } else if StartsList(us) {
      ListLeads(us);
      SameFirst(us, PList(us).rest);
      ArgsLead(PList(us).rest);
      LeadsOn(mid, PList(us).rest, end);
    }
    StepLeads(ts, mid, end);
  }

  lemma SameFirst(us: Toks, rest: Toks)
    requires us != [] && Leads(us, rest) && |rest| < |us|
    ensures Leads(us[1..], rest)
  {
    assert us[1..][|us| - 1 - |rest|..] == us[|us| - |rest|..];
  }

  lemma CommandLeads(ts: Toks)
    requires PCommand(ts).Ok?
    ensures Leads(ts, PCommand(ts).rest)
  {
    ArgsLead(Skip(ts)[1..]);
    StepLeads(ts, Skip(ts)[1..], PCommand(ts).rest);
  }

  lemma {:induction false} CommandsLead(ts: Toks)
    requires PCommands(ts).Ok? && !PCommands(ts).value.nested
    ensures Leads(ts, PCommands(ts).rest)
    decreases |ts|
  {
    var us, end := Skip(ts), PCommands(ts).rest;
    var mid := us[1..];
    if us[0] != Punct('}') {
      CommandLeads(us);
      SameFirst(us, PCommand(us).rest);
      CommandsLead(PCommand(us).rest);
      LeadsOn(mid, PCommand(us).rest, end);
    }
    StepLeads(ts, mid, end);
  }

  lemma IfLeads(ts: Toks)
    requires PIf(ts).Ok?
    ensures Leads(ts, PIf(ts).rest)
  {
    var rest := PTest(ts, 0).rest;
    TestLeads(ts, 0);
    CommandsLead(After(rest));
    StepLeads(rest, After(rest), PIf(ts).rest);
    LeadsOn(ts, rest, PIf(ts).rest);
  }

  // ----- scripts -----

  datatype Piece = Needs(list: Listed, semicolon: bool) | When(test: Phrase, block: seq<Order>) | Do(order: Order)

  function WritePiece(p: Piece, more: Toks): Toks {
    match p
    case Needs(list, semicolon) =>
      [Word("require")] + WriteList(list, if semicolon then [Punct(';')] + more else more)
    case When(test, block) =>
      [Word("if")] + Write(test, [Punct('{')] + WriteOrders(block, [Punct('}')] + more))
    case Do(order) => WriteOrder(order, more)
  }

  /** `k` tokens, the last of which is not a comment, write this piece. */
  predicate Chunk(ts: Toks, k: nat, p: Piece) {
    0 < k <= |ts| && !ts[k - 1].Comment? && NoComments(ts) == WritePiece(p, NoComments(ts[k..]))
  }

  /** A conditional statement whose block runs into the end. */
  ghost predicate CutOff(ts: Toks) {
    exists p, os :: CutAt(ts, p, os)
  }

  ghost predicate CutAt(ts: Toks, p: Phrase, os: seq<Order>) {
    && !p.Paren? && (exists t :: Means(p, t, false)) && GoodOrders(os)
    && NoComments(ts) == [Word("if")] + Write(p, [Punct('{')] + WriteOrders(os, []))
  }

  /**
   The statements of a script: requirements add none, a conditional statement takes the last rule comment since the
   previous one as its title, and a statement that is cut off is dropped.
   */
  ghost predicate Script(ts: Toks, title: string, ss: seq<Stmt>)
    decreases |ts|
  {
    if NoComments(ts) == [] then ss == []
    else if ts[0].Comment? then Script(ts[1..], if "rule:" <= ts[0].text then ts[0].text else title, ss)
    else (CutOff(ts) && ss == []) || exists p, k: nat :: Chunk(ts, k, p) && Fits(ts, p, k, title, ss)
  }

  /** One piece and the script after it. */
  ghost predicate Fits(ts: Toks, p: Piece, k: nat, title: string, ss: seq<Stmt>)
    requires Chunk(ts, k, p)
    decreases |ts|, 0
  {
    match p
    case Needs(list, semicolon) =>
      Items(list) != [] && (!semicolon ==> !Starts(NoComments(ts[k..]), Punct(';'))) && Script(ts[k..], title, ss)
    case When(test, block) =>
      && !test.Paren? && GoodOrders(block) && !Branch(NoComments(ts[k..]))
      && ss != [] && ss[0].If? && ss[0].title == title && Means(test, ss[0].test, false)
      && ss[0].block == Commands(block) && Script(ts[k..], "", ss[1..])
    case Do(order) =>
      GoodOrder(order) && ss != [] && ss[0] == Stmt.Bare(CommandFor(order)) && Script(ts[k..], title, ss[1..])
  }

  lemma {:induction false} JoinBare(a: Toks, b: Toks)
    ensures NoComments(a + b) == NoComments(a) + NoComments(b)
    decreases |a|
  {
    if a == [] {
      assert a + b == b;
    } else {
      JoinBare(a[1..], b);
      TailOfConcat(a, b);
    }
  }

  lemma FewerLater(ts: Toks, i: nat, k: nat)
    requires i < k <= |ts| && !ts[k - 1].Comment?
    ensures |NoComments(ts[k..])| < |NoComments(ts[i..])|
  {
    assert ts[i..] == ts[i..k - 1] + ([ts[k - 1]] + ts[k..]);
    JoinBare(ts[i..k - 1], [ts[k - 1]] + ts[k..]);
    ConsParts(ts[k - 1], ts[k..]);
  }

  lemma OnePlace(ts: Toks, i: nat, k: nat)
    requires 0 < i <= |ts| && 0 < k <= |ts| && !ts[i - 1].Comment? && !ts[k - 1].Comment?
    requires NoComments(ts[i..]) == NoComments(ts[k..])
    ensures i == k
  {
    if i < k { FewerLater(ts, i, k); }
    if k < i { FewerLater(ts, k, i); }
  }

  /** The place where a piece ends is determined by what follows. */
  lemma SamePlace(ts: Toks, i: nat, rest: Toks)
    requires 0 < i <= |ts| && !ts[i - 1].Comment? && Leads(ts, rest) && |rest| < |ts|
    requires NoComments(rest) == NoComments(ts[i..])
    ensures rest == ts[i..]
  {
    var k := |ts| - |rest|;
    Placed(ts, rest);
    OnePlace(ts, i, k);
  }

  lemma Placed(ts: Toks, rest: Toks)
    requires Leads(ts, rest) && |rest| < |ts|
    ensures var k := |ts| - |rest|; 0 < k <= |ts| && ts[k..] == rest && !ts[k - 1].Comment?
  {}

  lemma TailLeads(ts: Toks, rest: Toks)
    requires ts != [] && !ts[0].Comment? && Leads(ts[1..], rest)
    ensures Leads(ts, rest) && |rest| < |ts|
  {
    SkipLeads(ts);
    LeadsOn(ts, ts[1..], rest);
  }

  lemma SemicolonRead(ts: Toks)
    ensures Leads(ts, SkipSemicolon(ts))
    ensures NoComments(ts) == if Next(ts, Punct(';')) then [Punct(';')] + NoComments(SkipSemicolon(ts))
                              else NoComments(SkipSemicolon(ts))
    ensures Next(ts, Punct(';')) <==> Starts(NoComments(ts), Punct(';'))
  {
    NextIsFirst(ts, Punct(';'));
    if Next(ts, Punct(';')) { SkipLeads(ts); }
  }

  lemma FirstToken(ts: Toks)
    requires ts != [] && !ts[0].Comment?
    ensures NoComments(ts) == [ts[0]] + NoComments(ts[1..]) && Skip(ts) == ts
  {
    BareStep(ts);
  }

  // ----- reading a script -----

  /** Whatever script the reader accepts is one of the grammar, with these statements. */
  lemma {:induction false} ScriptRead(ts: Toks, title: string, ss: seq<Stmt>)
    requires ReadScript(ts, title) == Some(ss)
    ensures Script(ts, title, ss)
    decreases |ts|
  {
    BareStep(ts);
    if Skip(ts) != [] {
      match ts[0]
      case Comment(text) => ScriptRead(ts[1..], if IsRuleComment(text) then text else title, ss);
      case Word(w) =>
        FirstToken(ts);
        if w == "require" { RequireRead(ts, title, ss); }
        else if w == "if" { ConditionalRead(ts, title, ss); }
        else { CommandRead(ts, title, ss); }
      case _ =>
    }
  }

  lemma OnePiece(ts: Toks, title: string, ss: seq<Stmt>, p: Piece, k: nat)
    requires ts != [] && !ts[0].Comment? && Chunk(ts, k, p) && Fits(ts, p, k, title, ss)
    ensures Script(ts, title, ss)
  {
    FirstToken(ts);
  }

  lemma RequireChunk(ts: Toks) returns (p: Piece, k: nat)
    requires ts != [] && ts[0] == Word("require") && PList(ts[1..]).Ok?
    ensures p.Needs? && Chunk(ts, k, p) && Items(p.list) != [] && ts[k..] == SkipSemicolon(PList(ts[1..]).rest)
    ensures !p.semicolon ==> !Starts(NoComments(ts[k..]), Punct(';'))
  {
    FirstToken(ts);
    var after := PList(ts[1..]).rest;
    var rest := SkipSemicolon(after);
    var list := ListRead(ts[1..]);
    ListLeads(ts[1..]);
    SemicolonRead(after);
    LeadsOn(ts[1..], after, rest);
    TailLeads(ts, rest);
    Placed(ts, rest);
    p, k := Needs(list, Next(after, Punct(';'))), |ts| - |rest|;
  }

  lemma {:induction false} RequireRead(ts: Toks, title: string, ss: seq<Stmt>)
    requires ts != [] && ts[0] == Word("require") && ReadScript(ts, title) == Some(ss)
    ensures Script(ts, title, ss)
    decreases |ts|, 0
  {
    FirstToken(ts);
    var p, k := RequireChunk(ts);
    ScriptRead(ts[k..], title, ss);
    OnePiece(ts, title, ss, p, k);
  }

  lemma ConditionalCut(ts: Toks)
    requires ts != [] && ts[0] == Word("if") && PIf(ts[1..]).Cut?
    ensures CutOff(ts)
  {
    FirstToken(ts);
    var test, block := IfRead(ts[1..]);
    assert CutAt(ts, test, block);
  }

  lemma ConditionalChunk(ts: Toks) returns (p: Piece, k: nat)
    requires ts != [] && ts[0] == Word("if") && PIf(ts[1..]).Ok?
    ensures var r := PIf(ts[1..]);
            && p.When? && Chunk(ts, k, p) && !p.test.Paren? && GoodOrders(p.block) && ts[k..] == r.rest
            && Means(p.test, r.value.0, false) && r.value.1 == Commands(p.block) && !Branch(NoComments(r.rest))
  {
    FirstToken(ts);
    var test, block := IfRead(ts[1..]);
    var rest := PIf(ts[1..]).rest;
    IfLeads(ts[1..]);
    TailLeads(ts, rest);
    Placed(ts, rest);
    p, k := When(test, block), |ts| - |rest|;
  }

  lemma {:induction false} ConditionalRead(ts: Toks, title: string, ss: seq<Stmt>)
    requires ts != [] && ts[0] == Word("if") && ReadScript(ts, title) == Some(ss)
    ensures Script(ts, title, ss)
    decreases |ts|, 0
  {
    FirstToken(ts);
    if PIf(ts[1..]).Cut? {
      ConditionalCut(ts);
    } else {
      var p, k := ConditionalChunk(ts);
      ScriptRead(ts[k..], "", ss[1..]);
      OnePiece(ts, title, ss, p, k);
    }
  }

  lemma {:induction false} CommandRead(ts: Toks, title: string, ss: seq<Stmt>)
    requires ts != [] && ts[0].Word? && ts[0] != Word("if") && ts[0] != Word("require")
    requires ReadScript(ts, title) == Some(ss)
    ensures Script(ts, title, ss)
    decreases |ts|, 0
  {
    FirstToken(ts);
    var order := OrderRead(ts);
    var rest := PCommand(ts).rest;
    CommandLeads(ts);
    Placed(ts, rest);
    ScriptRead(rest, title, ss[1..]);
    var p, k := Do(order), |ts| - |rest|;
    OnePiece(ts, title, ss, p, k);
  }

  /** And every script of the grammar is accepted, with its statements. */
  lemma {:induction false} ScriptWritten(ts: Toks, title: string, ss: seq<Stmt>)
    requires Script(ts, title, ss)
    ensures ReadScript(ts, title) == Some(ss)
    decreases |ts|, 1
  {
    BareStep(ts);
    if NoComments(ts) != [] {
      if ts[0].Comment? {
        ScriptWritten(ts[1..], if "rule:" <= ts[0].text then ts[0].text else title, ss);
      } else if CutOff(ts) && ss == [] {
        var p, os :| CutAt(ts, p, os);
        var t :| Means(p, t, false);
        FirstToken(ts);
        Reads(ts, Word("if"), Write(p, [Punct('{')] + WriteOrders(os, [])));
        IfWritten(ts[1..], p, t, os, []);
      } else {
        var p, k: nat :| Chunk(ts, k, p) && Fits(ts, p, k, title, ss);
        FirstToken(ts);
        match p
        case Needs(_, _) => RequireWritten(ts, p, k, title, ss);
        case When(_, _) => ConditionalWritten(ts, p, k, title, ss);
        case Do(_) => CommandWritten(ts, p, k, title, ss);
      }
    }
  }

  lemma {:induction false} RequireWritten(ts: Toks, p: Piece, k: nat, title: string, ss: seq<Stmt>)
    requires ts != [] && !ts[0].Comment? && p.Needs? && Chunk(ts, k, p) && Fits(ts, p, k, title, ss)
    ensures ReadScript(ts, title) == Some(ss)
    decreases |ts|, 0
  {
    var more := NoComments(ts[k..]);
    var tail := if p.semicolon then [Punct(';')] + more else more;
    FirstToken(ts);
    Reads(ts, Word("require"), WriteList(p.list, tail));
    ListWritten(ts[1..], p.list, tail);
    var after := PList(ts[1..]).rest;
    ListLeads(ts[1..]);
    SemicolonRead(after);
    if p.semicolon { Reads(after, Punct(';'), more); }
    LeadsOn(ts[1..], after, SkipSemicolon(after));
    TailLeads(ts, SkipSemicolon(after));
    SamePlace(ts, k, SkipSemicolon(after));
    ScriptWritten(ts[k..], title, ss);
  }

  lemma {:induction false} ConditionalWritten(ts: Toks, p: Piece, k: nat, title: string, ss: seq<Stmt>)
    requires ts != [] && !ts[0].Comment? && p.When? && Chunk(ts, k, p) && Fits(ts, p, k, title, ss)
    ensures ReadScript(ts, title) == Some(ss)
    decreases |ts|, 0
  {
    var more := NoComments(ts[k..]);
    FirstToken(ts);
    Reads(ts, Word("if"), Write(p.test, [Punct('{')] + WriteOrders(p.block, [Punct('}')] + more)));
    IfWritten(ts[1..], p.test, ss[0].test, p.block, more);
    var rest := PIf(ts[1..]).rest;
    IfLeads(ts[1..]);
    TailLeads(ts, rest);
    SamePlace(ts, k, rest);
    ScriptWritten(ts[k..], "", ss[1..]);
    HeadTail(ss);
  }

  lemma {:induction false} CommandWritten(ts: Toks, p: Piece, k: nat, title: string, ss: seq<Stmt>)
    requires ts != [] && !ts[0].Comment? && p.Do? && Chunk(ts, k, p) && Fits(ts, p, k, title, ss)
    ensures ReadScript(ts, title) == Some(ss)
    decreases |ts|, 0
  {
    FirstToken(ts);
    SupportedNames(p.order);
    Reads(ts, Word(p.order.name), WriteArgs(p.order.args, NoComments(ts[k..])));
    OrderWritten(ts, p.order, NoComments(ts[k..]));
    var rest := PCommand(ts).rest;
    CommandLeads(ts);
    SamePlace(ts, k, rest);
    ScriptWritten(ts[k..], title, ss[1..]);
    HeadTail(ss);
  }

  /**
   The reader accepts exactly the scripts of the grammar, and gives their statements: for every token list and every
   list of statements.
   */
  lemma ScriptExactly(ts: Toks, ss: seq<Stmt>)
    ensures ReadScript(ts, "") == Some(ss) <==> Script(ts, "", ss)
  {
    if ReadScript(ts, "") == Some(ss) { ScriptRead(ts, "", ss); }
    if Script(ts, "", ss) { ScriptWritten(ts, "", ss); }
  }
}
