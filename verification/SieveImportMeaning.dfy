/** What importing does to the meaning of a test: exactly when the flat list of conditions means what the tree did. */
module SieveImportMeaning {
  import opened Wrappers
  import opened SieveText
  import opened SieveModel
  import opened SieveLexer
  import opened SieveParser
  import opened SieveFlatten
  import opened SieveMeaning

  // ----- the trees that the parser builds -----

  predicate Grammatical(t: TestNode) {
    match t
    case TrueTest => true
    case Simple(kind, _, _, _, headers, values) =>
      kind != True && (kind == Exists <==> values == []) && (kind != Address ==> headers != [])
    case Group(_, children) => children != [] && forall c :: c in children ==> Grammatical(c)
  }

  lemma SimpleIsGrammatical(kind: TestKind, ts: Toks)
    requires kind != True
    ensures PSimple(kind, ts).Ok? ==> Grammatical(PSimple(kind, ts).value)
  {
    match PAnnots(ts, None, Whole)
    case Ok(_, rest) =>
      match PLists(rest) {
        case Ok(lists, _) =>
          if |lists| > 0 { assert lists[0] in lists; }
          if |lists| > 1 { assert lists[1] in lists; }
        case _ =>
      }
    case _ =>
  }

  lemma {:induction false} ParsedIsGrammatical(ts: Toks, negDepth: nat)
    ensures PTest(ts, negDepth).Ok? ==> Grammatical(PTest(ts, negDepth).value)
    decreases |ts|, 0
  {
    var us := Skip(ts);
    if us != [] {
      if us[0] == Punct('(') {
        ParsedIsGrammatical(us[1..], negDepth);
      } else if us[0].Word? {
        if KindOf(us[0].text).Some? {
          SimpleIsGrammatical(KindOf(us[0].text).value, us[1..]);
        } else if us[0].text == "not" {
          ParsedIsGrammatical(us[1..], negDepth + 1);
        } else if Next(us[1..], Punct('(')) {
          ParsedGroupIsGrammatical(After(us[1..]), negDepth);
        }
      }
    }
  }

  lemma {:induction false} ParsedGroupIsGrammatical(ts: Toks, negDepth: nat)
    ensures PTests(ts, negDepth).Ok? ==> forall c :: c in PTests(ts, negDepth).value ==> Grammatical(c)
    decreases |ts|, 1
  {
    ParsedIsGrammatical(ts, negDepth);
    match PTest(ts, negDepth)
    case Ok(_, rest) => if Next(rest, Punct(',')) { ParsedGroupIsGrammatical(After(rest), negDepth); }
    case _ =>
  }

  // ----- when flattening keeps the meaning -----

  /** Every header name survives being put in a comma list. */
  predicate CleanHeaders(t: TestNode) {
    match t
    case TrueTest => true
    case Simple(_, _, _, _, headers, _) => forall h :: h in headers ==> CleanItem(h)
    case Group(_, children) => forall c :: c in children ==> CleanHeaders(c)
  }

  /** No negated test has two different values. */
  predicate NegatedOnce(t: TestNode) {
    match t
    case TrueTest => true
    case Simple(_, _, _, negated, _, values) => negated ==> forall v, w :: v in values && w in values ==> v == w
    case Group(_, children) => forall c :: c in children ==> NegatedOnce(c)
  }

  /** Two keys that no field body tells apart. */
  ghost predicate Alike(mail: Mail, kind: TestKind, part: Part, op: Op, v: string, w: string) {
    forall text :: text in mail.possible ==> Hits(mail, kind, part, op, text, v) == Hits(mail, kind, part, op, text, w)
  }

  /** No negated test has two values that some field body tells apart. */
  ghost predicate NegatedAlike(t: TestNode, mail: Mail) {
    match t
    case TrueTest => true
    case Simple(kind, part, op, negated, _, values) =>
      negated ==> forall v, w :: v in values && w in values ==> Alike(mail, kind, part, op, v, w)
    case Group(_, children) => forall c :: c in children ==> NegatedAlike(c, mail)
  }

  /** In particular when every negated test has one value. */
  lemma {:induction false} OnceIsAlike(t: TestNode, mail: Mail)
    requires NegatedOnce(t)
    ensures NegatedAlike(t, mail)
    decreases t
  {
    match t
    case Group(_, children) =>
      forall c | c in children ensures NegatedAlike(c, mail) { OnceIsAlike(c, mail); }
    case _ =>
  }

  lemma AlikeHolds(t: TestNode, v: string, w: string, m: Message)
    requires t.Simple? && Possible(m) && Alike(m.mail, t.kind, t.part, t.op, v, w)
    ensures Leaf(t, v, m) ==> Leaf(t, w, m)
  {
    if Leaf(t, v, m) && (t.kind == Header || t.kind == Address) {
      var part := if t.kind == Header then Whole else t.part;
      var h, text :| LooksAt(t.kind, t.headers, h) && FieldHits(m, t.kind, part, t.op, h, text, v);
      assert FieldHits(m, t.kind, part, t.op, h, text, w);
    }
  }

  ghost predicate FlatHolds(t: TestNode, m: Message)
    requires FlattenTest(t).Some?
  {
    MatchesAll(FlattenTest(t).value.join, FlattenTest(t).value.conds, m)
  }

  lemma {:induction false} PerValueMembers(base: Condition, values: seq<string>)
    ensures |PerValue(base, values)| == |values|
    ensures forall k :: 0 <= k < |values| ==> PerValue(base, values)[k] == base.(value := values[k])
  {
    if values != [] { PerValueMembers(base, values[1..]); }
  }

  /** The value of one leaf for one of its values, before negation. */
  ghost predicate Leaf(t: TestNode, v: string, m: Message)
    requires t.Simple?
  {
    HoldsValue(t.kind, t.part, t.op, t.headers, v, m)
  }

  function LeafValues(t: TestNode): seq<string>
    requires t.Simple?
  {
    if t.kind == Exists then [""] else t.values
  }

  lemma LeafConditions(t: TestNode, m: Message)
    requires t.Simple? && CleanHeaders(t)
    ensures |SimpleToConditions(t)| == |LeafValues(t)|
    ensures forall k :: 0 <= k < |LeafValues(t)| ==>
            MatchesCondition(SimpleToConditions(t)[k], m) == (t.negated != Leaf(t, LeafValues(t)[k], m))
  {
    var base := Condition(t.kind, t.part, t.op, t.negated, Join(t.headers, ","), "");
    PerValueMembers(base, LeafValues(t));
    SplitJoin(t.headers);
  }

  lemma LeafHolds(t: TestNode, m: Message)
    requires t.Simple? && Grammatical(t)
    ensures HoldsTest(t, m) == (t.negated != exists v :: v in LeafValues(t) && Leaf(t, v, m))
    ensures LeafValues(t) != []
  {
    if t.kind == Exists {
      assert LeafValues(t) == [""] && "" in LeafValues(t);
      assert (exists v :: v in LeafValues(t) && Leaf(t, v, m)) == Leaf(t, "", m);
    } else {
      assert forall v :: Leaf(t, v, m) == HoldsValue(t.kind, t.part, t.op, t.headers, v, m);
      assert (exists v :: v in t.values && Leaf(t, v, m))
          == exists v :: v in t.values && HoldsValue(t.kind, t.part, t.op, t.headers, v, m);
    }
  }

  lemma MatchesByIndex(join: JoinKind, cs: seq<Condition>, m: Message)
    ensures MatchesAll(join, cs, m) == if join == AllOf then forall k :: 0 <= k < |cs| ==> MatchesCondition(cs[k], m)
                                       else exists k :: 0 <= k < |cs| && MatchesCondition(cs[k], m)
  {
    if join == AllOf {
      if forall k :: 0 <= k < |cs| ==> MatchesCondition(cs[k], m) {
        assert forall c :: c in cs ==> exists k :: 0 <= k < |cs| && cs[k] == c;
      }
    }
  }

  /** All values of a leaf hold on a message, or none. */
  ghost predicate SameOn(t: TestNode, m: Message)
    requires t.Simple?
  {
    forall v, w :: v in LeafValues(t) && w in LeafValues(t) ==> Leaf(t, v, m) == Leaf(t, w, m)
  }

  lemma AlikeIsSame(t: TestNode, m: Message)
    requires t.Simple? && t.negated && Possible(m) && NegatedAlike(t, m.mail)
    ensures SameOn(t, m)
  {
    if t.kind != Exists {
      forall v, w | v in t.values && w in t.values ensures Leaf(t, v, m) == Leaf(t, w, m) {
        AlikeHolds(t, v, w, m);
        AlikeHolds(t, w, v, m);
      }
    }
  }

  /** A leaf whose values all say the same is flattened soundly. */
  lemma LeafSound(t: TestNode, m: Message)
    requires t.Simple? && Grammatical(t) && CleanHeaders(t) && (t.negated ==> SameOn(t, m))
    ensures FlatHolds(t, m) == HoldsTest(t, m)
  {
    LeafConditions(t, m);
    LeafHolds(t, m);
    MatchesByIndex(FlattenTest(t).value.join, SimpleToConditions(t), m);
    if t.negated { NegatedLeaf(t, m); } else { PlainLeaf(t, m); }
  }

  lemma NegatedLeaf(t: TestNode, m: Message)
    requires t.Simple? && t.negated && LeafValues(t) != [] && SameOn(t, m)
    ensures (exists v :: v in LeafValues(t) && Leaf(t, v, m)) == Leaf(t, LeafValues(t)[0], m)
    ensures forall k :: 0 <= k < |LeafValues(t)| ==> Leaf(t, LeafValues(t)[k], m) == Leaf(t, LeafValues(t)[0], m)
  {
    assert LeafValues(t)[0] in LeafValues(t);
    assert forall k :: 0 <= k < |LeafValues(t)| ==> LeafValues(t)[k] in LeafValues(t);
  }

  lemma PlainLeaf(t: TestNode, m: Message)
    requires t.Simple?
    ensures (exists v :: v in LeafValues(t) && Leaf(t, v, m))
            <==> exists k :: 0 <= k < |LeafValues(t)| && Leaf(t, LeafValues(t)[k], m)
    ensures |LeafValues(t)| == 1 ==>
            ((exists v :: v in LeafValues(t) && Leaf(t, v, m)) <==> Leaf(t, LeafValues(t)[0], m))
  {
    if v :| v in LeafValues(t) && Leaf(t, v, m) {
      var k :| 0 <= k < |LeafValues(t)| && LeafValues(t)[k] == v;
      assert Leaf(t, LeafValues(t)[k], m);
    }
    if k :| 0 <= k < |LeafValues(t)| && Leaf(t, LeafValues(t)[k], m) {
      assert LeafValues(t)[k] in LeafValues(t);
    }
  }

  /** A message with one field, which the leaf looks at. */
  ghost function OneField(t: TestNode, mail: Mail, text: string): Message
    requires t.Simple?
  {
    Message(mail, iset{(Lower(if t.headers == [] then "to" else t.headers[0]), text)})
  }

  lemma OneFieldHolds(t: TestNode, mail: Mail, text: string, v: string)
    requires t.Simple? && (t.kind == Header || t.kind == Address) && (t.kind == Header ==> t.headers != [])
    ensures Leaf(t, v, OneField(t, mail, text)) == Hits(mail, t.kind, t.part, t.op, text, v)
  {
    var m, h := OneField(t, mail, text), if t.headers == [] then "to" else t.headers[0];
    if Hits(mail, t.kind, t.part, t.op, text, v) {
      assert FieldHits(m, t.kind, if t.kind == Header then Whole else t.part, t.op, h, text, v);
      assert LooksAt(t.kind, t.headers, h);
    }
  }

  /** A negated leaf changes meaning when flattened, on a message whose field tells two of its values apart. */
  lemma LeafUnsound(t: TestNode, mail: Mail, text: string, v: string, w: string) returns (m: Message)
    requires t.Simple? && Grammatical(t) && CleanHeaders(t) && t.negated && text in mail.possible
    requires v in t.values && w in t.values && Hits(mail, t.kind, t.part, t.op, text, v) &&
            !Hits(mail, t.kind, t.part, t.op, text, w)
    ensures m.mail == mail && Possible(m) && FlatHolds(t, m) != HoldsTest(t, m)
  {
    m := OneField(t, mail, text);
    var conds := SimpleToConditions(t);
    LeafConditions(t, m);
    LeafHolds(t, m);
    MatchesByIndex(FlattenTest(t).value.join, conds, m);
    OneFieldHolds(t, mail, text, v);
    OneFieldHolds(t, mail, text, w);
    var k :| 0 <= k < |t.values| && t.values[k] == w;
    assert MatchesCondition(conds[k], m);
    assert |conds| > 1 by { TwoValues(t.values, v, w); }
  }

  lemma TwoValues(values: seq<string>, v: string, w: string)
    requires v in values && w in values && v != w
    ensures |values| > 1
  {}

  // ----- groups -----

  lemma {:induction false} FlattenNonEmpty(t: TestNode)
    requires Grammatical(t) && FlattenTest(t).Some?
    ensures FlattenTest(t).value.conds != []
    decreases t, 0
  {
    match t
    case TrueTest =>
    case Simple(_, _, _, _, _, _) =>
      PerValueMembers(Condition(t.kind, t.part, t.op, t.negated, Join(t.headers, ","), ""), LeafValues(t));
    case Group(all, children) =>
      assert children[0] in children;
      FlattenNonEmpty(children[0]);
  }

  /** A test that flattens to one condition is flattened soundly. */
  lemma {:induction false} SingleSound(t: TestNode, m: Message)
    requires Grammatical(t) && CleanHeaders(t) && FlattenTest(t).Some? && |FlattenTest(t).value.conds| == 1
    ensures FlatHolds(t, m) == HoldsTest(t, m) == MatchesCondition(FlattenTest(t).value.conds[0], m)
    ensures NegatedOnce(t)
    decreases t, 0
  {
    var cs := FlattenTest(t).value.conds;
    assert cs[0] in cs && forall c :: c in cs ==> c == cs[0];
    match t
    case TrueTest =>
    case Simple(_, _, _, _, _, _) =>
      LeafConditions(t, m);
      assert forall v, w :: v in LeafValues(t) && w in LeafValues(t) ==> v == w;
      assert SameOn(t, m);
      LeafSound(t, m);
    case Group(all, children) =>
      OneChild(all, children);
      assert children == [children[0]] && children[0] in children;
      SingleSound(children[0], m);
      assert forall c :: c in children ==> c == children[0];
  }

  /** A group that flattens to one condition has one child, which flattens to the same. */
  lemma OneChild(all: bool, children: seq<TestNode>)
    requires children != [] && (forall c :: c in children ==> Grammatical(c))
    requires FlattenTest(Group(all, children)).Some? && |FlattenTest(Group(all, children)).value.conds| == 1
    ensures |children| == 1 && FlattenTest(children[0]).Some?
    ensures FlattenTest(children[0]).value.conds == FlattenTest(Group(all, children)).value.conds
  {
    ChildCounts(all, |children| == 1, children);
    assert children[0] in children;
    FlattenNonEmpty(children[0]);
    if |children| == 1 {
      assert children[1..] == [];
      assert FlattenTest(children[0]).value.conds + [] == FlattenTest(children[0]).value.conds;
    }
  }

  lemma {:induction false} ChildCounts(all: bool, alone: bool, children: seq<TestNode>)
    requires forall c :: c in children ==> Grammatical(c)
    requires FlattenChildren(all, alone, children).Some?
    ensures |FlattenChildren(all, alone, children).value| >= |children|
  {
    if children != [] {
      assert children[0] in children && forall c :: c in children[1..] ==> c in children;
      FlattenNonEmpty(children[0]);
      ChildCounts(all, alone, children[1..]);
    }
  }

  /** In a group with several children, or any conjunction, every child flattens to one condition. */
  lemma {:induction false} ChildrenSound(all: bool, children: seq<TestNode>, m: Message)
    requires forall c :: c in children ==> Grammatical(c) && CleanHeaders(c)
    requires FlattenChildren(all, false, children).Some?
    ensures var cs := FlattenChildren(all, false, children).value;
            && ((forall c :: c in cs ==> MatchesCondition(c, m)) <==> forall t :: t in children ==> HoldsTest(t, m))
            && ((exists c :: c in cs && MatchesCondition(c, m)) <==> exists t :: t in children && HoldsTest(t, m))
    ensures forall t :: t in children ==> NegatedOnce(t)
  {
    if children != [] {
      var t, rest := children[0], children[1..];
      assert children == [t] + rest;
      assert forall x :: x in children <==> x == t || x in rest;
      FlattenNonEmpty(t);
      var own := FlattenTest(t).value.conds;
      assert |own| == 1;
      SingleSound(t, m);
      ChildrenSound(all, rest, m);
      var more := FlattenChildren(all, false, rest).value;
      assert own == [own[0]];
      assert FlattenChildren(all, false, children).value == [own[0]] + more;
      assert forall c :: c in [own[0]] + more <==> c == own[0] || c in more;
    }
  }

  lemma AloneMatters(children: seq<TestNode>, all: bool)
    requires FlattenChildren(all, |children| == 1, children).Some? && (all || |children| != 1)
    ensures FlattenChildren(all, false, children) == FlattenChildren(all, |children| == 1, children)
  {
    if all { AloneInAll(children, |children| == 1); }
  }

  lemma {:induction false} AloneInAll(children: seq<TestNode>, alone: bool)
    ensures FlattenChildren(true, alone, children) == FlattenChildren(true, false, children)
  {
    if children != [] { AloneInAll(children[1..], alone); }
  }

  /** Only a chain of one-child disjunctions reaches a leaf with several values. */
  lemma {:induction false} TreeSound(t: TestNode, m: Message)
    requires Grammatical(t) && CleanHeaders(t) && FlattenTest(t).Some? && NegatedAlike(t, m.mail) && Possible(m)
    ensures FlatHolds(t, m) == HoldsTest(t, m)
    decreases t
  {
    match t
    case TrueTest => SingleSound(t, m);
    case Simple(_, _, _, negated, _, _) =>
      if negated { AlikeIsSame(t, m); }
      LeafSound(t, m);
    case Group(all, children) =>
      if all || |children| != 1 {
        AloneMatters(children, all);
        ChildrenSound(all, children, m);
      } else {
        AloneChild(children);
        assert children[0] in children && forall c :: c in children ==> c == children[0];
        TreeSound(children[0], m);
        AloneJoin(children, m);
      }
  }

  lemma AloneChild(children: seq<TestNode>)
    requires |children| == 1 && FlattenTest(Group(false, children)).Some?
    ensures FlattenTest(children[0]).Some?
    ensures FlattenTest(Group(false, children)) == Some(Flat(AnyOf, FlattenTest(children[0]).value.conds))
    ensures |FlattenTest(children[0]).value.conds| > 1 ==> FlattenTest(children[0]).value.join == AnyOf
  {
    assert children[1..] == [] && FlattenChildren(false, true, []) == Some([]);
    var own := FlattenTest(children[0]).value.conds;
    assert FlattenChildren(false, true, children) == Some(own + []);
    assert own + [] == own;
  }

  lemma AloneJoin(children: seq<TestNode>, m: Message)
    requires |children| == 1 && FlattenTest(Group(false, children)).Some? && Grammatical(children[0])
    ensures FlattenTest(children[0]).Some? && FlatHolds(Group(false, children), m) == FlatHolds(children[0], m)
  {
    AloneChild(children);
    FlattenNonEmpty(children[0]);
    var f := FlattenTest(children[0]).value;
    if |f.conds| == 1 { JoinOfOne(f.conds, m); }
  }

  /** Otherwise some message with possible fields shows the difference. */
  lemma {:induction false} TreeUnsound(t: TestNode, mail: Mail) returns (m: Message)
    requires Grammatical(t) && CleanHeaders(t) && FlattenTest(t).Some? && !NegatedAlike(t, mail)
    ensures m.mail == mail && Possible(m) && FlatHolds(t, m) != HoldsTest(t, m)
    decreases t
  {
    m := Message(mail, iset{});
    match t
    case TrueTest =>
    case Simple(kind, part, op, _, _, values) =>
      var v, w :| v in values && w in values && !Alike(mail, kind, part, op, v, w);
      var text :| text in mail.possible && Hits(mail, kind, part, op, text, v) != Hits(mail, kind, part, op, text, w);
      if Hits(mail, kind, part, op, text, v) {
        m := LeafUnsound(t, mail, text, v, w);
      } else {
        m := LeafUnsound(t, mail, text, w, v);
      }
    case Group(all, children) =>
      if all || |children| != 1 {
        AloneMatters(children, all);
        ChildrenSound(all, children, m);
        forall c | c in children ensures NegatedAlike(c, mail) { OnceIsAlike(c, mail); }
      } else {
        AloneChild(children);
        assert children[0] in children && forall c :: c in children ==> c == children[0];
        m := TreeUnsound(children[0], mail);
        AloneJoin(children, m);
      }
  }

  /**
   `flattenTest` on a tree of the parser with clean header names, for any way of matching: the flat list means the
   same on every message exactly when no negated test has two values that a field body can tell apart.
   */
  lemma FlattenSound(t: TestNode, mail: Mail)
    requires Grammatical(t) && CleanHeaders(t) && FlattenTest(t).Some?
    ensures (forall m: Message :: m.mail == mail && Possible(m) ==> FlatHolds(t, m) == HoldsTest(t, m))
            <==> NegatedAlike(t, mail)
  {
    if NegatedAlike(t, mail) {
      forall m: Message | m.mail == mail && Possible(m) ensures FlatHolds(t, m) == HoldsTest(t, m) { TreeSound(t, m); }
    } else {
      var m := TreeUnsound(t, mail);
      assert FlatHolds(t, m) != HoldsTest(t, m);
    }
  }

  /** `not header :is <name> [<a>, <b>]` */
  function NotEither(name: string, a: string, b: string): TestNode { Simple(Header, Whole, Is, true, [name], [a, b]) }

  /**
   Which negated two-value tests survive: with equality, those whose values the comparator takes for equal, such as
   "a" and "A" without regard to case, and no others whose first value can be a field body.
   */
  lemma NotEitherSound(name: string, a: string, b: string, mail: Mail)
    requires CleanItem(name) && a in mail.possible && mail.matches(Is, a, a)
    ensures FlattenTest(NotEither(name, a, b)).Some?
    ensures (forall m: Message :: m.mail == mail && Possible(m) ==>
            FlatHolds(NotEither(name, a, b), m) == HoldsTest(NotEither(name, a, b), m))
       <==> forall text :: text in mail.possible ==> mail.matches(Is, text, a) == mail.matches(Is, text, b)
    ensures !mail.matches(Is, a, b) ==>
      !forall m: Message :: m.mail == mail && Possible(m) ==>
        FlatHolds(NotEither(name, a, b), m) == HoldsTest(NotEither(name, a, b), m)
  {
    var t := NotEither(name, a, b);
    FlattenSound(t, mail);
    assert a in t.values && b in t.values;
    assert Alike(mail, Header, Whole, Is, a, b)
      <==> forall text :: text in mail.possible ==> mail.matches(Is, text, a) == mail.matches(Is, text, b) by {
      forall text ensures Hits(mail, Header, Whole, Is, text, a) == mail.matches(Is, text, a) &&
        Hits(mail, Header, Whole, Is, text, b) == mail.matches(Is, text, b) {}
    }
    assert NegatedAlike(t, mail) <==> Alike(mail, Header, Whole, Is, a, b);
  }
}
