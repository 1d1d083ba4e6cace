/** What an imported rule is called, and the rule that each statement becomes, told without the reader's own steps. */
module SieveTitles {
  import opened Wrappers
  import opened Seqs
  import opened SieveText
  import opened SieveModel
  import opened SieveLexer
  import opened SieveParser
  import opened SieveFlatten
  import opened SieveScripts
  import opened SieveLexing

  predicate AllBlank(s: string) { forall c :: c in s ==> IsSpace(c) }

  // ----- trimming -----

  predicate NoOuterBlanks(t: string) { t != "" ==> !IsSpace(t[0]) && !IsSpace(t[|t| - 1]) }

  /** `t` is `s` without the blanks around it. */
  ghost predicate Trimmed(s: string, t: string) {
    NoOuterBlanks(t) && exists a, b :: Around(s, a, t, b)
  }

  predicate Around(s: string, a: string, t: string, b: string) {
    s == a + (t + b) && AllBlank(a) && AllBlank(b)
  }

  lemma {:induction false} StartDropped(a: string, rest: string)
    requires AllBlank(a) && (rest == "" || !IsSpace(rest[0]))
    ensures TrimStart(a + rest) == rest
  {
    if a == "" {
      Units(rest);
    } else {
      HeadTail(a);
      TailOfConcat(a, rest);
      StartDropped(a[1..], rest);
    }
  }

  lemma {:induction false} EndDropped(t: string, b: string)
    requires AllBlank(b) && NoOuterBlanks(t)
    ensures TrimEnd(t + b) == t
  {
    if b == "" {
      Units(t);
    } else {
      var k := |b| - 1;
      assert b[k] in b && (t + b)[..|t| + k] == t + b[..k] && (t + b)[|t| + k] == b[k];
      EndDropped(t, b[..k]);
    }
  }

  lemma TrimmedIs(s: string, a: string, t: string, b: string)
    requires Around(s, a, t, b) && NoOuterBlanks(t)
    ensures Trim(s) == t
  {
    if t == "" {
      Units(b);
      assert AllBlank(a + b);
      assert s == (a + b) + "";
      StartDropped(a + b, "");
    } else {
      StartDropped(a, t + b);
      EndDropped(t, b);
    }
  }

  lemma {:induction false} StartParts(s: string) returns (a: string)
    ensures s == a + TrimStart(s) && AllBlank(a)
  {
    if s != "" && IsSpace(s[0]) {
      var more := StartParts(s[1..]);
      a := [s[0]] + more;
      Assoc([s[0]], more, TrimStart(s[1..]));
      HeadTail(s);
    } else {
      a := "";
      Units(s);
    }
  }

  lemma {:induction false} EndParts(s: string) returns (b: string)
    ensures s == TrimEnd(s) + b && AllBlank(b)
    decreases |s|
  {
    if s != "" && IsSpace(s[|s| - 1]) {
      var k := |s| - 1;
      var more := EndParts(s[..k]);
      b := more + [s[k]];
      Assoc(TrimEnd(s[..k]), more, [s[k]]);
      FrontLast(s);
    } else {
      b := "";
      Units(s);
    }
  }

  lemma TrimExactly(s: string, t: string)
    ensures Trim(s) == t <==> Trimmed(s, t)
  {
    var a := StartParts(s);
    var b := EndParts(TrimStart(s));
    TrimmedEnds(s);
    assert Around(s, a, Trim(s), b);
    if Trimmed(s, t) {
      var a', b' :| Around(s, a', t, b');
      TrimmedIs(s, a', t, b');
    }
  }

  // ----- the name in a comment -----

  /** The text after `rule:` as blanks, perhaps an opening bracket, and the text up to a closing bracket or the end. */
  predicate Caption(s: string, blanks: string, open: string, inner: string, tail: string) {
    && s == blanks + (open + (inner + tail))
    && AllBlank(blanks) && (open == "" || open == "[") && ']' !in inner && (tail == "" || tail[0] == ']')
    && (open == "" && inner != "" ==> !IsSpace(inner[0]) && inner[0] != '[')
  }

  /** The name is that text; where there is none it is the bracket, or else the last blank. */
  predicate Called(blanks: string, open: string, inner: string, name: string) {
    if inner != "" then name == inner
    else if open != "" then name == "["
    else blanks != "" && name == [blanks[|blanks| - 1]]
  }

  ghost predicate Names(s: string, name: string) {
    exists blanks, open, inner, tail :: Caption(s, blanks, open, inner, tail) && Called(blanks, open, inner, name)
  }

  predicate RuleWord(s: string, k: nat) {
    && k + 5 <= |s| && (s[k] == 'r' || s[k] == 'R') && (s[k + 1] == 'u' || s[k + 1] == 'U')
    && (s[k + 2] == 'l' || s[k + 2] == 'L') && (s[k + 3] == 'e' || s[k + 3] == 'E') && s[k + 4] == ':'
  }

  ghost predicate NamedAt(s: string, k: nat, name: string) { RuleWord(s, k) && Names(s[k + 5..], name) }

  /** The comment has no name before the place where it has this one. */
  ghost predicate Titled(s: string, name: string) {
    exists k: nat :: NamedAt(s, k, name) && forall j: nat, other: string :: j < k ==> !NamedAt(s, j, other)
  }

  lemma CaptionBody(body: string, open: string, inner: string, tail: string)
    requires body == open + (inner + tail) && (open == "" || open == "[")
    requires ']' !in inner && (tail == "" || tail[0] == ']')
    requires open == "" && inner != "" ==> inner[0] != '['
    ensures var rest := if body != "" && body[0] == '[' then body[1..] else body;
            && rest == inner + tail && (rest != body <==> open != "")
            && Run(rest, NotBracket) == |inner| && rest[..|inner|] == inner
  {
    assert forall k :: 0 <= k < |inner| ==> inner[k] in inner;
    RunOf(inner, tail, NotBracket);
    Parts(inner, tail);
    if open == "" { Units(inner + tail); } else { ConsTail('[', inner + tail); }
  }

  lemma CaptionRead(s: string, blanks: string, open: string, inner: string, tail: string)
    requires Caption(s, blanks, open, inner, tail)
    ensures forall name :: NameAfter(s) == Some(name) <==> Called(blanks, open, inner, name)
  {
    var body := open + (inner + tail);
    assert forall k :: 0 <= k < |blanks| ==> blanks[k] in blanks;
    assert body == "" || !IsSpace(body[0]);
    RunOf(blanks, body, IsSpace);
    Parts(blanks, body);
    CaptionBody(body, open, inner, tail);
    if blanks != "" { assert s[|blanks| - 1..|blanks|] == [blanks[|blanks| - 1]]; }
  }

  lemma Captioned(s: string) returns (blanks: string, open: string, inner: string, tail: string)
    ensures Caption(s, blanks, open, inner, tail)
  {
    var sp := Run(s, IsSpace);
    var body := s[sp..];
    blanks := s[..sp];
    assert s == blanks + body;
    assert body != "" ==> !IsSpace(body[0]);
    open, inner, tail := CaptionedBody(body);
  }

  lemma CaptionedBody(body: string) returns (open: string, inner: string, tail: string)
    ensures body == open + (inner + tail) && (open == "" || open == "[")
    ensures ']' !in inner && (tail == "" || tail[0] == ']')
    ensures open == "" && inner != "" ==> inner[0] == body[0] && inner[0] != '['
  {
    open := if body != "" && body[0] == '[' then "[" else "";
    var rest := body[|open|..];
    var n := Run(rest, NotBracket);
    inner, tail := rest[..n], rest[n..];
    assert rest == inner + tail;
    assert body == open + rest;
    assert forall k :: 0 <= k < n ==> inner[k] == rest[k];
  }

  lemma NamesExactly(s: string, name: string)
    ensures NameAfter(s) == Some(name) <==> Names(s, name)
  {
    var blanks, open, inner, tail := Captioned(s);
    CaptionRead(s, blanks, open, inner, tail);
    if Names(s, name) {
      var a, o, i, t :| Caption(s, a, o, i, t) && Called(a, o, i, name);
      CaptionRead(s, a, o, i, t);
    }
  }

  lemma RuleWordIs(s: string)
    requires |s| >= 5
    ensures Lower(s[..5]) == "rule:" <==> RuleWord(s, 0)
  {
    var t, w := Lower(s[..5]), "rule:";
    assert forall k :: 0 <= k < 5 ==> t[k] == LowerChar(s[k]);
    assert t == w <==> t[0] == w[0] && t[1] == w[1] && t[2] == w[2] && t[3] == w[3] && t[4] == w[4];
  }

  lemma NamedLater(s: string, k: nat, name: string)
    requires s != ""
    ensures NamedAt(s, k + 1, name) <==> NamedAt(s[1..], k, name)
  {
    if k + 6 <= |s| { assert s[1..][k + 5..] == s[k + 6..]; }
  }

  lemma NamedFirst(s: string, name: string)
    requires |s| >= 5
    ensures NamedAt(s, 0, name) <==> Lower(s[..5]) == "rule:" && NameAfter(s[5..]) == Some(name)
  {
    RuleWordIs(s);
    NamesExactly(s[5..], name);
  }

  /** The first name is found, and only where there is none nothing is found. */
  lemma {:induction false} TitleFound(s: string)
    ensures match NameMatch(s)
            case Some(name) => Titled(s, name)
            case None => forall k: nat, name: string :: !NamedAt(s, k, name)
  {
    if |s| >= 5 {
      forall name: string ensures NamedAt(s, 0, name) <==>
          Lower(s[..5]) == "rule:" && NameAfter(s[5..]) == Some(name) { NamedFirst(s, name); }
      forall k: nat, name: string ensures NamedAt(s, k + 1, name) <==> NamedAt(s[1..], k, name) {
        NamedLater(s, k, name);
      }
      TitleFound(s[1..]);
      TitleStep(s);
    }
  }

  lemma TitleStep(s: string)
    requires |s| >= 5
    requires forall name: string :: NamedAt(s, 0, name) <==> Lower(s[..5]) == "rule:" && NameAfter(s[5..]) == Some(name)
    requires match NameMatch(s[1..])
             case Some(name) => Titled(s[1..], name)
             case None => forall k: nat, name: string :: !NamedAt(s[1..], k, name)
    ensures match NameMatch(s)
            case Some(name) => Titled(s, name)
            case None => forall k: nat, name: string :: !NamedAt(s, k, name)
  {
    if Lower(s[..5]) == "rule:" && NameAfter(s[5..]).Some? {
      assert NamedAt(s, 0, NameAfter(s[5..]).value);
    } else {
      forall k: nat, name: string | NamedAt(s, k, name) ensures k > 0 && NamedAt(s[1..], k - 1, name) {
        if k > 0 { NamedLater(s, k - 1, name); }
      }
      if NameMatch(s[1..]).Some? {
        var name := NameMatch(s[1..]).value;
        var k: nat :| NamedAt(s[1..], k, name) && forall j: nat, other: string :: j < k ==> !NamedAt(s[1..], j, other);
        NamedLater(s, k, name);
      }
    }
  }

  lemma OneTitle(s: string, a: string, b: string)
    requires Titled(s, a) && Titled(s, b)
    ensures a == b
  {
    var k: nat :| NamedAt(s, k, a) && forall j: nat, other: string :: j < k ==> !NamedAt(s, j, other);
    var l: nat :| NamedAt(s, l, b) && forall j: nat, other: string :: j < l ==> !NamedAt(s, j, other);
    assert k == l;
    NamesExactly(s[k + 5..], a);
    NamesExactly(s[k + 5..], b);
  }

  lemma TitleExactly(s: string, name: string)
    ensures NameMatch(s) == Some(name) <==> Titled(s, name)
    ensures NameMatch(s) == None <==> forall n: string :: !Titled(s, n)
  {
    TitleFound(s);
    forall n: string | Titled(s, n) ensures NameMatch(s) == Some(n) {
      if NameMatch(s).Some? { OneTitle(s, n, NameMatch(s).value); }
    }
  }

  // ----- numbers -----

  predicate AllDigits(d: string) { forall k :: 0 <= k < |d| ==> '0' <= d[k] <= '9' }

  function Value(d: string): nat
    requires AllDigits(d)
  {
    if d == "" then 0 else 10 * Value(d[..|d| - 1]) + (d[|d| - 1] as int - '0' as int)
  }

  /** `d` is the decimal writing of `n`, without leading zeros. */
  predicate Numeral(d: string, n: nat) {
    && d != "" && AllDigits(d) && Value(d) == n && (|d| > 1 ==> d[0] != '0')
  }

  lemma {:induction false} DecimalNumeral(n: nat)
    ensures Numeral(Decimal(n), n) && (n > 0 ==> Decimal(n)[0] != '0')
  {
    var more, d := if n < 10 then "" else Decimal(n / 10), ('0' as int + n % 10) as char;
    assert (more + [d])[..|more|] == more;
    if n >= 10 { DecimalNumeral(n / 10); }
  }

  lemma {:induction false} PositiveValue(d: string)
    requires d != "" && AllDigits(d) && d[0] != '0'
    ensures Value(d) > 0
  {
    FrontLast(d);
    if |d| > 1 { PositiveValue(d[..|d| - 1]); }
  }

  lemma LastDigit(high: nat, low: nat)
    requires low < 10
    ensures (10 * high + low) / 10 == high && (10 * high + low) % 10 == low
  {}

  lemma {:induction false} OneNumeral(d: string, n: nat)
    requires Numeral(d, n)
    ensures d == Decimal(n)
  {
    var front, last := d[..|d| - 1], d[|d| - 1];
    assert d == front + [last];
    LastDigit(Value(front), last as int - '0' as int);
    if |d| > 1 {
      PositiveValue(front);
      assert front[0] == d[0];
      OneNumeral(front, Value(front));
    }
  }

  // ----- rules -----

  /** The rule's name: the one in its comment, trimmed, or a number counting the rules before it. */
  ghost predicate NameIs(title: string, before: nat, name: string) {
    || (exists n :: Titled(title, n) && Trimmed(n, name))
    || ((forall n :: !Titled(title, n)) && Numbered(before + 1, name))
  }

  ghost predicate Numbered(n: nat, name: string) { exists d :: Numeral(d, n) && name == "Rule " + d }

  lemma NumberedIs(n: nat, name: string)
    ensures Numbered(n, name) <==> name == "Rule " + Decimal(n)
  {
    DecimalNumeral(n);
    forall d | Numeral(d, n) ensures d == Decimal(n) { OneNumeral(d, n); }
  }

  lemma NameExactly(title: string, before: nat, name: string)
    ensures RuleName(title, before) == name <==> NameIs(title, before, name)
  {
    forall n: string ensures (NameMatch(title) == Some(n) <==> Titled(title, n)) { TitleExactly(title, n); }
    forall n: string ensures Trim(n) == name <==> Trimmed(n, name) { TrimExactly(n, name); }
    TitleExactly(title, "");
    NumberedIs(before + 1, name);
  }

  ghost predicate ActionsMean(cs: seq<Command>, actions: seq<Action>) {
    |actions| == |cs| && forall k :: 0 <= k < |cs| ==> CommandMeans(cs[k], actions[k])
  }

  ghost predicate CommandMeans(c: Command, a: Action) { ActionMeans(c.name, c.annots, c.strs, a) }

  /** The rule of a statement after `before` others: on, with its name, the flat form of its test and its actions. */
  ghost predicate RuleOf(s: Stmt, before: nat, r: Rule) {
    match s
    case Bare(c) =>
      r.name == "Unconditional actions" && r.enabled && r.join == AllOf && r.conditions == []
      && ActionsMean([c], r.actions)
    case If(title, test, block) =>
      NameIs(title, before, r.name) && r.enabled && FlattenTest(test) == Some(Flat(r.join, r.conditions))
      && ActionsMean(block, r.actions)
  }

  lemma {:induction false} ActionsExactly(cs: seq<Command>, actions: seq<Action>)
    ensures Supported(cs) && ToActions(cs) == actions <==> ActionsMean(cs, actions)
    decreases |cs|
  {
    if cs == [] {
    } else if actions == [] {
    } else {
      HeadTail(cs);
      HeadTail(actions);
      ActionExactly(cs[0], actions[0]);
      ActionsExactly(cs[1..], actions[1..]);
      assert ActionsMean(cs, actions) <==> CommandMeans(cs[0], actions[0]) && ActionsMean(cs[1..], actions[1..]) by {
        assert forall k :: 0 < k < |cs| ==> cs[k] == cs[1..][k - 1];
        assert forall k :: 0 < k < |actions| ==> actions[k] == actions[1..][k - 1];
        assert forall k :: 0 <= k < |cs| - 1 ==> cs[1..][k] == cs[k + 1];
        assert forall k :: 0 <= k < |actions| - 1 ==> actions[1..][k] == actions[k + 1];
      }
    }
  }

  lemma RuleExactly(s: Stmt, before: nat, r: Rule)
    ensures ToRule(s, before) == Some(r) <==> RuleOf(s, before, r)
  {
    match s
    case Bare(c) =>
      if ActionsMean([c], r.actions) {
        assert CommandMeans([c][0], r.actions[0]);
        assert r.actions == [r.actions[0]];
        ActionExactly(c, r.actions[0]);
      }
      if ToAction(c).Some? { ActionExactly(c, ToAction(c).value); }
    case If(title, test, block) =>
      NameExactly(title, before, r.name);
      ActionsExactly(block, r.actions);
  }

  ghost predicate RulesOf(ss: seq<Stmt>, before: nat, rs: seq<Rule>) {
    |rs| == |ss| && forall k :: 0 <= k < |ss| ==> RuleOf(ss[k], before + k, rs[k])
  }

  lemma RulesOfCons(ss: seq<Stmt>, before: nat, rs: seq<Rule>)
    requires ss != [] && rs != []
    ensures RulesOf(ss, before, rs) <==> RuleOf(ss[0], before, rs[0]) && RulesOf(ss[1..], before + 1, rs[1..])
  {
    if RulesOf(ss, before, rs) {
      forall k | 0 <= k < |ss| - 1 ensures RuleOf(ss[1..][k], before + 1 + k, rs[1..][k]) {
        assert RuleOf(ss[k + 1], before + (k + 1), rs[k + 1]);
      }
    }
    if RuleOf(ss[0], before, rs[0]) && RulesOf(ss[1..], before + 1, rs[1..]) {
      forall k | 0 <= k < |ss| ensures RuleOf(ss[k], before + k, rs[k]) {
        if k > 0 { assert RuleOf(ss[1..][k - 1], before + 1 + (k - 1), rs[1..][k - 1]); }
      }
    }
  }

  /** Each statement becomes exactly the rule it stands for, in order; one that stands for none fails the import. */
  lemma {:induction false} RulesExactly(ss: seq<Stmt>, before: nat, rs: seq<Rule>)
    ensures ToRules(ss, before) == Some(rs) <==> RulesOf(ss, before, rs)
    decreases |ss|
  {
    if ss != [] {
      if rs != [] {
        RuleExactly(ss[0], before, rs[0]);
        RulesExactly(ss[1..], before + 1, rs[1..]);
        RulesOfCons(ss, before, rs);
        HeadTail(rs);
      }
    }
  }
}
