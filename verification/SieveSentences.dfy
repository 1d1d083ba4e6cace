/**
 The tests that the importer accepts, as a grammar of its own: phrases with every spelling the parser takes, the tokens
 they are written with, and the syntax tree each of them means. The parser accepts exactly these, whatever comments
 stand between the tokens.
 */
module SieveSentences {
  import opened Wrappers
  import opened Seqs
  import opened SieveModel
  import opened SieveLexer
  import opened SieveParser

  /** A string list as written: one string, or several in brackets. */
  datatype Listed = One(item: string) | Many(items: seq<string>)

  /** An annotation; `:comparator` may be followed by its name. */
  datatype Sign = Sign(word: string, text: Option<string>)

  datatype Phrase =
    | Always
    | Plain(word: string, signs: seq<Sign>, lists: seq<Listed>)
    | Negation(inner: Phrase)
    | Paren(inner: Phrase)
    | Several(word: string, members: seq<Phrase>)

  // ----- how a phrase is written, before the tokens `more` -----

  function WriteItems(items: seq<string>, more: Toks): Toks {
    if items == [] then more
    else if |items| == 1 then [Quoted(items[0])] + ([Punct(']')] + more)
    else [Quoted(items[0])] + ([Punct(',')] + WriteItems(items[1..], more))
  }

  function WriteList(l: Listed, more: Toks): Toks {
    match l case One(item) => [Quoted(item)] + more case Many(items) => [Punct('[')] + WriteItems(items, more)
  }

  function WriteLists(ls: seq<Listed>, more: Toks): Toks {
    if ls == [] then more else WriteList(ls[0], WriteLists(ls[1..], more))
  }

  function WriteSigns(signs: seq<Sign>, more: Toks): Toks {
    if signs == [] then more
    else
      var rest := WriteSigns(signs[1..], more);
      [Annot(signs[0].word)] + match signs[0].text case None => rest case Some(s) => [Quoted(s)] + rest
  }

  function Write(p: Phrase, more: Toks): Toks
    decreases p, 0
  {
    match p
    case Always => [Word("true")] + more
    case Plain(word, signs, lists) => [Word(word)] + WriteSigns(signs, WriteLists(lists, more))
    case Negation(inner) => [Word("not")] + Write(inner, more)
    case Paren(inner) => [Punct('(')] + Write(inner, [Punct(')')] + more)
    case Several(word, members) => [Word(word)] + ([Punct('(')] + WriteAll(members, [Punct(')')] + more))
  }

  function WriteAll(members: seq<Phrase>, more: Toks): Toks
    decreases members, 1
  {
    if members == [] then more
    else if |members| == 1 then Write(members[0], more)
    else Write(members[0], [Punct(',')] + WriteAll(members[1..], more))
  }

  // ----- what a phrase means -----

  function Items(l: Listed): seq<string> { match l case One(item) => [item] case Many(items) => items }

  function Words(signs: seq<Sign>): seq<string> { if signs == [] then [] else [signs[0].word] + Words(signs[1..]) }

  /** At most one match type, perhaps repeated; without any it is `:is`. */
  predicate MatchType(words: seq<string>, op: Op) {
    && (":contains" in words <==> op == Contains)
    && (":matches" in words <==> op == Matches)
    && (":is" in words ==> op == Is)
  }

  predicate NamesPart(word: string) { word == ":domain" || word == ":localpart" || word == ":user" }

  /** At most one part of an address; without any, or with `:all`, it is the whole address. */
  predicate AddressPart(words: seq<string>, part: Part) {
    && (":domain" in words <==> part == Domain)
    && (":localpart" in words <==> part == LocalPart)
    && (":user" in words <==> part == User)
    && forall i, j :: 0 <= i < j < |words| && NamesPart(words[i]) ==> !NamesPart(words[j]) && words[j] != ":all"
  }

  /** A known annotation; only `:comparator` has a name after it. */
  predicate GoodSign(s: Sign) {
    match s.word
    case ":is" => s.text.None?
    case ":contains" => s.text.None?
    case ":matches" => s.text.None?
    case ":domain" => s.text.None?
    case ":localpart" => s.text.None?
    case ":user" => s.text.None?
    case ":all" => s.text.None?
    case ":comparator" => true
    case _ => false
  }

  predicate EndsBareComparator(signs: seq<Sign>) {
    signs != [] && signs[|signs| - 1] == Sign(":comparator", None)
  }

  predicate GoodLists(ls: seq<Listed>) { forall l :: l in ls ==> Items(l) != [] }

  /** A string right after `:comparator` is its name and not the first list. */
  predicate GoodSimple(signs: seq<Sign>, lists: seq<Listed>) {
    && (forall s :: s in signs ==> GoodSign(s)) && GoodLists(lists) && lists != []
    && (EndsBareComparator(signs) ==> lists[0].Many?)
  }

  /** How the lists of a test are its headers and keys. */
  predicate Lists(word: string, lists: seq<Listed>, kind: TestKind, headers: seq<string>, values: seq<string>) {
    match word
    case "header" => kind == Header && |lists| == 2 && headers == Items(lists[0]) && values == Items(lists[1])
    case "address" =>
      kind == Address &&
      if |lists| == 1 then headers == [] && values == Items(lists[0])
      else |lists| == 2 && headers == Items(lists[0]) && values == Items(lists[1])
    case "exists" => kind == Exists && |lists| == 1 && headers == Items(lists[0]) && values == []
    case _ => false
  }

  /** Parts are read in every test and matter in address tests. */
  predicate PartMeans(words: seq<string>, kind: TestKind, part: Part) {
    exists named :: AddressPart(words, named) && part == if kind == Address then named else Whole
  }

  /** The tree of a phrase; `inNot` says that it stands under a `not`, where no other may stand. */
  ghost predicate Means(p: Phrase, t: TestNode, inNot: bool)
    decreases p
  {
    match p
    case Always => t == TrueTest
    case Plain(word, signs, lists) =>
      && t.Simple? && !t.negated && GoodSimple(signs, lists)
      && MatchType(Words(signs), t.op) && PartMeans(Words(signs), t.kind, t.part)
      && Lists(word, lists, t.kind, t.headers, t.values)
    case Negation(inner) => !inNot && t.Simple? && t.negated && Means(inner, t.(negated := false), true)
    case Paren(inner) => Means(inner, t, inNot)
    case Several(word, members) =>
      && t.Group? && (word == "allof" || word == "anyof") && (t.all <==> word == "allof")
      && members != [] && |members| == |t.children|
      && forall i :: 0 <= i < |members| ==> Means(members[i], t.children[i], inNot)
  }

  // ----- comments -----

  /** The tokens that are not comments. */
  function NoComments(ts: Toks): Toks {
    if ts == [] then [] else if ts[0].Comment? then NoComments(ts[1..]) else [ts[0]] + NoComments(ts[1..])
  }

  lemma {:induction false} BareStep(ts: Toks)
    ensures Skip(ts) == [] ==> NoComments(ts) == []
    ensures Skip(ts) != [] ==> NoComments(ts) == [Skip(ts)[0]] + NoComments(Skip(ts)[1..])
  {
    if ts != [] && ts[0].Comment? { BareStep(ts[1..]); }
  }

  lemma ConsParts(x: Tok, s: Toks)
    ensures ([x] + s)[0] == x && ([x] + s)[1..] == s && [x] + s != []
  {}

  lemma SameCons(x: Tok, s: Toks, y: Tok, t: Toks)
    requires [x] + s == [y] + t
    ensures x == y && s == t
  {
    ConsParts(x, s);
    ConsParts(y, t);
  }

  /** A token list that reads `t` first. */
  lemma Reads(ts: Toks, t: Tok, more: Toks)
    requires NoComments(ts) == [t] + more
    ensures Skip(ts) != [] && Skip(ts)[0] == t && NoComments(Skip(ts)[1..]) == more
  {
    BareStep(ts);
    if Skip(ts) != [] { SameCons(Skip(ts)[0], NoComments(Skip(ts)[1..]), t, more); }
  }

  predicate Starts(ts: Toks, t: Tok) { ts != [] && ts[0] == t }

  lemma NextIsFirst(ts: Toks, t: Tok)
    ensures Next(ts, t) <==> Starts(NoComments(ts), t)
    ensures Next(ts, t) ==> NoComments(ts) == [t] + NoComments(After(ts))
    ensures StartsList(ts) <==> NoComments(ts) != [] && (NoComments(ts)[0].Quoted? || NoComments(ts)[0] == Punct('['))
  {
    BareStep(ts);
  }

  // ----- string lists -----

  lemma {:induction false} ItemsRead(ts: Toks)
    ensures PItems(ts).Ok? ==> NoComments(ts) == WriteItems(PItems(ts).value, NoComments(PItems(ts).rest))
    decreases |ts|
  {
    var us := Skip(ts);
    BareStep(ts);
    if us != [] && us[0].Quoted? {
      NextIsFirst(us[1..], Punct(','));
      NextIsFirst(us[1..], Punct(']'));
      if Next(us[1..], Punct(',')) { ItemsRead(After(us[1..])); }
    }
  }

  lemma {:induction false} ItemsWritten(ts: Toks, items: seq<string>, more: Toks)
    requires items != [] && NoComments(ts) == WriteItems(items, more)
    ensures PItems(ts).Ok? && PItems(ts).value == items && NoComments(PItems(ts).rest) == more
    decreases |items|
  {
    var us := Skip(ts);
    if |items| == 1 {
      Reads(ts, Quoted(items[0]), [Punct(']')] + more);
      Reads(us[1..], Punct(']'), more);
    } else {
      Reads(ts, Quoted(items[0]), [Punct(',')] + WriteItems(items[1..], more));
      Reads(us[1..], Punct(','), WriteItems(items[1..], more));
      ItemsWritten(After(us[1..]), items[1..], more);
      HeadTail(items);
    }
  }

  lemma ListRead(ts: Toks) returns (l: Listed)
    requires PList(ts).Ok?
    ensures Items(l) == PList(ts).value && Items(l) != [] && NoComments(ts) == WriteList(l, NoComments(PList(ts).rest))
  {
    var us := Skip(ts);
    BareStep(ts);
    if us[0].Quoted? {
      l := One(us[0].text);
    } else {
      ItemsRead(us[1..]);
      l := Many(PList(ts).value);
    }
  }

  lemma ListWritten(ts: Toks, l: Listed, more: Toks)
    requires Items(l) != [] && NoComments(ts) == WriteList(l, more)
    ensures StartsList(ts) && PList(ts).Ok? && PList(ts).value == Items(l) && NoComments(PList(ts).rest) == more
  {
    match l
    case One(item) => Reads(ts, Quoted(item), more);
    case Many(items) =>
      Reads(ts, Punct('['), WriteItems(items, more));
      ItemsWritten(Skip(ts)[1..], items, more);
  }

  predicate NoList(ts: Toks) { ts == [] || (!ts[0].Quoted? && ts[0] != Punct('[')) }

  predicate SameItems(ls: seq<Listed>, lists: seq<seq<string>>) {
    |ls| == |lists| && forall i :: 0 <= i < |ls| ==> Items(ls[i]) == lists[i]
  }

  lemma {:induction false} ListsRead(ts: Toks) returns (ls: seq<Listed>)
    requires PLists(ts).Ok?
    ensures SameItems(ls, PLists(ts).value) && GoodLists(ls)
    ensures NoComments(ts) == WriteLists(ls, NoComments(PLists(ts).rest)) && NoList(NoComments(PLists(ts).rest))
    decreases |ts|
  {
    NextIsFirst(ts, Punct('['));
    if !StartsList(ts) {
      ls := [];
    } else {
      var l := ListRead(ts);
      var more := ListsRead(PList(ts).rest);
      ls := [l] + more;
      ConsTail(l, more);
    }
  }

  lemma {:induction false} ListsWritten(ts: Toks, ls: seq<Listed>, more: Toks)
    requires GoodLists(ls) && NoList(more) && NoComments(ts) == WriteLists(ls, more)
    ensures PLists(ts).Ok? && SameItems(ls, PLists(ts).value) && NoComments(PLists(ts).rest) == more
    decreases |ls|
  {
    if ls == [] {
      NextIsFirst(ts, Punct('['));
    } else {
      assert ls[0] in ls && forall l :: l in ls[1..] ==> l in ls;
      ListWritten(ts, ls[0], WriteLists(ls[1..], more));
      ListsWritten(PList(ts).rest, ls[1..], more);
    }
  }

  // ----- annotations -----

  /** What the annotations read so far, `words`, leave as the match type and the part. */
  predicate SoFar(words: seq<string>, op: Option<Op>, part: Part) {
    && AddressPart(words, part)
    && (op.None? <==> ":is" !in words && ":contains" !in words && ":matches" !in words)
    && (op.Some? ==> MatchType(words, op.value))
  }

  lemma InBoth(a: seq<string>, b: seq<string>, x: string)
    ensures x in a + b <==> x in a || x in b
  {}

  lemma OneMoreWord(words: seq<string>, a: string, rest: seq<string>)
    ensures words + ([a] + rest) == (words + [a]) + rest
    ensures forall x :: x in words + [a] <==> x in words || x == a
    ensures forall x :: x in (words + [a]) + rest <==> x in words || x == a || x in rest
  {}

  /** A match type after others: it repeats them, or none fits. */
  lemma OpWord(words: seq<string>, op: Option<Op>, part: Part, a: string, rest: seq<string>, o: Op)
    requires SoFar(words, op, part) && OpOf(a).Some?
    ensures op.None? || op == OpOf(a) ==> SoFar(words + [a], OpOf(a), part)
    ensures op.Some? && op != OpOf(a) ==> !MatchType((words + [a]) + rest, o)
  {
    OneMoreWord(words, a, rest);
    PartStays(words, part, a);
  }

  lemma PartStays(words: seq<string>, part: Part, a: string)
    requires AddressPart(words, part) && !NamesPart(a) && a != ":all"
    ensures AddressPart(words + [a], part)
  {
    OneMoreWord(words, a, []);
  }

  lemma NamedSomewhere(words: seq<string>, part: Part) returns (k: nat)
    requires AddressPart(words, part) && part != Whole
    ensures k < |words| && NamesPart(words[k])
  {
    var name := match part case Domain => ":domain" case LocalPart => ":localpart" case _ => ":user";
    assert name in words;
    k :| 0 <= k < |words| && words[k] == name;
  }

  /** A part after others: only `:all` may have come before it. */
  lemma PartWord(words: seq<string>, op: Option<Op>, part: Part, a: string, rest: seq<string>, p: Part)
    requires SoFar(words, op, part) && PartOf(a).Some?
    ensures part == Whole ==> SoFar(words + [a], op, PartOf(a).value)
    ensures part != Whole ==> !AddressPart((words + [a]) + rest, p)
  {
    OneMoreWord(words, a, rest);
    if part == Whole {
      FirstPart(words, a);
    } else {
      var k := NamedSomewhere(words, part);
      var all := (words + [a]) + rest;
      assert all[k] == words[k] && all[|words|] == a;
    }
  }

  lemma FirstPart(words: seq<string>, a: string)
    requires AddressPart(words, Whole) && PartOf(a).Some?
    ensures AddressPart(words + [a], PartOf(a).value)
  {
    OneMoreWord(words, a, []);
    assert forall i :: 0 <= i < |words| ==> words[i] in words && !NamesPart(words[i]);
  }

  lemma OtherWord(words: seq<string>, op: Option<Op>, part: Part)
    requires SoFar(words, op, part)
    ensures SoFar(words + [":comparator"], op, part)
  {
    OneMoreWord(words, ":comparator", []);
    PartStays(words, part, ":comparator");
  }

  predicate GoodSigns(signs: seq<Sign>) { forall s :: s in signs ==> GoodSign(s) }

  predicate NoAnnot(ts: Toks) { ts == [] || !ts[0].Annot? }

  /** What follows annotations: not another one, and no string right after `:comparator`. */
  predicate SignsEnd(signs: seq<Sign>, more: Toks) {
    NoAnnot(more) && (EndsBareComparator(signs) ==> more == [] || !more[0].Quoted?)
  }

  lemma ConsSigns(s: Sign, rest: seq<Sign>, more: Toks)
    ensures GoodSigns([s] + rest) <==> GoodSign(s) && GoodSigns(rest)
    ensures Words([s] + rest) == [s.word] + Words(rest)
    ensures SignsEnd([s] + rest, more) <==>
              if rest == [] then NoAnnot(more) && (s == Sign(":comparator", None) ==> more == [] || !more[0].Quoted?)
              else SignsEnd(rest, more)
    ensures WriteSigns([s] + rest, more) ==
            [Annot(s.word)] +
              match s.text case None => WriteSigns(rest, more) case Some(t) => [Quoted(t)] + WriteSigns(rest, more)
  {
    ConsTail(s, rest);
    assert forall x :: x in [s] + rest <==> x == s || x in rest;
  }

  lemma DoneSigns(ts: Toks, op: Option<Op>, part: Part, words: seq<string>)
    requires SoFar(words, op, part)
    ensures MatchType(words + [], if op.None? then Is else op.value) && AddressPart(words + [], part)
    ensures forall o, p :: MatchType(words + [], o) && AddressPart(words + [], p) ==>
              o == (if op.None? then Is else op.value) && p == part
  {
    assert words + [] == words;
  }

  /** The signs stand at the start of `ts`, and the reading `r` of them is what they mean after these words. */
  ghost predicate SignsOf(ts: Toks, signs: seq<Sign>, r: Res<(Op, Part)>, words: seq<string>)
    requires r.Ok?
  {
    && GoodSigns(signs) && SignsEnd(signs, NoComments(r.rest))
    && NoComments(ts) == WriteSigns(signs, NoComments(r.rest))
    && MatchType(words + Words(signs), r.value.0) && AddressPart(words + Words(signs), r.value.1)
  }

  lemma OneMoreSign(ts: Toks, rest: Toks, s: Sign, more: seq<Sign>, r: Res<(Op, Part)>, words: seq<string>)
    requires r.Ok? && GoodSign(s) && SignsOf(rest, more, r, words + [s.word])
    requires s == Sign(":comparator", None) && more == [] ==> !StartsQuoted(NoComments(rest))
    requires NoComments(ts) ==
             [Annot(s.word)] + match s.text case None => NoComments(rest) case Some(t) => [Quoted(t)] + NoComments(rest)
    ensures SignsOf(ts, [s] + more, r, words)
  {
    ConsSigns(s, more, NoComments(r.rest));
    OneMoreWord(words, s.word, Words(more));
  }

  predicate StartsQuoted(ts: Toks) { ts != [] && ts[0].Quoted? }

  /** The annotations that the parser accepts are known ones, and mean what the grammar says. */
  lemma {:induction false} SignsRead(ts: Toks, op: Option<Op>, part: Part, words: seq<string>)
      returns (signs: seq<Sign>)
    requires SoFar(words, op, part) && PAnnots(ts, op, part).Ok?
    ensures SignsOf(ts, signs, PAnnots(ts, op, part), words)
    decreases |ts|
  {
    var us := Skip(ts);
    BareStep(ts);
    if us == [] || !us[0].Annot? {
      signs := [];
      DoneSigns(ts, op, part, words);
    } else {
      var a, rest := us[0].text, us[1..];
      var more;
      var text: Option<string> := None;
      var r := PAnnots(ts, op, part);
      if OpOf(a).Some? {
        OpWord(words, op, part, a, [], Is);
        more := SignsRead(rest, OpOf(a), part, words + [a]);
        OneMoreSign(ts, rest, Sign(a, None), more, r, words);
      } else if PartOf(a).Some? {
        PartWord(words, op, part, a, [], Whole);
        more := SignsRead(rest, op, PartOf(a).value, words + [a]);
        OneMoreSign(ts, rest, Sign(a, None), more, r, words);
      } else {
        OtherWord(words, op, part);
        BareStep(rest);
        if Skip(rest) != [] && Skip(rest)[0].Quoted? {
          text := Some(Skip(rest)[0].text);
          more := SignsRead(After(rest), op, part, words + [a]);
          OneMoreSign(ts, After(rest), Sign(a, text), more, r, words);
        } else {
          more := SignsRead(rest, op, part, words + [a]);
          OneMoreSign(ts, rest, Sign(a, None), more, r, words);
        }
      }
      signs := [Sign(a, text)] + more;
    }
  }

  /** The tokens after the first annotation's word. */
  function TailOf(signs: seq<Sign>, more: Toks): Toks
    requires signs != []
  {
    match signs[0].text
    case None => WriteSigns(signs[1..], more)
    case Some(t) => [Quoted(t)] + WriteSigns(signs[1..], more)
  }

  /** One annotation read: the rest is read with what it adds. */
  lemma SignStep(ts: Toks, op: Option<Op>, part: Part, words: seq<string>, s: Sign, rest: seq<string>, o: Op, p: Part)
      returns (op2: Option<Op>, part2: Part)
    requires SoFar(words, op, part) && Starts(Skip(ts), Annot(s.word)) && GoodSign(s)
    requires MatchType((words + [s.word]) + rest, o) && AddressPart((words + [s.word]) + rest, p)
    ensures SoFar(words + [s.word], op2, part2)
    ensures s.word != ":comparator" ==> PAnnots(ts, op, part) == PAnnots(Skip(ts)[1..], op2, part2)
    ensures s.word == ":comparator" ==> op2 == op && part2 == part
  {
    op2, part2 := op, part;
    if OpOf(s.word).Some? {
      OpWord(words, op, part, s.word, rest, o);
      op2 := OpOf(s.word);
    } else if PartOf(s.word).Some? {
      PartWord(words, op, part, s.word, rest, p);
      part2 := PartOf(s.word).value;
    } else {
      OtherWord(words, op, part);
    }
  }

  lemma ComparatorStep(ts: Toks, op: Option<Op>, part: Part)
    requires Starts(Skip(ts), Annot(":comparator"))
    ensures var rest := Skip(ts)[1..];
            PAnnots(ts, op, part) ==
              if Skip(rest) != [] && Skip(rest)[0].Quoted? then PAnnots(After(rest), op, part)
              else PAnnots(rest, op, part)
  {}

  /** And all of these are accepted. */
  lemma {:induction false} SignsWritten(ts: Toks, op: Option<Op>, part: Part, words: seq<string>, signs: seq<Sign>,
      more: Toks, o: Op, p: Part)
    requires SoFar(words, op, part) && GoodSigns(signs) && SignsEnd(signs, more)
    requires NoComments(ts) == WriteSigns(signs, more)
    requires MatchType(words + Words(signs), o) && AddressPart(words + Words(signs), p)
    ensures PAnnots(ts, op, part).Ok? && PAnnots(ts, op, part).value == (o, p)
    ensures NoComments(PAnnots(ts, op, part).rest) == more
    decreases |signs|
  {
    if signs == [] {
      BareStep(ts);
      DoneSigns(ts, op, part, words);
    } else {
      var s, rest, us := signs[0], signs[1..], Skip(ts);
      HeadTail(signs);
      ConsSigns(s, rest, more);
      OneMoreWord(words, s.word, Words(rest));
      Reads(ts, Annot(s.word), TailOf(signs, more));
      var op2, part2 := SignStep(ts, op, part, words, s, Words(rest), o, p);
      if s.word != ":comparator" {
        SignsWritten(us[1..], op2, part2, words + [s.word], rest, more, o, p);
      } else {
        ComparatorStep(ts, op, part);
        if s.text.Some? {
          Reads(us[1..], Quoted(s.text.value), WriteSigns(rest, more));
          SignsWritten(After(us[1..]), op2, part2, words + [s.word], rest, more, o, p);
        } else {
          BareStep(us[1..]);
          TailNotQuoted(rest, more);
          SignsWritten(us[1..], op2, part2, words + [s.word], rest, more, o, p);
        }
      }
    }
  }

  lemma TailNotQuoted(rest: seq<Sign>, more: Toks)
    ensures rest != [] ==> WriteSigns(rest, more) != [] && WriteSigns(rest, more)[0].Annot?
    ensures rest == [] ==> WriteSigns(rest, more) == more
  {}

  /**
   Annotations are read exactly as they mean: a list of them is accepted if and only if all are known, all match types
   agree and at most one part is named, with no other part and no `:all` after it.
   */
  lemma AnnotationsExactly(ts: Toks, signs: seq<Sign>, more: Toks, op: Op, part: Part)
    requires SignsEnd(signs, more) && NoComments(ts) == WriteSigns(signs, more)
    requires forall s :: s in signs ==> s.text.Some? ==> s.word == ":comparator"
    ensures (exists rest :: PAnnots(ts, None, Whole) == Ok((op, part), rest) && NoComments(rest) == more) <==>
            GoodSigns(signs) && MatchType(Words(signs), op) && AddressPart(Words(signs), part)
  {
    assert [] + Words(signs) == Words(signs);
    if GoodSigns(signs) && MatchType(Words(signs), op) && AddressPart(Words(signs), part) {
      SignsWritten(ts, None, Whole, [], signs, more, op, part);
    }
    if PAnnots(ts, None, Whole).Ok? {
      var read := SignsRead(ts, None, Whole, []);
      assert [] + Words(read) == Words(read);
      SameSigns(signs, more, read, NoComments(PAnnots(ts, None, Whole).rest));
    }
  }

  /** Annotations are written in one way only. */
  lemma {:induction false} SameSigns(a: seq<Sign>, more: Toks, b: seq<Sign>, others: Toks)
    requires WriteSigns(a, more) == WriteSigns(b, others) && SignsEnd(a, more) && SignsEnd(b, others)
    requires forall s :: s in a || s in b ==> s.text.Some? ==> s.word == ":comparator"
    ensures a == b && more == others
    decreases |a|
  {
    if a != [] && b != [] {
      HeadTail(a);
      HeadTail(b);
      ConsSigns(a[0], a[1..], more);
      ConsSigns(b[0], b[1..], others);
      SameCons(Annot(a[0].word), TailOf(a, more), Annot(b[0].word), TailOf(b, others));
      TailNotQuoted(a[1..], more);
      TailNotQuoted(b[1..], others);
      SameText(a[0].text, WriteSigns(a[1..], more), b[0].text, WriteSigns(b[1..], others));
      SameSigns(a[1..], more, b[1..], others);
    }
  }

  lemma SameText(a: Option<string>, tail: Toks, b: Option<string>, other: Toks)
    requires (match a case None => tail case Some(t) => [Quoted(t)] + tail) ==
             (match b case None => other case Some(t) => [Quoted(t)] + other)
    requires a.None? ==> tail == [] || !tail[0].Quoted? || b.None?
    requires b.None? ==> other == [] || !other[0].Quoted? || a.None?
    ensures a == b && tail == other
  {
    if a.Some? && b.Some? { SameCons(Quoted(a.value), tail, Quoted(b.value), other); }
  }

  // ----- simple tests -----

  lemma ArgumentsMean(word: string, kind: TestKind, ls: seq<Listed>, lists: seq<seq<string>>, headers: seq<string>,
      values: seq<string>)
    requires KindOf(word) == Some(kind) && SameItems(ls, lists)
    ensures Arguments(kind, lists) == Some((headers, values)) <==> Lists(word, ls, kind, headers, values)
  {}

  lemma ListsNotAnnot(ls: seq<Listed>, more: Toks)
    requires ls != []
    ensures var w := WriteLists(ls, more);
            w != [] && !w[0].Annot? && (w[0].Quoted? <==> ls[0].One?)
  {}

  lemma LastComparator(signs: seq<Sign>, lists: seq<Listed>, more: Toks)
    requires lists != []
    ensures SignsEnd(signs, WriteLists(lists, more)) <==> (EndsBareComparator(signs) ==> lists[0].Many?)
  {
    ListsNotAnnot(lists, more);
  }

  lemma PartOfKind(words: seq<string>, kind: TestKind, named: Part)
    requires AddressPart(words, named)
    ensures PartMeans(words, kind, if kind == Address then named else Whole)
  {}

  lemma SimpleRead(ts: Toks, word: string, kind: TestKind) returns (signs: seq<Sign>, lists: seq<Listed>)
    requires KindOf(word) == Some(kind) && PSimple(kind, ts).Ok?
    ensures Means(Plain(word, signs, lists), PSimple(kind, ts).value, false)
    ensures NoComments(ts) == WriteSigns(signs, WriteLists(lists, NoComments(PSimple(kind, ts).rest)))
  {
    var a := PAnnots(ts, None, Whole);
    signs := SignsRead(ts, None, Whole, []);
    assert [] + Words(signs) == Words(signs);
    lists := ListsRead(a.rest);
    var read, t := PLists(a.rest).value, PSimple(kind, ts).value;
    ArgumentsMean(word, kind, lists, read, t.headers, t.values);
    LastComparator(signs, lists, NoComments(PSimple(kind, ts).rest));
    PartOfKind(Words(signs), kind, a.value.1);
  }

  lemma SimpleWritten(ts: Toks, word: string, signs: seq<Sign>, lists: seq<Listed>, more: Toks, t: TestNode)
    requires Means(Plain(word, signs, lists), t, false) && NoList(more)
    requires NoComments(ts) == WriteSigns(signs, WriteLists(lists, more))
    ensures KindOf(word) == Some(t.kind) && t.kind != True
    ensures PSimple(t.kind, ts).Ok? && PSimple(t.kind, ts).value == t && NoComments(PSimple(t.kind, ts).rest) == more
  {
    var named :| AddressPart(Words(signs), named) && t.part == if t.kind == Address then named else Whole;
    assert [] + Words(signs) == Words(signs);
    LastComparator(signs, lists, more);
    SignsWritten(ts, None, Whole, [], signs, WriteLists(lists, more), t.op, named);
    var rest := PAnnots(ts, None, Whole).rest;
    ListsWritten(rest, lists, more);
    ArgumentsMean(word, t.kind, lists, PLists(rest).value, t.headers, t.values);
  }

  lemma MeansUnderNot(p: Phrase, t: TestNode)
    requires p.Plain?
    ensures Means(p, t, true) == Means(p, t, false)
  {}

  // ----- tests -----

  /** Every test the parser accepts is a phrase of the grammar, and is read as that phrase means. */
  lemma {:induction false} TestRead(ts: Toks, negDepth: nat) returns (p: Phrase)
    requires PTest(ts, negDepth).Ok?
    ensures Means(p, PTest(ts, negDepth).value, negDepth > 0)
    ensures NoComments(ts) == Write(p, NoComments(PTest(ts, negDepth).rest))
    decreases |ts|, 0
  {
    var us := Skip(ts);
    BareStep(ts);
    if us[0] == Punct('(') {
      var inner := TestRead(us[1..], negDepth);
      NextIsFirst(PTest(us[1..], negDepth).rest, Punct(')'));
      p := Paren(inner);
    } else if us[0].text == "true" {
      p := Always;
    } else if KindOf(us[0].text).Some? {
      var signs, lists := SimpleRead(us[1..], us[0].text, KindOf(us[0].text).value);
      p := Plain(us[0].text, signs, lists);
      MeansUnderNot(p, PTest(ts, negDepth).value);
    } else if us[0].text == "not" {
      var inner := TestRead(us[1..], negDepth + 1);
      p := Negation(inner);
      NotNegated(inner, PTest(us[1..], negDepth + 1).value);
    } else {
      NextIsFirst(us[1..], Punct('('));
      var members := TestsRead(After(us[1..]), negDepth);
      NextIsFirst(PTests(After(us[1..]), negDepth).rest, Punct(')'));
      p := Several(us[0].text, members);
    }
  }

  /** Under a `not` no test is negated. */
  lemma {:induction false} NotNegated(p: Phrase, t: TestNode)
    requires Means(p, t, true)
    ensures t.Simple? ==> !t.negated
    decreases p
  {
    if p.Paren? { NotNegated(p.inner, t); }
  }

  ghost predicate AllMean(members: seq<Phrase>, children: seq<TestNode>, inNot: bool) {
    |members| == |children| && forall i :: 0 <= i < |members| ==> Means(members[i], children[i], inNot)
  }

  lemma ConsMean(p: Phrase, members: seq<Phrase>, t: TestNode, children: seq<TestNode>, inNot: bool)
    ensures AllMean([p] + members, [t] + children, inNot) <==> Means(p, t, inNot) && AllMean(members, children, inNot)
  {
    ConsTail(p, members);
    ConsTail(t, children);
    if AllMean([p] + members, [t] + children, inNot) {
      assert Means(([p] + members)[0], ([t] + children)[0], inNot);
      forall i | 0 <= i < |members| ensures Means(members[i], children[i], inNot) {
        assert Means(([p] + members)[i + 1], ([t] + children)[i + 1], inNot);
      }
    }
  }

  lemma {:induction false} TestsRead(ts: Toks, negDepth: nat) returns (members: seq<Phrase>)
    requires PTests(ts, negDepth).Ok?
    ensures members != [] && AllMean(members, PTests(ts, negDepth).value, negDepth > 0)
    ensures NoComments(ts) == WriteAll(members, NoComments(PTests(ts, negDepth).rest))
    decreases |ts|, 1
  {
    var p := TestRead(ts, negDepth);
    var rest := PTest(ts, negDepth).rest;
    NextIsFirst(rest, Punct(','));
    if Next(rest, Punct(',')) {
      var more := TestsRead(After(rest), negDepth);
      members := [p] + more;
      ConsTail(p, more);
      ConsMean(p, more, PTest(ts, negDepth).value, PTests(After(rest), negDepth).value, negDepth > 0);
    } else {
      members := [p];
    }
  }

  predicate ReadsAs(ts: Toks, negDepth: nat, t: TestNode, more: Toks) {
    PTest(ts, negDepth).Ok? && PTest(ts, negDepth).value == t && NoComments(PTest(ts, negDepth).rest) == more
  }

  lemma ParenStep(ts: Toks, negDepth: nat, t: TestNode, more: Toks)
    requires Skip(ts) != [] && Skip(ts)[0] == Punct('(')
    requires ReadsAs(Skip(ts)[1..], negDepth, t, [Punct(')')] + more)
    ensures ReadsAs(ts, negDepth, t, more)
  {
    var rest := PTest(Skip(ts)[1..], negDepth).rest;
    Reads(rest, Punct(')'), more);
  }

  lemma NotStep(ts: Toks, negDepth: nat, t: TestNode, more: Toks)
    requires negDepth == 0 && t.Simple? && t.negated
    requires Skip(ts) != [] && Skip(ts)[0] == Word("not")
    requires ReadsAs(Skip(ts)[1..], negDepth + 1, t.(negated := false), more)
    ensures ReadsAs(ts, negDepth, t, more)
  {}

  lemma SeveralStep(ts: Toks, negDepth: nat, word: string, t: TestNode, more: Toks)
    requires t.Group? && (word == "allof" || word == "anyof") && (t.all <==> word == "allof")
    requires Skip(ts) != [] && Skip(ts)[0] == Word(word) && Next(Skip(ts)[1..], Punct('('))
    requires var r := PTests(After(Skip(ts)[1..]), negDepth);
             r.Ok? && r.value == t.children && NoComments(r.rest) == [Punct(')')] + more
    ensures ReadsAs(ts, negDepth, t, more)
  {
    Reads(PTests(After(Skip(ts)[1..]), negDepth).rest, Punct(')'), more);
  }

  lemma PlainStep(ts: Toks, negDepth: nat, word: string, signs: seq<Sign>, lists: seq<Listed>, more: Toks, t: TestNode)
    requires Means(Plain(word, signs, lists), t, negDepth > 0) && NoList(more)
    requires NoComments(ts) == Write(Plain(word, signs, lists), more)
    ensures ReadsAs(ts, negDepth, t, more)
  {
    Reads(ts, Word(word), WriteSigns(signs, WriteLists(lists, more)));
    MeansUnderNot(Plain(word, signs, lists), t);
    SimpleWritten(Skip(ts)[1..], word, signs, lists, more, t);
  }

  /** Every phrase of the grammar is accepted, and read as it means. */
  lemma {:induction false} TestWritten(ts: Toks, negDepth: nat, p: Phrase, more: Toks, t: TestNode)
    requires Means(p, t, negDepth > 0) && NoList(more) && NoComments(ts) == Write(p, more)
    ensures ReadsAs(ts, negDepth, t, more)
    decreases p, 0
  {
    var us := Skip(ts);
    match p
    case Always => Reads(ts, Word("true"), more);
    case Plain(word, signs, lists) =>
      PlainStep(ts, negDepth, word, signs, lists, more, t);
    case Negation(inner) =>
      Reads(ts, Word("not"), Write(inner, more));
      TestWritten(us[1..], negDepth + 1, inner, more, t.(negated := false));
      NotStep(ts, negDepth, t, more);
    case Paren(inner) =>
      Reads(ts, Punct('('), Write(inner, [Punct(')')] + more));
      TestWritten(us[1..], negDepth, inner, [Punct(')')] + more, t);
      ParenStep(ts, negDepth, t, more);
    case Several(word, members) =>
      var tail := [Punct(')')] + more;
      Reads(ts, Word(word), [Punct('(')] + WriteAll(members, tail));
      Reads(us[1..], Punct('('), WriteAll(members, tail));
      TestsWritten(After(us[1..]), negDepth, members, tail, t.children);
      SeveralStep(ts, negDepth, word, t, more);
  }

  lemma {:induction false} TestsWritten(ts: Toks, negDepth: nat, members: seq<Phrase>, more: Toks,
      children: seq<TestNode>)
    requires members != [] && AllMean(members, children, negDepth > 0) && NoComments(ts) == WriteAll(members, more)
    requires NoList(more) && !Starts(more, Punct(','))
    ensures PTests(ts, negDepth).Ok? && PTests(ts, negDepth).value == children &&
            NoComments(PTests(ts, negDepth).rest) == more
    decreases members, 1
  {
    assert Means(members[0], children[0], negDepth > 0);
    if |members| == 1 {
      TestWritten(ts, negDepth, members[0], more, children[0]);
      NextIsFirst(PTest(ts, negDepth).rest, Punct(','));
      assert children == [children[0]];
    } else {
      var rest := WriteAll(members[1..], more);
      TestWritten(ts, negDepth, members[0], [Punct(',')] + rest, children[0]);
      Reads(PTest(ts, negDepth).rest, Punct(','), rest);
      TestsWritten(After(PTest(ts, negDepth).rest), negDepth, members[1..], more, children[1..]);
      HeadTail(children);
    }
  }

  /**
   The parser accepts a test exactly when it is a phrase of the grammar, with comments anywhere, and reads it as what
   the phrase means.
   */
  lemma TestExactly(ts: Toks, t: TestNode, more: Toks)
    requires NoList(more)
    ensures (exists rest :: PTest(ts, 0) == Ok(t, rest) && NoComments(rest) == more) <==>
            exists p :: Means(p, t, false) && NoComments(ts) == Write(p, more)
  {
    if p :| Means(p, t, false) && NoComments(ts) == Write(p, more) { TestWritten(ts, 0, p, more, t); }
    if rest :| PTest(ts, 0) == Ok(t, rest) && NoComments(rest) == more { var p := TestRead(ts, 0); }
  }
}
