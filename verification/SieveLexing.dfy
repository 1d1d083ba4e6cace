/** How pieces of printed text become tokens, wherever in a script they stand. */
module SieveLexing {
  import opened Wrappers
  import opened Seqs
  import opened SieveText
  import opened SieveLexer
  import opened SievePrinter

  predicate StartsWord(s: string) { s != "" && IsWordChar(s[0]) }

  ghost predicate LexesBefore(s: string, ts: Toks, rest: string) {
    Lex(s + rest) == Prepend(ts, Lex(rest))
  }

  /** `s` gives the tokens `ts` whatever follows; an open piece must not be followed by a word character. */
  ghost predicate Lexes(s: string, ts: Toks, closed: bool) {
    forall rest: string {:trigger LexesBefore(s, ts, rest)} ::
      closed || !StartsWord(rest) ==> LexesBefore(s, ts, rest)
  }

  lemma LexNothing()
    ensures Lexes("", [], true)
  {
    forall rest: string ensures LexesBefore("", [], rest) {
      assert "" + rest == rest;
      PrependNothing(Lex(rest));
    }
  }

  lemma LexConcat(a: string, ta: Toks, closedA: bool, b: string, tb: Toks, closed: bool)
    requires Lexes(a, ta, closedA) && Lexes(b, tb, closed)
    requires closedA || (b != "" && !IsWordChar(b[0]))
    ensures Lexes(a + b, ta + tb, closed)
  {
    forall rest: string | closed || !StartsWord(rest)
      ensures LexesBefore(a + b, ta + tb, rest)
    {
      assert LexesBefore(b, tb, rest);
      assert LexesBefore(a, ta, b + rest);
      assert (a + b) + rest == a + (b + rest);
      PrependAppend(ta, tb, Lex(rest));
    }
  }

  /** A whole text. */
  lemma LexWhole(s: string, ts: Toks, closed: bool)
    requires Lexes(s, ts, closed)
    ensures Lex(s) == Some(ts)
  {
    assert LexesBefore(s, ts, "");
    assert s + "" == s;
    assert ts + [] == ts;
  }

  // ----- single tokens -----

  lemma {:induction false} RunOver(a: string, rest: string, p: char -> bool)
    requires forall k :: 0 <= k < |a| ==> p(a[k])
    ensures Run(a + rest, p) == |a| + Run(rest, p)
  {
    if a == "" {
      Units(rest);
    } else {
      RunOver(a[1..], rest, p);
      TailOfConcat(a, rest);
    }
  }

  lemma RunOf(a: string, rest: string, p: char -> bool)
    requires forall k :: 0 <= k < |a| ==> p(a[k])
    requires rest == "" || !p(rest[0])
    ensures Run(a + rest, p) == |a|
  {
    RunOver(a, rest, p);
  }

  lemma LexSpace(c: char)
    requires IsSpace(c)
    ensures Lexes([c], [], true)
  {
    forall rest: string ensures LexesBefore([c], [], rest) {
      ConsTail(c, rest);
    }
  }

  lemma ScanMark(c: char, rest: string)
    requires IsMark(c)
    ensures Scan([c] + rest) == Read([Punct(c)], 1)
  {
    ConsTail(c, rest);
  }

  lemma LexMark(c: char)
    requires IsMark(c)
    ensures Lexes([c], [Punct(c)], true)
  {
    forall rest: string ensures LexesBefore([c], [Punct(c)], rest) {
      ScanMark(c, rest);
      ConsTail(c, rest);
      LexScanned([c] + rest, [Punct(c)], rest, 1);
    }
  }

  predicate IsLowerName(w: string) {
    forall k :: 0 <= k < |w| ==> IsWordChar(w[k]) && LowerChar(w[k]) == w[k]
  }

  lemma LowerStays(w: string)
    requires IsLowerName(w)
    ensures Lower(w) == w
  {}

  lemma LexScanned(s: string, ts: Toks, rest: string, n: nat)
    requires s != "" && Scan(s) == Read(ts, n) && s[n..] == rest
    ensures Lex(s) == Prepend(ts, Lex(rest))
  {}

  lemma Parts(w: string, rest: string)
    ensures (w + rest)[..|w|] == w && (w + rest)[|w|..] == rest
  {}

  lemma ScanWord(w: string, rest: string)
    requires w != "" && IsWordStart(w[0]) && IsLowerName(w) && !StartsWord(rest)
    ensures Scan(w + rest) == Read([Word(w)], |w|)
  {
    TailOfConcat(w, rest);
    RunOf(w[1..], rest, IsWordChar);
    Parts(w, rest);
    LowerStays(w);
  }

  lemma LexWord(w: string)
    requires w != "" && IsWordStart(w[0]) && IsLowerName(w)
    ensures Lexes(w, [Word(w)], false)
  {
    forall rest: string | !StartsWord(rest) ensures LexesBefore(w, [Word(w)], rest) {
      ScanWord(w, rest);
      Parts(w, rest);
      LexScanned(w + rest, [Word(w)], rest, |w|);
    }
  }

  lemma ScanAnnot(w: string, rest: string)
    requires w != "" && IsLowerName(w) && !StartsWord(rest)
    ensures Scan(":" + w + rest) == Read([Annot(":" + w)], |w| + 1)
  {
    Assoc(":", w, rest);
    ConsTail(':', w + rest);
    RunOf(w, rest, IsWordChar);
    Parts(":" + w, rest);
    LowerStays(w);
    assert Lower(":" + w) == ":" + w;
  }

  lemma LexAnnot(w: string)
    requires w != "" && IsLowerName(w)
    ensures Lexes(":" + w, [Annot(":" + w)], false)
  {
    forall rest: string | !StartsWord(rest) ensures LexesBefore(":" + w, [Annot(":" + w)], rest) {
      ScanAnnot(w, rest);
      Parts(":" + w, rest);
      LexScanned(":" + w + rest, [Annot(":" + w)], rest, |w| + 1);
    }
  }

  lemma LexWordSpace(w: string)
    requires w != "" && IsWordStart(w[0]) && IsLowerName(w)
    ensures Lexes(w + " ", [Word(w)], true)
  {
    LexWord(w);
    LexSpace(' ');
    LexConcat(w, [Word(w)], false, " ", [], true);
    assert [Word(w)] + [] == [Word(w)];
  }

  lemma LexAnnotSpace(w: string)
    requires w != "" && IsLowerName(w)
    ensures Lexes(":" + w + " ", [Annot(":" + w)], true)
  {
    LexAnnot(w);
    LexSpace(' ');
    LexConcat(":" + w, [Annot(":" + w)], false, " ", [], true);
    assert [Annot(":" + w)] + [] == [Annot(":" + w)];
  }

  lemma ReadEscaped(c: char, tail: string)
    requires ReadQuoted(tail).Some?
    ensures ReadQuoted(EscChar(c) + tail) ==
            Some(([c] + ReadQuoted(tail).value.0, |EscChar(c)| + ReadQuoted(tail).value.1))
  {
    Parts(EscChar(c), tail);
  }

  /** Unescaping undoes escaping: the string literals of section 2.4.2 of RFC 5228 round trip. */
  lemma {:induction false} ReadQuotedOfEsc(s: string, rest: string)
    ensures ReadQuoted(Esc(s) + ("\"" + rest)) == Some((s, |Esc(s)| + 1))
  {
    var close := "\"" + rest;
    if s == "" {
      Units(close);
    } else {
      ReadQuotedOfEsc(s[1..], rest);
      EscHead(s);
      ReadEscaped(s[0], Esc(s[1..]) + close);
      Assoc(EscChar(s[0]), Esc(s[1..]), close);
      HeadTail(s);
    }
  }

  lemma LexQuote(s: string)
    ensures Lexes(Quote(s), [Quoted(s)], true)
  {
    forall rest: string ensures LexesBefore(Quote(s), [Quoted(s)], rest) {
      QuoteShape(s, rest);
      ReadQuotedOfEsc(s, rest);
      LexScanned(Quote(s) + rest, [Quoted(s)], rest, |Esc(s)| + 2);
    }
  }

  lemma QuoteShape(s: string, rest: string)
    ensures (Quote(s) + rest)[0] == '"' && (Quote(s) + rest)[1..] == Esc(s) + ("\"" + rest)
    ensures (Quote(s) + rest)[|Esc(s)| + 2..] == rest
  {}

  lemma LexComment(text: string)
    requires '\n' !in text
    ensures Lexes("#" + text + "\n", [Comment(Trim(text))], true)
  {
    var ts := [Comment(Trim(text))];
    forall rest: string ensures LexesBefore("#" + text + "\n", ts, rest) {
      var s := ("#" + text + "\n") + rest;
      assert s == ("#" + text) + ("\n" + rest);
      RunOf("#" + text, "\n" + rest, NotNewline);
      assert s[1..|text| + 1] == text;
      assert s[|text| + 1..] == "\n" + rest;
      LexSpace('\n');
      assert LexesBefore("\n", [], rest);
      PrependNothing(Lex(rest));
    }
  }

  // ----- blocks -----

  /** A body that is empty or starts with an indented word. */
  predicate IsBody(body: string) {
    body == "" || (|body| >= 3 && body[..2] == "  " && IsWordStart(body[2]))
  }

  lemma NotLiteral(s: string)
    requires Run(s, IsSpace) == |s| || !IsDigit(s[Run(s, IsSpace)])
    ensures !IsLiteralLength(s)
  {}

  lemma BraceOfEmpty(rest: string)
    ensures BraceLength("{" + ("\n" + ("}" + rest))) == 1
  {
    var s := "{" + ("\n" + ("}" + rest));
    ConsTail('{', "\n" + ("}" + rest));
    RunOver("\n", "}" + rest, NotBrace);
    assert s[1..2] == "\n";
    RunOver("\n", "", IsSpace);
    Units("\n");
    NotLiteral("\n");
  }

  lemma BraceOfWord(tail: string)
    requires tail != "" && IsWordStart(tail[0])
    ensures BraceLength("{" + ("\n  " + tail)) == 1
  {
    var t := "\n  " + tail;
    RunOver("\n  ", tail, NotBrace);
    var inner := tail[..Run(t, NotBrace) - 3];
    RunOver("\n  ", inner, IsSpace);
    NotLiteral("\n  " + inner);
    BraceOfContent(t, "\n  " + inner);
  }

  /** A brace is alone when the text up to the next closing brace is no literal length. */
  lemma BraceOfContent(t: string, content: string)
    requires content == t[..Run(t, NotBrace)] && !IsLiteralLength(content)
    ensures BraceLength("{" + t) == 1
  {
    ConsTail('{', t);
    assert ("{" + t)[1..1 + |content|] == content;
  }

  /** The opening brace of a printed block is never read as a literal length. */
  lemma BraceOfBody(body: string, rest: string)
    requires IsBody(body)
    ensures BraceLength("{" + ("\n" + (body + ("}" + rest)))) == 1
  {
    if body == "" {
      Units("}" + rest);
      BraceOfEmpty(rest);
    } else {
      var tail := body[2..] + ("}" + rest);
      assert body == "  " + body[2..] && "\n" + "  " == "\n  ";
      Assoc("  ", body[2..], "}" + rest);
      Assoc("\n", "  ", tail);
      BraceOfWord(tail);
    }
  }

  lemma BlockShape(body: string, rest: string)
    ensures "{\n" + body + "}" + rest == "{" + ("\n" + (body + ("}" + rest)))
  {
    Assoc("{", "\n", body);
    assert "{" + "\n" == "{\n";
    Assoc4("{", "\n" + body, "}", rest);
    Assoc("\n", body, "}" + rest);
    assert "{" + (("\n" + body) + ("}" + rest)) == "{" + ("\n" + (body + ("}" + rest)));
  }

  lemma LexOpening(body: string, rest: string)
    requires IsBody(body)
    ensures Lex("{\n" + body + "}" + rest) == Prepend([Punct('{')], Lex("\n" + (body + ("}" + rest))))
  {
    var inner := "\n" + (body + ("}" + rest));
    BlockShape(body, rest);
    BraceOfBody(body, rest);
    ConsTail('{', inner);
    LexScanned("{" + inner, [Punct('{')], inner, 1);
  }

  lemma LexBlock(body: string, ts: Toks)
    requires IsBody(body) && Lexes(body, ts, true)
    ensures Lexes("{\n" + body + "}", [Punct('{')] + ts + [Punct('}')], true)
  {
    LexMark('}');
    LexConcat(body, ts, true, "}", [Punct('}')], true);
    LexSpace('\n');
    var us := ts + [Punct('}')];
    forall rest: string ensures LexesBefore("{\n" + body + "}", [Punct('{')] + ts + [Punct('}')], rest) {
      LexOpening(body, rest);
      assert LexesBefore("\n", [], (body + "}") + rest);
      assert LexesBefore(body + "}", us, rest);
      Assoc(body, "}", rest);
      PrependNothing(Lex((body + "}") + rest));
      PrependAppend([Punct('{')], us, Lex(rest));
      Assoc([Punct('{')], ts, [Punct('}')]);
    }
  }

  // ----- string lists -----

  /** The tokens of items separated by commas. */
  function ItemToks(items: seq<string>): Toks {
    if items == [] then [] else if |items| == 1 then [Quoted(items[0])]
    else [Quoted(items[0]), Punct(',')] + ItemToks(items[1..])
  }

  function ListToks(items: seq<string>): Toks {
    if |items| == 1 then [Quoted(items[0])] else [Punct('[')] + ItemToks(items) + [Punct(']')]
  }

  lemma {:induction false} LexItems(items: seq<string>)
    ensures Lexes(Join(QuoteAll(items), ","), ItemToks(items), true)
  {
    if items == [] {
      LexNothing();
    } else {
      LexQuote(items[0]);
      if |items| > 1 {
        assert QuoteAll(items)[1..] == QuoteAll(items[1..]);
        LexItems(items[1..]);
        LexMark(',');
        LexConcat(Quote(items[0]), [Quoted(items[0])], true, ",", [Punct(',')], true);
        LexConcat(Quote(items[0]) + ",", [Quoted(items[0])] + [Punct(',')], true, Join(QuoteAll(items[1..]), ","),
          ItemToks(items[1..]), true);
        assert [Quoted(items[0])] + [Punct(',')] == [Quoted(items[0]), Punct(',')];
      }
    }
  }

  lemma LexList(items: seq<string>)
    ensures Lexes(QuoteListOrOne(items), ListToks(items), true)
  {
    if |items| == 1 {
      LexQuote(items[0]);
    } else {
      LexItems(items);
      LexMark('[');
      LexMark(']');
      LexConcat("[", [Punct('[')], true, Join(QuoteAll(items), ","), ItemToks(items), true);
      LexConcat("[" + Join(QuoteAll(items), ","), [Punct('[')] + ItemToks(items), true, "]", [Punct(']')], true);
    }
  }
}
