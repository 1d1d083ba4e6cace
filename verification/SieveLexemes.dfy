/**
 The texts that the importer can split into tokens, as a lexical grammar of its own: every way of writing blanks,
 comments, strings, marks, words, annotations and numbers. A text has tokens exactly when it is a sequence of such
 lexemes, each as long as it can be.
 */
module SieveLexemes {
  import opened Wrappers
  import opened Seqs
  import opened SieveText
  import opened SieveLexer
  import opened SieveLexing

  /** A character of a string, with or without a backslash before it. */
  datatype Letter = Letter(c: char, escaped: bool)

  datatype Lexeme =
    | Blank(c: char)
    | LineNote(text: string)
    | BlockNote(text: string)
    | Text(letters: seq<Letter>)
    | Open
    | OpenLength(text: string)
    | Mark(c: char)
    | Name(text: string)
    | Tag(text: string)
    | Digits(text: string)

  function LettersText(ls: seq<Letter>): string {
    if ls == [] then "" else LetterText(ls[0]) + LettersText(ls[1..])
  }

  function LetterText(l: Letter): string { if l.escaped then "\\" + [l.c] else [l.c] }

  function Letters(ls: seq<Letter>): string { if ls == [] then "" else [ls[0].c] + Letters(ls[1..]) }

  /** How a lexeme is written. */
  function Shape(l: Lexeme): string {
    match l
    case Blank(c) => [c]
    case LineNote(text) => "#" + text
    case BlockNote(text) => "/*" + (text + "*/")
    case Text(letters) => "\"" + (LettersText(letters) + "\"")
    case Open => "{"
    case OpenLength(text) => "{" + (text + "}")
    case Mark(c) => [c]
    case Name(text) => text
    case Tag(text) => ":" + text
    case Digits(text) => text
  }

  /** The tokens of a lexeme. */
  function TokensOf(l: Lexeme): Toks {
    match l
    case Blank(_) => []
    case LineNote(text) => [Comment(Trim(text))]
    case BlockNote(_) => []
    case Text(letters) => [Quoted(Letters(letters))]
    case Open => [Punct('{')]
    case OpenLength(_) => [Punct('{')]
    case Mark(c) => [Punct(c)]
    case Name(text) => [Word(Lower(text))]
    case Tag(text) => [Annot(Lower(":" + text))]
    case Digits(text) => [Num(text)]
  }

  predicate Blanks(s: string) { forall c :: c in s ==> IsSpace(c) }

  predicate Decimals(s: string) { s != "" && forall c :: c in s ==> '0' <= c <= '9' }

  /** The length of a literal: digits, perhaps a plus sign, and blanks around them. */
  ghost predicate LengthText(s: string) {
    exists a, digits, plus, b :: LengthParts(s, a, digits, plus, b)
  }

  predicate LengthParts(s: string, a: string, digits: string, plus: string, b: string) {
    s == a + (digits + (plus + b)) && Blanks(a) && Decimals(digits) && (plus == "" || plus == "+") && Blanks(b)
  }

  predicate NameChars(s: string) {
    forall c :: c in s ==> 'a' <= c <= 'z' || 'A' <= c <= 'Z' || '0' <= c <= '9' || c == '_' || c == '-'
  }

  predicate EndsName(rest: string) { rest == "" || !NameChars(rest[..1]) }

  /** What a lexeme needs of itself and of the text after it. */
  ghost predicate Good(l: Lexeme, rest: string) {
    match l
    case Blank(c) => IsSpace(c)
    case LineNote(text) => '\n' !in text && (rest == "" || rest[0] == '\n')
    case BlockNote(text) => forall k :: 0 <= k < |text| ==> !((text + "*/")[k] == '*' && (text + "*/")[k + 1] == '/')
    case Text(letters) => forall x :: x in letters ==> x.escaped || (x.c != '"' && x.c != '\\')
    case Open => forall n :: 0 <= n < |rest| && rest[n] == '}' && '}' !in rest[..n] ==> !LengthText(rest[..n])
    case OpenLength(text) => LengthText(text)
    case Mark(c) => c in "}(),;[]"
    case Name(text) => text != "" && NameChars(text) && !('0' <= text[0] <= '9') && text[0] != '-' && EndsName(rest)
    case Tag(text) => text != "" && NameChars(text) && EndsName(rest)
    case Digits(text) => Decimals(text) && (rest == "" || !('0' <= rest[0] <= '9'))
  }

  /** A text as lexemes, one after another. */
  ghost predicate Written(ls: seq<Lexeme>, s: string)
    decreases |ls|
  {
    if ls == [] then s == ""
    else
      var n := |Shape(ls[0])|;
      n <= |s| && s[..n] == Shape(ls[0]) && Good(ls[0], s[n..]) && Written(ls[1..], s[n..])
  }

  function AllTokens(ls: seq<Lexeme>): Toks { if ls == [] then [] else TokensOf(ls[0]) + AllTokens(ls[1..]) }

  // ----- one lexeme -----

  lemma WordChars(s: string)
    ensures NameChars(s) <==> forall k :: 0 <= k < |s| ==> IsWordChar(s[k])
  {
    assert forall k :: 0 <= k < |s| ==> s[k] in s;
  }

  lemma RunStops(s: string, p: char -> bool, n: nat)
    requires n <= |s| && (forall k :: 0 <= k < n ==> p(s[k])) && (n < |s| ==> !p(s[n]))
    ensures Run(s, p) == n
  {
    RunOf(s[..n], s[n..], p);
    assert s[..n] + s[n..] == s;
  }

  /** The letters of a string, up to its closing quote. */
  lemma {:induction false} QuotedRead(s: string) returns (ls: seq<Letter>)
    requires ReadQuoted(s).Some?
    ensures var (t, n) := ReadQuoted(s).value;
            t == Letters(ls) && s[..n] == LettersText(ls) + "\"" && Good(Text(ls), "")
    decreases |s|
  {
    if s[0] == '\\' && |s| > 1 {
      var more := QuotedRead(s[2..]);
      var n := ReadQuoted(s[2..]).value.1;
      ls := [Letter(s[1], true)] + more;
      assert s[..n + 2] == ("\\" + [s[1]]) + s[2..][..n];
      Assoc("\\" + [s[1]], LettersText(more), "\"");
    } else if s[0] == '"' {
      ls := [];
    } else {
      var more := QuotedRead(s[1..]);
      var n := ReadQuoted(s[1..]).value.1;
      ls := [Letter(s[0], false)] + more;
      assert s[..n + 1] == [s[0]] + s[1..][..n];
      Assoc([s[0]], LettersText(more), "\"");
      assert s[0] != '\\';
    }
  }

  lemma LetterRead(l: Letter, more: string)
    requires l.escaped || (l.c != '"' && l.c != '\\')
    ensures ReadQuoted(LetterText(l) + more) ==
            match ReadQuoted(more) case None => None case Some((t, n)) => Some(([l.c] + t, n + |LetterText(l)|))
  {
    Parts(LetterText(l), more);
  }

  lemma {:induction false} QuotedWritten(ls: seq<Letter>, rest: string)
    requires Good(Text(ls), "")
    ensures ReadQuoted(LettersText(ls) + ("\"" + rest)) == Some((Letters(ls), |LettersText(ls)| + 1))
    decreases |ls|
  {
    var tail := "\"" + rest;
    if ls == [] {
      Units(tail);
    } else {
      HeadTail(ls);
      QuotedWritten(ls[1..], rest);
      assert ls[0] in ls;
      LetterRead(ls[0], LettersText(ls[1..]) + tail);
      Assoc(LetterText(ls[0]), LettersText(ls[1..]), tail);
    }
  }

  /** The first comment end. */
  lemma {:induction false} CommentEnd(s: string)
    ensures var r := AfterCommentEnd(s);
            && (r.Some? ==> s[..r.value] == s[..r.value - 2] + "*/" && NoEndBefore(s, r.value - 2))
            && (r.None? ==> forall k :: 0 <= k < |s| - 1 ==> !EndAt(s, k))
  {
    if |s| >= 2 && !(s[0] == '*' && s[1] == '/') {
      CommentEnd(s[1..]);
      var r := AfterCommentEnd(s[1..]);
      assert !EndAt(s, 0) && forall k :: 0 < k < |s| - 1 ==> EndAt(s, k) == EndAt(s[1..], k - 1);
    }
  }

  predicate EndAt(s: string, k: nat) { k + 1 < |s| && s[k] == '*' && s[k + 1] == '/' }

  predicate NoEndBefore(s: string, n: nat) { forall k :: 0 <= k < n ==> !EndAt(s, k) }

  lemma CommentEndIs(s: string, n: nat)
    requires EndAt(s, n) && NoEndBefore(s, n)
    ensures AfterCommentEnd(s) == Some(n + 2)
  {
    CommentEnd(s);
    var r := AfterCommentEnd(s);
    if r.Some? {
      assert EndAt(s, r.value - 2) by { assert s[..r.value][r.value - 2..] == "*/"; }
    }
  }

  // ----- the length of a literal -----

  /** The tests of a literal length, once the blanks and the digits are taken off. */
  predicate LengthEnd(tail: string) {
    var plus := if tail != "" && tail[0] == '+' then tail[1..] else tail;
    Run(plus, IsSpace) == |plus|
  }

  lemma LengthByParts(s: string, i: nat, n: nat)
    requires i <= |s| && Run(s, IsSpace) == i && n <= |s| - i && Run(s[i..], IsDigit) == n
    ensures IsLiteralLength(s) <==> n > 0 && LengthEnd(s[i..][n..])
  {}

  lemma LengthEndRead(plus: string, b: string)
    requires (plus == "" || plus == "+") && Blanks(b)
    ensures LengthEnd(plus + b)
  {
    assert forall k :: 0 <= k < |b| ==> b[k] in b;
    RunStops(b, IsSpace, |b|);
    if plus == "" { Units(b); } else { ConsTail('+', b); }
    assert '+' !in b;
  }

  lemma LengthPartsRead(s: string, a: string, digits: string, plus: string, b: string)
    requires LengthParts(s, a, digits, plus, b)
    ensures IsLiteralLength(s)
  {
    var tail := plus + b;
    assert forall k :: 0 <= k < |a| ==> a[k] in a;
    assert forall k :: 0 <= k < |digits| ==> digits[k] in digits;
    assert tail != "" ==> tail[0] == '+' || tail[0] in b;
    RunOf(digits, tail, IsDigit);
    Parts(digits, tail);
    assert (digits + tail)[0] == digits[0];
    RunOf(a, digits + tail, IsSpace);
    Parts(a, digits + tail);
    LengthEndRead(plus, b);
    LengthByParts(s, |a|, |digits|);
  }

  lemma LengthHasNoBrace(s: string, a: string, digits: string, plus: string, b: string)
    requires LengthParts(s, a, digits, plus, b)
    ensures '}' !in s
  {
    assert '}' !in a && '}' !in digits && '}' !in plus && '}' !in b;
  }

  lemma LengthRead(s: string)
    requires LengthText(s)
    ensures IsLiteralLength(s) && '}' !in s
  {
    var a, digits, plus, b :| LengthParts(s, a, digits, plus, b);
    LengthPartsRead(s, a, digits, plus, b);
    LengthHasNoBrace(s, a, digits, plus, b);
  }

  lemma EndSplits(tail: string) returns (plus: string, b: string)
    requires LengthEnd(tail)
    ensures tail == plus + b && (plus == "" || plus == "+") && Blanks(b)
  {
    if tail != "" && tail[0] == '+' {
      plus, b := "+", tail[1..];
    } else {
      plus, b := "", tail;
    }
  }

  lemma RunSplits(s: string, p: char -> bool)
    ensures var n := Run(s, p); s == s[..n] + s[n..] && forall c :: c in s[..n] ==> p(c)
  {}

  lemma PartsJoin(s: string, a: string, digits: string, plus: string, b: string)
    requires Blanks(a) && Decimals(digits) && (plus == "" || plus == "+") && Blanks(b)
    requires s == a + (digits + (plus + b))
    ensures LengthText(s)
  {
    assert LengthParts(s, a, digits, plus, b);
  }

  lemma LengthWritten(s: string)
    requires IsLiteralLength(s)
    ensures LengthText(s)
  {
    var i := Run(s, IsSpace);
    var rest := s[i..];
    var n := Run(rest, IsDigit);
    LengthByParts(s, i, n);
    RunSplits(s, IsSpace);
    RunSplits(rest, IsDigit);
    var plus, b := EndSplits(rest[n..]);
    PartsJoin(s, s[..i], rest[..n], plus, b);
  }

  // ----- every lexeme is read -----

  lemma NoteRead(text: string, rest: string)
    requires Good(LineNote(text), rest)
    ensures Scan(Shape(LineNote(text)) + rest) == Read([Comment(Trim(text))], |text| + 1)
  {
    var s := "#" + text;
    assert forall k :: 0 <= k < |s| ==> NotNewline(s[k]) by {
      assert forall k :: 0 < k < |s| ==> s[k] == text[k - 1] && text[k - 1] in text;
    }
    RunOf(s, rest, NotNewline);
    assert (s + rest)[1..|s|] == text;
  }

  lemma BlockRead(text: string, rest: string)
    requires Good(BlockNote(text), rest)
    ensures Scan(Shape(BlockNote(text)) + rest) == Read([], |text| + 4)
  {
    var s := (text + "*/") + rest;
    forall k | 0 <= k < |text| ensures !EndAt(s, k) {
      assert s[k] == (text + "*/")[k] && s[k + 1] == (text + "*/")[k + 1];
    }
    assert s[|text|] == '*' && s[|text| + 1] == '/';
    CommentEndIs(s, |text|);
    assert Shape(BlockNote(text)) + rest == "/*" + s;
    Parts("/*", s);
  }

  lemma TextRead(ls: seq<Letter>, rest: string)
    requires Good(Text(ls), rest)
    ensures Scan(Shape(Text(ls)) + rest) == Read([Quoted(Letters(ls))], |LettersText(ls)| + 2)
  {
    var s := LettersText(ls) + ("\"" + rest);
    QuotedWritten(ls, rest);
    assert Shape(Text(ls)) + rest == "\"" + s;
    ConsTail('"', s);
  }

  lemma BraceFinds(s: string, n: nat)
    requires n < |s| && s[n] == '}' && '}' !in s[..n]
    ensures BraceLength("{" + s) == if IsLiteralLength(s[..n]) then n + 2 else 1
  {
    assert forall k :: 0 <= k < n ==> s[k] == s[..n][k] && s[..n][k] in s[..n];
    RunStops(s, NotBrace, n);
    ConsTail('{', s);
    assert ("{" + s)[1..1 + n] == s[..n];
  }

  lemma OpenRead(rest: string)
    requires Good(Open, rest)
    ensures Scan("{" + rest) == Read([Punct('{')], 1)
  {
    ConsTail('{', rest);
    var n := Run(rest, NotBrace);
    if n < |rest| {
      assert '}' !in rest[..n];
      BraceFinds(rest, n);
      if IsLiteralLength(rest[..n]) { LengthWritten(rest[..n]); }
    }
  }

  lemma ScanOpen(rest: string)
    ensures Scan("{" + rest) == Read([Punct('{')], BraceLength("{" + rest))
  {}

  lemma OpenLengthRead(text: string, rest: string)
    requires LengthText(text)
    ensures Scan(Shape(OpenLength(text)) + rest) == Read([Punct('{')], |text| + 2)
  {
    LengthRead(text);
    var tail := "}" + rest;
    var s := text + tail;
    Parts(text, tail);
    assert s[|text|] == tail[0];
    BraceFinds(s, |text|);
    ScanOpen(s);
    BraceShape(text, rest);
  }

  lemma BraceShape(text: string, rest: string)
    ensures Shape(OpenLength(text)) + rest == "{" + (text + ("}" + rest))
  {
    Assoc("{", text + "}", rest);
    Assoc(text, "}", rest);
  }

  lemma NameRead(text: string, rest: string)
    requires Good(Name(text), rest)
    ensures Scan(text + rest) == Read([Word(Lower(text))], |text|)
  {
    WordChars(text);
    WordChars(rest[..if rest == "" then 0 else 1]);
    TailOfConcat(text, rest);
    RunOf(text[1..], rest, IsWordChar);
    Parts(text, rest);
  }

  lemma TagRead(text: string, rest: string)
    requires Good(Tag(text), rest)
    ensures Scan(Shape(Tag(text)) + rest) == Read([Annot(Lower(":" + text))], |text| + 1)
  {
    WordChars(text);
    WordChars(rest[..if rest == "" then 0 else 1]);
    Assoc(":", text, rest);
    ConsTail(':', text + rest);
    RunOf(text, rest, IsWordChar);
    Parts(":" + text, rest);
  }

  lemma DigitsRead(text: string, rest: string)
    requires Good(Digits(text), rest)
    ensures Scan(text + rest) == Read([Num(text)], |text|)
  {
    assert forall k :: 0 <= k < |text| ==> text[k] in text;
    RunOf(text, rest, IsDigit);
    Parts(text, rest);
  }

  /** A lexeme with nothing wrong about it or the text behind it is read as its tokens, and no further. */
  lemma LexemeRead(l: Lexeme, rest: string)
    requires Good(l, rest)
    ensures Scan(Shape(l) + rest) == Read(TokensOf(l), |Shape(l)|)
  {
    match l
    case Blank(c) =>
    case LineNote(text) => NoteRead(text, rest);
    case BlockNote(text) => BlockRead(text, rest);
    case Text(letters) => TextRead(letters, rest);
    case Open => OpenRead(rest);
    case OpenLength(text) => OpenLengthRead(text, rest);
    case Mark(c) =>
    case Name(text) => NameRead(text, rest);
    case Tag(text) => TagRead(text, rest);
    case Digits(text) => DigitsRead(text, rest);
  }

  // ----- whatever is read is a lexeme -----

  /** `l` is the lexeme at the start of `s`. */
  ghost predicate Starts(l: Lexeme, s: string) {
    var n := |Shape(l)|;
    n <= |s| && s[..n] == Shape(l) && Good(l, s[n..])
  }

  lemma NoteWritten(s: string) returns (l: Lexeme)
    requires s != "" && s[0] == '#'
    ensures Starts(l, s) && Scan(s) == Read(TokensOf(l), |Shape(l)|)
  {
    var j := Run(s, NotNewline);
    l := LineNote(s[1..j]);
    assert s[..j] == "#" + s[1..j];
    assert forall k :: 0 <= k < |s[1..j]| ==> s[1..j][k] == s[k + 1];
  }

  lemma BlockWritten(s: string) returns (l: Lexeme)
    requires |s| > 1 && s[0] == '/' && s[1] == '*' && AfterCommentEnd(s[2..]).Some?
    ensures Starts(l, s) && Scan(s) == Read(TokensOf(l), |Shape(l)|)
  {
    CommentEnd(s[2..]);
    var n := AfterCommentEnd(s[2..]).value;
    var text := s[2..][..n - 2];
    l := BlockNote(text);
    assert s[..n + 2] == "/*" + s[2..][..n];
    forall k | 0 <= k < |text| ensures !((text + "*/")[k] == '*' && (text + "*/")[k + 1] == '/') {
      assert !EndAt(s[2..], k);
      assert text + "*/" == s[2..][..n];
    }
  }

  lemma TextWritten(s: string) returns (l: Lexeme)
    requires s != "" && s[0] == '"' && ReadQuoted(s[1..]).Some?
    ensures Starts(l, s) && Scan(s) == Read(TokensOf(l), |Shape(l)|)
  {
    var ls := QuotedRead(s[1..]);
    l := Text(ls);
    var n := ReadQuoted(s[1..]).value.1;
    assert s[..n + 1] == "\"" + s[1..][..n];
  }

  lemma StartsWhole(l: Lexeme, rest: string)
    requires Good(l, rest)
    ensures Starts(l, Shape(l) + rest)
  {
    Parts(Shape(l), rest);
  }

  lemma BraceSplits(rest: string, e: nat)
    requires e < |rest| && rest[e] == '}'
    ensures "{" + rest == Shape(OpenLength(rest[..e])) + rest[e + 1..]
  {
    BraceShape(rest[..e], rest[e + 1..]);
    assert rest == rest[..e] + ("}" + rest[e + 1..]);
  }

  lemma LengthLexeme(whole: string, text: string, after: string)
    requires LengthText(text) && whole == Shape(OpenLength(text)) + after
    ensures var l := OpenLength(text); Starts(l, whole) && Scan(whole) == Read(TokensOf(l), |Shape(l)|)
  {
    StartsWhole(OpenLength(text), after);
    OpenLengthRead(text, after);
  }

  lemma NoLength(rest: string, n: nat)
    requires n < |rest| && rest[n] == '}' && '}' !in rest[..n] && BraceLength("{" + rest) == 1
    ensures !LengthText(rest[..n])
  {
    BraceFinds(rest, n);
    if LengthText(rest[..n]) { LengthRead(rest[..n]); }
  }

  lemma OpenAlone(rest: string)
    requires BraceLength("{" + rest) == 1
    ensures Starts(Open, "{" + rest) && Scan("{" + rest) == Read(TokensOf(Open), 1)
  {
    ConsTail('{', rest);
    ScanOpen(rest);
    forall n | 0 <= n < |rest| && rest[n] == '}' && '}' !in rest[..n] ensures !LengthText(rest[..n]) {
      NoLength(rest, n);
    }
  }

  lemma BraceWritten(rest: string) returns (l: Lexeme)
    ensures Starts(l, "{" + rest) && Scan("{" + rest) == Read(TokensOf(l), |Shape(l)|)
  {
    var e := Run(rest, NotBrace);
    RunSplits(rest, NotBrace);
    ConsTail('{', rest);
    if e < |rest| && IsLiteralLength(rest[..e]) {
      LengthWritten(rest[..e]);
      BraceSplits(rest, e);
      LengthLexeme("{" + rest, rest[..e], rest[e + 1..]);
      l := OpenLength(rest[..e]);
    } else {
      if e < |rest| { BraceFinds(rest, e); }
      OpenAlone(rest);
      l := Open;
    }
  }

  /** A run of name characters that cannot go on. */
  lemma RunIsName(s: string, i: nat, n: nat)
    requires i <= n <= |s| && Run(s[i..], IsWordChar) == n - i
    ensures NameChars(s[i..n]) && EndsName(s[n..])
  {
    assert forall k :: 0 <= k < n - i ==> s[i..n][k] == s[i..][k];
    WordChars(s[i..n]);
    if n < |s| {
      assert s[n] == s[i..][n - i] && s[n..][..1] == [s[n]];
      assert s[n] in s[n..][..1];
    }
  }

  lemma TagWritten(s: string, n: nat) returns (l: Lexeme)
    requires 1 < n <= |s| && s[0] == ':' && Run(s[1..], IsWordChar) == n - 1
    ensures Starts(l, s) && TokensOf(l) == [Annot(Lower(s[..n]))] && |Shape(l)| == n
  {
    RunIsName(s, 1, n);
    assert s[..n] == ":" + s[1..n];
    l := Tag(s[1..n]);
  }

  lemma WordWritten(s: string, n: nat) returns (l: Lexeme)
    requires 1 <= n <= |s| && IsWordStart(s[0]) && Run(s[1..], IsWordChar) == n - 1
    ensures Starts(l, s) && TokensOf(l) == [Word(Lower(s[..n]))] && |Shape(l)| == n
  {
    RunIsName(s, 1, n);
    assert s[..n] == [s[0]] + s[1..n];
    l := Name(s[..n]);
  }

  lemma DigitsWritten(s: string) returns (l: Lexeme)
    requires s != "" && IsDigit(s[0])
    ensures var n := Run(s, IsDigit); Starts(l, s) && TokensOf(l) == [Num(s[..n])] && |Shape(l)| == n
  {
    l := Digits(s[..Run(s, IsDigit)]);
  }

  lemma NameWritten(s: string) returns (l: Lexeme)
    requires s != "" && ScanNameOf(s).Read?
    ensures Starts(l, s) && ScanNameOf(s) == Read(TokensOf(l), |Shape(l)|)
  {
    var n := 1 + Run(s[1..], IsWordChar);
    if s[0] == ':' {
      l := TagWritten(s, n);
    } else if IsWordStart(s[0]) {
      l := WordWritten(s, n);
    } else {
      l := DigitsWritten(s);
    }
  }

  lemma LexemeWritten(s: string) returns (l: Lexeme)
    requires s != "" && Scan(s).Read?
    ensures Starts(l, s) && Scan(s) == Read(TokensOf(l), |Shape(l)|)
  {
    var c := s[0];
    if c == '#' { l := NoteWritten(s); }
    else if c == '/' && |s| > 1 && s[1] == '*' { l := BlockWritten(s); }
    else if IsSpace(c) { l := Blank(c); }
    else if c == '"' { l := TextWritten(s); }
    else if c == '{' { l := BraceWritten(s[1..]); assert s == "{" + s[1..]; }
    else if IsMark(c) { l := Mark(c); }
    else { l := NameWritten(s); }
  }

  // ----- texts -----

  lemma {:induction false} TextOfLexemes(ls: seq<Lexeme>, s: string)
    requires Written(ls, s)
    ensures Lex(s) == Some(AllTokens(ls))
    decreases |ls|
  {
    if ls != [] {
      var n := |Shape(ls[0])|;
      LexemeRead(ls[0], s[n..]);
      assert s == Shape(ls[0]) + s[n..];
      TextOfLexemes(ls[1..], s[n..]);
    }
  }

  lemma {:induction false} LexemesOfText(s: string) returns (ls: seq<Lexeme>)
    requires Lex(s).Some?
    ensures Written(ls, s) && Lex(s) == Some(AllTokens(ls))
    decreases |s|
  {
    if s == "" {
      ls := [];
    } else {
      var l := LexemeWritten(s);
      var n := |Shape(l)|;
      var more := LexemesOfText(s[n..]);
      ls := [l] + more;
      assert ls[1..] == more;
    }
  }

  /** A text has the tokens `ts` exactly when it can be written as lexemes that have them. */
  lemma LexExactly(s: string, ts: Toks)
    ensures Lex(s) == Some(ts) <==> exists ls :: Written(ls, s) && AllTokens(ls) == ts
  {
    if Lex(s) == Some(ts) {
      var ls := LexemesOfText(s);
      assert Written(ls, s);
    }
    if ls :| Written(ls, s) && AllTokens(ls) == ts { TextOfLexemes(ls, s); }
  }
}
