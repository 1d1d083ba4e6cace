/** The tokenizer: its meaning as a function on the rest of the text, and the index loop that computes it. */
module SieveLexer {
  import opened Wrappers
  import opened Seqs
  import opened SieveText

  datatype Tok =
    | Quoted(text: string)
    | Word(text: string)
    | Annot(text: string)
    | Punct(mark: char)
    | Num(text: string)
    | Comment(text: string)

  type Toks = seq<Tok>

  /** The tokens found at the start of a text and the number of characters they take; Bad stops the tokenizer. */
  datatype Step = Bad | Read(toks: Toks, next: nat) {
    function From(i: nat): Step { if Bad? then Bad else Read(toks, i + next) }
  }

  function Prepend(ts: Toks, rest: Option<Toks>): Option<Toks> {
    match rest case None => None case Some(us) => Some(ts + us)
  }

  predicate NotNewline(c: char) { c != '\n' }

  predicate IsMark(c: char) { c == '}' || c == '(' || c == ')' || c == ',' || c == ';' || c == '[' || c == ']' }

  predicate NotBrace(c: char) { c != '}' }

  /** The number of characters before the first one in `s` that fails `p`. */
  function Run(s: string, p: char -> bool): (n: nat)
    ensures n <= |s|
    ensures n < |s| ==> !p(s[n])
    ensures forall k :: 0 <= k < n ==> p(s[k])
  {
    if s != "" && p(s[0]) then 1 + Run(s[1..], p) else 0
  }

  /** The offset just after the first comment end, or None. */
  function AfterCommentEnd(s: string): (r: Option<nat>)
    ensures r.Some? ==> 2 <= r.value <= |s|
  {
    if |s| < 2 then None
    else if s[0] == '*' && s[1] == '/' then Some(2)
    else match AfterCommentEnd(s[1..]) case None => None case Some(n) => Some(n + 1)
  }

  /** Unescapes up to the closing quote; returns the content and the offset after that quote. */
  function ReadQuoted(s: string): (r: Option<(string, nat)>)
    ensures r.Some? ==> 0 < r.value.1 <= |s|
  {
    if s == "" then None
    else if s[0] == '\\' && |s| > 1 then
      match ReadQuoted(s[2..]) case None => None case Some((t, n)) => Some(([s[1]] + t, n + 2))
    else if s[0] == '"' then Some(("", 1))
    else match ReadQuoted(s[1..]) case None => None case Some((t, n)) => Some(([s[0]] + t, n + 1))
  }

  /** White space, digits, an optional plus sign, white space, and nothing else. */
  predicate IsLiteralLength(s: string) {
    var digits := s[Run(s, IsSpace)..];
    var n := Run(digits, IsDigit);
    var tail := digits[n..];
    var plus := if tail != "" && tail[0] == '+' then tail[1..] else tail;
    n > 0 && Run(plus, IsSpace) == |plus|
  }

  /** The length of the token that starts with an opening brace. */
  function BraceLength(s: string): (n: nat)
    requires s != "" && s[0] == '{'
    ensures 1 <= n <= |s|
  {
    var e := Run(s[1..], NotBrace);
    if e < |s| - 1 && IsLiteralLength(s[1..1 + e]) then e + 2 else 1
  }

  /** One step at the start of a nonempty text: the tokens found and the characters read. */
  function Scan(s: string): (r: Step)
    requires s != ""
    ensures r.Read? ==> 0 < r.next <= |s|
  {
    var c := s[0];
    if c == '#' then
      var j := Run(s, NotNewline);
      Read([Comment(Trim(s[1..j]))], j)
    else if c == '/' && |s| > 1 && s[1] == '*' then
      match AfterCommentEnd(s[2..]) case None => Bad case Some(n) => Read([], n + 2)
    else if IsSpace(c) then Read([], 1)
    else if c == '"' then
      match ReadQuoted(s[1..]) case None => Bad case Some((t, n)) => Read([Quoted(t)], n + 1)
    else if c == '{' then Read([Punct('{')], BraceLength(s))
    else if IsMark(c) then Read([Punct(c)], 1)
    else ScanNameOf(s)
  }

  /** Annotations, words and numbers. */
  function ScanNameOf(s: string): (r: Step)
    requires s != ""
    ensures r.Read? ==> 0 < r.next <= |s|
  {
    var c := s[0];
    var n := 1 + Run(s[1..], IsWordChar);
    if c == ':' then
      if n == 1 then Bad else Read([Annot(Lower(s[..n]))], n)
    else if IsWordStart(c) then Read([Word(Lower(s[..n]))], n)
    else if IsDigit(c) then
      var digits := Run(s, IsDigit);
      Read([Num(s[..digits])], digits)
    else Bad
  }

  function Lex(s: string): Option<Toks>
    decreases |s|
  {
    if s == "" then Some([])
    else match Scan(s) case Bad => None case Read(ts, n) => Prepend(ts, Lex(s[n..]))
  }

  // ----- the loop over an index -----

  /** Moves `j` forward from `i` while the character satisfies `p`. */
  method SkipWhile(src: string, i: nat, p: char -> bool) returns (j: nat)
    requires i <= |src|
    ensures j == i + Run(src[i..], p)
  {
    j := i;
    while j < |src| && p(src[j])
      invariant i <= j <= |src|
      invariant i + Run(src[i..], p) == j + Run(src[j..], p)
    {
      assert src[j..][1..] == src[j + 1..];
      j := j + 1;
    }
  }

  method FindCommentEnd(src: string, i: nat) returns (r: Option<nat>)
    requires i <= |src|
    ensures r == match AfterCommentEnd(src[i..]) case None => None case Some(n) => Some(i + n)
  {
    var j := i;
    while j + 1 < |src| && !(src[j] == '*' && src[j + 1] == '/')
      invariant i <= j <= |src|
      invariant match AfterCommentEnd(src[i..])
                case None => AfterCommentEnd(src[j..]) == None
                case Some(n) => i + n >= j && AfterCommentEnd(src[j..]) == Some(i + n - j)
    {
      assert src[j..][1..] == src[j + 1..];
      j := j + 1;
    }
    r := if j + 1 < |src| then Some(j + 2) else None;
  }

  /** A quoted string of which `s` has been read, up to offset `i`. */
  ghost function Onward(s: string, i: nat, r: Option<(string, nat)>): Option<(string, nat)> {
    match r case None => None case Some((t, n)) => Some((s + t, i + n))
  }

  lemma OnwardOnward(s: string, i: nat, t: string, k: nat, r: Option<(string, nat)>)
    ensures Onward(s, i, Onward(t, k, r)) == Onward(s + t, i + k, r)
  {
    if r.Some? { Assoc(s, t, r.value.0); }
  }

  lemma QuotedStep(src: string, i: nat)
    requires i < |src|
    ensures ReadQuoted(src[i..]) ==
            if src[i] == '\\' && i + 1 < |src| then Onward([src[i + 1]], 2, ReadQuoted(src[i + 2..]))
            else if src[i] == '"' then Some(("", 1))
            else Onward([src[i]], 1, ReadQuoted(src[i + 1..]))
  {
    assert src[i..][1..] == src[i + 1..];
    if i + 1 < |src| { assert src[i..][2..] == src[i + 2..]; }
  }

  lemma OnwardStep(src: string, i: nat, s: string)
    requires i < |src|
    ensures Onward(s, i, ReadQuoted(src[i..])) ==
            if src[i] == '\\' && i + 1 < |src| then Onward(s + [src[i + 1]], i + 2, ReadQuoted(src[i + 2..]))
            else if src[i] == '"' then Some((s, i + 1))
            else Onward(s + [src[i]], i + 1, ReadQuoted(src[i + 1..]))
  {
    QuotedStep(src, i);
    if src[i] == '\\' && i + 1 < |src| {
      OnwardOnward(s, i, [src[i + 1]], 2, ReadQuoted(src[i + 2..]));
    } else if src[i] == '"' {
      Units(s);
    } else {
      OnwardOnward(s, i, [src[i]], 1, ReadQuoted(src[i + 1..]));
    }
  }

  /** The string loop: `i` starts after the opening quote. */
  method ScanQuoted(src: string, start: nat) returns (r: Option<(string, nat)>)
    requires start <= |src|
    ensures r == match ReadQuoted(src[start..]) case None => None case Some((t, n)) => Some((t, start + n))
  {
    var i, s := start, "";
    ghost var result := Onward("", start, ReadQuoted(src[start..]));
    if ReadQuoted(src[start..]).Some? { Units(ReadQuoted(src[start..]).value.0); }
    while i < |src|
      invariant start <= i <= |src|
      invariant result == Onward(s, i, ReadQuoted(src[i..]))
    {
      OnwardStep(src, i, s);
      if src[i] == '\\' && i + 1 < |src| {
        s := s + [src[i + 1]];
        i := i + 2;
      } else if src[i] == '"' {
        return Some((s, i + 1));
      } else {
        s := s + [src[i]];
        i := i + 1;
      }
    }
    r := None;
  }

  /** `tokenize`: one pass over the text by index. */
  method Tokenize(src: string) returns (r: Option<Toks>)
    ensures r == Lex(src)
  {
    var out: Toks, i := [], 0;
    assert src[0..] == src;
    PrependNothing(Lex(src));
    while i < |src|
      invariant i <= |src|
      invariant Lex(src) == Prepend(out, Lex(src[i..]))
      decreases |src| - i
    {
      var step := ScanAt(src, i);
      if step.Bad? { return None; }
      var ts, next := step.toks, step.next;
      assert src[i..][next - i..] == src[next..];
      PrependAppend(out, ts, Lex(src[next..]));
      out := out + ts;
      i := next;
    }
    assert out + [] == out;
    return Some(out);
  }

  lemma PrependNothing(rest: Option<Toks>)
    ensures Prepend([], rest) == rest
  {
    if rest.Some? { assert [] + rest.value == rest.value; }
  }

  lemma PrependAppend(a: Toks, b: Toks, rest: Option<Toks>)
    ensures Prepend(a, Prepend(b, rest)) == Prepend(a + b, rest)
  {
    if rest.Some? { assert a + (b + rest.value) == (a + b) + rest.value; }
  }

  /** One iteration of the loop: the tokens pushed and the new index. */
  method ScanAt(src: string, i: nat) returns (r: Step)
    requires i < |src|
    ensures r == Scan(src[i..]).From(i)
  {
    var c := src[i];
    assert src[i..][1..] == src[i + 1..];
    if c == '#' {
      var j := SkipWhile(src, i, NotNewline);
      assert src[i..][1..j - i] == src[i + 1..j];
      return Read([Comment(Trim(src[i + 1..j]))], j);
    }
    if c == '/' && i + 1 < |src| && src[i + 1] == '*' {
      assert src[i..][2..] == src[i + 2..];
      var e := FindCommentEnd(src, i + 2);
      return match e case None => Bad case Some(j) => Read([], j);
    }
    if IsSpace(c) {
      return Read([], i + 1);
    }
    if c == '"' {
      var q := ScanQuoted(src, i + 1);
      return match q case None => Bad case Some((t, j)) => Read([Quoted(t)], j);
    }
    if c == '{' {
      var n := ScanBrace(src, i);
      return Read([Punct('{')], n);
    }
    if IsMark(c) {
      return Read([Punct(c)], i + 1);
    }
    r := ScanName(src, i);
  }

  method ScanBrace(src: string, i: nat) returns (j: nat)
    requires i < |src| && src[i] == '{'
    ensures j == i + BraceLength(src[i..])
  {
    var e := SkipWhile(src, i + 1, NotBrace);
    assert src[i..][1..] == src[i + 1..];
    assert e < |src| ==> src[i..][1..e - i] == src[i + 1..e];
    j := if e < |src| && IsLiteralLength(src[i + 1..e]) then e + 1 else i + 1;
  }

  method ScanName(src: string, i: nat) returns (r: Step)
    requires i < |src|
    ensures r == ScanNameOf(src[i..]).From(i)
  {
    var c := src[i];
    assert src[i..][1..] == src[i + 1..];
    var j := SkipWhile(src, i + 1, IsWordChar);
    assert src[i..][..j - i] == src[i..j];
    if c == ':' {
      r := if j == i + 1 then Bad else Read([Annot(Lower(src[i..j]))], j);
    } else if IsWordStart(c) {
      r := Read([Word(Lower(src[i..j]))], j);
    } else if IsDigit(c) {
      j := SkipWhile(src, i, IsDigit);
      assert src[i..][..j - i] == src[i..j];
      r := Read([Num(src[i..j])], j);
    } else {
      r := Bad;
    }
  }
}
