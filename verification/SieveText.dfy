/**
 String operations of the rule builder: trimming, comma lists and escaping.
 A string is a sequence of characters; white space is JavaScript's.
 */
module SieveText {
  import opened Seqs

  predicate IsSpace(c: char) {
    || c == ' ' || '\t' <= c <= '\r' || c == '\U{00A0}' || c == '\U{1680}'
    || '\U{2000}' <= c <= '\U{200A}' || c == '\U{2028}' || c == '\U{2029}'
    || c == '\U{202F}' || c == '\U{205F}' || c == '\U{3000}' || c == '\U{FEFF}'
  }

  predicate IsDigit(c: char) { '0' <= c <= '9' }

  predicate IsWordStart(c: char) { 'a' <= c <= 'z' || 'A' <= c <= 'Z' || c == '_' }

  predicate IsWordChar(c: char) { IsWordStart(c) || IsDigit(c) || c == '-' }

  function LowerChar(c: char): char {
    if 'A' <= c <= 'Z' then (c as int + 32) as char else c
  }

  /** Lower case on the ASCII letters; words and annotations hold no others. */
  function Lower(s: string): (r: string)
    ensures |r| == |s|
    ensures forall k :: 0 <= k < |s| ==> r[k] == LowerChar(s[k])
  {
    seq(|s|, k requires 0 <= k < |s| => LowerChar(s[k]))
  }

  function TrimStart(s: string): (r: string)
    ensures |r| <= |s|
    ensures r != "" ==> !IsSpace(r[0])
  {
    if s != "" && IsSpace(s[0]) then TrimStart(s[1..]) else s
  }

  function TrimEnd(s: string): (r: string)
    ensures r <= s
    ensures r != "" ==> !IsSpace(r[|r| - 1])
  {
    if s != "" && IsSpace(s[|s| - 1]) then TrimEnd(s[..|s| - 1]) else s
  }

  function Trim(s: string): string { TrimEnd(TrimStart(s)) }

  lemma {:induction false} TrimStartKeeps(s: string, x: char)
    requires x !in s
    ensures x !in TrimStart(s)
  {
    if s != "" && IsSpace(s[0]) { TrimStartKeeps(s[1..], x); }
  }

  /** Trimming leaves neither white space at the ends nor new characters. */
  lemma TrimmedEnds(s: string)
    ensures Trim(s) != "" ==> !IsSpace(Trim(s)[0]) && !IsSpace(Trim(s)[|Trim(s)| - 1])
    ensures forall x :: x !in s ==> x !in Trim(s)
  {
    var t := TrimStart(s);
    if TrimEnd(t) != "" { assert TrimEnd(t)[0] == t[0]; }
    forall x | x !in s ensures x !in Trim(s) {
      TrimStartKeeps(s, x);
    }
  }

  /** A list item that survives being joined with commas and split again. */
  predicate CleanItem(s: string) {
    s != "" && !IsSpace(s[0]) && !IsSpace(s[|s| - 1]) && ',' !in s
  }

  function SplitComma(s: string): (r: seq<string>)
    ensures |r| >= 1
  {
    if s == "" then [""]
    else
      var rest := SplitComma(s[1..]);
      if s[0] == ',' then [""] + rest else [[s[0]] + rest[0]] + rest[1..]
  }

  function TrimNonEmpty(items: seq<string>): seq<string> {
    if items == [] then []
    else
      var t := Trim(items[0]);
      (if t == "" then [] else [t]) + TrimNonEmpty(items[1..])
  }

  /** `splitList`: split at commas, trim every piece, drop the empty ones. */
  function SplitList(s: string): seq<string> { TrimNonEmpty(SplitComma(s)) }

  function Join(items: seq<string>, sep: string): string {
    if items == [] then ""
    else if |items| == 1 then items[0]
    else items[0] + sep + Join(items[1..], sep)
  }

  lemma {:induction false} SplitCommaPlain(a: string, b: string)
    requires ',' !in a
    ensures SplitComma(a) == [a]
    ensures SplitComma(a + "," + b) == [a] + SplitComma(b)
  {
    if a == "" {
      assert ("" + "," + b)[1..] == b;
    } else {
      SplitCommaPlain(a[1..], b);
      assert (a + "," + b)[1..] == a[1..] + "," + b;
      assert [a[0]] + a[1..] == a;
    }
  }

  lemma {:induction false} SplitCommaPieces(s: string)
    ensures forall p :: p in SplitComma(s) ==> ',' !in p
  {
    if s != "" { SplitCommaPieces(s[1..]); }
  }

  lemma {:induction false} TrimNonEmptyClean(items: seq<string>)
    requires forall p :: p in items ==> ',' !in p
    ensures forall p :: p in TrimNonEmpty(items) ==> CleanItem(p)
  {
    if items != [] {
      TrimmedEnds(items[0]);
      TrimNonEmptyClean(items[1..]);
    }
  }

  lemma SplitListClean(s: string)
    ensures forall p :: p in SplitList(s) ==> CleanItem(p)
  {
    SplitCommaPieces(s);
    TrimNonEmptyClean(SplitComma(s));
  }

  lemma {:induction false} SplitJoinOfClean(items: seq<string>)
    requires forall p :: p in items ==> CleanItem(p)
    ensures SplitList(Join(items, ",")) == items
  {
    if items == [] {
      assert SplitComma("") == [""];
    } else {
      var head := items[0];
      assert head in items;
      SplitCommaPlain(head, Join(items[1..], ","));
      assert TrimNonEmpty([head]) == [head] by { assert Trim(head) == head; }
      if |items| > 1 {
        SplitJoinOfClean(items[1..]);
        TrimNonEmptyConcat(head, SplitComma(Join(items[1..], ",")));
        assert items == [head] + items[1..];
      } else {
        assert items == [head];
      }
    }
  }

  lemma TrimNonEmptyConcat(head: string, rest: seq<string>)
    requires Trim(head) == head != ""
    ensures TrimNonEmpty([head] + rest) == [head] + TrimNonEmpty(rest)
  {
    assert ([head] + rest)[1..] == rest;
  }

  /** Joining with commas and splitting again gives the list back exactly when every item is clean. */
  lemma SplitJoin(items: seq<string>)
    ensures SplitList(Join(items, ",")) == items <==> forall p :: p in items ==> CleanItem(p)
  {
    SplitListClean(Join(items, ","));
    if forall p :: p in items ==> CleanItem(p) { SplitJoinOfClean(items); }
  }

  function ReplaceChar(s: string, c: char, sub: string): string {
    if s == "" then "" else (if s[0] == c then sub else [s[0]]) + ReplaceChar(s[1..], c, sub)
  }

  /** `esc`: every backslash is doubled, then every double quote gets a backslash. */
  function Esc(s: string): string { ReplaceChar(ReplaceChar(s, '\\', "\\\\"), '"', "\\\"") }

  lemma {:induction false} ReplaceCharConcat(a: string, b: string, c: char, sub: string)
    ensures ReplaceChar(a + b, c, sub) == ReplaceChar(a, c, sub) + ReplaceChar(b, c, sub)
  {
    if a == "" {
      assert a + b == b;
    } else {
      ReplaceCharConcat(a[1..], b, c, sub);
      TailOfConcat(a, b);
      Assoc(if a[0] == c then sub else [a[0]], ReplaceChar(a[1..], c, sub), ReplaceChar(b, c, sub));
    }
  }

  function EscChar(c: char): string {
    if c == '\\' then "\\\\" else if c == '"' then "\\\"" else [c]
  }

  /** The two passes of `esc` never meet: escaping works character by character. */
  lemma EscHead(s: string)
    requires s != ""
    ensures Esc(s) == EscChar(s[0]) + Esc(s[1..])
  {
    var head := if s[0] == '\\' then "\\\\" else [s[0]];
    ReplaceCharConcat(head, ReplaceChar(s[1..], '\\', "\\\\"), '"', "\\\"");
    assert head[1..] == "" || head[1..] == "\\";
    assert ReplaceChar("\\", '"', "\\\"") == "\\" by { assert "\\"[1..] == ""; }
    assert ReplaceChar(head, '"', "\\\"") == EscChar(s[0]);
  }
}
