/** The whole import of a text, as the grammars of lexemes and scripts and the rules of the statements put it. */
module SieveImports {
  import opened Wrappers
  import opened Seqs
  import opened SieveText
  import opened SieveModel
  import opened SieveLexer
  import opened SieveParser
  import opened SieveFlatten
  import opened SieveLexing
  import opened SieveLexemes
  import opened SieveScripts
  import opened SieveTitles

  /** At `k` a line begins with blanks, the word `if` and one more blank; the blanks may hold line breaks. */
  ghost predicate IfLineAt(s: string, k: nat) {
    && k <= |s| && (k == 0 || s[k - 1] == '\n')
    && exists blanks: string, rest: string :: IfLineParts(s[k..], blanks, rest)
  }

  predicate IfLineParts(s: string, blanks: string, rest: string) {
    && s == blanks + rest && AllBlank(blanks) && |rest| >= 3
    && (rest[0] == 'i' || rest[0] == 'I') && (rest[1] == 'f' || rest[1] == 'F') && IsSpace(rest[2])
  }

  lemma IfLetters(t: string)
    requires |t| >= 2
    ensures Lower(t[..2]) == "if" <==> (t[0] == 'i' || t[0] == 'I') && (t[1] == 'f' || t[1] == 'F')
  {
    var w, word := Lower(t[..2]), "if";
    assert forall k :: 0 <= k < 2 ==> w[k] == LowerChar(t[k]);
    assert w == word <==> w[0] == word[0] && w[1] == word[1];
  }

  lemma StartsWithIfIs(s: string)
    ensures StartsWithIf(s) <==> exists blanks: string, rest: string :: IfLineParts(s, blanks, rest)
  {
    var n := Run(s, IsSpace);
    if |s[n..]| >= 2 { IfLetters(s[n..]); }
    if StartsWithIf(s) {
      assert s == s[..n] + s[n..];
      assert IfLineParts(s, s[..n], s[n..]);
    }
    if blanks: string, rest: string :| IfLineParts(s, blanks, rest) {
      assert forall k :: 0 <= k < |blanks| ==> blanks[k] in blanks;
      RunOf(blanks, rest, IsSpace);
      Parts(blanks, rest);
    }
  }

  lemma IfLineExactly(s: string)
    ensures HasIfLine(s) <==> exists k: nat :: IfLineAt(s, k)
  {
    forall k: nat ensures IfLineAt(s, k) <==> k <= |s| && (k == 0 || s[k - 1] == '\n') && StartsWithIf(s[k..]) {
      if k <= |s| { StartsWithIfIs(s[k..]); }
    }
    assert s[0..] == s;
    if HasIfLine(s) && !StartsWithIf(s) {
      var k :| 0 <= k < |s| && s[k] == '\n' && StartsWithIf(s[k + 1..]);
      assert IfLineAt(s, k + 1);
    }
    if k: nat :| IfLineAt(s, k) && k > 0 { assert s[k - 1] == '\n' && StartsWithIf(s[k - 1 + 1..]); }
  }

  /**
   The text is a sequence of lexemes with at least one token, their tokens are a script of these statements, and each
   statement stands for its rule. A text with a condition at the start of a line gives at least one rule.
   */
  ghost predicate Says(src: string, ls: seq<Lexeme>, ss: seq<Stmt>, rules: seq<Rule>) {
    && Written(ls, src) && AllTokens(ls) != [] && Script(AllTokens(ls), "", ss) && RulesOf(ss, 0, rules)
    && (rules == [] ==> forall k: nat :: !IfLineAt(src, k))
  }

  /** The import gives these rules exactly when the text says them; every other text goes back to the plain editor. */
  lemma ImportExactly(src: string, rules: seq<Rule>)
    ensures Import(src) == Some(rules) <==> exists ls, ss :: Says(src, ls, ss, rules)
  {
    IfLineExactly(src);
    if Import(src) == Some(rules) {
      var ls := LexemesOfText(src);
      var ss := ReadScript(AllTokens(ls), "").value;
      ScriptExactly(AllTokens(ls), ss);
      RulesExactly(ss, 0, rules);
      assert Says(src, ls, ss, rules);
    }
    if ls, ss :| Says(src, ls, ss, rules) {
      TextOfLexemes(ls, src);
      ScriptExactly(AllTokens(ls), ss);
      RulesExactly(ss, 0, rules);
    }
  }
}
