# Verified model of the e2Mail core

e2Mail is a web mail client: a Go back end between the browser and an IMAP/SMTP server, and a TypeScript front end.
This Dafny project models the six parts of it that carry state machines, parsers or timing arithmetic, and proves
what they are for. Every operation that the source performs step by step is a method with loops over the same state;
each is proved against a function or relation on values, and the properties are lemmas about those.

**Sieve rules** (`Sieve…`). The rule builder prints a rule list as a Sieve script, and imports scripts with a
tokenizer, a recursive-descent parser and a flattener for nested tests. `SievePrinter`, `SieveLexer`, `SieveParser`
and `SieveFlatten` say what these compute; `SievePrinter`, `SieveLexer` and `SieveParserClass` also hold the loops and
the parser object with its position and error flag. `SieveLexing` and `SieveSyntax` show that lexer and parser read
back what is printed. On top of that, `SieveRoundTrip` computes the import of any printed script; `SieveNormal` and
`SieveFixedPoint` give the exact conditions for the round trip to be the identity on rules and on text; `SieveNames`
adds what line breaks in names do, and `SieveExtensions` which extensions a script uses and declares. `SieveMeaning`
and `SieveGrammar` give rules and scripts a meaning (sections 2.4.2, 3 and 5 of RFC 5228), for any way of matching
header fields, and show that printing keeps it; `SieveReimportMeaning`, `SieveImportMeaning` and
`SieveImportedScripts` show when re-importing, flattening and importing do. `SieveLexemes`, `SieveSentences`,
`SieveScripts` and `SieveTitles` describe the texts that the import accepts, hand-written ones included, as grammars of
their own: what can be written, with its literal words, and what it means. `SieveImports` shows that the import accepts
these texts, no others, and with no other result.

**Conversation threads** (`Thread…`). Union-find with path halving, the two linking passes of
message grouping, and the cached index of a mailbox that is brought up to date from UIDVALIDITY, UIDNEXT and the
message count, against a server that may deliver, expunge, reflag and renumber between any two calls
(section 2.3.1.1 of RFC 3501).

**Connection pools** (`PoolProtocol`, `PoolSystem`, `PoolObjects`). Every region under a mutex is one step; dials happen
between steps. `PoolProtocol` is one pool, with the lent connections and the dials in progress that the source only
counts. `PoolSystem` is all pools with the registry, and every interleaving. `PoolObjects` has the pool, client and
manager objects, which refine the first.

**Password change** (`Envelope`, `PasswordSaga`, `PasswordRuns`, `PasswordTargets`, `AuthHandler`). An LDAP entry, an account row and a
wrapped data encryption key must change together; any set of calls may fail. `AuthHandler` runs the handler call by
call; `PasswordSaga` says what every request leaves behind, `PasswordRuns` follows whole histories of logins and
changes, and `PasswordTargets` says in terms of the request and the stores alone which entry, row and wrap are meant and
when each answer is given.

**Rate limiter** (`RateLimit`) and **attempt limiter** (`Attempts`). A bounded, swept table of fixed windows, and
pruned lists of failures compacted in place. Both are compared with references that never forget, over every run with
non-decreasing times.

## Where the code does not do what one would expect

Each of these is stated by a lemma, next to the condition under which the code does keep its promise.

- A negated `true` test is printed, but makes the import of the whole script fail (`SieveReimport.RuleFails`).
- Two filing actions in a rule without conditions become two rules on import, the first of which ends the script
  (`SieveReimportMeaning.SecondFilingLost`).
- A filing without conditions gains a rule, and its text a line, each time the script is loaded and saved
  (`SieveFixedPoint.FilingGrows`).
- A script on the server that files without a stop goes on; the rule it is imported as is the last one to run, so of two
  filings the second is lost (`SieveImportedScripts.TwoIfsLoseOne`).
- An address condition on `:user` uses an extension that no `require` line names (`SieveExtensions.UsedIsDeclared`).
- A negated test with several values is flattened into a disjunction of negations, which differs as soon as a header
  body tells two of the values apart (`SieveImportMeaning.TreeUnsound`).
- The second line of a rule name becomes part of the script (`SieveNames.SecondLineIsScript`).
- Flags with several leading backslashes are re-read with one (`SieveReimportMeaning.RereadRun`).
- An action that is not printed, such as a filing without a mailbox, still adds its extension to the `require` line, so
  a second print may differ from the first (`SieveFixedPoint.PrintFixedPoint`).
- An expunge balanced by a delivery leaves the expunged message in the thread index (`ThreadCache.ExpungedStays`).
- When the LDAP write cannot be undone after a later failure, no password works for both LDAP and the stored key
  (`PasswordSaga.FailedCompensationLocksOut`).
- Undoing the LDAP write leaves one password, even if the entry had several (`PasswordSaga.NothingChanged`).
- A rate limit with a window longer than ten minutes and one nanosecond can be exceeded, because the sweep forgets
  running windows (`RateLimit.BoundHoldsExactly`).
- Failures are forgotten after an hour, or earlier if the key was asked about with a shorter window
  (`Attempts.LikeFullExactly`).

`docs/LDAP.md` says that the wrapped key is written before the account row, and that a failing local write is only
logged. The code writes the row first and undoes all earlier writes; the model follows the code.

## Model

| member | source | states |
|---|---|---|
| SieveNames.PrintParseIdentity | frontend/src/utils/sieveGenerator.ts:97-145 | print then parse is the identity, up to the stop that printing adds, if and only if every rule is in normal form and no name has a line break; for every list of enabled rules with conditions |
| SieveNames.ImportedNamesAreOneLine | frontend/src/utils/sieveGenerator.ts:622-623 | no rule imported from any text has a name with a line break |
| SieveNames.SecondLineIsScript | frontend/src/utils/sieveGenerator.ts:120-120 | a concrete failure: the second line of a printed name is read as part of the script, here as a command |
| SieveNormal.OneLineIdentity | frontend/src/utils/sieveGenerator.ts:97-145 | the identity for one-line names, exactly for rules in normal form |
| SieveFixedPoint.PrintFixedPoint | frontend/src/utils/sieveGenerator.ts:97-145 | for every list whose enabled rules have one-line names: the printed text is imported if and only if no negated constant is printed, and printing the imported rules then gives the same text if and only if every enabled rule is printed, its flags have at most one leading backslash, its name is normal or, for a rule without conditions, the fixed name over one single command, and no unprinted action alone asks for an extension |
| SieveFixedPoint.FilingGrows | frontend/src/utils/sieveGenerator.ts:654-667 | a failing family for every number of rounds: a filing without conditions becomes one more rule, and another text, each time its script is loaded and saved |
| SieveExtensions.UsedIsDeclared | frontend/src/utils/sieveGenerator.ts:49-54 | for every list with one-line names: all extensions whose words occur in the tokens of the printed text are declared there if and only if no printed address condition uses `:user`, which belongs to RFC 5233 and which the require line never names |
| SieveExtensions.RequireDeclares | frontend/src/utils/sieveGenerator.ts:99-112 | the require line names an extension if and only if an action of an enabled rule asks for it |
| SieveRoundTrip.ImportOfPrint | frontend/src/utils/sieveGenerator.ts:713-725 | for every rule list with one-line names, importing the printed text (lexer, parser, flattener, final check) gives exactly what RereadRules says, including when import gives up |
| SieveGrammar.PrintedMeaning | frontend/src/utils/sieveGenerator.ts:119-143 | for every list with one-line names, negated constants included: the generated text is a script in which `require` ends with a semicolon and `not` stands before any test, with the tokens, simple tests, commands and blocks of the repository's parser; that script carries out for every message the same commands in the same order as the rule list, where the first matching rule with a terminal action or a stop ends the run |
| SieveGrammar.ReadPrintedScript | frontend/src/utils/sieveGenerator.ts:97-145 | the grammar, with `not` before any test, reads the tokens of every printed list back to the tree of its rules |
| SieveGrammar.RuleTestHolds | frontend/src/utils/sieveGenerator.ts:37-65 | the tree of a rule holds on a message exactly when the rule's conditions match, negated constants included |
| SieveMeaning.ReadBackMeaning | frontend/src/utils/sieveGenerator.ts:119-143 | the same trace for the statements that the repository's own parser reads, when it can read them |
| SieveReimportMeaning.ReimportMeaning | frontend/src/utils/sieveGenerator.ts:621-667 | for every list with one-line names and every message: the printed script is imported if and only if no negated constant is printed, and the imported rules then do to the message what the rules did if and only if every rule that applies to it, up to the first that ends the script, has at most one leading backslash in the flags before its first stop and, without conditions, carries out nothing between its first terminal action and the next stop |
| SieveReimportMeaning.KeptMeaning | frontend/src/utils/sieveGenerator.ts:621-667 | in particular a list of such rules does the same to every message |
| SieveReimportMeaning.OneRuleMeaning | frontend/src/utils/sieveGenerator.ts:621-667 | and one rule that applies to a message does the same to it if and only if it is such a rule |
| SieveImportMeaning.FlattenSound | frontend/src/utils/sieveGenerator.ts:688-711 | for any way of matching header bodies and addresses: a flattened test agrees with its tree on every possible message if and only if no negated test has two values that some header body tells apart, for trees the parser can build whose header names survive a comma list |
| SieveImportMeaning.NotEitherSound | frontend/src/utils/sieveGenerator.ts:675-686 | in particular a negated equality with values a and b survives exactly when the comparator cannot tell them apart, as with "a" and "A" without regard to case, and never when a itself is a possible body that is not equal to b |
| SieveImportMeaning.TreeSound | frontend/src/utils/sieveGenerator.ts:688-711 | on every possible message the flat list evaluates as the tree does when negated tests have indistinguishable values |
| SieveImportMeaning.TreeUnsound | frontend/src/utils/sieveGenerator.ts:675-686 | otherwise a message with one header field, whose body is possible, is constructed on which the flat list and the tree disagree |
| SieveImportMeaning.ParsedIsGrammatical | frontend/src/utils/sieveGenerator.ts:374-486 | every tree the parser accepts has the shape that FlattenSound asks for, at every negation depth |
| SieveImportedScripts.ImportKeepsMeaning | frontend/src/utils/sieveGenerator.ts:601-672 | for any accepted script, however it was written, and every message on which its tests agree with their flat lists: the imported rules carry out no more commands than the script, and the same ones if and only if every reached command up to a stop is printed again as it was written, and the first body that files, redirects, rejects or discards without a stop is followed by nothing that would be carried out |
| SieveImportedScripts.SoundTestsKeepMeaning | frontend/src/utils/sieveGenerator.ts:601-711 | the same if and only if on every possible message for scripts whose header names survive a comma list and whose negated tests have indistinguishable values |
| SieveImportedScripts.StmtExactly | frontend/src/utils/sieveGenerator.ts:629-666 | one statement on any message, whether or not its test survives flattening: its rule has the same run and ends the script in the same way if and only if, where both test and rule hold, every command up to the first stop is kept and a terminal body stops; where only the test holds, the block is empty; where only the rule applies, the rule does nothing |
| SieveImportedScripts.BodyRun | frontend/src/utils/sieveGenerator.ts:560-598 | the actions that a block becomes stop where its commands stop, do no more, and do the same if and only if every command up to the first stop is kept |
| SieveImportedScripts.TwoIfsLoseOne | frontend/src/utils/sieveGenerator.ts:629-666 | a failing family, with its text: two filings, each in an `if true` without a stop, are both carried out by the script, and only the first by the imported rules |
| SieveImports.ImportExactly | frontend/src/utils/sieveGenerator.ts:153-725 | for every text and every list of rules: the import gives these rules if and only if the text is a sequence of lexemes, the lexemes are a script of some statements, and the rules are those the statements stand for, with no condition at the start of a line where there are no rules; lexemes, scripts and rules are described without the steps of lexer, parser and reader |
| SieveLexemes.LexExactly | frontend/src/utils/sieveGenerator.ts:153-242 | a text has these tokens if and only if it is written as lexemes that have them: blanks, both kinds of comments, strings with escapes, marks, braces with or without a literal length, words, annotations and numbers, each as long as it can be |
| SieveSentences.AnnotationsExactly | frontend/src/utils/sieveGenerator.ts:331-372 | annotations are accepted with this match type and address part if and only if all are known, the match types agree (`:is` without any), and at most one part is named, with no other and no `:all` behind it: `:domain`, `:localpart` and `:user` are their parts, `:all` or nothing is the whole address, `:comparator` with or without its string changes nothing |
| SieveSentences.TestExactly | frontend/src/utils/sieveGenerator.ts:374-486 | a test is read as this tree if and only if it is a phrase of the grammar that means it, with parentheses, single strings for lists, nested negation refused, and comments anywhere |
| SieveScripts.CommandExactly | frontend/src/utils/sieveGenerator.ts:520-599 | a command is read if and only if it is written with known tags, texts and a semicolon and means an action |
| SieveScripts.ActionExactly | frontend/src/utils/sieveGenerator.ts:560-598 | a command with these tags and texts is this action if and only if name, tags and number of texts fit: `reject` and `ereject` are a rejection with their text, several mailboxes or flags are one list, and of leading backslashes one is left |
| SieveScripts.ScriptExactly | frontend/src/utils/sieveGenerator.ts:601-672 | tokens are read as these statements if and only if they are a script of them: requirements add none, a conditional statement takes the last rule comment before it as its title, `else` and `elsif` are refused, and a statement whose block has no end is dropped |
| SieveTitles.RulesExactly | frontend/src/utils/sieveGenerator.ts:621-667 | statements become these rules if and only if rule k is the one that statement k stands for: on, with the name in its title or else a number counting the rules before it, the flat form of its test, and the actions its commands mean |
| SieveTitles.TitleExactly | frontend/src/utils/sieveGenerator.ts:622-623 | the name found in a comment: behind the first `rule:`, in any letter case, that has one |
| SieveReimportMeaning.UnconditionalMeaning | frontend/src/utils/sieveGenerator.ts:654-667 | a rule without conditions, re-read as one rule per action, keeps its meaning on every message if and only if nothing is carried out between its first terminal action and the next stop and its flags are plain |
| SieveReimportMeaning.RereadRun | frontend/src/utils/sieveGenerator.ts:593-593 | re-reading keeps what a body does exactly when the flags it sets before its first stop are plain |
| SieveReimportMeaning.SecondFilingLost | frontend/src/utils/sieveGenerator.ts:654-667 | a concrete failure: of two filings in a rule without conditions the second is lost after a re-import |
| SieveText.SplitJoin | frontend/src/utils/sieveGenerator.ts:18-24 | joining with commas and splitting gives the list back if and only if every item is non-empty, trimmed and without comma |
| SieveText.SplitListClean | frontend/src/utils/sieveGenerator.ts:18-24 | splitting only ever yields clean items |
| SieveText.EscHead | frontend/src/utils/sieveGenerator.ts:9-11 | the two replacement passes of the escaper amount to escaping each character on its own |
| SieveNormal.RelistNormal | frontend/src/utils/sieveGenerator.ts:18-24 | splitting a list field and joining it again leaves it alone if and only if it has no empty or padded item |
| SieveLexing.LexQuote | frontend/src/utils/sieveGenerator.ts:176-197 | the lexer reads every escaped and quoted string back to the string itself |
| SieveLexing.LexConcat | frontend/src/utils/sieveGenerator.ts:153-242 | lexing is compositional: tokens of a concatenation are the concatenated tokens unless a word runs over the seam |
| SieveLexing.LexBlock | frontend/src/utils/sieveGenerator.ts:198-208 | a printed block is never mistaken for a literal length |
| SieveCompile.PrintedTokens | frontend/src/utils/sieveGenerator.ts:97-145 | every printed script tokenizes, into exactly the tokens of the rules it was printed from |
| SieveCompile.LexCore | frontend/src/utils/sieveGenerator.ts:37-65 | the printed text of a condition is lexed into the tokens of its test |
| SieveCompile.LexExpr | frontend/src/utils/sieveGenerator.ts:140-141 | so is a whole test expression, single or joined |
| SieveCompile.LexAction | frontend/src/utils/sieveGenerator.ts:67-95 | every printable action is lexed into the tokens of its command |
| SieveCompile.LexRequire | frontend/src/utils/sieveGenerator.ts:109-112 | so is the require line, whatever extensions are needed |
| SieveSyntax.ReadTest | frontend/src/utils/sieveGenerator.ts:374-430 | parser completeness: every well-formed test tree is read back from its tokens, followed by anything that does not start a list |
| SieveSyntax.ReadTests | frontend/src/utils/sieveGenerator.ts:416-428 | the same for the children of allof and anyof |
| SieveSyntax.ReadCommand | frontend/src/utils/sieveGenerator.ts:523-599 | every supported command is read back from its tokens |
| SieveSyntax.ReadIf | frontend/src/utils/sieveGenerator.ts:621-638 | so is an if with its block |
| SieveSyntax.ReadAnnots | frontend/src/utils/sieveGenerator.ts:334-372 | match and part annotations are read back |
| SieveReimport.FlattenPrinted | frontend/src/utils/sieveGenerator.ts:675-711 | flattening the tree of a printed rule gives its conditions back, with its join (allof for a single one) |
| SieveReimport.NameOfTitle | frontend/src/utils/sieveGenerator.ts:622-623 | the name that the import finds in a rule comment, for every name that was printed |
| SieveReimport.ReadRules | frontend/src/utils/sieveGenerator.ts:601-672 | the reader gives back exactly the statements of the printed rules, or none when one of them cannot be read |
| SieveReimport.RuleFails | frontend/src/utils/sieveGenerator.ts:407-411 | a rule with a negated constant test is printed but makes the whole import fail |
| SieveReimport.CommandsToActions | frontend/src/utils/sieveGenerator.ts:560-598 | commands of printed actions turn back into the actions |
| SieveNormal.RereadRuleNormal | frontend/src/utils/sieveGenerator.ts:97-145 | one rule is re-read as itself, up to the added stop, exactly when it is normal |
| SieveMeaning.TestMeaning | frontend/src/utils/sieveGenerator.ts:37-65 | the tree of a rule holds on a message exactly when the rule's conditions match |
| SieveMeaning.RuleMeaning | frontend/src/utils/sieveGenerator.ts:119-143 | the statements of a rule run as the rule does, before any rest |
| SieveMeaning.RunBody | frontend/src/utils/sieveGenerator.ts:125-135 | the printed body runs as the actions do, stops at the first stop, and ends the script after a terminal action |
| SievePrinter.RulesToSieve | frontend/src/utils/sieveGenerator.ts:97-145 | the printing loops produce the specified text |
| SievePrinter.CollectNeeds | frontend/src/utils/sieveGenerator.ts:99-107 | the required extensions are those of all actions of enabled rules, printed or not |
| SievePrinter.PrintBody | frontend/src/utils/sieveGenerator.ts:124-135 | the body loop with the added stop |
| SieveLexer.Tokenize | frontend/src/utils/sieveGenerator.ts:153-242 | the scanning loop returns Lex of the text, None on an unfinished string or comment and on an unknown character |
| SieveLexer.ScanQuoted | frontend/src/utils/sieveGenerator.ts:176-196 | the loop over a quoted string with backslash escapes |
| SieveLexer.FindCommentEnd | frontend/src/utils/sieveGenerator.ts:166-171 | the search for the end of a bracketed comment |
| SieveParserClass.Parser.ParseStringList | frontend/src/utils/sieveGenerator.ts:294-331 | the parser object moves and fails exactly as PList says |
| SieveParserClass.Parser.ParseTestAnnotations | frontend/src/utils/sieveGenerator.ts:334-372 | conflicting operators, repeated parts and unknown annotations fail |
| SieveParserClass.Parser.ParseSimpleTest | frontend/src/utils/sieveGenerator.ts:432-486 | list counts per test kind, as PSimple says |
| SieveParserClass.Parser.ParseTest | frontend/src/utils/sieveGenerator.ts:374-430 | recursive descent over the tokens equals PTest, with its negation depth |
| SieveParserClass.Parser.ParseCommand | frontend/src/utils/sieveGenerator.ts:523-599 | one command with its arguments equals PCommand and ToAction |
| SieveParserClass.Parser.ParseBlock | frontend/src/utils/sieveGenerator.ts:497-521 | a block, its nested marker and its silent end equal PBlock |
| SieveParserClass.Parser.Parse | frontend/src/utils/sieveGenerator.ts:601-672 | the main loop, with comments, requires, ifs and bare commands, equals ReadScript and ToRules |
| SieveParserClass.SieveToRules | frontend/src/utils/sieveGenerator.ts:713-725 | the whole import equals Import |
| ThreadUnionFind.HalvingKeepsRoots | backend/internal/imap/thread.go:102-108 | path halving changes no root of any element and keeps parents below their children |
| ThreadUnionFind.AttachRepresents | backend/internal/imap/thread.go:110-119 | attaching one root below another keeps the forest an exact picture of the connectivity, with the new link added |
| ThreadUnionFind.SameRootIffConnected | backend/internal/imap/thread.go:102-119 | two UIDs have one root if and only if the links made so far connect them |
| ThreadUnionFind.RootIsSmallest | backend/internal/imap/thread.go:114-117 | the root is the smallest UID of its class |
| ThreadUnionFind.UnionFind.Find | backend/internal/imap/thread.go:102-108 | find terminates, returns the root and leaves every root as it was |
| ThreadUnionFind.UnionFind.Union | backend/internal/imap/thread.go:110-119 | union adds exactly one link to the connectivity |
| ThreadUnionFind.UnionFind.constructor | backend/internal/imap/thread.go:94-100 | at first every UID is alone |
| ThreadGrouping.GroupThreads | backend/internal/imap/thread.go:156-231 | two messages get the same root if and only if the links of both passes connect them, and the root is the smallest UID of the thread |
| ThreadGrouping.BuildIds | backend/internal/imap/thread.go:157-169 | the loop computes the table that ThreadProperties.TableOfIds describes |
| ThreadGrouping.BuildCandidates | backend/internal/imap/thread.go:176-183 | references from the last to the first, then In-Reply-To |
| ThreadGrouping.LinkReference | backend/internal/imap/thread.go:185-202 | exactly the nearest resolvable and not yet connected ancestor is linked |
| ThreadGrouping.LinkSubject | backend/internal/imap/thread.go:208-222 | the subject pass for one message, as SubjectStep |
| ThreadGrouping.SubjectPass | backend/internal/imap/thread.go:205-223 | the second pass over all messages gives the links of the specification |
| ThreadProperties.TableOfIds | backend/internal/imap/thread.go:164-168 | an id is in the table if and only if it is not empty and some message carries it; it then stands for the UID of the first message that does |
| ThreadProperties.NearestAncestor | backend/internal/imap/thread.go:173-202 | message i ends in the thread of message k, where k is the first to carry the id that the last reference of i to name anything gives, or, when none names anything, the id it replies to; a message names neither itself nor another with its id |
| ThreadProperties.SettledUnlessUnlinked | backend/internal/imap/thread.go:173-203 | the first pass leaves a message to the second if and only if it has no id of its own or every message it names was in its thread already when its turn came |
| ThreadProperties.SameSubject | backend/internal/imap/thread.go:205-223 | all messages with one non-empty subject key that the first pass left unlinked share a thread |
| ThreadProperties.ThreadsAreRelated | backend/internal/imap/thread.go:156-231 | no thread spans two components of the graph of messages that name each other or have equal subject keys |
| ThreadProperties.SubjectsJoinOnlyUnlinked | backend/internal/imap/thread.go:205-223 | in that graph equal subjects count only between two messages that the first pass left alone |
| ThreadCache.CacheComplete | backend/internal/imap/thread.go:463-506 | after every run of deliveries, expunges, flag changes, renumberings, invalidations and failed or successful fetches: an index of the current UIDVALIDITY has every live message below its uidNext, a successful refresh covers the mailbox, and it is exact if and only if the counts agree |
| ThreadCache.RefreshCovers | backend/internal/imap/thread.go:463-506 | one refresh, including a failed increment followed by a failed rebuild |
| ThreadCache.RefreshReturns | backend/internal/imap/thread.go:463-506 | in each of those cases a successful refresh returns exactly the mailbox, flags included; otherwise the cached index, with the new messages on top if there are any; what is returned is never more than a minute old and has the count and the next UID of the mailbox |
| ThreadCache.ExactByCount | backend/internal/imap/thread.go:466-506 | any index that a refresh returns has exactly the live UIDs if and only if it holds as many nodes as there are messages |
| ThreadCache.ExactBefore | backend/internal/imap/thread.go:466-506 | the same condition known before the call: the returned index is exact if and only if the cached one is missing, of another UIDVALIDITY, of another count, or over a minute old without a higher UIDNEXT, or its increment failed, or it holds only live messages |
| ThreadCache.ListingFails | backend/internal/imap/thread.go:400-506 | no listing by threads if and only if the folder is empty or over 20,000 messages, or the fetch it needs failed |
| ThreadCache.ExpungesShow | backend/internal/imap/thread.go:463-506 | in every run: after a listing and then expunges alone, the next successful listing shows exactly the mailbox, flags included |
| ThreadCache.StepKeepsInv | backend/internal/imap/thread.go:463-506 | every event keeps the superset invariant |
| ThreadCache.ExpungedStays | backend/internal/imap/thread.go:471-474 | a concrete failure: an expunge balanced by a delivery passes the count test and leaves the expunged message in the index |
| ThreadIndex.NodeIndex.Merge | backend/internal/imap/thread.go:349-359 | a known node is overwritten where it stands, a new one appended; list and table stay in step |
| ThreadIndex.NodeIndex.Fetch | backend/internal/imap/thread.go:246-335 | the merge loop equals MergeAll, and keeps what arrived before an error |
| ThreadIndex.Entry.Refresh | backend/internal/imap/thread.go:463-506 | the object refines ThreadCache.Refresh, entry and result |
| PoolSystem.RunSafe | backend/internal/imap/pool.go:47-161 | in every state of every interleaving, borrowers' steps between two closes of a loop included: capacity, exclusive lending, the counter of an open pool is available + lent + dialling, each open connection has one owner, and the registry names exactly the pools that are not closed |
| PoolSystem.StepKeepsInv | backend/internal/imap/pool.go:189-271 | every manager and pool step keeps all of that |
| PoolSystem.NeverLentTwice | backend/internal/imap/pool.go:54-66 | a connection that is handed out is open and with no borrower of any pool |
| PoolSystem.DialledIsNew | backend/internal/imap/pool.go:78-85 | a dialled connection belongs to the borrower that dialled it and to nobody else |
| PoolSystem.OpenIsLentOrRegistered | backend/internal/imap/pool.go:126-161 | no leak: an open connection is with a borrower or in a pool the registry still names |
| PoolSystem.CloseAllDrains | backend/internal/imap/pool.go:240-248 | when the loop of CloseAll has seen all keys the registry is empty, and no connection is open once nothing is lent |
| PoolSystem.EmptyRegistryStays | backend/internal/imap/pool.go:126-161 | and it stays so through returns and dials that end late, until somebody asks for a pool |
| PoolSystem.SessionEnds | backend/internal/imap/pool.go:226-237 | in every run: from the first step of ending a session to the last key of its loop, whatever borrowers do in between, its keys leave the registry and no key of another session does |
| PoolSystem.AdvanceInv | backend/internal/imap/pool.go:231-236 | each turn of a loop keeps the invariant, with exactly the matching keys removed among those it has passed |
| PoolSystem.PrefixIsSession | backend/internal/imap/pool.go:227-232 | a session's prefix matches a key if and only if the key is of that session, when session ids have no colon |
| PoolSystem.KeysAreDistinct | backend/internal/imap/pool.go:184-186 | two accounts never share a key |
| PoolSystem.ColonConfusesSessions | backend/internal/imap/pool.go:184-186 | with colons in session ids both fail |
| PoolSystem.ClosingDone | backend/internal/imap/pool.go:231-236 | when a closing loop has seen all keys, exactly the matching ones it began with are gone |
| PoolSystem.JanitorStep | backend/internal/imap/pool.go:257-269 | a turn of the janitor removes its key if and only if the pool was last active over fifteen minutes before, closes that pool and touches no other |
| PoolProtocol.AcquireAccounts | backend/internal/imap/pool.go:47-88 | acquiring lends an idle connection nobody had or reserves a dial; every connection is held before if and only if it is held or closed after |
| PoolProtocol.AcquireCounted | backend/internal/imap/pool.go:68-88 | acquiring stays within capacity, and makes a borrower wait only when every place is lent or being dialled |
| PoolProtocol.AcquireExactly | backend/internal/imap/pool.go:47-89 | on an open pool: a connection is lent if and only if it is live, was used less than the timeout ago, and no later one in the list is both; exactly those behind it are closed and those before it stay; with none all are closed, and the borrower dials if the others leave a place and waits if not; the time of last activity becomes now |
| PoolProtocol.PollExactly | backend/internal/imap/pool.go:101-122 | one tick of the waiting loop does this for the last connection only, and leaves the time of last activity |
| PoolProtocol.ReleaseNeedsLent | backend/internal/imap/pool.go:127-144 | what is returned is not checked: an open pool's counter stays right if and only if the connection had been lent |
| PoolProtocol.TakeUsableAccounts | backend/internal/imap/pool.go:57-71 | the loop that drops expired connections loses none |
| PoolProtocol.PollAccounts | backend/internal/imap/pool.go:101-121 | the same for one tick of the waiting loop |
| PoolProtocol.ReleaseAccounts | backend/internal/imap/pool.go:127-144 | a return makes the connection available again, used and active now, or closes it if and only if the pool is closed |
| PoolProtocol.CloseAccounts | backend/internal/imap/pool.go:147-161 | closing shuts exactly the idle connections |
| PoolProtocol.DialAccounts | backend/internal/imap/pool.go:78-85 | both ends of a dial keep lending exclusive |
| PoolObjects.UserPool.Acquire | backend/internal/imap/pool.go:47-88 | the pool object refines the protocol, closes exactly the clients it drops and returns the one it lends |
| PoolObjects.UserPool.Poll | backend/internal/imap/pool.go:101-121 | one tick on the object: the newest idle client is lent, or closed and no longer counted |
| PoolObjects.UserPool.Release | backend/internal/imap/pool.go:127-144 | the object: a client comes back to the end of the list with a fresh time, or is closed with the pool |
| PoolObjects.UserPool.Close | backend/internal/imap/pool.go:147-161 | the object: every idle client is closed and the list emptied; a second call does nothing |
| PoolObjects.UserPool.FinishDial | backend/internal/imap/pool.go:78-85 | the object: a failed dial gives its place back, a finished one goes to the borrower |
| PoolObjects.UserPool.constructor | backend/internal/imap/pool.go:29-44 | non-positive settings become four connections and five minutes |
| PoolObjects.PoolManager.Lookup | backend/internal/imap/pool.go:189-198 | a missing pool is made and registered, a known one returned, no other key touched |
| PoolObjects.PoolManager.DestroyPool | backend/internal/imap/pool.go:213-223 | exactly one key leaves the registry, its pool and its idle clients closed, all others untouched |
| PoolObjects.PoolManager.DestroySessionPools | backend/internal/imap/pool.go:226-237 | exactly the keys with the session's prefix leave, their pools and idle clients closed, all others untouched |
| PoolObjects.PoolManager.CloseAll | backend/internal/imap/pool.go:240-248 | every key leaves the registry and every registered pool is closed |
| PoolObjects.PoolManager.Janitor | backend/internal/imap/pool.go:251-271 | exactly the pools unused for more than fifteen minutes leave, closed with their idle clients |
| PasswordSaga.AllChanged | backend/internal/api/handler/auth.go:834-891 | after success the LDAP entry, the account row and, for the login identity, the wrap accept the new password and no other, the wrap opening to the same DEK; for another account no wrap is touched |
| PasswordTargets.ChangesWhatIsMeant | backend/internal/api/handler/auth.go:757-891 | success in terms of the request and the rows: the row meant is the first with the requested id or else with the login email; the entry meant is that of the row's email, or of the login email when that is the row's or there is no row; this entry had accepted the old password and accepts the new one only, both fields of this row open to the new password, the wrap changes if and only if the login identity is meant and then opens under the new password only, to the same DEK; nothing else changes |
| PasswordTargets.NothingElseChanges | backend/internal/api/handler/auth.go:757-891 | whatever the answer, no other LDAP entry, row or wrap is touched |
| PasswordTargets.UnknownAccount | backend/internal/api/handler/auth.go:769-772 | an account that the owner does not have changes nothing |
| PasswordTargets.SucceedsExactly | backend/internal/api/handler/auth.go:731-907 | success if and only if the old password was checked and accepted, everything new could be sealed and stored, and a credential that could not be read did not exist |
| PasswordTargets.RefusesExactly | backend/internal/api/handler/auth.go:731-805 | each refusal before the writes if and only if its own condition holds and no earlier one does |
| PasswordSaga.NothingChanged | backend/internal/api/handler/auth.go:845-891 | for every set of failing calls and every state of the stores, anything but success leaves all three stores exactly as they were if and only if LDAP was written back, to an entry that had accepted only the old password, and the row kept its ciphertexts; the wraps never change |
| PasswordSaga.AcceptanceKept | backend/internal/api/handler/auth.go:845-891 | what users notice: after anything but success every entry, row and wrap accepts what it accepted before if and only if LDAP was written back, to an entry that had accepted only the old password, and the row was put back or had already opened under the new password |
| PasswordSaga.CompensatedChangesNothing | backend/internal/api/handler/auth.go:845-891 | so a failure whose compensating calls worked changes nothing, whatever the rows held before |
| PasswordSaga.RefreshHasNewPassword | backend/internal/api/handler/auth.go:893-904 | after success the session is given the new password for the changed account, which is the one reconnected |
| PasswordSaga.PasswordsByRow | backend/internal/api/handler/auth.go:895-901 | the session's password table holds exactly the decryptable passwords of its accounts |
| PasswordSaga.FailedCompensationLocksOut | backend/internal/api/handler/auth.go:912-918 | when the LDAP write cannot be undone, no password both passes LDAP and opens the wrap |
| PasswordSaga.ResolveAfterChange | backend/internal/api/handler/auth.go:374-412 | after a changed login password the next login resolves with the new password only, to the same DEK |
| PasswordRuns.RefusedAfterTen | backend/internal/api/handler/auth.go:781-785 | in every state of every run, a change is refused by the limiter exactly when the wrong passwords recorded for its session and target since the last success, and within ten minutes, number ten |
| PasswordTargets.LimiterRemembers | backend/internal/api/handler/auth.go:781-806 | a wrong password adds one failure, now, to the record of its session and email; success empties it; nothing else changes this or any other record |
| PasswordTargets.LimitedAfterTen | backend/internal/api/handler/auth.go:781-785 | in every run a well-formed request is refused for too many failures if and only if that record has ten that are less than ten minutes old |
| PasswordSaga.BlockedByRecentFailures | backend/internal/api/handler/auth.go:781-785 | the same for any log of limiter calls with one window, in the order of time |
| PasswordRuns.StepKeepsLog | backend/internal/api/handler/auth.go:782-785 | every step of a run keeps the log ordered in time and with one window |
| PasswordSaga.LimiterCallsUseOneWindow | backend/internal/api/handler/auth.go:781-785 | the one-window condition behind that is kept by every request |
| PasswordRuns.DekNeverChanges | backend/internal/api/handler/auth.go:374-412 | over every run of logins, password changes with any failures, added accounts and outside LDAP writes: the stored wrap opens under the last committed master password, and only under it, to the owner's first DEK, which reads every stored password |
| PasswordRuns.StepKeeps | backend/internal/api/handler/auth.go:773-891 | every step keeps the invariant behind that |
| PasswordRuns.SignsInKeeps | backend/internal/api/handler/auth.go:294-345 | a login does, whether it creates the credential, unwraps it or fails half-way |
| PasswordTargets.SessionExactly | backend/internal/api/handler/auth.go:203-359 | a login gives this session if and only if email and password are given and accepted, no second factor is due, the key of the owner opens with the password and its accounts are there |
| PasswordTargets.LoginKeeps | backend/internal/api/handler/auth.go:203-359 | a login touches no LDAP entry and nothing of other owners, and leaves the rows and wraps that exist |
| PasswordTargets.FirstLogin | backend/internal/api/handler/auth.go:309-337 | the row that a first login leaves has the email as given and opens to the login password in both fields |
| PasswordTargets.FirstWrap | backend/internal/api/handler/auth.go:380-404 | the wrap that a first login leaves opens under the login password only, to the DEK of the session |
| PasswordRuns.ChangesKeeps | backend/internal/api/handler/auth.go:807-891 | a password change does, whatever its result |
| AuthHandler.Handler.ChangePassword | backend/internal/api/handler/auth.go:715-909 | the handler, run call by call with early returns and compensation, has exactly the outcome, the stores, the limiter calls and the session refresh of the specification for every pattern of failing calls |
| AuthHandler.Handler.DecryptPasswords | backend/internal/api/handler/auth.go:895-901 | the loop that decrypts the session's passwords |
| AuthHandler.Handler.WriteStores | backend/internal/api/handler/auth.go:807-891 | the writes after the old password was verified, each undone when a later one fails |
| AuthHandler.Handler.StoreWrap | backend/internal/api/handler/auth.go:864-891 | update or create, decided by a read that may itself fail; then the restoring writes |
| AuthHandler.Handler.StoreRow | backend/internal/api/handler/auth.go:848-859 | exactly one row is rewritten |
| AuthHandler.Handler.FindAccount | backend/internal/api/handler/auth.go:757-768 | the first row with the requested id, or with the login identity's email |
| AuthHandler.Handler.VerifyOld | backend/internal/api/handler/auth.go:781-805 | blocked, unknown, unreachable and wrong are told apart |
| AuthHandler.Handler.Validate | backend/internal/api/handler/auth.go:731-746 | a request passes if and only if it is well formed |
| AuthHandler.Handler.ResolveCredential | backend/internal/api/handler/auth.go:374-412 | the credential is created at the first login and unwrapped at later ones |
| AuthHandler.Handler.Login | backend/internal/api/handler/auth.go:203-294 | no session and no change of a store when a field is empty, the mail server refuses the password or a second factor is due; else the rest of the login |
| AuthHandler.Handler.CompleteLogin | backend/internal/api/handler/auth.go:294-359 | the first row is made only for an owner without rows; a failure keeps a created credential |
| AuthHandler.Handler.UpdateAccount | backend/internal/storage/sqlite.go:1371-1403 | an update by identifier |
| AuthHandler.Handler.CreateUserCredential | backend/internal/storage/sqlite.go:1471-1489 | the owner is a primary key |
| AuthHandler.Handler.WriteLdap | backend/internal/ldap/client.go:120-140 | an entry's passwords are replaced by one |
| AuthHandler.UpdateIsOneRow | backend/internal/storage/sqlite.go:1371-1403 | with unique identifiers an update touches one row, and updating back restores the table |
| Envelope.WrapOpensOnce | backend/internal/crypto/envelope.go:63-96 | a wrapped key opens under one password only, to one key only |
| RateLimit.RateBound | backend/internal/api/middleware/rate_limit.go:70-104 | for every run with non-decreasing times, whatever other keys do and even with a full table: in no interval of the window's length are more than 2 * max - 1 requests of a key let through |
| RateLimit.BoundHoldsExactly | backend/internal/api/middleware/rate_limit.go:79-104 | for every limit, the bound holds in all runs if and only if its window is at most ten minutes and one nanosecond |
| RateLimit.BoundIsTight | backend/internal/api/middleware/rate_limit.go:70-104 | the bound is reached by a run for every limit and every window longer than an instant, up to that length |
| RateLimit.SweptRunExceeds | backend/internal/api/middleware/rate_limit.go:79-86 | for every limit with a longer window some run lets 2 * max requests through within the window's length, because the sweep forgets the running window |
| RateLimit.WindowBound | backend/internal/api/middleware/rate_limit.go:88-103 | of the requests in one fixed window exactly the first max are let through |
| RateLimit.RunTells | backend/internal/api/middleware/rate_limit.go:88-103 | the invariant behind both: what a stored window says about all earlier admissions of its key |
| RateLimit.SweepingInvisible | backend/internal/api/middleware/rate_limit.go:79-99 | in every run, however many clients it meets: all answers are those of a limiter that never sweeps and has no size limit, if and only if no request was turned away by a full table |
| RateLimit.FewClientsFit | backend/internal/api/middleware/rate_limit.go:88-92 | while at most 10,000 clients have been seen, nobody is turned away |
| RateLimit.TurnedAwayShows | backend/internal/api/middleware/rate_limit.go:88-92 | a client that a full table turns away would have been let through by the unbounded limiter |
| RateLimit.KeepsStep | backend/internal/api/middleware/rate_limit.go:79-99 | one request, whenever the table has room for it |
| RateLimit.Bounded | backend/internal/api/middleware/rate_limit.go:88-99 | the table never exceeds 10,000 entries |
| RateLimit.RetryAfterExact | backend/internal/api/middleware/rate_limit.go:100-101 | in every run: the retry time of a count denial lies in (0, window], and whatever others ask in between, the client's next request, if it is not turned away by a full table, is let through exactly from that instant on |
| RateLimit.DeniedWhenFull | backend/internal/api/middleware/rate_limit.go:88-92 | a new client is turned away if and only if the table, after its sweep if a minute has passed since the last one, still holds 10,000 clients; it is told to wait a minute and is not remembered |
| RateLimit.OthersRemembered | backend/internal/api/middleware/rate_limit.go:79-86 | one request leaves the windows of the other clients as they are, except that a sweep, at most one a minute, forgets exactly those not seen for over ten minutes |
| RateLimit.ScopesApart | backend/internal/api/middleware/rate_limit.go:74-74 | scopes never share counters |
| RateLimit.IPRateLimiter.Allow | backend/internal/api/middleware/rate_limit.go:70-104 | the object refines Step |
| RateLimit.IPRateLimiter.Sweep | backend/internal/api/middleware/rate_limit.go:80-84 | the deleting loop, in any order, keeps exactly the recently seen windows |
| Attempts.PrunedAnswersLikeFull | backend/internal/auth/attempts.go:20-38 | with one window per key of at most an hour and non-decreasing times, a key is blocked if and only if the failures since its last reset inside the window number at least max |
| Attempts.NoEmptyKeys | backend/internal/auth/attempts.go:54-58 | no key is kept without failures |
| Attempts.LikeFullExactly | backend/internal/auth/attempts.go:20-59 | for any mix of windows: the answers are those of the full history if and only if no failure inside the window lies at or before the highest cutoff used on the key since its reset |
| Attempts.BlockedExactly | backend/internal/auth/attempts.go:20-59 | for any mix of windows, the answer: the full history above the later of that cutoff and the window's |
| Attempts.StoredIsHistory | backend/internal/auth/attempts.go:41-59 | in every run the stored list is the full history above that cutoff |
| Attempts.ShorterWindowForgets | backend/internal/auth/attempts.go:46-57 | a concrete failure with two windows on one key |
| Attempts.LongWindowForgets | backend/internal/auth/attempts.go:27-31 | a concrete failure with a window above an hour: recording a failure prunes what should still count |
| Attempts.RecentKeeps | backend/internal/auth/attempts.go:48-52 | pruning keeps each time after the cutoff as often as it occurs, and nothing else |
| Attempts.Compact | backend/internal/auth/attempts.go:47-52 | the in-place compaction of the backing array |
| Attempts.Append | backend/internal/auth/attempts.go:30-30 | appending in place or, when full, in a new array |
| Attempts.AttemptLimiter.RecentFailures | backend/internal/auth/attempts.go:41-59 | one list is compacted or deleted, the lists of other keys, in other arrays, are untouched |
| Attempts.AttemptLimiter.Blocked | backend/internal/auth/attempts.go:20-24 | the object answers and prunes as the specification does |
| Attempts.AttemptLimiter.RecordFailure | backend/internal/auth/attempts.go:27-31 | the object prunes by one hour and then adds the time |
| Attempts.AttemptLimiter.Reset | backend/internal/auth/attempts.go:34-38 | the object forgets one key and no other |

## Left out

- Regular expressions of the Sieve code: written as predicates on characters.
- Letter case of words and annotations: `SieveText.Lower` changes ASCII letters only, which are the only letters a word may have.
- Strings: sequences of characters; where the source counts bytes (the eight-character minimum of a new password) a character stands for a byte, and UTF-16 surrogates are not modelled.
- Generated ids of rules, conditions and actions: not part of the model; rules are compared without them.
- Optional fields of conditions and actions: an absent field is the empty string or false, which the printer treats alike.
- SieveGrammar.PrintedMeaning: excludes names with a line break, whose later lines are script (`SieveNames.SecondLineIsScript`); of the tests of RFC 5228 the grammar has those the builder can print, and it reads tokens, simple tests, commands and blocks with the functions of the repository's parser.
- SieveSentences.TestExactly: what follows the test does not start a string list, which the parser would read as part of the test; in a script a brace, a comma or a parenthesis follows.
- SieveTitles.RulesExactly: the flat form of a test is that of `SieveFlatten`; what it means is the subject of `SieveImportMeaning`.
- SieveFixedPoint.PrintFixedPoint: for lists whose enabled rules have one-line names.
- SieveImportedScripts.ImportKeepsMeaning: whole scripts are compared on messages on which every test agrees with its flat list, because two differing tests in one script may cancel out; single statements are compared without that (`SieveImportedScripts.StmtExactly`), and single tests in `SieveImportMeaning.FlattenSound`.
- SieveImportMeaning.FlattenSound: header names that contain a comma or surrounding white space cannot be told apart in the builder's comma lists, and are excluded.
- Message matching: comparators, wildcards and address syntax are parameters (`SieveMeaning.Mail`); every statement holds for all of them.
- The actions' effects on a message, implicit keep and runtime errors of a Sieve interpreter: a run is the list of commands carried out.
- `subjectKey`, `normalizeMsgID` and the References header parser: parameters of grouping; message ids reach it already normalised, as in the source.
- `buildThreadGroups`, `assembleThreads`, search filters and paging: sorting and summing over the groups, which would add easy members only.
- ThreadCache.CacheComplete: SELECT and FETCH of one refresh see the same mailbox, and the server's answers are honest; messages are compared by UID and envelope, since flags of cached nodes may be stale.
- Readers of a thread index after its lock is released: not modelled.
- Waiting in `Acquire`: the ten-second limit and cancellation end the wait and change nothing, so they are not steps.
- PoolProtocol.ReleaseAccounts: a connection is returned once; the source does not guard against a second return, which would list the connection twice.
- `PoolObjects.PoolManager`: its loops run without interruption; interleaving of whole regions is the subject of `PoolSystem`, where every loop is a step for each key.
- The link from `PoolObjects` to `PoolSystem`: each pool object refines `PoolProtocol`; the objects of all pools are not collected into one system state.
- Cryptography: symbolic; a key opens what it sealed and nothing else, master keys of different passwords or salts differ, and random values come with the request.
- Calls to LDAP and SQLite: each happens or fails as a whole; a call that fails has changed nothing. Account labels and hosts, which are encrypted too, are left out of rows.
- Two requests at once: a password change and a login run one after the other.
- AuthHandler.Handler.ChangePassword: the reconnection of the changed account is the identifier it is given, not the listener's own work; log lines are left out.
- AuthHandler.Handler.Login: the login limiter, the required host fields and the pending challenge of a second factor are left out; the mail server's answer and whether a second factor is due come with the request.
- `UserDN` and `normalizeEmail`: functions of the configuration, without properties of their own.
- Wall-clock jumps: times never go back in a run.
- The Retry-After header, proxy addresses and the HTTP layer around the limiters.
- Address book, mail search, message parsing, backups, key rings and user interface: no part of this model.
