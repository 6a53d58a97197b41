# A verified model of the PMCFG grammar reader

`pmcfg.py` reads the text exchange format for Parallel Multiple Context-Free
Grammars. A grammar file is a list of lines. Each line is one of:

- a blank or comment line;
- a pragma `:name info` or `: info`;
- a rule `f : S <- A B`;
- a linearization `f = l1 l2`;
- a sequence `l1 -> "a" 0:0`;
- a score `f 0.5`.

`read_grammar` makes one pass over the lines and fills eight dictionaries.
The first malformed or conflicting line aborts the read. At the end, an
optional sweep emits warnings about what is left undefined or inconsistent.

This project models that reader in Dafny:

- the lexing helpers `is_identifier` and `whitespace_split`;
- the structural parsers `read_rule` and `read_linearization`;
- the sequence tokenizer `read_sequence`, written as a hand scanner over
  characters with the same token grammar as `SEQ_REGEXP`;
- `collect_max_arities`;
- the assembler loop of `read_grammar`;
- the deferred sweep, as a function returning a list of warnings.

The model has three layers.

- **Specification.** Each kind of line is a pure step function on the
  dictionaries (module `Steps`). The whole read is a fold of these steps
  (`Reading.ReadLines`).
- **Imperative code, proved against it.** `Reading.GrammarReader` is a class
  with the eight dictionaries as fields. Its methods update them the way the
  loop body does. Each method is proved to compute the step function.
  `ReadSequence`, `CollectMaxArities` and `ReadRule` are the loops of the
  source, proved against their functions.
- **Invariant.** `Model.Consistent` is what holds after every accepted line:
  - the cached `fun_arities`/`seq_arities` are up to date;
  - rule arities agree with linearizations;
  - every referenced symbol is registered.

  Each step preserves it (module `Consistency`). The proved consequences are:
  - a returned grammar is arity-consistent;
  - the sweep never reports an arity disagreement for it.

Python dictionaries keep insertion order, and the returned ones are
iterated by the sweep and by callers. They are modelled as
`OrderedMaps.OMap`, a key sequence plus a map.

Four claims that descriptions of the format make are not what the code
does. The model follows the code:

- Claim: the two lines `f : S <- A` and `f = l1 l2` are rejected, because
  the rule gives `S` arity 1 and the linearization has length 2. The code
  accepts them. A rule records no arity for its left-hand side (lines
  154-158 only fill in an arity the function already has), so `S` gets
  arity 2 from the linearization. `Worked.RuleWithoutArityExample` states
  this.
- Claim: the nonterminal, function and sequence names are always
  disjoint. The code does not check a sequence name taken from a
  linearization against `nonterms` or `functions` (lines 182-183).
  Nor does it record a left-hand side whose function has no arity yet
  (lines 154-158), so a later rule may use that nonterminal as its
  function name: `f : S <-` followed by `S : X <-` is accepted
  (`Worked.FunctionNamedLikeNonterminalExample`). Only the checks the code
  makes are stated: `Steps.RuleStepRejects`, `Steps.LinStep` and
  `Steps.SeqStep`.
- Claim: `x -> "lit"` followed by `y : x <- z` is rejected because `x` is
  used on a right-hand side. In that rule `x` is the left-hand side, not a
  right-hand-side symbol. The error does come, from lines 165-166
  (`Worked.SequenceThenRuleExample`).
- Claim: the four lines `f : S <- A B`, `f = l1 l2`, `l1 -> "a" 0:0` and
  `l2 -> "b" 1:0` give no warnings. The sweep does warn, because `A` and
  `B` have unknown arity.

Several source defects are replaced by defined behaviour. Four of them can
crash the reader and are listed under Findings. Two more cannot be
observed:

- Line 240 looks a left-hand side up without a default.
- Line 242 prints `ident` where `fun` is meant.

`Validation.CheckRule` uses `Model.Arity`, which treats a missing key as an
unknown arity, and reports the function's own name.
`Validation.ConsistentNoArityWarnings` shows that after a successful read
this warning is never produced, so no input exhibits either defect.

## Model

| member | source | states |
|---|---|---|
| Structure.FirstNonIdentifier | pmcfg.py:85-87 | none is returned exactly when every field is an identifier; otherwise it returns the first field that is not |
| Lexing.TrimLeftCuts | pmcfg.py:134 | `lstrip` drops whitespace only and returns a suffix of the line |
| Lexing.TrimRightCuts | pmcfg.py:143 | the right strip drops whitespace only and returns a prefix |
| Lexing.Strip | pmcfg.py:143 | the payload is a slice of the input with whitespace on both sides removed, and it neither starts nor ends with whitespace |
| Lexing.SplitAllLayout | pmcfg.py:48 | `split()` with no limit cuts the text into its words: the text is the words laid out between gaps of whitespace, each gap between two words nonempty |
| Lexing.SplitAllUnique | pmcfg.py:48 | conversely, words laid out between such gaps are exactly what `split()` returns |
| Lexing.SplitMaxLayout | pmcfg.py:48 | `split(None, n)` lays its pieces out the same way; when all n splits happen, no gap follows the last piece |
| Lexing.SplitMaxWords | pmcfg.py:48 | every field before the last of `split(None, n)` is a word |
| Lexing.SplitMaxRemainder | pmcfg.py:48 | when all n splits happen, the last field is a nonempty suffix of the input |
| Lexing.SplitMaxComplete | pmcfg.py:48-50 | when fewer than n splits happen, the result is the unlimited split |
| Lexing.WhitespaceSplit | pmcfg.py:42-51 | for n >= 0 there are exactly n+1 fields: the split's fields, then empty strings; for n < 0 it is the plain split |
| Lexing.SplitJoin | pmcfg.py:48 | splitting words joined by single spaces gives the words back |
| Lexing.NatToStringRoundTrip | pmcfg.py:68 | `int` of a rendered natural number is that number |
| Structure.ParseRule | pmcfg.py:76-89 | success exactly when the second field is `<-` and every other field is an identifier; the rule is the first field and the fields after the arrow, in order; the missing-arrow error and the first non-identifier |
| Structure.ReadRule | pmcfg.py:76-89 | the pop-based method computes ParseRule |
| Structure.ReadLinearization | pmcfg.py:92-100 | success exactly when every field is an identifier, with the fields as the result; otherwise the first offending field |
| Structure.ParseInt | pmcfg.py:199 | `int` accepts exactly an optional sign and one or more digits |
| Structure.ParseIntToString | pmcfg.py:199 | `int(str(i)) == i` for every integer |
| Structure.ParseScore | pmcfg.py:198-204 | `int` is tried first and gives an integer score; otherwise a float literal gives a float score; otherwise a score error carrying the keyword |
| Structure.ClassifyLine | pmcfg.py:134-147 | skipped exactly for a blank or comment line; a pragma exactly when the marker starts the line; unnamed exactly when whitespace follows the marker; the payload is stripped; a declaration gives word fields and a rest that is a suffix of the line |
| Structure.ClassifyUnnamedInfo | pmcfg.py:139-143 | an unnamed pragma's payload is the rest of the line after the marker, stripped |
| Structure.ClassifyNamedLayout | pmcfg.py:141-143 | after the marker, a named pragma's line is its name, whitespace, its payload and whitespace, with nonempty whitespace before a nonempty payload |
| Structure.ClassifyDeclLayout | pmcfg.py:134-147 | after its leading whitespace, a declaration line is the identifier, whitespace, the keyword, whitespace and the rest; the whitespace before a nonempty keyword or rest is nonempty, and the rest starts with a non-space |
| Errors.Error.Kind | pmcfg.py:211 | exactly the shape errors are syntax errors; the conflicts are value errors |
| Sequences.QuoteEndAt | pmcfg.py:26-27 | the quote is found at `j` exactly when the text before `j` is a body (plain characters other than the quote and backslash, and backslashes followed by anything but a line feed) and the quote stands at `j` |
| Sequences.QuoteEndExact | pmcfg.py:26-27 | the quote found is the only one that closes a body, and none is found exactly when no quote closes one |
| Sequences.DigitRun | pmcfg.py:29 | the run ends at the end of the text or at a non-digit |
| Sequences.DigitRunDigits | pmcfg.py:29 | every character of the run is a digit |
| Sequences.SpaceRunSpaces | pmcfg.py:30 | every character of the run is whitespace |
| Sequences.SeparatorExact | pmcfg.py:30 | the separator ends at `n` exactly when the separator pattern, whitespace or the end of the text, matches from the token's end to `n`: at the end of the text, or over the whole nonempty run of whitespace there |
| Sequences.MatchQuotedExact | pmcfg.py:25-30 | a quoted match with body `b` ending at `n` exactly when the text is a quote, a body `b` for that quote, the same quote and a separator ending at `n` |
| Sequences.MatchArgRefExact | pmcfg.py:29-30 | an arg:ref match exactly when the text is digits, a colon, digits and a separator, the two numbers being the values of the digit runs, leading zeros included |
| Sequences.MatchTokenExact | pmcfg.py:25-30 | the matcher gives exactly what the pattern matches at the front of the text, and nothing exactly when the pattern matches nothing |
| Sequences.Scan | pmcfg.py:54-73 | empty text gives no tokens; there are never more tokens than characters |
| Sequences.ScanErrors | pmcfg.py:62-65 | a failure is an unmatched remainder or a literal `eval` rejects; the unmatched remainder is a nonempty suffix of the input at which no token matches |
| Sequences.NextToken | pmcfg.py:63-72 | one loop turn: the cursor advances by at least one, and the scan of the rest is this token in front of the scan after it, or the same error |
| Sequences.ReadSequence | pmcfg.py:54-73 | the cursor loop computes Scan |
| Sequences.UnescapeEscape | pmcfg.py:70 | unescaping a literal's escaped body gives the text back |
| Sequences.QuoteEndEscape | pmcfg.py:26 | the first unescaped quote after an escaped body is the one right after it |
| Sequences.MatchRendered | pmcfg.py:25-30 | a rendered token followed by a space or the end is matched whole and evaluates back to itself |
| Sequences.ScanRenderedToken | pmcfg.py:62-72 | scanning a rendered token and its tail is that token in front of the scan of the tail |
| Sequences.ScanRender | pmcfg.py:54-73 | tokenizing a space-separated rendering of any token list gives back that list |
| Arities.Items | pmcfg.py:237 | `items()` lists each key once, in key order, with its value |
| Arities.CollectKeys | pmcfg.py:115-117 | after merging pairs, a key is present exactly when it was before or some pair names it |
| Arities.CollectBounds | pmcfg.py:117 | each merged value is at least the old value (default -1) and at least every reference paired with its key |
| Arities.CollectAttained | pmcfg.py:117 | each merged value is the old value (default -1) or the reference of some pair |
| Arities.CollectUnchanged | pmcfg.py:115-117 | a key no pair names keeps its value |
| Arities.MentionsToken | pmcfg.py:116 | a key is named by a pair exactly when some argument-reference token names it; string tokens contribute nothing |
| Arities.RefPairOfToken | pmcfg.py:116 | every argument-reference token gives a pair |
| Arities.TokenOfRefPair | pmcfg.py:116 | every pair comes from an argument-reference token |
| Arities.CollectTokenBounds | pmcfg.py:115-117 | after the merge, every referenced argument is a key whose value bounds its reference |
| Arities.CollectTokenAttained | pmcfg.py:115-117 | each merged value is the old value or the reference of some token |
| Arities.CollectMaxArities | pmcfg.py:110-117 | the in-place loop computes the merge of the token list's pairs |
| Arities.CollectedMaxima | pmcfg.py:110-117 | the keys are the old keys plus the referenced arguments; each value is the maximum of the old value (default -1) and every reference of its argument, and is attained; other keys are unchanged |
| Arities.CollectedKeys | pmcfg.py:115-117 | the keys are the old ones plus the arguments some token refers to |
| Arities.CollectedGrows | pmcfg.py:117 | old keys stay, and their values do not decrease |
| Arities.CollectedAttained | pmcfg.py:117 | every value is the old one (default -1) or the reference of a token of that argument |
| Arities.CollectedUnchanged | pmcfg.py:115-117 | an old key that no token refers to keeps its value |
| OrderedMaps.OMap.Get | pmcfg.py:154-155 | `dict.get`: a value exactly for a present key |
| OrderedMaps.OMap.Put | pmcfg.py:174 | assignment updates the value; a new key goes last in iteration order, and an existing key keeps its place |
| OrderedMaps.OMap.SetDefault | pmcfg.py:162 | `setdefault` leaves a present key alone and appends an absent one with the default |
| Model.EmptyTables | pmcfg.py:124-131 | the read starts with all eight dictionaries empty |
| Model.GrammarOf | pmcfg.py:252-258 | the returned grammar is the six public dictionaries |
| Model.Arity | pmcfg.py:154 | `nonterms.get(x)`: the dictionary's entry for a present key, None for an absent one |
| Model.EmptyConsistent | pmcfg.py:124-131 | the empty dictionaries satisfy the reader's invariant |
| Steps.RegisterRhs | pmcfg.py:161-164 | success exactly when no right-hand-side symbol is a function or sequence; on failure, the first such symbol; only `nonterms` changes |
| Steps.RegisterRhsGrows | pmcfg.py:161-162 | every right-hand-side symbol becomes a nonterminal key, and known arities are kept |
| Steps.RegisterRhsAdds | pmcfg.py:161-162 | exactly the right-hand-side symbols are added, a new one with unknown arity; every other entry keeps its arity |
| Steps.Propagate | pmcfg.py:176-181 | only `nonterms` changes; an error names the function, its arity and a different left-hand-side arity |
| Steps.PropagateGrows | pmcfg.py:176-179 | on success, every rule's left-hand side has the function's arity, and known arities are kept |
| Steps.PropagateKeeps | pmcfg.py:176-179 | only the rules' left-hand sides are added, and every other nonterminal keeps its entry |
| Steps.PropagateConflict | pmcfg.py:180-181 | a rule whose left-hand side already has another arity aborts |
| Steps.DeclareSequencesAdds | pmcfg.py:182-183 | the sequence keys are the old ones plus the linearization's; new ones have no body; existing entries are unchanged |
| Steps.RuleStep | pmcfg.py:151-168 | an accepted rule is appended to its function's list; the function name is neither a nonterminal nor a sequence; linearizations, sequences and function arities are unchanged |
| Steps.RuleStepRejects | pmcfg.py:154-168 | a right-hand-side or left-hand-side symbol that is a function or sequence (or the rule's own function) aborts; a left-hand side whose known arity differs from the function's is an arity error |
| Steps.RuleStepState | pmcfg.py:151-162 | the whole state after an accepted rule: the rule under its function; `nonterms` gains the right-hand side and, when the function's arity is known, the left-hand side; the left-hand side takes the function's arity when its own was unknown, every other entry keeps its arity; the other six dictionaries are unchanged |
| Steps.LinStep | pmcfg.py:170-185 | a second linearization is a duplicate error; a name that is a nonterminal or sequence (or among its own sequences) aborts; any other error is an arity or function clash; success records the linearization and its arity and leaves rules alone |
| Steps.LinStepState | pmcfg.py:170-185 | the whole state after an accepted linearization: it is stored with its arity, its sequences are declared, the left-hand sides of the function's rules have that arity, no other nonterminal changes and the other three dictionaries are unchanged |
| Steps.SeqStep | pmcfg.py:187-195 | success exactly when the sequence has no body yet and is not a nonterminal, linearization or function; a second body is a duplicate error; success stores the body and its max-argument map and changes nothing else |
| Steps.ScoreStep | pmcfg.py:197-209 | success exactly for a number, no trailing text and no earlier score; each failure has its own error; success stores the parsed score and changes nothing else |
| Steps.PragmaStep | pmcfg.py:138-145 | the payload is appended under its name, after earlier ones and with duplicates kept; other names and all other dictionaries are unchanged |
| Steps.LineStep | pmcfg.py:132-145 | a blank or comment line changes nothing; a pragma line is a pragma step |
| Steps.LineStepDecl | pmcfg.py:147-209 | a declaration whose first field is not an identifier is rejected; otherwise `:` parses a rule, `=` a linearization and `->` a sequence body, each parse error being the line's error, and any other keyword is a score |
| Consistency.AddRuleKeepsConsistent | pmcfg.py:151-168 | storing a rule whose symbols are registered and whose left-hand side carries its function's arity keeps the invariant |
| Consistency.RuleStepConsistent | pmcfg.py:151-168 | an accepted rule keeps the invariant |
| Consistency.AddLinKeepsConsistent | pmcfg.py:170-185 | recording a linearization after propagating its arity and declaring its sequences keeps the invariant |
| Consistency.LinStepConsistent | pmcfg.py:170-185 | an accepted linearization keeps the invariant |
| Consistency.SeqStepConsistent | pmcfg.py:187-195 | an accepted sequence, with its max-argument map cached, keeps the invariant |
| Consistency.ScoreStepConsistent | pmcfg.py:197-209 | an accepted score keeps the invariant |
| Consistency.LineStepConsistent | pmcfg.py:132-209 | every accepted line keeps the invariant |
| Consistency.RuleThenLinearization | pmcfg.py:175-179 | a rule and then its function's linearization: the rule's left-hand side has the linearization's length as its arity |
| Consistency.LinearizationThenRule | pmcfg.py:154-158 | a linearization and then a rule of that function: the same conclusion |
| Consistency.ConflictingRuleRejected | pmcfg.py:159-160 | a rule whose left-hand side already has another function's different arity is rejected with that arity error |
| Consistency.ConflictingLinearizationRejected | pmcfg.py:180-181 | a linearization whose length differs from a known arity of one of its rules' left-hand sides is rejected with an arity error |
| Validation.UndefinedNonterms | pmcfg.py:222 | exactly the nonterminals with unknown arity |
| Validation.UndefinedSeqs | pmcfg.py:226 | exactly the sequences without a body |
| Validation.MergeKeys | pmcfg.py:235-237 | a merged key is an old key or an argument some cached map of the linearization's sequences has |
| Validation.MergeBounds | pmcfg.py:235-237 | the merged value bounds the old value and every cached value of that argument |
| Validation.MergeAttained | pmcfg.py:235-237 | the merged value is the old one or a cached value of one of the sequences |
| Validation.LinAritiesKeys | pmcfg.py:235-237 | a function's merged map has an argument exactly when some sequence of its linearization refers to it |
| Validation.LinAritiesBound | pmcfg.py:235-237 | every reference in the linearization's sequences is at most the merged value of its argument |
| Validation.LinAritiesAttained | pmcfg.py:235-237 | every merged value is the reference of some token in one of the sequences |
| Validation.LinAritiesNonNegative | pmcfg.py:235-237 | merged values are references, never the default -1 |
| Validation.CheckArgSound | pmcfg.py:243-250 | every warning of one argument check is justified by the dictionaries |
| Validation.ValidateSound | pmcfg.py:221-250 | every warning of the sweep is justified: undefined sets are exactly the undefined names; a missing linearization is missing; an out-of-range argument, missing definition or exceeded arity holds for some rule of that function |
| Validation.ValidateReportsUndefined | pmcfg.py:222-234 | undefined nonterminals, undefined sequences and a function without linearization are each reported |
| Validation.ValidateReportsDisagreement | pmcfg.py:239-242 | a rule whose left-hand side does not have its function's arity is reported |
| Validation.ValidateReportsArgument | pmcfg.py:243-250 | per rule and referenced argument: out of range, undefined nonterminal, or an arity not above the reference is each reported |
| Validation.ConsistentNoArityWarnings | pmcfg.py:239-242 | under the reader's invariant the sweep never reports an arity disagreement |
| Reading.ReadLines | pmcfg.py:132-218 | the lines are folded through the line steps from a consistent state, and the result is consistent |
| Reading.ReadLinesAppend | pmcfg.py:132 | reading `a + b` is reading `a`, then `b` if `a` was accepted |
| Reading.RejectedLineAborts | pmcfg.py:211-218 | the first rejected line makes the whole read fail with its error |
| Reading.AcceptedLineExtends | pmcfg.py:132 | an accepted line extends the read of the lines before it by one step |
| Reading.ReadGrammarOutcome | pmcfg.py:120-258 | a returned grammar is arity-consistent and has every symbol registered; its warnings include no arity disagreement and are empty without validation; it fails exactly when some line is rejected |
| Reading.ReadGrammar | pmcfg.py:120-258 | the loop over the lines with the assembler object computes ReadGrammarOutcome |
| Reading.GrammarReader.constructor | pmcfg.py:124-131 | the eight dictionaries start empty |
| Reading.GrammarReader.AddPragma | pmcfg.py:138-145 | the fields are updated as PragmaStep says |
| Reading.GrammarReader.RegisterSymbols | pmcfg.py:161-164 | the loop over the right-hand side computes RegisterRhs |
| Reading.GrammarReader.AddRule | pmcfg.py:151-168 | the fields are updated as RuleStep says, or its error is returned |
| Reading.GrammarReader.PropagateArity | pmcfg.py:176-181 | the loop over the function's rules computes Propagate |
| Reading.GrammarReader.DeclareLinSequences | pmcfg.py:182-183 | the loop declares the linearization's sequences as DeclareSequences says |
| Reading.GrammarReader.AddLinearization | pmcfg.py:170-185 | the fields are updated as LinStep says, or its error is returned |
| Reading.GrammarReader.AddSequence | pmcfg.py:187-195 | the fields are updated as SeqStep says, with the body's max-argument map computed by CollectMaxArities, or the error is returned |
| Reading.GrammarReader.AddScore | pmcfg.py:197-209 | the fields are updated as ScoreStep says, or its error is returned |
| Reading.GrammarReader.ReadLine | pmcfg.py:133-209 | one line is dispatched as LineStep says |
| Worked.TokenizerExample | pmcfg.py:54-73 | `"hi there" 0:1 'x'` tokenizes to the string, the pair (0,1) and the string `x` |
| Worked.UnescapePlain | pmcfg.py:70 | a body without backslashes or line breaks is its own value |
| Worked.UnnamedPragmaExample | pmcfg.py:139-143 | `: encoding utf8` is an unnamed pragma whose payload is `encoding utf8` |
| Worked.SequenceThenRuleExample | pmcfg.py:165-166 | a sequence `x`, then a rule with left-hand side `x`, aborts with a clash on `x` |
| Worked.RuleExample | pmcfg.py:151-168 | `f : S <- A` stores the rule and registers `A` with unknown arity |
| Worked.LinearizationExample | pmcfg.py:170-185 | `f = l1` after it gives `S` arity 1 and declares `l1` |
| Worked.FunctionNamedLikeNonterminalExample | pmcfg.py:154-168 | `f : S <-` and then `S : X <-` are both accepted, so `S` is a left-hand side and a function |
| Worked.RuleWithoutArityExample | pmcfg.py:175-179 | `f = l1 l2` after `f : S <- A` is accepted and gives `S` arity 2 |
| Findings.ScoreStepAsWrittenAgrees | pmcfg.py:207-208 | written and corrected score steps agree except on a duplicate, where the written one crashes and the corrected one reports a duplicate |
| Findings.DuplicateLinearizationCrashes | pmcfg.py:172-173 | `f = a` read twice crashes as written and is a duplicate error when corrected |
| Findings.DuplicateScoreCrashes | pmcfg.py:207-208 | `s 1` read twice crashes as written and is a duplicate error when corrected |
| Findings.MergeAritiesAsWrittenAgrees | pmcfg.py:236-237 | the written merge fails exactly when a sequence has no cached map, at such a sequence; otherwise it equals the corrected merge |
| Findings.UndefinedSequenceCrashes | pmcfg.py:237 | `f : S <- A`, `f = l1` without a body for `l1` makes the written merge fail on `l1` |
| Findings.UndefinedSequenceWarned | pmcfg.py:226-237 | the corrected sweep reports `l1` as undefined and merges nothing for `f` |
| Findings.CheckArgAsWrittenAgrees | pmcfg.py:243-246 | the written argument check emits the corrected warnings and crashes exactly on an out-of-range argument |
| Findings.OutOfRangeArgumentCrashes | pmcfg.py:243-246 | `l1 -> 1:0` for a one-symbol rule crashes the written check, and the corrected sweep reports the out-of-range argument |

## Left out

- Error decoration with file name and line number (lines 211-218): an error is a constructor of `Errors.Error` with its offending text. `Errors.Error.Kind` tells syntax errors from value errors. There is no message text and no position.
- `warnings.warn` (lines 224-250): the sweep returns the warnings as a list, in emission order.
- Reading.GrammarReader.AddRule: like every assembler method, says nothing about the dictionaries after an error. The source leaves them half updated, but the read aborts, so no caller sees them.
- Sequences.Evaluate: models `eval` of a quoted token only for the escapes that matter for the format. These are backslash, both quotes, `n`, `t`, `r`, `a`, `b`, `f` and `v`. It also models the rejection of a raw line feed or carriage return. Two inputs differ from `eval`. A raw NUL inside the quotes is accepted, although `eval` rejects it. A backslash followed by a raw carriage return is kept as both characters, although Python reads it as a line continuation. Octal, hex and Unicode escapes are kept verbatim, and single- and double-quoted bodies are unescaped alike.
- Lexing.IsSpace: ASCII whitespace only (space, tab, line feed, vertical tab, form feed, carriage return and the separators 0x1c-0x1f). Unicode whitespace, Unicode digits for `\d` and Unicode letters for `isalnum` are not modelled.
- Structure.ParseScore: a floating-point score is kept as its text once it has the shape of a Python float literal. Its value is not computed. `int` and `float` are modelled without underscores between digits.
- `write_grammar`, `str_token` and `iteritems` (lines 103-107 and 261-316): output and a compatibility shim, not part of the reader. `Sequences.Render` is a reference renderer for the round trip `Sequences.ScanRender`. It is not `str_token`, which uses Python's `repr`.
- The command-line entry point (lines 319-321).
- `fun_arities` and `seq_arities` are plain maps: the source only looks them up and never iterates them.
- Reading from files through `fileinput`: the input is a sequence of lines.

## Findings

| source | as written | input that shows it | evidently intended | confidence | as-written member | corrected member |
|---|---|---|---|---|---|---|
| pmcfg.py:173 | the duplicate-linearization message is a string followed by a call `(ident,)`, so a duplicate raises TypeError | `f = a` twice | a ValueError for the duplicate linearization | not executed | Findings.DuplicateLinearizationCrashes | Steps.LinStep |
| pmcfg.py:208 | the duplicate-score message is called in the same way | `s 1` twice | a ValueError for the duplicate score | not executed | Findings.DuplicateScoreCrashes | Steps.ScoreStep |
| pmcfg.py:237 | `seq_arities[seq]` raises KeyError for a sequence that was named by a linearization but never given a body | `f : S <- A`, `f = l1` | skip the bodiless sequence, which is already reported as undefined | not executed | Findings.UndefinedSequenceCrashes | Findings.UndefinedSequenceWarned |
| pmcfg.py:244-246 | after warning that an argument is out of range, the loop goes on to `rhs[arg]` and raises IndexError | `f : S <- A`, `f = l1`, `l1 -> 1:0` | continue with the next argument after the warning | not executed | Findings.OutOfRangeArgumentCrashes | Validation.ValidateReportsArgument |
