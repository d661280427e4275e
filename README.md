# Validator of prefix propositional formulas, in Dafny

`RA1Frank/validador.py` reads a batch of lines. For each one it answers `valida` when the line is a
well-formed propositional formula and `inválida` otherwise. Formulas are written in a parenthesised
prefix notation with LaTeX-style connectives:

    F ::= true | false | ID | ( \neg F ) | ( op F F ),   op one of \wedge \vee \rightarrow \leftrightarrow

Here ID is a proposition `[0-9][0-9a-z]*`.

Checking a line takes two stages:

- **The lexer** `analisador_lexico` skips whitespace. At each other position it tries the fixed
  spellings of the `TOKENS` table, longest first. Failing that it tries a greedy identifier, and
  failing both it gives up with `None`.
- **The recogniser**, class `Parser`, is an LL(1) recursive descent over the tokens (`consumir`,
  `FORMULA`, `OPERADORUNARIO`, `OPERADORBINARIO`). `parse` accepts when `FORMULA` succeeds and
  every token has been read.

The model follows the code's own form:

| module | file | models |
|---|---|---|
| `Tokens` | `tokens.dfy` | Token kinds and tokens. The `TOKENS` table, and the order in which `sorted(TOKENS, key=-len)` tries its spellings. |
| `Lexer` | `lexer.dfy` | `analisador_lexico` as the method `Lex`, a `while` loop, with its inner `for ... else` as the method `ScanToken`. Both are proved equal to the reference functions `LexFrom` and `ScanAt`. `eh_proposicao` is the predicate `IsProposition`. |
| `Grammar` | `grammar.dfy` | Formula trees, and the token sequence that writes each one out (`Serialize`). |
| `Recognizer` | `recognizer.dfy` | The class `Parser`, with the immutable field `tokens` and the mutable cursor `pos`. `Formula` and `Parse` are proved against the reference function `FormulaRun`, which gives both the outcome and where the cursor is left, also on failure, since the code never rewinds. `Consume` is proved against its one-step counterpart `ConsumeRun`. `UnaryOperator` and `BinaryOperator` state their outcome and the new cursor directly in terms of the cursor before the call. |
| `Acceptance` | `acceptance.dfy` | What `parse()` accepts: exactly the token lists whose kinds spell one formula with nothing left over; on tokens spelt as the lexer spells them, exactly the serialisations of formula trees. |
| `Validator` | `validator.dfy` | One round of `main`'s loop as the method `Validate`, and what a valid line is. |
| `Lines` | `examples_lines.dfy` | Example lines (a negation, an unbalanced line, infix and prefix conjunctions and equivalences, a bare digit, a letter, a leftover token), each with its verdict proved in the model. |

**Where the code and the repository's prose disagree, the model follows the code.** The
repository's description of the validator lists `(0 \wedge 1a)` and `(true \leftrightarrow (false \rightarrow 2xy))` as valid
lines. Both are infix. `FORMULA` wants a connective right after `(`, so the code rejects both:
see `Lines.InfixConjunctionRejected` and `Lines.InfixEquivalenceRejected`. Their prefix forms
`(\wedge 0 1a)` and `(\leftrightarrow true (\rightarrow false 2xy))` are valid.

## Model

| member | source | states |
|---|---|---|
| Tokens.LiteralsPermuteTable | RA1Frank/validador.py:52 | The order in which the lexer tries the spellings is the `TOKENS` table reordered by a permutation of its positions. |
| Tokens.LiteralsByLength | RA1Frank/validador.py:52 | That order is by decreasing length, and spellings of equal length keep their table order, as Python's stable `sorted` does. |
| Tokens.TableCanonical | RA1Frank/validador.py:28-38 | Every entry of `TOKENS` pairs a kind other than ID with that kind's spelling. |
| Tokens.TableIndex | RA1Frank/validador.py:28-38 | Every kind but ID has an entry in `TOKENS`. |
| Tokens.LiteralsCanonical | RA1Frank/validador.py:52-54 | Every spelling tried is emitted with its kind from `TOKENS`. |
| Tokens.LiteralIndex | RA1Frank/validador.py:52 | Every kind but ID is among the spellings tried. |
| Tokens.LiteralsPrefixFree | RA1Frank/validador.py:52-56 | No spelling is a prefix of another, so at most one spelling starts at any position. |
| Grammar.OpKindIsBijection | RA1Frank/validador.py:105-107 | The four binary connectives correspond one to one to the four kinds `OPERADORBINARIO` accepts. |
| Grammar.SerializeCanonical | RA1Frank/validador.py:28-38 | Every token of a serialised formula carries the spelling `TOKENS` gives its kind. |
| Lexer.IdentEndIsRunEnd | RA1Frank/validador.py:59 | The greedy `[0-9a-z]*` run covers only those characters, and stops at the end of the input or at the first other character. |
| Lexer.MatchProposition | RA1Frank/validador.py:59-60 | `re.match` finds no identifier exactly when the position is at the end or does not hold a digit; a match is non-empty and in bounds. |
| Lexer.MatchIsProposition | RA1Frank/validador.py:59-63 | The matched text satisfies `eh_proposicao`, and is followed by the end of the input or by a character outside `[0-9a-z]`. |
| Lexer.MatchIsLongest | RA1Frank/validador.py:59 | No longer text at that position is a proposition: the match is the longest. |
| Lexer.PropositionIsFullMatch | RA1Frank/validador.py:40-41 | `eh_proposicao(t)` holds exactly when the identifier match at the start of t covers all of t. |
| Lexer.FirstLiteralIsFirst | RA1Frank/validador.py:52-56 | The `for` loop stops at a spelling that starts at the position, and no spelling tried before it does. |
| Lexer.ScanAt | RA1Frank/validador.py:46-65 | One turn of the loop skips a character exactly when it is a space; an emitted text is non-empty and in bounds. |
| Lexer.LexFromSpace | RA1Frank/validador.py:47-49 | A whitespace character is skipped and emits nothing. |
| Lexer.LexFromLexeme | RA1Frank/validador.py:53-63 | A scanned token is appended, and the scan resumes right after its text. |
| Lexer.LexFromNoMatch | RA1Frank/validador.py:64-65 | A position where nothing matches makes the whole lexer return `None`, whatever was emitted before. |
| Lexer.VisitsStep | RA1Frank/validador.py:46-63 | From a position where the scan does not fail, the loop reaches that position and exactly the positions it reaches from where it resumes. |
| Lexer.LexFailsIff | RA1Frank/validador.py:43-66 | The lexer returns `None` exactly when its loop reaches a position where the scan fails. |
| Lexer.ScanToken | RA1Frank/validador.py:51-65 | The `for ... else` body at a non-space computes the scan outcome `ScanAt`. |
| Lexer.Lex | RA1Frank/validador.py:43-66 | `analisador_lexico` returns the reference result `LexFrom(expr, 0, [])`. |
| Lexer.LiteralsShape | RA1Frank/validador.py:28-38 | No spelling is empty, starts with a digit, or contains a space. |
| Lexer.ScanAtLiteral | RA1Frank/validador.py:52-56 | Any spelling that starts at a non-space position is the one emitted there, whatever the order of the tries. |
| Lexer.ScanAtIdent | RA1Frank/validador.py:57-63 | A digit always starts an ID token. Its text is the longest proposition at that position, ending at the end of the input or before a character outside `[0-9a-z]`. |
| Lexer.ScanAtNoMatch | RA1Frank/validador.py:57-65 | The scan fails exactly at a non-space that is not a digit and starts no spelling. |
| Lexer.ScanAtLexeme | RA1Frank/validador.py:51-63 | An emitted token is well formed (a spelling with its kind, or a proposition), is the text at the position, and contains no space. |
| Lexer.LexFromWellFormed | RA1Frank/validador.py:43-66 | The result extends the tokens already emitted, and every token added is well formed. |
| Lexer.LexSound | RA1Frank/validador.py:43-66 | On success, every token is well formed, and the tokens' texts concatenated are the input with its whitespace removed. |
| Lexer.LexLayout | RA1Frank/validador.py:43-66 | Writing out well-formed tokens, with or without a blank after each, lexes back to exactly those tokens, provided no identifier runs into a following `[0-9a-z]`. |
| Recognizer.FormulaRun | RA1Frank/validador.py:82-100 | The cursor never moves back and stays in bounds, and a success reads at least one token. |
| Recognizer.GroupRun | RA1Frank/validador.py:92-99 | After `(`, the cursor never moves back and stays in bounds, and a success reads at least one more token. |
| Recognizer.Parser.constructor | RA1Frank/validador.py:72-74 | The parser holds the tokens, with the cursor at 0. |
| Recognizer.Parser.Consume | RA1Frank/validador.py:76-80 | Returns true and advances by one exactly when there is a current token and it has the kind. At the end of the list, or on another kind, returns false and leaves the cursor. The outcome and new cursor are those of `ConsumeRun`. |
| Recognizer.Parser.UnaryOperator | RA1Frank/validador.py:102-103 | Reads one NOT token, or fails in place. |
| Recognizer.Parser.BinaryOperator | RA1Frank/validador.py:105-107 | Reads one AND, OR, IMPLIES or IFF token, or fails in place. |
| Recognizer.Parser.Formula | RA1Frank/validador.py:82-100 | `FORMULA()` gives the outcome and final cursor of `FormulaRun`, and terminates on `|tokens| - pos`. |
| Recognizer.Parser.Parse | RA1Frank/validador.py:109-110 | `parse()` succeeds exactly when `FORMULA` succeeds from the cursor and reads every token; from a fresh parser, exactly on the accepted lists. The cursor is left where `FORMULA` left it. |
| Recognizer.FormulaRunReads | RA1Frank/validador.py:82-100 | Completeness: where the kinds of the tokens spell a formula, `FORMULA` reads exactly that formula, whatever follows. |
| Recognizer.FormulaRunTree | RA1Frank/validador.py:82-100 | Soundness: a successful `FORMULA` has read the tokens of a formula, and the identifiers' texts name its atoms. |
| Recognizer.KindOp | RA1Frank/validador.py:105-107 | Every kind `OPERADORBINARIO` accepts stands for a connective. |
| Acceptance.AcceptsIff | RA1Frank/validador.py:109-110 | `parse()` accepts exactly the token lists whose kinds spell one formula with nothing after it. |
| Acceptance.SpellsTransfer | RA1Frank/validador.py:82-100 | `FORMULA` looks only at kinds: tokens of the same kinds spell the same formula. |
| Acceptance.FormulaRunExtend | RA1Frank/validador.py:82-100 | A successful `FORMULA` stops right after its formula, so appending tokens changes neither its outcome nor its cursor. |
| Acceptance.AcceptsPrefixFree | RA1Frank/validador.py:109-110 | An accepted list followed by more tokens is accepted exactly when nothing was added. |
| Acceptance.TwoAtomsRejected | RA1Frank/validador.py:109-110 | `[ID]` is accepted and `[ID, ID]` rejected. |
| Acceptance.SpellsAgree | RA1Frank/validador.py:82-100 | Two canonical token lists that spell the same formula, kinds and names, hold the same tokens. |
| Acceptance.SerializeSpells | RA1Frank/validador.py:82-100 | The serialisation of a formula spells it, by kinds and by names. |
| Acceptance.AcceptsSerialize | RA1Frank/validador.py:109-110 | `parse()` accepts the serialisation of every formula. |
| Acceptance.AcceptsNoLeftover | RA1Frank/validador.py:109-110 | A serialised formula followed by more tokens is accepted exactly when there are none. |
| Acceptance.AcceptsCanonical | RA1Frank/validador.py:109-110 | On tokens spelt as the lexer spells them, `parse()` accepts exactly the serialisations of formulas. |
| Validator.Validate | RA1Frank/validador.py:126-132 | One line's verdict: valid exactly when it lexes and `parse()` accepts its tokens. |
| Validator.ValidIffSerialized | RA1Frank/validador.py:126-132 | A line is valid exactly when the lexer reads it as the serialisation of some formula. |
| Validator.ValidText | RA1Frank/validador.py:126-132 | The lexer reads a valid line as the serialisation of some formula, and those tokens' texts are the line with its whitespace removed. |
| Validator.SerializeWellFormed | RA1Frank/validador.py:40-41 | A formula whose identifiers satisfy `eh_proposicao` serialises to tokens the lexer can emit. |
| Validator.LayoutValid | RA1Frank/validador.py:126-132 | Every such formula, written in prefix form with any blanks that keep identifiers apart, is a valid line and lexes back to its serialisation. |
| Validator.LayoutVerdict | RA1Frank/validador.py:126-132 | A line written out from readable tokens lexes back to them, and is valid exactly when `parse()` accepts them. |
| Validator.SpacedValid | RA1Frank/validador.py:126-132 | Such a formula with a blank after every token is a valid line. |
| Lines.BareDigit | RA1Frank/validador.py:126-132 | `0` lexes to one ID token and is valid. |
| Lines.TrueIsOneToken | RA1Frank/validador.py:52-56 | `true` lexes to one TRUE token and is valid. |
| Lines.LeftoverRejected | RA1Frank/validador.py:109-110 | `0 1` and `0 0` are invalid, because a token is left over. |
| Lines.LetterRejected | RA1Frank/validador.py:64-65 | `p` is a lexical error, so the line is invalid. |
| Lines.EquivalenceParsed | RA1Frank/validador.py:82-100 | The tokens of the infix `(true \leftrightarrow (false \rightarrow 2xy))` are rejected, and those of its prefix form accepted. The tokens of `(true \leftrightarrow false \rightarrow 2xy)` are rejected. |
| Lines.NegationValid | RA1Frank/validador.py:126-132 | `(\neg 0)` lexes to `( NOT ID )` and is valid. |
| Lines.UnbalancedRejected | RA1Frank/validador.py:126-132 | `(\neg 0` lexes, and is invalid. |
| Lines.InfixConjunctionRejected | RA1Frank/validador.py:126-132 | `(0 \wedge 1a)` lexes to five tokens, and is invalid. |
| Lines.PrefixConjunctionValid | RA1Frank/validador.py:126-132 | `(\wedge 0 1a)` lexes to five tokens, and is valid. |
| Lines.InfixEquivalenceRejected | RA1Frank/validador.py:126-132 | `(true \leftrightarrow (false \rightarrow 2xy))` lexes to nine tokens, and is invalid. |
| Lines.PrefixEquivalenceValid | RA1Frank/validador.py:126-132 | `(\leftrightarrow true (\rightarrow false 2xy))` lexes to nine tokens, and is valid. |

Running the lexer and the recogniser twice on a line gives the same verdict. This follows from
`Validate`'s contract, which makes the verdict a function of the line alone.

## Left out

- `ler_arquivo` (lines 7-23): reading the file, UTF-8 decoding, `splitlines`, and the header count
  and its error messages. This is I/O around the core.
- `main` (lines 115-138): `sys.argv`, printing `valida`/`inválida`, and the `__main__` guard.
  `Validate` models one round of its loop, with the printed word as a boolean.
- `str.isspace`: `Lexer.IsSpace` is a fixed set of characters, the ones Python's `str.isspace`
  accepts (U+0009–U+000D, U+001C–U+0020, U+0085, U+00A0, U+1680, U+2000–U+200A, U+2028, U+2029,
  U+202F, U+205F, U+3000). A different Unicode database could differ.
- `re` and `sorted` are not modelled as library calls. The identifier pattern is written out as
  character predicates (`IsProposition`, `MatchProposition`). The result of the sort is the
  constant `Literals`, proved to be the stable length-descending order of the table.
- Strings are sequences of Unicode code points; there is no encoding or normalisation.
- Python's recursion limit: `FORMULA` recurses once per nesting level. A deeply nested line would
  raise `RecursionError` in the source. The model has no such limit.
- `Lines.EquivalenceParsed`: the line `(true \leftrightarrow false \rightarrow 2xy)` is checked only
  at the level of its tokens. Its text is not lexed in the model.
