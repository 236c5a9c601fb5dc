# globby in Dafny

A model of the core of globby, a PHP library that turns glob(7)-style wildcard patterns
(`foo*bar.ba[zr]?[!1[:alpha:]4-59][^x]`) into PCRE regular expressions
(`#^foo.*bar\.ba[zr].[^1[:alpha:]4-59][^x]$#u`), together with proofs about that model.

The library works in three stages:

- **Tokenizer** (`GlobTokenizer`, `tokenizer.dfy`). A stateful lexer with three states (INITIAL,
  IN_GROUP, IN_GROUP_SPECIAL_FIRST) kept on a stack. Each state has an ordered rule table, and
  the first rule that matches wins. Rules push, swap or pop states. A scan fails when no rule
  matches ("Lexing failed with error: …") or when the input ends inside a group ("Premature end
  of pattern").
  - `Step` is the rule tables, as a pure function.
  - `Lex`/`Tokenize` specify a whole scan.
  - `Parse` is the scanning loop over the input index and a `seq<State>` stack, proved equal to
    `Tokenize`.
  - `tokenizer_lemmas.dfy` proves what the rule tables and a completed scan promise.
- **Builder** (`RegexBuilder`, `builder.dfy`). Each token is translated to a PCRE fragment:
  - wildcards and group delimiters become fixed strings;
  - a word loses its glob escapes and is passed through `preg_quote`;
  - a range quotes its two ends around an unescaped `-`;
  - a character class passes through unchanged.

  The fragments are joined and wrapped as `delimiter ^ body $ delimiter modifiers`.
  `CreateFromTokens` is the builder's loop, proved equal to the specification `Build`;
  `builder_lemmas.dfy` collects its properties.
- **Compiler** (`Compiler`, `compiler.dfy`). Tokenizing, then building, with either stage's
  exception passed through. Both compiler classes of the library
  (`GlobbyCompiler` and its later copy `Globby`) do exactly this, so they share one model.

**Pattern** (`Globby.Pattern`, `pattern.dfy`) is the user-facing class:

- it merges the caller's options over the default `lazy_compile => false`;
- it compiles at construction unless lazy;
- it caches the regex on the first `getRegex`.

A ghost counter of compile runs states the caching.

`examples.dfy` works the library's own test cases through the model. It covers the end-to-end
compile example and several tokenizer cases: a leading `]`, a trailing `-`, and unclosed groups.

Strings are `seq<char>`. Patterns are restricted to newline-free strings (`NoNewline`).

## Model

| member | source | states |
|---|---|---|
| Tokens.Identifier | lib/Globby/Tokenizer/Tokenizer.php:16-72 | for kinds written as the source writes them, the identifier lies in 1..9 exactly when the kind is one of the nine defined token kinds |
| Tokens.KindOf | lib/Globby/Tokenizer/Tokenizer.php:16-72 | decoding an integer gives the kind with that identifier; the kind is defined exactly when the integer is in 1..9 |
| Tokens.KindOfIdentifier | lib/Globby/Tokenizer/Tokenizer.php:16-72 | decoding the identifier of a kind gives the kind back |
| GlobTokenizer.Step | lib/Globby/Tokenizer/GlobTokenizer.php:97-186 | a rule that matches consumes at least one character and stays inside the input |
| GlobTokenizer.StepKeepsReachable | lib/Globby/Tokenizer/GlobTokenizer.php:125-185 | every rule's push, swap or pop keeps the stack at INITIAL with at most one group state above it, and a pop only happens with a state pushed |
| GlobTokenizer.InitialRules | lib/Globby/Tokenizer/GlobTokenizer.php:97-139 | only a backslash that ends the input matches no INITIAL rule; no INITIAL rule pops or swaps, and a push enters a group state |
| GlobTokenizer.InGroupRules | lib/Globby/Tokenizer/GlobTokenizer.php:147-163 | some IN_GROUP rule always matches; GROUP_END is emitted exactly at `]` and pops, every other rule keeps the state |
| GlobTokenizer.InGroupSpecialFirstRules | lib/Globby/Tokenizer/GlobTokenizer.php:172-186 | only `]` matches right after an opener; it never ends the group and always swaps to IN_GROUP |
| GlobTokenizer.Lex | lib/Globby/Tokenizer/GlobTokenizer.php:45-64 | a completed scan has at most one token per scanned character, and a position no rule matches lies in the scanned part of the input; the scan's other properties are the `GlobTokenizerLemmas.Lex*` lemmas |
| GlobTokenizer.Tokenize | lib/Globby/Tokenizer/GlobTokenizer.php:45-64 | a pattern has at most one token per character, and a lexing failure points into the pattern; `Parse` is proved to return it |
| GlobTokenizer.Message | lib/Globby/Tokenizer/GlobTokenizer.php:49-61 | no contract of its own: the texts "Lexing failed with error: " followed by the lexer library's diagnostic, and "Premature end of pattern"; the latter is stated for `fo[o` by `Examples.UnclosedGroupFails` |
| GlobTokenizer.Parse | lib/Globby/Tokenizer/GlobTokenizer.php:45-64 | the scanning loop returns exactly the specified scan: the tokens, "lexing failed" at the first position no rule matches, or "premature end" when a state is still pushed at the end |
| GlobTokenizerLemmas.WordLengthIsMaximalRun | lib/Globby/Tokenizer/GlobTokenizer.php:112 | the WORD rule consumes a run of word units (non-special characters and backslash escapes) that cannot be extended, and is empty exactly when no word unit starts there |
| GlobTokenizerLemmas.WordLengthUnique | lib/Globby/Tokenizer/GlobTokenizer.php:112 | conversely, any word text that is followed by no word unit is exactly what the WORD rule consumes |
| GlobTokenizerLemmas.InitialWord | lib/Globby/Tokenizer/GlobTokenizer.php:112 | in INITIAL a WORD is emitted exactly when a word unit starts at the position; it keeps its escapes and leaves the stack alone |
| GlobTokenizerLemmas.InitialWildcards | lib/Globby/Tokenizer/GlobTokenizer.php:113-116 | a lone `*` is WILDCARD_MULTI and a lone `?` is WILDCARD_SINGLE, one character each, without a stack change |
| GlobTokenizerLemmas.InitialGroupOpener | lib/Globby/Tokenizer/GlobTokenizer.php:125-138 | `[` followed by `!`/`^` is GROUP_BEGIN_NEGATED over two characters, otherwise GROUP_BEGIN over one; it pushes IN_GROUP_SPECIAL_FIRST exactly when the next character is `]`, which is not consumed, and IN_GROUP otherwise |
| GlobTokenizerLemmas.InitialNoMatch | lib/Globby/Tokenizer/GlobTokenizer.php:97-139 | in INITIAL no rule matches exactly at a backslash that ends the input |
| GlobTokenizerLemmas.SpecialFirstBracket | lib/Globby/Tokenizer/GlobTokenizer.php:172-185 | right after an opener only `]` matches; it is never GROUP_END, but a three-character range `]-X` (X not `]`) or a one-character GROUP_CHARACTER, and both swap to IN_GROUP |
| GlobTokenizerLemmas.LowerRunIsMaximal | lib/Globby/Tokenizer/GlobTokenizer.php:160 | the counted run of lower-case letters is all lower case and stops at the first other character |
| GlobTokenizerLemmas.ClassLengthSound | lib/Globby/Tokenizer/GlobTokenizer.php:160 | what the class rule consumes is `[:` + one or more lower-case letters + `:]` |
| GlobTokenizerLemmas.ClassLengthUnique | lib/Globby/Tokenizer/GlobTokenizer.php:160 | a class text at a position is exactly what the class rule consumes |
| GlobTokenizerLemmas.InGroupPriority | lib/Globby/Tokenizer/GlobTokenizer.php:149-162 | in IN_GROUP the rules are tried as `]` (pops), range `X-Y` with Y not `]`, class, any character: each kind is emitted exactly under its condition with its length and stack action |
| GlobTokenizerLemmas.StepAgrees | lib/Globby/Tokenizer/GlobTokenizer.php:97-186 | from a lexer state that matches a grammar position, one step yields a well-formed token and moves to the next grammar position |
| GlobTokenizerLemmas.LexWellNested | lib/Globby/Tokenizer/GlobTokenizer.php:125-185 | every completed scan follows the token grammar from its starting position |
| GlobTokenizerLemmas.LexWellFormed | lib/Globby/Tokenizer/GlobTokenizer.php:97-186 | every token of a completed scan has the raw text its kind promises |
| GlobTokenizerLemmas.LexRaws | lib/Globby/Tokenizer/GlobTokenizer.php:45-63 | the raw texts of a completed scan, concatenated, are the scanned input |
| GlobTokenizerLemmas.LexStuckOnlyAtTrailingBackslash | lib/Globby/Tokenizer/GlobTokenizer.php:49-54 | a scan can only fail to match at a backslash that ends the input |
| GlobTokenizerLemmas.TokenizeReproducesPattern | lib/Globby/Tokenizer/GlobTokenizer.php:45-63 | the raw texts of a pattern's tokens, in order, reproduce the pattern exactly |
| GlobTokenizerLemmas.TokenizeWellNested | lib/Globby/Tokenizer/GlobTokenizer.php:56-63 | a pattern's tokens are well formed and well nested: group members only between an opener and the next end, every group non-empty and closed, words and wildcards only outside groups |
| GlobTokenizerLemmas.TokenizeLexingFailure | lib/Globby/Tokenizer/GlobTokenizer.php:49-54 | "Lexing failed" happens only at a final backslash that escapes nothing |
| RegexBuilder.DefaultBuilder | lib/Globby/Builder/RegexBuilder.php:63-66 | the default builder has modifiers `u` and delimiter `#` |
| RegexBuilder.Message | lib/Globby/Builder/RegexBuilder.php:108-110 | no contract of its own: the text `No available translation for "<raw>"`, stated for the unit test's token by `RegexBuilderLemmas.UnknownTokenExample` |
| RegexBuilder.PregQuote | lib/Globby/Builder/RegexBuilder.php:149 | each character gains at most one backslash; what is escaped, and the round trip, are the `RegexBuilderLemmas.PregQuote*` and `QuotedIsPregQuote` lemmas |
| RegexBuilder.Unescape | lib/Globby/Builder/RegexBuilder.php:147 | each output character comes from one or two input characters; `RegexBuilderLemmas.UnescapeGlobEscape` states that it undoes glob escaping |
| RegexBuilder.TranslateToken | lib/Globby/Builder/RegexBuilder.php:96-113 | a translation fails exactly for an identifier outside the nine kinds, and then reports the token's raw text |
| RegexBuilder.TranslateWordToken | lib/Globby/Builder/RegexBuilder.php:145-150 | no contract of its own: glob escapes removed, then quoted; stated by `RegexBuilderLemmas.WordTranslatesGlobEscape`, `WordKeepsForeignEscape` and `PlainWordTranslation` |
| RegexBuilder.TranslateGroupRangeToken | lib/Globby/Builder/RegexBuilder.php:156-162 | no contract of its own: stated by `RegexBuilderLemmas.RangeTranslation` (quoted ends around an unescaped `-`) |
| RegexBuilder.TranslateGroupCharacterToken | lib/Globby/Builder/RegexBuilder.php:168-170 | no contract of its own: stated by `RegexBuilderLemmas.CharacterTranslation` (the character quoted) |
| RegexBuilder.TranslateGroupCharacterClassToken | lib/Globby/Builder/RegexBuilder.php:176-179 | no contract of its own: stated by `RegexBuilderLemmas.StructuralTranslations` (the class passed through verbatim) |
| RegexBuilder.Body | lib/Globby/Builder/RegexBuilder.php:79-81 | no contract of its own: the fragments joined in order, the first failure winning; stated by `RegexBuilder.BodyAppend`, `RegexBuilderLemmas.BodyFailure` and `BodyConcat` |
| RegexBuilder.Build | lib/Globby/Builder/RegexBuilder.php:76-86 | no contract of its own: the body wrapped as `delimiter ^ body $ delimiter modifiers`; stated by `RegexBuilderLemmas.BuildShape`, and `CreateFromTokens` is proved to return it |
| RegexBuilder.BodyAppend | lib/Globby/Builder/RegexBuilder.php:79-81 | translation is compositional: the body of `xs + ys` is the body of `xs` followed by the body of `ys`, and the first failure wins |
| RegexBuilder.CreateFromTokens | lib/Globby/Builder/RegexBuilder.php:76-86 | the loop returns the specified build: the wrapped concatenation of the fragments, or the error of the first token without a translation |
| RegexBuilderLemmas.PregQuoteAppend | lib/Globby/Builder/RegexBuilder.php:149 | quoting distributes over concatenation |
| RegexBuilderLemmas.PregQuoteRoundTrip | lib/Globby/Builder/RegexBuilder.php:149 | removing one level of backslash escaping from `preg_quote`'s output gives back its input |
| RegexBuilderLemmas.PregQuoteIsQuoted | lib/Globby/Builder/RegexBuilder.php:149 | `preg_quote`'s output escapes every meta character and the delimiter's first character, and nothing else |
| RegexBuilderLemmas.QuotedIsPregQuote | lib/Globby/Builder/RegexBuilder.php:149 | every text of that quoted shape is `preg_quote` of the text it unquotes to |
| RegexBuilderLemmas.PregQuotePlain | lib/Globby/Builder/RegexBuilder.php:149 | a text with nothing to quote is left as it is |
| RegexBuilderLemmas.UnescapeGlobEscape | lib/Globby/Builder/RegexBuilder.php:147 | removing glob escapes undoes adding a backslash before each `* [ ] ? \` |
| RegexBuilderLemmas.UnescapeWithoutBackslash | lib/Globby/Builder/RegexBuilder.php:147 | a text without backslashes is not changed by removing glob escapes |
| RegexBuilderLemmas.WordKeepsForeignEscape | lib/Globby/Builder/RegexBuilder.php:145-150 | in a word, a backslash before a character other than `* [ ] ? \` is kept and itself quoted, followed by the quoted character |
| RegexBuilderLemmas.WordTranslatesGlobEscape | lib/Globby/Builder/RegexBuilder.php:145-150 | in a word, a glob escape `\c` of `* [ ] ? \` becomes the regex escape `\c` |
| RegexBuilderLemmas.PlainWordTranslation | lib/Globby/Builder/RegexBuilder.php:145-150 | a word without backslashes is only quoted |
| RegexBuilderLemmas.StructuralTranslations | lib/Globby/Builder/RegexBuilder.php:39-45 | MULTI, SINGLE, BEGIN, BEGIN_NEGATED and END translate to `.*`, `.`, `[`, `[^`, `]` whatever their raw text (so `[!` becomes `[^`), and a character class passes through verbatim |
| RegexBuilderLemmas.CharacterTranslation | lib/Globby/Builder/RegexBuilder.php:168-170 | a group character is quoted |
| RegexBuilderLemmas.RangeTranslation | lib/Globby/Builder/RegexBuilder.php:156-162 | a range `X-Y` becomes quoted X, an unescaped `-`, quoted Y |
| RegexBuilderLemmas.BodyFailure | lib/Globby/Builder/RegexBuilder.php:76-113 | a body is built exactly when every token is translatable; otherwise the error names the first token that is not |
| RegexBuilderLemmas.BodyConcat | lib/Globby/Builder/RegexBuilder.php:79-81 | when each token translates to its fragment, the body is those fragments in order |
| RegexBuilderLemmas.BuildShape | lib/Globby/Builder/RegexBuilder.php:76-86 | the result is `delimiter ^ body $ delimiter modifiers`, and fails exactly with the body's error |
| RegexBuilderLemmas.TranslateWellFormed | lib/Globby/Builder/RegexBuilder.php:145-179 | every token the lexer can produce translates, and for a safe delimiter the fragment holds the delimiter only escaped |
| RegexBuilderLemmas.BodyKeepsDelimiterEscaped | lib/Globby/Builder/RegexBuilder.php:27-32 | for tokens the lexer can produce and a safe delimiter the body is built and never holds the delimiter unescaped |
| RegexBuilderLemmas.DefaultDelimiterIsSafe | lib/Globby/Builder/RegexBuilder.php:63 | the default delimiter `#` is safe |
| RegexBuilderLemmas.UnknownTokenExample | test/unit/Builder/RegexBuilderTest.php:107-114 | a token with identifier -1 and raw `☃` fails with `No available translation for "☃"` |
| Compiler.Compile | lib/Globby/Compiler/GlobbyCompiler.php:36-44 | no contract of its own: the tokens of the pattern handed to the builder, either stage's error passed through; stated by `Compiler.CompileFailsOnlyInTokenizer` and `CompiledShape`, and `CompilePattern` is proved to return it |
| Compiler.CompilePattern | lib/Globby/Compiler/GlobbyCompiler.php:36-44 | compiling is parsing then building, with the tokens handed over unchanged and either stage's error passed through |
| Compiler.WellFormedIsTranslatable | lib/Globby/Builder/RegexBuilder.php:96-107 | every token the lexer can produce has a translation |
| Compiler.CompileFailsOnlyInTokenizer | lib/Globby/Compiler/Globby.php:40-49 | on the lexer's tokens the builder never fails: a compile fails exactly when tokenizing fails, and with the tokenizer's error |
| Compiler.CompiledShape | lib/Globby/Compiler/GlobbyCompiler.php:36-44 | a compiled regex is `delimiter ^ body $ delimiter modifiers` with the body built from the pattern's tokens, holding a safe delimiter only escaped |
| Compiler.CompiledIsTruthy | lib/Globby/Pattern.php:114-117 | a compiled regex is never a falsy PHP string, so a cached one is never compiled again |
| Globby.MergeOptions | lib/Globby/Pattern.php:44-65 | the merged options hold the caller's keys and `lazy_compile`; the caller's values win, and `lazy_compile` defaults to false |
| Globby.Pattern.constructor | lib/Globby/Pattern.php:63-66 | the object keeps the pattern and the merged options, with nothing compiled |
| Globby.Pattern.Create | lib/Globby/Pattern.php:63-71 | a lazy pattern is not compiled; an eager one is compiled exactly once, stores the regex, or raises the compile error instead of returning a pattern |
| Globby.Pattern.CompileRegex | lib/Globby/Pattern.php:78-83 | the compile step returns the default compiler's result for the pattern and counts one compile |
| Globby.Pattern.GetPattern | lib/Globby/Pattern.php:105-107 | the pattern given at construction, unchanged |
| Globby.Pattern.GetRegex | lib/Globby/Pattern.php:114-120 | returns the pattern's compiled regex; a cached regex is returned without compiling; otherwise it compiles once and caches a success |
| Globby.GetRegexTwice | test/unit/PatternTest.php:55-68 | two calls return the same result; when the first succeeds they compile at most once between them, and not at all when the regex was already cached |
| Examples.TokenizeExample | test/integration/Compiler/GlobbyCompilerIntegrationTest.php:29 | `foo*bar.ba[zr]?[!1[:alpha:]4-59][^x]` lexes to its 17 listed tokens |
| Examples.BuildExample | test/integration/Compiler/GlobbyCompilerIntegrationTest.php:30 | those tokens build `#^foo.*bar\.ba[zr].[^1[:alpha:]4-59][^x]$#u` |
| Examples.CompileExample | test/integration/Compiler/GlobbyIntegrationTest.php:29-34 | the example pattern compiles to that regex |
| Examples.UnclosedGroupFails | lib/Globby/Tokenizer/GlobTokenizer.php:56-61 | `fo[o` ends inside its group and fails with "Premature end of pattern" |
| Examples.ConstructWithUnclosedGroup | test/integration/PatternIntegrationTest.php:11-16 | constructing a pattern from `fo[o` with default options raises the tokenizer's premature-end error |
| Examples.LoneOpenerFails | test/unit/Tokenizer/GlobTokenizerTest.php:70-93 | `[` alone fails with a premature end |
| Examples.TokenizeTrailingDash | test/integration/Tokenizer/GlobIntegrationTest.php:112-121 | `[!]a-]` lexes as `[!`, `]`, `a`, `-`, `]`: the leading `]` does not close the group and `a-]` is not a range |
| Examples.TokenizeLeadingRange | test/integration/Tokenizer/GlobIntegrationTest.php:94-101 | `[]-_]` lexes as `[`, the range `]-_`, `]` |

## Left out

- Newlines: inputs are restricted to newline-free patterns (`NoNewline`). The lexer's `.`
  rules depend on regex flags of the lexer library that are not part of this model.
- Bytes versus characters: strings are `seq<char>`, and the model agrees with the source only
  for single-byte characters. The source works on bytes in two places. The builder indexes bytes
  (`$value[0]`, `$value[2]` in a range). The lexer's rules carry no `u` modifier, so IN_GROUP's
  `.` and `.-[^\]]` consume one byte: a multi-byte character inside a group becomes several
  GROUP_CHARACTER tokens, or a range over a continuation byte, where the model gives one token.
  Outside a token's bounds, PHP's out-of-range index is modelled as the empty string.
- RegexBuilder.PregQuote: leaves out `preg_quote`'s NUL to `\000` case. The question of whether
  `#` is quoted does not arise here: `#` is always quoted, and it is also the default delimiter.
- Lexer library internals (the compiled-regex lexer, its factory and its exception): only the
  observable behaviour is modelled. That behaviour is the ordered rule tables, push/swap/pop,
  and the end-of-input stack check. The library's own diagnostic text for a position no rule
  matches is a parameter of `GlobTokenizer.Message`.
- Token line numbers: the lexer's line counter is dropped. For newline-free input it is
  always 1.
- Regex matching: `Pattern::match` calls PCRE, which is not modelled, and neither is the `u`
  modifier's Unicode behaviour. So no claim is made that a regex matches what the glob means.
- `toRegex` and case-insensitive matching: they belong to a later version of the pattern class
  and are not part of this model.
- Compiler injection: `Pattern` always uses the default compiler (tokenizer plus default
  builder). A caller-supplied compiler is not modelled.
- Options: each option maps to a boolean. PHP's truthiness of other option values is not
  modelled.
- String token identifiers: a token whose identifier is a PHP string fails translation in the
  source. That argument type does not exist in the model.
- The builder's multi-token unit test (`test/unit/Builder/RegexBuilderTest.php:83-105`) and its
  escaped-word case (lines 29-32) are not written out as concrete examples. Instead they are
  covered by the general lemmas, including `BodyAppend`, `BodyConcat`, the translation lemmas
  and `WordKeepsForeignEscape`/`WordTranslatesGlobEscape`.
- The functional test script `test/functional/test-patterns.php` does file I/O, echo and exit,
  and is not part of this model.
- The interfaces `Tokenizer`, `Builder`, `Compiler` and the exception class hold no logic. The
  token-kind constants of `Tokenizer` are the `Tokens.Kind` datatype.
