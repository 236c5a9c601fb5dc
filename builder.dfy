/**
 * The regex builder: each token is translated to a PCRE fragment, the fragments are joined and
 * the result is wrapped as `delimiter ^ body $ delimiter modifiers`.
 *
 * The builder's two fields never change after construction, so it is a value. `Body` and `Build`
 * specify the translation of a token sequence; `CreateFromTokens` is the loop that builds the
 * string, proved equal to `Build`.
 */
module RegexBuilder {
  import opened Wrappers
  import opened Tokens

  const DefaultModifiers: string := "u"
  const DefaultDelimiter: string := "#"

  /** A builder: the modifiers appended after the closing delimiter, and the delimiter. */
  datatype Builder = Builder(modifiers: string, delimiter: string)

  /** The builder made with the constructor's default arguments. */
  function DefaultBuilder(): (b: Builder)
    ensures b.modifiers == "u" && b.delimiter == "#"
  {
    Builder(DefaultModifiers, DefaultDelimiter)
  }

  /** A token no translation exists for; `value` is its raw text. */
  datatype BuildError = NoTranslation(value: string)

  function Message(e: BuildError): string {
    "No available translation for \"" + e.value + "\""
  }

  // ---------------------------------------------------------------------------------------------
  // preg_quote

  /** The characters `preg_quote` always escapes: `. \ + * ? [ ^ ] $ ( ) { } = ! < > | : - #`. */
  predicate IsMeta(c: char) {
    || c == '.' || c == '\\' || c == '+' || c == '*' || c == '?' || c == '[' || c == '^' || c == ']'
    || c == '$' || c == '(' || c == ')' || c == '{' || c == '}' || c == '=' || c == '!' || c == '<'
    || c == '>' || c == '|' || c == ':' || c == '-' || c == '#'
  }

  /** `c` is escaped by `preg_quote` with `delimiter`: a meta character, or the delimiter's first character. */
  predicate MustQuote(c: char, delimiter: string) {
    IsMeta(c) || (|delimiter| > 0 && c == delimiter[0])
  }

  /** `c` as `preg_quote` writes it. */
  function QuoteChar(c: char, delimiter: string): string {
    if MustQuote(c, delimiter) then ['\\', c] else [c]
  }

  /**
   * `preg_quote(s, delimiter)`: a backslash in front of every character that must be quoted, so
   * each character gains at most one backslash.
   */
  function PregQuote(s: string, delimiter: string): (r: string)
    ensures |s| <= |r| <= 2 * |s|
    decreases |s|
  {
    if s == [] then [] else QuoteChar(s[0], delimiter) + PregQuote(s[1..], delimiter)
  }

  // ---------------------------------------------------------------------------------------------
  // Removing glob escapes from a word

  /** The characters whose glob escape a word loses before quoting: `* [ ] ? \`. */
  predicate IsGlobEscapable(c: char) {
    c == '*' || c == '[' || c == ']' || c == '?' || c == '\\'
  }

  /**
   * One left-to-right pass that replaces each non-overlapping `\c`, with `c` one of `* [ ] ? \`,
   * by `c`; every other backslash is kept.
   */
  function Unescape(s: string): (r: string)
    ensures |r| <= |s| <= 2 * |r|
    decreases |s|
  {
    if s == [] then []
    else if |s| >= 2 && s[0] == '\\' && IsGlobEscapable(s[1]) then [s[1]] + Unescape(s[2..])
    else [s[0]] + Unescape(s[1..])
  }

  // ---------------------------------------------------------------------------------------------
  // Token translation

  /** `value[n]` of a PHP string: the character at `n`, or the empty string past the end. */
  function At(value: string, n: nat): string {
    if n < |value| then [value[n]] else []
  }

  /** A WORD: glob escapes removed, then quoted. */
  function TranslateWordToken(b: Builder, value: string): string {
    PregQuote(Unescape(value), b.delimiter)
  }

  /** A GROUP_RANGE `X-Y`: each end quoted on its own, joined by an unescaped `-`. */
  function TranslateGroupRangeToken(b: Builder, value: string): string {
    PregQuote(At(value, 0), b.delimiter) + "-" + PregQuote(At(value, 2), b.delimiter)
  }

  /** A GROUP_CHARACTER: quoted. */
  function TranslateGroupCharacterToken(b: Builder, value: string): string {
    PregQuote(value, b.delimiter)
  }

  /** A GROUP_CHARACTER_CLASS: passed through unchanged. */
  function TranslateGroupCharacterClassToken(b: Builder, value: string): string {
    value
  }

  /** A token the builder has a translation for: its identifier is one of the nine kinds. */
  predicate Translatable(t: Token) {
    IsDefined(KindOf(Identifier(t.kind)))
  }

  /**
   * The fragment for one token, looked up by its integer identifier: fixed strings for the
   * wildcards, openers and end, a callback for the four kinds with text, and an error otherwise.
   * A translation fails exactly for an unknown identifier, and reports the token's raw text.
   */
  function TranslateToken(b: Builder, t: Token): (r: Result<string, BuildError>)
    ensures r.Failure? <==> !Translatable(t)
    ensures r.Failure? ==> r.error == NoTranslation(t.raw)
  {
    match KindOf(Identifier(t.kind))
    case WildcardMulti => Success(".*")
    case WildcardSingle => Success(".")
    case GroupBegin => Success("[")
    case GroupBeginNegated => Success("[^")
    case GroupEnd => Success("]")
    case Word => Success(TranslateWordToken(b, t.raw))
    case GroupCharacter => Success(TranslateGroupCharacterToken(b, t.raw))
    case GroupRange => Success(TranslateGroupRangeToken(b, t.raw))
    case GroupCharacterClass => Success(TranslateGroupCharacterClassToken(b, t.raw))
    case Other(_) => Failure(NoTranslation(t.raw))
  }

  /** Joining two outcomes: the first failure wins, otherwise the texts are concatenated. */
  function Join(x: Result<string, BuildError>, y: Result<string, BuildError>): (r: Result<string, BuildError>)
    ensures r.Success? <==> x.Success? && y.Success?
    ensures x.Failure? ==> r == x
    ensures x.Success? && y.Failure? ==> r == y
    ensures r.Success? ==> r.value == x.value + y.value
  {
    if x.Failure? then x else if y.Failure? then y else Success(x.value + y.value)
  }

  /** The fragments of `ts` joined in order; the first token without a translation fails the whole. */
  function Body(b: Builder, ts: seq<Token>): Result<string, BuildError>
    decreases |ts|
  {
    if ts == [] then Success([]) else Join(TranslateToken(b, ts[0]), Body(b, ts[1..]))
  }

  /** The complete regex for `ts`: the body anchored and wrapped in delimiters, then the modifiers. */
  function Build(b: Builder, ts: seq<Token>): Result<string, BuildError> {
    match Body(b, ts)
    case Failure(e) => Failure(e)
    case Success(body) => Success(b.delimiter + "^" + body + "$" + b.delimiter + b.modifiers)
  }

  lemma JoinAssoc(x: Result<string, BuildError>, y: Result<string, BuildError>, z: Result<string, BuildError>)
    ensures Join(x, Join(y, z)) == Join(Join(x, y), z)
  {
    if x.Success? && y.Success? && z.Success? {
      assert x.value + (y.value + z.value) == (x.value + y.value) + z.value;
    }
  }

  lemma JoinEmpty(y: Result<string, BuildError>)
    ensures Join(Success([]), y) == y
    ensures Join(y, Success([])) == y
  {
    if y.Success? {
      assert [] + y.value == y.value;
      assert y.value + [] == y.value;
    }
  }

  /** Translation is compositional: the body of `xs + ys` joins the bodies of `xs` and `ys`. */
  lemma {:induction false} BodyAppend(b: Builder, xs: seq<Token>, ys: seq<Token>)
    ensures Body(b, xs + ys) == Join(Body(b, xs), Body(b, ys))
    decreases |xs|
  {
    if xs == [] {
      assert xs + ys == ys;
      JoinEmpty(Body(b, ys));
    } else {
      assert (xs + ys)[0] == xs[0];
      assert (xs + ys)[1..] == xs[1..] + ys;
      BodyAppend(b, xs[1..], ys);
      JoinAssoc(TranslateToken(b, xs[0]), Body(b, xs[1..]), Body(b, ys));
    }
  }

  /** The body of a single token is its translation. */
  lemma BodySingle(b: Builder, t: Token)
    ensures Body(b, [t]) == TranslateToken(b, t)
  {
    assert [t][1..] == [];
    JoinEmpty(TranslateToken(b, t));
  }

  /** Extending a prefix of the tokens by one token joins its translation onto the prefix's body. */
  lemma BodyPrefix(b: Builder, tokens: seq<Token>, i: nat)
    requires i < |tokens|
    ensures Body(b, tokens[..i + 1]) == Join(Body(b, tokens[..i]), TranslateToken(b, tokens[i]))
  {
    assert tokens[..i + 1] == tokens[..i] + [tokens[i]];
    BodyAppend(b, tokens[..i], [tokens[i]]);
    BodySingle(b, tokens[i]);
  }

  /** Once a prefix's body has failed, the whole body fails the same way. */
  lemma BodyPrefixFailure(b: Builder, tokens: seq<Token>, i: nat)
    requires i <= |tokens| && Body(b, tokens[..i]).Failure?
    ensures Body(b, tokens) == Body(b, tokens[..i])
  {
    assert tokens == tokens[..i] + tokens[i..];
    BodyAppend(b, tokens[..i], tokens[i..]);
  }

  /** Appending the next token's fragment to the body of a prefix gives the body of the longer prefix. */
  lemma BuildKeeps(b: Builder, tokens: seq<Token>, i: nat, body: string, fragment: string)
    requires i < |tokens| && Body(b, tokens[..i]) == Success(body)
    requires TranslateToken(b, tokens[i]) == Success(fragment)
    ensures Body(b, tokens[..i + 1]) == Success(body + fragment)
  {
    BodyPrefix(b, tokens, i);
  }

  /** A token without a translation fails the whole build with its error. */
  lemma BuildStops(b: Builder, tokens: seq<Token>, i: nat)
    requires i < |tokens| && Body(b, tokens[..i]).Success? && TranslateToken(b, tokens[i]).Failure?
    ensures Build(b, tokens) == Failure(TranslateToken(b, tokens[i]).error)
  {
    BodyPrefix(b, tokens, i);
    BodyPrefixFailure(b, tokens, i + 1);
  }

  lemma AppendAssoc(x: string, y: string, z: string)
    ensures x + y + z == x + (y + z)
  {
  }

  /** The builder's loop: open with `delimiter ^`, append each token's fragment, close. */
  method CreateFromTokens(b: Builder, tokens: seq<Token>) returns (r: Result<string, BuildError>)
    ensures r == Build(b, tokens)
  {
    var buffer := b.delimiter + "^";
    ghost var body: string := [];
    for i := 0 to |tokens|
      invariant Body(b, tokens[..i]) == Success(body)
      invariant buffer == b.delimiter + "^" + body
    {
      var fragment := TranslateToken(b, tokens[i]);
      if fragment.Failure? {
        BuildStops(b, tokens, i);
        return Failure(fragment.error);
      }
      BuildKeeps(b, tokens, i, body, fragment.value);
      AppendAssoc(b.delimiter + "^", body, fragment.value);
      buffer, body := buffer + fragment.value, body + fragment.value;
    }
    assert tokens[..|tokens|] == tokens;
    buffer := buffer + "$" + b.delimiter + b.modifiers;
    return Success(buffer);
  }
}
