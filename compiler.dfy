/**
 * The compiler: tokenize the pattern, then build the regex from the tokens, passing either
 * stage's error through unchanged. Both compiler classes of the library do exactly this.
 */
module Compiler {
  import opened Wrappers
  import opened Tokens
  import opened GlobTokenizer
  import opened GlobTokenizerLemmas
  import opened RegexBuilder
  import opened RegexBuilderLemmas

  /** The exception a compile raises: the tokenizer's or the builder's. */
  datatype CompileError = TokenizeFailed(tokenizeError: TokenizeError) | BuildFailed(buildError: BuildError)

  /** The regex for `p`: its tokens, unchanged, handed to the builder. */
  function Compile(b: Builder, p: string): Result<string, CompileError>
    requires NoNewline(p)
  {
    match Tokenize(p)
    case Failure(e) => Failure(TokenizeFailed(e))
    case Success(tokens) =>
      match Build(b, tokens)
      case Failure(e) => Failure(BuildFailed(e))
      case Success(regex) => Success(regex)
  }

  /** The compile step: parse, then build; an exception of either stops it. */
  method CompilePattern(b: Builder, pattern: string) returns (r: Result<string, CompileError>)
    requires NoNewline(pattern)
    ensures r == Compile(b, pattern)
  {
    var tokens := Parse(pattern);
    if tokens.Failure? {
      return Failure(TokenizeFailed(tokens.error));
    }
    var regex := CreateFromTokens(b, tokens.value);
    if regex.Failure? {
      return Failure(BuildFailed(regex.error));
    }
    return Success(regex.value);
  }

  /** PHP truthiness of a string: every string except `""` and `"0"`. */
  predicate Truthy(s: string) {
    s != "" && s != "0"
  }

  /** A token the lexer can produce always has a translation. */
  lemma WellFormedIsTranslatable(t: Token)
    requires WellFormed(t)
    ensures Translatable(t)
  {
  }

  /**
   * The builder never fails on the lexer's tokens: a compile fails exactly when tokenizing fails,
   * and then with the tokenizer's own error.
   */
  lemma CompileFailsOnlyInTokenizer(b: Builder, p: string)
    requires NoNewline(p)
    ensures Compile(b, p).Failure? <==> Tokenize(p).Failure?
    ensures Compile(b, p).Failure? ==> Compile(b, p).error == TokenizeFailed(Tokenize(p).error)
  {
    if Tokenize(p).Success? {
      var ts := Tokenize(p).value;
      TokenizeWellNested(p);
      forall k | 0 <= k < |ts| ensures Translatable(ts[k]) {
        assert ts[k] in ts;
        WellFormedIsTranslatable(ts[k]);
      }
      BodyFailure(b, ts);
    }
  }

  /**
   * A compiled regex is `delimiter ^ body $ delimiter modifiers`, where the body is built from
   * the pattern's tokens and, for a safe delimiter, holds the delimiter only escaped.
   */
  lemma CompiledShape(b: Builder, p: string)
    requires NoNewline(p) && SafeDelimiter(b.delimiter) && Compile(b, p).Success?
    ensures Tokenize(p).Success? && Body(b, Tokenize(p).value).Success?
    ensures
      var body := Body(b, Tokenize(p).value).value;
      && Compile(b, p).value == b.delimiter + "^" + body + "$" + b.delimiter + b.modifiers
      && EscapedOnly(body, b.delimiter[0])
  {
    TokenizeWellNested(p);
    BodyKeepsDelimiterEscaped(b, Tokenize(p).value);
  }

  /** A compiled regex is never a falsy PHP string, so a cached one is never compiled again. */
  lemma CompiledIsTruthy(b: Builder, p: string)
    requires NoNewline(p) && Compile(b, p).Success?
    ensures Truthy(Compile(b, p).value)
  {
    var body := Body(b, Tokenize(p).value).value;
    var regex := b.delimiter + "^" + body + "$" + b.delimiter + b.modifiers;
    assert |regex| >= 2;
  }
}
