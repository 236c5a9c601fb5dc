/**
 * What the builder promises: `preg_quote` escapes exactly the characters it must and can be
 * undone, removing glob escapes undoes adding them, structural tokens translate to fixed strings,
 * a body fails exactly at its first untranslatable token, and the body of tokens the lexer can
 * produce never holds the delimiter unescaped.
 */
module RegexBuilderLemmas {
  import opened Wrappers
  import opened Tokens
  import opened GlobTokenizer
  import opened GlobTokenizerLemmas
  import opened RegexBuilder

  // ---------------------------------------------------------------------------------------------
  // preg_quote

  /** Removes one level of backslash escaping: `\c` becomes `c`, other characters stay. */
  function Unquote(r: string): string
    decreases |r|
  {
    if r == [] then []
    else if r[0] == '\\' && |r| >= 2 then [r[1]] + Unquote(r[2..])
    else [r[0]] + Unquote(r[1..])
  }

  /**
   * `r` is a quoted text for `delimiter`: read left to right, it is a sequence of escape pairs
   * `\c` whose `c` must be quoted, and of single characters that need no quoting.
   */
  predicate IsQuoted(r: string, delimiter: string)
    decreases |r|
  {
    || r == []
    || (|r| >= 2 && r[0] == '\\' && MustQuote(r[1], delimiter) && IsQuoted(r[2..], delimiter))
    || (!MustQuote(r[0], delimiter) && IsQuoted(r[1..], delimiter))
  }

  lemma PregQuoteCons(c: char, s: string, delimiter: string)
    ensures PregQuote([c] + s, delimiter) == QuoteChar(c, delimiter) + PregQuote(s, delimiter)
  {
    assert ([c] + s)[1..] == s;
  }

  /** Quoting distributes over concatenation. */
  lemma {:induction false} PregQuoteAppend(s: string, t: string, delimiter: string)
    ensures PregQuote(s + t, delimiter) == PregQuote(s, delimiter) + PregQuote(t, delimiter)
    decreases |s|
  {
    if s == [] {
      assert s + t == t;
    } else {
      var q := QuoteChar(s[0], delimiter);
      assert s + t == [s[0]] + (s[1..] + t);
      PregQuoteCons(s[0], s[1..] + t, delimiter);
      PregQuoteAppend(s[1..], t, delimiter);
      assert s == [s[0]] + s[1..];
      PregQuoteCons(s[0], s[1..], delimiter);
      assert q + (PregQuote(s[1..], delimiter) + PregQuote(t, delimiter))
          == (q + PregQuote(s[1..], delimiter)) + PregQuote(t, delimiter);
    }
  }

  /** `preg_quote` can be undone: unquoting its output gives back its input. */
  lemma {:induction false} PregQuoteRoundTrip(s: string, delimiter: string)
    ensures Unquote(PregQuote(s, delimiter)) == s
    decreases |s|
  {
    if s != [] {
      PregQuoteRoundTrip(s[1..], delimiter);
      var rest := PregQuote(s[1..], delimiter);
      if MustQuote(s[0], delimiter) {
        assert (['\\', s[0]] + rest)[2..] == rest;
      } else {
        assert ([s[0]] + rest)[1..] == rest;
      }
    }
  }

  /** The output of `preg_quote` escapes every meta character and the delimiter, and nothing else. */
  lemma {:induction false} PregQuoteIsQuoted(s: string, delimiter: string)
    ensures IsQuoted(PregQuote(s, delimiter), delimiter)
    decreases |s|
  {
    if s != [] {
      PregQuoteIsQuoted(s[1..], delimiter);
      var rest := PregQuote(s[1..], delimiter);
      if MustQuote(s[0], delimiter) {
        assert (['\\', s[0]] + rest)[2..] == rest;
      } else {
        assert ([s[0]] + rest)[1..] == rest;
      }
    }
  }

  /** Every quoted text is the output of `preg_quote`, on the text it unquotes to. */
  lemma {:induction false} QuotedIsPregQuote(r: string, delimiter: string)
    requires IsQuoted(r, delimiter)
    ensures PregQuote(Unquote(r), delimiter) == r
    decreases |r|
  {
    if r != [] {
      if |r| >= 2 && r[0] == '\\' && MustQuote(r[1], delimiter) && IsQuoted(r[2..], delimiter) {
        QuotedIsPregQuote(r[2..], delimiter);
        PregQuoteCons(r[1], Unquote(r[2..]), delimiter);
        assert r == ['\\', r[1]] + r[2..];
      } else {
        assert IsMeta('\\');
        QuotedIsPregQuote(r[1..], delimiter);
        PregQuoteCons(r[0], Unquote(r[1..]), delimiter);
        assert r == [r[0]] + r[1..];
      }
    }
  }

  // ---------------------------------------------------------------------------------------------
  // Removing glob escapes

  /** Glob escaping: a backslash in front of each `* [ ] ? \`. */
  function GlobEscape(s: string): string
    decreases |s|
  {
    if s == [] then []
    else (if IsGlobEscapable(s[0]) then ['\\', s[0]] else [s[0]]) + GlobEscape(s[1..])
  }

  /** Unescaping undoes glob escaping. */
  lemma {:induction false} UnescapeGlobEscape(s: string)
    ensures Unescape(GlobEscape(s)) == s
    decreases |s|
  {
    if s != [] {
      UnescapeGlobEscape(s[1..]);
      var rest := GlobEscape(s[1..]);
      if IsGlobEscapable(s[0]) {
        assert (['\\', s[0]] + rest)[2..] == rest;
      } else {
        assert ([s[0]] + rest)[1..] == rest;
      }
    }
  }

  /** A text without backslashes is left unchanged. */
  lemma {:induction false} UnescapeWithoutBackslash(s: string)
    requires forall k :: 0 <= k < |s| ==> s[k] != '\\'
    ensures Unescape(s) == s
    decreases |s|
  {
    if s != [] {
      UnescapeWithoutBackslash(s[1..]);
      assert s == [s[0]] + s[1..];
    }
  }

  // ---------------------------------------------------------------------------------------------
  // Token translation

  /**
   * The five structural kinds translate to fixed strings, whatever their raw text, and a
   * character class passes through unchanged.
   */
  lemma StructuralTranslations(b: Builder, raw: string)
    ensures TranslateToken(b, Token(WildcardMulti, raw)) == Success(".*")
    ensures TranslateToken(b, Token(WildcardSingle, raw)) == Success(".")
    ensures TranslateToken(b, Token(GroupBegin, raw)) == Success("[")
    ensures TranslateToken(b, Token(GroupBeginNegated, raw)) == Success("[^")
    ensures TranslateToken(b, Token(GroupEnd, raw)) == Success("]")
    ensures TranslateToken(b, Token(GroupCharacterClass, raw)) == Success(raw)
  {
  }

  /** A group character is quoted. */
  lemma CharacterTranslation(b: Builder, c: char)
    ensures TranslateToken(b, Token(GroupCharacter, [c])) == Success(QuoteChar(c, b.delimiter))
  {
    PregQuoteCons(c, [], b.delimiter);
    assert [c] + [] == [c];
    assert QuoteChar(c, b.delimiter) + [] == QuoteChar(c, b.delimiter);
  }

  /** A word without backslashes is only quoted. */
  lemma PlainWordTranslation(b: Builder, s: string)
    requires forall k :: 0 <= k < |s| ==> s[k] != '\\'
    ensures TranslateToken(b, Token(Word, s)) == Success(PregQuote(s, b.delimiter))
  {
    UnescapeWithoutBackslash(s);
  }

  /** Text with nothing to quote is left as it is. */
  lemma {:induction false} PregQuotePlain(s: string, delimiter: string)
    requires forall k :: 0 <= k < |s| ==> !MustQuote(s[k], delimiter)
    ensures PregQuote(s, delimiter) == s
    decreases |s|
  {
    if s != [] {
      PregQuotePlain(s[1..], delimiter);
      assert s == [s[0]] + s[1..];
    }
  }

  /** A range's separator is never escaped, while its two ends are quoted. */
  lemma RangeTranslation(b: Builder, x: char, y: char)
    ensures TranslateToken(b, Token(GroupRange, [x, '-', y]))
         == Success(QuoteChar(x, b.delimiter) + "-" + QuoteChar(y, b.delimiter))
  {
    var raw := [x, '-', y];
    assert At(raw, 0) == [x] && At(raw, 2) == [y];
    PregQuoteCons(x, [], b.delimiter);
    PregQuoteCons(y, [], b.delimiter);
    assert [x] + [] == [x] && [y] + [] == [y];
    assert QuoteChar(x, b.delimiter) + [] == QuoteChar(x, b.delimiter);
    assert QuoteChar(y, b.delimiter) + [] == QuoteChar(y, b.delimiter);
  }

  /**
   * A body succeeds exactly when every token is translatable; when it fails, the error names the
   * raw text of the first token that is not.
   */
  lemma {:induction false} BodyFailure(b: Builder, ts: seq<Token>)
    ensures Body(b, ts).Success? <==> forall k :: 0 <= k < |ts| ==> Translatable(ts[k])
    ensures Body(b, ts).Failure? ==>
      exists k :: && 0 <= k < |ts| && !Translatable(ts[k])
                  && (forall j :: 0 <= j < k ==> Translatable(ts[j]))
                  && Body(b, ts).error == NoTranslation(ts[k].raw)
    decreases |ts|
  {
    if ts != [] {
      BodyFailure(b, ts[1..]);
      if !Translatable(ts[0]) {
      } else if Body(b, ts[1..]).Failure? {
        var k :| && 0 <= k < |ts[1..]| && !Translatable(ts[1..][k])
                 && (forall j :: 0 <= j < k ==> Translatable(ts[1..][j]))
                 && Body(b, ts[1..]).error == NoTranslation(ts[1..][k].raw);
        assert forall j :: 1 <= j < k + 1 ==> Translatable(ts[j]) by {
          forall j | 1 <= j < k + 1 ensures Translatable(ts[j]) {
            assert ts[j] == ts[1..][j - 1];
          }
        }
        assert !Translatable(ts[k + 1]) && ts[k + 1] == ts[1..][k];
      } else {
        forall k | 0 <= k < |ts| ensures Translatable(ts[k]) {
          if k > 0 {
            assert ts[k] == ts[1..][k - 1];
          }
        }
      }
    }
  }

  /** Fragments written one after another. */
  function Concat(fs: seq<string>): string
    decreases |fs|
  {
    if fs == [] then [] else fs[0] + Concat(fs[1..])
  }

  /** When every token translates to its fragment, the body is those fragments written in order. */
  lemma {:induction false} BodyConcat(b: Builder, ts: seq<Token>, fs: seq<string>)
    requires |ts| == |fs|
    requires forall k :: 0 <= k < |ts| ==> TranslateToken(b, ts[k]) == Success(fs[k])
    ensures Body(b, ts) == Success(Concat(fs))
    decreases |ts|
  {
    if ts != [] {
      forall k | 0 <= k < |ts| - 1 ensures TranslateToken(b, ts[1..][k]) == Success(fs[1..][k]) {
        assert ts[1..][k] == ts[k + 1] && fs[1..][k] == fs[k + 1];
      }
      BodyConcat(b, ts[1..], fs[1..]);
    }
  }

  /** The builder's result wraps the body: `delimiter ^ body $ delimiter modifiers`. */
  lemma BuildShape(b: Builder, ts: seq<Token>)
    ensures Build(b, ts).Success? <==> Body(b, ts).Success?
    ensures Build(b, ts).Success? ==>
      Build(b, ts).value == b.delimiter + "^" + Body(b, ts).value + "$" + b.delimiter + b.modifiers
    ensures Build(b, ts).Failure? ==> Build(b, ts).error == Body(b, ts).error
  {
  }

  // ---------------------------------------------------------------------------------------------
  // The delimiter stays escaped

  /**
   * Read as a sequence of units (a backslash with the character it escapes, or one other
   * character), `r` never has `c` as a unit of its own and does not end in a dangling backslash.
   */
  predicate EscapedOnly(r: string, c: char)
    decreases |r|
  {
    || r == []
    || (|r| >= 2 && r[0] == '\\' && EscapedOnly(r[2..], c))
    || (r[0] != '\\' && r[0] != c && EscapedOnly(r[1..], c))
  }

  lemma {:induction false} EscapedOnlyAppend(x: string, y: string, c: char)
    requires EscapedOnly(x, c) && EscapedOnly(y, c)
    ensures EscapedOnly(x + y, c)
    decreases |x|
  {
    if x == [] {
      assert x + y == y;
    } else {
      assert (x + y)[0] == x[0];
      if |x| >= 2 && x[0] == '\\' && EscapedOnly(x[2..], c) {
        assert (x + y)[1] == x[1];
        EscapedOnlyAppend(x[2..], y, c);
        assert (x + y)[2..] == x[2..] + y;
      } else {
        EscapedOnlyAppend(x[1..], y, c);
        assert (x + y)[1..] == x[1..] + y;
      }
    }
  }

  /** A text with neither backslashes nor `c` holds `c` only escaped (vacuously). */
  lemma {:induction false} PlainEscapedOnly(r: string, c: char)
    requires forall k :: 0 <= k < |r| ==> r[k] != '\\' && r[k] != c
    ensures EscapedOnly(r, c)
    decreases |r|
  {
    if r != [] {
      PlainEscapedOnly(r[1..], c);
    }
  }

  /** In a quoted text for a delimiter, the delimiter's character only appears escaped. */
  lemma {:induction false} QuotedEscapedOnly(r: string, delimiter: string)
    requires |delimiter| > 0 && IsQuoted(r, delimiter)
    ensures EscapedOnly(r, delimiter[0])
    decreases |r|
  {
    if r != [] {
      if |r| >= 2 && r[0] == '\\' && MustQuote(r[1], delimiter) && IsQuoted(r[2..], delimiter) {
        QuotedEscapedOnly(r[2..], delimiter);
      } else {
        assert IsMeta('\\');
        QuotedEscapedOnly(r[1..], delimiter);
      }
    }
  }

  /**
   * A delimiter that the unquoted parts of a translation never contain: not a backslash, not one
   * of `. * [ ^ ] - :` and not a lower-case letter (which class names consist of).
   */
  predicate SafeDelimiter(delimiter: string) {
    |delimiter| > 0 && delimiter[0] !in ".*[^]-:\\" && !IsLower(delimiter[0])
  }

  lemma QuotedTextEscapedOnly(s: string, delimiter: string)
    requires |delimiter| > 0
    ensures EscapedOnly(PregQuote(s, delimiter), delimiter[0])
  {
    PregQuoteIsQuoted(s, delimiter);
    QuotedEscapedOnly(PregQuote(s, delimiter), delimiter);
  }

  /** A well-formed token translates, and its fragment holds a safe delimiter only escaped. */
  lemma TranslateWellFormed(b: Builder, t: Token)
    requires SafeDelimiter(b.delimiter) && WellFormed(t)
    ensures TranslateToken(b, t).Success?
    ensures EscapedOnly(TranslateToken(b, t).value, b.delimiter[0])
  {
    var c := b.delimiter[0];
    match t.kind
    case Word =>
      QuotedTextEscapedOnly(Unescape(t.raw), b.delimiter);
    case GroupCharacter =>
      QuotedTextEscapedOnly(t.raw, b.delimiter);
    case GroupRange =>
      QuotedTextEscapedOnly(At(t.raw, 0), b.delimiter);
      QuotedTextEscapedOnly(At(t.raw, 2), b.delimiter);
      PlainEscapedOnly("-", c);
      EscapedOnlyAppend(PregQuote(At(t.raw, 0), b.delimiter), "-", c);
      EscapedOnlyAppend(PregQuote(At(t.raw, 0), b.delimiter) + "-", PregQuote(At(t.raw, 2), b.delimiter), c);
    case GroupCharacterClass =>
      PlainEscapedOnly(t.raw, c);
    case WildcardMulti =>
      PlainEscapedOnly(".*", c);
    case WildcardSingle =>
      PlainEscapedOnly(".", c);
    case GroupBegin =>
      PlainEscapedOnly("[", c);
    case GroupBeginNegated =>
      PlainEscapedOnly("[^", c);
    case GroupEnd =>
      PlainEscapedOnly("]", c);
    case Other(_) =>
  }

  /**
   * For tokens the lexer can produce (well formed) and a safe delimiter, the body is built and
   * holds the delimiter only escaped, so the delimiter cannot end the regex early.
   */
  lemma {:induction false} BodyKeepsDelimiterEscaped(b: Builder, ts: seq<Token>)
    requires SafeDelimiter(b.delimiter)
    requires forall t :: t in ts ==> WellFormed(t)
    ensures Body(b, ts).Success?
    ensures EscapedOnly(Body(b, ts).value, b.delimiter[0])
    decreases |ts|
  {
    if ts == [] {
    } else {
      assert ts[0] in ts;
      TranslateWellFormed(b, ts[0]);
      assert forall t :: t in ts[1..] ==> t in ts;
      BodyKeepsDelimiterEscaped(b, ts[1..]);
      EscapedOnlyAppend(TranslateToken(b, ts[0]).value, Body(b, ts[1..]).value, b.delimiter[0]);
    }
  }

  /** The default delimiter `#` is safe. */
  lemma DefaultDelimiterIsSafe()
    ensures SafeDelimiter(DefaultBuilder().delimiter)
  {
  }

  // ---------------------------------------------------------------------------------------------
  // Examples

  /** In a word, `\\c` for a character the glob does not escape keeps its backslash, which is then quoted. */
  lemma WordKeepsForeignEscape(b: Builder, c: char, s: string)
    requires !IsGlobEscapable(c)
    ensures TranslateWordToken(b, ['\\', c] + s) == ['\\', '\\'] + QuoteChar(c, b.delimiter) + TranslateWordToken(b, s)
  {
    var w := ['\\', c] + s;
    assert w[1..] == [c] + s;
    assert ([c] + s)[1..] == s;
    assert Unescape(w) == ['\\'] + ([c] + Unescape(s));
    PregQuoteCons('\\', [c] + Unescape(s), b.delimiter);
    PregQuoteCons(c, Unescape(s), b.delimiter);
    assert IsMeta('\\');
  }

  /** In a word, the glob escape `\\c` of `* [ ] ? \\` becomes the regex escape of `c`. */
  lemma WordTranslatesGlobEscape(b: Builder, c: char, s: string)
    requires IsGlobEscapable(c)
    ensures TranslateWordToken(b, ['\\', c] + s) == ['\\', c] + TranslateWordToken(b, s)
  {
    var w := ['\\', c] + s;
    assert w[2..] == s;
    assert Unescape(w) == [c] + Unescape(s);
    PregQuoteCons(c, Unescape(s), b.delimiter);
    assert IsMeta(c);
  }

  /** A token with an unknown identifier fails the build, naming its raw text. */
  lemma UnknownTokenExample()
    ensures Build(DefaultBuilder(), [Token(Other(-1), "\U{2603}")]) == Failure(NoTranslation("\U{2603}"))
    ensures RegexBuilder.Message(NoTranslation("\U{2603}")) == "No available translation for \"\U{2603}\""
  {
  }
}
