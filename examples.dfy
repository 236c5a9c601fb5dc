/**
 * The library's end-to-end example, worked through the model:
 * `foo*bar.ba[zr]?[!1[:alpha:]4-59][^x]` compiles to `#^foo.*bar\.ba[zr].[^1[:alpha:]4-59][^x]$#u`.
 */
module Examples {
  import opened Wrappers
  import opened Tokens
  import opened GlobTokenizer
  import opened RegexBuilder
  import opened RegexBuilderLemmas
  import opened Compiler
  import opened Globby

  const ExamplePattern: string := "foo*bar.ba[zr]?[!1[:alpha:]4-59][^x]"
  /** The expected regex, `#^foo.*bar\.ba[zr].[^1[:alpha:]4-59][^x]$#u`: the body below, anchored and delimited. */
  const Expected: string := "#^" + Concat(ExpectedFragments) + "$#u"

  /** The tokens the rule tables give for the example, in order. */
  const ExampleTokens: seq<Token> := [
    Token(Word, "foo"), Token(WildcardMulti, "*"), Token(Word, "bar.ba"),
    Token(GroupBegin, "["), Token(GroupCharacter, "z"), Token(GroupCharacter, "r"), Token(GroupEnd, "]"),
    Token(WildcardSingle, "?"),
    Token(GroupBeginNegated, "[!"), Token(GroupCharacter, "1"), Token(GroupCharacterClass, "[:alpha:]"),
    Token(GroupRange, "4-5"), Token(GroupCharacter, "9"), Token(GroupEnd, "]"),
    Token(GroupBeginNegated, "[^"), Token(GroupCharacter, "x"), Token(GroupEnd, "]")]

  lemma CharsAt0(p: string)
    requires p == ExamplePattern
    ensures p[0] == 'f' && p[1] == 'o' && p[2] == 'o' && p[3] == '*'
  {
  }

  lemma At0(p: string)
    requires |p| == 36 && p[0] == 'f' && p[1] == 'o' && p[2] == 'o' && p[3] == '*'
    ensures Step(Initial, p, 0) == Some(Rule(Word, 3, Keep))
    ensures ExampleTokens[0] == Token(Word, p[0..3])
  {
    assert p[0..3] == [p[0], p[1], p[2]];
    assert WordLength(p, 3) == 0;
    assert WordLength(p, 2) == 1;
    assert WordLength(p, 1) == 2;
  }

  lemma CharsAt3(p: string)
    requires p == ExamplePattern
    ensures p[3] == '*' && p[4] == 'b'
  {
  }

  lemma At3(p: string)
    requires |p| == 36 && p[3] == '*' && p[4] == 'b'
    ensures Step(Initial, p, 3) == Some(Rule(WildcardMulti, 1, Keep))
    ensures ExampleTokens[1] == Token(WildcardMulti, p[3..4])
  {
    assert p[3..4] == [p[3]];
    assert WordLength(p, 3) == 0;
  }

  lemma CharsAt4(p: string)
    requires p == ExamplePattern
    ensures p[4] == 'b' && p[5] == 'a' && p[6] == 'r' && p[7] == '.' && p[8] == 'b' && p[9] == 'a' && p[10] == '['
  {
  }

  lemma At4(p: string)
    requires |p| == 36 && p[4] == 'b' && p[5] == 'a' && p[6] == 'r' && p[7] == '.' && p[8] == 'b' && p[9] == 'a' && p[10] == '['
    ensures Step(Initial, p, 4) == Some(Rule(Word, 6, Keep))
    ensures ExampleTokens[2] == Token(Word, p[4..10])
  {
    assert p[4..10] == [p[4], p[5], p[6], p[7], p[8], p[9]];
    assert WordLength(p, 10) == 0;
    assert WordLength(p, 9) == 1;
    assert WordLength(p, 8) == 2;
    assert WordLength(p, 7) == 3;
    assert WordLength(p, 6) == 4;
    assert WordLength(p, 5) == 5;
  }

  lemma CharsAt10(p: string)
    requires p == ExamplePattern
    ensures p[10] == '[' && p[11] == 'z'
  {
  }

  lemma At10(p: string)
    requires |p| == 36 && p[10] == '[' && p[11] == 'z'
    ensures Step(Initial, p, 10) == Some(Rule(GroupBegin, 1, Push(InGroup)))
    ensures ExampleTokens[3] == Token(GroupBegin, p[10..11])
  {
    assert p[10..11] == [p[10]];
    assert WordLength(p, 10) == 0;
  }

  lemma CharsAt11(p: string)
    requires p == ExamplePattern
    ensures p[11] == 'z' && p[12] == 'r'
  {
  }

  lemma At11(p: string)
    requires |p| == 36 && p[11] == 'z' && p[12] == 'r'
    ensures Step(InGroup, p, 11) == Some(Rule(GroupCharacter, 1, Keep))
    ensures ExampleTokens[4] == Token(GroupCharacter, p[11..12])
  {
    assert p[11..12] == [p[11]];
  }

  lemma CharsAt12(p: string)
    requires p == ExamplePattern
    ensures p[12] == 'r' && p[13] == ']'
  {
  }

  lemma At12(p: string)
    requires |p| == 36 && p[12] == 'r' && p[13] == ']'
    ensures Step(InGroup, p, 12) == Some(Rule(GroupCharacter, 1, Keep))
    ensures ExampleTokens[5] == Token(GroupCharacter, p[12..13])
  {
    assert p[12..13] == [p[12]];
  }

  lemma CharsAt13(p: string)
    requires p == ExamplePattern
    ensures p[13] == ']' && p[14] == '?'
  {
  }

  lemma At13(p: string)
    requires |p| == 36 && p[13] == ']' && p[14] == '?'
    ensures Step(InGroup, p, 13) == Some(Rule(GroupEnd, 1, Pop))
    ensures ExampleTokens[6] == Token(GroupEnd, p[13..14])
  {
    assert p[13..14] == [p[13]];
  }

  lemma CharsAt14(p: string)
    requires p == ExamplePattern
    ensures p[14] == '?' && p[15] == '['
  {
  }

  lemma At14(p: string)
    requires |p| == 36 && p[14] == '?' && p[15] == '['
    ensures Step(Initial, p, 14) == Some(Rule(WildcardSingle, 1, Keep))
    ensures ExampleTokens[7] == Token(WildcardSingle, p[14..15])
  {
    assert p[14..15] == [p[14]];
    assert WordLength(p, 14) == 0;
  }

  lemma CharsAt15(p: string)
    requires p == ExamplePattern
    ensures p[15] == '[' && p[16] == '!' && p[17] == '1'
  {
  }

  lemma At15(p: string)
    requires |p| == 36 && p[15] == '[' && p[16] == '!' && p[17] == '1'
    ensures Step(Initial, p, 15) == Some(Rule(GroupBeginNegated, 2, Push(InGroup)))
    ensures ExampleTokens[8] == Token(GroupBeginNegated, p[15..17])
  {
    assert p[15..17] == [p[15], p[16]];
    assert WordLength(p, 15) == 0;
  }

  lemma CharsAt17(p: string)
    requires p == ExamplePattern
    ensures p[17] == '1' && p[18] == '['
  {
  }

  lemma At17(p: string)
    requires |p| == 36 && p[17] == '1' && p[18] == '['
    ensures Step(InGroup, p, 17) == Some(Rule(GroupCharacter, 1, Keep))
    ensures ExampleTokens[9] == Token(GroupCharacter, p[17..18])
  {
    assert p[17..18] == [p[17]];
  }

  lemma CharsAt18(p: string)
    requires p == ExamplePattern
    ensures p[18] == '[' && p[19] == ':' && p[20] == 'a' && p[21] == 'l' && p[22] == 'p' && p[23] == 'h' && p[24] == 'a' && p[25] == ':' && p[26] == ']' && p[27] == '4'
  {
  }

  lemma At18(p: string)
    requires |p| == 36 && p[18] == '[' && p[19] == ':' && p[20] == 'a' && p[21] == 'l' && p[22] == 'p' && p[23] == 'h' && p[24] == 'a' && p[25] == ':' && p[26] == ']' && p[27] == '4'
    ensures Step(InGroup, p, 18) == Some(Rule(GroupCharacterClass, 9, Keep))
    ensures ExampleTokens[10] == Token(GroupCharacterClass, p[18..27])
  {
    assert p[18..27] == [p[18], p[19], p[20], p[21], p[22], p[23], p[24], p[25], p[26]];
    assert LowerRun(p, 25) == 0;
    assert LowerRun(p, 24) == 1;
    assert LowerRun(p, 23) == 2;
    assert LowerRun(p, 22) == 3;
    assert LowerRun(p, 21) == 4;
    assert LowerRun(p, 20) == 5;
  }

  lemma CharsAt27(p: string)
    requires p == ExamplePattern
    ensures p[27] == '4' && p[28] == '-' && p[29] == '5' && p[30] == '9'
  {
  }

  lemma At27(p: string)
    requires |p| == 36 && p[27] == '4' && p[28] == '-' && p[29] == '5' && p[30] == '9'
    ensures Step(InGroup, p, 27) == Some(Rule(GroupRange, 3, Keep))
    ensures ExampleTokens[11] == Token(GroupRange, p[27..30])
  {
    assert p[27..30] == [p[27], p[28], p[29]];
  }

  lemma CharsAt30(p: string)
    requires p == ExamplePattern
    ensures p[30] == '9' && p[31] == ']'
  {
  }

  lemma At30(p: string)
    requires |p| == 36 && p[30] == '9' && p[31] == ']'
    ensures Step(InGroup, p, 30) == Some(Rule(GroupCharacter, 1, Keep))
    ensures ExampleTokens[12] == Token(GroupCharacter, p[30..31])
  {
    assert p[30..31] == [p[30]];
  }

  lemma CharsAt31(p: string)
    requires p == ExamplePattern
    ensures p[31] == ']' && p[32] == '['
  {
  }

  lemma At31(p: string)
    requires |p| == 36 && p[31] == ']' && p[32] == '['
    ensures Step(InGroup, p, 31) == Some(Rule(GroupEnd, 1, Pop))
    ensures ExampleTokens[13] == Token(GroupEnd, p[31..32])
  {
    assert p[31..32] == [p[31]];
  }

  lemma CharsAt32(p: string)
    requires p == ExamplePattern
    ensures p[32] == '[' && p[33] == '^' && p[34] == 'x'
  {
  }

  lemma At32(p: string)
    requires |p| == 36 && p[32] == '[' && p[33] == '^' && p[34] == 'x'
    ensures Step(Initial, p, 32) == Some(Rule(GroupBeginNegated, 2, Push(InGroup)))
    ensures ExampleTokens[14] == Token(GroupBeginNegated, p[32..34])
  {
    assert p[32..34] == [p[32], p[33]];
    assert WordLength(p, 32) == 0;
  }

  lemma CharsAt34(p: string)
    requires p == ExamplePattern
    ensures p[34] == 'x' && p[35] == ']'
  {
  }

  lemma At34(p: string)
    requires |p| == 36 && p[34] == 'x' && p[35] == ']'
    ensures Step(InGroup, p, 34) == Some(Rule(GroupCharacter, 1, Keep))
    ensures ExampleTokens[15] == Token(GroupCharacter, p[34..35])
  {
    assert p[34..35] == [p[34]];
  }

  lemma CharsAt35(p: string)
    requires p == ExamplePattern
    ensures p[35] == ']'
  {
  }

  lemma At35(p: string)
    requires |p| == 36 && p[35] == ']'
    ensures Step(InGroup, p, 35) == Some(Rule(GroupEnd, 1, Pop))
    ensures ExampleTokens[16] == Token(GroupEnd, p[35..36])
  {
    assert p[35..36] == [p[35]];
  }

  /** What the scan of the example meets at each token's offset: the rule that matches, and the token it yields. */
  predicate ScansAsListed(p: string) {
    && |p| == 36
    && Step(Initial, p, 0) == Some(Rule(Word, 3, Keep)) && ExampleTokens[0] == Token(Word, p[0..3])
    && Step(Initial, p, 3) == Some(Rule(WildcardMulti, 1, Keep)) && ExampleTokens[1] == Token(WildcardMulti, p[3..4])
    && Step(Initial, p, 4) == Some(Rule(Word, 6, Keep)) && ExampleTokens[2] == Token(Word, p[4..10])
    && Step(Initial, p, 10) == Some(Rule(GroupBegin, 1, Push(InGroup))) && ExampleTokens[3] == Token(GroupBegin, p[10..11])
    && Step(InGroup, p, 11) == Some(Rule(GroupCharacter, 1, Keep)) && ExampleTokens[4] == Token(GroupCharacter, p[11..12])
    && Step(InGroup, p, 12) == Some(Rule(GroupCharacter, 1, Keep)) && ExampleTokens[5] == Token(GroupCharacter, p[12..13])
    && Step(InGroup, p, 13) == Some(Rule(GroupEnd, 1, Pop)) && ExampleTokens[6] == Token(GroupEnd, p[13..14])
    && Step(Initial, p, 14) == Some(Rule(WildcardSingle, 1, Keep)) && ExampleTokens[7] == Token(WildcardSingle, p[14..15])
    && Step(Initial, p, 15) == Some(Rule(GroupBeginNegated, 2, Push(InGroup))) && ExampleTokens[8] == Token(GroupBeginNegated, p[15..17])
    && Step(InGroup, p, 17) == Some(Rule(GroupCharacter, 1, Keep)) && ExampleTokens[9] == Token(GroupCharacter, p[17..18])
    && Step(InGroup, p, 18) == Some(Rule(GroupCharacterClass, 9, Keep)) && ExampleTokens[10] == Token(GroupCharacterClass, p[18..27])
    && Step(InGroup, p, 27) == Some(Rule(GroupRange, 3, Keep)) && ExampleTokens[11] == Token(GroupRange, p[27..30])
    && Step(InGroup, p, 30) == Some(Rule(GroupCharacter, 1, Keep)) && ExampleTokens[12] == Token(GroupCharacter, p[30..31])
    && Step(InGroup, p, 31) == Some(Rule(GroupEnd, 1, Pop)) && ExampleTokens[13] == Token(GroupEnd, p[31..32])
    && Step(Initial, p, 32) == Some(Rule(GroupBeginNegated, 2, Push(InGroup))) && ExampleTokens[14] == Token(GroupBeginNegated, p[32..34])
    && Step(InGroup, p, 34) == Some(Rule(GroupCharacter, 1, Keep)) && ExampleTokens[15] == Token(GroupCharacter, p[34..35])
    && Step(InGroup, p, 35) == Some(Rule(GroupEnd, 1, Pop)) && ExampleTokens[16] == Token(GroupEnd, p[35..36])
  }

  lemma ExampleScans(p: string)
    requires p == ExamplePattern
    ensures ScansAsListed(p)
  {
    assert |p| == 36;
    CharsAt0(p);
    At0(p);
    CharsAt3(p);
    At3(p);
    CharsAt4(p);
    At4(p);
    CharsAt10(p);
    At10(p);
    CharsAt11(p);
    At11(p);
    CharsAt12(p);
    At12(p);
    CharsAt13(p);
    At13(p);
    CharsAt14(p);
    At14(p);
    CharsAt15(p);
    At15(p);
    CharsAt17(p);
    At17(p);
    CharsAt18(p);
    At18(p);
    CharsAt27(p);
    At27(p);
    CharsAt30(p);
    At30(p);
    CharsAt31(p);
    At31(p);
    CharsAt32(p);
    At32(p);
    CharsAt34(p);
    At34(p);
    CharsAt35(p);
    At35(p);
  }

  /** One scan step at a known position: token `j` of `all` is the rule's token, then the rest of the scan follows. */
  lemma ScanStep(p: string, i: nat, stack: seq<State>, r: Rule, next: seq<State>, all: seq<Token>, j: nat)
    requires i < |p| && Reachable(stack) && Reachable(next)
    requires Step(Top(stack), p, i) == Some(r)
    requires (r.action.Pop? ==> |stack| > 1) && Apply(stack, r.action) == next
    requires j < |all| && all[j] == Token(r.kind, p[i..i + r.length])
    requires Lex(p, i + r.length, next) == Success(all[j + 1..])
    ensures Lex(p, i, stack) == Success(all[j..])
  {
    LexUnfold(p, i, stack);
    SliceCons(all, j);
    assert Lex(p, i, stack) == Prepend([all[j]], Success(all[j + 1..]));
  }

  lemma ClosingPops()
    ensures Apply([Initial, InGroup], Pop) == [Initial]
  {
  }

  lemma OpeningPushes()
    ensures Apply([Initial], Push(InGroup)) == [Initial, InGroup]
  {
  }

  lemma SliceCons(all: seq<Token>, j: nat)
    requires j < |all|
    ensures all[j..] == [all[j]] + all[j + 1..]
  {
  }

  lemma ScanFrom35(p: string)
    requires ScansAsListed(p)
    ensures Lex(p, 35, [Initial, InGroup]) == Success(ExampleTokens[16..])
  {
    assert ExampleTokens[17..] == [];
    assert Lex(p, 36, [Initial]) == Success(ExampleTokens[17..]);
    ClosingPops();
    ScanStep(p, 35, [Initial, InGroup], Rule(GroupEnd, 1, Pop), [Initial], ExampleTokens, 16);
  }

  lemma ScanFrom34(p: string)
    requires ScansAsListed(p)
    ensures Lex(p, 34, [Initial, InGroup]) == Success(ExampleTokens[15..])
  {
    ScanFrom35(p);
    ScanStep(p, 34, [Initial, InGroup], Rule(GroupCharacter, 1, Keep), [Initial, InGroup], ExampleTokens, 15);
  }

  lemma ScanFrom32(p: string)
    requires ScansAsListed(p)
    ensures Lex(p, 32, [Initial]) == Success(ExampleTokens[14..])
  {
    ScanFrom34(p);
    OpeningPushes();
    ScanStep(p, 32, [Initial], Rule(GroupBeginNegated, 2, Push(InGroup)), [Initial, InGroup], ExampleTokens, 14);
  }

  lemma ScanFrom31(p: string)
    requires ScansAsListed(p)
    ensures Lex(p, 31, [Initial, InGroup]) == Success(ExampleTokens[13..])
  {
    ScanFrom32(p);
    ClosingPops();
    ScanStep(p, 31, [Initial, InGroup], Rule(GroupEnd, 1, Pop), [Initial], ExampleTokens, 13);
  }

  lemma ScanFrom30(p: string)
    requires ScansAsListed(p)
    ensures Lex(p, 30, [Initial, InGroup]) == Success(ExampleTokens[12..])
  {
    ScanFrom31(p);
    ScanStep(p, 30, [Initial, InGroup], Rule(GroupCharacter, 1, Keep), [Initial, InGroup], ExampleTokens, 12);
  }

  lemma ScanFrom27(p: string)
    requires ScansAsListed(p)
    ensures Lex(p, 27, [Initial, InGroup]) == Success(ExampleTokens[11..])
  {
    ScanFrom30(p);
    ScanStep(p, 27, [Initial, InGroup], Rule(GroupRange, 3, Keep), [Initial, InGroup], ExampleTokens, 11);
  }

  lemma ScanFrom18(p: string)
    requires ScansAsListed(p)
    ensures Lex(p, 18, [Initial, InGroup]) == Success(ExampleTokens[10..])
  {
    ScanFrom27(p);
    ScanStep(p, 18, [Initial, InGroup], Rule(GroupCharacterClass, 9, Keep), [Initial, InGroup], ExampleTokens, 10);
  }

  lemma ScanFrom17(p: string)
    requires ScansAsListed(p)
    ensures Lex(p, 17, [Initial, InGroup]) == Success(ExampleTokens[9..])
  {
    ScanFrom18(p);
    ScanStep(p, 17, [Initial, InGroup], Rule(GroupCharacter, 1, Keep), [Initial, InGroup], ExampleTokens, 9);
  }

  lemma ScanFrom15(p: string)
    requires ScansAsListed(p)
    ensures Lex(p, 15, [Initial]) == Success(ExampleTokens[8..])
  {
    ScanFrom17(p);
    OpeningPushes();
    ScanStep(p, 15, [Initial], Rule(GroupBeginNegated, 2, Push(InGroup)), [Initial, InGroup], ExampleTokens, 8);
  }

  lemma ScanFrom14(p: string)
    requires ScansAsListed(p)
    ensures Lex(p, 14, [Initial]) == Success(ExampleTokens[7..])
  {
    ScanFrom15(p);
    ScanStep(p, 14, [Initial], Rule(WildcardSingle, 1, Keep), [Initial], ExampleTokens, 7);
  }

  lemma ScanFrom13(p: string)
    requires ScansAsListed(p)
    ensures Lex(p, 13, [Initial, InGroup]) == Success(ExampleTokens[6..])
  {
    ScanFrom14(p);
    ClosingPops();
    ScanStep(p, 13, [Initial, InGroup], Rule(GroupEnd, 1, Pop), [Initial], ExampleTokens, 6);
  }

  lemma ScanFrom12(p: string)
    requires ScansAsListed(p)
    ensures Lex(p, 12, [Initial, InGroup]) == Success(ExampleTokens[5..])
  {
    ScanFrom13(p);
    ScanStep(p, 12, [Initial, InGroup], Rule(GroupCharacter, 1, Keep), [Initial, InGroup], ExampleTokens, 5);
  }

  lemma ScanFrom11(p: string)
    requires ScansAsListed(p)
    ensures Lex(p, 11, [Initial, InGroup]) == Success(ExampleTokens[4..])
  {
    ScanFrom12(p);
    ScanStep(p, 11, [Initial, InGroup], Rule(GroupCharacter, 1, Keep), [Initial, InGroup], ExampleTokens, 4);
  }

  lemma ScanFrom10(p: string)
    requires ScansAsListed(p)
    ensures Lex(p, 10, [Initial]) == Success(ExampleTokens[3..])
  {
    ScanFrom11(p);
    OpeningPushes();
    ScanStep(p, 10, [Initial], Rule(GroupBegin, 1, Push(InGroup)), [Initial, InGroup], ExampleTokens, 3);
  }

  lemma ScanFrom4(p: string)
    requires ScansAsListed(p)
    ensures Lex(p, 4, [Initial]) == Success(ExampleTokens[2..])
  {
    ScanFrom10(p);
    ScanStep(p, 4, [Initial], Rule(Word, 6, Keep), [Initial], ExampleTokens, 2);
  }

  lemma ScanFrom3(p: string)
    requires ScansAsListed(p)
    ensures Lex(p, 3, [Initial]) == Success(ExampleTokens[1..])
  {
    ScanFrom4(p);
    ScanStep(p, 3, [Initial], Rule(WildcardMulti, 1, Keep), [Initial], ExampleTokens, 1);
  }

  /** The scan from offset 0 on gives the tokens from token 0 on. */
  lemma ScanFrom0(p: string)
    requires ScansAsListed(p)
    ensures Lex(p, 0, [Initial]) == Success(ExampleTokens[0..])
  {
    ScanFrom3(p);
    ScanStep(p, 0, [Initial], Rule(Word, 3, Keep), [Initial], ExampleTokens, 0);
  }

  /** The example pattern is a single line. */
  lemma ExampleHasNoNewline()
    ensures NoNewline(ExamplePattern)
  {
  }

  /** The example pattern lexes to the tokens listed above. */
  lemma TokenizeExample(p: string)
    requires p == ExamplePattern
    ensures NoNewline(p) && Tokenize(p) == Success(ExampleTokens)
  {
    ExampleHasNoNewline();
    ExampleScans(p);
    ScanFrom0(p);
    assert ExampleTokens[0..] == ExampleTokens;
  }

  /** The fragments the builder appends for the example's tokens, in order. */
  const ExpectedFragments: seq<string> := [
    "foo", ".*", "bar\\.ba", "[", "z", "r", "]", ".", "[^", "1", "[:alpha:]", "4-5", "9", "]", "[^", "x", "]"]

  lemma QuoteExampleWord()
    ensures PregQuote("bar.ba", "#") == "bar\\.ba"
  {
  }

  lemma Fragment0(b: Builder)
    requires b == DefaultBuilder()
    ensures TranslateToken(b, ExampleTokens[0]) == Success(ExpectedFragments[0])
  {
    assert ExampleTokens[0] == Token(Word, "foo");
    PlainWordTranslation(b, "foo");
    PregQuotePlain("foo", b.delimiter);
    assert ExpectedFragments[0] == "foo";
  }

  lemma Fragment1(b: Builder)
    requires b == DefaultBuilder()
    ensures TranslateToken(b, ExampleTokens[1]) == Success(ExpectedFragments[1])
  {
    assert ExampleTokens[1] == Token(WildcardMulti, "*");
    StructuralTranslations(b, "*");
    assert ExpectedFragments[1] == ".*";
  }

  lemma Fragment2(b: Builder)
    requires b == DefaultBuilder()
    ensures TranslateToken(b, ExampleTokens[2]) == Success(ExpectedFragments[2])
  {
    assert ExampleTokens[2] == Token(Word, "bar.ba");
    PlainWordTranslation(b, "bar.ba");
    QuoteExampleWord();
    assert ExpectedFragments[2] == "bar\\.ba";
  }

  lemma Fragment3(b: Builder)
    requires b == DefaultBuilder()
    ensures TranslateToken(b, ExampleTokens[3]) == Success(ExpectedFragments[3])
  {
    assert ExampleTokens[3] == Token(GroupBegin, "[");
    StructuralTranslations(b, "[");
    assert ExpectedFragments[3] == "[";
  }

  lemma Fragment4(b: Builder)
    requires b == DefaultBuilder()
    ensures TranslateToken(b, ExampleTokens[4]) == Success(ExpectedFragments[4])
  {
    assert ExampleTokens[4] == Token(GroupCharacter, "z");
    CharacterTranslation(b, 'z');
    assert !MustQuote('z', b.delimiter);
    assert "z" == ['z'];
    assert ExpectedFragments[4] == "z";
  }

  lemma Fragment5(b: Builder)
    requires b == DefaultBuilder()
    ensures TranslateToken(b, ExampleTokens[5]) == Success(ExpectedFragments[5])
  {
    assert ExampleTokens[5] == Token(GroupCharacter, "r");
    CharacterTranslation(b, 'r');
    assert !MustQuote('r', b.delimiter);
    assert "r" == ['r'];
    assert ExpectedFragments[5] == "r";
  }

  lemma Fragment6(b: Builder)
    requires b == DefaultBuilder()
    ensures TranslateToken(b, ExampleTokens[6]) == Success(ExpectedFragments[6])
  {
    assert ExampleTokens[6] == Token(GroupEnd, "]");
    StructuralTranslations(b, "]");
    assert ExpectedFragments[6] == "]";
  }

  lemma Fragment7(b: Builder)
    requires b == DefaultBuilder()
    ensures TranslateToken(b, ExampleTokens[7]) == Success(ExpectedFragments[7])
  {
    assert ExampleTokens[7] == Token(WildcardSingle, "?");
    StructuralTranslations(b, "?");
    assert ExpectedFragments[7] == ".";
  }

  lemma Fragment8(b: Builder)
    requires b == DefaultBuilder()
    ensures TranslateToken(b, ExampleTokens[8]) == Success(ExpectedFragments[8])
  {
    assert ExampleTokens[8] == Token(GroupBeginNegated, "[!");
    StructuralTranslations(b, "[!");
    assert ExpectedFragments[8] == "[^";
  }

  lemma Fragment9(b: Builder)
    requires b == DefaultBuilder()
    ensures TranslateToken(b, ExampleTokens[9]) == Success(ExpectedFragments[9])
  {
    assert ExampleTokens[9] == Token(GroupCharacter, "1");
    CharacterTranslation(b, '1');
    assert !MustQuote('1', b.delimiter);
    assert "1" == ['1'];
    assert ExpectedFragments[9] == "1";
  }

  lemma Fragment10(b: Builder)
    requires b == DefaultBuilder()
    ensures TranslateToken(b, ExampleTokens[10]) == Success(ExpectedFragments[10])
  {
    assert ExampleTokens[10] == Token(GroupCharacterClass, "[:alpha:]");
    StructuralTranslations(b, "[:alpha:]");
    assert ExpectedFragments[10] == "[:alpha:]";
  }

  lemma Fragment11(b: Builder)
    requires b == DefaultBuilder()
    ensures TranslateToken(b, ExampleTokens[11]) == Success(ExpectedFragments[11])
  {
    assert ExampleTokens[11] == Token(GroupRange, "4-5");
    RangeTranslation(b, '4', '5');
    assert !MustQuote('4', b.delimiter) && !MustQuote('5', b.delimiter);
    assert "4-5" == ['4', '-', '5'];
    assert QuoteChar('4', b.delimiter) == ['4'] && QuoteChar('5', b.delimiter) == ['5'];
    assert ['4'] + "-" + ['5'] == "4-5";
    assert ExpectedFragments[11] == "4-5";
  }

  lemma Fragment12(b: Builder)
    requires b == DefaultBuilder()
    ensures TranslateToken(b, ExampleTokens[12]) == Success(ExpectedFragments[12])
  {
    assert ExampleTokens[12] == Token(GroupCharacter, "9");
    CharacterTranslation(b, '9');
    assert !MustQuote('9', b.delimiter);
    assert "9" == ['9'];
    assert ExpectedFragments[12] == "9";
  }

  lemma Fragment13(b: Builder)
    requires b == DefaultBuilder()
    ensures TranslateToken(b, ExampleTokens[13]) == Success(ExpectedFragments[13])
  {
    assert ExampleTokens[13] == Token(GroupEnd, "]");
    StructuralTranslations(b, "]");
    assert ExpectedFragments[13] == "]";
  }

  lemma Fragment14(b: Builder)
    requires b == DefaultBuilder()
    ensures TranslateToken(b, ExampleTokens[14]) == Success(ExpectedFragments[14])
  {
    assert ExampleTokens[14] == Token(GroupBeginNegated, "[^");
    StructuralTranslations(b, "[^");
    assert ExpectedFragments[14] == "[^";
  }

  lemma Fragment15(b: Builder)
    requires b == DefaultBuilder()
    ensures TranslateToken(b, ExampleTokens[15]) == Success(ExpectedFragments[15])
  {
    assert ExampleTokens[15] == Token(GroupCharacter, "x");
    CharacterTranslation(b, 'x');
    assert !MustQuote('x', b.delimiter);
    assert "x" == ['x'];
    assert ExpectedFragments[15] == "x";
  }

  lemma Fragment16(b: Builder)
    requires b == DefaultBuilder()
    ensures TranslateToken(b, ExampleTokens[16]) == Success(ExpectedFragments[16])
  {
    assert ExampleTokens[16] == Token(GroupEnd, "]");
    StructuralTranslations(b, "]");
    assert ExpectedFragments[16] == "]";
  }

  /** Each of the example's tokens translates to its fragment. */
  lemma ExampleFragments(b: Builder)
    requires b == DefaultBuilder()
    ensures |ExampleTokens| == |ExpectedFragments| == 17
    ensures forall k :: 0 <= k < 17 ==> TranslateToken(b, ExampleTokens[k]) == Success(ExpectedFragments[k])
  {
    forall k | 0 <= k < 17 ensures TranslateToken(b, ExampleTokens[k]) == Success(ExpectedFragments[k]) {
      if k == 0 { Fragment0(b); }
      else if k == 1 { Fragment1(b); }
      else if k == 2 { Fragment2(b); }
      else if k == 3 { Fragment3(b); }
      else if k == 4 { Fragment4(b); }
      else if k == 5 { Fragment5(b); }
      else if k == 6 { Fragment6(b); }
      else if k == 7 { Fragment7(b); }
      else if k == 8 { Fragment8(b); }
      else if k == 9 { Fragment9(b); }
      else if k == 10 { Fragment10(b); }
      else if k == 11 { Fragment11(b); }
      else if k == 12 { Fragment12(b); }
      else if k == 13 { Fragment13(b); }
      else if k == 14 { Fragment14(b); }
      else if k == 15 { Fragment15(b); }
      else { Fragment16(b); }
    }
  }

  /** Wrapping a body with the default delimiter and modifier. */
  lemma DefaultWrapping(t: string)
    ensures "#" + "^" + t + "$" + "#" + "u" == "#^" + t + "$#u"
  {
    assert "#" + "^" == "#^" && "$" + "#" + "u" == "$#u";
    assert "#" + "^" + t + "$" + "#" + "u" == "#^" + t + ("$" + "#" + "u");
  }

  /** The example's tokens build the expected regex. */
  lemma BuildExample(b: Builder)
    requires b == DefaultBuilder()
    ensures Build(b, ExampleTokens) == Success(Expected)
  {
    ExampleFragments(b);
    BodyConcat(b, ExampleTokens, ExpectedFragments);
    DefaultWrapping(Concat(ExpectedFragments));
  }

  /** The example pattern compiles to the expected regex, as the compiler's integration test states. */
  lemma CompileExample(b: Builder, p: string)
    requires b == DefaultBuilder() && p == ExamplePattern
    ensures NoNewline(p) && Compile(b, p) == Success(Expected)
  {
    TokenizeExample(p);
    BuildExample(b);
  }

  // ---------------------------------------------------------------------------------------------
  // An unclosed group

  /** A pattern whose group is never closed. */
  const Unclosed: string := "fo[o"

  /** One scan step at a known position, followed by a scan that fails: the whole scan fails the same way. */
  lemma ScanStepFails(p: string, i: nat, stack: seq<State>, r: Rule, next: seq<State>, e: TokenizeError)
    requires i < |p| && Reachable(stack) && Reachable(next)
    requires Step(Top(stack), p, i) == Some(r)
    requires (r.action.Pop? ==> |stack| > 1) && Apply(stack, r.action) == next
    requires Lex(p, i + r.length, next) == Failure(e)
    ensures Lex(p, i, stack) == Failure(e)
  {
    LexUnfold(p, i, stack);
  }

  lemma UnclosedSteps(p: string)
    requires p == Unclosed
    ensures Step(Initial, p, 0) == Some(Rule(Word, 2, Keep))
    ensures Step(Initial, p, 2) == Some(Rule(GroupBegin, 1, Push(InGroup)))
    ensures Step(InGroup, p, 3) == Some(Rule(GroupCharacter, 1, Keep))
  {
    assert WordLength(p, 2) == 0;
    assert WordLength(p, 1) == 1;
  }

  /** The pattern ends inside its group, so tokenizing it reports a premature end. */
  lemma UnclosedGroupFails(p: string)
    requires p == Unclosed
    ensures NoNewline(p) && Tokenize(p) == Failure(PrematureEnd)
    ensures GlobTokenizer.Message(Tokenize(p).error, "") == "Premature end of pattern"
  {
    UnclosedSteps(p);
    assert Lex(p, 4, [Initial, InGroup]) == Failure(PrematureEnd);
    ScanStepFails(p, 3, [Initial, InGroup], Rule(GroupCharacter, 1, Keep), [Initial, InGroup], PrematureEnd);
    ScanStepFails(p, 2, [Initial], Rule(GroupBegin, 1, Push(InGroup)), [Initial, InGroup], PrematureEnd);
    ScanStepFails(p, 0, [Initial], Rule(Word, 2, Keep), [Initial], PrematureEnd);
  }

  /** Constructing a pattern with default options from the unclosed pattern raises the tokenizer's error. */
  method ConstructWithUnclosedGroup() returns (r: Result<Pattern, CompileError>)
    ensures r.Failure? && r.error == TokenizeFailed(PrematureEnd)
  {
    UnclosedGroupFails(Unclosed);
    CompileFailsOnlyInTokenizer(DefaultBuilder(), Unclosed);
    r := Pattern.Create(Unclosed, map[]);
  }

  // ---------------------------------------------------------------------------------------------
  // Leading `]` and trailing `-` inside a group

  /** A leading `]` after a negated opener, then `a-]`, which is no range. */
  const TrailingDash: string := "[!]a-]"

  const TrailingDashTokens: seq<Token> := [
    Token(GroupBeginNegated, "[!"), Token(GroupCharacter, "]"), Token(GroupCharacter, "a"),
    Token(GroupCharacter, "-"), Token(GroupEnd, "]")]

  /** What the scan of `[!]a-]` meets at each token's offset. */
  predicate TrailingDashScans(p: string) {
    && |p| == 6
    && Step(Initial, p, 0) == Some(Rule(GroupBeginNegated, 2, Push(InGroupSpecialFirst)))
    && Step(InGroupSpecialFirst, p, 2) == Some(Rule(GroupCharacter, 1, Swap(InGroup)))
    && Step(InGroup, p, 3) == Some(Rule(GroupCharacter, 1, Keep))
    && Step(InGroup, p, 4) == Some(Rule(GroupCharacter, 1, Keep))
    && Step(InGroup, p, 5) == Some(Rule(GroupEnd, 1, Pop))
    && TrailingDashTokens[0] == Token(GroupBeginNegated, p[0..2])
    && TrailingDashTokens[1] == Token(GroupCharacter, p[2..3])
    && TrailingDashTokens[2] == Token(GroupCharacter, p[3..4])
    && TrailingDashTokens[3] == Token(GroupCharacter, p[4..5])
    && TrailingDashTokens[4] == Token(GroupEnd, p[5..6])
  }

  lemma TrailingDashSteps(p: string)
    requires p == TrailingDash
    ensures TrailingDashScans(p)
  {
    assert p[0..2] == "[!" && p[2..3] == "]" && p[3..4] == "a" && p[4..5] == "-" && p[5..6] == "]";
  }

  lemma ScanTrailingDash(p: string)
    requires TrailingDashScans(p)
    ensures Lex(p, 0, [Initial]) == Success(TrailingDashTokens)
  {
    assert TrailingDashTokens[5..] == [];
    assert Lex(p, 6, [Initial]) == Success(TrailingDashTokens[5..]);
    ClosingPops();
    ScanStep(p, 5, [Initial, InGroup], Rule(GroupEnd, 1, Pop), [Initial], TrailingDashTokens, 4);
    ScanStep(p, 4, [Initial, InGroup], Rule(GroupCharacter, 1, Keep), [Initial, InGroup], TrailingDashTokens, 3);
    ScanStep(p, 3, [Initial, InGroup], Rule(GroupCharacter, 1, Keep), [Initial, InGroup], TrailingDashTokens, 2);
    assert Apply([Initial, InGroupSpecialFirst], Swap(InGroup)) == [Initial, InGroup];
    ScanStep(p, 2, [Initial, InGroupSpecialFirst], Rule(GroupCharacter, 1, Swap(InGroup)), [Initial, InGroup], TrailingDashTokens, 1);
    assert Apply([Initial], Push(InGroupSpecialFirst)) == [Initial, InGroupSpecialFirst];
    ScanStep(p, 0, [Initial], Rule(GroupBeginNegated, 2, Push(InGroupSpecialFirst)), [Initial, InGroupSpecialFirst], TrailingDashTokens, 0);
    assert TrailingDashTokens[0..] == TrailingDashTokens;
  }

  /**
   * `[!]a-]` lexes as a negated opener, the characters `]`, `a` and `-`, and the end: the leading
   * `]` does not close the group, and `a-]` is not a range.
   */
  lemma TokenizeTrailingDash(p: string)
    requires p == TrailingDash
    ensures NoNewline(p) && Tokenize(p) == Success(TrailingDashTokens)
  {
    GroupExamplesHaveNoNewline();
    TrailingDashSteps(p);
    ScanTrailingDash(p);
  }

  /** A range whose first end is the leading `]`. */
  const LeadingRange: string := "[]-_]"

  const LeadingRangeTokens: seq<Token> := [Token(GroupBegin, "["), Token(GroupRange, "]-_"), Token(GroupEnd, "]")]

  /** What the scan of `[]-_]` meets at each token's offset. */
  predicate LeadingRangeScans(p: string) {
    && |p| == 5
    && Step(Initial, p, 0) == Some(Rule(GroupBegin, 1, Push(InGroupSpecialFirst)))
    && Step(InGroupSpecialFirst, p, 1) == Some(Rule(GroupRange, 3, Swap(InGroup)))
    && Step(InGroup, p, 4) == Some(Rule(GroupEnd, 1, Pop))
    && LeadingRangeTokens[0] == Token(GroupBegin, p[0..1])
    && LeadingRangeTokens[1] == Token(GroupRange, p[1..4])
    && LeadingRangeTokens[2] == Token(GroupEnd, p[4..5])
  }

  lemma LeadingRangeSteps(p: string)
    requires p == LeadingRange
    ensures LeadingRangeScans(p)
  {
    assert p[0..1] == "[" && p[1..4] == "]-_" && p[4..5] == "]";
  }

  lemma ScanLeadingRange(p: string)
    requires LeadingRangeScans(p)
    ensures Lex(p, 0, [Initial]) == Success(LeadingRangeTokens)
  {
    assert LeadingRangeTokens[3..] == [];
    assert Lex(p, 5, [Initial]) == Success(LeadingRangeTokens[3..]);
    ClosingPops();
    ScanStep(p, 4, [Initial, InGroup], Rule(GroupEnd, 1, Pop), [Initial], LeadingRangeTokens, 2);
    assert Apply([Initial, InGroupSpecialFirst], Swap(InGroup)) == [Initial, InGroup];
    ScanStep(p, 1, [Initial, InGroupSpecialFirst], Rule(GroupRange, 3, Swap(InGroup)), [Initial, InGroup], LeadingRangeTokens, 1);
    assert Apply([Initial], Push(InGroupSpecialFirst)) == [Initial, InGroupSpecialFirst];
    ScanStep(p, 0, [Initial], Rule(GroupBegin, 1, Push(InGroupSpecialFirst)), [Initial, InGroupSpecialFirst], LeadingRangeTokens, 0);
    assert LeadingRangeTokens[0..] == LeadingRangeTokens;
  }

  /** `[]-_]` lexes as an opener, the range `]-_` and the end. */
  lemma TokenizeLeadingRange(p: string)
    requires p == LeadingRange
    ensures NoNewline(p) && Tokenize(p) == Success(LeadingRangeTokens)
  {
    GroupExamplesHaveNoNewline();
    LeadingRangeSteps(p);
    ScanLeadingRange(p);
  }

  /** The two group examples are single lines. */
  lemma GroupExamplesHaveNoNewline()
    ensures NoNewline(TrailingDash) && NoNewline(LeadingRange)
  {
  }

  /** A lone opener ends the pattern inside its group. */
  lemma LoneOpenerFails()
    ensures NoNewline("[") && Tokenize("[") == Failure(PrematureEnd)
  {
    assert Step(Initial, "[", 0) == Some(Rule(GroupBegin, 1, Push(InGroup)));
    assert Lex("[", 1, [Initial, InGroup]) == Failure(PrematureEnd);
    ScanStepFails("[", 0, [Initial], Rule(GroupBegin, 1, Push(InGroup)), [Initial, InGroup], PrematureEnd);
  }
}
