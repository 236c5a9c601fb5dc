/**
 * What the glob lexer promises: the shape of each rule table, and of every completed scan that
 * the raw texts reproduce the pattern, that the tokens are well formed and well nested, and that
 * the only position no rule matches is a trailing backslash.
 */
module GlobTokenizerLemmas {
  import opened Wrappers
  import opened Tokens
  import opened GlobTokenizer

  /** The kinds that can stand between a group's opener and its end. */
  predicate IsGroupMember(k: Kind) {
    k == GroupCharacter || k == GroupRange || k == GroupCharacterClass
  }

  // ---------------------------------------------------------------------------------------------
  // Words

  /** The WORD rule's greedy length is a maximal run of word units. */
  lemma {:induction false} WordLengthIsMaximalRun(p: string, i: nat)
    requires i <= |p|
    ensures WordLength(p, i) == 0 <==> NoWordUnitAt(p, i)
    ensures WordLength(p, i) > 0 ==> IsWordText(p[i..i + WordLength(p, i)])
    ensures NoWordUnitAt(p, i + WordLength(p, i))
    decreases |p| - i
  {
    if i == |p| {
    } else if !IsSpecial(p[i]) {
      WordLengthIsMaximalRun(p, i + 1);
      var n := WordLength(p, i + 1);
      assert p[i..i + n + 1][1..] == p[i + 1..i + 1 + n];
    } else if p[i] == '\\' && i + 1 < |p| {
      WordLengthIsMaximalRun(p, i + 2);
      var n := WordLength(p, i + 2);
      assert p[i..i + n + 2][2..] == p[i + 2..i + 2 + n];
    }
  }

  /** Conversely, a word text followed by no word unit is exactly what the WORD rule consumes. */
  lemma {:induction false} WordLengthUnique(p: string, i: nat, k: nat)
    requires i + k <= |p| && IsWordText(p[i..i + k]) && NoWordUnitAt(p, i + k)
    ensures WordLength(p, i) == k
    decreases k
  {
    var w := p[i..i + k];
    assert w[0] == p[i];
    if !IsSpecial(p[i]) {
      if k == 1 {
        WordLengthIsMaximalRun(p, i + 1);
      } else {
        assert w[1..] == p[i + 1..i + k];
        WordLengthUnique(p, i + 1, k - 1);
      }
    } else {
      assert w[1] == p[i + 1];
      if k == 2 {
        WordLengthIsMaximalRun(p, i + 2);
      } else {
        assert w[2..] == p[i + 2..i + k];
        WordLengthUnique(p, i + 2, k - 2);
      }
    }
  }

  // ---------------------------------------------------------------------------------------------
  // The INITIAL rule table

  /**
   * In INITIAL, a WORD is emitted exactly when a word unit starts here; it covers the maximal run
   * of word units, escapes included, and leaves the stack alone.
   */
  lemma InitialWord(p: string, i: nat)
    requires i < |p|
    ensures (Step(Initial, p, i).Some? && Step(Initial, p, i).value.kind == Word) <==> !NoWordUnitAt(p, i)
    ensures Step(Initial, p, i).Some? && Step(Initial, p, i).value.kind == Word ==>
      var r := Step(Initial, p, i).value;
      IsWordText(p[i..i + r.length]) && NoWordUnitAt(p, i + r.length) && r.action == Keep
  {
    WordLengthIsMaximalRun(p, i);
  }

  /** A lone `*` is WILDCARD_MULTI and a lone `?` is WILDCARD_SINGLE, each one character long. */
  lemma InitialWildcards(p: string, i: nat)
    requires i < |p|
    ensures p[i] == '*' ==> Step(Initial, p, i) == Some(Rule(WildcardMulti, 1, Keep))
    ensures p[i] == '?' ==> Step(Initial, p, i) == Some(Rule(WildcardSingle, 1, Keep))
  {
  }

  /**
   * `[` opens a group: negated (covering `[!` or `[^`) when the next character is `!` or `^`,
   * plain (covering `[`) otherwise; it pushes IN_GROUP_SPECIAL_FIRST exactly when the character
   * after the opener is `]`, which is looked at but not consumed, and IN_GROUP otherwise.
   */
  lemma InitialGroupOpener(p: string, i: nat)
    requires i < |p| && p[i] == '['
    ensures Step(Initial, p, i).Some?
    ensures
      var r := Step(Initial, p, i).value;
      && (r.kind == GroupBegin || r.kind == GroupBeginNegated)
      && (r.kind == GroupBeginNegated <==> i + 1 < |p| && (p[i + 1] == '!' || p[i + 1] == '^'))
      && r.length == (if r.kind == GroupBeginNegated then 2 else 1)
      && r.action.Push? && r.action.pushed != Initial
      && (r.action.pushed == InGroupSpecialFirst <==> i + r.length < |p| && p[i + r.length] == ']')
  {
  }

  /** In INITIAL the only position no rule matches is a backslash that ends the input. */
  lemma InitialNoMatch(p: string, i: nat)
    requires i < |p|
    ensures Step(Initial, p, i).None? <==> i == |p| - 1 && p[i] == '\\'
  {
  }

  // ---------------------------------------------------------------------------------------------
  // The group rule tables

  /**
   * A `]` right after the opener never closes the group: it starts a range `]-X` when followed by
   * `-` and some X other than `]`, and is a plain character otherwise; either way the state is
   * swapped (not pushed) to IN_GROUP. Anything else does not match in that state.
   */
  lemma SpecialFirstBracket(p: string, i: nat)
    requires i < |p|
    ensures Step(InGroupSpecialFirst, p, i).Some? <==> p[i] == ']'
    ensures p[i] == ']' ==>
      var r := Step(InGroupSpecialFirst, p, i).value;
      && r.kind != GroupEnd
      && r.action == Swap(InGroup)
      && (r.kind == GroupRange <==> i + 3 <= |p| && p[i + 1] == '-' && p[i + 2] != ']')
      && (r.kind == GroupRange || r.kind == GroupCharacter)
      && r.length == (if r.kind == GroupRange then 3 else 1)
  {
  }

  /** `LowerRun` counts the run of lower-case letters and stops at the first other character. */
  lemma {:induction false} LowerRunIsMaximal(p: string, i: nat)
    requires i <= |p|
    ensures forall j :: i <= j < i + LowerRun(p, i) ==> IsLower(p[j])
    ensures i + LowerRun(p, i) < |p| ==> !IsLower(p[i + LowerRun(p, i)])
    decreases |p| - i
  {
    if i < |p| && IsLower(p[i]) {
      LowerRunIsMaximal(p, i + 1);
    }
  }

  /** What the class rule consumes is a class text. */
  lemma ClassLengthSound(p: string, i: nat)
    requires i <= |p| && ClassLength(p, i) > 0
    ensures IsClassText(p[i..i + ClassLength(p, i)])
  {
    LowerRunIsMaximal(p, i + 2);
  }

  /** A class text of length `m` stands at position `i` of `p`. */
  predicate ClassAt(p: string, i: nat, m: nat) {
    0 < m && i + m <= |p| && IsClassText(p[i..i + m])
  }

  /** A run of `k` lower-case letters that ends the input or is followed by another character is what `LowerRun` counts. */
  lemma {:induction false} LowerRunUnique(p: string, i: nat, k: nat)
    requires i + k <= |p|
    requires forall j :: i <= j < i + k ==> IsLower(p[j])
    requires i + k < |p| ==> !IsLower(p[i + k])
    ensures LowerRun(p, i) == k
    decreases k
  {
    if k > 0 {
      LowerRunUnique(p, i + 1, k - 1);
    }
  }

  /** A class text at position `i` is exactly what the class rule consumes. */
  lemma ClassLengthUnique(p: string, i: nat, m: nat)
    requires i + m <= |p| && IsClassText(p[i..i + m])
    ensures ClassLength(p, i) == m
  {
    var w := p[i..i + m];
    assert w[0] == p[i] && w[1] == p[i + 1];
    assert w[m - 2] == p[i + m - 2] && w[m - 1] == p[i + m - 1];
    forall j | i + 2 <= j < i + m - 2
      ensures IsLower(p[j])
    {
      assert w[j - i] == p[j];
    }
    LowerRunUnique(p, i + 2, m - 4);
  }

  /**
   * IN_GROUP tries `]`, then a range, then a class, then any single character: each kind is
   * emitted exactly under its condition, with the length and stack action of its rule.
   */
  lemma InGroupPriority(p: string, i: nat)
    requires i < |p|
    ensures Step(InGroup, p, i).Some?
    ensures
      var r := Step(InGroup, p, i).value;
      var isRange := i + 3 <= |p| && p[i + 1] == '-' && p[i + 2] != ']';
      && (r.kind == GroupEnd <==> p[i] == ']')
      && (r.kind == GroupEnd ==> r.length == 1 && r.action == Pop)
      && (r.kind == GroupRange <==> p[i] != ']' && isRange)
      && (r.kind == GroupRange ==> r.length == 3)
      && (r.kind == GroupCharacterClass <==>
            p[i] != ']' && !isRange && exists m :: ClassAt(p, i, m))
      && (r.kind == GroupCharacterClass ==> IsClassText(p[i..i + r.length]))
      && (r.kind == GroupCharacter ==> r.length == 1)
      && (r.kind != GroupEnd ==> r.action == Keep)
      && IsGroupMember(r.kind) != (r.kind == GroupEnd)
  {
    if exists m :: ClassAt(p, i, m) {
      var m :| ClassAt(p, i, m);
      ClassLengthUnique(p, i, m);
    }
    if ClassLength(p, i) > 0 {
      ClassLengthSound(p, i);
      assert ClassAt(p, i, ClassLength(p, i));
    }
  }

  // ---------------------------------------------------------------------------------------------
  // Properties of a whole scan

  /** The concatenation of the tokens' raw texts, in order. */
  function Raws(ts: seq<Token>): string {
    if ts == [] then [] else ts[0].raw + Raws(ts[1..])
  }

  /** Each token's raw text has the shape its kind promises. */
  predicate WellFormed(t: Token) {
    match t.kind
    case Word => IsWordText(t.raw)
    case WildcardMulti => t.raw == "*"
    case WildcardSingle => t.raw == "?"
    case GroupBegin => t.raw == "["
    case GroupBeginNegated => t.raw == "[!" || t.raw == "[^"
    case GroupCharacter => |t.raw| == 1
    case GroupRange => |t.raw| == 3 && t.raw[1] == '-' && t.raw[2] != ']'
    case GroupCharacterClass => IsClassText(t.raw)
    case GroupEnd => t.raw == "]"
    case Other(_) => false
  }

  /** Where a token sequence is: outside a group (just after a WORD, or not), right after an opener, or inside a group. */
  datatype Mode = Outside(afterWord: bool) | Opened | Inside

  /** The grammar of token sequences, one token at a time. */
  function NextMode(mode: Mode, k: Kind): Option<Mode> {
    match mode
    case Outside(afterWord) =>
      if k == Word && !afterWord then Some(Outside(true))
      else if k == WildcardMulti || k == WildcardSingle then Some(Outside(false))
      else if k == GroupBegin || k == GroupBeginNegated then Some(Opened)
      else None
    case Opened =>
      if IsGroupMember(k) then Some(Inside) else None
    case Inside =>
      if k == GroupEnd then Some(Outside(false))
      else if IsGroupMember(k) then Some(Inside)
      else None
  }

  /** `ts` is grammatical when read from `mode` and ends outside any group. */
  predicate NestedFrom(mode: Mode, ts: seq<Token>)
    decreases |ts|
  {
    if ts == [] then mode.Outside?
    else
      var next := NextMode(mode, ts[0].kind);
      next.Some? && NestedFrom(next.value, ts[1..])
  }

  /**
   * Well nested: group members appear only between an opener and the next GROUP_END, a group
   * holds at least one member, words and wildcards appear only outside groups, every group is
   * closed, and no WORD directly follows another.
   */
  predicate WellNested(ts: seq<Token>) {
    NestedFrom(Outside(false), ts)
  }

  /** How the lexer's position and stack correspond to a grammar mode. */
  predicate ModeAgrees(mode: Mode, p: string, i: nat, stack: seq<State>)
    requires i <= |p| && Reachable(stack)
  {
    match mode
    case Outside(afterWord) => |stack| == 1 && (afterWord ==> NoWordUnitAt(p, i))
    case Opened =>
      && |stack| == 2
      && (Top(stack) == InGroupSpecialFirst <==> i < |p| && p[i] == ']')
    case Inside => |stack| == 2 && Top(stack) == InGroup
  }

  /** What one step promises: the stack stays reachable, the token is well formed, and the grammar follows. */
  predicate StepFits(mode: Mode, p: string, i: nat, stack: seq<State>)
    requires i < |p| && Reachable(stack) && Step(Top(stack), p, i).Some?
  {
    var r := Step(Top(stack), p, i).value;
    && (r.action.Pop? ==> HasPushedStates(stack))
    && Reachable(Apply(stack, r.action))
    && WellFormed(Token(r.kind, p[i..i + r.length]))
    && NextMode(mode, r.kind).Some?
    && ModeAgrees(NextMode(mode, r.kind).value, p, i + r.length, Apply(stack, r.action))
  }

  lemma StepAgreesInitial(mode: Mode, p: string, i: nat, stack: seq<State>)
    requires i < |p| && Reachable(stack) && ModeAgrees(mode, p, i, stack) && Top(stack) == Initial
    requires Step(Top(stack), p, i).Some?
    ensures StepFits(mode, p, i, stack)
  {
    StepKeepsReachable(stack, p, i);
    var r := Step(Initial, p, i).value;
    WordLengthIsMaximalRun(p, i);
    if r.kind == Word {
      InitialWord(p, i);
    } else if p[i] == '[' {
      InitialGroupOpener(p, i);
    } else {
      InitialWildcards(p, i);
    }
  }

  lemma StepAgreesInGroup(mode: Mode, p: string, i: nat, stack: seq<State>)
    requires i < |p| && Reachable(stack) && ModeAgrees(mode, p, i, stack) && Top(stack) == InGroup
    ensures Step(Top(stack), p, i).Some? && StepFits(mode, p, i, stack)
  {
    StepKeepsReachable(stack, p, i);
    InGroupPriority(p, i);
  }

  lemma StepAgreesSpecialFirst(mode: Mode, p: string, i: nat, stack: seq<State>)
    requires i < |p| && Reachable(stack) && ModeAgrees(mode, p, i, stack) && Top(stack) == InGroupSpecialFirst
    requires Step(Top(stack), p, i).Some?
    ensures StepFits(mode, p, i, stack)
  {
    StepKeepsReachable(stack, p, i);
    SpecialFirstBracket(p, i);
  }

  /** One step of the lexer is one step of the grammar, and produces a well-formed token. */
  lemma StepAgrees(mode: Mode, p: string, i: nat, stack: seq<State>)
    requires i < |p| && Reachable(stack) && ModeAgrees(mode, p, i, stack)
    requires Step(Top(stack), p, i).Some?
    ensures
      var r := Step(Top(stack), p, i).value;
      && (r.action.Pop? ==> HasPushedStates(stack))
      && Reachable(Apply(stack, r.action))
      && WellFormed(Token(r.kind, p[i..i + r.length]))
      && NextMode(mode, r.kind).Some?
      && ModeAgrees(NextMode(mode, r.kind).value, p, i + r.length, Apply(stack, r.action))
  {
    match Top(stack)
    case Initial => StepAgreesInitial(mode, p, i, stack);
    case InGroup => StepAgreesInGroup(mode, p, i, stack);
    case InGroupSpecialFirst => StepAgreesSpecialFirst(mode, p, i, stack);
  }

  lemma NestedCons(mode: Mode, k: Kind, raw: string, m: Mode, ts: seq<Token>)
    requires NextMode(mode, k) == Some(m) && NestedFrom(m, ts)
    ensures NestedFrom(mode, [Token(k, raw)] + ts)
  {
    assert ([Token(k, raw)] + ts)[1..] == ts;
  }

  /**
   * One step of a completed scan from a state that agrees with `mode`: the rule that matches,
   * the mode after its token, and the facts the rest of the scan needs.
   */
  lemma AgreedStep(mode: Mode, p: string, i: nat, stack: seq<State>)
    returns (r: Rule, m: Mode, next: seq<State>, rest: seq<Token>)
    requires i < |p| && Reachable(stack) && ModeAgrees(mode, p, i, stack)
    requires Lex(p, i, stack).Success?
    ensures Step(Top(stack), p, i) == Some(r)
    ensures (r.action.Pop? ==> HasPushedStates(stack)) && next == Apply(stack, r.action) && Reachable(next)
    ensures NextMode(mode, r.kind) == Some(m) && ModeAgrees(m, p, i + r.length, next)
    ensures WellFormed(Token(r.kind, p[i..i + r.length]))
    ensures Lex(p, i + r.length, next) == Success(rest)
    ensures Lex(p, i, stack).value == [Token(r.kind, p[i..i + r.length])] + rest
  {
    LexSuccessUnfold(p, i, stack);
    StepAgrees(mode, p, i, stack);
    r := Step(Top(stack), p, i).value;
    m := NextMode(mode, r.kind).value;
    next := Apply(stack, r.action);
    rest := Lex(p, i + r.length, next).value;
  }

  /** Every completed scan is well nested. */
  lemma {:induction false} LexWellNested(mode: Mode, p: string, i: nat, stack: seq<State>)
    requires i <= |p| && Reachable(stack) && ModeAgrees(mode, p, i, stack)
    requires Lex(p, i, stack).Success?
    ensures NestedFrom(mode, Lex(p, i, stack).value)
    decreases |p| - i
  {
    if i < |p| {
      var r, m, next, rest := AgreedStep(mode, p, i, stack);
      LexWellNested(m, p, i + r.length, next);
      NestedCons(mode, r.kind, p[i..i + r.length], m, rest);
    }
  }

  /** Every completed scan is made of well-formed tokens. */
  lemma {:induction false} LexWellFormed(mode: Mode, p: string, i: nat, stack: seq<State>)
    requires i <= |p| && Reachable(stack) && ModeAgrees(mode, p, i, stack)
    requires Lex(p, i, stack).Success?
    ensures forall t :: t in Lex(p, i, stack).value ==> WellFormed(t)
    decreases |p| - i
  {
    if i < |p| {
      var r, m, next, rest := AgreedStep(mode, p, i, stack);
      LexWellFormed(m, p, i + r.length, next);
    }
  }

  /** A successful scan at a position where input remains starts with the token of the matching rule. */
  lemma LexSuccessUnfold(p: string, i: nat, stack: seq<State>)
    requires i < |p| && Reachable(stack) && Lex(p, i, stack).Success?
    ensures Step(Top(stack), p, i).Some?
    ensures
      var r := Step(Top(stack), p, i).value;
      && (r.action.Pop? ==> HasPushedStates(stack))
      && Reachable(Apply(stack, r.action))
      && Lex(p, i + r.length, Apply(stack, r.action)).Success?
      && Lex(p, i, stack).value
         == [Token(r.kind, p[i..i + r.length])] + Lex(p, i + r.length, Apply(stack, r.action)).value
  {
    LexUnfold(p, i, stack);
  }

  /** Every completed scan's raw texts, concatenated, give back the scanned text. */
  lemma {:induction false} LexRaws(p: string, i: nat, stack: seq<State>)
    requires i <= |p| && Reachable(stack)
    requires Lex(p, i, stack).Success?
    ensures Raws(Lex(p, i, stack).value) == p[i..]
    decreases |p| - i
  {
    if i < |p| {
      LexSuccessUnfold(p, i, stack);
      var r := Step(Top(stack), p, i).value;
      var n := i + r.length;
      var next := Apply(stack, r.action);
      LexRaws(p, n, next);
      RawsCons(Token(r.kind, p[i..n]), Lex(p, n, next).value);
      assert p[i..] == p[i..n] + p[n..];
    }
  }

  lemma RawsCons(t: Token, ts: seq<Token>)
    ensures Raws([t] + ts) == t.raw + Raws(ts)
  {
    assert ([t] + ts)[1..] == ts;
  }

  /** A scan that agrees with a grammar mode can only get stuck on a trailing backslash. */
  lemma {:induction false} LexStuckOnlyAtTrailingBackslash(mode: Mode, p: string, i: nat, stack: seq<State>, j: nat)
    requires i <= |p| && Reachable(stack) && ModeAgrees(mode, p, i, stack)
    requires Lex(p, i, stack) == Failure(LexingFailed(j))
    ensures j == |p| - 1 && p[j] == '\\'
    decreases |p| - i
  {
    if i < |p| {
      LexUnfold(p, i, stack);
      if Step(Top(stack), p, i).None? {
        if Top(stack) == Initial {
          InitialNoMatch(p, i);
        } else if Top(stack) == InGroupSpecialFirst {
          SpecialFirstBracket(p, i);
        } else {
          InGroupPriority(p, i);
        }
      } else {
        var r := Step(Top(stack), p, i).value;
        StepAgrees(mode, p, i, stack);
        LexStuckOnlyAtTrailingBackslash(NextMode(mode, r.kind).value, p, i + r.length, Apply(stack, r.action), j);
      }
    }
  }

  // ---------------------------------------------------------------------------------------------
  // The same properties for a whole pattern

  /** The raw texts of the tokens, in order, reproduce the pattern exactly. */
  lemma TokenizeReproducesPattern(p: string)
    requires NoNewline(p) && Tokenize(p).Success?
    ensures Raws(Tokenize(p).value) == p
  {
    LexRaws(p, 0, [Initial]);
  }

  /** The tokens of a pattern are well formed and well nested; in particular no group is left open. */
  lemma TokenizeWellNested(p: string)
    requires NoNewline(p) && Tokenize(p).Success?
    ensures WellNested(Tokenize(p).value)
    ensures forall t :: t in Tokenize(p).value ==> WellFormed(t)
  {
    LexWellNested(Outside(false), p, 0, [Initial]);
    LexWellFormed(Outside(false), p, 0, [Initial]);
  }

  /** "Lexing failed" happens only at a final backslash that escapes nothing. */
  lemma TokenizeLexingFailure(p: string)
    requires NoNewline(p) && Tokenize(p).Failure? && Tokenize(p).error.LexingFailed?
    ensures Tokenize(p).error.offset == |p| - 1 && p[|p| - 1] == '\\'
  {
    LexStuckOnlyAtTrailingBackslash(Outside(false), p, 0, [Initial], Tokenize(p).error.offset);
  }
}
