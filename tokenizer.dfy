/**
 * The glob(7) lexer: three states (INITIAL, IN_GROUP, IN_GROUP_SPECIAL_FIRST) kept on a state
 * stack, an ordered rule table per state (the first rule that matches wins), and the end-of-input
 * check that no state is still pushed.
 *
 * `Step` is the rule tables, `Lex`/`Tokenize` the specification of a whole scan, and `Parse` the
 * scanning loop itself, proved equal to `Tokenize`.
 */
module GlobTokenizer {
  import opened Wrappers
  import opened Tokens

  /** The lexer states. */
  datatype State = Initial | InGroup | InGroupSpecialFirst

  /** What a rule's callback does to the state stack. */
  datatype StackAction = Keep | Push(pushed: State) | Swap(swapped: State) | Pop

  /** A rule that matched: the kind it emits, how many characters it consumes, its stack action. */
  datatype Rule = Rule(kind: Kind, length: nat, action: StackAction)

  /** Why a scan fails: no rule matched at `offset`, or the input ended inside a group. */
  datatype TokenizeError = LexingFailed(offset: nat) | PrematureEnd

  /**
   * The exception message of an error. The lexer library's own diagnostic for a position no rule
   * matches is not part of this model and is passed in.
   */
  function Message(e: TokenizeError, lexerDiagnostic: string): string {
    match e
    case LexingFailed(_) => "Lexing failed with error: " + lexerDiagnostic
    case PrematureEnd => "Premature end of pattern"
  }

  /** The patterns this model covers: a rule's `.` is not relied upon to match a newline. */
  predicate NoNewline(p: string) {
    forall i :: 0 <= i < |p| ==> p[i] != '\n'
  }

  // ---------------------------------------------------------------------------------------------
  // Lexical building blocks

  /** Characters that end a word in the INITIAL state: `\`, `*`, `[`, `?`. */
  predicate IsSpecial(c: char) {
    c == '\\' || c == '*' || c == '[' || c == '?'
  }

  /** No word unit starts at position `i` of `p`: the input ends there, or a special character that is not an escaping backslash stands there. */
  predicate NoWordUnitAt(p: string, i: nat)
    requires i <= |p|
  {
    i == |p| || (IsSpecial(p[i]) && !(p[i] == '\\' && i + 1 < |p|))
  }

  /**
   * `w` is a nonempty sequence of word units, each either a non-special character or a backslash
   * together with the (arbitrary) character it escapes.
   */
  predicate IsWordText(w: string)
    decreases |w|
  {
    && |w| > 0
    && if !IsSpecial(w[0]) then |w| == 1 || IsWordText(w[1..])
       else w[0] == '\\' && |w| >= 2 && (|w| == 2 || IsWordText(w[2..]))
  }

  /** The length of the longest run of word units at position `i` of `p` (the WORD rule's greedy match). */
  function WordLength(p: string, i: nat): (n: nat)
    requires i <= |p|
    ensures i + n <= |p|
    decreases |p| - i
  {
    if i == |p| then 0
    else if !IsSpecial(p[i]) then 1 + WordLength(p, i + 1)
    else if p[i] == '\\' && i + 1 < |p| then 2 + WordLength(p, i + 2)
    else 0
  }

  predicate IsLower(c: char) {
    'a' <= c <= 'z'
  }

  /** `w` is a POSIX class `[:name:]` whose name is one or more lower-case letters. */
  predicate IsClassText(w: string) {
    && |w| >= 5
    && w[0] == '[' && w[1] == ':'
    && w[|w| - 2] == ':' && w[|w| - 1] == ']'
    && forall i :: 2 <= i < |w| - 2 ==> IsLower(w[i])
  }

  /** The number of lower-case letters from position `i` of `p` on. */
  function LowerRun(p: string, i: nat): (n: nat)
    requires i <= |p|
    ensures i + n <= |p|
    decreases |p| - i
  {
    if i < |p| && IsLower(p[i]) then 1 + LowerRun(p, i + 1) else 0
  }

  /** The length of the class `[:name:]` at position `i` of `p`, or 0 if there is none. */
  function ClassLength(p: string, i: nat): (n: nat)
    requires i <= |p|
    ensures i + n <= |p|
  {
    if i + 2 <= |p| && p[i] == '[' && p[i + 1] == ':' then
      var k := LowerRun(p, i + 2);
      if k >= 1 && i + k + 4 <= |p| && p[i + k + 2] == ':' && p[i + k + 3] == ']' then k + 4 else 0
    else 0
  }

  // ---------------------------------------------------------------------------------------------
  // Rule tables, tried in the listed order; each looks at position `i` of `p`

  /**
   * INITIAL: word, `*`, `?`, then `[` with an optional `!`/`^` and a lookahead for `]`. Only a
   * backslash that ends the input matches none of them; no rule pops or swaps, and a push enters
   * a group state.
   */
  function InitialRules(p: string, i: nat): (m: Option<Rule>)
    requires i < |p|
    ensures m.None? <==> i == |p| - 1 && p[i] == '\\'
    ensures m.Some? ==> m.value.action.Keep? || (m.value.action.Push? && m.value.action.pushed != Initial)
  {
    var w := WordLength(p, i);
    if w > 0 then Some(Rule(Word, w, Keep))
    else if p[i] == '*' then Some(Rule(WildcardMulti, 1, Keep))
    else if p[i] == '?' then Some(Rule(WildcardSingle, 1, Keep))
    else if p[i] == '[' then
      var n := if i + 1 < |p| && (p[i + 1] == '!' || p[i + 1] == '^') then 2 else 1;
      var next := if i + n < |p| && p[i + n] == ']' then InGroupSpecialFirst else InGroup;
      Some(Rule(if n == 2 then GroupBeginNegated else GroupBegin, n, Push(next)))
    else None
  }

  /**
   * IN_GROUP: `]` (pops), a range `X-Y` with `Y` not `]`, a class `[:name:]`, any character. Some
   * rule always matches, and only the group end leaves the state, by popping it.
   */
  function InGroupRules(p: string, i: nat): (m: Option<Rule>)
    requires i < |p|
    ensures m.Some?
    ensures m.value.kind == GroupEnd <==> p[i] == ']'
    ensures m.value.action == (if m.value.kind == GroupEnd then Pop else Keep)
  {
    if p[i] == ']' then Some(Rule(GroupEnd, 1, Pop))
    else if i + 3 <= |p| && p[i + 1] == '-' && p[i + 2] != ']' then Some(Rule(GroupRange, 3, Keep))
    else if ClassLength(p, i) > 0 then Some(Rule(GroupCharacterClass, ClassLength(p, i), Keep))
    else Some(Rule(GroupCharacter, 1, Keep))
  }

  /**
   * IN_GROUP_SPECIAL_FIRST: a range `]-Y` with `Y` not `]`, else `]` alone; both swap to IN_GROUP.
   * Only `]` matches, and it never ends the group.
   */
  function InGroupSpecialFirstRules(p: string, i: nat): (m: Option<Rule>)
    requires i < |p|
    ensures m.Some? <==> p[i] == ']'
    ensures m.Some? ==> m.value.action == Swap(InGroup) && m.value.kind != GroupEnd
  {
    if i + 3 <= |p| && p[i] == ']' && p[i + 1] == '-' && p[i + 2] != ']' then Some(Rule(GroupRange, 3, Swap(InGroup)))
    else if p[i] == ']' then Some(Rule(GroupCharacter, 1, Swap(InGroup)))
    else None
  }

  /** One transition: the first rule of `state` that matches at position `i` of `p`. */
  function Step(state: State, p: string, i: nat): (m: Option<Rule>)
    requires i < |p|
    ensures m.Some? ==> 1 <= m.value.length && i + m.value.length <= |p|
  {
    match state
    case Initial => InitialRules(p, i)
    case InGroup => InGroupRules(p, i)
    case InGroupSpecialFirst => InGroupSpecialFirstRules(p, i)
  }

  // ---------------------------------------------------------------------------------------------
  // The state stack

  /** The current state is the top of the stack. */
  function Top(stack: seq<State>): State
    requires |stack| > 0
  {
    stack[|stack| - 1]
  }

  /** The stacks a scan can reach: INITIAL, with at most one group state pushed on it. */
  predicate Reachable(stack: seq<State>) {
    1 <= |stack| <= 2 && stack[0] == Initial && (|stack| == 2 ==> stack[1] != Initial)
  }

  /** Whether any state is pushed above INITIAL. */
  predicate HasPushedStates(stack: seq<State>) {
    |stack| > 1
  }

  function Apply(stack: seq<State>, a: StackAction): seq<State>
    requires |stack| > 0
    requires a.Pop? ==> |stack| > 1
  {
    match a
    case Keep => stack
    case Push(st) => stack + [st]
    case Swap(st) => stack[..|stack| - 1] + [st]
    case Pop => stack[..|stack| - 1]
  }

  /** Every rule's stack action keeps the stack reachable: the stack never holds more than one pushed state. */
  lemma StepKeepsReachable(stack: seq<State>, p: string, i: nat)
    requires Reachable(stack) && i < |p|
    requires Step(Top(stack), p, i).Some?
    ensures Step(Top(stack), p, i).value.action.Pop? ==> HasPushedStates(stack)
    ensures Reachable(Apply(stack, Step(Top(stack), p, i).value.action))
  {
  }

  // ---------------------------------------------------------------------------------------------
  // The scan

  /**
   * The tokens of `p[i..]` when scanning starts there with `stack`. Every token covers at least one
   * character, and a position no rule matches lies in the scanned part of the input.
   */
  function Lex(p: string, i: nat, stack: seq<State>): (r: Result<seq<Token>, TokenizeError>)
    requires i <= |p| && Reachable(stack)
    ensures r.Success? ==> |r.value| <= |p| - i
    ensures r.Failure? && r.error.LexingFailed? ==> i <= r.error.offset < |p|
    decreases |p| - i
  {
    if i == |p| then
      if HasPushedStates(stack) then Failure(PrematureEnd) else Success([])
    else
      match Step(Top(stack), p, i)
      case None => Failure(LexingFailed(i))
      case Some(rule) =>
        StepKeepsReachable(stack, p, i);
        var tail := Lex(p, i + rule.length, Apply(stack, rule.action));
        if tail.Success? then Success([Token(rule.kind, p[i..i + rule.length])] + tail.value)
        else tail
  }

  /** The token sequence of a whole pattern: at most one token per character, and a lexing failure points into the pattern. */
  function Tokenize(p: string): (r: Result<seq<Token>, TokenizeError>)
    requires NoNewline(p)
    ensures r.Success? ==> |r.value| <= |p|
    ensures r.Failure? && r.error.LexingFailed? ==> r.error.offset < |p|
  {
    Lex(p, 0, [Initial])
  }

  /** `ts` followed by the outcome of the rest of a scan. */
  function Prepend(ts: seq<Token>, r: Result<seq<Token>, TokenizeError>): Result<seq<Token>, TokenizeError> {
    if r.Success? then Success(ts + r.value) else r
  }

  /** One unfolding of `Lex` at a position where input remains. */
  lemma LexUnfold(p: string, i: nat, stack: seq<State>)
    requires i < |p| && Reachable(stack)
    ensures Step(Top(stack), p, i).None? ==> Lex(p, i, stack) == Failure(LexingFailed(i))
    ensures Step(Top(stack), p, i).Some? ==>
      var rule := Step(Top(stack), p, i).value;
      && (rule.action.Pop? ==> HasPushedStates(stack))
      && Reachable(Apply(stack, rule.action))
      && Lex(p, i, stack)
         == Prepend([Token(rule.kind, p[i..i + rule.length])], Lex(p, i + rule.length, Apply(stack, rule.action)))
  {
    var m := Step(Top(stack), p, i);
    if m.Some? {
      StepKeepsReachable(stack, p, i);
      var rule := m.value;
      var tail := Lex(p, i + rule.length, Apply(stack, rule.action));
      assert Lex(p, i, stack) == Prepend([Token(rule.kind, p[i..i + rule.length])], tail);
    }
  }

  lemma PrependEmpty(r: Result<seq<Token>, TokenizeError>)
    ensures Prepend([], r) == r
  {
    if r.Success? {
      assert [] + r.value == r.value;
    }
  }

  lemma PrependAssoc(a: seq<Token>, b: seq<Token>, r: Result<seq<Token>, TokenizeError>)
    ensures Prepend(a, Prepend(b, r)) == Prepend(a + b, r)
  {
    if r.Success? {
      assert a + (b + r.value) == (a + b) + r.value;
    }
  }

  /** Recording the token of one matched rule keeps the outcome of the whole scan unchanged. */
  lemma ScanKeeps(p: string, i: nat, stack: seq<State>, tokens: seq<Token>, r: Rule)
    requires i < |p| && Reachable(stack) && Step(Top(stack), p, i) == Some(r)
    ensures r.action.Pop? ==> HasPushedStates(stack)
    ensures Reachable(Apply(stack, r.action))
    ensures Prepend(tokens, Lex(p, i, stack))
      == Prepend(tokens + [Token(r.kind, p[i..i + r.length])], Lex(p, i + r.length, Apply(stack, r.action)))
  {
    LexUnfold(p, i, stack);
    PrependAssoc(tokens, [Token(r.kind, p[i..i + r.length])], Lex(p, i + r.length, Apply(stack, r.action)));
  }

  /** A scan that meets no rule fails there, whatever was recorded before. */
  lemma ScanStuck(p: string, i: nat, stack: seq<State>, tokens: seq<Token>)
    requires i < |p| && Reachable(stack) && Step(Top(stack), p, i).None?
    ensures Prepend(tokens, Lex(p, i, stack)) == Failure(LexingFailed(i))
  {
    LexUnfold(p, i, stack);
  }

  /** At the end of the input the scan fails when a group is still open and otherwise yields what was recorded. */
  lemma ScanEnds(p: string, stack: seq<State>, tokens: seq<Token>)
    requires Reachable(stack)
    ensures Prepend(tokens, Lex(p, |p|, stack)) == if HasPushedStates(stack) then Failure(PrematureEnd) else Success(tokens)
  {
    assert tokens + [] == tokens;
  }

  /** The scanning loop: apply the first matching rule, record its token, update the stack. */
  method Parse(pattern: string) returns (r: Result<seq<Token>, TokenizeError>)
    requires NoNewline(pattern)
    ensures r == Tokenize(pattern)
  {
    var stack: seq<State> := [Initial];
    var tokens: seq<Token> := [];
    var i := 0;
    ghost var spec := Tokenize(pattern);
    PrependEmpty(spec);
    while i < |pattern|
      invariant i <= |pattern| && Reachable(stack)
      invariant spec == Prepend(tokens, Lex(pattern, i, stack))
      decreases |pattern| - i
    {
      var m := Step(Top(stack), pattern, i);
      if m.None? {
        ScanStuck(pattern, i, stack, tokens);
        return Failure(LexingFailed(i));
      }
      var rule := m.value;
      ScanKeeps(pattern, i, stack, tokens, rule);
      tokens, stack, i := tokens + [Token(rule.kind, pattern[i..i + rule.length])], Apply(stack, rule.action), i + rule.length;
    }
    ScanEnds(pattern, stack, tokens);
    if HasPushedStates(stack) {
      return Failure(PrematureEnd);
    }
    return Success(tokens);
  }
}
