/**
 * Token kinds and tokens shared by the tokenizer and the builder (the `T_*` constants of the
 * tokenizer interface).
 */
module Tokens {

  /** The nine token kinds, plus any other identifier a caller may hand to the builder. */
  datatype Kind =
    | Word
    | GroupBegin
    | GroupBeginNegated
    | GroupCharacter
    | GroupRange
    | GroupCharacterClass
    | GroupEnd
    | WildcardMulti
    | WildcardSingle
    | Other(id: int)

  /** One lexed fragment: its kind and the exact text of the pattern it covers. */
  datatype Token = Token(kind: Kind, raw: string)

  /** A kind is one the tokenizer defines (and so one the builder can translate). */
  predicate IsDefined(k: Kind) {
    !k.Other?
  }

  /** A kind value as the source writes it: `Other` never reuses one of the nine identifiers. */
  predicate IsCanonical(k: Kind) {
    k.Other? ==> !(1 <= k.id <= 9)
  }

  /** The integer identifier of a kind (`T_WORD = 1` … `T_WILDCARD_SINGLE = 9`). */
  function Identifier(k: Kind): (n: int)
    ensures IsCanonical(k) ==> (IsDefined(k) <==> 1 <= n <= 9)
  {
    match k
    case Word => 1
    case GroupBegin => 2
    case GroupBeginNegated => 3
    case GroupCharacter => 4
    case GroupRange => 5
    case GroupCharacterClass => 6
    case GroupEnd => 7
    case WildcardMulti => 8
    case WildcardSingle => 9
    case Other(id) => id
  }

  /** The kind an integer identifier denotes. */
  function KindOf(n: int): (k: Kind)
    ensures Identifier(k) == n
    ensures IsCanonical(k)
    ensures IsDefined(k) <==> 1 <= n <= 9
  {
    if n == 1 then Word
    else if n == 2 then GroupBegin
    else if n == 3 then GroupBeginNegated
    else if n == 4 then GroupCharacter
    else if n == 5 then GroupRange
    else if n == 6 then GroupCharacterClass
    else if n == 7 then GroupEnd
    else if n == 8 then WildcardMulti
    else if n == 9 then WildcardSingle
    else Other(n)
  }

  /** Identifiers are a faithful encoding of canonical kinds: decoding undoes encoding. */
  lemma KindOfIdentifier(k: Kind)
    requires IsCanonical(k)
    ensures KindOf(Identifier(k)) == k
  {
  }
}
