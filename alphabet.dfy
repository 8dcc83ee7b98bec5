/** The symbol alphabet shared by every flip of the board: the sixteen
    upper-case hexadecimal digits followed by the dash filler, and the
    number of flips on the board (an 8-4-4-4-12 identifier). */
module Alphabet {

  /** `charList`: the order in which a flip spins. */
  const CharList: seq<char> := [
    '0', '1', '2', '3', '4', '5', '6', '7', '8', '9',
    'A', 'B', 'C', 'D', 'E', 'F',
    '-'
  ]

  /** The number of symbols in the alphabet. */
  const Size: nat := 17

  /** `FLIP_COUNT`: the number of flips on the board. */
  const FlipCount: nat := 36

  /** The filler symbol, last in the alphabet. */
  const Dash: char := '-'

  /** The symbol at position `i` of the alphabet, computed from its code. */
  function SymbolChar(i: int): char
    requires 0 <= i < Size
  {
    if i < 10 then ('0' as int + i) as char
    else if i < 16 then ('A' as int + i - 10) as char
    else Dash
  }

  /** Membership in the alphabet, computed from the character's code. */
  predicate InAlphabet(c: char) {
    ('0' <= c <= '9') || ('A' <= c <= 'F') || c == Dash
  }

  /** The position of a character in the alphabet, or -1. */
  function IndexOfChar(c: char): (r: int)
    ensures -1 <= r < Size
    ensures r >= 0 ==> SymbolChar(r) == c
    ensures r == -1 <==> !InAlphabet(c)
  {
    if '0' <= c <= '9' then c as int - '0' as int
    else if 'A' <= c <= 'F' then c as int - 'A' as int + 10
    else if c == Dash then 16
    else -1
  }

  /** A one-character string that names a symbol of the alphabet. */
  predicate IsSymbol(s: string) {
    |s| == 1 && InAlphabet(s[0])
  }

  /** What a flip's value may be: the empty string before its first step,
      a symbol afterwards. */
  predicate IsValue(s: string) {
    s == "" || IsSymbol(s)
  }

  /** The one-character string of the symbol at position `i`. */
  function SymbolAt(i: int): (s: string)
    requires 0 <= i < Size
    ensures IsSymbol(s)
  {
    [SymbolChar(i)]
  }

  /** `charList.indexOf(s)`: the position of the string `s` in the alphabet,
      or -1 when `s` is not a symbol (the empty string included). */
  function IndexOf(s: string): (r: int)
    ensures -1 <= r < Size
    ensures r >= 0 ==> SymbolAt(r) == s
    ensures r == -1 <==> !IsSymbol(s)
  {
    if |s| == 1 then IndexOfChar(s[0]) else -1
  }

  /** The closed forms above describe `charList` exactly: its length, the
      symbol at each position, and membership. */
  lemma CharListIsAlphabet()
    ensures |CharList| == Size
    ensures forall i :: 0 <= i < Size ==> CharList[i] == SymbolChar(i)
    ensures forall c :: c in CharList <==> InAlphabet(c)
  {
    forall c | InAlphabet(c)
      ensures c in CharList
    {
      var i := IndexOfChar(c);
      assert CharList[i] == c;
    }
  }

  /** The symbol at one position of `charList`. */
  lemma CharListAt(i: int)
    requires 0 <= i < Size
    ensures |CharList| == Size && CharList[i] == SymbolChar(i)
  {
    CharListIsAlphabet();
  }

  /** `IndexOf` is `charList.indexOf`: it answers the first (and only)
      position holding the string's one character, and -1 exactly when no
      position holds it. */
  lemma IndexOfIsCharListIndexOf(s: string)
    ensures IndexOf(s) >= 0 ==> |s| == 1 && CharList[IndexOf(s)] == s[0]
    ensures IndexOf(s) >= 0 ==> forall j :: 0 <= j < IndexOf(s) ==> CharList[j] != s[0]
    ensures IndexOf(s) == -1 <==> !(|s| == 1 && s[0] in CharList)
  {
    CharListIsAlphabet();
  }

  /** `indexOf` inverts `SymbolAt`. */
  lemma IndexOfSymbolAt(i: int)
    requires 0 <= i < Size
    ensures IndexOf(SymbolAt(i)) == i
  {
  }

  /** Two symbols are equal exactly when their positions are. */
  lemma IndexOfInjective(s: string, u: string)
    requires IsSymbol(s) && IsSymbol(u)
    ensures s == u <==> IndexOf(s) == IndexOf(u)
  {
  }
}
