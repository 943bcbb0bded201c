/** Bytes, byte strings and the few ASCII codes the modelled C code compares against. */
module Bytes {

  type Byte = b: int | 0 <= b < 256
  type Text = seq<Byte>

  const NUL: Byte := 0
  const BELL: Byte := 7
  const BACKSPACE: Byte := 8
  const TAB: Byte := 9
  const LF: Byte := 10
  const CR: Byte := 13
  const SPACE: Byte := 32
  const QUOTE: Byte := 34      // "
  const HASH: Byte := 35       // #
  const DOLLAR: Byte := 36     // $
  const PERCENT: Byte := 37    // %
  const APOSTROPHE: Byte := 39 // '
  const LEFT_PAREN: Byte := 40 // (
  const STAR: Byte := 42       // *
  const PLUS: Byte := 43       // +
  const COMMA: Byte := 44      // ,
  const MINUS: Byte := 45      // -
  const ZERO: Byte := 48       // 0
  const COLON: Byte := 58      // :
  const EQUALS: Byte := 61     // =
  const GREATER: Byte := 62    // >
  const BACKSLASH: Byte := 92  // \
  const UNDERSCORE: Byte := 95 // _
  const LEFT_BRACE: Byte := 123
  const RIGHT_BRACE: Byte := 125
  const TILDE: Byte := 126

  const CRLF: Text := [CR, LF]

  const INT_MAX: nat := 0x7FFF_FFFF
  const TWO32: int := 0x1_0000_0000
  const TWO63: int := 0x8000_0000_0000_0000
  const TWO64: int := 0x1_0000_0000_0000_0000

  /** The hash slots of a cluster. */
  const SLOTS: nat := 16384

  datatype Option<+T> = None | Some(value: T)

  predicate IsDigit(b: Byte) { 48 <= b <= 57 }

  predicate AllDigits(s: Text) { forall i :: 0 <= i < |s| ==> IsDigit(s[i]) }

  /** The position of the first `b` at or after `from`, or the length when there is none. */
  function FirstIndex(s: Text, b: Byte, from: nat): (i: nat)
    requires from <= |s|
    ensures from <= i <= |s| && (i < |s| ==> s[i] == b) && b !in s[from..i]
    decreases |s| - from
  {
    if from == |s| || s[from] == b then from else FirstIndex(s, b, from + 1)
  }

  lemma SliceSnoc<T>(s: seq<T>, a: nat, b: nat)
    requires a <= b < |s|
    ensures s[a..b + 1] == s[a..b] + [s[b]]
  {
  }

  lemma Adjacent<T>(s: seq<T>, a: nat, b: nat, c: nat, x: seq<T>, y: seq<T>)
    requires a <= b <= c <= |s| && s[a..b] == x && s[b..c] == y
    ensures s[a..c] == x + y
  {
  }

  lemma Associative<T>(a: seq<T>, b: seq<T>, c: seq<T>)
    ensures (a + b) + c == a + (b + c)
  {
  }
}
