/**
 Python text as the parser sees it: a string is a sequence of code points, lone
 surrogates included (which Dafny's own `char` excludes), so `chr(0xD83D)` has a value.
 */
module CodePoints {
  type Text = seq<int>

  const NEWLINE := 0x0A
  const SPACE := 0x20
  const DQUOTE := 0x22
  const SQUOTE := 0x27
  const STAR := 0x2A
  const PLUS := 0x2B
  const COMMA := 0x2C
  const MINUS := 0x2D
  const DOT := 0x2E
  const SLASH := 0x2F
  const COLON := 0x3A
  const LBRACKET := 0x5B
  const BACKSLASH := 0x5C
  const RBRACKET := 0x5D
  const BACKTICK := 0x60
  const LOWER_B := 0x62
  const LOWER_F := 0x66
  const LOWER_N := 0x6E
  const LOWER_R := 0x72
  const LOWER_T := 0x74
  const LOWER_U := 0x75
  const LBRACE := 0x7B
  const RBRACE := 0x7D

  // "true", "false", "null", "undefined"
  const TRUE_WORD: Text := [0x74, 0x72, 0x75, 0x65]
  const FALSE_WORD: Text := [0x66, 0x61, 0x6C, 0x73, 0x65]
  const NULL_WORD: Text := [0x6E, 0x75, 0x6C, 0x6C]
  const UNDEFINED_WORD: Text := [0x75, 0x6E, 0x64, 0x65, 0x66, 0x69, 0x6E, 0x65, 0x64]

  /** `str.isspace` on one code point (the full Unicode list). */
  predicate IsSpace(c: int) {
    || 0x09 <= c <= 0x0D || 0x1C <= c <= 0x20 || c == 0x85 || c == 0xA0 || c == 0x1680
    || 0x2000 <= c <= 0x200A || c == 0x2028 || c == 0x2029 || c == 0x202F || c == 0x205F || c == 0x3000
  }

  /** `str.isdigit`, ASCII only. */
  predicate IsDigit(c: int) {
    0x30 <= c <= 0x39
  }

  /** `str.isalnum`, ASCII only. */
  predicate IsAlnum(c: int) {
    IsDigit(c) || 0x41 <= c <= 0x5A || 0x61 <= c <= 0x7A
  }

  predicate IsHex(c: int) {
    IsDigit(c) || 0x41 <= c <= 0x46 || 0x61 <= c <= 0x66
  }

  function HexVal(c: int): (v: nat)
    requires IsHex(c)
    ensures v < 16
  {
    if IsDigit(c) then c - 0x30 else if c <= 0x46 then c - 0x41 + 10 else c - 0x61 + 10
  }

  /** `str.lower`, on ASCII. No other code point lowers to a letter of the four literal words. */
  function Lower(c: int): int {
    if 0x41 <= c <= 0x5A then c + 0x20 else c
  }

  /** What is left after the cursor moves `n` places, however few characters remain. */
  function Drop(t: Text, n: nat): (r: Text)
    ensures |r| == if n <= |t| then |t| - n else 0
  {
    if n <= |t| then t[n..] else []
  }

  predicate StartsWithChar(t: Text, c: int) {
    t != [] && t[0] == c
  }

  /** `str.strip` */
  function LStrip(t: Text): (r: Text)
    ensures |r| <= |t|
    ensures r != [] ==> !IsSpace(r[0])
  {
    if t != [] && IsSpace(t[0]) then LStrip(t[1..]) else t
  }

  function RStrip(t: Text): (r: Text)
    ensures r <= t
    ensures r != [] ==> !IsSpace(r[|r| - 1])
  {
    if t != [] && IsSpace(t[|t| - 1]) then RStrip(t[..|t| - 1]) else t
  }

  function Strip(t: Text): Text {
    RStrip(LStrip(t))
  }

  /** Number of leading digits. */
  function DigitRun(t: Text): (n: nat)
    ensures n <= |t|
    ensures forall i :: 0 <= i < n ==> IsDigit(t[i])
    ensures n < |t| ==> !IsDigit(t[n])
  {
    if t != [] && IsDigit(t[0]) then 1 + DigitRun(t[1..]) else 0
  }

  predicate AllDigits(t: Text) {
    forall i :: 0 <= i < |t| ==> IsDigit(t[i])
  }

  /** The number a run of decimal digits writes. */
  function DecVal(t: Text): (n: nat)
    requires AllDigits(t)
  {
    if t == [] then 0 else DecVal(t[..|t| - 1]) * 10 + (t[|t| - 1] - 0x30)
  }
}
