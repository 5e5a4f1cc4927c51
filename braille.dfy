/**
 * Grade-1 Braille encoder: the fixed character table, the lookup that
 * turns a character into its six-dot cell, the packing of a cell into a
 * code point of the Unicode Braille Patterns block, and the display label.
 *
 * Dot positions in a cell:   1 4
 *                            2 5
 *                            3 6
 * A cell is a sequence of six booleans, entry k standing for dot k + 1.
 */
module Braille {

  datatype Option<T> = None | Some(value: T)

  /** Lower-cases an ASCII letter; every other character is returned unchanged. */
  function ToLower(c: char): (r: char)
    ensures r != c <==> 'A' <= c <= 'Z'
    ensures 'A' <= c <= 'Z' ==> 'a' <= r <= 'z' && r as int - 'a' as int == c as int - 'A' as int
    ensures !('A' <= r <= 'Z')
  {
    if 'A' <= c <= 'Z' then (c as int + 32) as char else c
  }

  /** Upper-cases an ASCII letter; every other character is returned unchanged. */
  function ToUpper(c: char): (r: char)
    ensures r != c <==> 'a' <= c <= 'z'
    ensures 'a' <= c <= 'z' ==> 'A' <= r <= 'Z' && r as int - 'A' as int == c as int - 'a' as int
    ensures !('a' <= r <= 'z')
    ensures ToLower(r) == ToLower(c)
  {
    if 'a' <= c <= 'z' then (c as int - 32) as char else c
  }

  /** Upper-casing a lower-case letter and lower-casing an upper-case letter undo each other. */
  lemma CaseRoundTrip(c: char)
    ensures 'a' <= c <= 'z' ==> ToLower(ToUpper(c)) == c
    ensures 'A' <= c <= 'Z' ==> ToUpper(ToLower(c)) == c
    ensures forall i :: 0 <= i < 26 ==>
              ToLower("ABCDEFGHIJKLMNOPQRSTUVWXYZ"[i]) == "abcdefghijklmnopqrstuvwxyz"[i] &&
              ToUpper("abcdefghijklmnopqrstuvwxyz"[i]) == "ABCDEFGHIJKLMNOPQRSTUVWXYZ"[i]
  {
  }

  /** The empty cell: no dot raised. */
  const Blank: seq<bool> := [false, false, false, false, false, false]

  /** The lookup table: letters, digits (which reuse the cells of a-j),
      space and eight punctuation marks, all keyed in lower case.
      None stands for a key the table does not hold. */
  function BrailleMap(key: char): (r: Option<seq<bool>>)
    ensures r.Some? <==> InAlphabet(key)
    ensures r.Some? ==> |r.value| == 6
  {
    match key
    case 'a' => Some([true, false, false, false, false, false])
    case 'b' => Some([true, true, false, false, false, false])
    case 'c' => Some([true, false, false, true, false, false])
    case 'd' => Some([true, false, false, true, true, false])
    case 'e' => Some([true, false, false, false, true, false])
    case 'f' => Some([true, true, false, true, false, false])
    case 'g' => Some([true, true, false, true, true, false])
    case 'h' => Some([true, true, false, false, true, false])
    case 'i' => Some([false, true, false, true, false, false])
    case 'j' => Some([false, true, false, true, true, false])
    case 'k' => Some([true, false, true, false, false, false])
    case 'l' => Some([true, true, true, false, false, false])
    case 'm' => Some([true, false, true, true, false, false])
    case 'n' => Some([true, false, true, true, true, false])
    case 'o' => Some([true, false, true, false, true, false])
    case 'p' => Some([true, true, true, true, false, false])
    case 'q' => Some([true, true, true, true, true, false])
    case 'r' => Some([true, true, true, false, true, false])
    case 's' => Some([false, true, true, true, false, false])
    case 't' => Some([false, true, true, true, true, false])
    case 'u' => Some([true, false, true, false, false, true])
    case 'v' => Some([true, true, true, false, false, true])
    case 'w' => Some([false, true, false, true, true, true])
    case 'x' => Some([true, false, true, true, false, true])
    case 'y' => Some([true, false, true, true, true, true])
    case 'z' => Some([true, false, true, false, true, true])
    case '1' => Some([true, false, false, false, false, false])
    case '2' => Some([true, true, false, false, false, false])
    case '3' => Some([true, false, false, true, false, false])
    case '4' => Some([true, false, false, true, true, false])
    case '5' => Some([true, false, false, false, true, false])
    case '6' => Some([true, true, false, true, false, false])
    case '7' => Some([true, true, false, true, true, false])
    case '8' => Some([true, true, false, false, true, false])
    case '9' => Some([false, true, false, true, false, false])
    case '0' => Some([false, true, false, true, true, false])
    case ' ' => Some([false, false, false, false, false, false])
    case '.' => Some([false, false, true, false, true, false])
    case ',' => Some([false, true, false, false, false, false])
    case '!' => Some([false, true, true, false, true, false])
    case '?' => Some([false, true, true, false, false, true])
    case ';' => Some([false, true, true, false, false, false])
    case ':' => Some([false, true, false, false, true, false])
    case '-' => Some([false, false, true, false, false, true])
    case '\'' => Some([false, false, true, false, false, false])
    case _ => None
  }

  /** The keys of the table, spelled out: the recognised alphabet. */
  predicate InAlphabet(c: char)
  {
    'a' <= c <= 'z' || '0' <= c <= '9' ||
    c == ' ' || c == '.' || c == ',' || c == '!' || c == '?' || c == ';' || c == ':' || c == '-' || c == '\''
  }

  /** The cell of a character: looked up case-insensitively, blank when absent. */
  function CharToBraille(ch: char): (r: seq<bool>)
    ensures |r| == 6
    ensures BrailleMap(ToLower(ch)).None? ==> r == Blank
    ensures r == Blank <==> ToLower(ch) == ' ' || !InAlphabet(ToLower(ch))
  {
    match BrailleMap(ToLower(ch))
    case Some(cell) => cell
    case None => Blank
  }

  /** Powers of two. */
  function Pow2(k: nat): nat
  {
    if k == 0 then 1 else 2 * Pow2(k - 1)
  }

  /** The number whose bit k is set exactly when dots[k] holds
      (dot k + 1 is bit k, dot 1 the least significant). */
  function Pack(dots: seq<bool>): nat
  {
    if dots == [] then 0 else (if dots[0] then 1 else 0) + 2 * Pack(dots[1..])
  }

  /** The first len bits of n, least significant first. */
  function Unpack(n: nat, len: nat): (r: seq<bool>)
    ensures |r| == len
  {
    if len == 0 then [] else [n % 2 == 1] + Unpack(n / 2, len - 1)
  }

  /** Bit k of n: the last binary digit of n after k halvings. */
  predicate BitSet(n: nat, k: nat)
  {
    if k == 0 then n % 2 == 1 else BitSet(n / 2, k - 1)
  }

  lemma {:induction false} PackBound(dots: seq<bool>)
    ensures Pack(dots) < Pow2(|dots|)
  {
    if dots != [] {
      PackBound(dots[1..]);
    }
  }

  /** Unpacking a packed cell gives the cell back. */
  lemma {:induction false} UnpackPack(dots: seq<bool>)
    ensures Unpack(Pack(dots), |dots|) == dots
  {
    if dots != [] {
      var n := Pack(dots);
      var b := if dots[0] then 1 else 0;
      assert n == b + 2 * Pack(dots[1..]);
      assert n % 2 == b && n / 2 == Pack(dots[1..]);
      UnpackPack(dots[1..]);
    }
  }

  /** Packing the first len bits of a number below 2^len gives the number back,
      so cells of length len and numbers below 2^len correspond one to one. */
  lemma {:induction false} PackUnpack(n: nat, len: nat)
    requires n < Pow2(len)
    ensures Pack(Unpack(n, len)) == n
  {
    if len > 0 {
      var u := Unpack(n, len);
      assert u[1..] == Unpack(n / 2, len - 1);
      PackUnpack(n / 2, len - 1);
    }
  }

  /** Entry k of Unpack(n, len) is bit k of n. */
  lemma {:induction false} UnpackBit(n: nat, len: nat, k: nat)
    requires k < len
    ensures Unpack(n, len)[k] == BitSet(n, k)
  {
    if k > 0 {
      UnpackBit(n / 2, len - 1, k - 1);
    }
  }

  /** The code point of a character's cell, U+2800 plus the packed dots. */
  function Glyph(ch: char): int
  {
    0x2800 + Pack(CharToBraille(ch))
  }

  /** Every glyph lies in the six-dot part of the Braille Patterns block. */
  lemma GlyphInRange(ch: char)
    ensures 0x2800 <= Glyph(ch) <= 0x283F
  {
    PackBound(CharToBraille(ch));
  }

  /** Bit k of a packed cell is set exactly when entry k of the cell holds. */
  lemma PackBits(dots: seq<bool>)
    ensures forall k :: 0 <= k < |dots| ==> (BitSet(Pack(dots), k) <==> dots[k])
  {
    UnpackPack(dots);
    forall k | 0 <= k < |dots|
      ensures BitSet(Pack(dots), k) <==> dots[k]
    {
      UnpackBit(Pack(dots), |dots|, k);
    }
  }

  /** Decoding the glyph's offset gives back the character's cell. */
  lemma GlyphRoundTrip(ch: char)
    ensures Unpack(Glyph(ch) - 0x2800, 6) == CharToBraille(ch)
    ensures forall k :: 0 <= k < 6 ==> (BitSet(Glyph(ch) - 0x2800, k) <==> CharToBraille(ch)[k])
  {
    var dots := CharToBraille(ch);
    assert Glyph(ch) - 0x2800 == Pack(dots);
    UnpackPack(dots);
    PackBits(dots);
  }

  /** Two cells of the same length pack to the same number only when they are equal. */
  lemma PackInjective(p: seq<bool>, q: seq<bool>)
    requires |p| == |q|
    ensures Pack(p) == Pack(q) <==> p == q
  {
    UnpackPack(p);
    UnpackPack(q);
  }

  /** Two characters share a glyph exactly when they share a cell. */
  lemma GlyphInjective(c1: char, c2: char)
    ensures Glyph(c1) == Glyph(c2) <==> CharToBraille(c1) == CharToBraille(c2)
  {
    var p, q := CharToBraille(c1), CharToBraille(c2);
    PackInjective(p, q);
  }

  /** Exactly space and the characters outside the table give U+2800. */
  lemma GlyphBlank(ch: char)
    ensures Glyph(ch) == 0x2800 <==> ToLower(ch) == ' ' || !InAlphabet(ToLower(ch))
  {
    PackInjective(CharToBraille(ch), Blank);
  }

  /** The packed value of a six-dot cell, dot by dot. */
  lemma PackSix(d: seq<bool>)
    requires |d| == 6
    ensures Pack(d) == (if d[0] then 1 else 0) + (if d[1] then 2 else 0) + (if d[2] then 4 else 0)
                     + (if d[3] then 8 else 0) + (if d[4] then 16 else 0) + (if d[5] then 32 else 0)
  {
    assert d[5..][1..] == [];
    assert Pack(d[5..]) == (if d[5] then 1 else 0);
    assert d[4..][1..] == d[5..];
    assert Pack(d[4..]) == (if d[4] then 1 else 0) + 2 * Pack(d[5..]);
    assert d[3..][1..] == d[4..];
    assert Pack(d[3..]) == (if d[3] then 1 else 0) + 2 * Pack(d[4..]);
    assert d[2..][1..] == d[3..];
    assert Pack(d[2..]) == (if d[2] then 1 else 0) + 2 * Pack(d[3..]);
    assert d[1..][1..] == d[2..];
    assert Pack(d[1..]) == (if d[1] then 1 else 0) + 2 * Pack(d[2..]);
  }

  /** getBrailleUnicode: each raised dot k + 1 ORs bit k into the offset. */
  method GetBrailleUnicode(ch: char) returns (cp: int)
    ensures cp == Glyph(ch)
    ensures 0x2800 <= cp <= 0x283F
    ensures Unpack(cp - 0x2800, 6) == CharToBraille(ch)
  {
    var dots := CharToBraille(ch);
    var offset: bv32 := 0;
    if dots[0] { offset := offset | 1; }
    if dots[1] { offset := offset | 2; }
    if dots[2] { offset := offset | 4; }
    if dots[3] { offset := offset | 8; }
    if dots[4] { offset := offset | 16; }
    if dots[5] { offset := offset | 32; }
    cp := 0x2800 + offset as int;
    PackSix(dots);
    GlyphInRange(ch);
    GlyphRoundTrip(ch);
  }

  /** The display label: "Space" for the space character, the upper-case form otherwise. */
  function GetCharLabel(ch: char): (r: string)
    ensures ch == ' ' ==> r == "Space"
    ensures ch != ' ' ==> |r| == 1
    ensures ch != ' ' && !('a' <= ch <= 'z') ==> r == [ch]
    ensures 'a' <= ch <= 'z' ==> r == [(ch as int - 32) as char]
  {
    if ch == ' ' then "Space" else [ToUpper(ch)]
  }

  /** A non-space label names the same cell as the character it labels. */
  lemma LabelSameCell(ch: char)
    requires ch != ' '
    ensures CharToBraille(GetCharLabel(ch)[0]) == CharToBraille(ch)
  {
  }

  /** Upper and lower case of a letter share a cell. */
  lemma CaseInsensitive(ch: char)
    ensures CharToBraille(ToUpper(ch)) == CharToBraille(ch)
    ensures CharToBraille(ToLower(ch)) == CharToBraille(ch)
  {
  }

  /** Each of A-Z has the cell of the matching letter of a-z. */
  lemma UpperLettersShareCells()
    ensures forall i :: 0 <= i < 26 ==>
              CharToBraille("ABCDEFGHIJKLMNOPQRSTUVWXYZ"[i]) == CharToBraille("abcdefghijklmnopqrstuvwxyz"[i])
  {
    forall i | 0 <= i < 26
      ensures CharToBraille("ABCDEFGHIJKLMNOPQRSTUVWXYZ"[i]) == CharToBraille("abcdefghijklmnopqrstuvwxyz"[i])
    {
      var u := "ABCDEFGHIJKLMNOPQRSTUVWXYZ"[i];
      CaseRoundTrip(u);
      CaseInsensitive(u);
    }
  }

  /** The digits 1-9 and 0 have the cells of a-i and j. */
  lemma DigitsAreLetters()
    ensures forall i :: 0 <= i < 10 ==> CharToBraille("1234567890"[i]) == CharToBraille("abcdefghij"[i])
  {
  }

  /** Worked cases: a, space, Z, 9 and an unmapped character. */
  lemma Examples()
    ensures CharToBraille('a') == [true, false, false, false, false, false] && Glyph('a') == 0x2801
    ensures GetCharLabel('a') == "A"
    ensures Glyph(' ') == 0x2800 && GetCharLabel(' ') == "Space"
    ensures CharToBraille('Z') == [true, false, true, false, true, true] && Glyph('Z') == 0x2835
    ensures GetCharLabel('Z') == "Z"
    ensures CharToBraille('9') == CharToBraille('i') && Glyph('9') == 0x280A && GetCharLabel('7') == "7"
    ensures CharToBraille('@') == Blank && Glyph('@') == 0x2800 && GetCharLabel('@') == "@"
  {
    PackSix(CharToBraille('a'));
    PackSix(CharToBraille(' '));
    assert ToLower('Z') == 'z';
    PackSix(CharToBraille('Z'));
    PackSix(CharToBraille('9'));
    PackSix(CharToBraille('@'));
  }
}
