/** Bytes, the character constants of the HTTP scanners, and hexadecimal numerals. */
module Octets {

  type byte = b: int | 0 <= b < 256
  type Bytes = seq<byte>

  const CR: byte := 13
  const LF: byte := 10
  const SP: byte := 32
  const HT: byte := 9
  const DEL: byte := 127
  const COLON: byte := 58

  const SPACE: Bytes := [SP]
  const ENDLINE: Bytes := [CR, LF]
  const FIELD_SEP: Bytes := [COLON, SP]

  /** The longest chunk-size numeral: eight digits name every 32-bit size. */
  const CHUNK_SIZE_LENGTH: nat := 8

  lemma JoinSlices<T>(s: seq<T>, a: nat, b: nat, c: nat)
    requires a <= b <= c <= |s|
    ensures s[a..b] + s[b..c] == s[a..c]
  {
  }

  lemma Assoc<T>(a: seq<T>, b: seq<T>, c: seq<T>)
    ensures (a + b) + c == a + (b + c)
  {
  }

  /** The pieces put together again. */
  function Concat(pieces: seq<Bytes>): (s: Bytes) {
    if pieces == [] then [] else Concat(pieces[..|pieces| - 1]) + pieces[|pieces| - 1]
  }

  lemma ConcatMore(pieces: seq<Bytes>, piece: Bytes)
    ensures Concat(pieces + [piece]) == Concat(pieces) + piece
  {
    assert (pieces + [piece])[..|pieces|] == pieces;
  }

  lemma {:induction false} ConcatBoth(a: seq<Bytes>, b: seq<Bytes>)
    ensures Concat(a + b) == Concat(a) + Concat(b)
  {
    if b == [] {
      assert a + b == a;
    } else {
      var front := b[..|b| - 1];
      ConcatBoth(a, front);
      assert (a + b)[..|a + b| - 1] == a + front;
    }
  }

  lemma SplitAt<T>(s: seq<T>, i: nat)
    requires i <= |s|
    ensures s == s[..i] + s[i..]
    ensures i < |s| ==> s[..i + 1] == s[..i] + [s[i]]
  {
  }

  lemma ConcatUpTo(pieces: seq<Bytes>, i: nat)
    requires i < |pieces|
    ensures Concat(pieces[..i + 1]) == Concat(pieces[..i]) + pieces[i]
  {
    hide Concat;
    SplitAt(pieces, i);
    ConcatMore(pieces[..i], pieces[i]);
  }

  lemma ConcatSplit(pieces: seq<Bytes>, i: nat)
    requires i <= |pieces|
    ensures Concat(pieces) == Concat(pieces[..i]) + Concat(pieces[i..])
  {
    hide Concat;
    SplitAt(pieces, i);
    ConcatBoth(pieces[..i], pieces[i..]);
  }

  predicate IsDigit(b: byte) {
    48 <= b <= 57
  }

  predicate IsHex(b: byte) {
    IsDigit(b) || 97 <= b <= 102 || 65 <= b <= 70
  }

  function HexDigitValue(b: byte): (v: nat)
    requires IsHex(b)
    ensures v < 16
  {
    if 97 <= b <= 102 then b - 97 + 10
    else if 65 <= b <= 70 then b - 65 + 10
    else b - 48
  }

  /** The number a run of hexadecimal digits denotes, most significant digit first. */
  function HexValue(s: Bytes): (v: nat)
    requires forall i :: 0 <= i < |s| ==> IsHex(s[i])
  {
    if s == [] then 0 else 16 * HexValue(s[..|s| - 1]) + HexDigitValue(s[|s| - 1])
  }

  function HexDigit(v: nat): (b: byte)
    requires v < 16
    ensures IsHex(b) && HexDigitValue(b) == v
  {
    if v < 10 then 48 + v else 65 + v - 10
  }

  /** What `%X` prints: upper-case digits without leading zeros. */
  function Hex(n: nat): (s: Bytes)
    ensures |s| > 0
    ensures forall i :: 0 <= i < |s| ==> IsHex(s[i])
    ensures HexValue(s) == n
    ensures s[0] == 48 <==> n == 0
    ensures n < 16 ==> |s| == 1
  {
    if n < 16 then
      assert [HexDigit(n)][..0] == [];
      [HexDigit(n)]
    else
      var front := Hex(n / 16);
      var s := front + [HexDigit(n % 16)];
      assert s[..|s| - 1] == front;
      s
  }

  function Pow16(k: nat): (p: nat)
    ensures p > 0
  {
    if k == 0 then 1 else 16 * Pow16(k - 1)
  }

  /** A size of at most k digits prints in at most k digits, so the size line of a 32-bit
      chunk fits the ten-byte buffer reserved for it. */
  lemma {:induction false} HexLength(n: nat, k: nat)
    requires k > 0 && n < Pow16(k)
    ensures |Hex(n)| <= k
  {
    if n >= 16 {
      assert Pow16(1) == 16 * Pow16(0) == 16;
      HexLength(n / 16, k - 1);
    }
  }

  lemma Pow16Of8()
    ensures Pow16(8) == 0x1_0000_0000
  {
    assert Pow16(4) == 65536;
  }
}
