/** What numerals, letters and marks are, by literal tables. The scanners compute with character
    codes; the lemmas here say which numbers and texts those computations recognise. */
module Numerals {
  import opened Octets

  const LOWER: string := "0123456789abcdef"
  const UPPER: string := "0123456789ABCDEF"

  datatype Radix = Ten | Sixteen

  /** The places of n, most significant first, without leading zeros. */
  function Places(n: nat, r: Radix): (p: seq<nat>)
    ensures p != [] && forall i :: 0 <= i < |p| ==> p[i] < if r == Ten then 10 else 16
  {
    match r
    case Ten => if n < 10 then [n] else Places(n / 10, r) + [n % 10]
    case Sixteen => if n < 16 then [n] else Places(n / 16, r) + [n % 16]
  }

  function Zeros(k: nat): (z: seq<nat>)
    ensures |z| == k && forall i :: 0 <= i < k ==> z[i] == 0
  {
    seq(k, _ => 0)
  }

  /** Every byte is the digit for its place, in either case. */
  predicate Written(s: Bytes, places: seq<nat>)
    requires forall i :: 0 <= i < |places| ==> places[i] < 16
  {
    |s| == |places| && forall i :: 0 <= i < |s| ==>
      s[i] == LOWER[places[i]] as int || s[i] == UPPER[places[i]] as int
  }

  /** s is a numeral of n, leading zeros allowed. */
  ghost predicate Numeral(s: Bytes, n: nat, r: Radix) {
    exists k: nat :: Written(s, Zeros(k) + Places(n, r))
  }

  /** The number its places stand for. */
  function ValueOf(places: seq<nat>, r: Radix): (n: nat) {
    if places == [] then 0
    else
      var front := ValueOf(places[..|places| - 1], r);
      (if r == Ten then 10 * front else 16 * front) + places[|places| - 1]
  }

  lemma {:induction false} PlacesValue(n: nat, r: Radix)
    ensures ValueOf(Places(n, r), r) == n
  {
    var base, p := if r == Ten then 10 else 16, Places(n, r);
    if n >= base {
      PlacesValue(if r == Ten then n / 10 else n / 16, r);
      assert p[..|p| - 1] == Places(if r == Ten then n / 10 else n / 16, r);
    } else {
      assert p[..0] == [];
    }
  }

  lemma {:induction false} ZerosAhead(k: nat, p: seq<nat>, r: Radix)
    ensures ValueOf(Zeros(k) + p, r) == ValueOf(p, r)
  {
    var s := Zeros(k) + p;
    if p != [] {
      ZerosAhead(k, p[..|p| - 1], r);
      assert s[..|s| - 1] == Zeros(k) + p[..|p| - 1];
    } else if k > 0 {
      ZerosAhead(k - 1, p, r);
      assert s[..|s| - 1] == Zeros(k - 1) + p;
    }
  }

  lemma HexDigitTable(b: byte, v: nat)
    requires v < 16
    ensures b == LOWER[v] as int || b == UPPER[v] as int <==> IsHex(b) && HexDigitValue(b) == v
  {
  }

  lemma DecimalDigitTable(b: byte, v: nat)
    requires v < 10
    ensures b == LOWER[v] as int || b == UPPER[v] as int <==> IsDigit(b) && b - 48 == v
  {
  }

  lemma {:induction false} WrittenValue(s: Bytes, places: seq<nat>)
    requires (forall i :: 0 <= i < |places| ==> places[i] < 16) && Written(s, places)
    ensures (forall i :: 0 <= i < |s| ==> IsHex(s[i])) && HexValue(s) == ValueOf(places, Sixteen)
  {
    if s != [] {
      var last := |s| - 1;
      WrittenValue(s[..last], places[..last]);
      HexDigitTable(s[last], places[last]);
    }
  }

  lemma WrittenMore(s: Bytes, places: seq<nat>, b: byte, d: nat)
    requires (forall i :: 0 <= i < |places| ==> places[i] < 16) && Written(s, places)
    requires d < 16 && IsHex(b) && HexDigitValue(b) == d
    ensures Written(s + [b], places + [d])
  {
    HexDigitTable(b, d);
  }

  /** One more digit: a further place, or the first one that is not zero. */
  lemma MorePlaces(k: nat, v: nat, d: nat) returns (k': nat)
    requires d < 16
    ensures Zeros(k') + Places(16 * v + d, Sixteen) == (Zeros(k) + Places(v, Sixteen)) + [d]
  {
    if v == 0 {
      k' := k + 1;
    } else {
      k' := k;
      assert (16 * v + d) / 16 == v && (16 * v + d) % 16 == d;
    }
  }

  /** The places a run of hexadecimal digits spells. */
  lemma {:induction false} DigitsAreWritten(s: Bytes) returns (k: nat)
    requires s != [] && forall i :: 0 <= i < |s| ==> IsHex(s[i])
    ensures Written(s, Zeros(k) + Places(HexValue(s), Sixteen))
  {
    hide Written, Places, Zeros, HexDigitValue;
    if |s| == 1 {
      OneDigit(s[0]);
      assert s == [s[0]];
      k := 0;
    } else {
      var front, b := s[..|s| - 1], s[|s| - 1];
      k := DigitsAreWritten(front);
      var places := Zeros(k) + Places(HexValue(front), Sixteen);
      k := MorePlaces(k, HexValue(front), HexDigitValue(b));
      WrittenMore(front, places, b, HexDigitValue(b));
      assert s == front + [b];
    }
  }

  lemma OneDigit(b: byte)
    requires IsHex(b)
    ensures HexValue([b]) == HexDigitValue(b) && Written([b], Zeros(0) + Places(HexValue([b]), Sixteen))
  {
    HexDigitTable(b, HexDigitValue(b));
    assert [b][..0] == [];
  }

  /** A run of hexadecimal digits has the value n if and only if it is a numeral of n. */
  lemma HexValueIff(s: Bytes, n: nat)
    requires s != []
    ensures Numeral(s, n, Sixteen) <==> (forall i :: 0 <= i < |s| ==> IsHex(s[i])) && HexValue(s) == n
  {
    if Numeral(s, n, Sixteen) {
      var k: nat :| Written(s, Zeros(k) + Places(n, Sixteen));
      WrittenValue(s, Zeros(k) + Places(n, Sixteen));
      ZerosAhead(k, Places(n, Sixteen), Sixteen);
      PlacesValue(n, Sixteen);
    }
    if (forall i :: 0 <= i < |s| ==> IsHex(s[i])) && HexValue(s) == n {
      var k := DigitsAreWritten(s);
    }
  }

  /** What `%X` prints: the places of n in upper-case digits, and nothing before them. */
  lemma {:induction false} HexIsUpper(n: nat)
    ensures |Hex(n)| == |Places(n, Sixteen)|
    ensures forall i :: 0 <= i < |Hex(n)| ==> Hex(n)[i] == UPPER[Places(n, Sixteen)[i]] as int
  {
    if n >= 16 {
      HexIsUpper(n / 16);
      assert HexDigit(n % 16) == UPPER[n % 16] as int;
    } else {
      assert HexDigit(n) == UPPER[n] as int;
    }
  }

  /** Any places are those of their value, with zeros ahead. */
  lemma {:induction false} PlacesOfValue(p: seq<nat>) returns (k: nat)
    requires p != [] && forall i :: 0 <= i < |p| ==> p[i] < 10
    ensures p == Zeros(k) + Places(ValueOf(p, Ten), Ten)
  {
    var front, d := p[..|p| - 1], p[|p| - 1];
    if front == [] {
      k := 0;
    } else {
      k := PlacesOfValue(front);
      var v := ValueOf(front, Ten);
      if v == 0 {
        k := k + 1;
        assert front == Zeros(k) && p == Zeros(k) + [d];
      } else {
        assert (10 * v + d) / 10 == v && (10 * v + d) % 10 == d;
        assert Places(10 * v + d, Ten) == Places(v, Ten) + [d];
      }
    }
  }

  function DigitOf(b: byte): (v: nat)
    requires IsDigit(b)
  {
    b - 48
  }

  /** The places a run of decimal digits spells. */
  function DigitsOf(s: Bytes): (p: seq<nat>)
    requires forall i :: 0 <= i < |s| ==> IsDigit(s[i])
    ensures |p| == |s| && forall i :: 0 <= i < |p| ==> p[i] == s[i] as int - 48 < 10
  {
    seq(|s|, i requires 0 <= i < |s| && IsDigit(s[i]) => DigitOf(s[i]))
  }

  lemma DigitsWritten(s: Bytes, p: seq<nat>)
    requires forall i :: 0 <= i < |p| ==> p[i] < 10
    ensures Written(s, p) <==> (forall i :: 0 <= i < |s| ==> IsDigit(s[i])) && DigitsOf(s) == p
  {
    if |s| == |p| {
      forall i | 0 <= i < |s|
        ensures s[i] == LOWER[p[i]] as int || s[i] == UPPER[p[i]] as int <==> IsDigit(s[i]) && s[i] - 48 == p[i]
      {
        DecimalDigitTable(s[i], p[i]);
      }
    }
  }

  /** A run of decimal digits has the value n if and only if it is a numeral of n. */
  lemma DecimalValueIff(s: Bytes, n: nat)
    requires s != []
    ensures Numeral(s, n, Ten) <==> (forall i :: 0 <= i < |s| ==> IsDigit(s[i])) && ValueOf(DigitsOf(s), Ten) == n
  {
    hide Written, Places, ValueOf, DigitsOf;
    if Numeral(s, n, Ten) {
      var k: nat :| Written(s, Zeros(k) + Places(n, Ten));
      DigitsWritten(s, Zeros(k) + Places(n, Ten));
      ZerosAhead(k, Places(n, Ten), Ten);
      PlacesValue(n, Ten);
    }
    if (forall i :: 0 <= i < |s| ==> IsDigit(s[i])) && ValueOf(DigitsOf(s), Ten) == n {
      var k := PlacesOfValue(DigitsOf(s));
      DigitsWritten(s, Zeros(k) + Places(n, Ten));
    }
  }

  // ------------------------------------------------------------------ letters and marks

  /** The bytes of a text of ASCII characters. */
  function Ascii(text: string): (s: Bytes)
    requires forall i :: 0 <= i < |text| ==> text[i] as int < 128
  {
    seq(|text|, i requires 0 <= i < |text| => text[i] as int)
  }

  predicate IsAscii(text: string) {
    forall i :: 0 <= i < |text| ==> text[i] as int < 128
  }

  const SMALL: string := "abcdefghijklmnopqrstuvwxyz"
  const CAPITAL: string := "ABCDEFGHIJKLMNOPQRSTUVWXYZ"

  /** The i-th letter in both cases. */
  function Letters(i: nat): (s: set<byte>)
    requires i < |SMALL|
  {
    {SMALL[i] as int, CAPITAL[i] as int}
  }

  /** b is a spelling of c: the same character, or the same letter in the other case. */
  ghost predicate SameLetter(b: byte, c: byte) {
    b == c || exists i :: 0 <= i < |SMALL| && b in Letters(i) && c in Letters(i)
  }

  /** s spells the text, in whatever case its letters are. */
  ghost predicate Spells(s: Bytes, text: Bytes) {
    |s| == |text| && forall i :: 0 <= i < |s| ==> SameLetter(s[i], text[i])
  }
}
