/** From the 32 stored bits to a key digit: bit packing, the conversion to an
    unsigned character and the switch that the three infrared drivers share. */
module KeyCode {

  const BITS := 32

  /** Key codes of the digits 0..9, as the byte a remote control sends. */
  const KEY_TABLE: seq<nat> := [180, 152, 140, 189, 136, 156, 173, 161, 165, 169]

  function Pow2(n: nat): (p: nat)
    ensures p >= 1
  {
    if n == 0 then 1 else 2 * Pow2(n - 1)
  }

  /** The number a bit string denotes, most significant bit first. */
  function Value(bits: seq<int>): int {
    if bits == [] then 0 else 2 * Value(bits[..|bits| - 1]) + bits[|bits| - 1]
  }

  /** The bit string of width n that denotes v modulo 2^n. */
  function BitString(v: nat, n: nat): (bits: seq<int>)
    ensures |bits| == n
  {
    if n == 0 then [] else BitString(v / 2, n - 1) + [v % 2]
  }

  ghost predicate IsBinary(bits: seq<int>) {
    forall i :: 0 <= i < |bits| ==> bits[i] == 0 || bits[i] == 1
  }

  /** '0' + v or 'A' + v - 10, cut to an unsigned 8-bit character. */
  function CharCode(v: int): int {
    (if v < 10 then 48 + v else 65 + v - 10) % 256
  }

  /** The switch over the character code; other codes keep the previous output. */
  function SwitchDigit(code: int, output: int): int {
    match code
    case 235 => 0
    case 207 => 1
    case 195 => 2
    case 244 => 3
    case 191 => 4
    case 211 => 5
    case 228 => 6
    case 216 => 7
    case 220 => 8
    case 224 => 9
    case _ => output
  }

  /** Reference decoding: the position of the byte in a table of keys, counted from `from`. */
  function Lookup(table: seq<nat>, from: int, byte: int, previous: int): int {
    if table == [] then previous
    else if table[0] == byte then from
    else Lookup(table[1..], from + 1, byte, previous)
  }

  function KeyDigit(byte: int, previous: int): int {
    Lookup(KEY_TABLE, 0, byte, previous)
  }

  lemma OneBitMore(bits: seq<int>, k: nat)
    requires k < |bits|
    ensures Value(bits[..k + 1]) == 2 * Value(bits[..k]) + bits[k]
  {
    assert bits[..k + 1][..k] == bits[..k];
  }

  /** Most significant bit first. */
  lemma ByteValue(bits: seq<int>)
    requires |bits| == 8
    ensures Value(bits) == 128 * bits[0] + 64 * bits[1] + 32 * bits[2] + 16 * bits[3]
                         + 8 * bits[4] + 4 * bits[5] + 2 * bits[6] + bits[7]
  {
    forall k | 0 <= k < 8 ensures Value(bits[..k + 1]) == 2 * Value(bits[..k]) + bits[k] {
      OneBitMore(bits, k);
    }
    assert bits[..8] == bits && Value(bits[..0]) == 0;
  }

  lemma {:induction false} ValueOfBitString(v: nat, n: nat)
    requires v < Pow2(n)
    ensures IsBinary(BitString(v, n)) && Value(BitString(v, n)) == v
  {
    if n == 0 {
    } else {
      var front, bit := BitString(v / 2, n - 1), v % 2;
      ValueOfBitString(v / 2, n - 1);
      assert BitString(v, n) == front + [bit] && (front + [bit])[..n - 1] == front;
    }
  }

  lemma {:induction false} BitStringOfValue(bits: seq<int>)
    requires IsBinary(bits)
    ensures 0 <= Value(bits) < Pow2(|bits|)
    ensures BitString(Value(bits), |bits|) == bits
  {
    if bits == [] {
    } else {
      var front := bits[..|bits| - 1];
      BitStringOfValue(front);
      assert bits == front + [bits[|bits| - 1]];
    }
  }

  /** The code of a number below 16 is its hexadecimal digit; larger ones go on from there and wrap. */
  lemma HexadecimalCode(v: nat)
    ensures v < 16 ==> CharCode(v) == "0123456789ABCDEF"[v] as int
    ensures v >= 10 ==> 0 <= CharCode(v) < 256 && (v + 55 - CharCode(v)) % 256 == 0
  {
  }

  /** The character code identifies a byte, except that 0..6 share theirs with 249..255. */
  lemma CharCodeCollisions(a: int, b: int)
    requires 0 <= a < b < 256
    ensures CharCode(a) == CharCode(b) <==> a <= 6 && b == a + 249
  {
    assert a < 10 ==> CharCode(a) == 48 + a;
    assert 10 <= a < 201 ==> CharCode(a) == 55 + a;
    assert 201 <= a ==> CharCode(a) == a - 201;
    assert b < 10 ==> CharCode(b) == 48 + b;
    assert 10 <= b < 201 ==> CharCode(b) == 55 + b;
    assert 201 <= b ==> CharCode(b) == b - 201;
  }

  lemma {:induction false} LookupPosition(table: seq<nat>, from: int, byte: int, previous: int)
    requires forall i, j :: 0 <= i < j < |table| ==> table[i] != table[j]
    ensures forall d :: 0 <= d < |table| && table[d] == byte ==> Lookup(table, from, byte, previous) == from + d
    ensures byte !in table ==> Lookup(table, from, byte, previous) == previous
  {
    if table == [] {
    } else if table[0] != byte {
      LookupPosition(table[1..], from + 1, byte, previous);
      forall d | 0 <= d < |table| && table[d] == byte
        ensures Lookup(table, from, byte, previous) == from + d
      {
        assert table[1..][d - 1] == byte;
      }
    }
  }

  /** The switch labels are calibrated to the table: the wrapped code of a byte selects the
      digit whose key it is, and bytes outside the table keep the previous output. */
  lemma SwitchIsTableLookup(byte: int, previous: int)
    requires 0 <= byte < 256
    ensures SwitchDigit(CharCode(byte), previous) == KeyDigit(byte, previous)
  {
    LookupPosition(KEY_TABLE, 0, byte, previous);
    if byte in KEY_TABLE {
      var d :| 0 <= d < |KEY_TABLE| && KEY_TABLE[d] == byte;
    } else {
      assert forall d :: 0 <= d < |KEY_TABLE| ==> KEY_TABLE[d] != byte;
      assert KEY_TABLE[0] == 180 && KEY_TABLE[1] == 152 && KEY_TABLE[2] == 140 && KEY_TABLE[3] == 189;
      assert KEY_TABLE[4] == 136 && KEY_TABLE[5] == 156 && KEY_TABLE[6] == 173 && KEY_TABLE[7] == 161;
      assert KEY_TABLE[8] == 165 && KEY_TABLE[9] == 169;
    }
  }

  /** The key of a digit decodes to the digit. */
  lemma DigitOfKey(d: int, previous: int)
    requires 0 <= d < 10
    ensures KeyDigit(Value(BitString(KEY_TABLE[d], 8)), previous) == d
  {
    assert Pow2(8) == 256;
    ValueOfBitString(KEY_TABLE[d], 8);
    LookupPosition(KEY_TABLE, 0, KEY_TABLE[d], previous);
  }

  /** A byte selects digit d, whatever was shown before, exactly when it is d's key. */
  lemma DigitExactlyWhenKey(byte: int, d: int)
    requires 0 <= byte < 256 && 0 <= d < 10
    ensures (forall previous :: SwitchDigit(CharCode(byte), previous) == d) <==> byte == KEY_TABLE[d]
  {
    SwitchIsTableLookup(byte, d);
    SwitchIsTableLookup(byte, d + 1);
    LookupPosition(KEY_TABLE, 0, byte, d);
    LookupPosition(KEY_TABLE, 0, byte, d + 1);
    forall previous ensures byte == KEY_TABLE[d] ==> SwitchDigit(CharCode(byte), previous) == d {
      SwitchIsTableLookup(byte, previous);
      LookupPosition(KEY_TABLE, 0, byte, previous);
    }
    if byte != KEY_TABLE[d] {
      assert SwitchDigit(CharCode(byte), d) != d || SwitchDigit(CharCode(byte), d + 1) != d;
    }
  }

  lemma Packed(bits: seq<int>, bit: int, n: nat)
    ensures Value(bits + [bit]) * Pow2(n) == Value(bits) * Pow2(n + 1) + bit * Pow2(n)
  {
    assert (bits + [bit])[..|bits|] == bits;
    var v, p := Value(bits), Pow2(n);
    assert (2 * v + bit) * p == v * (2 * p) + bit * p;
  }

  /** Bit packing: what accumulates is the value of bits 16..23, most significant first. */
  method ConvertBinaryToHex(binary: array<int>) returns (code: int)
    requires binary.Length == BITS
    ensures code == CharCode(Value(binary[16..24]))
  {
    var hexValue := 0;
    var i := 16;
    while i < 24
      invariant 16 <= i <= 24
      invariant hexValue == Value(binary[16..i]) * Pow2(24 - i)
    {
      assert binary[16..i + 1] == binary[16..i] + [binary[i]];
      Packed(binary[16..i], binary[i], 23 - i);
      hexValue := hexValue + binary[i] * Pow2(7 - (i - 16));
      i := i + 1;
    }
    if hexValue < 10 {
      return (48 + hexValue) % 256;
    } else {
      return (65 + hexValue - 10) % 256;
    }
  }
}
