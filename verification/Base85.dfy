/**
 Base-85 coding of binary patches (git-2.15.0/base85.c): four bytes for five characters, in 32-bit
 unsigned arithmetic.
 */
module Base85 {

  type Byte = b: int | 0 <= b < 256 witness 0

  const U32: int := 0x1_0000_0000

  // ---------------------------------------------------------------------------------------------
  // The alphabet: 0-9 A-Z a-z ! #-& (-+ - ;-@ ^-` {-~

  /** en85: the code of digit i, by the runs of characters that follow each other in ASCII. */
  function En85(i: nat): (c: Byte)
    requires i < 85
  {
    if i < 10 then 48 + i else if i < 36 then 55 + i else if i < 62 then 61 + i else
    if i == 62 then 33 else if i < 67 then i - 28 else if i < 71 then i - 27 else if i == 71 then 45 else
    if i < 78 then i - 13 else if i < 81 then i + 16 else i + 42
  }

  /** The digit of a code, or -1 if it is not in the alphabet. */
  function Digit(c: Byte): (i: int)
    ensures -1 <= i < 85
  {
    if 48 <= c <= 57 then c - 48 else if 65 <= c <= 90 then c - 55 else if 97 <= c <= 122 then c - 61 else
    if c == 33 then 62 else if 35 <= c <= 38 then c + 28 else if 40 <= c <= 43 then c + 27 else if c == 45 then 71 else
    if 59 <= c <= 64 then c + 13 else if 94 <= c <= 96 then c - 16 else if 123 <= c <= 126 then c - 42 else -1
  }

  /** The table and the digits undo each other. */
  lemma Alphabet(c: Byte, i: nat)
    requires i < 85
    ensures Digit(En85(i)) == i && (Digit(c) >= 0 ==> En85(Digit(c)) == c)
    ensures Digit(0) == -1
  {
  }

  /** The 85 characters, ten to a row. */
  function AlphabetRow(r: nat): string
    requires r < 9
  {
    if r == 0 then "0123456789" else
    if r == 1 then "ABCDEFGHIJ" else
    if r == 2 then "KLMNOPQRST" else
    if r == 3 then "UVWXYZabcd" else
    if r == 4 then "efghijklmn" else
    if r == 5 then "opqrstuvwx" else
    if r == 6 then "yz!#$%&()*" else
    if r == 7 then "+-;<=>?@^_" else "`{|}~"
  }

  lemma LowRows(i: nat)
    requires i < 40
    ensures |AlphabetRow(i / 10)| == 10 && En85(i) == AlphabetRow(i / 10)[i % 10] as int
  {
  }

  lemma HighRows(i: nat)
    requires 40 <= i < 85
    ensures |AlphabetRow(i / 10)| == (if i < 80 then 10 else 5)
    ensures En85(i) == AlphabetRow(i / 10)[i % 10] as int
  {
  }

  /** The code of every digit is that of its character. */
  lemma AlphabetIs(i: nat)
    requires i < 85
    ensures |AlphabetRow(i / 10)| == (if i < 80 then 10 else 5)
    ensures En85(i) == AlphabetRow(i / 10)[i % 10] as int
  {
    hide En85, AlphabetRow;
    if i < 40 { LowRows(i); } else { HighRows(i); }
  }

  // ---------------------------------------------------------------------------------------------
  // Groups

  /** The number that five digits stand for. */
  function Value(a: nat, b: nat, c: nat, d: nat, e: nat): nat {
    (((a * 85 + b) * 85 + c) * 85 + d) * 85 + e
  }

  /** A group of five characters of the alphabet, and a number that fits 32 bits. */
  predicate Acceptable(g: seq<Byte>) {
    && |g| == 5 && (forall k :: 0 <= k < 5 ==> Digit(g[k]) >= 0)
    && Value(Digit(g[0]), Digit(g[1]), Digit(g[2]), Digit(g[3]), Digit(g[4])) < U32
  }

  function GroupValue(g: seq<Byte>): (v: nat)
    requires Acceptable(g)
    ensures v < U32
  {
    Value(Digit(g[0]), Digit(g[1]), Digit(g[2]), Digit(g[3]), Digit(g[4]))
  }

  /** The five characters of a number. */
  function Group(v: nat): (g: seq<Byte>)
    requires v < U32
    ensures |g| == 5
  {
    [En85(v / 85 / 85 / 85 / 85 % 85), En85(v / 85 / 85 / 85 % 85), En85(v / 85 / 85 % 85), En85(v / 85 % 85),
      En85(v % 85)]
  }

  /** The four bytes of a number, the highest first. */
  function Bytes(v: nat): (b: seq<Byte>)
    requires v < U32
    ensures |b| == 4
  {
    [v / 256 / 256 / 256, v / 256 / 256 % 256, v / 256 % 256, v % 256]
  }

  /** Byte i, or zero after the end. */
  function ByteAt(b: seq<Byte>, i: nat): Byte {
    if i < |b| then b[i] else 0
  }

  /** The number of up to four bytes, the missing ones being zero. */
  function Number(b: seq<Byte>): (v: nat)
    requires |b| <= 4
    ensures v < U32
  {
    Horner(ByteAt(b, 0), ByteAt(b, 1), ByteAt(b, 2), ByteAt(b, 3))
  }

  function Horner(a: int, b: int, c: int, d: int): int {
    ((a * 256 + b) * 256 + c) * 256 + d
  }

  /** Of a group of bytes, and of characters, the first one counts most. */
  lemma Places(b: seq<Byte>, v: nat)
    requires |b| == 4 && v < U32
    ensures Number(b) == 0x100_0000 * (b[0] as int) + 0x1_0000 * (b[1] as int) + 0x100 * (b[2] as int) + b[3] as int
    ensures var g := Group(v);
      v == 52200625 * Digit(g[0]) + 614125 * Digit(g[1]) + 7225 * Digit(g[2]) + 85 * Digit(g[3]) + Digit(g[4])
  {
    hide En85, Digit;
    forall i: nat | i < 85 ensures Digit(En85(i)) == i { Alphabet(0, i); }
    DivideOut(v);
  }

  lemma DivMod256(q: nat, r: nat)
    requires r < 256
    ensures (q * 256 + r) / 256 == q && (q * 256 + r) % 256 == r
  {
  }

  lemma HornerBytes(a: Byte, b: Byte, c: Byte, d: Byte)
    ensures 0 <= Horner(a, b, c, d) < U32 && Bytes(Horner(a, b, c, d)) == [a, b, c, d]
  {
    var x, y, z: int := a, a, a;
    DivMod256((x * 256 + b) * 256 + c, d);
    DivMod256(x * 256 + b, c);
    DivMod256(x, b);
  }

  lemma BytesOfNumber(b: seq<Byte>)
    requires |b| <= 4
    ensures Bytes(Number(b))[..|b|] == b
  {
    hide Bytes, Horner;
    HornerBytes(ByteAt(b, 0), ByteAt(b, 1), ByteAt(b, 2), ByteAt(b, 3));
  }

  lemma NumberOfBytes(v: nat)
    requires v < U32
    ensures Number(Bytes(v)) == v
  {
    var a, b := v / 256, v / 256 / 256;
    assert v == a * 256 + v % 256 && a == b * 256 + a % 256 && b == b / 256 * 256 + b % 256;
  }

  /** The digits of a number give it back. */
  lemma DivideOut(v: nat)
    requires v < U32
    ensures v / 85 / 85 / 85 / 85 < 85
    ensures Value(v / 85 / 85 / 85 / 85 % 85, v / 85 / 85 / 85 % 85, v / 85 / 85 % 85, v / 85 % 85, v % 85) == v
  {
    var a, b, c, d := v / 85, v / 85 / 85, v / 85 / 85 / 85, v / 85 / 85 / 85 / 85;
    QuotRem(v);
    QuotRem(a);
    QuotRem(b);
    QuotRem(c);
    assert a <= 50529027;
    assert b <= 594459;
    assert c <= 6993;
    assert d <= 82 && d % 85 == d;
  }

  lemma QuotRem(x: nat)
    ensures x == x / 85 * 85 + x % 85 && 0 <= x % 85 < 85
  {
  }

  /** What is encoded is acceptable, and stands for the number. */
  lemma GroupDecodes(v: nat)
    requires v < U32
    ensures Acceptable(Group(v)) && GroupValue(Group(v)) == v
  {
    hide Digit, En85, Value;
    DivideOut(v);
    var g := Group(v);
    Alphabet(0, v / 85 / 85 / 85 / 85 % 85);
    Alphabet(0, v / 85 / 85 / 85 % 85);
    Alphabet(0, v / 85 / 85 % 85);
    Alphabet(0, v / 85 % 85);
    Alphabet(0, v % 85);
  }

  /** Digits are found again by dividing. */
  lemma DigitsAgain(a: nat, b: nat, c: nat, d: nat, e: nat)
    requires a < 85 && b < 85 && c < 85 && d < 85 && e < 85
    ensures var v := Value(a, b, c, d, e);
      v % 85 == e && v / 85 % 85 == d && v / 85 / 85 % 85 == c && v / 85 / 85 / 85 % 85 == b
        && v / 85 / 85 / 85 / 85 % 85 == a
  {
    DivMod85(((a * 85 + b) * 85 + c) * 85 + d, e);
    DivMod85((a * 85 + b) * 85 + c, d);
    DivMod85(a * 85 + b, c);
    DivMod85(a, b);
  }

  lemma DivMod85(q: nat, r: nat)
    requires r < 85
    ensures (q * 85 + r) / 85 == q && (q * 85 + r) % 85 == r
  {
  }

  /** An acceptable group is what its number encodes to. */
  lemma GroupEncodes(g: seq<Byte>)
    requires Acceptable(g)
    ensures Group(GroupValue(g)) == g
  {
    hide Digit, En85, Value;
    DigitsAgain(Digit(g[0]), Digit(g[1]), Digit(g[2]), Digit(g[3]), Digit(g[4]));
    Alphabet(g[0], 0);
    Alphabet(g[1], 0);
    Alphabet(g[2], 0);
    Alphabet(g[3], 0);
    Alphabet(g[4], 0);
  }

  // ---------------------------------------------------------------------------------------------
  // Whole buffers

  function Least(a: nat, b: nat): nat { if a < b then a else b }

  function Encoded(data: seq<Byte>): seq<Byte> {
    if data == [] then [] else
    Group(Number(data[..Least(4, |data|)])) + Encoded(data[Least(4, |data|)..])
  }

  /** Whole groups are coded one after the other. */
  lemma {:induction false} EncodedConcat(a: seq<Byte>, b: seq<Byte>)
    requires |a| % 4 == 0
    ensures Encoded(a + b) == Encoded(a) + Encoded(b)
  {
    hide Group, Number;
    if a == [] {
      assert a + b == b;
    } else {
      assert (a + b)[..4] == a[..4] && (a + b)[4..] == a[4..] + b;
      EncodedConcat(a[4..], b);
    }
  }

  datatype Result = Result(ok: bool, out: seq<Byte>)

  /** The bytes that len asks for, group by group, up to a group that is not acceptable. */
  function Decoded(buffer: seq<Byte>, len: nat): Result {
    if len == 0 then Result(true, []) else
    if |buffer| < 5 || !Acceptable(buffer[..5]) then Result(false, []) else
    var n := Least(4, len);
    var rest := Decoded(buffer[5..], len - n);
    Result(rest.ok, Bytes(GroupValue(buffer[..5]))[..n] + rest.out)
  }

  /** Decoding takes back encoding, for every length, with a last group of less than four bytes too. */
  lemma {:induction false} DecodeEncode(data: seq<Byte>, tail: seq<Byte>)
    ensures Decoded(Encoded(data) + tail, |data|) == Result(true, data)
  {
    hide Group, GroupValue, Number, Bytes, Acceptable;
    if data != [] {
      var n := Least(4, |data|);
      var v := Number(data[..n]);
      var buffer := Encoded(data) + tail;
      GroupDecodes(v);
      BytesOfNumber(data[..n]);
      DecodeEncode(data[n..], tail);
      assert buffer == Group(v) + (Encoded(data[n..]) + tail);
      assert buffer[..5] == Group(v) && buffer[5..] == Encoded(data[n..]) + tail;
      assert data == data[..n] + data[n..];
    }
  }

  /** Encoding takes back decoding of whole groups. */
  lemma {:induction false} EncodeDecode(buffer: seq<Byte>, groups: nat)
    requires |buffer| == 5 * groups && Decoded(buffer, 4 * groups).ok
    ensures |Decoded(buffer, 4 * groups).out| == 4 * groups && Encoded(Decoded(buffer, 4 * groups).out) == buffer
  {
    hide Group, GroupValue, Number, Bytes, Acceptable;
    if groups > 0 {
      EncodeDecode(buffer[5..], groups - 1);
      var v := GroupValue(buffer[..5]);
      var rest := Decoded(buffer[5..], 4 * groups - 4).out;
      var out := Decoded(buffer, 4 * groups).out;
      assert Bytes(v)[..4] == Bytes(v);
      assert out == Bytes(v) + rest && out[..4] == Bytes(v) && out[4..] == rest;
      NumberOfBytes(v);
      GroupEncodes(buffer[..5]);
      assert buffer == buffer[..5] + buffer[5..];
    }
  }

  /** Success needs every group to be acceptable, and no more. */
  lemma {:induction false} OkIsAcceptable(buffer: seq<Byte>, len: nat)
    ensures Decoded(buffer, len).ok <==>
      (len + 3) / 4 * 5 <= |buffer| && forall k: nat :: k < (len + 3) / 4 ==> Acceptable(GroupAt(buffer, k))
    decreases len
  {
    hide Acceptable, GroupValue, Bytes, GroupAt;
    if len > 0 && |buffer| >= 5 {
      var n := Least(4, len);
      var groups := (len + 3) / 4;
      OkIsAcceptable(buffer[5..], len - n);
      assert groups == (len - n + 3) / 4 + 1;
      Shifted(buffer, 0);
      if Decoded(buffer, len).ok {
        forall k: nat | k < groups ensures Acceptable(GroupAt(buffer, k)) {
          if k > 0 { Shifted(buffer, k - 1); }
        }
      }
      if forall k: nat :: k < groups ==> Acceptable(GroupAt(buffer, k)) {
        forall k: nat | k < groups - 1 ensures Acceptable(GroupAt(buffer[5..], k)) { Shifted(buffer, k); }
      }
    }
  }

  lemma Shifted(buffer: seq<Byte>, k: nat)
    requires |buffer| >= 5
    ensures GroupAt(buffer, k + 1) == GroupAt(buffer[5..], k) && GroupAt(buffer, 0) == buffer[..5]
  {
    var i := 5 * k;
    assert 5 * (k + 1) == i + 5;
    if i + 5 <= |buffer[5..]| { assert buffer[5..][i..i + 5] == buffer[i + 5..i + 5 + 5]; }
  }

  /** Group k of a buffer. */
  function GroupAt(buffer: seq<Byte>, k: nat): seq<Byte> {
    if 5 * k + 5 <= |buffer| then buffer[5 * k..5 * k + 5] else []
  }

  // ---------------------------------------------------------------------------------------------
  // Steps of the code

  /** The number that some digits stand for. */
  function Partial(digits: seq<nat>): nat {
    if digits == [] then 0 else Partial(digits[..|digits| - 1]) * 85 + digits[|digits| - 1]
  }

  lemma NoDigits()
    ensures Partial([]) == 0
  {
  }

  lemma PartialMore(digits: seq<nat>, de: nat)
    requires |digits| < 4 && de < 85 && forall k :: 0 <= k < |digits| ==> digits[k] < 85
    ensures Partial(digits + [de]) == Partial(digits) * 85 + de < U32
  {
    assert (digits + [de])[..|digits|] == digits;
    PartialBound(digits);
  }

  lemma {:induction false} PartialBound(digits: seq<nat>)
    requires |digits| < 4 && forall k :: 0 <= k < |digits| ==> digits[k] < 85
    ensures Partial(digits) <
      if |digits| == 0 then 1 else if |digits| == 1 then 85 else if |digits| == 2 then 7225 else 614125
  {
    if digits != [] { PartialBound(digits[..|digits| - 1]); }
  }

  /** Five digits: the number, and what the two comparisons say. */
  lemma Five(buffer: seq<Byte>, at: nat, digits: seq<nat>, de: nat)
    requires |digits| == 4 && de < 85 && at + 4 < |buffer| && de == Digit(buffer[at + 4])
    requires forall k :: 0 <= k < 4 ==> digits[k] < 85 && Digit(buffer[at + k]) == digits[k]
    ensures var acc, g := Partial(digits), buffer[at..at + 5];
      && (Acceptable(g) <==> acc * 85 + de < U32)
      && (Acceptable(g) ==> GroupValue(g) == acc * 85 + de)
      && (acc * 85 + de < U32 <==> acc <= 0xffff_ffff / 85 && acc * 85 % U32 <= 0xffff_ffff - de)
      && (acc <= 0xffff_ffff / 85 ==> acc * 85 % U32 == acc * 85)
  {
    hide Digit, Partial, Value;
    var g := buffer[at..at + 5];
    assert forall k :: 0 <= k < 4 ==> g[k] == buffer[at + k];
    assert g[4] == buffer[at + 4];
    FourDigits(digits, de);
    Checks(Partial(digits), de);
  }

  lemma FourDigits(digits: seq<nat>, de: nat)
    requires |digits| == 4
    ensures Partial(digits) * 85 + de == Value(digits[0], digits[1], digits[2], digits[3], de)
  {
    var three, two, one := digits[..3], digits[..2], digits[..1];
    assert three[..2] == two && two[..1] == one && one[..0] == [];
    assert Partial(one) == digits[0];
    assert Partial(two) == digits[0] * 85 + digits[1];
    assert Partial(three) == (digits[0] * 85 + digits[1]) * 85 + digits[2];
  }

  /** The two comparisons of decode_85 together say that the number fits 32 bits. */
  lemma Checks(acc: nat, de: nat)
    requires de < 85
    ensures acc * 85 + de < U32 <==> acc <= 0xffff_ffff / 85 && acc * 85 % U32 <= 0xffff_ffff - de
    ensures acc <= 0xffff_ffff / 85 ==> acc * 85 % U32 == acc * 85
  {
  }

  lemma Refused(buffer: seq<Byte>, at: nat, pos: nat)
    requires at <= pos < at + 5 && pos <= |buffer| && (pos < |buffer| ==> Digit(buffer[pos]) < 0)
    ensures !(at + 5 <= |buffer| && Acceptable(buffer[at..at + 5]))
  {
    hide Digit;
    if at + 5 <= |buffer| { assert buffer[at..at + 5][pos - at] == buffer[pos]; }
  }

  /** A rotation by 8 bits: (acc << 8) | (acc >> 24). */
  function Rot(x: nat): int {
    x * 256 % U32 + x / 0x100_0000
  }

  /** What a rotation by 8 bits does to four bytes. */
  lemma Rotate(a: Byte, b: Byte, c: Byte, d: Byte)
    ensures var x := Horner(a, b, c, d);
      0 <= x < U32 && Rot(x) == Horner(b, c, d, a) && Rot(x) % 256 == a
  {
    var x, y: int := a, b;
    RotateInt(a, (y * 256 + c) * 256 + d);
    assert Horner(a, b, c, d) == x * 0x100_0000 + ((y * 256 + c) * 256 + d);
    DivMod256((y * 256 + c) * 256 + d, a);
  }

  lemma RotateInt(a: nat, rest: nat)
    requires a < 256 && rest < 0x100_0000
    ensures (a * 0x100_0000 + rest) * 256 % U32 == rest * 256 && (a * 0x100_0000 + rest) / 0x100_0000 == a
  {
    assert (a * 0x100_0000 + rest) * 256 == a * U32 + rest * 256;
  }

  lemma InRange(a: Byte, b: Byte, c: Byte, d: Byte)
    ensures 0 <= Horner(a, b, c, d) < U32
  {
  }

  lemma NumberIs(b: seq<Byte>)
    requires |b| == 4
    ensures Number(b) == Horner(b[0], b[1], b[2], b[3])
  {
  }

  ghost function Rotated(v: nat, k: nat): int
    requires v < U32 && k <= 4
  {
    var b := Bytes(v);
    if k == 0 || k == 4 then Horner(b[0], b[1], b[2], b[3]) else
    if k == 1 then Horner(b[1], b[2], b[3], b[0]) else
    if k == 2 then Horner(b[2], b[3], b[0], b[1]) else Horner(b[3], b[0], b[1], b[2])
  }

  lemma RotateStep(v: nat, k: nat)
    requires v < U32 && k < 4
    ensures Rotated(v, 0) == v
    ensures var x := Rotated(v, k);
      0 <= x < U32 && 0 <= Rot(x) < U32 && Rot(x) == Rotated(v, k + 1) && Rotated(v, k + 1) % 256 == Bytes(v)[k]
  {
    hide Bytes, Horner, Rot, Number;
    var b := Bytes(v);
    InRange(b[0], b[1], b[2], b[3]);
    InRange(b[1], b[2], b[3], b[0]);
    InRange(b[2], b[3], b[0], b[1]);
    InRange(b[3], b[0], b[1], b[2]);
    NumberIs(b);
    NumberOfBytes(v);
    if k == 0 {
      Rotate(b[0], b[1], b[2], b[3]);
    } else if k == 1 {
      Rotate(b[1], b[2], b[3], b[0]);
    } else if k == 2 {
      Rotate(b[2], b[3], b[0], b[1]);
    } else {
      Rotate(b[3], b[0], b[1], b[2]);
    }
  }

  function Div85(v: nat, n: nat): nat {
    if n == 0 then v else Div85(v, n - 1) / 85
  }

  lemma Divided(v: nat)
    requires v < U32
    ensures Group(v)
      == [En85(Div85(v, 4) % 85), En85(Div85(v, 3) % 85), En85(Div85(v, 2) % 85), En85(Div85(v, 1) % 85),
        En85(Div85(v, 0) % 85)]
  {
    hide En85;
    assert Div85(v, 1) == v / 85;
    assert Div85(v, 2) == v / 85 / 85;
    assert Div85(v, 3) == v / 85 / 85 / 85;
    assert Div85(v, 4) == v / 85 / 85 / 85 / 85;
  }

  /** The weight of byte n of a group: where the shift puts it. */
  function Power(n: nat): nat
    requires n < 4
  {
    if n == 0 then 0x100_0000 else if n == 1 then 0x1_0000 else if n == 2 then 256 else 1
  }

  lemma NumberMore(b: seq<Byte>, ch: Byte)
    requires |b| < 4
    ensures Number(b + [ch]) == Number(b) + ch * Power(|b|)
  {
  }

  lemma NumberNil()
    ensures Number([]) == 0
  {
  }

  /** The first group of what is left. */
  lemma FrontOf(data: seq<Byte>, start: nat, pos: nat)
    requires start < |data| && start <= pos <= |data| && pos == Least(start + 4, |data|)
    ensures pos - start <= 4 && Encoded(data[start..]) == Group(Number(data[start..pos])) + Encoded(data[pos..])
  {
    hide Number, Group;
    assert data[start..][..Least(4, |data| - start)] == data[start..pos];
    assert data[start..][Least(4, |data| - start)..] == data[pos..];
  }

  lemma GroupFront(buffer: seq<Byte>, pos: nat)
    requires pos <= |buffer|
    ensures pos + 5 <= |buffer| ==>
      buffer[pos..][..5] == buffer[pos..pos + 5] && buffer[pos..][5..] == buffer[pos + 5..]
  {
  }

  // ---------------------------------------------------------------------------------------------
  // The code

  class Coder {
    const de85: array<int>

    /** The table is blank, or complete. */
    ghost predicate Valid()
      reads de85
    {
      && de85.Length == 256
      && ((forall c :: 0 <= c < 256 ==> de85[c] == 0) || Prepared())
    }

    ghost predicate Prepared()
      reads de85
    {
      de85.Length == 256 && forall c :: 0 <= c < 256 ==> de85[c] == Digit(c) + 1
    }

    constructor ()
      ensures Valid() && fresh(de85)
    {
      de85 := new int[256](_ => 0);
    }

    /** prep_base85: fills the table once; the entry of Z, code 90, tells whether that was done. */
    method Prep()
      requires Valid()
      modifies de85
      ensures Prepared()
    {
      if de85[90] != 0 {
        return;
      }
      assert Digit(90) == 35;
      var i := 0;
      while i < 85
        invariant 0 <= i <= 85
        invariant forall c :: 0 <= c < 256 ==> de85[c] == if Digit(c) < i then Digit(c) + 1 else 0
      {
        var ch := En85(i);
        Alphabet(ch, i);
        forall c | 0 <= c < 256 && Digit(c) == i ensures c == ch { Alphabet(c, 0); }
        de85[ch] := i + 1;
        i := i + 1;
      }
    }

    /** The next character of a string that ends with a zero byte. */
    function CharAt(buffer: seq<Byte>, at: nat): Byte
      requires at <= |buffer|
    {
      if at < |buffer| then buffer[at] else 0
    }

    /**
     One group: five characters, with the sum kept in 32 bits.  It is refused exactly if a character is not
     in the alphabet or the number does not fit 32 bits; the check comes before anything wraps around.
     */
    method DecodeGroup(buffer: seq<Byte>, at: nat) returns (ok: bool, acc: nat)
      requires Prepared() && at <= |buffer|
      ensures ok <==> at + 5 <= |buffer| && Acceptable(buffer[at..at + 5])
      ensures ok ==> acc == GroupValue(buffer[at..at + 5])
    {
      hide Digit, Acceptable, GroupValue, Partial;
      acc := 0;
      var pos := at;
      var cnt := 4;
      NoDigits();
      ghost var digits: seq<nat> := [];
      Alphabet(0, 0);
      while cnt > 0
        invariant 0 <= cnt <= 4 && pos == at + (4 - cnt) <= |buffer| && |digits| == 4 - cnt
        invariant forall k :: 0 <= k < |digits| ==> digits[k] < 85 && Digit(buffer[at + k]) == digits[k]
        invariant acc == Partial(digits)
      {
        var ch := CharAt(buffer, pos);
        var de := de85[ch] - 1;
        if de < 0 {
          Refused(buffer, at, pos);
          return false, acc;
        }
        pos := pos + 1;
        PartialMore(digits, de);
        acc := (acc * 85 + de) % U32;
        digits := digits + [de];
        cnt := cnt - 1;
      }
      var last := CharAt(buffer, pos);
      var de := de85[last] - 1;
      if de < 0 {
        Refused(buffer, at, pos);
        return false, acc;
      }
      assert digits == [digits[0], digits[1], digits[2], digits[3]];
      Five(buffer, at, digits, de);
      if 0xffff_ffff / 85 < acc {
        return false, acc;
      }
      acc := acc * 85 % U32;
      if 0xffff_ffff - de < acc {
        return false, acc;
      }
      acc := (acc + de) % U32;
      ok := true;
    }

    /** The bytes of a group, brought to the low end one after the other by rotation. */
    method EmitBytes(v: nat, cnt: nat) returns (out: seq<Byte>)
      requires v < U32 && 1 <= cnt <= 4
      ensures out == Bytes(v)[..cnt]
    {
      hide Bytes, Rotated;
      RotateStep(v, 0);
      out := [];
      var acc := v;
      var left := cnt;
      while left > 0
        invariant 0 <= left <= cnt && acc < U32 && out == Bytes(v)[..cnt - left] && acc == Rotated(v, cnt - left)
      {
        RotateStep(v, cnt - left);
        assert Bytes(v)[..cnt - left + 1] == Bytes(v)[..cnt - left] + [Bytes(v)[cnt - left]];
        acc := acc * 256 % U32 + acc / 0x100_0000;
        out := out + [acc % 256];
        left := left - 1;
      }
    }

    /** decode_85: the status, and what was written to dst. */
    method Decode85(buffer: seq<Byte>, len: nat) returns (status: int, dst: seq<Byte>)
      requires Valid()
      modifies de85
      ensures Prepared()
      ensures status == (if Decoded(buffer, len).ok then 0 else -1) && dst == Decoded(buffer, len).out
    {
      hide Acceptable, GroupValue, Bytes, Digit;
      Prep();
      dst := [];
      var pos, left: nat := 0, len;
      assert buffer[0..] == buffer;
      while left > 0
        invariant pos <= |buffer| && left <= len && Prepared()
        invariant Decoded(buffer, len)
          == Result(Decoded(buffer[pos..], left).ok, dst + Decoded(buffer[pos..], left).out)
      {
        var ok, acc := DecodeGroup(buffer, pos);
        GroupFront(buffer, pos);
        if !ok {
          return -1, dst;
        }
        var cnt := if left < 4 then left else 4;
        var bytes := EmitBytes(acc, cnt);
        assert dst + (bytes + Decoded(buffer[pos + 5..], left - cnt).out)
          == dst + bytes + Decoded(buffer[pos + 5..], left - cnt).out;
        dst := dst + bytes;
        pos, left := pos + 5, left - cnt;
      }
      status := 0;
    }

    /** The loop that fills five characters from the last to the first. */
    method EncodeGroup(v: nat) returns (g: seq<Byte>)
      requires v < U32
      ensures g == Group(v)
    {
      var buf := new Byte[5](_ => 0);
      var acc := v;
      var cnt := 4;
      while cnt >= 0
        invariant -1 <= cnt <= 4 && acc == Div85(v, 4 - cnt)
        invariant forall j :: cnt < j < 5 ==> buf[j] == En85(Div85(v, 4 - j) % 85)
      {
        var val := acc % 85;
        acc := acc / 85;
        buf[cnt] := En85(val);
        cnt := cnt - 1;
      }
      g := buf[..];
      Divided(v);
    }

    /** encode_85, up to the zero byte at the end. */
    method Encode85(data: seq<Byte>) returns (buf: seq<Byte>)
      ensures buf == Encoded(data)
    {
      hide Number, Group;
      buf := [];
      var pos := 0;
      assert data[0..] == data;
      while pos < |data|
        invariant 0 <= pos <= |data| && buf + Encoded(data[pos..]) == Encoded(data)
        decreases |data| - pos
      {
        var acc := 0;
        var cnt := 24;
        ghost var start := pos;
        var n := 0;
        NumberNil();
        assert data[start..pos] == [];
        while cnt >= 0 && pos < |data|
          invariant cnt == 24 - 8 * n && 0 <= n <= 4 && pos == start + n <= |data| && (n == 0 ==> pos < |data|)
          invariant acc == Number(data[start..pos])
        {
          var ch := data[pos];
          NumberMore(data[start..pos], ch);
          assert data[start..pos] + [ch] == data[start..pos + 1];
          acc := acc + ch * Power(n);
          pos := pos + 1;
          n := n + 1;
          cnt := cnt - 8;
        }
        FrontOf(data, start, pos);
        var g := EncodeGroup(acc);
        assert buf + (g + Encoded(data[pos..])) == (buf + g) + Encoded(data[pos..]);
        buf := buf + g;
      }
      assert data[pos..] == [];
    }
  }
}
