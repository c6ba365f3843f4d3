/** Values shared by every layer: bytes, MongoDB ObjectIDs and their hex form,
    the Go zero time, and Go's truncating integer division. */
module Primitive {

  type Byte = x: int | 0 <= x < 256

  /** A 12-byte MongoDB ObjectID. */
  type ObjectID = s: seq<Byte> | |s| == 12 witness [0, 0, 0, 0, 0, 0, 0, 0, 0, 0, 0, 0]

  const NilObjectID: ObjectID := [0, 0, 0, 0, 0, 0, 0, 0, 0, 0, 0, 0]

  predicate IsZero(id: ObjectID) {
    id == NilObjectID
  }

  datatype Option<+T> = None | Some(value: T)

  // ---------------------------------------------------------------------------
  // Hex encoding (ObjectID.Hex) and decoding (ObjectIDFromHex)
  // ---------------------------------------------------------------------------

  predicate IsLowerHexDigit(c: char) {
    ('0' <= c <= '9') || ('a' <= c <= 'f')
  }

  predicate IsHexDigit(c: char) {
    IsLowerHexDigit(c) || ('A' <= c <= 'F')
  }

  function HexDigit(n: int): (c: char)
    requires 0 <= n < 16
    ensures IsLowerHexDigit(c)
  {
    if n < 10 then (('0' as int) + n) as char else (('a' as int) + n - 10) as char
  }

  function HexValue(c: char): (n: int)
    requires IsHexDigit(c)
    ensures 0 <= n < 16
  {
    if '0' <= c <= '9' then (c as int) - ('0' as int)
    else if 'a' <= c <= 'f' then (c as int) - ('a' as int) + 10
    else (c as int) - ('A' as int) + 10
  }

  function HexBytes(b: seq<Byte>): (s: string)
    ensures |s| == 2 * |b|
    ensures forall i :: 0 <= i < |s| ==> IsLowerHexDigit(s[i])
  {
    if b == [] then "" else [HexDigit(b[0] / 16), HexDigit(b[0] % 16)] + HexBytes(b[1..])
  }

  /** ObjectID.Hex: 24 lower-case hex digits, two per byte, high nibble first. */
  function Hex(id: ObjectID): (s: string)
    ensures |s| == 24
    ensures forall i :: 0 <= i < |s| ==> IsLowerHexDigit(s[i])
  {
    HexBytes(id)
  }

  function DecodeHex(s: string): (b: seq<Byte>)
    requires |s| % 2 == 0
    requires forall i :: 0 <= i < |s| ==> IsHexDigit(s[i])
    ensures |b| == |s| / 2
  {
    if s == [] then [] else [HexValue(s[0]) * 16 + HexValue(s[1])] + DecodeHex(s[2..])
  }

  /** primitive.ObjectIDFromHex: exactly 24 characters, each a hex digit of either case. */
  function ObjectIDFromHex(s: string): (r: Option<ObjectID>)
    ensures r.Some? <==> |s| == 24 && forall i :: 0 <= i < |s| ==> IsHexDigit(s[i])
  {
    if |s| == 24 && forall i :: 0 <= i < |s| ==> IsHexDigit(s[i]) then Some(DecodeHex(s)) else None
  }

  predicate IsObjectIDHex(s: string) {
    ObjectIDFromHex(s).Some?
  }

  lemma {:induction false} DecodeHexBytes(b: seq<Byte>)
    ensures DecodeHex(HexBytes(b)) == b
  {
    if b != [] {
      var s := HexBytes(b);
      assert s[2..] == HexBytes(b[1..]);
      DecodeHexBytes(b[1..]);
      assert HexValue(HexDigit(b[0] / 16)) == b[0] / 16;
      assert HexValue(HexDigit(b[0] % 16)) == b[0] % 16;
    }
  }

  /** Decoding the hex form of an ObjectID gives the ObjectID back. */
  lemma FromHexOfHex(id: ObjectID)
    ensures ObjectIDFromHex(Hex(id)) == Some(id)
  {
    DecodeHexBytes(id);
  }

  /** Hex is injective, so distinct ObjectIDs are stored under distinct keys. */
  lemma HexInjective(a: ObjectID, b: ObjectID)
    requires Hex(a) == Hex(b)
    ensures a == b
  {
    FromHexOfHex(a);
    FromHexOfHex(b);
  }

  lemma {:induction false} HexBytesOfDecode(s: string)
    requires |s| % 2 == 0
    requires forall i :: 0 <= i < |s| ==> IsLowerHexDigit(s[i])
    ensures HexBytes(DecodeHex(s)) == s
  {
    if s != [] {
      var hi, lo := HexValue(s[0]), HexValue(s[1]);
      assert (hi * 16 + lo) / 16 == hi && (hi * 16 + lo) % 16 == lo;
      assert HexDigit(hi) == s[0] && HexDigit(lo) == s[1];
      HexBytesOfDecode(s[2..]);
      assert DecodeHex(s)[1..] == DecodeHex(s[2..]);
    }
  }

  /** A lower-case hex string accepted by ObjectIDFromHex is exactly the Hex of the result. */
  lemma HexOfFromHex(s: string)
    requires ObjectIDFromHex(s).Some?
    requires forall i :: 0 <= i < |s| ==> IsLowerHexDigit(s[i])
    ensures Hex(ObjectIDFromHex(s).value) == s
  {
    HexBytesOfDecode(s);
  }

  // ---------------------------------------------------------------------------
  // Time
  // ---------------------------------------------------------------------------

  /** A Go time.Time: the zero value, or an instant in nanoseconds since the Unix epoch. */
  datatype Time = ZeroTime | At(unixNano: int)

  const NanosPerSecond: int := 1_000_000_000

  // ---------------------------------------------------------------------------
  // Go integer division and remainder (truncate toward zero)
  // ---------------------------------------------------------------------------

  function Abs(x: int): nat {
    if x < 0 then -x else x
  }

  function GoDiv(a: int, b: int): int
    requires b != 0
  {
    var q := Abs(a) / Abs(b);
    if (a < 0) == (b < 0) then q else -q
  }

  function GoRem(a: int, b: int): int
    requires b != 0
  {
    a - GoDiv(a, b) * b
  }

  /** On a non-negative dividend and a positive divisor Go's operators agree with Euclid's. */
  lemma GoDivNonNegative(a: int, b: int)
    requires a >= 0 && b > 0
    ensures GoDiv(a, b) == a / b && GoRem(a, b) == a % b
  {
  }
}
