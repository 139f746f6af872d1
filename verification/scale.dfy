/** The decoder of a digital scale's raw USB report (`parse.scale`): a frame is a
    list of bytes, each written as two hexadecimal digits. Byte 1 is the status,
    byte 2 the unit, byte 3 the power-of-ten exponent of the reading, and the
    bytes from 4 on are the weight, least significant first. */
module Scale {
  import opened Results
  import opened Flags

  // ----- hexadecimal text -----

  predicate IsHexDigit(c: char) {
    '0' <= c <= '9' || 'a' <= c <= 'f' || 'A' <= c <= 'F'
  }

  function HexDigitValue(c: char): (v: nat)
    requires IsHexDigit(c)
    ensures v < 16
  {
    if '0' <= c <= '9' then c as int - '0' as int
    else if 'a' <= c <= 'f' then c as int - 'a' as int + 10
    else c as int - 'A' as int + 10
  }

  predicate IsHexText(s: string) {
    forall i | 0 <= i < |s| :: IsHexDigit(s[i])
  }

  /** `parseInt(s, 16)` for a non-empty string of hexadecimal digits. */
  function HexValue(s: string): nat
    requires IsHexText(s)
  {
    if s == [] then 0 else 16 * HexValue(s[..|s| - 1]) + HexDigitValue(s[|s| - 1])
  }

  /** Two more digits on the right shift the value by one byte. */
  lemma HexAppendByte(a: string, b: string)
    requires IsHexText(a) && IsByteText(b)
    ensures IsHexText(a + b)
    ensures HexValue(a + b) == 256 * HexValue(a) + ByteValue(b)
  {
    var ab := a + b;
    var a0 := a + [b[0]];
    assert ab[..|ab| - 1] == a0 && ab[|ab| - 1] == b[1];
    assert a0[..|a0| - 1] == a && a0[|a0| - 1] == b[0];
    assert HexValue(a0) == 16 * HexValue(a) + HexDigitValue(b[0]);
    assert HexValue(ab) == 16 * HexValue(a0) + HexDigitValue(b[1]);
  }

  /** One byte of a frame: two hexadecimal digits. */
  predicate IsByteText(s: string) {
    |s| == 2 && IsHexDigit(s[0]) && IsHexDigit(s[1])
  }

  /** The value of a byte, high digit first. */
  function ByteValue(s: string): (v: nat)
    requires IsByteText(s)
    ensures v < 256
  {
    16 * HexDigitValue(s[0]) + HexDigitValue(s[1])
  }

  /** A byte read as hexadecimal text has the byte's value. */
  lemma ByteIsHexText(s: string)
    requires IsByteText(s)
    ensures IsHexText(s) && HexValue(s) == ByteValue(s)
  {
    assert s[..1] == [s[0]] && s[..1][..0] == [];
    assert HexValue(s[..1]) == HexDigitValue(s[0]);
  }

  const UpperHexDigits := "0123456789ABCDEF"

  /** The byte `v` written as two upper-case hexadecimal digits. */
  function ByteText(v: nat): (s: string)
    requires v < 256
    ensures IsByteText(s) && ByteValue(s) == v
  {
    UpperDigitValue(v / 16);
    UpperDigitValue(v % 16);
    [UpperHexDigits[v / 16], UpperHexDigits[v % 16]]
  }

  /** The upper-case digit for `d` has the value `d`. */
  lemma UpperDigitValue(d: nat)
    requires d < 16
    ensures IsHexDigit(UpperHexDigits[d]) && HexDigitValue(UpperHexDigits[d]) == d
  {
  }

  predicate IsUpperHexDigit(c: char) {
    '0' <= c <= '9' || 'A' <= c <= 'F'
  }

  /** Reading a byte written in upper-case digits and writing it back gives the
      same text. */
  lemma ByteTextInverts(s: string)
    requires IsByteText(s) && IsUpperHexDigit(s[0]) && IsUpperHexDigit(s[1])
    ensures ByteText(ByteValue(s)) == s
  {
    var hi, lo := HexDigitValue(s[0]), HexDigitValue(s[1]);
    assert ByteValue(s) / 16 == hi && ByteValue(s) % 16 == lo;
    assert UpperHexDigits[hi] == s[0] && UpperHexDigits[lo] == s[1];
  }

  /** Every element of the frame is a byte. */
  predicate WellFormed(data: seq<string>) {
    forall i | 0 <= i < |data| :: IsByteText(data[i])
  }

  // ----- joining and reversing -----

  /** `parts.join('')`. */
  function Join(parts: seq<string>): string {
    if parts == [] then "" else parts[0] + Join(parts[1..])
  }

  /** `parts.reverse()`, on a copy. */
  function Reverse(parts: seq<string>): (r: seq<string>)
    ensures |r| == |parts|
    ensures forall i | 0 <= i < |parts| :: r[i] == parts[|parts| - 1 - i]
  {
    if parts == [] then [] else Reverse(parts[1..]) + [parts[0]]
  }

  lemma {:induction false} JoinAppend(parts: seq<string>, last: string)
    ensures Join(parts + [last]) == Join(parts) + last
    decreases |parts|
  {
    if parts == [] {
      assert [last][1..] == [];
    } else {
      assert (parts + [last])[1..] == parts[1..] + [last];
      JoinAppend(parts[1..], last);
    }
  }

  lemma {:induction false} JoinOfBytes(parts: seq<string>)
    requires WellFormed(parts)
    ensures |Join(parts)| == 2 * |parts|
    ensures IsHexText(Join(parts))
    decreases |parts|
  {
    if parts != [] {
      JoinOfBytes(parts[1..]);
    }
  }

  /** Joined bytes spell a run of `0` digits exactly when every byte is `"00"`. */
  lemma {:induction false} JoinOfZeros(parts: seq<string>)
    requires WellFormed(parts)
    ensures Join(parts) == seq(2 * |parts|, _ => '0') <==> forall i | 0 <= i < |parts| :: parts[i] == "00"
    decreases |parts|
  {
    if parts != [] {
      JoinOfZeros(parts[1..]);
      var rest := seq(2 * |parts[1..]|, _ => '0');
      assert seq(2 * |parts|, _ => '0') == "00" + rest;
      assert forall i | 0 <= i < |parts[1..]| :: parts[1..][i] == parts[i + 1];
      JoinOfBytes(parts[1..]);
      PairEquality(parts[0], Join(parts[1..]), "00", rest);
    }
  }

  /** Two concatenations with equally long first parts are equal exactly when
      both parts are. */
  lemma PairEquality(a: string, b: string, c: string, d: string)
    requires |a| == |c|
    ensures a + b == c + d <==> a == c && b == d
  {
    if a + b == c + d {
      assert (a + b)[..|a|] == a && (c + d)[..|c|] == c;
      assert (a + b)[|a|..] == b && (c + d)[|c|..] == d;
    }
  }

  // ----- the frame filter -----

  /** The guard of `parse.scale`: a frame shorter than four bytes, or one whose
      bytes 2 to 7 join to twelve `0` digits, is passed over. */
  predicate IsIdle(data: seq<string>) {
    |data| < 4 || Join(data[2..if |data| < 8 then |data| else 8]) == "000000000000"
  }

  /** A frame is passed over exactly when it is short, or at least eight bytes long
      with bytes 2 to 7 all zero; a frame of four to seven bytes never is. */
  lemma IdleIsZeroBytes(data: seq<string>)
    requires WellFormed(data)
    ensures IsIdle(data) <==> |data| < 4 || (|data| >= 8 && forall i | 2 <= i < 8 :: data[i] == "00")
  {
    if |data| >= 4 {
      var window := data[2..if |data| < 8 then |data| else 8];
      JoinOfBytes(window);
      if |data| >= 8 {
        JoinOfZeros(window);
        assert seq(12, _ => '0') == "000000000000";
        assert forall i | 2 <= i < 8 :: data[i] == window[i - 2];
      }
    }
  }

  // ----- the field decoders -----

  const StatusNames: seq<string> :=
    ["Unknown", "Fault", "Stable (Zero)", "Busy", "Stable", "Underweight", "Overweight", "Calibrate", "Tare"]

  /** The status name for a status byte: the name at that position of the table,
      and `Unknown` past its end. */
  function StatusOf(raw: nat): (s: string)
    ensures s in StatusNames
    ensures s == "Unknown" <==> raw == 0 || raw >= |StatusNames|
    ensures s == "Fault" <==> raw == 1
    ensures s == "Stable (Zero)" <==> raw == 2
    ensures s == "Busy" <==> raw == 3
    ensures s == "Stable" <==> raw == 4
    ensures s == "Underweight" <==> raw == 5
    ensures s == "Overweight" <==> raw == 6
    ensures s == "Calibrate" <==> raw == 7
    ensures s == "Tare" <==> raw == 8
  {
    if raw < |StatusNames| then StatusNames[raw] else "Unknown"
  }

  /** Distinct status bytes within the table name distinct states. */
  lemma StatusIsFaithful(a: nat, b: nat)
    requires a < |StatusNames| && b < |StatusNames| && a != b
    ensures StatusOf(a) != StatusOf(b)
  {
  }

  /** `-256` as a 32-bit two's-complement pattern. */
  const MinusTwoFiftySix: bv32 := 0xFFFF_FF00

  /** The precision decoder as written: `raw ^ -256` read as a signed 32-bit
      integer, with the `-256` that a zero byte gives replaced by `0`. */
  function PrecisionAsWritten(raw: nat): (p: int)
    requires raw < 256
    ensures p == if raw == 0 then 0 else raw - 256
  {
    var b := Int32Bits(raw);
    var signed := Signed(b ^ MinusTwoFiftySix);
    XorLowByte(b);
    if signed == -256 then 0 else signed
  }

  /** The 32-bit pattern JavaScript's bitwise operators see for a byte value. */
  function Int32Bits(n: nat): (b: bv32)
    requires n < 256
    ensures b < 256 && b as int == n
  {
    if n == 0 then 0 else Int32Bits(n - 1) + 1
  }

  /** Exclusive or with `-256` sets the upper 24 bits of a byte value. */
  lemma XorLowByte(b: bv32)
    requires b < 256
    ensures Signed(b ^ MinusTwoFiftySix) == b as int - 256
  {
    assert b ^ MinusTwoFiftySix == b + MinusTwoFiftySix;
  }

  /** Bytes 1 to 127 come out as large negative exponents: a scale reporting
      tens (exponent `+1`, byte `0x01`) is read as exponent `-255`. */
  lemma PrecisionAsWrittenOverflows()
    ensures PrecisionAsWritten(1) == -255
    ensures Precision(1) == 1
  {
  }

  /** The precision byte read as a signed 8-bit exponent: the one value in
      `[-128, 128)` that is congruent to the byte modulo 256. */
  function Precision(raw: nat): (p: int)
    requires raw < 256
    ensures -128 <= p < 128
    ensures p % 256 == raw
  {
    if raw < 128 then raw else raw - 256
  }

  /** The signed reading is the inverse of two's-complement encoding. */
  lemma PrecisionInverts(p: int)
    requires -128 <= p < 128
    ensures Precision(p % 256) == p
  {
  }

  /** Where the exponent is zero or negative, the decoder as written and the
      signed reading agree. */
  lemma PrecisionAgrees(raw: nat)
    requires raw < 256
    ensures Precision(raw) == PrecisionAsWritten(raw) <==> raw == 0 || raw >= 128
  {
  }

  /** The unit name for a unit byte: `g`, `kg` and `oz` for their codes, and
      `lbs` for code 12 and for every code not listed. */
  function UnitsOf(raw: nat): (u: string)
    ensures u == "g" <==> raw == 2
    ensures u == "kg" <==> raw == 3
    ensures u == "oz" <==> raw == 11
    ensures u == "lbs" <==> raw != 2 && raw != 3 && raw != 11
  {
    match raw
    case 2 => "g"
    case 3 => "kg"
    case 11 => "oz"
    case _ => "lbs"
  }

  /** The number a sequence of bytes spells with its least significant byte
      first. */
  function LittleEndian(bytes: seq<string>): nat
    requires WellFormed(bytes)
  {
    if bytes == [] then 0 else ByteValue(bytes[0]) + 256 * LittleEndian(bytes[1..])
  }

  /** Reversing the bytes and reading the joined digits as one hexadecimal number
      reads them least significant first. */
  lemma {:induction false} ReversedJoinIsLittleEndian(bytes: seq<string>)
    requires WellFormed(bytes)
    ensures IsHexText(Join(Reverse(bytes)))
    ensures HexValue(Join(Reverse(bytes))) == LittleEndian(bytes)
    decreases |bytes|
  {
    if bytes != [] {
      var rest := Reverse(bytes[1..]);
      ReversedJoinIsLittleEndian(bytes[1..]);
      JoinAppend(rest, bytes[0]);
      HexAppendByte(Join(rest), bytes[0]);
    }
  }

  /** The weight field: the bytes from position 4 on, most significant last,
      read as one number; `None` (JavaScript's `NaN`) when there are none, as
      `parseInt('', 16)` gives. */
  function WeightRaw(data: seq<string>): (w: Option<nat>)
    requires WellFormed(data) && |data| >= 4
    ensures w.None? <==> |data| == 4
    ensures w.Some? ==> w.value == LittleEndian(data[4..])
  {
    var tail := data[4..];
    var hex := Join(Reverse(tail));
    ReversedJoinIsLittleEndian(tail);
    JoinOfBytes(Reverse(tail));
    if hex == [] then None else Some(HexValue(hex))
  }

  // ----- the reading -----

  /** A decoded field: the byte and what it stands for. */
  datatype Field<T> = Field(raw: nat, value: T)

  /** The fields of `parse.scale`'s result that the decoder fills in. */
  datatype Reading = Reading(status: Field<string>, precision: Field<int>, units: Field<string>,
                             weightRaw: Option<nat>)

  /** The reading returned for a frame that is passed over. */
  const Idle := Reading(Field(0, ""), Field(0, 0), Field(0, ""), Some(0))

  /** `parse.scale`, up to the weight's raw value: the default reading for a frame
      that is passed over, otherwise each field decoded from its byte. */
  function Decode(data: seq<string>): (r: Reading)
    requires WellFormed(data)
    ensures IsIdle(data) ==> r == Idle
    ensures !IsIdle(data) ==> |data| >= 4
    ensures !IsIdle(data) ==>
              && r.status == Field(ByteValue(data[1]), StatusOf(ByteValue(data[1])))
              && r.units == Field(ByteValue(data[2]), UnitsOf(ByteValue(data[2])))
              && r.precision.raw == ByteValue(data[3])
    ensures !IsIdle(data) ==>
              && r.status.raw < 256 && r.status.value in StatusNames
              && r.precision.raw < 256 && -128 <= r.precision.value < 128
              && r.precision.value % 256 == r.precision.raw
              && r.units.raw < 256
              && (r.weightRaw.None? <==> |data| == 4)
              && (r.weightRaw.Some? ==> r.weightRaw.value == LittleEndian(data[4..]))
  {
    if IsIdle(data) then Idle
    else
      var status := ByteValue(data[1]);
      var precision := ByteValue(data[3]);
      var units := ByteValue(data[2]);
      Reading(Field(status, StatusOf(status)), Field(precision, Precision(precision)),
              Field(units, UnitsOf(units)), WeightRaw(data))
  }

  /** The frame a scale sends for a status, a non-zero unit code, an exponent and
      the weight bytes, least significant first. */
  function Frame(status: nat, units: nat, exponent: int, weight: seq<string>): (data: seq<string>)
    requires status < 256 && 0 < units < 256 && -128 <= exponent < 128 && WellFormed(weight)
    ensures WellFormed(data) && |data| == 4 + |weight|
  {
    ["00", ByteText(status), ByteText(units), ByteText(exponent % 256)] + weight
  }

  /** Decoding a frame gives back the status, unit, exponent and weight it was
      built from: each field is read from its own byte. */
  lemma DecodeFrame(status: nat, units: nat, exponent: int, weight: seq<string>)
    requires status < 256 && 0 < units < 256 && -128 <= exponent < 128 && WellFormed(weight)
    ensures Decode(Frame(status, units, exponent, weight))
            == Reading(Field(status, StatusOf(status)), Field(exponent % 256, exponent),
                       Field(units, UnitsOf(units)),
                       if weight == [] then None else Some(LittleEndian(weight)))
  {
    var data := Frame(status, units, exponent, weight);
    assert data[2] != "00" by {
      assert ByteValue(data[2]) == units && ByteValue("00") == 0;
    }
    IdleIsZeroBytes(data);
    assert data[4..] == weight;
    PrecisionInverts(exponent);
  }

  /** Byte 0 of a frame plays no part in its reading. */
  lemma DecodeIgnoresFirstByte(data: seq<string>, b: string)
    requires WellFormed(data) && |data| > 0 && IsByteText(b)
    ensures WellFormed(data[0 := b])
    ensures Decode(data[0 := b]) == Decode(data)
  {
    var other := data[0 := b];
    if |data| >= 4 {
      assert other[2..] == data[2..];
      assert other[4..] == data[4..];
    }
  }

  /** A stable 100 at exponent -2, in grams. */
  lemma DecodeStableGrams()
    ensures WellFormed(["02", "04", "02", "FE", "64", "00"])
    ensures Decode(["02", "04", "02", "FE", "64", "00"])
            == Reading(Field(4, "Stable"), Field(0xFE, -2), Field(2, "g"), Some(100))
  {
    var data := ["02", "04", "02", "FE", "64", "00"];
    assert WellFormed(data);
    IdleIsZeroBytes(data);
    assert ByteValue(data[1]) == 4 && ByteValue(data[2]) == 2 && ByteValue(data[3]) == 0xFE;
    var tail := data[4..];
    assert tail == ["64", "00"] && tail[1..] == ["00"] && tail[1..][1..] == [];
    assert ByteValue("64") == 100 && ByteValue("00") == 0;
    assert LittleEndian(tail[1..]) == 0;
    assert LittleEndian(tail) == 100;
  }

  /** A frame whose bytes 2 to 7 are zero decodes to the default reading. */
  lemma DecodeZeroFrame()
    ensures WellFormed(["03", "02", "00", "00", "00", "00", "00", "00"])
    ensures Decode(["03", "02", "00", "00", "00", "00", "00", "00"]) == Idle
  {
    IdleIsZeroBytes(["03", "02", "00", "00", "00", "00", "00", "00"]);
  }
}
