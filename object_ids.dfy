/**
 * Store-assigned document identifiers (BSON ObjectIds): a 12-byte value,
 * rendered publicly as 24 lower-case hexadecimal digits and parsed back from
 * any 24-character hexadecimal string.
 */
module ObjectIds {
  import opened Results

  /** 2^96: an ObjectId is twelve bytes. */
  const OID_LIMIT: nat := 0x1_0000_0000_0000_0000_0000_0000
  /** Length of the textual form of an ObjectId. */
  const OID_TEXT_LENGTH: nat := 24

  type ObjectId = n: nat | n < OID_LIMIT

  function Pow16(k: nat): (r: nat)
    ensures r > 0
  {
    if k == 0 then 1 else 16 * Pow16(k - 1)
  }

  lemma {:induction false} Pow16Add(a: nat, b: nat)
    ensures Pow16(a + b) == Pow16(a) * Pow16(b)
  {
    if a > 0 { Pow16Add(a - 1, b); }
  }

  /** Twenty-four hexadecimal digits cover exactly the twelve bytes of an ObjectId. */
  lemma Pow16TextLength()
    ensures Pow16(OID_TEXT_LENGTH) == OID_LIMIT
  {
    assert Pow16(3) == 0x1000;
    Pow16Add(3, 3);
    Pow16Add(6, 6);
    Pow16Add(12, 12);
  }

  predicate IsHexDigit(c: char) {
    '0' <= c <= '9' || 'a' <= c <= 'f' || 'A' <= c <= 'F'
  }

  predicate IsHexText(s: string) {
    forall i :: 0 <= i < |s| ==> IsHexDigit(s[i])
  }

  predicate IsLowerHexText(s: string) {
    forall i :: 0 <= i < |s| ==> '0' <= s[i] <= '9' || 'a' <= s[i] <= 'f'
  }

  /** The strings an ObjectId can be built from: exactly 24 hexadecimal digits, either case. */
  predicate IsObjectIdText(s: string) {
    |s| == OID_TEXT_LENGTH && IsHexText(s)
  }

  function DigitValue(c: char): (d: nat)
    requires IsHexDigit(c)
    ensures d < 16
  {
    if '0' <= c <= '9' then c as int - '0' as int
    else if 'a' <= c <= 'f' then c as int - 'a' as int + 10
    else c as int - 'A' as int + 10
  }

  /** The lower-case digit for a value below 16. */
  function LowerDigit(d: nat): (c: char)
    requires d < 16
    ensures IsHexDigit(c) && DigitValue(c) == d
    ensures '0' <= c <= '9' || 'a' <= c <= 'f'
  {
    if d < 10 then ('0' as int + d) as char else ('a' as int + d - 10) as char
  }

  /** `width` lower-case hexadecimal digits of `n`, most significant first. */
  function HexEncode(n: nat, width: nat): (s: string)
    ensures |s| == width && IsLowerHexText(s) && IsHexText(s)
  {
    if width == 0 then [] else HexEncode(n / 16, width - 1) + [LowerDigit(n % 16)]
  }

  /** The number a string of hexadecimal digits denotes. */
  function HexDecode(s: string): (n: nat)
    requires IsHexText(s)
    ensures n < Pow16(|s|)
  {
    if s == [] then 0
    else
      var high := HexDecode(s[..|s| - 1]);
      var low := DigitValue(s[|s| - 1]);
      assert high * 16 + low < Pow16(|s|) by {
        assert high <= Pow16(|s| - 1) - 1;
        assert high * 16 <= Pow16(|s|) - 16;
      }
      high * 16 + low
  }

  /** The same digits, with 'A'..'F' folded to 'a'..'f'. */
  function ToLowerHex(s: string): (r: string)
    requires IsHexText(s)
    ensures |r| == |s| && IsLowerHexText(r)
    ensures forall i :: 0 <= i < |s| ==> DigitValue(r[i]) == DigitValue(s[i])
  {
    if s == [] then []
    else
      var c := s[|s| - 1];
      ToLowerHex(s[..|s| - 1]) + [if 'A' <= c <= 'F' then (c as int - 'A' as int + 'a' as int) as char else c]
  }

  /** `str(oid)`: the public text of an identifier. */
  function Text(oid: ObjectId): (s: string)
    ensures IsObjectIdText(s) && IsLowerHexText(s)
  {
    HexEncode(oid, OID_TEXT_LENGTH)
  }

  /** `ObjectId(s)`: fails (None) unless `s` is 24 hexadecimal digits. */
  function Parse(s: string): (r: Option<ObjectId>)
    ensures r.Some? <==> IsObjectIdText(s)
  {
    if IsObjectIdText(s) then
      Pow16TextLength();
      Some(HexDecode(s))
    else None
  }

  lemma {:induction false} DecodeEncode(n: nat, width: nat)
    requires n < Pow16(width)
    ensures HexDecode(HexEncode(n, width)) == n
  {
    if width > 0 {
      var s := HexEncode(n, width);
      var q, d := n / 16, n % 16;
      assert q < Pow16(width - 1) by {
        assert Pow16(width) == 16 * Pow16(width - 1);
      }
      assert s == HexEncode(q, width - 1) + [LowerDigit(d)];
      assert s[..width - 1] == HexEncode(q, width - 1);
      DecodeEncode(q, width - 1);
      assert HexDecode(s) == q * 16 + d;
    }
  }

  lemma {:induction false} EncodeDecode(s: string)
    requires IsHexText(s)
    ensures HexEncode(HexDecode(s), |s|) == ToLowerHex(s)
  {
    if s != [] {
      var init := s[..|s| - 1];
      EncodeDecode(init);
      var n := HexDecode(s);
      assert n / 16 == HexDecode(init);
      assert n % 16 == DigitValue(s[|s| - 1]);
      var r := ToLowerHex(s);
      assert r == ToLowerHex(init) + [r[|s| - 1]];
      LowerDigitUnique(r[|s| - 1], LowerDigit(n % 16));
    }
  }

  lemma LowerDigitUnique(a: char, b: char)
    requires IsHexDigit(a) && IsHexDigit(b)
    requires '0' <= a <= '9' || 'a' <= a <= 'f'
    requires '0' <= b <= '9' || 'a' <= b <= 'f'
    requires DigitValue(a) == DigitValue(b)
    ensures a == b
  {
  }

  /** Parsing the text of an identifier gives the identifier back. */
  lemma ParseText(oid: ObjectId)
    ensures Parse(Text(oid)) == Some(oid)
  {
    Pow16TextLength();
    DecodeEncode(oid, OID_TEXT_LENGTH);
  }

  /** Any accepted string denotes the identifier whose text is its lower-case form. */
  lemma TextParse(s: string)
    requires IsObjectIdText(s)
    ensures Parse(s).Some? && Text(Parse(s).value) == ToLowerHex(s)
  {
    EncodeDecode(s);
  }

  /** Distinct identifiers have distinct texts. */
  lemma TextInjective(a: ObjectId, b: ObjectId)
    ensures Text(a) == Text(b) <==> a == b
  {
    ParseText(a);
    ParseText(b);
  }
}
