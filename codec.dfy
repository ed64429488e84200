/**
 * The text form of an mgid (inout.c): 24 hexadecimal digits, two per byte,
 * high nibble first. Input accepts either case; output is lower case.
 * The three field views print a sub-range of the bytes with the same loop.
 */
module Codec {
  import opened Wrappers
  import opened Layout

  /** The only error: the literal is not 24 hex digits. It carries the literal. */
  datatype ParseError = InvalidTextRepresentation(input: string)

  /** The digit table `hex_chars` of the printing loops. */
  const HexChars: string := "0123456789abcdef"

  /** Number of characters in the text form. */
  const TextLen: nat := 2 * MgidLen

  /**
   * The character at offset k of the C string whose characters are s:
   * reading at or beyond the end of s yields the terminating NUL.
   * A NUL inside s ends the C string there.
   */
  function At(s: string, k: nat): char
  {
    if k < |s| then s[k] else '\0'
  }

  /** isxdigit in the C locale. */
  predicate IsHexDigit(c: char)
  {
    '0' <= c <= '9' || 'a' <= c <= 'f' || 'A' <= c <= 'F'
  }

  predicate IsLowerHexDigit(c: char)
  {
    '0' <= c <= '9' || 'a' <= c <= 'f'
  }

  /** The value strtoul gives a single hex digit, in either case. */
  function HexValue(c: char): (v: nat)
    requires IsHexDigit(c)
    ensures v < 16
  {
    if '0' <= c <= '9' then c as int - '0' as int
    else if 'a' <= c <= 'f' then c as int - 'a' as int + 10
    else c as int - 'A' as int + 10
  }

  /** The lower-case digit of a nibble. */
  function HexDigit(n: nat): (c: char)
    requires n < 16
    ensures IsLowerHexDigit(c) && HexValue(c) == n
  {
    if n < 10 then ('0' as int + n) as char else ('a' as int + n - 10) as char
  }

  /** The digit table holds exactly the lower-case digits, in value order. */
  lemma HexCharsTable(n: nat)
    requires n < 16
    ensures |HexChars| == 16 && HexChars[n] == HexDigit(n)
  {
    assert HexChars == ['0', '1', '2', '3', '4', '5', '6', '7', '8', '9', 'a', 'b', 'c', 'd', 'e', 'f'];
  }

  /** ASCII lower-casing of the upper-case hex letters; other characters are kept. */
  function ToLower(c: char): char
  {
    if 'A' <= c <= 'F' then (c as int - 'A' as int + 'a' as int) as char else c
  }

  /** Printing the value of a digit gives back the digit, lower-cased. */
  lemma DigitOfValue(c: char)
    requires IsHexDigit(c)
    ensures HexDigit(HexValue(c)) == ToLower(c)
  {
  }

  /** The two digits of one byte: `data >> 4`, then `data & 0x0F`. */
  function HexByte(b: byte): string
  {
    [HexDigit(b / 16), HexDigit(b % 16)]
  }

  /** The text produced by the printing loop for the bytes bs. */
  function Hex(bs: seq<byte>): (r: string)
    ensures |r| == 2 * |bs|
    ensures forall k | 0 <= k < |r| :: IsLowerHexDigit(r[k])
  {
    if bs == [] then [] else HexByte(bs[0]) + Hex(bs[1..])
  }

  /** Characters 2i and 2i+1 of Hex(bs) are the high and low digit of byte i. */
  lemma {:induction false} HexAt(bs: seq<byte>, i: nat)
    requires i < |bs|
    ensures Hex(bs)[2 * i] == HexDigit(bs[i] / 16)
    ensures Hex(bs)[2 * i + 1] == HexDigit(bs[i] % 16)
  {
    if i > 0 {
      HexAt(bs[1..], i - 1);
    }
  }

  /** Printing two byte ranges one after the other prints their concatenation. */
  lemma {:induction false} HexConcat(a: seq<byte>, b: seq<byte>)
    ensures Hex(a + b) == Hex(a) + Hex(b)
  {
    if a == [] {
      assert a + b == b;
    } else {
      assert (a + b)[0] == a[0] && (a + b)[1..] == a[1..] + b;
      HexConcat(a[1..], b);
    }
  }

  /** The canonical text form of an identifier (mg_id_out). */
  function Format(v: Mgid): (s: string)
    ensures |s| == TextLen
    ensures forall k | 0 <= k < |s| :: IsLowerHexDigit(s[k])
  {
    Hex(v)
  }

  /**
   * The syntax string_to_mgid accepts: 24 hex digits, then the end of the
   * C string. A NUL among the first 24 characters is not a hex digit, so a
   * string that ends early is refused.
   */
  predicate WellFormed(s: string)
  {
    (forall k | 0 <= k < TextLen :: IsHexDigit(At(s, k))) && At(s, TextLen) == '\0'
  }

  /** Byte i of an accepted literal: 16 times its digit 2i plus its digit 2i+1. */
  function ByteAt(s: string, i: nat): byte
    requires WellFormed(s) && i < MgidLen
  {
    16 * HexValue(At(s, 2 * i)) + HexValue(At(s, 2 * i + 1))
  }

  /** The meaning of the text form: the identifier a literal denotes, or the error. */
  function Parse(s: string): (r: Result<Mgid, ParseError>)
    ensures r.Ok? <==> WellFormed(s)
    ensures r.Err? ==> r.error == InvalidTextRepresentation(s)
  {
    if WellFormed(s) then Ok(seq(MgidLen, i requires 0 <= i < MgidLen => ByteAt(s, i)))
    else Err(InvalidTextRepresentation(s))
  }

  /** string_to_mgid: consumes two characters per byte, writing each byte in place. */
  method StringToMgid(source: string) returns (r: Result<Mgid, ParseError>)
    ensures r == Parse(source)
  {
    var data := new byte[MgidLen];
    var src := 0;
    var i := 0;
    while i < MgidLen
      invariant 0 <= i <= MgidLen && src == 2 * i
      invariant forall k | 0 <= k < src :: IsHexDigit(At(source, k))
      invariant forall j | 0 <= j < i ::
                  data[j] == 16 * HexValue(At(source, 2 * j)) + HexValue(At(source, 2 * j + 1))
    {
      var c0, c1 := At(source, src), At(source, src + 1);
      if c0 == '\0' || c1 == '\0' {
        return Err(InvalidTextRepresentation(source));
      }
      if !IsHexDigit(c0) || !IsHexDigit(c1) {
        return Err(InvalidTextRepresentation(source));
      }
      data[i] := 16 * HexValue(c0) + HexValue(c1);
      src := src + 2;
      i := i + 1;
    }
    if At(source, src) != '\0' {
      return Err(InvalidTextRepresentation(source));
    }
    assert WellFormed(source);
    assert data[..] == seq(MgidLen, j requires 0 <= j < MgidLen => ByteAt(source, j));
    r := Ok(data[..]);
  }

  /**
   * The shared printing loop of mg_id_out and the field views: appends the
   * two digits of each byte in [from, to) to an initially empty buffer.
   */
  method AppendHex(data: Mgid, from: nat, to: nat) returns (buf: string)
    requires from <= to <= MgidLen
    ensures buf == Hex(data[from..to])
  {
    buf := "";
    var i := from;
    while i < to
      invariant from <= i <= to
      invariant buf == Hex(data[from..i])
    {
      var hi := data[i] / 16;
      var lo := data[i] % 16;
      HexCharsTable(hi);
      HexCharsTable(lo);
      assert data[from..i + 1] == data[from..i] + [data[i]];
      HexConcat(data[from..i], [data[i]]);
      buf := buf + [HexChars[hi]];
      buf := buf + [HexChars[lo]];
      i := i + 1;
    }
  }

  /** mg_id_out: prints all twelve bytes. */
  method MgIdOut(mgid: Mgid) returns (s: string)
    ensures s == Format(mgid)
  {
    s := AppendHex(mgid, 0, MgidLen);
    assert mgid[0..MgidLen] == mgid;
  }

  /** mgid_get_timestamp: prints bytes [0, 4). */
  method GetTimestamp(mgid: Mgid) returns (s: string)
    ensures s == Hex(mgid[..TimestampLen]) && |s| == 2 * TimestampLen
  {
    s := AppendHex(mgid, 0, TimestampLen);
  }

  /** mgid_get_process_unique: prints bytes [4, 9). */
  method GetProcessUnique(mgid: Mgid) returns (s: string)
    ensures s == Hex(mgid[TimestampLen..TimestampLen + ProcessUniqueLen])
    ensures |s| == 2 * ProcessUniqueLen
  {
    s := AppendHex(mgid, TimestampLen, TimestampLen + ProcessUniqueLen);
  }

  /** mgid_get_counter: prints bytes [9, 12); the loop runs to MgidLen, not to a CounterLen bound. */
  method GetCounter(mgid: Mgid) returns (s: string)
    ensures s == Hex(mgid[TimestampLen + ProcessUniqueLen..]) && |s| == 2 * CounterLen
  {
    s := AppendHex(mgid, TimestampLen + ProcessUniqueLen, MgidLen);
    assert mgid[TimestampLen + ProcessUniqueLen..MgidLen] == mgid[TimestampLen + ProcessUniqueLen..];
  }

  /** The three field views, read in order, spell out the full text form. */
  lemma FieldViewsSpellFormat(v: Mgid)
    ensures Hex(v[..TimestampLen]) + Hex(v[TimestampLen..TimestampLen + ProcessUniqueLen])
            + Hex(v[TimestampLen + ProcessUniqueLen..]) == Format(v)
  {
    var t, p := TimestampLen, TimestampLen + ProcessUniqueLen;
    FieldsRecompose(v);
    HexConcat(v[..t], v[t..p]);
    HexConcat(v[..t] + v[t..p], v[p..]);
  }

  /** One byte prints as its two digits. */
  lemma HexSingle(b: byte)
    ensures Hex([b]) == [HexDigit(b / 16), HexDigit(b % 16)]
  {
    assert [b][1..] == [];
  }

  lemma HexOfOneToFour()
    ensures Hex([1, 2, 3, 4]) == "01020304"
  {
    HexSingle(1); HexSingle(2); HexSingle(3); HexSingle(4);
    assert HexDigit(0) == '0' && HexDigit(1) == '1' && HexDigit(2) == '2';
    assert HexDigit(3) == '3' && HexDigit(4) == '4';
    HexConcat([1], [2]);
    HexConcat([1, 2], [3]);
    HexConcat([1, 2, 3], [4]);
    assert [1, 2] + [3] == [1, 2, 3] && [1, 2, 3] + [4] == [1, 2, 3, 4];
  }

  lemma HexOfFiveSix()
    ensures Hex([5, 6]) == "0506"
  {
    HexSingle(5); HexSingle(6);
    assert HexDigit(0) == '0' && HexDigit(5) == '5' && HexDigit(6) == '6';
    HexConcat([5], [6]);
    assert [5] + [6] == [5, 6];
  }

  lemma HexOfSevenToNine()
    ensures Hex([7, 8, 9]) == "070809"
  {
    HexSingle(7); HexSingle(8); HexSingle(9);
    assert HexDigit(0) == '0' && HexDigit(7) == '7' && HexDigit(8) == '8' && HexDigit(9) == '9';
    HexConcat([7], [8]);
    HexConcat([7, 8], [9]);
    assert [7] + [8] == [7, 8] && [7, 8] + [9] == [7, 8, 9];
  }

  lemma HexOfFiveToNine()
    ensures Hex([5, 6, 7, 8, 9]) == "0506070809"
  {
    HexOfFiveSix();
    HexOfSevenToNine();
    HexConcat([5, 6], [7, 8, 9]);
    assert [5, 6] + [7, 8, 9] == [5, 6, 7, 8, 9];
  }

  lemma HexOfTenToTwelve()
    ensures Hex([10, 11, 12]) == "0a0b0c"
  {
    HexSingle(10); HexSingle(11); HexSingle(12);
    assert HexDigit(0) == '0';
    assert HexDigit(10) == 'a' && HexDigit(11) == 'b' && HexDigit(12) == 'c';
    HexConcat([10], [11]);
    HexConcat([10, 11], [12]);
    assert [10, 11] + [12] == [10, 11, 12];
  }

  /** The field views of 0102030405060708090a0b0c are 01020304, 0506070809 and 0a0b0c. */
  lemma FieldViewsExample()
    ensures var v: Mgid := [1, 2, 3, 4, 5, 6, 7, 8, 9, 10, 11, 12];
            Hex(v[..TimestampLen]) == "01020304"
            && Hex(v[TimestampLen..TimestampLen + ProcessUniqueLen]) == "0506070809"
            && Hex(v[TimestampLen + ProcessUniqueLen..]) == "0a0b0c"
  {
    var v: Mgid := [1, 2, 3, 4, 5, 6, 7, 8, 9, 10, 11, 12];
    assert v[..TimestampLen] == [1, 2, 3, 4];
    assert v[TimestampLen..TimestampLen + ProcessUniqueLen] == [5, 6, 7, 8, 9];
    assert v[TimestampLen + ProcessUniqueLen..] == [10, 11, 12];
    HexOfOneToFour();
    HexOfFiveToNine();
    HexOfTenToTwelve();
  }

  /** Reading back the printed form of an identifier gives the identifier. */
  lemma ParseFormat(v: Mgid)
    ensures Parse(Format(v)) == Ok(v)
  {
    var s := Format(v);
    forall i | 0 <= i < MgidLen
      ensures IsHexDigit(At(s, 2 * i)) && IsHexDigit(At(s, 2 * i + 1))
      ensures HexValue(At(s, 2 * i)) == v[i] / 16 && HexValue(At(s, 2 * i + 1)) == v[i] % 16
    {
      HexAt(v, i);
    }
    assert WellFormed(s) by {
      forall k | 0 <= k < TextLen ensures IsHexDigit(At(s, k)) {
        assert s[k] == At(s, k);
      }
    }
    assert seq(MgidLen, i requires 0 <= i < MgidLen => ByteAt(s, i)) == v;
  }

  /** A literal with its upper-case hex letters lowered. */
  function Lowered(s: string): (r: string)
    ensures |r| == |s|
  {
    seq(|s|, k requires 0 <= k < |s| => ToLower(s[k]))
  }

  /** Byte i of an accepted literal prints as digits 2i and 2i+1 of the literal, lowered. */
  lemma FormatParseByte(s: string, i: nat)
    requires WellFormed(s) && i < MgidLen
    ensures HexDigit(ByteAt(s, i) / 16) == ToLower(At(s, 2 * i))
    ensures HexDigit(ByteAt(s, i) % 16) == ToLower(At(s, 2 * i + 1))
  {
    var hi, lo := At(s, 2 * i), At(s, 2 * i + 1);
    assert IsHexDigit(hi) && IsHexDigit(lo);
    var b := ByteAt(s, i);
    assert b / 16 == HexValue(hi) && b % 16 == HexValue(lo);
    DigitOfValue(hi);
    DigitOfValue(lo);
  }

  /** Printing what an accepted literal denotes gives the literal in lower case. */
  lemma FormatParse(s: string)
    requires Parse(s).Ok?
    ensures |s| >= TextLen
    ensures Format(Parse(s).value) == Lowered(s[..TextLen])
  {
    var v := Parse(s).value;
    assert IsHexDigit(At(s, TextLen - 1));
    var f := Format(v);
    var l := Lowered(s[..TextLen]);
    forall k | 0 <= k < TextLen ensures f[k] == l[k] {
      var i := k / 2;
      assert v[i] == ByteAt(s, i);
      HexAt(v, i);
      FormatParseByte(s, i);
      assert l[k] == ToLower(At(s, k));
      if k % 2 == 0 {
        assert k == 2 * i;
      } else {
        assert k == 2 * i + 1;
      }
    }
  }

  /**
   * For a C string without embedded NUL, parsing succeeds exactly when it
   * has 24 characters, all hex digits: a shorter string fails at the end of
   * the input, a longer one at the check after the loop, and a non-digit
   * at the isxdigit test.
   */
  lemma ParseAcceptsExactly(s: string)
    requires forall k | 0 <= k < |s| :: s[k] != '\0'
    ensures Parse(s).Ok? <==> |s| == TextLen && forall k | 0 <= k < |s| :: IsHexDigit(s[k])
  {
    if WellFormed(s) {
      assert IsHexDigit(At(s, TextLen - 1));
      assert |s| == TextLen;
      forall k | 0 <= k < |s| ensures IsHexDigit(s[k]) {
        assert At(s, k) == s[k];
      }
    }
  }
}
