/** Hexadecimal text (section 8 of RFC 4648), as the `hex` crate writes and reads it. */
module Hex {
  import opened Wrappers

  type byte = b: int | 0 <= b < 256

  const DIGITS := "0123456789abcdef"

  function Encode(bytes: seq<byte>): (s: string)
    ensures |s| == 2 * |bytes|
  {
    if bytes == [] then "" else [DIGITS[bytes[0] / 16], DIGITS[bytes[0] % 16]] + Encode(bytes[1..])
  }

  /** Value of one digit; both letter cases are read. */
  function Nibble(c: char): (n: Option<int>)
    ensures n.Some? ==> 0 <= n.value < 16
  {
    if '0' <= c <= '9' then Some(c as int - '0' as int)
    else if 'a' <= c <= 'f' then Some(c as int - 'a' as int + 10)
    else if 'A' <= c <= 'F' then Some(c as int - 'A' as int + 10)
    else None
  }

  /** None for an odd length or a character that is no hexadecimal digit. */
  function Decode(s: string): (bytes: Option<seq<byte>>)
    ensures bytes.Some? ==> |s| == 2 * |bytes.value|
  {
    if s == "" then Some([])
    else if |s| == 1 then None
    else
      match (Nibble(s[0]), Nibble(s[1]), Decode(s[2..]))
      case (Some(high), Some(low), Some(rest)) => Some([high * 16 + low] + rest)
      case _ => None
  }

  lemma NibbleOfDigit(n: int)
    requires 0 <= n < 16
    ensures Nibble(DIGITS[n]) == Some(n)
  {
    assert forall i :: 0 <= i < 10 ==> DIGITS[i] as int == '0' as int + i;
    assert forall i :: 10 <= i < 16 ==> DIGITS[i] as int == 'a' as int + i - 10;
  }

  lemma DecodeStep(b: byte, text: string, bytes: seq<byte>)
    requires Decode(text) == Some(bytes)
    ensures Decode([DIGITS[b / 16], DIGITS[b % 16]] + text) == Some([b] + bytes)
  {
    NibbleOfDigit(b / 16);
    NibbleOfDigit(b % 16);
    assert ([DIGITS[b / 16], DIGITS[b % 16]] + text)[2..] == text;
  }

  lemma {:induction false} DecodeEncode(bytes: seq<byte>)
    ensures Decode(Encode(bytes)) == Some(bytes)
  {
    if bytes != [] {
      DecodeEncode(bytes[1..]);
      DecodeStep(bytes[0], Encode(bytes[1..]), bytes[1..]);
      assert bytes == [bytes[0]] + bytes[1..];
    }
  }

  /** The digits written are lower case, two for a byte, the high one first. */
  lemma {:induction false} EncodedExactly(bytes: seq<byte>, i: nat)
    requires i < |bytes|
    ensures Encode(bytes)[2 * i] == "0123456789abcdef"[bytes[i] / 16]
    ensures Encode(bytes)[2 * i + 1] == "0123456789abcdef"[bytes[i] % 16]
  {
    if i > 0 {
      EncodedExactly(bytes[1..], i - 1);
      assert Encode(bytes)[2..] == Encode(bytes[1..]);
    }
  }

  /** A digit is read in either case, and nothing else is. */
  lemma DigitRead(c: char)
    ensures Nibble(c).Some? <==> c in "0123456789abcdefABCDEF"
    ensures forall n: nat :: n < 16 ==>
              Nibble("0123456789abcdef"[n]) == Some(n) && Nibble("0123456789ABCDEF"[n]) == Some(n)
  {
    forall n: nat | n < 16
      ensures Nibble("0123456789abcdef"[n]) == Some(n) && Nibble("0123456789ABCDEF"[n]) == Some(n)
    {
      NibbleOfDigit(n);
      UpperNibble(n);
    }
    if Nibble(c).Some? {
      var n := Nibble(c).value;
      ReadDigit(c, n);
    }
    if c in "0123456789abcdefABCDEF" {
      var i :| 0 <= i < 22 && "0123456789abcdefABCDEF"[i] == c;
      TwoCases(i);
    }
  }

  lemma UpperNibble(n: nat)
    requires n < 16
    ensures Nibble("0123456789ABCDEF"[n]) == Some(n)
  {
    assert forall i :: 0 <= i < 10 ==> "0123456789ABCDEF"[i] as int == '0' as int + i;
    assert forall i :: 10 <= i < 16 ==> "0123456789ABCDEF"[i] as int == 'A' as int + i - 10;
  }

  lemma TwoCases(i: nat)
    requires i < 22
    ensures Nibble("0123456789abcdefABCDEF"[i]).Some?
  {
    if i < 16 {
      NibbleOfDigit(i);
      assert "0123456789abcdefABCDEF"[i] == DIGITS[i];
    } else {
      UpperNibble(i - 6);
      assert "0123456789abcdefABCDEF"[i] == "0123456789ABCDEF"[i - 6];
    }
  }

  lemma ReadDigit(c: char, n: nat)
    requires Nibble(c) == Some(n)
    ensures c in "0123456789abcdefABCDEF"
  {
    var all := "0123456789abcdefABCDEF";
    if c <= '9' {
      assert all[c as int - '0' as int] == c;
    } else if c <= 'F' {
      assert all[16 + (c as int - 'A' as int)] == c;
    } else {
      assert all[10 + (c as int - 'a' as int)] == c;
    }
  }

  /** What is decoded: an even number of digits ... */
  lemma {:induction false} DecodableExactly(s: string)
    ensures Decode(s).Some? <==> |s| % 2 == 0 && forall c :: c in s ==> Nibble(c).Some?
    decreases |s|
  {
    if |s| >= 2 {
      DecodableExactly(s[2..]);
      assert s == [s[0], s[1]] + s[2..];
    } else if |s| == 1 {
      assert s[0] in s;
    }
  }

  /** ... each byte from its two. */
  lemma {:induction false} DecodedByte(s: string, i: nat)
    requires Decode(s).Some? && i < |Decode(s).value|
    ensures |s| == 2 * |Decode(s).value| && Nibble(s[2 * i]).Some? && Nibble(s[2 * i + 1]).Some?
    ensures Decode(s).value[i] == Nibble(s[2 * i]).value * 16 + Nibble(s[2 * i + 1]).value
  {
    if i > 0 {
      DecodedByte(s[2..], i - 1);
      assert s[2..][2 * (i - 1)] == s[2 * i] && s[2..][2 * (i - 1) + 1] == s[2 * i + 1];
    }
  }
}
