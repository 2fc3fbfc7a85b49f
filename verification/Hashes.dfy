/** 32-byte content hashes and their hexadecimal form. */
module Hashes {
  import opened Bytes
  import opened Strings

  const ZEROS: seq<Byte> := [0, 0, 0, 0, 0, 0, 0, 0, 0, 0, 0, 0, 0, 0, 0, 0, 0, 0, 0, 0, 0, 0, 0, 0, 0, 0, 0, 0, 0, 0,
      0, 0]

  type Hash256 = h: seq<Byte> | |h| == 32 witness ZEROS

  const HEX_DIGITS: string := "0123456789abcdef"

  function FromHexDigit(c: char): int {
    if '0' <= c <= '9' then c as int - '0' as int
    else if 'a' <= c <= 'f' then c as int - 'a' as int + 10
    else if 'A' <= c <= 'F' then c as int - 'A' as int + 10
    else -1
  }

  function ToHexFrom(bytes: seq<Byte>): (s: string)
    ensures |s| == 2 * |bytes|
    ensures forall i :: 0 <= i < |bytes| ==>
              s[2 * i] == HEX_DIGITS[bytes[i] / 16] && s[2 * i + 1] == HEX_DIGITS[bytes[i] % 16]
  {
    if bytes == [] then ""
    else
      var rest := ToHexFrom(bytes[1..]);
      assert forall i :: 0 < i < |bytes| ==> bytes[i] == bytes[1..][i - 1];
      [HEX_DIGITS[bytes[0] / 16], HEX_DIGITS[bytes[0] % 16]] + rest
  }

  function ToHex(h: Hash256): string { ToHexFrom(h) }

  /** The bytes that pairs of digits spell, if all of them are digits. */
  function FromHexPairs(s: string): Option<seq<Byte>>
    requires |s| % 2 == 0
  {
    if s == "" then Some([])
    else
      var hi, lo := FromHexDigit(s[0]), FromHexDigit(s[1]);
      if hi < 0 || lo < 0 then None
      else
        match FromHexPairs(s[2..])
        case None => None
        case Some(rest) => Some([(hi * 16 + lo) as Byte] + rest)
  }

  function FromHex(s: string): (r: Option<Hash256>)
  {
    if |s| != 64 then None
    else
      HexPairsLength(s);
      match FromHexPairs(s) case None => None case Some(bytes) => Some(bytes)
  }

  lemma {:induction false} HexPairsLength(s: string)
    requires |s| % 2 == 0
    ensures FromHexPairs(s).Some? ==> 2 * |FromHexPairs(s).value| == |s|
  {
    if s != "" { HexPairsLength(s[2..]); }
  }

  lemma {:induction false} PairsOfHex(bytes: seq<Byte>)
    ensures FromHexPairs(ToHexFrom(bytes)) == Some(bytes)
  {
    hide FromHexDigit;
    if bytes != [] {
      PairsOfHex(bytes[1..]);
      var s := ToHexFrom(bytes);
      assert s[2..] == ToHexFrom(bytes[1..]);
      assert s[2 * 0] == HEX_DIGITS[bytes[0] / 16];
      DigitOfHex(bytes[0] / 16);
      DigitOfHex(bytes[0] % 16);
      assert FromHexDigit(s[0]) == bytes[0] / 16 && FromHexDigit(s[1]) == bytes[0] % 16;
      assert [bytes[0]] + bytes[1..] == bytes;
    }
  }

  lemma DigitOfHex(n: nat)
    requires n < 16
    ensures FromHexDigit(HEX_DIGITS[n]) == n
  {
    assert HEX_DIGITS[n] == (if n < 10 then ('0' as int + n) as char else ('a' as int + n - 10) as char) by {
      assert HEX_DIGITS == ['0', '1', '2', '3', '4', '5', '6', '7', '8', '9', 'a', 'b', 'c', 'd', 'e', 'f'];
    }
  }

  /** Reading back a hash's hexadecimal form gives the hash, so the form names it. */
  lemma HexRoundTrip(h: Hash256)
    ensures FromHex(ToHex(h)) == Some(h)
  {
    PairsOfHex(h);
  }
}
