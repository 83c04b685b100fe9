/**
 * The number renderings the header report uses: a byte as two upper-case
 * hexadecimal digits (Rust's `{:02X?}`), a number in lower-case hexadecimal
 * with a `0x` prefix (`{:#x}`) and a number in decimal (`{}`). Each rendering
 * comes with the reading that recovers the number from the text.
 */
module Text {
  import opened Bytes

  const UPPER_HEX: string := "0123456789ABCDEF"
  const LOWER_HEX: string := "0123456789abcdef"

  /** The value of a decimal or hexadecimal digit of either case; 0 for any other character. */
  function DigitValue(c: char): (d: nat)
    ensures d < 16
  {
    if '0' <= c <= '9' then c as int - '0' as int
    else if 'a' <= c <= 'f' then c as int - 'a' as int + 10
    else if 'A' <= c <= 'F' then c as int - 'A' as int + 10
    else 0
  }

  lemma DigitTables(d: nat)
    requires d < 16
    ensures DigitValue(UPPER_HEX[d]) == d && DigitValue(LOWER_HEX[d]) == d
    ensures d != 0 ==> LOWER_HEX[d] != '0'
    ensures d < 10 ==> '0' <= LOWER_HEX[d] <= '9'
  {
  }

  /** `{:02X?}` of a byte: two upper-case hexadecimal digits, most significant first. */
  function HexPair(b: u8): (s: string)
    ensures |s| == 2
    ensures '0' <= s[0] <= '9' || 'A' <= s[0] <= 'F'
    ensures '0' <= s[1] <= '9' || 'A' <= s[1] <= 'F'
  {
    [UPPER_HEX[b / 16], UPPER_HEX[b % 16]]
  }

  /** The byte that a two-digit hexadecimal pair denotes. */
  function PairValue(p: string): u8
    requires |p| == 2
  {
    16 * DigitValue(p[0]) + DigitValue(p[1])
  }

  /** Reading a pair back gives the byte. */
  lemma PairValueOfHexPair(b: u8)
    ensures PairValue(HexPair(b)) == b
  {
    DigitTables(b / 16);
    DigitTables(b % 16);
  }

  /** The Magic field: every byte as `{:02X?}` followed by one space. */
  function MagicText(bytes: seq<u8>): (s: string)
    ensures |s| == 3 * |bytes|
  {
    if bytes == [] then ""
    else MagicText(bytes[..|bytes| - 1]) + (HexPair(bytes[|bytes| - 1]) + " ")
  }

  /** Cell i of the Magic field is byte i in hexadecimal and a space. */
  lemma {:induction false} MagicTextCell(bytes: seq<u8>, i: nat)
    requires i < |bytes|
    ensures MagicText(bytes)[3 * i .. 3 * i + 3] == HexPair(bytes[i]) + " "
  {
    var n := |bytes|;
    var prefix := bytes[..n - 1];
    var head := MagicText(prefix);
    var cell := HexPair(bytes[n - 1]) + " ";
    assert MagicText(bytes) == head + cell;
    if i < n - 1 {
      MagicTextCell(prefix, i);
      assert prefix[i] == bytes[i];
      assert (head + cell)[3 * i .. 3 * i + 3] == head[3 * i .. 3 * i + 3];
    } else {
      assert (head + cell)[3 * i .. 3 * i + 3] == cell;
    }
  }

  /** Reads the bytes back from a Magic field, three characters per byte. */
  function ParseMagic(s: string): seq<u8>
  {
    if |s| < 3 then []
    else ParseMagic(s[..|s| - 3]) + [PairValue(s[|s| - 3 .. |s| - 1])]
  }

  lemma ParseMagicSnoc(s: string, pair: string)
    requires |pair| == 2
    ensures ParseMagic(s + (pair + " ")) == ParseMagic(s) + [PairValue(pair)]
  {
    var t := s + (pair + " ");
    assert t[..|t| - 3] == s;
    assert t[|t| - 3 .. |t| - 1] == pair;
  }

  lemma {:induction false} ParseMagicText(bytes: seq<u8>)
    ensures ParseMagic(MagicText(bytes)) == bytes
  {
    if bytes != [] {
      var prefix, last := bytes[..|bytes| - 1], bytes[|bytes| - 1];
      ParseMagicSnoc(MagicText(prefix), HexPair(last));
      PairValueOfHexPair(last);
      ParseMagicText(prefix);
      assert prefix + [last] == bytes;
    }
  }

  /** The lower-case hexadecimal digits of n, most significant first, without leading zeros. */
  function HexDigits(n: nat): (s: string)
    ensures 1 <= |s|
    ensures |s| == 1 <==> n < 16
    ensures |s| > 1 ==> s[0] != '0'
    ensures forall k :: 0 <= k < |s| ==> s[k] in LOWER_HEX
  {
    if n < 16 then [LOWER_HEX[n]]
    else
      var high := HexDigits(n / 16);
      if n / 16 < 16 then DigitTables(n / 16); high + [LOWER_HEX[n % 16]]
      else high + [LOWER_HEX[n % 16]]
  }

  /** The number a string of hexadecimal digits denotes. */
  function ParseHex(s: string): nat
  {
    if s == [] then 0 else 16 * ParseHex(s[..|s| - 1]) + DigitValue(s[|s| - 1])
  }

  lemma ParseHexSnoc(s: string, c: char)
    ensures ParseHex(s + [c]) == 16 * ParseHex(s) + DigitValue(c)
  {
    assert (s + [c])[..|s|] == s;
  }

  lemma {:induction false} ParseHexDigits(n: nat)
    ensures ParseHex(HexDigits(n)) == n
  {
    if n < 16 {
      DigitTables(n);
      ParseHexSnoc([], LOWER_HEX[n]);
      assert [] + [LOWER_HEX[n]] == HexDigits(n);
    } else {
      var high := HexDigits(n / 16);
      DigitTables(n % 16);
      ParseHexDigits(n / 16);
      assert HexDigits(n) == high + [LOWER_HEX[n % 16]];
      ParseHexSnoc(high, LOWER_HEX[n % 16]);
    }
  }

  /** `{:#x}`: lower-case hexadecimal with a `0x` prefix. */
  function HexLiteral(n: nat): (s: string)
    ensures |s| >= 3 && s[..2] == "0x"
    ensures forall k :: 2 <= k < |s| ==> s[k] in LOWER_HEX
    ensures |s| > 3 ==> s[2] != '0'
    ensures ParseHex(s[2..]) == n
  {
    ParseHexDigits(n);
    assert ("0x" + HexDigits(n))[2..] == HexDigits(n);
    "0x" + HexDigits(n)
  }

  /** `{}` of a number: its decimal digits, most significant first, without leading zeros. */
  function Decimal(n: nat): (s: string)
    ensures 1 <= |s|
    ensures |s| == 1 <==> n < 10
    ensures n < 100 ==> |s| <= 2
    ensures n < 1000 ==> |s| <= 3
    ensures |s| > 1 ==> s[0] != '0'
    ensures forall k :: 0 <= k < |s| ==> '0' <= s[k] <= '9'
  {
    DigitTables(n % 10);
    if n < 10 then [LOWER_HEX[n]]
    else
      var high := Decimal(n / 10);
      if n / 10 < 10 then DigitTables(n / 10); high + [LOWER_HEX[n % 10]]
      else high + [LOWER_HEX[n % 10]]
  }

  /** The number a string of decimal digits denotes. */
  function ParseDecimal(s: string): nat
  {
    if s == [] then 0 else 10 * ParseDecimal(s[..|s| - 1]) + DigitValue(s[|s| - 1])
  }

  lemma ParseDecimalSnoc(s: string, c: char)
    ensures ParseDecimal(s + [c]) == 10 * ParseDecimal(s) + DigitValue(c)
  {
    assert (s + [c])[..|s|] == s;
  }

  /** Reading the decimal digits of n back gives n. */
  lemma {:induction false} ParseDecimalDigits(n: nat)
    ensures ParseDecimal(Decimal(n)) == n
  {
    DigitTables(n % 10);
    if n < 10 {
      ParseDecimalSnoc([], LOWER_HEX[n]);
      assert [] + [LOWER_HEX[n]] == Decimal(n);
    } else {
      var high := Decimal(n / 10);
      ParseDecimalDigits(n / 10);
      assert Decimal(n) == high + [LOWER_HEX[n % 10]];
      ParseDecimalSnoc(high, LOWER_HEX[n % 10]);
    }
  }

  /** Distinct numbers render as distinct `{:#x}` texts. */
  lemma HexLiteralInjective(m: nat, n: nat)
    requires HexLiteral(m) == HexLiteral(n)
    ensures m == n
  {
    assert HexLiteral(m)[2..] == HexDigits(m);
    assert HexLiteral(n)[2..] == HexDigits(n);
    ParseHexDigits(m);
    ParseHexDigits(n);
  }
}
