/** What escapes mean, against the code points they spell: UTF-8 (RFC 3629 section 3) read
    back, and the escapes of RFC 8259 section 7 written out. */
module JsonUnicode {
  import opened Basics
  import opened JsonText
  import opened JsonScan

  /** A Unicode scalar value. */
  predicate Scalar(n: int) {
    0 <= n < 0xD800 || 0xE000 <= n <= 0x10FFFF
  }

  predicate Continues(c: char) {
    0x80 <= c as int < 0xC0
  }

  function Low(c: char): int {
    c as int - 0x80
  }

  /** The code point that these bytes are the one encoding of. */
  function Decode(s: string): Option<int> {
    if |s| == 1 && s[0] as int < 0x80 then Some(s[0] as int)
    else if |s| == 2 && 0xC0 <= s[0] as int < 0xE0 && Continues(s[1]) then
      Shortest(0x80, (s[0] as int - 0xC0) * 0x40 + Low(s[1]))
    else if |s| == 3 && 0xE0 <= s[0] as int < 0xF0 && Continues(s[1]) && Continues(s[2]) then
      Shortest(0x800, (s[0] as int - 0xE0) * 0x1000 + Low(s[1]) * 0x40 + Low(s[2]))
    else if |s| == 4 && 0xF0 <= s[0] as int < 0xF8 && Continues(s[1]) && Continues(s[2]) && Continues(s[3]) then
      Shortest(0x10000, (s[0] as int - 0xF0) * 0x40000 + Low(s[1]) * 0x1000 + Low(s[2]) * 0x40 + Low(s[3]))
    else None
  }

  /** Overlong forms, surrogates and values out of range are not encodings. */
  function Shortest(least: int, n: int): Option<int> {
    if least <= n && Scalar(n) then Some(n) else None
  }

  /** Every scalar value is written in its one encoding; anything else as U+FFFD. */
  lemma Utf8IsDecoded(n: nat)
    ensures Decode(Utf8(n)) == Some(if Scalar(n) then n else 0xFFFD)
  {
    if Scalar(n) {
      if n < 0x80 {
      } else if n < 0x800 {
        SixBits(n);
      } else {
        SixBits(n);
        SixBits(n / 0x40);
        SixBits(n / 0x1000);
      }
    }
  }

  lemma SixBits(n: nat)
    ensures n == n / 0x40 * 0x40 + n % 0x40 && 0 <= n % 0x40 < 0x40
    ensures n / 0x40 / 0x40 == n / 0x1000 && n / 0x1000 / 0x40 == n / 0x40000
  {}

  function HexDigit(n: nat, upper: bool): char
    requires n < 0x10
  {
    if upper then "0123456789ABCDEF"[n] else "0123456789abcdef"[n]
  }

  function Hex4Of(n: nat, upper: bool): string
    requires n < 0x10000
  {
    [HexDigit(n / 0x1000, upper), HexDigit(n / 0x100 % 0x10, upper), HexDigit(n / 0x10 % 0x10, upper), HexDigit(n % 0x10, upper)]
  }

  lemma DigitHasValue(n: nat, upper: bool)
    requires n < 0x10
    ensures IsHex(HexDigit(n, upper)) && HexValue(HexDigit(n, upper)) == n
  {}

  lemma FourDigits(a: char, b: char, c: char, d: char)
    requires IsHex(a) && IsHex(b) && IsHex(c) && IsHex(d)
    ensures HexDigits([a, b, c, d])
    ensures Hex4([a, b, c, d]) == 0x1000 * HexValue(a) + 0x100 * HexValue(b) + 0x10 * HexValue(c) + HexValue(d)
  {
    hide HexValue;
  }

  lemma Nibbles(n: nat)
    requires n < 0x10000
    ensures n / 0x1000 < 0x10
    ensures n == 0x1000 * (n / 0x1000) + 0x100 * (n / 0x100 % 0x10) + 0x10 * (n / 0x10 % 0x10) + n % 0x10
  {}

  lemma Hex4RoundTrip(n: nat, upper: bool)
    requires n < 0x10000
    ensures HexDigits(Hex4Of(n, upper)) && Hex4(Hex4Of(n, upper)) == n
  {
    hide HexDigit, HexValue, IsHex, HexDigits, Hex4;
    Nibbles(n);
    var a, b, c, d := n / 0x1000, n / 0x100 % 0x10, n / 0x10 % 0x10, n % 0x10;
    DigitHasValue(a, upper);
    DigitHasValue(b, upper);
    DigitHasValue(c, upper);
    DigitHasValue(d, upper);
    FourDigits(HexDigit(a, upper), HexDigit(b, upper), HexDigit(c, upper), HexDigit(d, upper));
  }

  /** The escape of a code point: four digits, or a surrogate pair. */
  function EscapeOf(n: nat, upper: bool): Spelled
    requires Scalar(n)
  {
    if n < 0x10000 then Hex(Hex4Of(n, upper))
    else Pair(Hex4Of(0xD800 + (n - 0x10000) / 0x400, upper), Hex4Of(0xDC00 + (n - 0x10000) % 0x400, upper))
  }

  /** Every code point's escape, in digits of either case, is well spelled and is unescaped
      to the code point's UTF-8 encoding. */
  lemma EscapesMeanCodePoints(n: nat, upper: bool)
    requires Scalar(n)
    ensures WellSpelled(EscapeOf(n, upper)) && Decode(Unescape(TextOf(EscapeOf(n, upper)))) == Some(n)
  {
    if n < 0x10000 {
      Hex4RoundTrip(n, upper);
    } else {
      Hex4RoundTrip(0xD800 + (n - 0x10000) / 0x400, upper);
      Hex4RoundTrip(0xDC00 + (n - 0x10000) % 0x400, upper);
    }
    Utf8IsDecoded(n);
    hide Utf8, Hex4, Hex4Of, Decode, HexDigits;
    OneUnit(EscapeOf(n, upper));
  }

  lemma OneUnit(u: Spelled)
    requires WellSpelled(u)
    ensures Unescape(TextOf(u)) == MeaningOf(u)
  {
    hide MeaningOf, TextOf, Unescape, WellSpelled;
    UnescapeIsMeaning([u]);
    assert [u][1..] == [];
    assert Text([u]) == TextOf(u) + "" == TextOf(u);
    assert Meaning([u]) == MeaningOf(u) + "" == MeaningOf(u);
  }

  /** The two-character escapes. */
  lemma ShortEscapes()
    ensures Unescape("\\\"") == "\"" && Unescape("\\\\") == "\\" && Unescape("\\/") == "/"
    ensures Unescape("\\b") == [8 as char] && Unescape("\\t") == [9 as char] && Unescape("\\n") == [10 as char]
    ensures Unescape("\\f") == [12 as char] && Unescape("\\r") == [13 as char]
  {
    hide Unescape, WellSpelled;
    assert forall c | c in "\"\\/bfnrt" :: WellSpelled(Short(c)) by { ShortIsWellSpelled(); }
    ShortEscape('"');
    ShortEscape('\\');
    ShortEscape('/');
    ShortEscape('b');
    ShortEscape('t');
    ShortEscape('n');
    ShortEscape('f');
    ShortEscape('r');
  }

  lemma ShortIsWellSpelled()
    ensures forall c | c in "\"\\/bfnrt" :: WellSpelled(Short(c))
  {}

  lemma ShortEscape(c: char)
    requires WellSpelled(Short(c))
    ensures Unescape(['\\', c]) == [ShortMeaning(c)]
  {
    OneUnit(Short(c));
    hide Unescape, ShortMeaning;
  }
}
