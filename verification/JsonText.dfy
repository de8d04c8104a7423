/** JSON texts as RFC 8259 writes them, whitespace and escapes included, and what their
    strings mean. One `char` stands for one byte. */
module JsonText {
  import opened Basics

  predicate IsWs(c: char) {
    c == ' ' || c == '\t' || c == '\n' || c == '\r'
  }

  predicate IsDigit(c: char) {
    '0' <= c <= '9'
  }

  predicate IsHex(c: char) {
    IsDigit(c) || 'a' <= c <= 'f' || 'A' <= c <= 'F'
  }

  predicate Blank(s: string) {
    forall c | c in s :: IsWs(c)
  }

  predicate Digits(s: string) {
    forall c | c in s :: IsDigit(c)
  }

  predicate HexDigits(s: string) {
    |s| == 4 && forall c | c in s :: IsHex(c)
  }

  function HexValue(c: char): nat
    requires IsHex(c)
  {
    if IsDigit(c) then c as int - '0' as int
    else if 'a' <= c then c as int - 'a' as int + 10
    else c as int - 'A' as int + 10
  }

  function Hex4(s: string): (n: nat)
    requires HexDigits(s)
  {
    0x1000 * HexValue(s[0]) + 0x100 * HexValue(s[1]) + 0x10 * HexValue(s[2]) + HexValue(s[3])
  }

  predicate HighSurrogate(n: int) {
    0xD800 <= n <= 0xDBFF
  }

  predicate LowSurrogate(n: int) {
    0xDC00 <= n <= 0xDFFF
  }

  /** A byte of the UTF-8 encoding. */
  function Byte(n: nat): char
    requires n < 0x100
  {
    n as char
  }

  /** UTF-8 (RFC 3629 section 3); surrogates and out-of-range values encode U+FFFD. */
  function Utf8(n: nat): string {
    if n < 0x80 then [Byte(n)]
    else if n < 0x800 then [Byte(0xC0 + n / 0x40), Byte(0x80 + n % 0x40)]
    else if HighSurrogate(n) || LowSurrogate(n) || n > 0x10FFFF then
      [Byte(0xEF), Byte(0xBF), Byte(0xBD)]
    else if n < 0x10000 then
      [Byte(0xE0 + n / 0x1000), Byte(0x80 + n / 0x40 % 0x40), Byte(0x80 + n % 0x40)]
    else
      [Byte(0xF0 + n / 0x40000), Byte(0x80 + n / 0x1000 % 0x40),
       Byte(0x80 + n / 0x40 % 0x40), Byte(0x80 + n % 0x40)]
  }

  // ---------------------------------------------------------------------------
  // Strings
  // ---------------------------------------------------------------------------

  /** One spelled unit of a string: a byte as it is, a two-character escape, a
      four-digit escape, or a surrogate pair of them. */
  datatype Spelled = Plain(c: char) | Short(c: char) | Hex(d: string) | Pair(hi: string, lo: string)

  predicate WellSpelled(u: Spelled) {
    match u
    case Plain(c) => c != '"' && c != '\\'
    case Short(c) => c in "\"\\/bfnrt"
    case Hex(d) => HexDigits(d) && !HighSurrogate(Hex4(d)) && !LowSurrogate(Hex4(d))
    case Pair(h, l) => HexDigits(h) && HexDigits(l) && HighSurrogate(Hex4(h)) && LowSurrogate(Hex4(l))
  }

  predicate AllWellSpelled(us: seq<Spelled>) {
    forall i | 0 <= i < |us| :: WellSpelled(us[i])
  }

  function TextOf(u: Spelled): string {
    match u
    case Plain(c) => [c]
    case Short(c) => ['\\', c]
    case Hex(d) => "\\u" + d
    case Pair(h, l) => "\\u" + h + ("\\u" + l)
  }

  function ShortMeaning(c: char): char {
    if c == 'b' then '\U{8}'
    else if c == 'f' then '\U{c}'
    else if c == 'n' then '\n'
    else if c == 'r' then '\r'
    else if c == 't' then '\t'
    else c
  }

  function MeaningOf(u: Spelled): string
    requires WellSpelled(u)
  {
    match u
    case Plain(c) => [c]
    case Short(c) => [ShortMeaning(c)]
    case Hex(d) => Utf8(Hex4(d))
    case Pair(h, l) => Utf8(0x10000 + (Hex4(h) - 0xD800) * 0x400 + (Hex4(l) - 0xDC00))
  }

  function Text(us: seq<Spelled>): string {
    if us == [] then "" else TextOf(us[0]) + Text(us[1..])
  }

  function Meaning(us: seq<Spelled>): string
    requires AllWellSpelled(us)
  {
    if us == [] then "" else MeaningOf(us[0]) + Meaning(us[1..])
  }

  function Quoted(us: seq<Spelled>): string {
    "\"" + Text(us) + "\""
  }

  // ---------------------------------------------------------------------------
  // Values
  // ---------------------------------------------------------------------------

  /** A number: sign, integer digits, optional fraction and exponent. */
  datatype Number = Number(minus: bool, whole: string, fraction: Option<string>, exponent: Option<(string, string)>)

  predicate WellFormedNumber(n: Number) {
    && n.whole != "" && Digits(n.whole)
    && (n.fraction.Some? ==> n.fraction.value != "" && Digits(n.fraction.value))
    && (n.exponent.Some? ==>
          && n.exponent.value.0 in ["e", "E", "e+", "E+", "e-", "E-"]
          && n.exponent.value.1 != "" && Digits(n.exponent.value.1))
  }

  function FractionText(n: Number): string {
    if n.fraction.Some? then "." + n.fraction.value else ""
  }

  function ExponentText(n: Number): string {
    if n.exponent.Some? then n.exponent.value.0 + n.exponent.value.1 else ""
  }

  function NumberText(n: Number): string {
    (if n.minus then "-" else "") + (n.whole + (FractionText(n) + ExponentText(n)))
  }

  /** A JSON value as written. Every place where RFC 8259 allows whitespace has a field. */
  datatype Json =
    | Word(text: string)
    | Num(number: Number)
    | Str(units: seq<Spelled>)
    | Arr(ws: string, items: Items)
    | Obj(ws: string, members: Members)

  datatype Items = NoItems | Item(before: string, value: Json, after: string, rest: Items)

  datatype Members =
    | NoMembers
    | Member(before: string, key: seq<Spelled>, colon: string, gap: string, value: Json, after: string, rest: Members)

  predicate WellFormed(v: Json) {
    match v
    case Word(t) => t in ["true", "false", "null"]
    case Num(n) => WellFormedNumber(n)
    case Str(us) => AllWellSpelled(us)
    case Arr(ws, items) => Blank(ws) && WellFormedItems(items)
    case Obj(ws, members) => Blank(ws) && WellFormedMembers(members)
  }

  predicate WellFormedItems(items: Items) {
    match items
    case NoItems => true
    case Item(b, v, a, rest) => Blank(b) && WellFormed(v) && Blank(a) && WellFormedItems(rest)
  }

  predicate WellFormedMembers(members: Members) {
    match members
    case NoMembers => true
    case Member(b, k, c, g, v, a, rest) =>
      Blank(b) && AllWellSpelled(k) && Blank(c) && Blank(g) && WellFormed(v) && Blank(a) && WellFormedMembers(rest)
  }

  function Print(v: Json): string {
    match v
    case Word(t) => t
    case Num(n) => NumberText(n)
    case Str(us) => Quoted(us)
    case Arr(ws, items) => "[" + ((if items.NoItems? then ws else PrintItems(items)) + "]")
    case Obj(ws, members) => "{" + ((if members.NoMembers? then ws else PrintMembers(members)) + "}")
  }

  function PrintItems(items: Items): string {
    match items
    case NoItems => ""
    case Item(b, v, a, rest) =>
      b + (Print(v) + (a + if rest.NoItems? then "" else "," + PrintItems(rest)))
  }

  function PrintMembers(members: Members): string {
    match members
    case NoMembers => ""
    case Member(b, k, c, g, v, a, rest) =>
      b + (Quoted(k) + (c + (":" + (g + (Print(v) + (a + if rest.NoMembers? then "" else "," + PrintMembers(rest)))))))
  }

  /** How deep objects and arrays nest. */
  function Depth(v: Json): nat {
    match v
    case Arr(_, items) => 1 + DepthOfItems(items)
    case Obj(_, members) => 1 + DepthOfMembers(members)
    case _ => 0
  }

  function DepthOfItems(items: Items): nat {
    match items
    case NoItems => 0
    case Item(_, v, _, rest) => Max(Depth(v), DepthOfItems(rest))
  }

  function DepthOfMembers(members: Members): nat {
    match members
    case NoMembers => 0
    case Member(_, _, _, _, v, _, rest) => Max(Depth(v), DepthOfMembers(rest))
  }

  /** The text after a value: nothing, or something no number can continue with. */
  predicate Delimited(post: string) {
    post == "" || IsWs(post[0]) || post[0] in ",]}"
  }
}
