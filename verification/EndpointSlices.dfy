/** The EndpointSlice watcher: which endpoints it takes from the slices of a Service, and
    when it publishes them. */
module EndpointSlices {
  import opened Basics
  import opened Endpoints

  datatype Family = IPv4 | IPv6 | FQDN

  datatype Port = Port(name: Option<string>, number: Option<int>)

  /** One entry of an EndpointSlice. */
  datatype Entry = Entry(
    ready: Option<bool>, serving: Option<bool>, terminating: Option<bool>, target: Option<string>,
    addresses: seq<string>, zone: Option<string>, node: Option<string>, hints: seq<string>)

  datatype Slice = Slice(family: Family, ports: seq<Port>, entries: seq<Entry>)

  function Default<T>(o: Option<T>, d: T): T {
    if o.Some? then o.value else d
  }

  function PortNamed(ports: seq<Port>, name: string): int {
    if ports == [] then 0
    else if ports[0].name == Some(name) && ports[0].number.Some? then ports[0].number.value
    else PortNamed(ports[1..], name)
  }

  /** The configured port: none, a number, or the name of a port. */
  function ResolvePort(ports: seq<Port>, override: string): int {
    if override == "" then (if ports != [] then Default(ports[0].number, 0) else 0)
    else if ParseInt32(override).Some? then ParseInt32(override).value
    else PortNamed(ports, override)
  }

  // ---------------------------------------------------------------------------
  // Decimal numbers
  // ---------------------------------------------------------------------------

  function Digits(n: nat): string {
    var d := "0123456789"[n % 10];
    if n < 10 then [d] else Digits(n / 10) + [d]
  }

  function Decimal(n: int): string {
    if n < 0 then "-" + Digits(-n) else Digits(n)
  }

  predicate AllDigits(s: string) {
    s != "" && forall c | c in s :: '0' <= c <= '9'
  }

  function ValueOf(s: string): int
    requires forall c | c in s :: '0' <= c <= '9'
  {
    if s == "" then 0
    else
      var front, last := s[..|s| - 1], s[|s| - 1];
      assert last in s && forall c | c in front :: c in s;
      10 * ValueOf(front) + (last as int - '0' as int)
  }

  predicate IsInt32(n: int) {
    -0x8000_0000 <= n < 0x8000_0000
  }

  /** A sign, if any, and digits. */
  predicate IntLiteral(s: string) {
    AllDigits(if s != "" && s[0] in "+-" then s[1..] else s)
  }

  function LiteralValue(s: string): int
    requires IntLiteral(s)
  {
    if s[0] == '-' then -ValueOf(s[1..]) else if s[0] == '+' then ValueOf(s[1..]) else ValueOf(s)
  }

  /** strconv.ParseInt in base 10 for 32 bits. */
  function ParseInt32(s: string): Option<int> {
    if IntLiteral(s) && IsInt32(LiteralValue(s)) then Some(LiteralValue(s)) else None
  }

  lemma {:induction false} DigitsHaveValue(n: nat)
    ensures AllDigits(Digits(n)) && ValueOf(Digits(n)) == n
  {
    DigitsAreDigits(n);
    if n >= 10 {
      DigitsHaveValue(n / 10);
      var ds := Digits(n);
      assert ds[..|ds| - 1] == Digits(n / 10);
      assert ds[|ds| - 1] as int - '0' as int == n % 10;
    } else {
      assert Digits(n)[..0] == "";
    }
  }

  /** A number written in decimal is read back, unless it does not fit 32 bits. */
  lemma DecimalParses(n: int)
    ensures IntLiteral(Decimal(n)) && LiteralValue(Decimal(n)) == n
    ensures ParseInt32(Decimal(n)) == if -2147483648 <= n <= 2147483647 then Some(n) else None
  {
    DigitsHaveValue(if n < 0 then -n else n);
    hide Digits, ValueOf;
    if n < 0 {
      assert Decimal(n)[1..] == Digits(-n);
    } else {
      assert Digits(n)[0] in Digits(n);
    }
  }

  function Zeros(k: nat): (z: string)
    ensures |z| == k
  {
    seq(k, _ => '0')
  }

  lemma {:induction false} ZerosAddNothing(k: nat, ds: string)
    requires AllDigits(ds)
    ensures AllDigits(Zeros(k) + ds) && ValueOf(Zeros(k) + ds) == ValueOf(ds)
    decreases ds
  {
    var all, n := Zeros(k) + ds, |ds| - 1;
    assert all[..|all| - 1] == Zeros(k) + ds[..n] && all[|all| - 1] == ds[n];
    if n > 0 {
      assert forall c | c in ds[..n] :: c in ds;
      ZerosAddNothing(k, ds[..n]);
    } else {
      assert Zeros(k) + ds[..n] == Zeros(k) && ds[..n] == "";
      ZerosAreNothing(k);
    }
  }

  lemma {:induction false} ZerosAreNothing(k: nat)
    ensures ValueOf(Zeros(k)) == 0
  {
    if k > 0 {
      ZerosAreNothing(k - 1);
      assert Zeros(k)[..k - 1] == Zeros(k - 1);
    }
  }

  lemma LastDigit(d: char)
    requires '0' <= d <= '9'
    ensures var v := d as int - '0' as int; 0 <= v < 10 && "0123456789"[v] == d && Digits(v) == [d]
  {}

  lemma DigitsUnfold(q: nat, d: char)
    requires '0' <= d <= '9' && q > 0
    ensures Digits(10 * q + (d as int - '0' as int)) == Digits(q) + [d]
  {
    LastDigit(d);
    var m := 10 * q + (d as int - '0' as int);
    assert m >= 10 && m / 10 == q && m % 10 == d as int - '0' as int;
  }

  lemma ValueUnfolds(front: string, d: char)
    requires AllDigits(front) && '0' <= d <= '9'
    ensures AllDigits(front + [d]) && ValueOf(front + [d]) == 10 * ValueOf(front) + (d as int - '0' as int)
  {
    assert (front + [d])[..|front|] == front;
  }

  lemma OneDigitValue(d: char)
    requires '0' <= d <= '9'
    ensures AllDigits([d]) && ValueOf([d]) == d as int - '0' as int
  {
    assert [d][..0] == "";
  }

  lemma ZeroDigit(k: nat)
    ensures Zeros(k) + Digits(0) == Zeros(k + 1)
  {}

  /** Every digit string is a decimal numeral behind some zeros. */
  lemma {:induction false} DigitsAreNumeral(ds: string) returns (k: nat)
    requires AllDigits(ds)
    ensures ValueOf(ds) >= 0 && ds == Zeros(k) + Digits(ValueOf(ds))
  {
    hide Digits, ValueOf, Zeros;
    var front, d := ds[..|ds| - 1], ds[|ds| - 1];
    assert d in ds && ds == front + [d];
    LastDigit(d);
    if front == "" {
      k := 0;
      OneDigitValue(d);
      assert ds == [d] && Zeros(0) == "";
    } else {
      assert forall c | c in front :: c in ds;
      k := DigitsAreNumeral(front);
      ValueUnfolds(front, d);
      if ValueOf(front) == 0 {
        ZeroDigit(k);
        k := k + 1;
      } else {
        DigitsUnfold(ValueOf(front), d);
        ConcatAssociates(Zeros(k), Digits(ValueOf(front)), [d]);
      }
    }
  }

  /** A decimal numeral behind a sign or none and any zeros. */
  predicate Numeral(s: string, sign: string, k: nat, m: nat) {
    (sign == "" || sign == "+" || sign == "-") && s == sign + (Zeros(k) + Digits(m))
  }

  function Signed(sign: string, m: nat): int {
    if sign == "-" then 0 - m else m
  }

  lemma NumeralIsLiteral(s: string, sign: string, k: nat, m: nat)
    requires Numeral(s, sign, k, m)
    ensures IntLiteral(s) && LiteralValue(s) == Signed(sign, m)
  {
    hide Digits, ValueOf, Zeros, IntLiteral, LiteralValue;
    DigitsHaveValue(m);
    ZerosAddNothing(k, Digits(m));
    SignedLiteral(sign, Zeros(k) + Digits(m));
  }

  lemma LiteralIsNumeral(s: string)
    requires IntLiteral(s)
    ensures exists sign: string, k: nat, m: nat :: Numeral(s, sign, k, m)
  {
    hide Digits, ValueOf, Zeros;
    var signed := s != "" && s[0] in "+-";
    var sign, ds := if signed then s[..1] else "", if signed then s[1..] else s;
    assert s == sign + ds;
    var k := DigitsAreNumeral(ds);
    assert Numeral(s, sign, k, ValueOf(ds));
  }

  /** Exactly what is read as a number: a decimal numeral that fits 32 bits, behind a sign or
      none and any zeros. */
  lemma ParsedIffNumeral(s: string, n: int)
    ensures ParseInt32(s) == Some(n) <==>
      && -2147483648 <= n <= 2147483647
      && exists sign: string, k: nat, m: nat :: Numeral(s, sign, k, m) && n == Signed(sign, m)
  {
    hide Numeral, IntLiteral, LiteralValue;
    if sign: string, k: nat, m: nat :| Numeral(s, sign, k, m) && n == Signed(sign, m) {
      NumeralIsLiteral(s, sign, k, m);
    }
    if ParseInt32(s) == Some(n) {
      LiteralIsNumeral(s);
      var sign: string, k: nat, m: nat :| Numeral(s, sign, k, m);
      NumeralIsLiteral(s, sign, k, m);
    }
  }

  lemma SignedLiteral(sign: string, ds: string)
    requires AllDigits(ds) && (sign == "" || sign == "+" || sign == "-")
    ensures IntLiteral(sign + ds)
    ensures LiteralValue(sign + ds) == if sign == "-" then -ValueOf(ds) else ValueOf(ds)
  {
    assert ds[0] in ds;
    assert sign == "" ==> sign + ds == ds;
    assert sign != "" ==> (sign + ds)[1..] == ds && (sign + ds)[0] == sign[0];
    hide ValueOf;
  }

  // ---------------------------------------------------------------------------
  // Synthetic names
  // ---------------------------------------------------------------------------

  function FoldChar(c: char): char {
    if c == '-' || 'a' <= c <= 'z' || 'A' <= c <= 'Z' || '0' <= c <= '9' then c else '_'
  }

  function Fold(addr: string): string {
    seq(|addr|, i requires 0 <= i < |addr| => FoldChar(addr[i]))
  }

  /** A VCL-safe name for an endpoint that refers to no pod. */
  function SyntheticName(addr: string, port: int): string {
    Fold(addr) + ("_" + Decimal(port))
  }

  lemma {:induction false} DigitsAreDigits(n: nat)
    ensures Digits(n) != "" && forall c | c in Digits(n) :: '0' <= c <= '9'
  {
    if n >= 10 {
      DigitsAreDigits(n / 10);
    }
  }

  lemma {:induction false} DigitsAreInjective(m: nat, n: nat)
    requires Digits(m) == Digits(n)
    ensures m == n
  {
    DigitsAreDigits(m / 10);
    DigitsAreDigits(n / 10);
    var a, b := Digits(m), Digits(n);
    assert a[|a| - 1] == "0123456789"[m % 10] && b[|b| - 1] == "0123456789"[n % 10];
    if m >= 10 && n >= 10 {
      assert Digits(m / 10) == a[..|a| - 1] == b[..|b| - 1] == Digits(n / 10);
      DigitsAreInjective(m / 10, n / 10);
    }
  }

  lemma MinusIffNegative(n: int)
    ensures Decimal(n) != "" && (Decimal(n)[0] == '-' <==> n < 0)
    ensures n < 0 ==> Decimal(n)[1..] == Digits(-n)
  {
    DigitsAreDigits(if n < 0 then -n else n);
    hide Digits;
    if n >= 0 {
      assert Digits(n)[0] in Digits(n);
    }
  }

  lemma DecimalIsInjective(m: int, n: int)
    requires Decimal(m) == Decimal(n)
    ensures m == n
  {
    hide Digits;
    MinusIffNegative(m);
    MinusIffNegative(n);
    if m < 0 {
      DigitsAreInjective(-m, -n);
    } else {
      DigitsAreInjective(m, n);
    }
  }

  lemma DecimalHasNoUnderscore(n: int)
    ensures '_' !in Decimal(n)
  {
    DigitsAreDigits(if n < 0 then -n else n);
    hide Digits;
  }

  lemma NoUnderscoreAfter(a: string, p: string)
    requires '_' !in p
    ensures var s := a + ("_" + p); s[|a|] == '_' && forall i | |a| < i < |s| :: s[i] != '_'
  {
    var s := a + ("_" + p);
    forall i | |a| < i < |s| ensures s[i] != '_' {
      var j := i - |a| - 1;
      assert s[i] == p[j];
    }
  }

  /** A string splits at its last underscore in one way. */
  lemma LastUnderscore(a: string, p: string, b: string, q: string)
    requires a + ("_" + p) == b + ("_" + q) && '_' !in p && '_' !in q
    ensures a == b && p == q
  {
    var s, t := a + ("_" + p), b + ("_" + q);
    NoUnderscoreAfter(a, p);
    NoUnderscoreAfter(b, q);
    assert a == s[..|a|] && b == t[..|b|];
    assert p == s[|a| + 1..] && q == t[|b| + 1..];
  }

  /** Two nameless endpoints share a name exactly if their ports agree and their addresses
      differ in nothing but the characters folded away. */
  lemma SyntheticNamesCollideIff(a: string, p: int, b: string, q: int)
    ensures SyntheticName(a, p) == SyntheticName(b, q) <==> Fold(a) == Fold(b) && p == q
  {
    hide Fold, Decimal;
    if SyntheticName(a, p) == SyntheticName(b, q) {
      DecimalHasNoUnderscore(p);
      DecimalHasNoUnderscore(q);
      LastUnderscore(Fold(a), Decimal(p), Fold(b), Decimal(q));
      DecimalIsInjective(p, q);
    }
  }

  /** VCL identifiers are made of these. */
  predicate VclSafe(c: char) {
    'A' <= c <= 'Z' || 'a' <= c <= 'z' || '0' <= c <= '9' || c == '_' || c == '-'
  }

  /** The name is a VCL identifier's text: the address with every other character replaced,
      an underscore, and the port. */
  lemma SyntheticNameIsSafe(addr: string, port: int)
    ensures var name := SyntheticName(addr, port);
      && (forall c | c in name :: VclSafe(c))
      && |addr| < |name| && name[|addr|..] == "_" + Decimal(port)
      && forall i | 0 <= i < |addr| :: name[i] == if VclSafe(addr[i]) then addr[i] else '_'
  {
    var name := SyntheticName(addr, port);
    DigitsAreDigits(if port < 0 then -port else port);
    hide Digits;
    assert forall c | c in Decimal(port) :: VclSafe(c);
    assert forall i | 0 <= i < |addr| :: name[i] == Fold(addr)[i];
    assert name[|addr|..] == "_" + Decimal(port);
    forall i | 0 <= i < |name| ensures VclSafe(name[i]) {
      if i > |addr| {
        assert name[i] == Decimal(port)[i - |addr| - 1];
      }
    }
  }

  /** Addresses that use one separator, as those of one family normally do, keep their
      synthetic names apart. */
  lemma OneSeparatorKeepsNamesApart(a: string, p: int, b: string, q: int, sep: char)
    requires forall c | c in a + b :: FoldChar(c) == c != '_' || c == sep
    requires SyntheticName(a, p) == SyntheticName(b, q)
    ensures a == b && p == q
  {
    SyntheticNamesCollideIff(a, p, b, q);
    hide SyntheticName, FoldChar;
    assert |Fold(a)| == |a| && |Fold(b)| == |b|;
    forall i | 0 <= i < |a| ensures a[i] == b[i] {
      assert a[i] in a + b && b[i] in a + b;
      assert Fold(a)[i] == FoldChar(a[i]) && Fold(b)[i] == FoldChar(b[i]);
      FoldApart(a[i], b[i], sep);
    }
  }

  lemma FoldApart(c: char, d: char, sep: char)
    requires FoldChar(c) == c != '_' || c == sep
    requires FoldChar(d) == d != '_' || d == sep
    requires FoldChar(c) == FoldChar(d)
    ensures c == d
  {}

  /** Names are not unique in general: IPv6 notation allows both separators. */
  lemma MappedAddressesCollide(port: int)
    ensures SyntheticName("64:ff9b::1.2.3.4", port) == SyntheticName("64:ff9b::1:2:3:4", port)
  {
    var a, b := "64:ff9b::1.2.3.4", "64:ff9b::1:2:3:4";
    assert forall i | 0 <= i < 16 :: FoldChar(a[i]) == FoldChar(b[i]);
    assert Fold(a) == Fold(b);
  }

  // ---------------------------------------------------------------------------
  // Which endpoints are taken
  // ---------------------------------------------------------------------------

  /** IPv4 as soon as any IPv4 slice exists. */
  function ServedFamily(slices: seq<Slice>): Family {
    if exists s | s in slices :: s.family.IPv4? then IPv4 else IPv6
  }

  predicate Ready(e: Entry) {
    e.ready.None? || e.ready.value
  }

  predicate ServingTerminating(e: Entry) {
    !Ready(e) && e.serving == Some(true) && e.terminating == Some(true)
  }

  function EndpointOf(e: Entry, port: int): Endpoint
    requires e.addresses != []
  {
    var name := Default(e.target, "");
    Endpoint(e.addresses[0], port, if name == "" then SyntheticName(e.addresses[0], port) else name,
             Default(e.zone, ""), Default(e.node, ""), e.hints)
  }

  /** The endpoints of one slice: the ready ones, or the serving-terminating ones. */
  function FromEntries(es: seq<Entry>, port: int, ready: bool): seq<Endpoint> {
    if es == [] then []
    else
      var front, e := FromEntries(es[..|es| - 1], port, ready), es[|es| - 1];
      if (if ready then Ready(e) else ServingTerminating(e)) && e.addresses != [] then front + [EndpointOf(e, port)]
      else front
  }

  function FromSlices(ss: seq<Slice>, family: Family, o: string, ready: bool): seq<Endpoint> {
    if ss == [] then []
    else
      var front, s := FromSlices(ss[..|ss| - 1], family, o, ready), ss[|ss| - 1];
      if s.family == family then front + FromEntries(s.entries, ResolvePort(s.ports, o), ready) else front
  }

  /** What the watcher publishes for a store: ready endpoints, or if there are none the
      serving-terminating ones, in canonical order. */
  function Published(ss: seq<Slice>, o: string): seq<Endpoint> {
    var ready := FromSlices(ss, ServedFamily(ss), o, true);
    Canonical(if ready == [] then FromSlices(ss, ServedFamily(ss), o, false) else ready)
  }

  lemma {:induction false} FromSlicesConcat(a: seq<Slice>, b: seq<Slice>, f: Family, o: string, ready: bool)
    ensures FromSlices(a + b, f, o, ready) == FromSlices(a, f, o, ready) + FromSlices(b, f, o, ready)
    decreases b
  {
    hide FromEntries, ResolvePort;
    if b == [] {
      assert a + b == a;
      assert FromSlices(b, f, o, ready) == [];
    } else {
      var n := |b| - 1;
      assert (a + b)[..|a + b| - 1] == a + b[..n] && (a + b)[|a + b| - 1] == b[n];
      FromSlicesConcat(a, b[..n], f, o, ready);
    }
  }

  lemma FromSlicesAround(before: seq<Slice>, x: Slice, after: seq<Slice>, f: Family, o: string, ready: bool)
    ensures multiset(FromSlices(before + [x] + after, f, o, ready))
            == multiset(FromSlices(before + after, f, o, ready)) + multiset(FromSlices([x], f, o, ready))
  {
    hide FromSlices;
    FromSlicesConcat(before, after, f, o, ready);
    FromSlicesConcat(before + [x], after, f, o, ready);
    FromSlicesConcat(before, [x], f, o, ready);
  }

  /** Listing the slices in another order yields the same multiset of endpoints. */
  lemma {:induction false} FromSlicesIgnoresOrder(a: seq<Slice>, b: seq<Slice>, f: Family, o: string, ready: bool)
    requires multiset(a) == multiset(b)
    ensures multiset(FromSlices(a, f, o, ready)) == multiset(FromSlices(b, f, o, ready))
    decreases a
  {
    hide FromSlices;
    if a == [] {
      assert |multiset(b)| == 0;
    } else {
      var front, x := a[..|a| - 1], a[|a| - 1];
      assert a == front + [x] + [] && front + [] == front;
      var before, after := WithoutLast(a, b);
      FromSlicesIgnoresOrder(front, before + after, f, o, ready);
      FromSlicesAround(front, x, [], f, o, ready);
      FromSlicesAround(before, x, after, f, o, ready);
    }
  }

  lemma WithoutLast(a: seq<Slice>, b: seq<Slice>) returns (before: seq<Slice>, after: seq<Slice>)
    requires multiset(a) == multiset(b) && a != []
    ensures b == before + [a[|a| - 1]] + after
    ensures multiset(a[..|a| - 1]) == multiset(before + after)
  {
    var n := |a| - 1;
    var x := a[n];
    assert x in multiset(a);
    var k :| 0 <= k < |b| && b[k] == x;
    before, after := b[..k], b[k + 1..];
    RemoveAt(a, n);
    RemoveAt(b, k);
    assert a[..n] + a[n + 1..] == a[..n];
  }

  lemma RemoveAt(s: seq<Slice>, k: nat)
    requires k < |s|
    ensures s == s[..k] + [s[k]] + s[k + 1..]
    ensures multiset(s[..k] + s[k + 1..]) == multiset(s) - multiset{s[k]}
  {
    var t := s[..k] + [s[k]] + s[k + 1..];
    assert s == t;
    assert multiset(s) == multiset(t);
  }

  /** What is published does not depend on the order in which the lister returns slices. */
  lemma PublishedIgnoresListingOrder(a: seq<Slice>, b: seq<Slice>, o: string)
    requires multiset(a) == multiset(b)
    ensures Published(a, o) == Published(b, o)
  {
    hide FromSlices, Canonical;
    assert forall s :: s in a <==> s in multiset(a);
    assert forall s :: s in b <==> s in multiset(b);
    var f := ServedFamily(a);
    FromSlicesIgnoresOrder(a, b, f, o, true);
    FromSlicesIgnoresOrder(a, b, f, o, false);
    EmptyIffEmpty(FromSlices(a, f, o, true), FromSlices(b, f, o, true));
    CanonicalIsFunctionOfMultiset(
      if FromSlices(a, f, o, true) == [] then FromSlices(a, f, o, false) else FromSlices(a, f, o, true),
      if FromSlices(b, f, o, true) == [] then FromSlices(b, f, o, false) else FromSlices(b, f, o, true));
  }

  lemma EmptyIffEmpty(a: seq<Endpoint>, b: seq<Endpoint>)
    requires multiset(a) == multiset(b)
    ensures a == [] <==> b == []
  {
    assert |multiset(a)| == |a| && |multiset(b)| == |b|;
  }

  // ---------------------------------------------------------------------------
  // What is published, in terms of the slices' own fields
  // ---------------------------------------------------------------------------

  /** The address family whose slices count. */
  ghost predicate Serves(ss: seq<Slice>, s: Slice) {
    s in ss && if exists t :: t in ss && t.family == IPv4 then s.family == IPv4 else s.family == IPv6
  }

  /** Known or presumed ready, with an address. */
  predicate Usable(e: Entry) {
    e.addresses != [] && (e.ready == None || e.ready == Some(true))
  }

  /** On its way out but still serving, with an address. */
  predicate Draining(e: Entry) {
    e.addresses != [] && e.ready == Some(false) && e.serving == Some(true) && e.terminating == Some(true)
  }

  ghost predicate AnyUsable(ss: seq<Slice>) {
    exists s, e :: Serves(ss, s) && e in s.entries && Usable(e)
  }

  /** Draining entries count only while nothing is usable. */
  ghost predicate Counts(ss: seq<Slice>, e: Entry) {
    if AnyUsable(ss) then Usable(e) else Draining(e)
  }

  /** The endpoint carries the entry's first address, the port, and the entry's name, zone,
      node and hints. */
  predicate Describes(x: Endpoint, e: Entry, port: int) {
    && e.addresses != [] && x.host == e.addresses[0] && x.port == port
    && (if e.target.Some? && e.target.value != "" then x.name == e.target.value
        else x.name == SyntheticName(x.host, port))
    && (if e.zone.Some? then x.zone == e.zone.value else x.zone == "")
    && (if e.node.Some? then x.nodeName == e.node.value else x.nodeName == "")
    && x.forZones == e.hints
  }

  /** An entry of the slice describes the endpoint: a usable or a draining one. */
  ghost predicate SliceBacks(s: Slice, o: string, ready: bool, x: Endpoint) {
    exists e :: e in s.entries && (if ready then Usable(e) else Draining(e)) && Describes(x, e, ResolvePort(s.ports, o))
  }

  ghost predicate Backs(ss: seq<Slice>, family: Family, o: string, ready: bool, x: Endpoint) {
    exists s :: s in ss && s.family == family && SliceBacks(s, o, ready, x)
  }

  lemma {:induction false} EntriesBack(es: seq<Entry>, port: int, ready: bool, x: Endpoint)
    ensures x in FromEntries(es, port, ready) <==>
            exists e :: e in es && (if ready then Usable(e) else Draining(e)) && Describes(x, e, port)
  {
    if es != [] {
      hide SyntheticName;
      var n := |es| - 1;
      assert es == es[..n] + [es[n]];
      EntriesBack(es[..n], port, ready, x);
      EntryIs(es[n], port, x);
      hide Describes, EndpointOf;
    }
  }

  lemma EntryIs(e: Entry, port: int, x: Endpoint)
    ensures Usable(e) <==> Ready(e) && e.addresses != []
    ensures Draining(e) <==> ServingTerminating(e) && e.addresses != []
    ensures e.addresses != [] ==> (x == EndpointOf(e, port) <==> Describes(x, e, port))
  {
    hide SyntheticName;
  }

  lemma BacksSnoc(ss: seq<Slice>, s: Slice, f: Family, o: string, ready: bool, x: Endpoint)
    ensures Backs(ss + [s], f, o, ready, x) <==>
            Backs(ss, f, o, ready, x) || (s.family == f && SliceBacks(s, o, ready, x))
  {
    hide SliceBacks;
    assert s in ss + [s];
    if t :| t in ss && t.family == f && SliceBacks(t, o, ready, x) {
      assert t in ss + [s];
    }
  }

  lemma {:induction false} SlicesBack(ss: seq<Slice>, f: Family, o: string, ready: bool, x: Endpoint)
    ensures x in FromSlices(ss, f, o, ready) <==> Backs(ss, f, o, ready, x)
  {
    if ss != [] {
      hide Describes, FromEntries, ResolvePort, Usable, Draining, Backs;
      var n := |ss| - 1;
      assert ss == ss[..n] + [ss[n]];
      SlicesBack(ss[..n], f, o, ready, x);
      EntriesBack(ss[n].entries, ResolvePort(ss[n].ports, o), ready, x);
      BacksSnoc(ss[..n], ss[n], f, o, ready, x);
    }
  }

  lemma ServedFamilyIs(ss: seq<Slice>, s: Slice)
    ensures s in ss && s.family == ServedFamily(ss) <==> Serves(ss, s)
  {}

  lemma UsableIff(ss: seq<Slice>, o: string)
    ensures FromSlices(ss, ServedFamily(ss), o, true) != [] <==> AnyUsable(ss)
  {
    hide FromSlices, ResolvePort, SyntheticName, Describes, ServedFamily, Serves;
    var f, xs := ServedFamily(ss), FromSlices(ss, ServedFamily(ss), o, true);
    if AnyUsable(ss) {
      var s, e :| Serves(ss, s) && e in s.entries && Usable(e);
      var port := ResolvePort(s.ports, o);
      EntryIs(e, port, EndpointOf(e, port));
      ServedFamilyIs(ss, s);
      assert SliceBacks(s, o, true, EndpointOf(e, port));
      SlicesBack(ss, f, o, true, EndpointOf(e, port));
    }
    if xs != [] {
      SlicesBack(ss, f, o, true, xs[0]);
      var s :| s in ss && s.family == f && SliceBacks(s, o, true, xs[0]);
      ServedFamilyIs(ss, s);
    }
  }

  /** Some entry that counts describes the endpoint. */
  ghost predicate Deserved(ss: seq<Slice>, o: string, x: Endpoint) {
    exists s, e :: Serves(ss, s) && e in s.entries && Counts(ss, e) && Describes(x, e, ResolvePort(s.ports, o))
  }

  lemma TakenIffDeserved(ss: seq<Slice>, o: string, x: Endpoint)
    ensures x in FromSlices(ss, ServedFamily(ss), o, AnyUsable(ss)) <==> Deserved(ss, o, x)
  {
    hide FromSlices, ResolvePort, Describes, AnyUsable, ServedFamily, Serves, Usable, Draining;
    var ready := AnyUsable(ss);
    SlicesBack(ss, ServedFamily(ss), o, ready, x);
    forall s ensures s in ss && s.family == ServedFamily(ss) <==> Serves(ss, s) {
      ServedFamilyIs(ss, s);
    }
    if s :| s in ss && s.family == ServedFamily(ss) && SliceBacks(s, o, ready, x) {
      var e :| e in s.entries && (if ready then Usable(e) else Draining(e)) && Describes(x, e, ResolvePort(s.ports, o));
      assert Serves(ss, s) && Counts(ss, e);
    }
    if Deserved(ss, o, x) {
      var s, e :| Serves(ss, s) && e in s.entries && Counts(ss, e) && Describes(x, e, ResolvePort(s.ports, o));
      assert SliceBacks(s, o, ready, x);
    }
  }

  lemma PublishedIs(ss: seq<Slice>, o: string)
    ensures Published(ss, o) == Canonical(FromSlices(ss, ServedFamily(ss), o, AnyUsable(ss)))
  {
    hide FromSlices, Canonical, AnyUsable, ServedFamily;
    UsableIff(ss, o);
  }

  /** Every published endpoint is described by an entry that counts: ready or of unknown
      readiness, or while there is none of those serving and terminating, in an IPv4 slice if
      there is one and else in an IPv6 slice. */
  lemma PublishedIsDescribed(ss: seq<Slice>, o: string, x: Endpoint)
    requires x in Published(ss, o)
    ensures exists s, e ::
      Serves(ss, s) && e in s.entries && Counts(ss, e) && Describes(x, e, ResolvePort(s.ports, o))
  {
    hide Published, FromSlices, Canonical, AnyUsable, ServedFamily, Serves, Counts, Describes, ResolvePort, LeastOfAddress;
    PublishedIs(ss, o);
    var all := FromSlices(ss, ServedFamily(ss), o, AnyUsable(ss));
    CanonicalCoversAddresses(all);
    LeastIsMember(x, all);
    TakenIffDeserved(ss, o, x);
  }

  lemma LeastIsMember(x: Endpoint, s: seq<Endpoint>)
    ensures LeastOfAddress(x, s) ==> x in s
  {}

  /** An address and port are published if and only if they are the first address of an entry
      that counts and the port its slice resolves to. */
  lemma PublishedIffCounts(ss: seq<Slice>, o: string, host: string, port: int)
    ensures (exists x :: x in Published(ss, o) && x.host == host && x.port == port)
      <==> exists s, e :: Serves(ss, s) && e in s.entries && Counts(ss, e)
                          && e.addresses[0] == host && ResolvePort(s.ports, o) == port
  {
    hide Published, FromSlices, Canonical, AnyUsable, ServedFamily, Serves, ResolvePort, LeastOfAddress, SyntheticName;
    if s, e :| Serves(ss, s) && e in s.entries && Counts(ss, e)
               && e.addresses[0] == host && ResolvePort(s.ports, o) == port {
      EntryIs(e, port, EndpointOf(e, port));
      TakenIffDeserved(ss, o, EndpointOf(e, port));
      PublishedIs(ss, o);
      var all := FromSlices(ss, ServedFamily(ss), o, AnyUsable(ss));
      CanonicalCoversAddresses(all);
      assert Covered(EndpointOf(e, port), Canonical(all));
    }
    if x :| x in Published(ss, o) && x.host == host && x.port == port {
      PublishedIsDescribed(ss, o, x);
    }
  }

  /** The port of a slice: the configured number; or the first port of the configured name
      that has a number; or without configuration the number of the first port; else 0. */
  lemma {:induction false} ResolvedPort(ports: seq<Port>, o: string)
    ensures o == "" ==>
      ResolvePort(ports, o) == (if ports != [] && ports[0].number.Some? then ports[0].number.value else 0)
    ensures forall n :: o == Decimal(n) && IsInt32(n) ==> ResolvePort(ports, o) == n
    ensures o != "" && (IntLiteral(o) ==> !IsInt32(LiteralValue(o))) ==>
      || (exists i :: 0 <= i < |ports| && ports[i] == Port(Some(o), Some(ResolvePort(ports, o)))
                      && forall j | 0 <= j < i :: ports[j].name == Some(o) ==> ports[j].number == None)
      || (ResolvePort(ports, o) == 0 && forall p | p in ports :: p.name == Some(o) ==> p.number == None)
  {
    forall n | o == Decimal(n) && IsInt32(n) ensures ResolvePort(ports, o) == n {
      DecimalParses(n);
      MinusIffNegative(n);
    }
    PortNamedIs(ports, o);
    hide Decimal, LiteralValue, IntLiteral, PortNamed;
  }

  lemma {:induction false} PortNamedIs(ports: seq<Port>, o: string)
    ensures
      || (exists i :: 0 <= i < |ports| && ports[i] == Port(Some(o), Some(PortNamed(ports, o)))
                      && forall j | 0 <= j < i :: ports[j].name == Some(o) ==> ports[j].number == None)
      || (PortNamed(ports, o) == 0 && forall p | p in ports :: p.name == Some(o) ==> p.number == None)
  {
    if ports != [] && !(ports[0].name == Some(o) && ports[0].number.Some?) {
      PortNamedIs(ports[1..], o);
      assert ports == [ports[0]] + ports[1..];
      if i :| 0 <= i < |ports| - 1 && ports[1..][i] == Port(Some(o), Some(PortNamed(ports, o)))
              && forall j | 0 <= j < i :: ports[1..][j].name == Some(o) ==> ports[1..][j].number == None {
        assert ports[i + 1] == Port(Some(o), Some(PortNamed(ports, o)));
        forall j | 0 <= j < i + 1 ensures ports[j].name == Some(o) ==> ports[j].number == None {
          if j > 0 {
            assert ports[j] == ports[1..][j - 1];
          }
        }
      }
    }
  }

  // ---------------------------------------------------------------------------
  // When they are published
  // ---------------------------------------------------------------------------

  /** The watcher with its channel of capacity one; `sent` counts sends. */
  datatype Watch = Watch(previous: seq<Endpoint>, synced: bool, channel: Option<seq<Endpoint>>, sent: nat)

  function SyncStep(w: Watch, ss: seq<Slice>, o: string): Watch {
    var eps := Published(ss, o);
    if w.synced && eps == w.previous then w else Watch(eps, true, Some(eps), w.sent + 1)
  }

  /** Syncing an unchanged store again, in whatever order it is listed, sends nothing; a
      first or a changing sync leaves the new list in the channel. */
  lemma SyncSendsChangesOnly(w: Watch, a: seq<Slice>, b: seq<Slice>, o: string)
    ensures var w1 := SyncStep(w, a, o);
      && w1.previous == Published(a, o) && w1.synced
      && (w1.sent > w.sent <==> !w.synced || w.previous != Published(a, o))
      && (w1.sent > w.sent ==> w1.channel == Some(Published(a, o)))
      && (multiset(a) == multiset(b) ==> SyncStep(w1, b, o) == w1)
  {
    if multiset(a) == multiset(b) {
      PublishedIgnoresListingOrder(a, b, o);
    }
    hide Published;
  }

  /** Sorting with the total order; the library's algorithm stands for any that sorts. */
  method SortEndpoints(eps: seq<Endpoint>) returns (r: seq<Endpoint>)
    ensures r == Sorted(eps)
  {
    hide Insert, Leq;
    r := [];
    for i := 0 to |eps|
      invariant r == Sorted(eps[..i])
    {
      assert eps[..i + 1][..i] == eps[..i];
      r := Insert(r, eps[i]);
    }
    assert eps[..|eps|] == eps;
  }

  method CanonicalizeEndpoints(eps: seq<Endpoint>) returns (r: seq<Endpoint>)
    ensures r == Canonical(eps)
  {
    hide Sorted;
    var sorted := SortEndpoints(eps);
    r := [];
    for i := 0 to |sorted|
      invariant r == Compact(sorted[..i])
    {
      assert sorted[..i + 1][..i] == sorted[..i];
      if i == 0 || !SameAddress(sorted[i - 1], sorted[i]) {
        r := r + [sorted[i]];
      }
    }
    assert sorted[..|sorted|] == sorted;
  }

  method EndpointsEqual(a: seq<Endpoint>, b: seq<Endpoint>) returns (equal: bool)
    ensures equal <==> a == b
  {
    if |a| != |b| {
      return false;
    }
    var i := 0;
    while i < |a| && i < |b|
      invariant 0 <= i <= |a|
      invariant a[..i] == b[..i]
    {
      if a[i] != b[i] {
        return false;
      }
      i := i + 1;
    }
    assert a[..|a|] == a && b[..|a|] == b;
    return true;
  }

  class Watcher {
    const portOverride: string
    var previous: seq<Endpoint>
    var synced: bool
    var channel: Option<seq<Endpoint>>
    ghost var sent: nat

    ghost function State(): Watch
      reads this
    {
      Watch(previous, synced, channel, sent)
    }

    constructor (o: string)
      ensures portOverride == o && State() == Watch([], false, None, 0)
    {
      portOverride, previous, synced, channel, sent := o, [], false, None, 0;
    }

    /** Drops what is still buffered, then sends. */
    method CoalescingSend(v: seq<Endpoint>)
      modifies `channel, `sent
      ensures channel == Some(v) && sent == old(sent) + 1
    {
      if channel.Some? {
        channel := None;
      }
      channel := Some(v);
      sent := sent + 1;
    }

    method FamilyOf(slices: seq<Slice>) returns (family: Family)
      ensures family == ServedFamily(slices)
    {
      family := IPv6;
      for i := 0 to |slices|
        invariant family == if exists j | 0 <= j < i :: slices[j].family.IPv4? then IPv4 else IPv6
      {
        if slices[i].family == IPv4 {
          family := IPv4;
        }
      }
    }

    /** Appends the endpoints of one slice to both lists. */
    method TakeSlice(s: Slice, ready: seq<Endpoint>, fallback: seq<Endpoint>)
      returns (ready': seq<Endpoint>, fallback': seq<Endpoint>)
      ensures ready' == ready + FromEntries(s.entries, ResolvePort(s.ports, portOverride), true)
      ensures fallback' == fallback + FromEntries(s.entries, ResolvePort(s.ports, portOverride), false)
    {
      hide ResolvePort, EndpointOf;
      var port := ResolvePort(s.ports, portOverride);
      ready', fallback' := ready, fallback;
      for j := 0 to |s.entries|
        invariant ready' == ready + FromEntries(s.entries[..j], port, true)
        invariant fallback' == fallback + FromEntries(s.entries[..j], port, false)
      {
        var e := s.entries[j];
        assert s.entries[..j + 1][..j] == s.entries[..j] && s.entries[..j + 1][j] == e;
        if (Ready(e) || ServingTerminating(e)) && e.addresses != [] {
          if Ready(e) {
            ready' := ready' + [EndpointOf(e, port)];
          } else {
            fallback' := fallback' + [EndpointOf(e, port)];
          }
        }
      }
      assert s.entries[..|s.entries|] == s.entries;
    }

    method Sync(slices: seq<Slice>)
      modifies this
      ensures State() == SyncStep(old(State()), slices, portOverride)
    {
      hide FromEntries, ResolvePort, Canonical, ServedFamily;
      var family := FamilyOf(slices);
      var endpoints, servingTerminating := [], [];
      for i := 0 to |slices|
        invariant State() == old(State())
        invariant endpoints == FromSlices(slices[..i], family, portOverride, true)
        invariant servingTerminating == FromSlices(slices[..i], family, portOverride, false)
      {
        assert slices[..i + 1][..i] == slices[..i];
        if slices[i].family == family {
          endpoints, servingTerminating := TakeSlice(slices[i], endpoints, servingTerminating);
        }
      }
      assert slices[..|slices|] == slices;
      if |endpoints| == 0 && |servingTerminating| > 0 {
        endpoints := servingTerminating;
      }
      endpoints := CanonicalizeEndpoints(endpoints);
      var equal := EndpointsEqual(endpoints, previous);
      if synced && equal {
        return;
      }
      synced := true;
      previous := endpoints;
      CoalescingSend(endpoints);
    }
  }
}
