/** The redactor and its line-buffering writer as the program updates them in place,
    proved against the stream machine of RedactingStream. */
module RedactingWriter {
  import opened Basics
  import opened Redaction
  import opened RedactingStream

  const MIN_SECRET_LEN := 6
  const MAX_REDACT_BUFFER := 0x10_0000

  predicate Distinct(vs: seq<string>) {
    forall i, j | 0 <= i < j < |vs| :: vs[i] != vs[j]
  }

  /** Inserts `v` behind every element that is at least as long. */
  function InsertByLength(v: string, vs: seq<string>): seq<string> {
    if vs == [] || |v| > |vs[0]| then [v] + vs else [vs[0]] + InsertByLength(v, vs[1..])
  }

  /** The longest-first sort; ties are left in some order (see RedactIgnoresTieOrder). */
  function SortLongestFirst(vs: seq<string>): seq<string> {
    if vs == [] then [] else InsertByLength(vs[0], SortLongestFirst(vs[1..]))
  }

  lemma {:induction false} InsertHolds(v: string, vs: seq<string>)
    ensures forall x :: x in InsertByLength(v, vs) <==> x == v || x in vs
  {
    if vs != [] && |v| <= |vs[0]| {
      InsertHolds(v, vs[1..]);
      forall x ensures x in vs <==> x == vs[0] || x in vs[1..] {}
    }
  }

  lemma PutFirst(x: string, q: seq<string>)
    requires forall y | y in q :: |y| <= |x|
    ensures LongestFirst(q) ==> LongestFirst([x] + q)
    ensures Distinct(q) && x !in q ==> Distinct([x] + q)
  {}

  lemma FirstIsLongest(vs: seq<string>)
    requires LongestFirst(vs) && vs != []
    ensures forall y | y in vs :: |y| <= |vs[0]|
    ensures LongestFirst(vs[1..]) && (Distinct(vs) ==> Distinct(vs[1..]) && vs[0] !in vs[1..])
  {}

  lemma {:induction false} InsertKeepsOrder(v: string, vs: seq<string>)
    requires LongestFirst(vs)
    ensures var r := InsertByLength(v, vs);
            && LongestFirst(r) && (forall x :: x in r <==> x == v || x in vs)
            && (Distinct(vs) && v !in vs ==> Distinct(r))
  {
    InsertHolds(v, vs);
    if vs == [] {
      assert LongestFirst([v]) && Distinct([v]);
    } else {
      FirstIsLongest(vs);
      if |v| > |vs[0]| {
        hide LongestFirst, Distinct;
        PutFirst(v, vs);
      } else {
        hide LongestFirst, Distinct;
        assert forall x | x in vs[1..] :: x in vs;
        InsertKeepsOrder(v, vs[1..]);
        PutFirst(vs[0], InsertByLength(v, vs[1..]));
      }
    }
  }

  lemma {:induction false} SortSorts(vs: seq<string>)
    ensures var r := SortLongestFirst(vs);
            && LongestFirst(r) && (forall x :: x in r <==> x in vs)
            && (Distinct(vs) ==> Distinct(r))
  {
    if vs != [] {
      SortSorts(vs[1..]);
      InsertKeepsOrder(vs[0], SortLongestFirst(vs[1..]));
      assert vs == [vs[0]] + vs[1..];
    }
  }

  /** A decoded Secret value: nested tables and lists down to text or other scalars. Tables
      list their values in some iteration order. */
  datatype Value = Text(text: string) | Table(fields: seq<Value>) | List(items: seq<Value>) | Scalar

  /** `v` is the text of a leaf of `x`. */
  predicate LeafOf(v: string, x: Value) {
    match x
    case Text(t) => v == t
    case Table(fields) => exists i :: 0 <= i < |fields| && LeafOf(v, fields[i])
    case List(items) => exists i :: 0 <= i < |items| && LeafOf(v, items[i])
    case Scalar => false
  }

  /** Appends the long-enough text leaves of one value. */
  method CollectLeafStrings(x: Value, found: seq<string>) returns (out: seq<string>)
    ensures forall v :: v in out <==> v in found || (|v| >= MIN_SECRET_LEN && LeafOf(v, x))
    decreases x, 1
  {
    out := found;
    match x
    case Text(t) =>
      if |t| >= MIN_SECRET_LEN {
        out := out + [t];
      }
    case Table(fields) => out := CollectChildren(fields, found, x);
    case List(items) => out := CollectChildren(items, found, x);
    case Scalar =>
  }

  method CollectChildren(xs: seq<Value>, found: seq<string>, ghost parent: Value) returns (out: seq<string>)
    requires forall i | 0 <= i < |xs| :: xs[i] < parent
    ensures forall v :: v in out <==>
      v in found || (|v| >= MIN_SECRET_LEN && exists i :: 0 <= i < |xs| && LeafOf(v, xs[i]))
    decreases parent, 0
  {
    out := found;
    for k := 0 to |xs|
      invariant forall v :: v in out <==>
        v in found || (|v| >= MIN_SECRET_LEN && exists i :: 0 <= i < k && LeafOf(v, xs[i]))
    {
      out := CollectLeafStrings(xs[k], out);
    }
  }

  class Redactor {
    var secrets: seq<string>
    var staticValues: map<string, seq<string>>
    var values: seq<string>

    /** `v` is a target of some source. */
    ghost predicate Registered(v: string)
      reads this
    {
      v in secrets || exists key :: key in staticValues && v in staticValues[key]
    }

    ghost predicate LongEnough()
      reads this
    {
      forall v | Registered(v) :: |v| >= MIN_SECRET_LEN
    }

    /** The combined list holds each registered target once, longest first. */
    ghost predicate Valid()
      reads this
    {
      && LongEnough() && NonEmptyTargets(values)
      && Distinct(values) && LongestFirst(values)
      && forall v :: v in values <==> Registered(v)
    }

    constructor ()
      ensures Valid() && values == []
    {
      secrets, staticValues, values := [], map[], [];
    }

    /** Replaces the Secret-derived targets by the long-enough leaves of all Secrets, keeping
        the rest. */
    method Update(maps: seq<Value>)
      requires Valid()
      modifies this
      ensures Valid() && staticValues == old(staticValues)
      ensures forall v :: v in secrets <==>
        |v| >= MIN_SECRET_LEN && exists i :: 0 <= i < |maps| && LeafOf(v, maps[i])
    {
      var vals := [];
      for k := 0 to |maps|
        invariant unchanged(this)
        invariant forall v :: v in vals <==>
          |v| >= MIN_SECRET_LEN && exists i :: 0 <= i < k && LeafOf(v, maps[i])
      {
        vals := CollectLeafStrings(maps[k], vals);
      }
      secrets := vals;
      Rebuild();
    }

    /** Replaces the targets of one source key; they survive later Updates. */
    method SetStaticValues(key: string, vals: seq<string>)
      requires Valid()
      modifies this
      ensures Valid() && secrets == old(secrets)
      ensures staticValues.Keys == old(staticValues).Keys + {key}
      ensures forall k | k in old(staticValues) && k != key :: staticValues[k] == old(staticValues)[k]
      ensures forall v :: v in staticValues[key] <==> v in vals && |v| >= MIN_SECRET_LEN
    {
      var kept := KeepLong(vals);
      staticValues := staticValues[key := kept];
      assert forall v | Registered(v) :: v in kept || old(Registered(v));
      Rebuild();
    }

    static method KeepLong(vals: seq<string>) returns (kept: seq<string>)
      ensures forall v :: v in kept <==> v in vals && |v| >= MIN_SECRET_LEN
    {
      kept := [];
      for i := 0 to |vals|
        invariant forall v :: v in kept <==> v in vals[..i] && |v| >= MIN_SECRET_LEN
      {
        if |vals[i]| >= MIN_SECRET_LEN {
          kept := kept + [vals[i]];
        }
      }
      assert vals[..|vals|] == vals;
    }

    method Rebuild()
      requires LongEnough()
      modifies this`values
      ensures Valid()
    {
      var vals := secrets;
      var keys := staticValues.Keys;
      while keys != {}
        invariant keys <= staticValues.Keys
        invariant forall v :: v in vals <==>
          v in secrets || exists k :: k in staticValues && k !in keys && v in staticValues[k]
        decreases keys
      {
        var k :| k in keys;
        vals := vals + staticValues[k];
        keys := keys - {k};
      }

      var seen: set<string> := {};
      var unique := [];
      for i := 0 to |vals|
        invariant forall v :: v in seen <==> v in vals[..i]
        invariant forall v :: v in seen <==> v in unique
        invariant Distinct(unique)
      {
        if vals[i] !in seen {
          seen := seen + {vals[i]};
          unique := unique + [vals[i]];
        }
      }
      assert vals[..|vals|] == vals;
      values := SortLongestFirst(unique);
      SortSorts(unique);
      assert forall v :: v in values <==> v in vals;
    }

    /** The longest suffix of `buf` that could be the beginning of a target. */
    method TailHold(buf: string) returns (hold: nat)
      ensures hold == Hold(values, buf)
    {
      hold := 0;
      for i := 0 to |values|
        invariant hold <= |buf| && (hold > 0 ==> HoldsBack(values, buf, hold))
        invariant forall m, k | 0 <= m < i && hold < k <= |buf| && k < |values[m]| ::
          buf[|buf| - k..] != values[m][..k]
      {
        var v := values[i];
        var before := hold;
        var k := if |v| - 1 < |buf| then |v| - 1 else |buf|;
        while k > hold
          invariant hold == before && -1 <= k <= |buf| && k <= |v|
          invariant forall j | k < j <= |buf| && 0 < j < |v| :: buf[|buf| - j..] != v[..j]
        {
          if buf[|buf| - k..] == v[..k] {
            assert v in values;
            hold := k;
            break;
          }
          k := k - 1;
        }
      }
      HoldIsLongest(values, buf, |buf|);
      forall k | hold < k <= |buf| ensures !HoldsBack(values, buf, k) {
        forall v | v in values && k < |v| ensures buf[|buf| - k..] != v[..k] {
          var m :| 0 <= m < |values| && values[m] == v;
        }
      }
    }

    /** Start of an occurrence of `v` in the window that straddles `at`, -1 if none. */
    static method StraddlingStart(window: string, v: string, at: int) returns (start: int)
      requires v != ""
      ensures start == -1 || Straddles(window, v, start, at)
      ensures start == -1 ==> forall i :: !Straddles(window, v, i, at)
    {
      var from := 0;
      while true
        invariant 0 <= from <= |window|
        invariant forall i | 0 <= i < from :: !Straddles(window, v, i, at)
        decreases |window| - from
      {
        var idx := IndexFrom(window, v, from);
        if idx < 0 {
          return -1;
        }
        if idx < at && idx + |v| > at {
          return idx;
        }
        from := idx + 1;
      }
    }

    /** The greatest position at or below `cut0` that no occurrence straddles. */
    method SafeCutBelow(buf: string, cut0: nat) returns (cut: nat)
      requires NonEmptyTargets(values) && cut0 <= |buf|
      ensures cut == GreatestSafe(values, buf, cut0)
    {
      cut := cut0;
      var changed := true;
      while changed && cut > 0
        invariant cut <= cut0
        invariant forall p | cut < p <= cut0 :: !Safe(values, buf, p)
        invariant !changed ==> Safe(values, buf, cut)
        decreases cut, changed
      {
        changed := false;
        ghost var top := cut;
        var j := 0;
        while j < |values|
          invariant 0 <= j <= |values| && !changed && cut == top
          invariant forall m, i | 0 <= m < j :: !Straddles(buf, values[m], i, cut)
        {
          var v := values[j];
          var lo := if cut - |v| + 1 > 0 then cut - |v| + 1 else 0;
          var hi := if |buf| < cut + |v| - 1 then |buf| else cut + |v| - 1;
          if lo < cut {
            var start := StraddlingStart(buf[lo..hi], v, cut - lo);
            if start >= 0 {
              LowerToOccurrence(values, buf, v, lo, hi, start, cut);
              cut := lo + start;
              changed := true;
              break;
            }
            WindowSuffices(buf, v, lo, hi, cut);
          }
          j := j + 1;
        }
      }
      GreatestSafeIsGreatest(values, buf, cut0);
    }
  }

  /** The line-buffering writer. `calls` lists the Write calls made on the inner
      writer; each forwarded segment is exactly one of them. */
  class Writer {
    const redactor: Redactor
    var buf: string
    var calls: seq<string>

    ghost function State(): Stream
      reads this
    {
      Stream(buf, Concat(calls))
    }

    constructor (redactor: Redactor)
      ensures this.redactor == redactor && State() == START.w
    {
      this.redactor := redactor;
      buf, calls := "", [];
    }

    /** Redacts the first `n` buffered bytes and forwards them in one call. */
    method EmitHead(n: nat)
      requires redactor.Valid() && n <= |buf|
      modifies this
      ensures State() == Emit(redactor.values, old(State()), n)
      ensures calls == old(calls) + [Redact(redactor.values, old(buf)[..n])]
    {
      ConcatSnoc(calls, Redact(redactor.values, buf[..n]));
      calls := calls + [Redact(redactor.values, buf[..n])];
      buf := buf[n..];
    }

    /** Flushes all but the longest suffix that could still be the start of a target. */
    method BoundPartialLine()
      requires redactor.Valid()
      modifies this
      ensures State() == Overflow(redactor.values, MAX_REDACT_BUFFER, old(State()))
      ensures |calls| <= |old(calls)| + if |old(buf)| < MAX_REDACT_BUFFER then 0 else 1
    {
      hide Redact, Concat, Hold, GreatestSafe;
      if |buf| >= MAX_REDACT_BUFFER {
        var hold := redactor.TailHold(buf);
        var raw := |buf| - hold;
        var cut := redactor.SafeCutBelow(buf, raw);
        if cut > 0 {
          EmitHead(cut);
        } else if raw > 0 {
          ConcatSnoc(calls, PLACEHOLDER);
          calls := calls + [PLACEHOLDER];
          buf := buf[raw..];
        }
      }
    }

    /** Appends a chunk, forwards complete lines, and bounds what is left. */
    method Write(p: string)
      requires redactor.Valid()
      modifies this
      ensures State() == Step(redactor.values, MAX_REDACT_BUFFER, old(State()), RedactingStream.Write(p))
      ensures |calls| <= |old(calls)| + if |Tail(old(buf) + p)| < MAX_REDACT_BUFFER then 1 else 2
    {
      hide Redact, Overflow;
      buf := buf + p;
      var nl := LastNewline(buf);
      if nl >= 0 {
        EmitHead(nl + 1);
      } else {
        NothingToEmit(redactor.values, State());
      }
      BoundPartialLine();
    }

    /** Forwards a final unterminated line, newline-terminated. */
    method Flush()
      requires redactor.Valid()
      modifies this
      ensures State() == Step(redactor.values, MAX_REDACT_BUFFER, old(State()), RedactingStream.Flush)
      ensures |calls| <= |old(calls)| + 1
    {
      if buf == "" {
        return;
      }
      buf := buf + [NEWLINE];
      EmitHead(|buf|);
    }
  }

  lemma ConcatSnoc(ps: seq<string>, p: string)
    ensures Concat(ps + [p]) == Concat(ps) + p
  {
    assert (ps + [p])[..|ps|] == ps;
  }

  lemma NothingToEmit(ts: seq<string>, w: Stream)
    requires NonEmptyTargets(ts)
    ensures Emit(ts, w, 0) == w
  {
    assert w.buf[..0] == "" && w.buf[0..] == w.buf;
    assert w.out + Redact(ts, "") == w.out;
  }

  /** Index of the first occurrence of `v` in `s` at or after `from`, -1 if none. */
  function IndexFrom(s: string, v: string, from: nat): (r: int)
    requires from <= |s|
    ensures r == -1 || (r >= from && OccursAt(s, v, r))
    ensures forall i | from <= i && OccursAt(s, v, i) :: 0 <= r <= i
    decreases |s| - from
  {
    if OccursAt(s, v, from) then from
    else if from == |s| then -1
    else IndexFrom(s, v, from + 1)
  }

  lemma SliceOfSlice(s: string, lo: nat, hi: nat, a: nat, b: nat)
    requires lo <= hi <= |s| && a <= b <= hi - lo
    ensures s[lo..hi][a..b] == s[lo + a..lo + b]
  {
    var t := s[lo..hi];
    var x, y := t[a..b], s[lo + a..lo + b];
    forall k | 0 <= k < |x| ensures x[k] == y[k] {
      assert x[k] == t[a + k] == s[lo + (a + k)];
    }
  }

  /** The window around the cut sees every occurrence that straddles it. */
  lemma WindowSuffices(buf: string, v: string, lo: nat, hi: nat, cut: nat)
    requires lo <= hi <= |buf|
    requires hi == |buf| || hi == cut + |v| - 1
    requires lo == 0 || lo == cut - |v| + 1
    ensures (exists i :: Straddles(buf, v, i, cut)) ==>
              var at := cut - lo; exists i :: Straddles(buf[lo..hi], v, i, at)
  {
    forall i | Straddles(buf, v, i, cut) ensures Straddles(buf[lo..hi], v, i - lo, cut - lo) {
      SliceOfSlice(buf, lo, hi, i - lo, i - lo + |v|);
    }
  }

  /** Lowering the cut to the start of a straddling occurrence skips unsafe cuts only. */
  lemma LowerToOccurrence(ts: seq<string>, buf: string, v: string, lo: nat, hi: nat, start: int, cut: nat)
    requires v in ts && lo <= hi <= |buf|
    requires Straddles(buf[lo..hi], v, start, cut - lo)
    ensures 0 <= lo + start < cut && forall p | lo + start < p <= cut :: !Safe(ts, buf, p)
  {
    SliceOfSlice(buf, lo, hi, start, start + |v|);
    assert OccursAt(buf, v, lo + start);
    forall p | lo + start < p <= cut ensures !Safe(ts, buf, p) {
      assert Straddles(buf, v, lo + start, p);
    }
  }
}
