/** Counter documents as varnishd prints them, in both schemas, read back. */
module CounterDocuments {
  import opened Basics
  import opened JsonText
  import opened JsonScan
  import opened Varnishstat

  // ---------------------------------------------------------------------------
  // A counter object means the last field of each name
  // ---------------------------------------------------------------------------

  /** The last member called `key`. */
  function Last(members: Members, key: string): (r: Option<Json>)
    requires WellFormedMembers(members)
    ensures r.Some? ==> WellFormed(r.value)
  {
    match members
    case NoMembers => None
    case Member(_, k, _, _, v, _, rest) =>
      var r := Last(rest, key);
      if r.None? && Meaning(k) == key then Some(v) else r
  }

  /** Descriptive fields are strings, the value is a number, and nothing nests too deep. */
  predicate Regular(members: Members)
    requires WellFormedMembers(members)
  {
    match members
    case NoMembers => true
    case Member(_, k, _, _, v, _, rest) =>
      && (Meaning(k) == "value" ==> v.Num?)
      && (Meaning(k) in ["flag", "description", "ident"] ==> v.Str?)
      && !TooDeep(v)
      && Regular(rest)
  }

  function TextIn(members: Members, key: string, default: string): string
    requires WellFormedMembers(members)
  {
    var r := Last(members, key);
    if r.Some? && r.value.Str? then Meaning(r.value.units) else default
  }

  function NumberIn(members: Members, default: Option<string>): Option<string>
    requires WellFormedMembers(members)
  {
    var r := Last(members, "value");
    if r.Some? && r.value.Num? then Some(NumberText(r.value.number)) else default
  }

  lemma {:induction false} LastIsRegular(members: Members, key: string)
    requires WellFormedMembers(members) && Regular(members)
    ensures Last(members, key).Some? && key == "value" ==> Last(members, key).value.Num?
    ensures Last(members, key).Some? && key in ["flag", "description", "ident"] ==> Last(members, key).value.Str?
    decreases members
  {
    hide Meaning, TooDeep;
    if members.Member? {
      LastIsRegular(members.rest, key);
    }
  }

  lemma TextInUnfolds(members: Members, key: string, default: string)
    requires WellFormedMembers(members) && members.Member? && Regular(members) && key in ["flag", "description", "ident"]
    ensures TextIn(members, key, default) ==
            TextIn(members.rest, key, if Meaning(members.key) == key then Meaning(members.value.units) else default)
  {
    hide Meaning, TooDeep;
    LastIsRegular(members.rest, key);
  }

  lemma NumberInUnfolds(members: Members, default: Option<string>)
    requires WellFormedMembers(members) && members.Member? && Regular(members)
    ensures NumberIn(members, default) ==
            NumberIn(members.rest,
                     if Meaning(members.key) == "value" then Some(NumberText(members.value.number)) else default)
  {
    hide Meaning, TooDeep, NumberText;
    LastIsRegular(members.rest, "value");
  }

  /** The members from the first irregular one on. */
  function FromIrregular(members: Members): (r: Members)
    requires WellFormedMembers(members)
    ensures WellFormedMembers(r) && (r.NoMembers? <==> Regular(members))
  {
    match members
    case NoMembers => NoMembers
    case Member(_, k, _, _, v, _, rest) =>
      if || (Meaning(k) == "value" && !v.Num?)
         || (Meaning(k) in ["flag", "description", "ident"] && !v.Str?)
         || TooDeep(v)
      then members else FromIrregular(rest)
  }

  /**
   * What an object means, for every object. With regular fields only the last of each name
   * matters; they may come in any order, with unknown ones between them. Without a "value",
   * or with one that is no number after all, there is no counter. Otherwise the first
   * irregular field decides: if it is a "value" and nothing from it on nests too deep, the
   * object is dropped, else the whole parse fails.
   */
  lemma {:induction false} LastFieldWins(members: Members, c: Counter, num: Option<string>, parses: string -> bool)
    requires WellFormedMembers(members)
    ensures CounterOf(members, c, num, parses) ==
      var odd := FromIrregular(members);
      if odd.NoMembers? then
        var number := NumberIn(members, num);
        if number.Some? && parses(number.value) then
          Counted(Counter(number.value, TextIn(members, "flag", c.flag),
                          TextIn(members, "description", c.description), TextIn(members, "ident", c.ident)))
        else Skipped
      else if Meaning(odd.key) == "value" && DepthOfMembers(odd) <= MAX_NESTING_DEPTH then Skipped
      else Failed
    decreases members
  {
    match members
    case NoMembers =>
    case Member(_, k, _, _, v, _, rest) =>
      if Regular(members) {
        TextInUnfolds(members, "flag", c.flag);
        TextInUnfolds(members, "description", c.description);
        TextInUnfolds(members, "ident", c.ident);
        NumberInUnfolds(members, num);
      }
      hide Meaning, NumberText, TextIn, NumberIn, Last;
      StringsAreShallow(v);
      var key := Meaning(k);
      if key == "value" {
        if v.Num? {
          LastFieldWins(rest, c, Some(NumberText(v.number)), parses);
        }
      } else if key in ["flag", "description", "ident"] {
        if v.Str? {
          LastFieldWins(rest, WithField(c, key, Meaning(v.units)), num, parses);
        }
      } else {
        LastFieldWins(rest, c, num, parses);
      }
  }

  lemma StringsAreShallow(v: Json)
    ensures v.Str? || v.Num? ==> !TooDeep(v)
  {}

  /** Once "value" holds something else than a number, the object is consumed but dropped,
      whatever comes after it. */
  lemma {:induction false} NonNumberIsDropped(members: Members, c: Counter, num: Option<string>, parses: string -> bool)
    requires WellFormedMembers(members)
    requires Last(members, "value").Some? && !Last(members, "value").value.Num?
    ensures !CounterOf(members, c, num, parses).Counted?
    decreases members
  {
    hide Meaning, NumberText, TooDeep;
    match members
    case Member(_, k, _, _, v, _, rest) =>
      var key := Meaning(k);
      if Last(rest, "value").Some? {
        NonNumberIsDropped(rest, c, num, parses);
        if key == "value" && v.Num? {
          NonNumberIsDropped(rest, c, Some(NumberText(v.number)), parses);
        } else if key in ["flag", "description", "ident"] && v.Str? {
          NonNumberIsDropped(rest, WithField(c, key, Meaning(v.units)), num, parses);
        }
      }
  }

  // ---------------------------------------------------------------------------
  // A counter map means the last counter of each key
  // ---------------------------------------------------------------------------

  /** The counter an object stands for, read on its own. */
  function ObjectCounter(v: Json, parses: string -> bool): Option<Counter>
    requires WellFormed(v)
  {
    if !v.Obj? then None
    else
      var o := CounterOf(v.members, NO_COUNTER, None, parses);
      if o.Counted? then Some(o.counter) else None
  }

  /** The last counter under `key`. */
  function LastCounter(members: Members, key: string, parses: string -> bool): Option<Counter>
    requires WellFormedMembers(members)
  {
    match members
    case NoMembers => None
    case Member(_, k, _, _, v, _, rest) =>
      var r := LastCounter(rest, key, parses);
      if r.None? && Meaning(k) == key then ObjectCounter(v, parses) else r
  }

  /** Some entry spoils the map: a counter that fails to parse, or anything else nested too deep. */
  predicate Spoiled(members: Members, keep: string -> bool, parses: string -> bool)
    requires WellFormedMembers(members)
  {
    match members
    case NoMembers => false
    case Member(_, k, _, _, v, _, rest) =>
      assert WellFormed(v);
      || (if keep(Meaning(k)) && v.Obj? then CounterOf(v.members, NO_COUNTER, None, parses).Failed? else TooDeep(v))
      || Spoiled(rest, keep, parses)
  }

  function CounterAt(m: Counters, key: string): Option<Counter> {
    if key in m then Some(m[key]) else None
  }

  /** A map is read unless some entry spoils it; then it holds, under each key that is kept,
      the last counter of that key, and nothing else. Entries that are no counters neither
      count nor displace one. */
  lemma {:induction false} LastEntryWins(
      members: Members, m: Counters, key: string, keep: string -> bool, parses: string -> bool)
    requires WellFormedMembers(members)
    ensures var r, last := EntriesMean(members, m, keep, parses), LastCounter(members, key, parses);
      && (r.None? <==> Spoiled(members, keep, parses))
      && (r.Some? ==> CounterAt(r.value, key) == if keep(key) && last.Some? then last else CounterAt(m, key))
    decreases members
  {
    match members
    case NoMembers =>
    case Member(_, k, _, _, v, _, rest) =>
      hide CounterOf, Meaning, TooDeep;
      var o := EntryMeans(Meaning(k), v, keep, parses);
      if !o.Failed? {
        LastEntryWins(rest, Enter(m, Meaning(k), o), key, keep, parses);
      }
  }

  // ---------------------------------------------------------------------------
  // Round trips
  // ---------------------------------------------------------------------------

  /** A line of a document: a counter, or anything else. */
  datatype Line =
    | Cell(key: string, number: Number, flag: string, description: string, ident: string)
    | Meta(key: string, value: Json)

  predicate GoodLine(l: Line, parses: string -> bool) {
    match l
    case Cell(_, n, _, _, _) => WellFormedNumber(n) && parses(NumberText(n))
    case Meta(_, v) => WellFormed(v) && !TooDeep(v)
  }

  predicate GoodLines(ls: seq<Line>, parses: string -> bool) {
    forall i | 0 <= i < |ls| :: GoodLine(ls[i], parses)
  }

  function Named(key: string, v: Json, rest: Members): Members {
    Member("", Escape(key), "", " ", v, "", rest)
  }

  function CounterObject(l: Line): Json
    requires l.Cell?
  {
    Obj("", Named("description", Str(Escape(l.description)),
            Named("flag", Str(Escape(l.flag)),
            Named("ident", Str(Escape(l.ident)),
            Named("value", Num(l.number), NoMembers)))))
  }

  function Printed(ls: seq<Line>, rest: Members): Members {
    if ls == [] then rest
    else Named(ls[0].key, if ls[0].Cell? then CounterObject(ls[0]) else ls[0].value, Printed(ls[1..], rest))
  }

  /** The counters `ls` holds; a repeated key keeps its last counter. */
  function CountersIn(ls: seq<Line>, m: Counters): Counters {
    if ls == [] then m
    else
      CountersIn(ls[1..],
        if ls[0].Cell? then
          m[ls[0].key := Counter(NumberText(ls[0].number), ls[0].flag, ls[0].description, ls[0].ident)]
        else m)
  }

  lemma NamedReads(key: string, v: Json, rest: Members)
    requires WellFormed(v) && WellFormedMembers(rest)
    ensures WellFormedMembers(Named(key, v, rest)) && Meaning(Named(key, v, rest).key) == key
  {
    EscapeRoundTrip(key);
  }

  lemma NoMembersIsShallow()
    ensures DepthOfMembers(NoMembers) == 0
  {}

  lemma NamedIsShallow(key: string, v: Json, rest: Members)
    requires (v.Str? || v.Num?) && DepthOfMembers(rest) == 0
    ensures DepthOfMembers(Named(key, v, rest)) == 0
  {
    hide Escape;
  }

  lemma CounterObjectIsShallow(l: Line)
    requires l.Cell?
    ensures !TooDeep(CounterObject(l))
  {
    hide Escape, DepthOfMembers;
    var v := Named("value", Num(l.number), NoMembers);
    var i := Named("ident", Str(Escape(l.ident)), v);
    var f := Named("flag", Str(Escape(l.flag)), i);
    var d := Named("description", Str(Escape(l.description)), f);
    assert CounterObject(l) == Obj("", d);
    assert DepthOfMembers(NoMembers) == 0 by { NoMembersIsShallow(); }
    NamedIsShallow("value", Num(l.number), NoMembers);
    NamedIsShallow("ident", Str(Escape(l.ident)), v);
    NamedIsShallow("flag", Str(Escape(l.flag)), i);
    NamedIsShallow("description", Str(Escape(l.description)), f);
    hide Named;
  }

  lemma CounterObjectMeans(l: Line, parses: string -> bool)
    requires l.Cell? && GoodLine(l, parses)
    ensures WellFormed(CounterObject(l)) && !TooDeep(CounterObject(l))
    ensures CounterOf(CounterObject(l).members, NO_COUNTER, None, parses) ==
            Counted(Counter(NumberText(l.number), l.flag, l.description, l.ident))
  {
    hide Meaning, Escape, AllWellSpelled, NumberText, WellFormedNumber;
    EscapeRoundTrip(l.description);
    EscapeRoundTrip(l.flag);
    EscapeRoundTrip(l.ident);
    var v := Named("value", Num(l.number), NoMembers);
    NamedReads("value", Num(l.number), NoMembers);
    var i := Named("ident", Str(Escape(l.ident)), v);
    NamedReads("ident", Str(Escape(l.ident)), v);
    var f := Named("flag", Str(Escape(l.flag)), i);
    NamedReads("flag", Str(Escape(l.flag)), i);
    var d := Named("description", Str(Escape(l.description)), f);
    NamedReads("description", Str(Escape(l.description)), f);
    CounterObjectIsShallow(l);
    var c1 := NO_COUNTER.(description := l.description);
    var c2 := c1.(flag := l.flag);
    var c3 := c2.(ident := l.ident);
    assert CounterOf(d, NO_COUNTER, None, parses) == CounterOf(f, c1, None, parses);
    assert CounterOf(f, c1, None, parses) == CounterOf(i, c2, None, parses);
    assert CounterOf(i, c2, None, parses) == CounterOf(v, c3, None, parses);
    assert CounterOf(v, c3, None, parses) == CounterOf(NoMembers, c3, Some(NumberText(l.number)), parses);
  }

  /** Which keys a schema reads: all of them, or the dotted ones. */
  predicate Read(ls: seq<Line>, keep: string -> bool) {
    forall i | 0 <= i < |ls| :: if ls[i].Cell? then keep(ls[i].key) else !keep(ls[i].key)
  }

  lemma {:induction false} PrintedIsWellFormed(ls: seq<Line>, rest: Members, parses: string -> bool)
    requires GoodLines(ls, parses) && WellFormedMembers(rest)
    ensures WellFormedMembers(Printed(ls, rest))
  {
    if ls != [] {
      hide CounterObject, WellFormed, Named, TooDeep;
      assert GoodLine(ls[0], parses);
      PrintedIsWellFormed(ls[1..], rest, parses);
      if ls[0].Cell? {
        CounterObjectMeans(ls[0], parses);
      }
      NamedReads(ls[0].key, if ls[0].Cell? then CounterObject(ls[0]) else ls[0].value, Printed(ls[1..], rest));
    }
  }

  lemma {:induction false} PrintedMeans(ls: seq<Line>, m: Counters, keep: string -> bool, parses: string -> bool)
    requires GoodLines(ls, parses) && Read(ls, keep)
    ensures WellFormedMembers(Printed(ls, NoMembers))
    ensures EntriesMean(Printed(ls, NoMembers), m, keep, parses) == Some(CountersIn(ls, m))
  {
    PrintedIsWellFormed(ls, NoMembers, parses);
    if ls != [] {
      hide CounterObject, TooDeep, CounterOf, Meaning, NumberText;
      var l := ls[0];
      assert GoodLine(l, parses);
      PrintedIsWellFormed(ls[1..], NoMembers, parses);
      if l.Cell? {
        CounterObjectMeans(l, parses);
        assert CounterObject(l).Obj? by { ObjectIsObject(l); }
      }
      var v := if l.Cell? then CounterObject(l) else l.value;
      NamedReads(l.key, v, Printed(ls[1..], NoMembers));
      PrintedMeans(ls[1..], Enter(m, l.key, EntryMeans(l.key, v, keep, parses)), keep, parses);
    }
  }

  lemma ObjectIsObject(l: Line)
    requires l.Cell?
    ensures CounterObject(l).Obj?
  {}

  /** Lines called anything but "counters" are passed over when looking for the nested schema. */
  lemma {:induction false} LinesArePassed(ls: seq<Line>, rest: Members, parses: string -> bool)
    requires GoodLines(ls, parses) && WellFormedMembers(rest)
    requires forall i | 0 <= i < |ls| :: ls[i].key != "counters"
    ensures WellFormedMembers(Printed(ls, rest))
    ensures NestedMeans(Printed(ls, rest), parses) == NestedMeans(rest, parses)
  {
    PrintedIsWellFormed(ls, rest, parses);
    if ls != [] {
      hide CounterObject, TooDeep, Meaning, MapMeans;
      assert GoodLine(ls[0], parses);
      LinesArePassed(ls[1..], rest, parses);
      if ls[0].Cell? {
        CounterObjectMeans(ls[0], parses);
      }
      NamedReads(ls[0].key, if ls[0].Cell? then CounterObject(ls[0]) else ls[0].value, Printed(ls[1..], rest));
    }
  }

  /** The flat schema: counters at the top level, among lines whose keys have no dot. */
  function FlatDocument(ls: seq<Line>): Json {
    Obj("", Printed(ls, NoMembers))
  }

  lemma FlatRoundTrip(ls: seq<Line>, post: string, parses: string -> bool)
    requires GoodLines(ls, parses)
    requires forall i | 0 <= i < |ls| :: if ls[i].Cell? then '.' in ls[i].key else '.' !in ls[i].key
    requires forall i | 0 <= i < |ls| :: ls[i].key != "counters"
    ensures ParseVarnishstat(Print(FlatDocument(ls)) + post, parses) == Some(CountersIn(ls, map[]))
  {
    hide Print, CountersIn, ParseVarnishstat, FlatDocument, WellFormed, DocumentMeans, GoodLines;
    assert Read(ls, Dotted);
    hide Read;
    FlatMeans(ls, parses);
    var text := Print(FlatDocument(ls)) + post;
    assert "" + text == text;
    ParseIsMeaning("", FlatDocument(ls), post, parses);
  }

  lemma FlatMeans(ls: seq<Line>, parses: string -> bool)
    requires GoodLines(ls, parses) && Read(ls, Dotted)
    requires forall i | 0 <= i < |ls| :: ls[i].key != "counters"
    ensures WellFormed(FlatDocument(ls)) && DocumentMeans(FlatDocument(ls), parses) == Some(CountersIn(ls, map[]))
  {
    hide Printed, CountersIn, EntriesMean, Meaning, GoodLine, TooDeep;
    PrintedMeans(ls, map[], Dotted, parses);
    LinesArePassed(ls, NoMembers, parses);
  }

  /** The nested schema: other lines, the counters under their key, and anything after. */
  function NestedDocument(metas: seq<Line>, cells: seq<Line>, rest: Members): Json {
    Obj("", Printed(metas, Named("counters", Obj("", Printed(cells, NoMembers)), rest)))
  }

  lemma NestedRoundTrip(metas: seq<Line>, cells: seq<Line>, rest: Members, post: string, parses: string -> bool)
    requires GoodLines(metas, parses) && GoodLines(cells, parses) && WellFormedMembers(rest)
    requires forall i | 0 <= i < |metas| :: metas[i].key != "counters"
    requires forall i | 0 <= i < |cells| :: cells[i].Cell?
    ensures ParseVarnishstat(Print(NestedDocument(metas, cells, rest)) + post, parses) == Some(CountersIn(cells, map[]))
  {
    hide Print, Printed, CountersIn, EntriesMean, ParseVarnishstat, Named, Meaning;
    var doc := NestedDocument(metas, cells, rest);
    var text := Print(doc) + post;
    assert "" + text == text;
    PrintedMeans(cells, map[], AnyKey(), parses);
    var inner := Obj("", Printed(cells, NoMembers));
    var here := Named("counters", inner, rest);
    NamedReads("counters", inner, rest);
    LinesArePassed(metas, here, parses);
    FirstCountersWins(inner, rest, parses);
    ParseIsMeaning("", doc, post, parses);
  }

  lemma FirstCountersWins(inner: Json, rest: Members, parses: string -> bool)
    requires WellFormed(inner) && WellFormedMembers(rest)
    ensures WellFormedMembers(Named("counters", inner, rest))
    ensures NestedMeans(Named("counters", inner, rest), parses) ==
            var m := MapMeans(inner, AnyKey(), parses);
            if m.None? then Broken else Found(m.value)
  {
    hide MapMeans, Meaning;
    NamedReads("counters", inner, rest);
  }
}
