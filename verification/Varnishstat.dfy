/** Reading varnishstat output: what the scanner extracts from a text, what a JSON document
    means as a set of counters, and that the two agree on every well-formed document. */
module Varnishstat {
  import opened Basics
  import opened JsonText
  import opened JsonScan
  import opened JsonExact

  /** A counter as read. Its numeric value is determined by the raw number text. */
  datatype Counter = Counter(raw: string, flag: string, description: string, ident: string)

  const NO_COUNTER := Counter("", "", "", "")

  type Counters = map<string, Counter>

  /** Failed: a parse error. Skipped: the object was consumed but holds no counter. */
  datatype Outcome = Failed | Skipped | Counted(counter: Counter)

  /** An outcome together with the unread text (empty after a failure). */
  datatype Parsed = Parsed(outcome: Outcome, rest: string)

  const FAILED := Parsed(Failed, "")

  /** The decision at an object's closing brace. `parses` says which number texts
      strconv.ParseFloat accepts. */
  function Finish(c: Counter, num: Option<string>, parses: string -> bool): Outcome {
    if num.Some? && parses(num.value) then Counted(c.(raw := num.value)) else Skipped
  }

  // ---------------------------------------------------------------------------
  // On texts
  // ---------------------------------------------------------------------------

  /** Key and colon of the next field, which a comma may precede: the key and the text
      at the value, leading whitespace skipped. */
  function ScanKey(s: string): (r: Option<(string, string)>)
    ensures r.Some? ==> |r.value.1| < |s|
  {
    var u := if StartsWith(s, ',') then SkipWs(s[1..]) else s;
    var k := ScanString(u);
    if k.None? then None
    else
      var c := Expect(k.value.1, ':');
      if c.None? then None else Some((k.value.0, SkipWs(c.value)))
  }

  /** The rest of an object whose "value" was not a number. */
  function SkipFields(s: string): (r: Parsed)
    ensures |r.rest| <= |s|
    decreases |s|
  {
    var t := SkipWs(s);
    if t == "" then FAILED
    else if t[0] == '}' then Parsed(Skipped, t[1..])
    else
      var k := ScanKey(t);
      if k.None? then FAILED
      else
        var v := SkipValue(k.value.1, 0);
        if v.None? then FAILED else SkipFields(v.value)
  }

  /** The fields of a counter object, read from behind its brace up to and including
      the closing one. */
  function ParseFields(s: string, c: Counter, num: Option<string>, parses: string -> bool): (r: Parsed)
    ensures |r.rest| <= |s|
    decreases |s|
  {
    var t := SkipWs(s);
    if t == "" then FAILED
    else if t[0] == '}' then Parsed(Finish(c, num, parses), t[1..])
    else
      var k := ScanKey(t);
      if k.None? || k.value.1 == "" then FAILED
      else
        var (key, w) := k.value;
        if key == "value" then
          if w[0] in "\"n[{tf" then
            var v := SkipValue(w, 0);
            if v.None? then FAILED else SkipFields(v.value)
          else
            var v := ScanNumber(w);
            if v.None? then FAILED
            else ParseFields(v.value, c, Some(w[..|w| - |v.value|]), parses)
        else if key in ["flag", "description", "ident"] then
          var v := ScanString(w);
          if v.None? then FAILED
          else ParseFields(v.value.1, WithField(c, key, v.value.0), num, parses)
        else
          var v := SkipValue(w, 0);
          if v.None? then FAILED else ParseFields(v.value, c, num, parses)
  }

  function WithField(c: Counter, key: string, text: string): Counter {
    if key == "flag" then c.(flag := text)
    else if key == "description" then c.(description := text)
    else if key == "ident" then c.(ident := text)
    else c
  }

  /** One entry of a counter map, at its value: the outcome and the text behind it. */
  function ParseEntry(key: string, w: string, keep: string -> bool, parses: string -> bool): (r: Parsed)
    ensures |r.rest| <= |w|
  {
    if keep(key) && StartsWith(w, '{') then ParseFields(w[1..], NO_COUNTER, None, parses)
    else
      var v := SkipValue(w, 0);
      if v.None? then FAILED else Parsed(Skipped, v.value)
  }

  function Enter(m: Counters, key: string, o: Outcome): Counters {
    if o.Counted? then m[key := o.counter] else m
  }

  function ParseEntries(s: string, m: Counters, keep: string -> bool, parses: string -> bool): Option<Counters>
    decreases |s|
  {
    var t := SkipWs(s);
    var k := if StartsWith(t, ',') then None else ScanKey(t);
    if k.None? then None
    else
      var e := ParseEntry(k.value.0, k.value.1, keep, parses);
      if e.outcome.Failed? then None
      else
        var m' := Enter(m, k.value.0, e.outcome);
        var u := SkipWs(e.rest);
        if StartsWith(u, '}') then Some(m')
        else if StartsWith(u, ',') then ParseEntries(u[1..], m', keep, parses)
        else None
  }

  function ParseMap(s: string, keep: string -> bool, parses: string -> bool): Option<Counters> {
    var b := Expect(s, '{');
    if b.None? then None
    else if StartsWith(SkipWs(b.value), '}') then Some(map[])
    else ParseEntries(SkipWs(b.value), map[], keep, parses)
  }

  /** Outcome of looking for the nested schema. */
  datatype Nested = Broken | NoCountersKey | Found(counters: Counters)

  function AnyKey(): string -> bool {
    _ => true
  }

  predicate Dotted(key: string) {
    '.' in key
  }

  function FindNested(s: string, parses: string -> bool): Nested
    decreases |s|
  {
    var t := SkipWs(s);
    var k := ScanString(t);
    if k.None? then Broken
    else
      var c := Expect(k.value.1, ':');
      if c.None? then Broken
      else if k.value.0 == "counters" then
        var m := ParseMap(c.value, AnyKey(), parses);
        if m.None? then Broken else Found(m.value)
      else
        var v := SkipValue(c.value, 0);
        if v.None? then Broken
        else
          var u := SkipWs(v.value);
          if StartsWith(u, '}') then NoCountersKey
          else if StartsWith(u, ',') then FindNested(u[1..], parses)
          else Broken
  }

  function ParseNested(s: string, parses: string -> bool): Nested {
    var b := Expect(s, '{');
    if b.None? then Broken
    else if StartsWith(SkipWs(b.value), '}') then NoCountersKey
    else FindNested(SkipWs(b.value), parses)
  }

  /** The nested schema first; the flat one, dotted keys only, if there is no "counters" key. */
  function ParseVarnishstat(s: string, parses: string -> bool): Option<Counters> {
    match ParseNested(s, parses)
    case Broken => None
    case Found(m) => Some(m)
    case NoCountersKey => ParseMap(s, Dotted, parses)
  }

  // ---------------------------------------------------------------------------
  // On documents
  // ---------------------------------------------------------------------------

  predicate TooDeep(v: Json) {
    Depth(v) > MAX_NESTING_DEPTH
  }

  /** What an object means as a counter. */
  function CounterOf(members: Members, c: Counter, num: Option<string>, parses: string -> bool): Outcome
    requires WellFormedMembers(members)
  {
    match members
    case NoMembers => Finish(c, num, parses)
    case Member(_, k, _, _, v, _, rest) =>
      assert WellFormed(v);
      var key := Meaning(k);
      if key == "value" && v.Num? then CounterOf(rest, c, Some(NumberText(v.number)), parses)
      else if key in ["flag", "description", "ident"] then
        if v.Str? then CounterOf(rest, WithField(c, key, Meaning(v.units)), num, parses) else Failed
      else if TooDeep(v) then Failed
      else if key == "value" then (if DepthOfMembers(rest) > MAX_NESTING_DEPTH then Failed else Skipped)
      else CounterOf(rest, c, num, parses)
  }

  /** What one entry of a counter map means. */
  function EntryMeans(key: string, v: Json, keep: string -> bool, parses: string -> bool): Outcome
    requires WellFormed(v)
  {
    if keep(key) && v.Obj? then CounterOf(v.members, NO_COUNTER, None, parses)
    else if TooDeep(v) then Failed
    else Skipped
  }

  function EntriesMean(members: Members, m: Counters, keep: string -> bool, parses: string -> bool): Option<Counters>
    requires WellFormedMembers(members)
  {
    match members
    case NoMembers => Some(m)
    case Member(_, k, _, _, v, _, rest) =>
      var o := EntryMeans(Meaning(k), v, keep, parses);
      if o.Failed? then None else EntriesMean(rest, Enter(m, Meaning(k), o), keep, parses)
  }

  function MapMeans(v: Json, keep: string -> bool, parses: string -> bool): Option<Counters>
    requires WellFormed(v)
  {
    if v.Obj? then EntriesMean(v.members, map[], keep, parses) else None
  }

  function NestedMeans(members: Members, parses: string -> bool): Nested
    requires WellFormedMembers(members)
  {
    match members
    case NoMembers => NoCountersKey
    case Member(_, k, _, _, v, _, rest) =>
      if Meaning(k) == "counters" then
        var m := MapMeans(v, AnyKey(), parses);
        if m.None? then Broken else Found(m.value)
      else if TooDeep(v) then Broken
      else NestedMeans(rest, parses)
  }

  /** What a document means: the first "counters" member if there is one, else its own
      dotted members. */
  function DocumentMeans(v: Json, parses: string -> bool): Option<Counters>
    requires WellFormed(v)
  {
    if !v.Obj? then None
    else
      match NestedMeans(v.members, parses)
      case Broken => None
      case Found(m) => Some(m)
      case NoCountersKey => MapMeans(v, Dotted, parses)
  }

  // ---------------------------------------------------------------------------
  // Reading a document finds what it means
  // ---------------------------------------------------------------------------

  /** What follows a member: the object's end, or the members after it. */
  function Following(rest: Members, post: string): string {
    if rest.NoMembers? then "}" + post else "," + (PrintMembers(rest) + ("}" + post))
  }

  /** The unread text of an object with `members` to come. */
  function Upcoming(lead: string, members: Members, post: string): string {
    if members.NoMembers? then "}" + post else lead + (PrintMembers(members) + ("}" + post))
  }

  predicate Lead(lead: string) {
    lead == "" || lead == ","
  }

  lemma KeyRead(ws: string, lead: string, members: Members, post: string)
    requires WellFormedMembers(members) && members.Member? && Blank(ws) && Lead(lead)
    ensures var t := SkipWs(ws + Upcoming(lead, members, post));
      && t != "" && t[0] != '}' && (lead == "" ==> t[0] == '"')
      && ScanKey(t) == Some((Meaning(members.key), Print(members.value) + (members.after + Following(members.rest, post))))
  {
    hide SkipWs, ScanString, Expect, Meaning, PrintMembers, Print, Text;
    var tail := members.after + Following(members.rest, post);
    var w := Print(members.value) + tail;
    MemberRegroups(members, post, Following(members.rest, post));
    var s := PrintMembers(members) + ("}" + post);
    KeyAndColon(members.before, members.key, members.colon, members.gap + w);
    ValueStarts(members.value, tail);
    SkipWsOver(members.gap, w);
    var q := Quoted(members.key) + (members.colon + (":" + (members.gap + w)));
    assert q[0] == '"';
    if lead == "" {
      assert ws + Upcoming(lead, members, post) == (ws + members.before) + q by {
        assert "" + s == s;
        ConcatAssociates(ws, members.before, q);
      }
      SkipWsOver(ws + members.before, q);
    } else {
      var t := "," + s;
      SkipWsOver(ws, t);
      assert t[1..] == s;
    }
  }

  lemma ValueStarts(v: Json, tail: string)
    requires WellFormed(v)
    ensures var w := Print(v) + tail;
      && w != "" && !IsWs(w[0]) && SkipWs(w) == w
      && (w[0] == '"' <==> v.Str?) && (w[0] == '{' <==> v.Obj?)
      && (w[0] in "\"n[{tf" <==> !v.Num?)
  {
    PrintOpens(v);
    hide Print;
  }

  lemma EndRead(ws: string, lead: string, members: Members, post: string)
    requires members.NoMembers? && Blank(ws)
    ensures var t := SkipWs(ws + Upcoming(lead, members, post));
      t != "" && t[0] == '}' && t[1..] == post
  {
    SkipWsOver(ws, "}" + post);
    assert ("}" + post)[1..] == post;
  }

  lemma FollowingDelimits(members: Members, post: string)
    requires WellFormedMembers(members) && members.Member?
    ensures Delimited(members.after + Following(members.rest, post))
    ensures members.after + Following(members.rest, post) == members.after + Upcoming(",", members.rest, post)
  {
    hide PrintMembers;
    Separated(members.after, Following(members.rest, post));
  }

  /** Reading the value of a member, in each of the ways the parser does. */
  lemma ValueRead(v: Json, tail: string)
    requires WellFormed(v) && Delimited(tail)
    ensures var w := Print(v) + tail;
      && SkipValue(w, 0) == (if TooDeep(v) then None else Some(tail))
      && (v.Str? ==> ScanString(w) == Some((Meaning(v.units), tail)))
      && (!v.Str? ==> ScanString(w) == None)
      && (v.Num? ==> ScanNumber(w) == Some(tail) && w[..|w| - |tail|] == NumberText(v.number))
  {
    var w := Print(v) + tail;
    ValueStarts(v, tail);
    assert "" + w == w;
    SkipExact(v, "", tail, 0);
    hide SkipValue, ScanNumber, Meaning, Unescape, StringBody;
    match v
    case Str(us) => hide ScanString; ScanStringReadsMeaning(us, tail);
    case Num(n) => NumberExact(n, tail);
    case _ =>
  }

  function Ended(o: Outcome, post: string): Parsed {
    if o.Failed? then FAILED else Parsed(o, post)
  }

  lemma {:induction false} SkipFieldsExact(ws: string, lead: string, members: Members, post: string)
    requires WellFormedMembers(members) && Blank(ws) && Lead(lead)
    ensures SkipFields(ws + Upcoming(lead, members, post)) ==
            Ended(if DepthOfMembers(members) > MAX_NESTING_DEPTH then Failed else Skipped, post)
    decreases members
  {
    hide SkipWs, SkipValue, ScanKey, Upcoming, Following, Print, Meaning;
    match members
    case NoMembers => EndRead(ws, lead, members, post);
    case Member(_, _, _, _, v, after, rest) =>
      KeyRead(ws, lead, members, post);
      FollowingDelimits(members, post);
      ValueRead(v, after + Following(rest, post));
      SkipFieldsExact(after, ",", rest, post);
  }

  /** A counter object is read as what its members mean. */
  lemma {:induction false} FieldsExact(
      ws: string, lead: string, members: Members, post: string,
      c: Counter, num: Option<string>, parses: string -> bool)
    requires WellFormedMembers(members) && Blank(ws) && Lead(lead)
    ensures ParseFields(ws + Upcoming(lead, members, post), c, num, parses) ==
            Ended(CounterOf(members, c, num, parses), post)
    decreases members
  {
    hide SkipWs, SkipValue, SkipFields, ScanKey, ScanString, ScanNumber, Upcoming, Following, Print, Meaning, WithField, NumberText;
    match members
    case NoMembers => EndRead(ws, lead, members, post);
    case Member(_, k, _, _, v, after, rest) =>
      KeyRead(ws, lead, members, post);
      FollowingDelimits(members, post);
      var tail := after + Following(rest, post);
      ValueRead(v, tail);
      ValueStarts(v, tail);
      var key := Meaning(k);
      if key == "value" {
        if v.Num? {
          FieldsExact(after, ",", rest, post, c, Some(NumberText(v.number)), parses);
        } else {
          SkipFieldsExact(after, ",", rest, post);
        }
      } else if key in ["flag", "description", "ident"] {
        if v.Str? {
          FieldsExact(after, ",", rest, post, WithField(c, key, Meaning(v.units)), num, parses);
        }
      } else {
        FieldsExact(after, ",", rest, post, c, num, parses);
      }
  }

  lemma EntryExact(key: string, v: Json, tail: string, keep: string -> bool, parses: string -> bool)
    requires WellFormed(v) && Delimited(tail)
    ensures ParseEntry(key, Print(v) + tail, keep, parses) == Ended(EntryMeans(key, v, keep, parses), tail)
  {
    hide SkipValue, ParseFields, CounterOf;
    ValueStarts(v, tail);
    if keep(key) && v.Obj? {
      var ws := if v.members.NoMembers? then v.ws else "";
      ObjectBody(v, tail);
      FieldsExact(ws, "", v.members, tail, NO_COUNTER, None, parses);
    } else {
      ValueRead(v, tail);
    }
  }

  lemma ObjectBody(v: Json, tail: string)
    requires v.Obj?
    ensures var ws := if v.members.NoMembers? then v.ws else "";
            (Print(v) + tail)[1..] == ws + Upcoming("", v.members, tail)
  {
    hide PrintMembers;
    if v.members.NoMembers? {
      assert (Print(v) + tail)[1..] == v.ws + ("}" + tail);
    } else {
      assert (Print(v) + tail)[1..] == PrintMembers(v.members) + ("}" + tail);
    }
  }

  lemma {:induction false} EntriesExact(
      members: Members, post: string, m: Counters, keep: string -> bool, parses: string -> bool)
    requires WellFormedMembers(members) && members.Member?
    ensures ParseEntries(Upcoming("", members, post), m, keep, parses) == EntriesMean(members, m, keep, parses)
    decreases members
  {
    hide SkipWs, ScanKey, Print, Meaning, ParseEntry, EntryMeans, PrintMembers;
    var Member(_, k, _, _, v, after, rest) := members;
    var next := Following(rest, post);
    assert "" + Upcoming("", members, post) == Upcoming("", members, post);
    KeyRead("", "", members, post);
    FollowingDelimits(members, post);
    EntryExact(Meaning(k), v, after + next, keep, parses);
    SkipWsOver(after, next);
    if rest.Member? {
      assert next[1..] == Upcoming("", rest, post);
      EntriesExact(rest, post, Enter(m, Meaning(k), EntryMeans(Meaning(k), v, keep, parses)), keep, parses);
    }
  }

  /** Past the opening brace of an object, whitespace skipped. */
  lemma ObjectOpened(ws: string, v: Json, post: string)
    requires WellFormed(v) && Blank(ws)
    ensures var s := ws + (Print(v) + post);
      if !v.Obj? then Expect(s, '{') == None
      else
        && Expect(s, '{').Some?
        && var t := SkipWs(Expect(s, '{').value);
           if v.members.NoMembers? then StartsWith(t, '}')
           else !StartsWith(t, '}') && t == SkipWs(Upcoming("", v.members, post))
  {
    hide SkipWs, Print, Upcoming;
    ValueStarts(v, post);
    SkipWsOver(ws, Print(v) + post);
    if v.Obj? {
      ObjectBody(v, post);
      var inner := Upcoming("", v.members, post);
      assert "" + inner == inner;
      if v.members.Member? {
        KeyRead("", "", v.members, post);
      } else {
        EndRead(v.ws, "", v.members, post);
      }
    }
  }

  lemma EntriesIgnoreWs(s: string, m: Counters, keep: string -> bool, parses: string -> bool)
    ensures ParseEntries(SkipWs(s), m, keep, parses) == ParseEntries(s, m, keep, parses)
  {
    hide SkipWs, ScanKey, ParseEntry, Enter;
    SkipWsTwice(s);
  }

  lemma FindNestedIgnoresWs(s: string, parses: string -> bool)
    ensures FindNested(SkipWs(s), parses) == FindNested(s, parses)
  {
    hide SkipWs, ScanString, Expect, SkipValue, ParseMap;
    SkipWsTwice(s);
  }

  lemma MapExact(ws: string, v: Json, post: string, keep: string -> bool, parses: string -> bool)
    requires WellFormed(v) && Blank(ws)
    ensures ParseMap(ws + (Print(v) + post), keep, parses) == MapMeans(v, keep, parses)
  {
    hide SkipWs, Print, Upcoming, Expect, ParseEntries;
    ObjectOpened(ws, v, post);
    if v.Obj? && v.members.Member? {
      EntriesExact(v.members, post, map[], keep, parses);
      EntriesIgnoreWs(Upcoming("", v.members, post), map[], keep, parses);
    }
  }

  lemma {:induction false} NestedExact(members: Members, post: string, parses: string -> bool)
    requires WellFormedMembers(members) && members.Member?
    ensures FindNested(Upcoming("", members, post), parses) == NestedMeans(members, parses)
    decreases members
  {
    hide SkipWs, ScanString, Expect, SkipValue, Print, Meaning, ParseMap, MapMeans, PrintMembers, TooDeep;
    var Member(before, k, colon, gap, v, after, rest) := members;
    var next := Following(rest, post);
    FollowingDelimits(members, post);
    var body := gap + (Print(v) + (after + next));
    assert Upcoming("", members, post) == before + (Quoted(k) + (colon + (":" + body))) by {
      MemberRegroups(members, post, next);
      var s := PrintMembers(members) + ("}" + post);
      assert "" + s == s;
    }
    KeyAndColon(before, k, colon, body);
    if Meaning(k) == "counters" {
      MapExact(gap, v, after + next, AnyKey(), parses);
    } else {
      SkipValueAfterGap(gap, v, after + next);
      SkipWsOver(after, next);
      if rest.Member? {
        assert next[1..] == Upcoming("", rest, post);
        NestedExact(rest, post, parses);
      }
    }
  }

  lemma SkipValueAfterGap(gap: string, v: Json, tail: string)
    requires WellFormed(v) && Delimited(tail) && Blank(gap)
    ensures SkipValue(gap + (Print(v) + tail), 0) == (if TooDeep(v) then None else Some(tail))
  {
    hide SkipValue, Print;
    SkipExact(v, gap, tail, 0);
  }

  /**
   * Reading varnishstat output, for every JSON value in every spelling and layout: the
   * parser's answer, counters or error, is what the document means.
   */
  lemma ParseIsMeaning(ws: string, v: Json, post: string, parses: string -> bool)
    requires WellFormed(v) && Blank(ws)
    ensures ParseVarnishstat(ws + (Print(v) + post), parses) == DocumentMeans(v, parses)
  {
    hide SkipWs, Print, Upcoming, Expect, FindNested, ParseMap, EntriesMean;
    ObjectOpened(ws, v, post);
    MapExact(ws, v, post, Dotted, parses);
    if v.Obj? && v.members.Member? {
      NestedExact(v.members, post, parses);
      FindNestedIgnoresWs(Upcoming("", v.members, post), parses);
    }
  }
}
