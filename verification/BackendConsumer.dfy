/** The event loop's handling of discovered-backend updates: which of the ADDs and
    REMOVALs of a name take effect when they arrive in any order. */
module BackendConsumer {
  import opened Basics

  /** An update for one bare name; generation 0 marks an explicit --backend watcher. */
  datatype Msg = Add(gen: nat, state: BackendState) | Removal(gen: nat)

  /** What the loop holds for one bare name: the managed state if any, the generation
      that owns it (0 if none) and the newest removed generation (0 if none). */
  datatype Cell = Cell(state: Option<BackendState>, live: nat, tombstone: nat)

  const EMPTY := Cell(None, 0, 0)

  function Accepts(c: Cell, m: Msg): bool {
    !(m.gen != 0 && m.gen < c.live) && !(m.Add? && m.gen != 0 && m.gen <= c.tombstone)
  }

  function Deliver(c: Cell, m: Msg): Cell {
    if !Accepts(c, m) then c
    else match m
      case Add(g, st) => Cell(Some(st), if g != 0 then g else c.live, c.tombstone)
      case Removal(g) => Cell(None, 0, if g > c.tombstone then g else c.tombstone)
  }

  function DeliverAll(c: Cell, ms: seq<Msg>): Cell {
    if ms == [] then c else Deliver(DeliverAll(c, ms[..|ms| - 1]), ms[|ms| - 1])
  }

  // ---------------------------------------------------------------------------
  // What a history of messages says, independent of the consumer
  // ---------------------------------------------------------------------------

  predicate Generated(ms: seq<Msg>) {
    forall m | m in ms :: m.gen != 0
  }

  function MaxAdd(ms: seq<Msg>): nat {
    if ms == [] then 0 else
      var m, r := ms[|ms| - 1], MaxAdd(ms[..|ms| - 1]);
      if m.Add? && m.gen > r then m.gen else r
  }

  function MaxRemoval(ms: seq<Msg>): nat {
    if ms == [] then 0 else
      var m, r := ms[|ms| - 1], MaxRemoval(ms[..|ms| - 1]);
      if m.Removal? && m.gen > r then m.gen else r
  }

  /** The states generation `g` sent, in its own order. */
  function Sent(ms: seq<Msg>, g: nat): seq<BackendState> {
    if ms == [] then [] else
      var m := ms[|ms| - 1];
      Sent(ms[..|ms| - 1], g) + if m.Add? && m.gen == g then [m.state] else []
  }

  /** The last state of the newest generation, unless that generation was removed. */
  function Outcome(ms: seq<Msg>): Option<BackendState> {
    var a := MaxAdd(ms);
    if a > MaxRemoval(ms) && Sent(ms, a) != [] then Some(Sent(ms, a)[|Sent(ms, a)| - 1]) else None
  }

  lemma {:induction false} NewestHasSent(ms: seq<Msg>)
    requires Generated(ms)
    ensures MaxAdd(ms) > 0 ==> Sent(ms, MaxAdd(ms)) != []
    ensures forall g | g > MaxAdd(ms) :: Sent(ms, g) == []
  {
    if ms != [] {
      NewestHasSent(ms[..|ms| - 1]);
    }
  }

  lemma {:induction false} NewestRemoval(ms: seq<Msg>)
    requires Generated(ms)
    ensures MaxRemoval(ms) > 0 ==> Removal(MaxRemoval(ms)) in ms
    ensures forall m | m in ms && m.Removal? :: m.gen <= MaxRemoval(ms)
  {
    if ms != [] {
      var n := |ms| - 1;
      NewestRemoval(ms[..n]);
      forall m | m in ms ensures m == ms[n] || m in ms[..n] {}
    }
  }

  // ---------------------------------------------------------------------------
  // Confluence
  // ---------------------------------------------------------------------------

  /** The whole cell after any history: owner and tombstone included. */
  lemma {:induction false} CellAfter(ms: seq<Msg>)
    requires Generated(ms)
    ensures var c, a, r := DeliverAll(EMPTY, ms), MaxAdd(ms), MaxRemoval(ms);
            && c.state == Outcome(ms)
            && c.live == (if a > r then a else 0)
            && (a > r ==> c.tombstone <= r)
            && (a <= r ==> c.tombstone == r)
  {
    if ms != [] {
      var n := |ms| - 1;
      assert ms == ms[..n] + [ms[n]];
      CellAfter(ms[..n]);
      NewestHasSent(ms[..n]);
      NewestHasSent(ms);
    }
  }

  /** The backend is present iff the newest ADD generation exceeds the newest REMOVAL
      generation, and it holds the last state that generation sent. */
  lemma PresentIffNewestNotRemoved(ms: seq<Msg>)
    requires Generated(ms)
    ensures var a, c := MaxAdd(ms), DeliverAll(EMPTY, ms);
            if a > MaxRemoval(ms)
            then Sent(ms, a) != [] && c.state == Some(Sent(ms, a)[|Sent(ms, a)| - 1])
            else c.state == None
  {
    CellAfter(ms);
    NewestHasSent(ms);
  }

  /** Both histories hold each generation's ADDs in that generation's own order, and the
      same removals; the generations may be interleaved in any way. */
  ghost predicate SameUpToInterleaving(ms: seq<Msg>, ns: seq<Msg>) {
    && (forall g :: Sent(ms, g) == Sent(ns, g))
    && (forall g :: Removal(g) in ms <==> Removal(g) in ns)
  }

  lemma InterleavingsAgree(ms: seq<Msg>, ns: seq<Msg>)
    requires Generated(ms) && Generated(ns) && SameUpToInterleaving(ms, ns)
    ensures DeliverAll(EMPTY, ms).state == DeliverAll(EMPTY, ns).state
  {
    CellAfter(ms);
    CellAfter(ns);
    NewestHasSent(ms);
    NewestHasSent(ns);
    NewestRemoval(ms);
    NewestRemoval(ns);
    var a, b := MaxAdd(ms), MaxAdd(ns);
    assert a == b by {
      assert Sent(ms, a) == Sent(ns, a) && Sent(ms, b) == Sent(ns, b);
    }
    var r, q := MaxRemoval(ms), MaxRemoval(ns);
    assert r == q by {
      assert Removal(r) in ms <==> Removal(r) in ns;
      assert Removal(q) in ms <==> Removal(q) in ns;
    }
  }

  // ---------------------------------------------------------------------------
  // Backends seeded at startup
  // ---------------------------------------------------------------------------

  /** A backend collected before the loop started: present, but with no owner recorded. */
  function Seeded(st: BackendState): Cell {
    Cell(Some(st), 0, 0)
  }

  lemma {:induction false} SeededAfter(st: BackendState, ms: seq<Msg>)
    requires Generated(ms)
    ensures var c, a, r := DeliverAll(Seeded(st), ms), MaxAdd(ms), MaxRemoval(ms);
            && c.state == (if a == 0 && r == 0 then Some(st) else Outcome(ms))
            && c.live == (if a > r then a else 0)
            && (a > r ==> c.tombstone <= r)
            && (a <= r ==> c.tombstone == r)
  {
    if ms != [] {
      var n := |ms| - 1;
      assert ms == ms[..n] + [ms[n]];
      SeededAfter(st, ms[..n]);
      NewestHasSent(ms[..n]);
      NewestHasSent(ms);
    }
  }

  lemma {:induction false} HistoryWithFirst(first: Msg, ms: seq<Msg>, g: nat)
    requires first.Add?
    ensures MaxAdd([first] + ms) == if first.gen > MaxAdd(ms) then first.gen else MaxAdd(ms)
    ensures MaxRemoval([first] + ms) == MaxRemoval(ms)
    ensures Sent([first] + ms, g) == (if first.gen == g then [first.state] else []) + Sent(ms, g)
  {
    var fs := [first] + ms;
    if ms == [] {
      assert fs[..0] == [];
    } else {
      assert fs[..|fs| - 1] == [first] + ms[..|ms| - 1];
      HistoryWithFirst(first, ms[..|ms| - 1], g);
    }
  }

  /** The guarantee fails for seeded backends: a removal of an older incarnation still in
      flight at startup deletes the backend the newer incarnation owns. */
  lemma SeededBackendCanBeLost(st: BackendState)
    ensures DeliverAll(Seeded(st), [Removal(1)]).state == None
    ensures DeliverAll(EMPTY, [Add(2, st), Removal(1)]).state == Some(st)
  {
    var one, two := [Removal(1)], [Add(2, st), Removal(1)];
    assert one[..0] == [] && two[..1] == [Add(2, st)] && two[..1][..0] == [];
    assert DeliverAll(EMPTY, two[..1]) == Cell(Some(st), 2, 0);
    assert DeliverAll(EMPTY, two) == Deliver(DeliverAll(EMPTY, two[..1]), Removal(1));
    assert DeliverAll(Seeded(st), one) == Deliver(Seeded(st), Removal(1));
  }

  /** Exactly when a backend seeded by incarnation `g` ends up as if its first state had
      been delivered as an ADD: no message arrived at all, or some message of `g` or
      newer did, or the stale survivor happens to carry the seeded state. In particular
      it always does when no older incarnation has messages in flight. */
  lemma SeededBackendIsRightIff(st: BackendState, g: nat, ms: seq<Msg>)
    requires Generated(ms) && g > 0
    ensures DeliverAll(Seeded(st), ms).state == DeliverAll(EMPTY, [Add(g, st)] + ms).state
            <==> || ms == [] || MaxAdd(ms) >= g || MaxRemoval(ms) >= g
                 || (MaxAdd(ms) > MaxRemoval(ms) && Outcome(ms) == Some(st))
  {
    var fs := [Add(g, st)] + ms;
    assert Generated(fs) by {
      forall m | m in fs ensures m.gen != 0 {
        assert m == Add(g, st) || m in ms;
      }
    }
    SeededAfter(st, ms);
    CellAfter(fs);
    NewestHasSent(ms);
    HistoryWithFirst(Add(g, st), ms, MaxAdd(fs));
    HistoryWithFirst(Add(g, st), ms, MaxAdd(ms));
    if ms != [] {
      SomeGeneration(ms);
    }
  }

  lemma {:induction false} SomeGeneration(ms: seq<Msg>)
    requires Generated(ms) && ms != []
    ensures MaxAdd(ms) > 0 || MaxRemoval(ms) > 0
  {
    var m := ms[|ms| - 1];
    assert m in ms;
  }

  // ---------------------------------------------------------------------------
  // Explicit backends: generation 0 is never stale
  // ---------------------------------------------------------------------------

  predicate Explicit(ms: seq<Msg>) {
    forall m | m in ms :: m.gen == 0
  }

  /** What the last message says, if there is one. */
  function LastSays(start: Option<BackendState>, ms: seq<Msg>): Option<BackendState> {
    if ms == [] then start
    else
      match ms[|ms| - 1]
      case Add(_, st) => Some(st)
      case Removal(_) => None
  }

  /** Whatever the cell was, a history of explicit messages leaves what its last message
      says: none is ever dropped. None records a removed generation; only a removal forgets
      the owner. */
  lemma {:induction false} ExplicitHistory(c: Cell, ms: seq<Msg>)
    requires Explicit(ms)
    ensures DeliverAll(c, ms) ==
            Cell(LastSays(c.state, ms), if exists m :: m in ms && m.Removal? then 0 else c.live, c.tombstone)
  {
    if ms != [] {
      var n := |ms| - 1;
      assert ms == ms[..n] + [ms[n]];
      ExplicitHistory(c, ms[..n]);
      assert (exists m :: m in ms && m.Removal?) <==> (exists m :: m in ms[..n] && m.Removal?) || ms[n].Removal?;
      assert ms[n] in ms;
    }
  }

  /** For a fresh name and for one seeded at startup: the last message is all that counts,
      and no owner or tombstone is left. */
  lemma ExplicitBackendFollowsItsWatcher(ms: seq<Msg>, st: BackendState)
    requires Explicit(ms)
    ensures DeliverAll(EMPTY, ms) == Cell(LastSays(None, ms), 0, 0)
    ensures DeliverAll(Seeded(st), ms) == Cell(LastSays(Some(st), ms), 0, 0)
  {
    ExplicitHistory(EMPTY, ms);
    ExplicitHistory(Seeded(st), ms);
  }

  /** The history without its explicit ADDs. */
  function WithoutExplicitAdds(ms: seq<Msg>): seq<Msg> {
    if ms == [] then []
    else
      var m := ms[|ms| - 1];
      WithoutExplicitAdds(ms[..|ms| - 1]) + if m.Add? && m.gen == 0 then [] else [m]
  }

  lemma DeliverSnoc(c: Cell, ms: seq<Msg>, m: Msg)
    ensures DeliverAll(c, ms + [m]) == Deliver(DeliverAll(c, ms), m)
  {
    assert (ms + [m])[..|ms|] == ms;
  }

  /** What later messages are compared with. */
  predicate SameGenerations(c: Cell, d: Cell) {
    c.live == d.live && c.tombstone == d.tombstone
  }

  lemma DeliverSame(c: Cell, d: Cell, m: Msg)
    requires SameGenerations(c, d)
    ensures SameGenerations(Deliver(c, m), Deliver(d, m))
    ensures m.Add? && m.gen == 0 ==> SameGenerations(Deliver(c, m), d)
  {}

  /** Explicit ADDs never change what later messages are compared with, wherever they stand
      among messages of any generations. */
  lemma {:induction false} ExplicitAddsLeaveGenerations(c: Cell, ms: seq<Msg>)
    ensures SameGenerations(DeliverAll(c, ms), DeliverAll(c, WithoutExplicitAdds(ms)))
  {
    if ms != [] {
      hide Deliver, SameGenerations;
      var front, m := ms[..|ms| - 1], ms[|ms| - 1];
      ExplicitAddsLeaveGenerations(c, front);
      var kept := WithoutExplicitAdds(front);
      DeliverSame(DeliverAll(c, front), DeliverAll(c, kept), m);
      DeliverSnoc(c, kept, m);
      assert kept + [] == kept;
    } else {
      assert SameGenerations(c, c);
    }
  }

  /** An explicit ADD is held as soon as it arrives, after any history. */
  lemma ExplicitAddIsHeld(c: Cell, ms: seq<Msg>, st: BackendState)
    ensures DeliverAll(c, ms + [Add(0, st)]) == DeliverAll(c, ms).(state := Some(st))
  {
    DeliverSnoc(c, ms, Add(0, st));
  }

  /** Not older than the owner, and an ADD newer than what was removed. */
  predicate Timely(c: Cell, m: Msg) {
    m.gen >= c.live && (m.Add? ==> m.gen > c.tombstone)
  }

  predicate SomeTimely(c: Cell, ms: seq<Msg>) {
    exists m :: m in ms && Timely(c, m)
  }

  lemma SomeTimelySnoc(c: Cell, ms: seq<Msg>, m: Msg)
    ensures SomeTimely(c, ms + [m]) <==> SomeTimely(c, ms) || Timely(c, m)
  {
    if SomeTimely(c, ms) {
      var x :| x in ms && Timely(c, x);
      assert x in ms + [m];
    }
    assert m in ms + [m];
  }

  /** An explicit ADD stays in force until a timely message of some generation arrives; from
      then on the name is as if the explicit ADD had never been. */
  lemma {:induction false} ExplicitAddStaysUntilTimely(c: Cell, st: BackendState, later: seq<Msg>)
    requires Generated(later)
    ensures var all, plain := DeliverAll(Deliver(c, Add(0, st)), later), DeliverAll(c, later);
            && SameGenerations(all, plain)
            && (if SomeTimely(c, later) then all.state == plain.state else all == c.(state := Some(st)))
  {
    if later != [] {
      hide SomeTimely;
      var n := |later| - 1;
      assert later == later[..n] + [later[n]];
      ExplicitAddStaysUntilTimely(c, st, later[..n]);
      NoneTimely(c, later[..n]);
      SomeTimelySnoc(c, later[..n], later[n]);
    } else {
      assert !SomeTimely(c, later);
    }
  }

  lemma {:induction false} NoneTimely(c: Cell, ms: seq<Msg>)
    requires Generated(ms)
    ensures !SomeTimely(c, ms) ==> DeliverAll(c, ms) == c
  {
    if ms != [] {
      hide SomeTimely;
      var n := |ms| - 1;
      assert ms == ms[..n] + [ms[n]];
      SomeTimelySnoc(c, ms[..n], ms[n]);
      NoneTimely(c, ms[..n]);
    }
  }

  // ---------------------------------------------------------------------------
  // The loop's own maps
  // ---------------------------------------------------------------------------

  /** The newest removed generation of a name and when a removal was last applied. */
  datatype Tombstone = Tombstone(gen: nat, at: int)

  /** Names whose tombstone is at least `ttl` old; a `ttl` of 0 never expires. */
  function Expired(ts: map<string, Tombstone>, now: int, ttl: int): set<string> {
    set n | n in ts && ttl > 0 && now - ts[n].at >= ttl
  }

  class Consumer {
    var latestBackends: map<string, BackendState>
    var liveGen: map<string, nat>
    var removedGen: map<string, Tombstone>

    ghost function At(name: string): Cell
      reads this
    {
      Cell(if name in latestBackends then Some(latestBackends[name]) else None,
           if name in liveGen then liveGen[name] else 0,
           if name in removedGen then removedGen[name].gen else 0)
    }

    constructor (seeds: map<string, BackendState>)
      ensures forall name :: At(name) == if name in seeds then Seeded(seeds[name]) else EMPTY
    {
      latestBackends, liveGen, removedGen := seeds, map[], map[];
    }

    /** One backend event. Returns whether it was applied (and a reload scheduled). */
    method Handle(name: string, m: Msg, now: int) returns (applied: bool)
      modifies this
      ensures At(name) == Deliver(old(At(name)), m)
      ensures applied == Accepts(old(At(name)), m)
      ensures m.gen == 0 ==> applied && At(name).state == if m.Add? then Some(m.state) else None
      ensures forall other | other != name :: At(other) == old(At(other))
      ensures if applied && m.Removal? then name in removedGen && removedGen == old(removedGen)[name := removedGen[name]]
                                            && removedGen[name].at == now
              else removedGen == old(removedGen)
    {
      var live := if name in liveGen then liveGen[name] else 0;
      if m.gen != 0 && m.gen < live {
        return false;
      }
      var tomb := if name in removedGen then removedGen[name].gen else 0;
      if m.Add? && m.gen != 0 && m.gen <= tomb {
        return false;
      }
      if m.Removal? {
        removedGen := removedGen[name := Tombstone(if m.gen > tomb then m.gen else tomb, now)];
        latestBackends := latestBackends - {name};
        liveGen := liveGen - {name};
      } else {
        latestBackends := latestBackends[name := m.state];
        if m.gen != 0 {
          liveGen := liveGen[name := m.gen];
        }
      }
      return true;
    }

    /** Drops the tombstones that reached their TTL, and returns how many; nothing else of
        any name changes. */
    method Sweep(now: int, ttl: int) returns (evicted: nat)
      modifies `removedGen
      ensures removedGen == old(removedGen) - Expired(old(removedGen), now, ttl)
      ensures forall n | n in old(removedGen) ::
        n in removedGen <==> ttl <= 0 || now < old(removedGen)[n].at + ttl
      ensures evicted == |Expired(old(removedGen), now, ttl)|
      ensures forall name :: (var c := old(At(name));
        At(name) == if name in Expired(old(removedGen), now, ttl) then c.(tombstone := 0) else c)
    {
      if ttl <= 0 {
        assert Expired(removedGen, now, ttl) == {};
        return 0;
      }
      var before := removedGen;
      var todo := before.Keys;
      ghost var gone: set<string> := {};
      evicted := 0;
      while todo != {}
        invariant todo <= before.Keys && gone <= before.Keys - todo && evicted == |gone|
        invariant forall n | n in before && n !in todo :: n in gone <==> now - before[n].at >= ttl
        invariant forall n :: n in removedGen <==> n in before && n !in gone
        invariant forall n | n in removedGen :: removedGen[n] == before[n]
        decreases |todo|
      {
        var name :| name in todo;
        todo := todo - {name};
        if now - before[name].at >= ttl {
          removedGen := removedGen - {name};
          gone := gone + {name};
          evicted := evicted + 1;
        }
      }
      assert gone == Expired(before, now, ttl);
    }
  }
}
