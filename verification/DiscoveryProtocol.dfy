/** The discovery protocol end to end: several watchers with their own views, one shared
    name registry, forwarding goroutines and fan-in channels that may reorder anything
    but one incarnation's own updates, and the event loop consuming what arrives. Every
    step below is one atomic section of the program; all interleavings are considered. */
module DiscoveryProtocol {
  import opened Basics
  import opened BackendConsumer
  import opened Discovery

  /** Where a watcher is inside a reconcile. `todo` is what the running add pass has not
      examined; `claimed` says its head was claimed but not yet given a generation. */
  datatype Phase =
    | Idle
    | Adding(listed: seq<Key>, todo: seq<Key>, claimed: bool, second: bool)
    | Dropping(listed: seq<Key>, dropped: bool)
    | Stopping
    | Stopped

  /** `syncs` counts reconciles that are due; `kicked` is the cap-1 kick channel. */
  datatype Watcher = Watcher(
    view: set<Key>, syncs: nat, kicked: bool, phase: Phase, managed: map<Key, nat>)

  /** `Never` marks an incarnation dropped by a shutdown, which announces nothing. */
  datatype RemovalNotice = NotSent | InFlight | Delivered | Never

  /** One managed incarnation: the states its forwarder sent, how many of them have
      reached the event loop, and its removal. */
  datatype Incarnation = Incarnation(
    home: Token, sent: seq<BackendState>, arrived: nat, forwarding: bool, removal: RemovalNotice)

  /** `owed` are the kicks a releasing goroutine still has to deliver. */
  datatype Sys = Sys(
    watchers: map<nat, Watcher>, owners: Owners, genSeq: nat, owed: multiset<nat>,
    incs: map<nat, Incarnation>, cells: map<string, Cell>)

  const INIT := Sys(map[], map[], 0, multiset{}, map[], map[])

  datatype Step =
    | Start(w: nat, view: set<Key>)
    | ViewChange(w: nat, view: set<Key>)
    | KickArrives(w: nat)
    | KickTaken(w: nat)
    | StartSync(w: nat, keys: seq<Key>)
    | Examine(w: nat)
    | Create(w: nat)
    | EndPass(w: nat)
    | DropOne(w: nat, key: Key)
    | EndDrop(w: nat)
    | Stop(w: nat)
    | StopOne(w: nat, key: Key)
    | StopDone(w: nat)
    | Forward(g: nat, state: BackendState)
    | StopForwarding(g: nat)
    | DeliverAdd(g: nat)
    | DeliverRemoval(g: nat)
    | Evict(name: string)

  predicate Running(w: Watcher) {
    !w.phase.Stopping? && !w.phase.Stopped?
  }

  function NameOf(s: Sys, g: nat): string
    requires g in s.incs
  {
    s.incs[g].home.key.name
  }

  function CellOf(s: Sys, name: string): Cell {
    if name in s.cells then s.cells[name] else EMPTY
  }

  /** Nothing of this incarnation can reach the event loop any more. */
  predicate Settled(inc: Incarnation) {
    !inc.forwarding && inc.arrived == |inc.sent| && (inc.removal.Delivered? || inc.removal.Never?)
  }

  /** No incarnation of the name up to `g` has anything left in flight. */
  ghost predicate Quiet(s: Sys, name: string, g: nat) {
    forall h | h in s.incs && NameOf(s, h) == name && h <= g :: Settled(s.incs[h])
  }

  predicate Skips(explicit: set<string>, s: Sys, w: nat, key: Key)
    requires w in s.watchers
  {
    || key in s.watchers[w].managed || key.name in explicit || NameTaken(s.watchers[w].managed, key)
    || !Claimable(s.owners, key.name, Token(w, key))
  }

  ghost predicate Enabled(explicit: set<string>, s: Sys, step: Step) {
    match step
    case Start(w, _) => w !in s.watchers
    case ViewChange(w, _) => w in s.watchers && Running(s.watchers[w])
    case KickArrives(w) => w in s.owed && w in s.watchers
    case KickTaken(w) => w in s.watchers && Running(s.watchers[w]) && s.watchers[w].kicked
    case StartSync(w, keys) =>
      && w in s.watchers && s.watchers[w].phase.Idle? && s.watchers[w].syncs > 0
      && Ascending(keys) && forall k :: k in keys <==> k in s.watchers[w].view
    case Examine(w) =>
      && w in s.watchers && s.watchers[w].phase.Adding?
      && s.watchers[w].phase.todo != [] && !s.watchers[w].phase.claimed
    case Create(w) =>
      && w in s.watchers && s.watchers[w].phase.Adding?
      && s.watchers[w].phase.todo != [] && s.watchers[w].phase.claimed
    case EndPass(w) =>
      w in s.watchers && s.watchers[w].phase.Adding? && s.watchers[w].phase.todo == []
    case DropOne(w, key) =>
      && w in s.watchers && s.watchers[w].phase.Dropping?
      && key in s.watchers[w].managed && key !in s.watchers[w].phase.listed
      && s.watchers[w].managed[key] in s.incs
    case EndDrop(w) =>
      && w in s.watchers && s.watchers[w].phase.Dropping?
      && forall k | k in s.watchers[w].managed :: k in s.watchers[w].phase.listed
    case Stop(w) => w in s.watchers && s.watchers[w].phase.Idle?
    case StopOne(w, key) =>
      && w in s.watchers && s.watchers[w].phase.Stopping? && key in s.watchers[w].managed
      && s.watchers[w].managed[key] in s.incs
    case StopDone(w) =>
      w in s.watchers && s.watchers[w].phase.Stopping? && s.watchers[w].managed == map[]
    case Forward(g, _) => g in s.incs && s.incs[g].forwarding
    case StopForwarding(g) => g in s.incs && !s.incs[g].removal.NotSent?
    case DeliverAdd(g) => g in s.incs && s.incs[g].arrived < |s.incs[g].sent|
    case DeliverRemoval(g) => g in s.incs && s.incs[g].removal.InFlight?
    case Evict(name) => Quiet(s, name, CellOf(s, name).tombstone)
  }

  function Subscribers(s: Sys): multiset<nat> {
    multiset(set w | w in s.watchers && !s.watchers[w].phase.Stopped?)
  }

  /** Drops one incarnation: it leaves the managed set, its claim is released, and every
      subscriber is owed a kick. */
  function Drop(s: Sys, w: nat, key: Key, phase: Phase, notice: RemovalNotice): Sys
    requires w in s.watchers && key in s.watchers[w].managed && s.watchers[w].managed[key] in s.incs
  {
    var x, t := s.watchers[w], Token(w, key);
    var g := x.managed[key];
    s.(watchers := s.watchers[w := x.(managed := x.managed - {key}, phase := phase)],
       owners := Released(s.owners, key.name, t),
       owed := if Held(s.owners, key.name, t) then s.owed + Subscribers(s) else s.owed,
       incs := s.incs[g := s.incs[g].(removal := notice)])
  }

  ghost function Next(explicit: set<string>, s: Sys, step: Step): Sys
    requires Enabled(explicit, s, step)
  {
    match step
    case Start(w, view) =>
      s.(watchers := s.watchers[w := Watcher(view, 1, false, Idle, map[])])
    case ViewChange(w, view) =>
      var x := s.watchers[w];
      s.(watchers := s.watchers[w := x.(view := view, syncs := x.syncs + 1)])
    case KickArrives(w) =>
      s.(owed := s.owed - multiset{w}, watchers := s.watchers[w := s.watchers[w].(kicked := true)])
    case KickTaken(w) =>
      var x := s.watchers[w];
      s.(watchers := s.watchers[w := x.(kicked := false, syncs := x.syncs + 1)])
    case StartSync(w, keys) =>
      var x := s.watchers[w];
      s.(watchers := s.watchers[w := x.(syncs := x.syncs - 1, phase := Adding(keys, keys, false, false))])
    case Examine(w) =>
      var x := s.watchers[w];
      var key := x.phase.todo[0];
      if Skips(explicit, s, w, key) then
        s.(watchers := s.watchers[w := x.(phase := x.phase.(todo := x.phase.todo[1..]))])
      else
        s.(watchers := s.watchers[w := x.(phase := x.phase.(claimed := true))],
           owners := Claimed(s.owners, key.name, Token(w, key)))
    case Create(w) =>
      var x := s.watchers[w];
      var key, g := x.phase.todo[0], s.genSeq + 1;
      s.(watchers := s.watchers[w := x.(managed := x.managed[key := g],
                                        phase := x.phase.(todo := x.phase.todo[1..], claimed := false))],
         genSeq := g,
         incs := s.incs[g := Incarnation(Token(w, key), [], 0, true, NotSent)])
    case EndPass(w) =>
      var x := s.watchers[w];
      s.(watchers := s.watchers[w := x.(phase :=
        if x.phase.second then Idle else Dropping(x.phase.listed, false))])
    case DropOne(w, key) =>
      Drop(s, w, key, s.watchers[w].phase.(dropped := true), InFlight)
    case EndDrop(w) =>
      var x := s.watchers[w];
      s.(watchers := s.watchers[w := x.(phase :=
        if x.phase.dropped then Adding(x.phase.listed, x.phase.listed, false, true) else Idle)])
    case Stop(w) => s.(watchers := s.watchers[w := s.watchers[w].(phase := Stopping)])
    case StopOne(w, key) => Drop(s, w, key, Stopping, Never)
    case StopDone(w) => s.(watchers := s.watchers[w := s.watchers[w].(phase := Stopped)])
    case Forward(g, st) =>
      s.(incs := s.incs[g := s.incs[g].(sent := s.incs[g].sent + [st])])
    case StopForwarding(g) => s.(incs := s.incs[g := s.incs[g].(forwarding := false)])
    case DeliverAdd(g) =>
      var i, n := s.incs[g], NameOf(s, g);
      s.(incs := s.incs[g := i.(arrived := i.arrived + 1)],
         cells := s.cells[n := Deliver(CellOf(s, n), Add(g, i.sent[i.arrived]))])
    case DeliverRemoval(g) =>
      var n := NameOf(s, g);
      s.(incs := s.incs[g := s.incs[g].(removal := Delivered)],
         cells := s.cells[n := Deliver(CellOf(s, n), Removal(g))])
    case Evict(name) => s.(cells := s.cells[name := CellOf(s, name).(tombstone := 0)])
  }

  // ---------------------------------------------------------------------------
  // Names and generations
  // ---------------------------------------------------------------------------

  /** The watcher has claimed the Service but not yet recorded it. */
  predicate Claiming(s: Sys, w: nat, key: Key)
    requires w in s.watchers
  {
    var p := s.watchers[w].phase;
    p.Adding? && p.claimed && p.todo != [] && p.todo[0] == key
  }

  predicate Manages(s: Sys, w: nat, key: Key) {
    w in s.watchers && key in s.watchers[w].managed
  }

  function GenOf(s: Sys, w: nat, key: Key): nat
    requires Manages(s, w, key)
  {
    s.watchers[w].managed[key]
  }

  /** Claims and managed incarnations match one to one. */
  ghost predicate ClaimsMatch(explicit: set<string>, s: Sys) {
    && (forall w, k | Manages(s, w, k) ::
          Held(s.owners, k.name, Token(w, k)) && k.name !in explicit)
    && (forall n | n in s.owners :: var t := s.owners[n];
          && t.key.name == n && t.watcher in s.watchers
          && (Manages(s, t.watcher, t.key) || Claiming(s, t.watcher, t.key)))
    && (forall w, k | w in s.watchers && Claiming(s, w, k) ::
          Held(s.owners, k.name, Token(w, k)) && !Manages(s, w, k) && k.name !in explicit)
  }

  predicate Current(s: Sys, g: nat) {
    g in s.incs && s.incs[g].removal.NotSent?
  }

  predicate OnRecord(s: Sys, w: nat, key: Key)
    requires Manages(s, w, key)
  {
    Current(s, GenOf(s, w, key)) && s.incs[GenOf(s, w, key)].home == Token(w, key)
  }

  predicate AtHome(s: Sys, g: nat)
    requires g in s.incs
  {
    var t := s.incs[g].home;
    s.incs[g].forwarding && Manages(s, t.watcher, t.key) && GenOf(s, t.watcher, t.key) == g
  }

  /** Every managed incarnation is on record as such, and no other one is. */
  ghost predicate Recorded(s: Sys) {
    && (forall w, k | Manages(s, w, k) :: OnRecord(s, w, k))
    && (forall g | g in s.incs :: 0 < g <= s.genSeq && s.incs[g].arrived <= |s.incs[g].sent|)
    && (forall g | Current(s, g) :: AtHome(s, g))
  }

  /** A managed incarnation is the newest of its name. */
  ghost predicate ManagedIsNewest(s: Sys) {
    forall g, h | Current(s, g) && h in s.incs && NameOf(s, g) == NameOf(s, h) :: h <= g
  }

  /** Nothing relevant to claims changes. */
  ghost predicate SameClaims(s: Sys, s': Sys) {
    && s'.owners == s.owners && s.watchers.Keys <= s'.watchers.Keys
    && (forall w, k :: Manages(s', w, k) <==> Manages(s, w, k))
    && (forall w, k | w in s'.watchers :: Claiming(s', w, k) <==> w in s.watchers && Claiming(s, w, k))
  }

  lemma ClaimsFrame(explicit: set<string>, s: Sys, s': Sys)
    requires ClaimsMatch(explicit, s) && SameClaims(s, s')
    ensures ClaimsMatch(explicit, s')
  {}

  lemma ClaimsAfterExamine(explicit: set<string>, s: Sys, w: nat)
    requires ClaimsMatch(explicit, s) && Enabled(explicit, s, Examine(w))
    ensures ClaimsMatch(explicit, Next(explicit, s, Examine(w)))
  {
    var s' := Next(explicit, s, Examine(w));
    var x := s.watchers[w];
    var key := x.phase.todo[0];
    if Skips(explicit, s, w, key) {
      ClaimsFrame(explicit, s, s');
    } else {
      ClaimsAfterClaim(explicit, s, w);
    }
  }

  lemma ClaimsAfterClaim(explicit: set<string>, s: Sys, w: nat)
    requires ClaimsMatch(explicit, s) && Enabled(explicit, s, Examine(w))
    requires !Skips(explicit, s, w, s.watchers[w].phase.todo[0])
    ensures ClaimsMatch(explicit, Next(explicit, s, Examine(w)))
  {
    hide NameTaken;
    var s' := Next(explicit, s, Examine(w));
    var key := s.watchers[w].phase.todo[0];
    var t := Token(w, key);
    assert forall u, k :: Manages(s', u, k) <==> Manages(s, u, k);
    assert forall u, k | u in s.watchers :: Claiming(s', u, k) <==> Claiming(s, u, k) || (u == w && k == key);
    assert s'.owners == s.owners[key.name := t];
    forall u, k | Manages(s, u, k) || (u in s.watchers && Claiming(s, u, k))
      ensures Held(s'.owners, k.name, Token(u, k))
    {
      assert Held(s.owners, k.name, Token(u, k));
    }
  }

  lemma ClaimsAfterCreate(explicit: set<string>, s: Sys, w: nat)
    requires ClaimsMatch(explicit, s) && Enabled(explicit, s, Create(w))
    ensures ClaimsMatch(explicit, Next(explicit, s, Create(w)))
  {
    var s' := Next(explicit, s, Create(w));
    var key := s.watchers[w].phase.todo[0];
    assert Claiming(s, w, key);
    assert forall u, k :: Manages(s', u, k) <==> Manages(s, u, k) || (u == w && k == key);
    assert forall u, k | u in s.watchers :: Claiming(s', u, k) <==> u != w && Claiming(s, u, k);
  }

  lemma ClaimsAfterDrop(explicit: set<string>, s: Sys, w: nat, key: Key, phase: Phase, notice: RemovalNotice)
    requires ClaimsMatch(explicit, s) && Manages(s, w, key) && s.watchers[w].managed[key] in s.incs
    requires !phase.Adding? && !s.watchers[w].phase.Adding?
    ensures ClaimsMatch(explicit, Drop(s, w, key, phase, notice))
  {
    var s' := Drop(s, w, key, phase, notice);
    assert forall u, k :: Manages(s', u, k) <==> Manages(s, u, k) && !(u == w && k == key);
    assert forall u, k | u in s.watchers :: Claiming(s', u, k) <==> Claiming(s, u, k);
  }

  predicate ChannelStep(step: Step) {
    step.Forward? || step.StopForwarding? || step.DeliverAdd? || step.DeliverRemoval? || step.Evict?
  }

  lemma WatcherKeepsClaiming(explicit: set<string>, s: Sys, step: Step, k: Key)
    requires Enabled(explicit, s, step) && !ChannelStep(step) && !RecordStep(step) && !step.Examine?
    ensures var s' := Next(explicit, s, step);
            && UpdatesOne(s, s', step.w) && s'.owners == s.owners
            && (Claiming(s', step.w, k) <==> step.w in s.watchers && Claiming(s, step.w, k))
  {
    hide Skips, Ascending;
  }

  lemma UpdateKeepsClaims(s: Sys, s': Sys, w: nat)
    requires UpdatesOne(s, s', w) && s'.owners == s.owners
    requires forall k :: Claiming(s', w, k) <==> w in s.watchers && Claiming(s, w, k)
    ensures SameClaims(s, s')
  {
    forall u, k | u in s'.watchers && u != w ensures Claiming(s', u, k) <==> u in s.watchers && Claiming(s, u, k) {}
  }

  lemma ChannelsKeepWatchers(explicit: set<string>, s: Sys, step: Step)
    requires Enabled(explicit, s, step) && ChannelStep(step)
    ensures var s' := Next(explicit, s, step);
            s'.watchers == s.watchers && s'.owners == s.owners && s'.owed == s.owed
  {
    hide Quiet, Settled, Deliver;
  }

  lemma ClaimsStayMatched(explicit: set<string>, s: Sys, step: Step)
    requires ClaimsMatch(explicit, s) && Enabled(explicit, s, step)
    ensures ClaimsMatch(explicit, Next(explicit, s, step))
  {
    hide ClaimsMatch, SameClaims, UpdatesOne;
    var s' := Next(explicit, s, step);
    if step.Examine? {
      ClaimsAfterExamine(explicit, s, step.w);
    } else if step.Create? {
      ClaimsAfterCreate(explicit, s, step.w);
    } else if step.DropOne? {
      ClaimsAfterDrop(explicit, s, step.w, step.key, s.watchers[step.w].phase.(dropped := true), InFlight);
    } else if step.StopOne? {
      ClaimsAfterDrop(explicit, s, step.w, step.key, Stopping, Never);
    } else if ChannelStep(step) {
      ChannelsKeepWatchers(explicit, s, step);
      assert SameClaims(s, s') by { SameClaimsIfUntouched(s, s'); }
      ClaimsFrame(explicit, s, s');
    } else {
      forall k ensures Claiming(s', step.w, k) <==> step.w in s.watchers && Claiming(s, step.w, k) {
        WatcherKeepsClaiming(explicit, s, step, k);
      }
      WatcherKeepsClaiming(explicit, s, step, Key("", ""));
      UpdateKeepsClaims(s, s', step.w);
      ClaimsFrame(explicit, s, s');
    }
  }

  lemma SameClaimsIfUntouched(s: Sys, s': Sys)
    requires s'.watchers == s.watchers && s'.owners == s.owners
    ensures SameClaims(s, s')
  {
    forall w, k ensures Manages(s', w, k) <==> Manages(s, w, k) {}
    forall w, k | w in s'.watchers ensures Claiming(s', w, k) <==> Claiming(s, w, k) {}
  }

  /** Nothing relevant to the records changes. */
  ghost predicate SameRecords(s: Sys, s': Sys) {
    && s'.genSeq == s.genSeq && s'.incs.Keys == s.incs.Keys
    && (forall w, k :: Manages(s', w, k) <==> Manages(s, w, k))
    && (forall w, k | Manages(s, w, k) :: GenOf(s', w, k) == GenOf(s, w, k))
    && (forall g | g in s.incs :: var i, i' := s.incs[g], s'.incs[g];
          && i'.home == i.home && (Current(s', g) <==> Current(s, g))
          && i'.arrived <= |i'.sent| && (Current(s, g) ==> i'.forwarding == i.forwarding))
  }

  lemma RecordsFrame(s: Sys, s': Sys)
    requires Recorded(s) && SameRecords(s, s')
    ensures Recorded(s') && (ManagedIsNewest(s) ==> ManagedIsNewest(s'))
  {
    assert Recorded(s') by {
      forall w, k | Manages(s', w, k) ensures OnRecord(s', w, k) {
        assert OnRecord(s, w, k);
      }
      forall g | Current(s', g) ensures AtHome(s', g) {
        assert AtHome(s, g);
      }
    }
    if ManagedIsNewest(s) {
      forall g, h | Current(s', g) && h in s'.incs && NameOf(s', g) == NameOf(s', h) ensures h <= g {
        assert Current(s, g) && NameOf(s, g) == NameOf(s, h);
      }
    }
  }

  lemma RecordsAfterCreate(explicit: set<string>, s: Sys, w: nat)
    requires ClaimsMatch(explicit, s) && Recorded(s) && Enabled(explicit, s, Create(w))
    ensures Recorded(Next(explicit, s, Create(w)))
  {
    var s' := Next(explicit, s, Create(w));
    var key, g := s.watchers[w].phase.todo[0], s.genSeq + 1;
    assert Claiming(s, w, key);
    assert forall u, k :: Manages(s', u, k) <==> Manages(s, u, k) || (u == w && k == key);
    forall u, k | Manages(s', u, k) ensures OnRecord(s', u, k) {
      if u != w || k != key { assert OnRecord(s, u, k); }
    }
    forall h | Current(s', h) ensures AtHome(s', h) {
      if h != g { assert Current(s, h) && AtHome(s, h); }
    }
  }

  /** A name can only be adopted when no incarnation of it is managed. */
  lemma NewestAfterCreate(explicit: set<string>, s: Sys, w: nat)
    requires ClaimsMatch(explicit, s) && Recorded(s) && ManagedIsNewest(s) && Enabled(explicit, s, Create(w))
    ensures ManagedIsNewest(Next(explicit, s, Create(w)))
  {
    var s' := Next(explicit, s, Create(w));
    var key, new_ := s.watchers[w].phase.todo[0], s.genSeq + 1;
    assert Claiming(s, w, key);
    forall g | Current(s, g) ensures NameOf(s, g) != key.name {
      assert AtHome(s, g);
    }
    forall g, h | Current(s', g) && h in s'.incs && NameOf(s', g) == NameOf(s', h) ensures h <= g {
      assert g == new_ || Current(s, g);
      assert h == new_ || NameOf(s', h) == NameOf(s, h);
    }
  }

  lemma RecordsAfterDrop(explicit: set<string>, s: Sys, w: nat, key: Key, phase: Phase, notice: RemovalNotice)
    requires ClaimsMatch(explicit, s) && Recorded(s)
    requires Manages(s, w, key) && GenOf(s, w, key) in s.incs && !notice.NotSent?
    ensures Recorded(Drop(s, w, key, phase, notice))
    ensures ManagedIsNewest(s) ==> ManagedIsNewest(Drop(s, w, key, phase, notice))
  {
    var s' := Drop(s, w, key, phase, notice);
    var g := GenOf(s, w, key);
    assert forall u, k :: Manages(s', u, k) <==> Manages(s, u, k) && !(u == w && k == key);
    assert OnRecord(s, w, key);
    forall u, k | Manages(s', u, k) ensures OnRecord(s', u, k) {
      assert OnRecord(s, u, k);
    }
    forall h | Current(s', h) ensures AtHome(s', h) {
      assert Current(s, h) && AtHome(s, h);
    }
    if ManagedIsNewest(s) {
      forall h, j | Current(s', h) && j in s'.incs && NameOf(s', h) == NameOf(s', j) ensures j <= h {
        assert Current(s, h) && NameOf(s, h) == NameOf(s, j);
      }
    }
  }

  predicate RecordStep(step: Step) {
    step.Create? || step.DropOne? || step.StopOne?
  }

  /** An incarnation that sends, arrives or stops forwarding, no watcher involved. */
  ghost predicate OnlyChannelOf(s: Sys, s': Sys, g: nat) {
    && g in s.incs && g in s'.incs && s'.watchers == s.watchers && s'.genSeq == s.genSeq
    && s'.incs == s.incs[g := s'.incs[g]]
    && var i, i' := s.incs[g], s'.incs[g];
       && i'.home == i.home && (i'.removal.NotSent? <==> i.removal.NotSent?) && i'.arrived <= |i'.sent|
       && (i.removal.NotSent? ==> i'.forwarding == i.forwarding)
  }

  lemma ChannelKeepsRecords(s: Sys, s': Sys, g: nat)
    requires Recorded(s) && OnlyChannelOf(s, s', g)
    ensures SameRecords(s, s')
  {
    hide AtHome, OnRecord;
  }

  lemma ChannelsKeepRecords(explicit: set<string>, s: Sys, step: Step)
    requires Recorded(s) && Enabled(explicit, s, step) && ChannelStep(step)
    ensures SameRecords(s, Next(explicit, s, step))
  {
    var s' := Next(explicit, s, step);
    if step.Evict? {
      hide Quiet, Settled, AtHome, OnRecord;
    } else {
      hide Quiet, Settled, Deliver, SameRecords, AtHome, OnRecord;
      ChannelKeepsRecords(s, s', step.g);
    }
  }

  /** Only watcher `w` changes, and not what it manages. */
  predicate UpdatesOne(s: Sys, s': Sys, w: nat) {
    && w in s'.watchers && s'.watchers == s.watchers[w := s'.watchers[w]]
    && s'.watchers[w].managed == (if w in s.watchers then s.watchers[w].managed else map[])
    && s'.incs == s.incs && s'.genSeq == s.genSeq && s'.cells == s.cells
  }

  lemma UpdateKeepsRecords(s: Sys, s': Sys, w: nat)
    requires Recorded(s) && UpdatesOne(s, s', w)
    ensures SameRecords(s, s')
  {
    forall g | Current(s, g) ensures s.incs[g].forwarding {
      assert AtHome(s, g);
    }
  }

  lemma RecordStaysExact(explicit: set<string>, s: Sys, step: Step)
    requires ClaimsMatch(explicit, s) && Recorded(s) && ManagedIsNewest(s) && Enabled(explicit, s, step)
    ensures Recorded(Next(explicit, s, step)) && ManagedIsNewest(Next(explicit, s, step))
  {
    hide ClaimsMatch, Recorded, ManagedIsNewest, SameRecords;
    if step.Create? {
      RecordsAfterCreate(explicit, s, step.w);
      NewestAfterCreate(explicit, s, step.w);
    } else if step.DropOne? {
      RecordsAfterDrop(explicit, s, step.w, step.key, s.watchers[step.w].phase.(dropped := true), InFlight);
    } else if step.StopOne? {
      RecordsAfterDrop(explicit, s, step.w, step.key, Stopping, Never);
    } else {
      if ChannelStep(step) {
        ChannelsKeepRecords(explicit, s, step);
      } else {
        if !step.Examine? {
          WatcherKeepsClaiming(explicit, s, step, Key("", ""));
        }
        UpdateKeepsRecords(s, Next(explicit, s, step), step.w);
      }
      RecordsFrame(s, Next(explicit, s, step));
    }
  }

  // ---------------------------------------------------------------------------
  // What the event loop holds
  // ---------------------------------------------------------------------------

  predicate Of(s: Sys, name: string, g: nat) {
    g in s.incs && NameOf(s, g) == name
  }

  /** An ADD of `g` has reached the event loop. */
  predicate Heard(s: Sys, name: string, g: nat) {
    Of(s, name, g) && 0 < s.incs[g].arrived <= |s.incs[g].sent|
  }

  /** The removal of `g` has reached the event loop. */
  predicate Gone(s: Sys, name: string, g: nat) {
    Of(s, name, g) && s.incs[g].removal.Delivered?
  }

  function LastHeard(inc: Incarnation): BackendState
    requires 0 < inc.arrived <= |inc.sent|
  {
    inc.sent[inc.arrived - 1]
  }

  /** The loop's cell for a name agrees with what has arrived, whatever the order. */
  ghost predicate CellMatches(s: Sys, name: string) {
    var c := CellOf(s, name);
    && (c.tombstone == 0 || Gone(s, name, c.tombstone))
    && (c.live > 0 ==>
         && Heard(s, name, c.live) && c.tombstone < c.live
         && c.state == Some(LastHeard(s.incs[c.live]))
         && (forall g: nat | Heard(s, name, g) :: g <= c.live)
         && (forall g: nat | Gone(s, name, g) :: g < c.live))
    && (c.live == 0 ==>
         && c.state == None
         && forall g: nat | Heard(s, name, g) || Gone(s, name, g) :: g <= c.tombstone || Quiet(s, name, g))
  }

  /** The incarnation may settle or send more, but nothing of it arrives. */
  predicate Keeps(i: Incarnation, i': Incarnation) {
    && i'.arrived == i.arrived && i.sent <= i'.sent
    && (i'.removal.Delivered? <==> i.removal.Delivered?) && (Settled(i) ==> Settled(i'))
  }

  /** Nothing the cell of `name` depends on changes, except that incarnations may settle,
      send more, or be created with a newer generation. */
  ghost predicate CellFrame(s: Sys, s': Sys, name: string) {
    && CellOf(s', name) == CellOf(s, name)
    && (forall g | g in s.incs :: g in s'.incs && s'.incs[g].home == s.incs[g].home)
    && (forall g | Of(s, name, g) :: Keeps(s.incs[g], s'.incs[g]))
    && (forall g | g in s'.incs && g !in s.incs ::
          g > s.genSeq && s'.incs[g].arrived == 0 && !s'.incs[g].removal.Delivered?)
  }

  lemma CellKept(s: Sys, s': Sys, name: string)
    requires Recorded(s) && CellMatches(s, name) && CellFrame(s, s', name)
    ensures CellMatches(s', name)
  {
    hide Settled, AtHome, OnRecord;
    forall g: nat ensures Heard(s', name, g) <==> Heard(s, name, g) {
      if Of(s, name, g) { assert Of(s', name, g); }
    }
    forall g: nat ensures Gone(s', name, g) <==> Gone(s, name, g) {
      if Of(s, name, g) { assert Of(s', name, g); }
    }
    forall g | g in s.incs && Quiet(s, name, g) ensures Quiet(s', name, g) {
      forall h | h in s'.incs && NameOf(s', h) == name && h <= g ensures Settled(s'.incs[h]) {
        assert h in s.incs && NameOf(s, h) == name;
      }
    }
  }

  lemma CellsAfterAdd(explicit: set<string>, s: Sys, g: nat)
    requires Recorded(s) && Enabled(explicit, s, DeliverAdd(g)) && CellMatches(s, NameOf(s, g))
    ensures CellMatches(Next(explicit, s, DeliverAdd(g)), NameOf(s, g))
  {
    hide AtHome, OnRecord;
    var s', n := Next(explicit, s, DeliverAdd(g)), NameOf(s, g);
    var c := CellOf(s, n);
    assert !Settled(s.incs[g]) && Of(s, n, g);
    forall h: nat ensures Heard(s', n, h) <==> Heard(s, n, h) || h == g {}
    forall h: nat ensures Gone(s', n, h) <==> Gone(s, n, h) {}
    forall h: nat | Quiet(s, n, h) ensures h < g && Quiet(s', n, h) {}
    if g < c.live || (c.live == 0 && g <= c.tombstone) {
      assert CellOf(s', n) == c;
    } else {
      assert c.tombstone < g;
      assert CellOf(s', n) == Cell(Some(s.incs[g].sent[s.incs[g].arrived]), g, c.tombstone);
    }
  }

  lemma CellsAfterRemoval(explicit: set<string>, s: Sys, g: nat)
    requires Recorded(s) && Enabled(explicit, s, DeliverRemoval(g)) && CellMatches(s, NameOf(s, g))
    ensures CellMatches(Next(explicit, s, DeliverRemoval(g)), NameOf(s, g))
  {
    hide AtHome, OnRecord;
    var s', n := Next(explicit, s, DeliverRemoval(g)), NameOf(s, g);
    var c := CellOf(s, n);
    assert Of(s, n, g);
    forall h: nat ensures Heard(s', n, h) <==> Heard(s, n, h) {}
    forall h: nat ensures Gone(s', n, h) <==> Gone(s, n, h) || h == g {}
    forall h: nat | Quiet(s, n, h) ensures Quiet(s', n, h) {}
    if g >= c.live {
      assert CellOf(s', n) == Cell(None, 0, if g > c.tombstone then g else c.tombstone);
    }
  }

  lemma CellsAfterEvict(explicit: set<string>, s: Sys, name: string)
    requires Recorded(s) && Enabled(explicit, s, Evict(name)) && CellMatches(s, name)
    ensures CellMatches(Next(explicit, s, Evict(name)), name)
  {
    hide Settled, AtHome, OnRecord;
    var s' := Next(explicit, s, Evict(name));
    forall h: nat | Quiet(s, name, h) ensures Quiet(s', name, h) {}
    forall h: nat | h <= CellOf(s, name).tombstone ensures Quiet(s', name, h) {}
    forall h: nat ensures Heard(s', name, h) <==> Heard(s, name, h) {}
    forall h: nat ensures Gone(s', name, h) <==> Gone(s, name, h) {}
  }

  lemma RecordStepsKeepCell(explicit: set<string>, s: Sys, step: Step, name: string)
    requires Recorded(s) && Enabled(explicit, s, step) && RecordStep(step)
    ensures CellFrame(s, Next(explicit, s, step), name)
  {
    hide Quiet, Skips, Ascending, Deliver, AtHome;
    if !step.Create? {
      assert Manages(s, step.w, step.key) && OnRecord(s, step.w, step.key);
    }
  }

  lemma ChannelStepsKeepCell(explicit: set<string>, s: Sys, step: Step, name: string)
    requires Enabled(explicit, s, step) && ChannelStep(step)
    requires step.DeliverAdd? || step.DeliverRemoval? ==> NameOf(s, step.g) != name
    requires step.Evict? ==> step.name != name
    ensures CellFrame(s, Next(explicit, s, step), name)
  {
    hide Quiet, Deliver, CellFrame;
    var s' := Next(explicit, s, step);
    match step
    case Evict(_) => IncarnationsUntouched(s, s', name);
    case Forward(g, _) => OneIncarnationChanges(s, s', g, name);
    case StopForwarding(g) => OneIncarnationChanges(s, s', g, name);
    case DeliverAdd(g) => OneIncarnationChanges(s, s', g, name);
    case DeliverRemoval(g) => OneIncarnationChanges(s, s', g, name);
  }

  lemma IncarnationsUntouched(s: Sys, s': Sys, name: string)
    requires s'.incs == s.incs && CellOf(s', name) == CellOf(s, name)
    ensures CellFrame(s, s', name)
  {
    hide Settled;
  }

  lemma OneIncarnationChanges(s: Sys, s': Sys, g: nat, name: string)
    requires g in s.incs && g in s'.incs && s'.incs == s.incs[g := s'.incs[g]]
    requires s'.incs[g].home == s.incs[g].home && CellOf(s', name) == CellOf(s, name)
    requires Of(s, name, g) ==> Keeps(s.incs[g], s'.incs[g])
    ensures CellFrame(s, s', name)
  {
    hide Settled;
  }

  ghost predicate CellsMatch(s: Sys) {
    forall name :: CellMatches(s, name)
  }

  lemma CellsStayMatched(explicit: set<string>, s: Sys, step: Step)
    requires Recorded(s) && CellsMatch(s) && Enabled(explicit, s, step)
    ensures CellsMatch(Next(explicit, s, step))
  {
    hide Recorded, CellMatches, Quiet, CellFrame;
    var s' := Next(explicit, s, step);
    forall name ensures CellMatches(s', name) {
      assert CellMatches(s, name);
      if step.DeliverAdd? && NameOf(s, step.g) == name {
        CellsAfterAdd(explicit, s, step.g);
      } else if step.DeliverRemoval? && NameOf(s, step.g) == name {
        CellsAfterRemoval(explicit, s, step.g);
      } else if step.Evict? && step.name == name {
        CellsAfterEvict(explicit, s, name);
      } else {
        if RecordStep(step) {
          RecordStepsKeepCell(explicit, s, step, name);
        } else if ChannelStep(step) {
          ChannelStepsKeepCell(explicit, s, step, name);
        } else {
          WatcherStepsKeepCell(explicit, s, step, name);
        }
        CellKept(s, s', name);
      }
    }
  }

  lemma WatcherStepsKeepCell(explicit: set<string>, s: Sys, step: Step, name: string)
    requires Enabled(explicit, s, step) && !ChannelStep(step) && !RecordStep(step)
    ensures CellFrame(s, Next(explicit, s, step), name)
  {
    hide Skips, Quiet;
    if !step.Examine? {
      WatcherKeepsClaiming(explicit, s, step, Key("", ""));
    }
    IncarnationsUntouched(s, Next(explicit, s, step), name);
  }

  // ---------------------------------------------------------------------------
  // No lost wakeup
  // ---------------------------------------------------------------------------

  /** The name is taken, or the watcher is about to look again. */
  predicate Covered(explicit: set<string>, s: Sys, w: nat, key: Key)
    requires w in s.watchers
  {
    var x := s.watchers[w];
    key.name in explicit || key.name in s.owners || x.syncs > 0 || x.kicked || w in s.owed
  }

  predicate Listed(w: Watcher, key: Key) {
    match w.phase
    case Adding(listed, _, _, _) => key in listed
    case Dropping(listed, _) => key in listed
    case _ => key in w.view
  }

  /** Every listed Service is covered, except those the running add pass has still to
      examine; and a view newer than the listing has a reconcile due. */
  ghost predicate Awake(explicit: set<string>, s: Sys, w: nat)
    requires w in s.watchers
  {
    var x := s.watchers[w];
    && (forall key | Listed(x, key) :: Covered(explicit, s, w, key) || (x.phase.Adding? && key in x.phase.todo))
    && (x.syncs > 0 || forall key :: Listed(x, key) <==> key in x.view)
  }

  ghost predicate AllAwake(explicit: set<string>, s: Sys) {
    forall w | w in s.watchers && Running(s.watchers[w]) :: Awake(explicit, s, w)
  }

  /** Releases owe every running watcher a kick, so coverage survives them. */
  lemma OthersStayAwake(explicit: set<string>, s: Sys, s': Sys, w: nat)
    requires w in s.watchers && w in s'.watchers && s'.watchers[w] == s.watchers[w]
    requires Running(s.watchers[w]) && Awake(explicit, s, w)
    requires w in s.owed ==> w in s'.owed
    requires w in s'.owed || s.owners.Keys <= s'.owners.Keys
    ensures Awake(explicit, s', w)
  {}

  predicate DropStep(step: Step) {
    step.DropOne? || step.StopOne?
  }

  /** Examining a key leaves it covered: it is managed, explicit, taken or now claimed. */
  lemma ExaminedIsCovered(explicit: set<string>, s: Sys, w: nat, key: Key)
    requires ClaimsMatch(explicit, s) && w in s.watchers
    requires Skips(explicit, s, w, key) || Claiming(s, w, key)
    ensures key.name in explicit || key.name in s.owners
  {
    if key in s.watchers[w].managed {
      assert Manages(s, w, key);
    } else if NameTaken(s.watchers[w].managed, key) {
      var k :| k in s.watchers[w].managed && k.name == key.name && k.ns != key.ns;
      assert Manages(s, w, k);
    }
  }

  lemma AddingStaysAwake(explicit: set<string>, s: Sys, step: Step)
    requires ClaimsMatch(explicit, s) && Enabled(explicit, s, step) && (step.Examine? || step.Create?)
    requires Running(s.watchers[step.w]) && Awake(explicit, s, step.w)
    ensures Awake(explicit, Next(explicit, s, step), step.w)
  {
    hide ClaimsMatch, Skips;
    var s', w := Next(explicit, s, step), step.w;
    var todo := s.watchers[w].phase.todo;
    assert todo == [todo[0]] + todo[1..];
    if Skips(explicit, s, w, todo[0]) || Claiming(s, w, todo[0]) {
      ExaminedIsCovered(explicit, s, w, todo[0]);
    }
    assert s.owners.Keys <= s'.owners.Keys;
    forall key | Covered(explicit, s, w, key) ensures Covered(explicit, s', w, key) {}
    assert s'.watchers[w].view == s.watchers[w].view;
    forall key ensures Listed(s'.watchers[w], key) <==> Listed(s.watchers[w], key) {}
  }

  lemma WatcherStaysAwake(explicit: set<string>, s: Sys, step: Step)
    requires Enabled(explicit, s, step) && !ChannelStep(step) && !RecordStep(step) && !step.Examine?
    requires step.w in s.watchers && Running(s.watchers[step.w]) ==> Awake(explicit, s, step.w)
    ensures var s' := Next(explicit, s, step);
            step.w in s'.watchers && (Running(s'.watchers[step.w]) ==> Awake(explicit, s', step.w))
  {
    hide Ascending;
    var s', w := Next(explicit, s, step), step.w;
    match step
    case EndPass(_) =>
      forall key | Listed(s.watchers[w], key) ensures Covered(explicit, s', w, key) {
        assert Covered(explicit, s, w, key);
      }
    case EndDrop(_) =>
      forall key | Listed(s.watchers[w], key) ensures Covered(explicit, s', w, key) {
        assert Covered(explicit, s, w, key);
      }
    case _ =>
  }

  /** A dropped claim owes every subscriber a kick. */
  lemma DropOwesKicks(explicit: set<string>, s: Sys, w: nat, key: Key, phase: Phase, notice: RemovalNotice, u: nat)
    requires ClaimsMatch(explicit, s) && Manages(s, w, key) && GenOf(s, w, key) in s.incs
    requires u in s.watchers && !s.watchers[u].phase.Stopped?
    ensures u in Drop(s, w, key, phase, notice).owed
  {
    assert Held(s.owners, key.name, Token(w, key));
    assert u in Subscribers(s);
  }

  lemma OwedStaysAwake(explicit: set<string>, s: Sys, s': Sys, w: nat)
    requires w in s.watchers && w in s'.watchers && w in s'.owed && Awake(explicit, s, w)
    requires var x, x' := s.watchers[w], s'.watchers[w];
             && x'.view == x.view && x'.syncs == x.syncs
             && forall key :: Listed(x', key) <==> Listed(x, key)
    ensures Awake(explicit, s', w)
  {}

  lemma DropStaysAwake(explicit: set<string>, s: Sys, step: Step, u: nat)
    requires ClaimsMatch(explicit, s) && Enabled(explicit, s, step) && DropStep(step)
    requires u in s.watchers
    requires Running(s.watchers[u]) ==> Awake(explicit, s, u)
    ensures var s' := Next(explicit, s, step);
            u in s'.watchers && (Running(s'.watchers[u]) ==> Awake(explicit, s', u))
  {
    hide ClaimsMatch, Awake, Covered;
    var s' := Next(explicit, s, step);
    var x, x' := s.watchers[u], s'.watchers[u];
    var phase := if step.DropOne? then s.watchers[step.w].phase.(dropped := true) else Stopping;
    if Running(x) {
      assert Manages(s, step.w, step.key);
      DropOwesKicks(explicit, s, step.w, step.key, phase, if step.DropOne? then InFlight else Never, u);
      if Running(x') {
        forall key ensures Listed(x', key) <==> Listed(x, key) {}
        OwedStaysAwake(explicit, s, s', u);
      }
    }
  }

  lemma EveryoneStaysAwake(explicit: set<string>, s: Sys, step: Step)
    requires ClaimsMatch(explicit, s) && AllAwake(explicit, s) && Enabled(explicit, s, step)
    ensures AllAwake(explicit, Next(explicit, s, step))
  {
    hide ClaimsMatch, Awake, Covered, Skips;
    var s' := Next(explicit, s, step);
    forall u | u in s'.watchers && Running(s'.watchers[u]) ensures Awake(explicit, s', u) {
      if ChannelStep(step) {
        ChannelsKeepWatchers(explicit, s, step);
        OthersStayAwake(explicit, s, s', u);
      } else if DropStep(step) {
        DropStaysAwake(explicit, s, step, u);
      } else if u != step.w {
        BystanderIsUntouched(explicit, s, step, u);
        OthersStayAwake(explicit, s, s', u);
      } else if step.Examine? || step.Create? {
        AddingStaysAwake(explicit, s, step);
      } else {
        WatcherStaysAwake(explicit, s, step);
      }
    }
  }

  lemma BystanderIsUntouched(explicit: set<string>, s: Sys, step: Step, u: nat)
    requires Enabled(explicit, s, step) && !ChannelStep(step) && !DropStep(step) && u != step.w
    requires u in Next(explicit, s, step).watchers
    ensures var s' := Next(explicit, s, step);
            && u in s.watchers && s'.watchers[u] == s.watchers[u]
            && (u in s.owed ==> u in s'.owed) && s.owners.Keys <= s'.owners.Keys
  {
    hide Skips, Ascending, NameTaken;
  }

  // ---------------------------------------------------------------------------
  // Uninterrupted steps are the watcher's own passes
  // ---------------------------------------------------------------------------

  function LocalOf(s: Sys, w: nat): Local
    requires w in s.watchers
  {
    Local(s.watchers[w].managed, s.owners, s.genSeq)
  }

  /** Examining a key and, if it was claimed, creating its incarnation is one iteration
      of the add pass. */
  lemma ExamineAndCreateIsAdopt(explicit: set<string>, s: Sys, w: nat)
    requires Enabled(explicit, s, Examine(w)) && ClaimsMatch(explicit, s)
    ensures var key, s1 := s.watchers[w].phase.todo[0], Next(explicit, s, Examine(w));
            var adopted := Adopt(Config(w, true, explicit), key, LocalOf(s, w));
            if Skips(explicit, s, w, key) then LocalOf(s1, w) == adopted
            else Enabled(explicit, s1, Create(w)) && LocalOf(Next(explicit, s1, Create(w)), w) == adopted
  {}

  /** Dropping one incarnation is one iteration of the remove pass. */
  lemma DropIsWithout(explicit: set<string>, s: Sys, w: nat, key: Key)
    requires Enabled(explicit, s, DropOne(w, key))
    ensures LocalOf(Next(explicit, s, DropOne(w, key)), w)
            == Without(Config(w, true, explicit), {key}, LocalOf(s, w))
  {
    WithoutNothing(Config(w, true, explicit), LocalOf(s, w));
    WithoutOneMore(Config(w, true, explicit), {}, key, LocalOf(s, w));
    assert {} + {key} == {key};
  }

  // ---------------------------------------------------------------------------
  // Every run
  // ---------------------------------------------------------------------------

  /** The state a run of steps leads to; None when some step was not enabled. */
  ghost function After(explicit: set<string>, steps: seq<Step>): Option<Sys> {
    if steps == [] then Some(INIT)
    else
      var s, step := After(explicit, steps[..|steps| - 1]), steps[|steps| - 1];
      if s.Some? && Enabled(explicit, s.value, step) then Some(Next(explicit, s.value, step)) else None
  }

  ghost predicate Invariant(explicit: set<string>, s: Sys) {
    && ClaimsMatch(explicit, s) && Recorded(s) && ManagedIsNewest(s)
    && CellsMatch(s) && AllAwake(explicit, s)
  }

  lemma {:induction false} EveryRunKeepsInvariant(explicit: set<string>, steps: seq<Step>)
    ensures var s := After(explicit, steps); s.Some? ==> Invariant(explicit, s.value)
  {
    if steps != [] {
      var prefix, step := steps[..|steps| - 1], steps[|steps| - 1];
      EveryRunKeepsInvariant(explicit, prefix);
      var s := After(explicit, prefix);
      if s.Some? && Enabled(explicit, s.value, step) {
        hide Enabled, Next, ClaimsMatch, Recorded, ManagedIsNewest, CellsMatch, AllAwake;
        ClaimsStayMatched(explicit, s.value, step);
        RecordStaysExact(explicit, s.value, step);
        CellsStayMatched(explicit, s.value, step);
        EveryoneStaysAwake(explicit, s.value, step);
      }
    }
  }

  /** In every reachable state a bare name has at most one managed incarnation across all
      watchers, and it is newer than every other incarnation the name ever had. */
  lemma OneManagedIncarnationPerName(explicit: set<string>, steps: seq<Step>)
    ensures var s := After(explicit, steps);
      s.Some? ==>
        && (forall w, j, u, k | Manages(s.value, w, j) && Manages(s.value, u, k) && j.name == k.name ::
              w == u && j == k)
        && (forall w, k, h: nat | Manages(s.value, w, k) && Of(s.value, k.name, h) ::
              h <= GenOf(s.value, w, k))
  {
    hide After;
    var r := After(explicit, steps);
    EveryRunKeepsInvariant(explicit, steps);
    if r.Some? {
      var s := r.value;
      forall w, j, u, k | Manages(s, w, j) && Manages(s, u, k) && j.name == k.name ensures w == u && j == k {
        assert Held(s.owners, j.name, Token(w, j)) && Held(s.owners, k.name, Token(u, k));
      }
      forall w, k, h: nat | Manages(s, w, k) && Of(s, k.name, h) ensures h <= GenOf(s, w, k) {
        assert OnRecord(s, w, k);
      }
    }
  }

  /** Nothing of the name is in flight, and none of its removals was swallowed by a
      shutdown. */
  ghost predicate Drained(s: Sys, name: string) {
    forall g | Of(s, name, g) ::
      s.incs[g].arrived == |s.incs[g].sent| && (s.incs[g].removal.NotSent? || s.incs[g].removal.Delivered?)
  }

  /** The newest incarnation the name ever had. */
  ghost predicate Newest(s: Sys, name: string, g: nat) {
    Of(s, name, g) && forall h: nat | Of(s, name, h) :: h <= g
  }

  /** What the event loop should hold once everything has arrived. */
  ghost predicate Converged(s: Sys, name: string) {
    var c := CellOf(s, name);
    && (forall g: nat | Newest(s, name, g) ::
          c.state == if Current(s, g) && s.incs[g].sent != []
                     then Some(s.incs[g].sent[|s.incs[g].sent| - 1]) else None)
    && ((forall g: nat :: !Of(s, name, g)) ==> c.state == None)
  }

  /** End to end: however the watchers hand names over and the channels reorder, once a
      name's channels have drained the loop holds it iff its newest incarnation is still
      managed and has sent a state, and then it holds the last state sent. */
  lemma DrainedNamesConverge(explicit: set<string>, steps: seq<Step>, name: string)
    ensures var s := After(explicit, steps);
      s.Some? && Drained(s.value, name) ==> Converged(s.value, name)
  {
    hide After;
    var r := After(explicit, steps);
    EveryRunKeepsInvariant(explicit, steps);
    if r.Some? && Drained(r.value, name) {
      hide ClaimsMatch, AllAwake;
      InvariantConverges(r.value, name);
    }
  }

  lemma InvariantConverges(s: Sys, name: string)
    requires Recorded(s) && ManagedIsNewest(s) && CellMatches(s, name) && Drained(s, name)
    ensures Converged(s, name)
  {
    hide AtHome, OnRecord;
    var c := CellOf(s, name);
    forall g: nat | Newest(s, name, g)
      ensures c.state == if Current(s, g) && s.incs[g].sent != []
                         then Some(s.incs[g].sent[|s.incs[g].sent| - 1]) else None
    {
      forall h: nat | Of(s, name, h) && h != g ensures Gone(s, name, h) {
        assert Current(s, h) ==> g <= h;
      }
      if Current(s, g) && s.incs[g].sent != [] {
        assert Heard(s, name, g);
        assert !Quiet(s, name, g) by { assert !Settled(s.incs[g]); }
      } else if !Current(s, g) {
        assert Gone(s, name, g);
      }
    }
  }

  /** No lost wakeup: in every reachable state, each non-explicit name a running watcher
      lists is owned by some watcher, or that watcher has a reconcile due or running, or
      a release kick is on its way to it. */
  lemma NoLostWakeup(explicit: set<string>, steps: seq<Step>, w: nat, key: Key)
    ensures var r := After(explicit, steps);
      r.Some? && w in r.value.watchers && Running(r.value.watchers[w])
      && key in r.value.watchers[w].view && key.name !in explicit ==>
        var s, x := r.value, r.value.watchers[w];
        key.name in s.owners || x.syncs > 0 || !x.phase.Idle? || x.kicked || w in s.owed
  {
    hide After;
    EveryRunKeepsInvariant(explicit, steps);
    var r := After(explicit, steps);
    if r.Some? && w in r.value.watchers && Running(r.value.watchers[w]) {
      assert Awake(explicit, r.value, w);
    }
  }

  /** Nothing is due, running or owed anywhere. */
  ghost predicate AtRest(s: Sys) {
    && s.owed == multiset{}
    && forall w | w in s.watchers && Running(s.watchers[w]) ::
         s.watchers[w].phase.Idle? && s.watchers[w].syncs == 0 && !s.watchers[w].kicked
  }

  /** At rest, every listed non-explicit name is managed, by exactly one incarnation. */
  lemma AtRestEveryNameIsManaged(explicit: set<string>, steps: seq<Step>, w: nat, key: Key)
    ensures var r := After(explicit, steps);
      r.Some? && AtRest(r.value) && w in r.value.watchers && Running(r.value.watchers[w])
      && key in r.value.watchers[w].view && key.name !in explicit ==>
        var s := r.value;
        key.name in s.owners && s.owners[key.name].key.name == key.name
        && Manages(s, s.owners[key.name].watcher, s.owners[key.name].key)
  {
    hide After, Awake;
    EveryRunKeepsInvariant(explicit, steps);
    NoLostWakeup(explicit, steps, w, key);
    var r := After(explicit, steps);
    if r.Some? && AtRest(r.value) && key.name in r.value.owners {
      var t := r.value.owners[key.name];
      assert !Claiming(r.value, t.watcher, t.key);
    }
  }
}
