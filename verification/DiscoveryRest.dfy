/** The discovery protocol against its two simple forms: an undisturbed sync is a reconcile,
    and a system at rest serves exactly what is listed. */
module DiscoveryRest {
  import opened Basics
  import opened BackendConsumer
  import opened Discovery
  import opened DiscoveryProtocol

  // ---------------------------------------------------------------------------
  // An undisturbed sync is a reconcile
  // ---------------------------------------------------------------------------

  /** No other watcher takes or frees a name, and this one neither starts over nor stops.
      Everything else may happen: kicks, view changes, other watchers' passes without
      effect, forwarding, deliveries. */
  predicate Undisturbed(step: Step, w: nat) {
    || ChannelStep(step)
    || (if step.w == w then !step.Start? && !step.StartSync? && !step.Stop?
        else !step.Examine? && !step.Create? && !step.DropOne? && !step.StopOne?)
  }

  /** The state a run leads to from `s`; None when some step was not enabled. */
  ghost function RunFrom(explicit: set<string>, s: Sys, steps: seq<Step>): Option<Sys> {
    if steps == [] then Some(s)
    else
      var r, step := RunFrom(explicit, s, steps[..|steps| - 1]), steps[|steps| - 1];
      if r.Some? && Enabled(explicit, r.value, step) then Some(Next(explicit, r.value, step)) else None
  }

  /** How far a sync with these keys has come, told by the reconcile that started from `l`. */
  ghost predicate Midway(explicit: set<string>, w: nat, keys: seq<Key>, l: Local, s: Sys) {
    && w in s.watchers
    && var cfg, now, added := Config(w, true, explicit), LocalOf(s, w), AddPass(Config(w, true, explicit), keys, l);
       match s.watchers[w].phase
       case Adding(listed, todo, claimed, second) =>
         && listed == keys && |todo| <= |keys| && todo == keys[|keys| - |todo|..]
         && (second ==> Unlisted(added.managed, keys) != {})
         && var m := AddPass(cfg, keys[..|keys| - |todo|], if second then RemovePass(cfg, keys, added) else l);
            if claimed then
              && todo != [] && Adoptable(cfg, todo[0], m)
              && now == m.(owners := Claimed(m.owners, todo[0].name, Token(w, todo[0])))
            else now == m
       case Dropping(listed, dropped) =>
         var gone := added.managed.Keys - now.managed.Keys;
         && listed == keys && gone <= Unlisted(added.managed, keys)
         && now == Without(cfg, gone, added) && (dropped <==> gone != {})
       case Idle => now == Reconcile(cfg, keys, l)
       case _ => false
  }

  lemma BystandersLeaveLocal(explicit: set<string>, w: nat, s: Sys, step: Step)
    requires w in s.watchers && Enabled(explicit, s, step) && Undisturbed(step, w) && !ChannelStep(step)
    requires step.w != w || step.ViewChange? || step.KickArrives? || step.KickTaken?
    ensures var s' := Next(explicit, s, step);
            w in s'.watchers && s'.watchers[w].phase == s.watchers[w].phase && LocalOf(s', w) == LocalOf(s, w)
  {
    hide Quiet, Ascending, Deliver, Skips, Claimed, Released, Held, Subscribers;
  }

  lemma ChannelsLeaveGenerations(explicit: set<string>, s: Sys, step: Step)
    requires Enabled(explicit, s, step) && ChannelStep(step)
    ensures Next(explicit, s, step).genSeq == s.genSeq
  {
    hide Quiet, Deliver;
  }

  lemma BystandersKeepMidway(explicit: set<string>, w: nat, keys: seq<Key>, l: Local, s: Sys, step: Step)
    requires Midway(explicit, w, keys, l, s) && Enabled(explicit, s, step) && Undisturbed(step, w)
    requires ChannelStep(step) || step.w != w || step.ViewChange? || step.KickArrives? || step.KickTaken?
    ensures Midway(explicit, w, keys, l, Next(explicit, s, step))
  {
    hide AddPass, RemovePass, Reconcile, Enabled, Next, Unlisted, Without, Adoptable, Claimed;
    if ChannelStep(step) {
      ChannelsKeepWatchers(explicit, s, step);
      ChannelsLeaveGenerations(explicit, s, step);
    } else {
      BystandersLeaveLocal(explicit, w, s, step);
    }
  }

  lemma AddPassStep(cfg: Config, keys: seq<Key>, at: nat, l: Local)
    requires at < |keys|
    ensures AddPass(cfg, keys[..at + 1], l) == Adopt(cfg, keys[at], AddPass(cfg, keys[..at], l))
    ensures keys[at..][0] == keys[at] && keys[at..][1..] == keys[at + 1..]
  {
    assert keys[..at + 1][..at] == keys[..at];
  }

  lemma SkipsIsNotAdoptable(explicit: set<string>, s: Sys, w: nat, key: Key)
    requires w in s.watchers
    ensures Skips(explicit, s, w, key) <==> !Adoptable(Config(w, true, explicit), key, LocalOf(s, w))
  {}

  lemma ExamineKeepsMidway(explicit: set<string>, w: nat, keys: seq<Key>, l: Local, s: Sys)
    requires Midway(explicit, w, keys, l, s) && Enabled(explicit, s, Examine(w))
    ensures Midway(explicit, w, keys, l, Next(explicit, s, Examine(w)))
  {
    hide AddPass, RemovePass, Reconcile, Unlisted, Skips, Adoptable, Claimed, Without;
    var cfg, todo := Config(w, true, explicit), s.watchers[w].phase.todo;
    AddPassStep(cfg, keys, |keys| - |todo|, l);
    AddPassStep(cfg, keys, |keys| - |todo|, RemovePass(cfg, keys, AddPass(cfg, keys, l)));
    SkipsIsNotAdoptable(explicit, s, w, todo[0]);
  }

  lemma CreateKeepsMidway(explicit: set<string>, w: nat, keys: seq<Key>, l: Local, s: Sys)
    requires Midway(explicit, w, keys, l, s) && Enabled(explicit, s, Create(w))
    ensures Midway(explicit, w, keys, l, Next(explicit, s, Create(w)))
  {
    hide AddPass, RemovePass, Reconcile, Unlisted, Adoptable, Claimed, Without;
    var cfg, todo := Config(w, true, explicit), s.watchers[w].phase.todo;
    AddPassStep(cfg, keys, |keys| - |todo|, l);
    AddPassStep(cfg, keys, |keys| - |todo|, RemovePass(cfg, keys, AddPass(cfg, keys, l)));
  }

  lemma DropKeepsMidway(explicit: set<string>, w: nat, keys: seq<Key>, l: Local, s: Sys, key: Key)
    requires Midway(explicit, w, keys, l, s) && Enabled(explicit, s, DropOne(w, key))
    ensures Midway(explicit, w, keys, l, Next(explicit, s, DropOne(w, key)))
  {
    var s', cfg, now := Next(explicit, s, DropOne(w, key)), Config(w, true, explicit), LocalOf(s, w);
    var added := AddPass(cfg, keys, l);
    var gone := added.managed.Keys - now.managed.Keys;
    DropIsWithout(explicit, s, w, key);
    WithoutOneMore(cfg, gone, key, added);
    WithoutOneMore(cfg, {}, key, now);
    WithoutNothing(cfg, now);
    assert {} + {key} == {key};
    assert key in added.managed && key in Unlisted(added.managed, keys);
    assert added.managed.Keys - LocalOf(s', w).managed.Keys == gone + {key};
    hide AddPass, Without, Reconcile, RemovePass, Unlisted;
  }

  /** Everything unlisted has gone: that was the remove pass. */
  lemma AllDropped(cfg: Config, keys: seq<Key>, added: Local, now: Local)
    requires var gone := added.managed.Keys - now.managed.Keys;
             gone <= Unlisted(added.managed, keys) && now == Without(cfg, gone, added)
    requires forall k | k in now.managed :: k in keys
    ensures now == RemovePass(cfg, keys, added)
    ensures Unlisted(added.managed, keys) == added.managed.Keys - now.managed.Keys
  {
    var gone := added.managed.Keys - now.managed.Keys;
    forall k | k in Unlisted(added.managed, keys) ensures k in gone {}
    assert gone == Unlisted(added.managed, keys);
  }

  lemma ReconcileIs(cfg: Config, keys: seq<Key>, l: Local)
    ensures var added := AddPass(cfg, keys, l);
      Reconcile(cfg, keys, l) ==
      if Unlisted(added.managed, keys) == {} then RemovePass(cfg, keys, added)
      else AddPass(cfg, keys, RemovePass(cfg, keys, added))
  {}

  lemma AddPassEndKeepsMidway(explicit: set<string>, w: nat, keys: seq<Key>, l: Local, s: Sys)
    requires Midway(explicit, w, keys, l, s) && Enabled(explicit, s, EndPass(w))
    ensures Midway(explicit, w, keys, l, Next(explicit, s, EndPass(w)))
  {
    hide AddPass, RemovePass, Unlisted, Without, Reconcile, Adoptable, Claimed;
    var cfg := Config(w, true, explicit);
    var added := AddPass(cfg, keys, l);
    ReconcileIs(cfg, keys, l);
    WithoutNothing(cfg, added);
    assert keys[..|keys|] == keys && added.managed.Keys - added.managed.Keys == {};
  }

  lemma DropPassEndKeepsMidway(explicit: set<string>, w: nat, keys: seq<Key>, l: Local, s: Sys)
    requires Midway(explicit, w, keys, l, s) && Enabled(explicit, s, EndDrop(w))
    ensures Midway(explicit, w, keys, l, Next(explicit, s, EndDrop(w)))
  {
    hide AddPass, RemovePass, Unlisted, Without, Reconcile, Adoptable, Claimed;
    var cfg, now := Config(w, true, explicit), LocalOf(s, w);
    ReconcileIs(cfg, keys, l);
    AllDropped(cfg, keys, AddPass(cfg, keys, l), now);
    NothingToAdd(cfg, now);
    assert keys[0..] == keys && keys[..0] == [];
  }

  lemma NothingToAdd(cfg: Config, l: Local)
    ensures AddPass(cfg, [], l) == l
  {}

  lemma StepKeepsMidway(explicit: set<string>, w: nat, keys: seq<Key>, l: Local, s: Sys, step: Step)
    requires Midway(explicit, w, keys, l, s) && Enabled(explicit, s, step) && Undisturbed(step, w)
    ensures Midway(explicit, w, keys, l, Next(explicit, s, step))
  {
    if ChannelStep(step) || step.w != w || step.ViewChange? || step.KickArrives? || step.KickTaken? {
      BystandersKeepMidway(explicit, w, keys, l, s, step);
    } else {
      hide AddPass, RemovePass, Reconcile, Unlisted, Without, Adoptable, Next;
      match step
      case Examine(_) => ExamineKeepsMidway(explicit, w, keys, l, s);
      case Create(_) => CreateKeepsMidway(explicit, w, keys, l, s);
      case DropOne(_, key) => DropKeepsMidway(explicit, w, keys, l, s, key);
      case EndPass(_) => AddPassEndKeepsMidway(explicit, w, keys, l, s);
      case EndDrop(_) => DropPassEndKeepsMidway(explicit, w, keys, l, s);
      case _ =>
    }
  }

  lemma {:induction false} RunIsMidway(explicit: set<string>, w: nat, keys: seq<Key>, l: Local, s: Sys, steps: seq<Step>)
    requires Midway(explicit, w, keys, l, s)
    requires forall step | step in steps :: Undisturbed(step, w)
    ensures var t := RunFrom(explicit, s, steps); t.Some? ==> Midway(explicit, w, keys, l, t.value)
  {
    if steps != [] {
      hide Midway, Enabled, Next, Undisturbed;
      var front, step := steps[..|steps| - 1], steps[|steps| - 1];
      RunIsMidway(explicit, w, keys, l, s, front);
      var t := RunFrom(explicit, s, front);
      if t.Some? && Enabled(explicit, t.value, step) {
        StepKeepsMidway(explicit, w, keys, l, t.value, step);
      }
    }
  }

  /**
   * A sync that no other watcher disturbs does one reconcile: however its steps, the drops
   * in any order, are interleaved with deliveries, kicks and changes of view, when the
   * watcher is idle again it manages, owns and has numbered what the reconcile of the keys
   * it started with says.
   */
  lemma UndisturbedSyncIsReconcile(explicit: set<string>, s: Sys, w: nat, keys: seq<Key>, steps: seq<Step>)
    requires Enabled(explicit, s, StartSync(w, keys))
    requires forall step | step in steps :: Undisturbed(step, w)
    ensures var t := RunFrom(explicit, Next(explicit, s, StartSync(w, keys)), steps);
      t.Some? && w in t.value.watchers && t.value.watchers[w].phase.Idle? ==>
        LocalOf(t.value, w) == Reconcile(Config(w, true, explicit), keys, LocalOf(s, w))
  {
    var s1 := Next(explicit, s, StartSync(w, keys));
    assert keys[..0] == [] && keys[0..] == keys;
    assert AddPass(Config(w, true, explicit), [], LocalOf(s, w)) == LocalOf(s1, w);
    RunIsMidway(explicit, w, keys, LocalOf(s, w), s1, steps);
    hide RunFrom, Reconcile, AddPass;
  }

  /** A sync never gets stuck: until it is idle again, the watcher has a step of its own to take. */
  lemma SyncNeverStalls(explicit: set<string>, s: Sys, w: nat)
    requires Recorded(s) && w in s.watchers
    requires s.watchers[w].phase.Adding? || s.watchers[w].phase.Dropping?
    ensures exists step :: Undisturbed(step, w) && !ChannelStep(step) && step.w == w && Enabled(explicit, s, step)
  {
    hide Recorded, Undisturbed, ChannelStep;
    OwnSteps(w);
    var x := s.watchers[w];
    if x.phase.Adding? {
      assert Enabled(explicit, s, if x.phase.todo == [] then EndPass(w) else if x.phase.claimed then Create(w) else Examine(w));
    } else if k :| k in x.managed && k !in x.phase.listed {
      ManagedHasRecord(s, w, k);
      OwnDrop(w, k);
      assert Enabled(explicit, s, DropOne(w, k));
    } else {
      assert Enabled(explicit, s, EndDrop(w));
    }
  }

  lemma OwnSteps(w: nat)
    ensures forall step | step in {Examine(w), Create(w), EndPass(w), EndDrop(w)} ::
              Undisturbed(step, w) && !ChannelStep(step)
  {}

  lemma OwnDrop(w: nat, k: Key)
    ensures Undisturbed(DropOne(w, k), w) && !ChannelStep(DropOne(w, k))
  {}

  lemma ManagedHasRecord(s: Sys, w: nat, k: Key)
    requires Recorded(s) && Manages(s, w, k)
    ensures GenOf(s, w, k) in s.incs
  {
    assert OnRecord(s, w, k);
  }

  // ---------------------------------------------------------------------------
  // Nothing unlisted stays managed
  // ---------------------------------------------------------------------------

  predicate Lists(keys: seq<Key>, view: set<Key>) {
    (forall k | k in keys :: k in view) && (forall k | k in view :: k in keys)
  }

  predicate ManagesOnly(managed: map<Key, nat>, keys: seq<Key>) {
    forall k | k in managed :: k in keys
  }

  /** With no newer view to look at, an idle watcher manages listed Services only. */
  predicate Tidy(x: Watcher) {
    match x.phase
    case Idle => x.syncs == 0 ==> x.managed.Keys <= x.view
    case Adding(listed, todo, _, second) =>
      && (forall k | k in todo :: k in listed) && (x.syncs == 0 ==> Lists(listed, x.view))
      && (second ==> ManagesOnly(x.managed, listed))
    case Dropping(listed, _) => x.syncs == 0 ==> Lists(listed, x.view)
    case Stopping => true
    case Stopped => x.managed == map[]
  }

  ghost predicate AllTidy(s: Sys) {
    forall w | w in s.watchers :: Tidy(s.watchers[w])
  }

  lemma DropsTouchOne(explicit: set<string>, s: Sys, step: Step, u: nat)
    requires Enabled(explicit, s, step) && DropStep(step) && u != step.w
    ensures var s' := Next(explicit, s, step);
            step.w in s'.watchers && (u in s'.watchers ==> u in s.watchers && s'.watchers[u] == s.watchers[u])
  {
    hide Claimed, Released, Held, Subscribers;
  }

  lemma OthersStayTidy(explicit: set<string>, s: Sys, step: Step, u: nat)
    requires AllTidy(s) && Enabled(explicit, s, step) && !ChannelStep(step) && u != step.w
    requires u in Next(explicit, s, step).watchers
    ensures Tidy(Next(explicit, s, step).watchers[u])
  {
    hide Tidy, Enabled, Next;
    if DropStep(step) {
      DropsTouchOne(explicit, s, step, u);
    } else {
      BystanderIsUntouched(explicit, s, step, u);
    }
  }

  lemma AddingStepKeepsTidy(explicit: set<string>, s: Sys, step: Step)
    requires Enabled(explicit, s, step) && (step.Examine? || step.Create?)
    requires step.w in s.watchers ==> Tidy(s.watchers[step.w])
    ensures step.w in Next(explicit, s, step).watchers && Tidy(Next(explicit, s, step).watchers[step.w])
  {
    hide Skips, Claimed;
  }

  lemma OwnStepKeepsTidy(explicit: set<string>, s: Sys, step: Step)
    requires Enabled(explicit, s, step) && !ChannelStep(step) && !step.Examine? && !step.Create?
    requires step.w in s.watchers ==> Tidy(s.watchers[step.w])
    ensures step.w in Next(explicit, s, step).watchers && Tidy(Next(explicit, s, step).watchers[step.w])
  {
    hide Skips, Ascending, Claimed, Released, Held, Subscribers;
  }

  lemma StepKeepsTidy(explicit: set<string>, s: Sys, step: Step)
    requires AllTidy(s) && Enabled(explicit, s, step)
    ensures AllTidy(Next(explicit, s, step))
  {
    hide Tidy, Enabled, Next;
    if ChannelStep(step) {
      ChannelsKeepWatchers(explicit, s, step);
    } else {
      forall u | u in Next(explicit, s, step).watchers ensures Tidy(Next(explicit, s, step).watchers[u]) {
        if u != step.w {
          OthersStayTidy(explicit, s, step, u);
        } else if step.Examine? || step.Create? {
          AddingStepKeepsTidy(explicit, s, step);
        } else {
          OwnStepKeepsTidy(explicit, s, step);
        }
      }
    }
  }

  lemma {:induction false} EveryRunIsTidy(explicit: set<string>, steps: seq<Step>)
    ensures var s := After(explicit, steps); s.Some? ==> AllTidy(s.value)
  {
    if steps != [] {
      hide Enabled, Next, AllTidy;
      var front, step := steps[..|steps| - 1], steps[|steps| - 1];
      EveryRunIsTidy(explicit, front);
      var s := After(explicit, front);
      if s.Some? && Enabled(explicit, s.value, step) {
        StepKeepsTidy(explicit, s.value, step);
      }
    }
  }

  // ---------------------------------------------------------------------------
  // A system at rest serves what is listed
  // ---------------------------------------------------------------------------

  /** Some running watcher lists a Service of this name, and it is not explicit. */
  predicate Wanted(explicit: set<string>, s: Sys, name: string) {
    && name !in explicit
    && exists w, k :: w in s.watchers && Running(s.watchers[w]) && k in s.watchers[w].view && k.name == name
  }

  /** The incarnation in charge of the name: managed by a running watcher that lists it. */
  predicate InCharge(s: Sys, name: string, w: nat, k: Key) {
    Manages(s, w, k) && k.name == name && Running(s.watchers[w]) && k in s.watchers[w].view
  }

  function LastSent(inc: Incarnation): Option<BackendState> {
    if inc.sent == [] then None else Some(inc.sent[|inc.sent| - 1])
  }

  /** Nothing is due, running or owed, and no watcher is shutting down. */
  ghost predicate Resting(s: Sys) {
    AtRest(s) && forall u | u in s.watchers :: !s.watchers[u].phase.Stopping?
  }

  lemma ManagedIsInCharge(explicit: set<string>, s: Sys, w: nat, k: Key)
    requires AllTidy(s) && Resting(s) && ClaimsMatch(explicit, s) && Manages(s, w, k)
    ensures InCharge(s, k.name, w, k) && Wanted(explicit, s, k.name)
  {
    assert Tidy(s.watchers[w]);
  }

  /** Among finitely many generations there is a newest. */
  lemma {:induction false} NewestUpTo(s: Sys, name: string, n: nat) returns (g: nat)
    requires exists h: nat :: Of(s, name, h) && h <= n
    ensures Of(s, name, g) && g <= n && forall h: nat | Of(s, name, h) && h <= n :: h <= g
  {
    if Of(s, name, n) {
      g := n;
    } else {
      g := NewestUpTo(s, name, n - 1);
    }
  }

  lemma UnmanagedIsNotHeld(s: Sys, name: string)
    requires Recorded(s) && Converged(s, name)
    requires forall w, k | Manages(s, w, k) :: k.name != name
    ensures CellOf(s, name).state == None
  {
    forall g | Current(s, g) ensures NameOf(s, g) != name {
      assert AtHome(s, g);
    }
    if exists g: nat :: Of(s, name, g) {
      var h: nat :| Of(s, name, h);
      var g := NewestUpTo(s, name, s.genSeq);
      assert Newest(s, name, g);
    }
  }

  /**
   * End to end: at rest, with a name's channels drained, the event loop holds the name if
   * and only if some running watcher lists a Service of that name that is not explicit and
   * the incarnation in charge of it has reported; and then it holds its last report.
   */
  lemma RestingSystemServesWhatIsListed(explicit: set<string>, steps: seq<Step>, name: string)
    ensures var r := After(explicit, steps);
      r.Some? && Resting(r.value) && Drained(r.value, name) ==>
        && (Wanted(explicit, r.value, name) <==> exists w, k :: InCharge(r.value, name, w, k))
        && ServesWhatIsListed(explicit, r.value, name)
  {
    hide *;
    var r := After(explicit, steps);
    if r.Some? && Resting(r.value) && Drained(r.value, name) {
      EveryRunKeepsInvariant(explicit, steps);
      EveryRunIsTidy(explicit, steps);
      DrainedNamesConverge(explicit, steps, name);
      OwnedIffWanted(explicit, r.value, name);
      InvariantServes(explicit, r.value, name);
    }
  }

  /** An unwanted name is not held; a wanted one as its incarnation in charge last reported. */
  ghost predicate ServesWhatIsListed(explicit: set<string>, s: Sys, name: string) {
    && (!Wanted(explicit, s, name) ==> CellOf(s, name).state == None)
    && (forall w, k | InCharge(s, name, w, k) ::
          GenOf(s, w, k) in s.incs && CellOf(s, name).state == LastSent(s.incs[GenOf(s, w, k)]))
  }

  lemma OwnedIffWanted(explicit: set<string>, s: Sys, name: string)
    requires Invariant(explicit, s) && AllTidy(s) && Resting(s)
    ensures Wanted(explicit, s, name) <==> exists w, k :: InCharge(s, name, w, k)
  {
    hide Recorded, ManagedIsNewest, CellsMatch, InCharge, Tidy;
    if Wanted(explicit, s, name) {
      var w, k :| w in s.watchers && Running(s.watchers[w]) && k in s.watchers[w].view && k.name == name;
      assert Awake(explicit, s, w);
      var t := s.owners[name];
      assert !Claiming(s, t.watcher, t.key);
      ManagedIsInCharge(explicit, s, t.watcher, t.key);
    }
    if w, k :| InCharge(s, name, w, k) {
      ChargeIsManaged(s, name, w, k);
      ManagedIsInCharge(explicit, s, w, k);
    }
  }

  lemma ChargeIsManaged(s: Sys, name: string, w: nat, k: Key)
    requires InCharge(s, name, w, k)
    ensures Manages(s, w, k) && k.name == name
  {}

  lemma InvariantServes(explicit: set<string>, s: Sys, name: string)
    requires Invariant(explicit, s) && AllTidy(s) && Resting(s) && Converged(s, name)
    ensures ServesWhatIsListed(explicit, s, name)
  {
    hide CellsMatch, AllAwake, Converged, Recorded, ManagedIsNewest, Wanted, AllTidy, Resting, ClaimsMatch;
    if !Wanted(explicit, s, name) {
      forall w, k | Manages(s, w, k) ensures k.name != name {
        ManagedIsInCharge(explicit, s, w, k);
      }
      UnmanagedIsNotHeld(s, name);
    }
    forall w, k | InCharge(s, name, w, k)
      ensures GenOf(s, w, k) in s.incs && CellOf(s, name).state == LastSent(s.incs[GenOf(s, w, k)])
    {
      InChargeIsNewest(s, name, w, k);
    }
  }

  lemma InChargeIsNewest(s: Sys, name: string, w: nat, k: Key)
    requires Recorded(s) && ManagedIsNewest(s) && Converged(s, name) && InCharge(s, name, w, k)
    ensures GenOf(s, w, k) in s.incs && CellOf(s, name).state == LastSent(s.incs[GenOf(s, w, k)])
  {
    assert OnRecord(s, w, k);
    assert Newest(s, name, GenOf(s, w, k));
  }

  // ---------------------------------------------------------------------------
  // What the record of an incarnation means for a run
  // ---------------------------------------------------------------------------

  /** The states handed to incarnation `g`'s forwarder during a run, in order. */
  function Forwarded(steps: seq<Step>, g: nat): seq<BackendState> {
    if steps == [] then []
    else
      var step := steps[|steps| - 1];
      Forwarded(steps[..|steps| - 1], g) + if step.Forward? && step.g == g then [step.state] else []
  }

  /** How many of them were delivered to the event loop. */
  function DeliveredAdds(steps: seq<Step>, g: nat): nat {
    if steps == [] then 0
    else DeliveredAdds(steps[..|steps| - 1], g) + if steps[|steps| - 1] == DeliverAdd(g) then 1 else 0
  }

  /** Only a shutdown drops an incarnation without announcing it. */
  predicate SilentOnlyIfStopping(s: Sys, g: nat)
    requires g in s.incs
  {
    s.incs[g].removal.Never? ==> ShuttingDown(s, s.incs[g].home.watcher)
  }

  ghost predicate OnHistory(s: Sys, steps: seq<Step>) {
    && (forall g: nat | g in s.incs ::
          && s.incs[g].sent == Forwarded(steps, g) && s.incs[g].arrived == DeliveredAdds(steps, g)
          && SilentOnlyIfStopping(s, g))
    && (forall g: nat | g !in s.incs :: Forwarded(steps, g) == [] && DeliveredAdds(steps, g) == 0)
  }

  lemma HistorySnoc(steps: seq<Step>, step: Step, g: nat)
    ensures Forwarded(steps + [step], g) ==
            Forwarded(steps, g) + if step.Forward? && step.g == g then [step.state] else []
    ensures DeliveredAdds(steps + [step], g) == DeliveredAdds(steps, g) + if step == DeliverAdd(g) then 1 else 0
  {
    assert (steps + [step])[..|steps|] == steps;
  }

  /** What a step does to the record of one incarnation. */
  ghost predicate RecordMoves(s: Sys, step: Step, s': Sys, g: nat) {
    if g in s.incs then
      && g in s'.incs && s'.incs[g].home == s.incs[g].home
      && s'.incs[g].sent == s.incs[g].sent + (if step.Forward? && step.g == g then [step.state] else [])
      && s'.incs[g].arrived == s.incs[g].arrived + (if step == DeliverAdd(g) then 1 else 0)
      && (s'.incs[g].removal.Never? ==>
            s.incs[g].removal.Never? || (step.StopOne? && s.incs[g].home.watcher == step.w))
    else
      && !(step.Forward? && step.g == g) && step != DeliverAdd(g)
      && (g in s'.incs ==> s'.incs[g].sent == [] && s'.incs[g].arrived == 0 && s'.incs[g].removal.NotSent?)
  }

  lemma DropMovesRecord(explicit: set<string>, s: Sys, step: Step, g: nat)
    requires Recorded(s) && Enabled(explicit, s, step) && DropStep(step)
    ensures RecordMoves(s, step, Next(explicit, s, step), g)
  {
    hide AtHome, Claimed, Released, Held, Subscribers;
    assert Manages(s, step.w, step.key) && OnRecord(s, step.w, step.key);
  }

  lemma OtherStepMovesRecord(explicit: set<string>, s: Sys, step: Step, g: nat)
    requires Enabled(explicit, s, step) && !DropStep(step) && forall h | h in s.incs :: h <= s.genSeq
    ensures RecordMoves(s, step, Next(explicit, s, step), g)
  {
    hide Skips, Ascending, Quiet, Deliver, Claimed;
  }

  lemma GenerationsAreDrawn(s: Sys)
    requires Recorded(s)
    ensures forall h | h in s.incs :: h <= s.genSeq
  {}

  lemma RecordStepIs(explicit: set<string>, s: Sys, step: Step, g: nat)
    requires Recorded(s) && Enabled(explicit, s, step)
    ensures RecordMoves(s, step, Next(explicit, s, step), g)
  {
    GenerationsAreDrawn(s);
    hide Recorded, Enabled, Next, RecordMoves;
    if DropStep(step) {
      DropMovesRecord(explicit, s, step, g);
    } else {
      OtherStepMovesRecord(explicit, s, step, g);
    }
  }

  predicate ShuttingDown(s: Sys, w: nat) {
    w in s.watchers && (s.watchers[w].phase.Stopping? || s.watchers[w].phase.Stopped?)
  }

  /** Shutting down is for good. */
  lemma DropsKeepShutdown(explicit: set<string>, s: Sys, step: Step, w: nat)
    requires Enabled(explicit, s, step) && DropStep(step)
    requires ShuttingDown(s, w) || (step.StopOne? && step.w == w)
    ensures ShuttingDown(Next(explicit, s, step), w)
  {
    hide Released, Held, Subscribers;
  }

  lemma ShutdownStays(explicit: set<string>, s: Sys, step: Step, w: nat)
    requires Enabled(explicit, s, step) && (ShuttingDown(s, w) || (step.StopOne? && step.w == w))
    ensures ShuttingDown(Next(explicit, s, step), w)
  {
    hide Skips, Ascending, Quiet, Deliver, Claimed, Drop;
    if DropStep(step) {
      DropsKeepShutdown(explicit, s, step, w);
    } else if ChannelStep(step) {
      ChannelsKeepWatchers(explicit, s, step);
    }
  }

  lemma SilentStays(explicit: set<string>, s: Sys, step: Step, g: nat)
    requires Recorded(s) && Enabled(explicit, s, step) && g in s.incs && SilentOnlyIfStopping(s, g)
    ensures g in Next(explicit, s, step).incs && SilentOnlyIfStopping(Next(explicit, s, step), g)
  {
    hide Recorded, Enabled, Next, ShuttingDown;
    RecordStepIs(explicit, s, step, g);
    var w := s.incs[g].home.watcher;
    if ShuttingDown(s, w) || (step.StopOne? && step.w == w) {
      ShutdownStays(explicit, s, step, w);
    }
  }

  lemma StepKeepsHistory(explicit: set<string>, s: Sys, steps: seq<Step>, step: Step)
    requires Recorded(s) && OnHistory(s, steps) && Enabled(explicit, s, step)
    ensures OnHistory(Next(explicit, s, step), steps + [step])
  {
    hide Recorded, Enabled, Next, Forwarded, DeliveredAdds, SilentOnlyIfStopping;
    var s' := Next(explicit, s, step);
    forall g: nat
      ensures g in s'.incs ==>
        && s'.incs[g].sent == Forwarded(steps + [step], g) && s'.incs[g].arrived == DeliveredAdds(steps + [step], g)
        && SilentOnlyIfStopping(s', g)
      ensures g !in s'.incs ==> Forwarded(steps + [step], g) == [] && DeliveredAdds(steps + [step], g) == 0
    {
      HistorySnoc(steps, step, g);
      RecordStepIs(explicit, s, step, g);
      if g in s.incs {
        SilentStays(explicit, s, step, g);
      } else if g in s'.incs {
        NewIsNotSilent(s', g);
      }
    }
  }

  lemma NewIsNotSilent(s: Sys, g: nat)
    requires g in s.incs && s.incs[g].removal.NotSent?
    ensures SilentOnlyIfStopping(s, g)
  {}

  /**
   * In every reachable state the record says what happened: an incarnation has sent exactly
   * the states handed to its forwarder, in order, and as many have arrived as were delivered;
   * and every incarnation dropped without an announcement belongs to a watcher that is
   * shutting down.
   */
  lemma {:induction false} RecordIsHistory(explicit: set<string>, steps: seq<Step>)
    ensures var s := After(explicit, steps); s.Some? ==> OnHistory(s.value, steps)
  {
    if steps != [] {
      hide Enabled, Next, OnHistory, Recorded;
      var front, step := steps[..|steps| - 1], steps[|steps| - 1];
      RecordIsHistory(explicit, front);
      EveryRunKeepsInvariant(explicit, front);
      var s := After(explicit, front);
      if s.Some? && Enabled(explicit, s.value, step) {
        StepKeepsHistory(explicit, s.value, front, step);
        assert front + [step] == steps;
      }
    }
  }
}
