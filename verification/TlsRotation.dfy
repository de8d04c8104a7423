/** Certificate rotation over the varnishadm staging interface: which certificate each name
    uses, which superseded ones still have to be discarded, and what varnishd holds. */
module TlsRotation {
  import opened Basics

  type Id = nat

  const MAX_PENDING_DISCARDS := 8

  datatype Pending = Pending(name: string, id: Id)

  /** What became of a command: done and reported so; refused without effect; or carried
      out although an error came back (a timeout, say). */
  datatype Fate = Done | Refused | Unreported

  /** varnishd's certificates. Ids are never reused. A discard takes effect with the next commit. */
  datatype Daemon = Daemon(active: set<Id>, staged: set<Id>, doomed: set<Id>, next: Id)
  {
    function Load(fate: Fate): Daemon {
      if fate.Refused? then this else this.(staged := staged + {next}, next := next + 1)
    }

    function Commit(fate: Fate): Daemon {
      if fate.Refused? then this else Daemon((active - doomed) + staged, {}, {}, next)
    }

    function Rollback(fate: Fate): Daemon {
      if fate.Refused? then this else this.(staged := {})
    }

    /** Discarding an id that is not active is an error ("ID not found"). */
    function Discard(id: Id, fate: Fate): Daemon {
      if id in active && !fate.Refused? then this.(doomed := doomed + {id}) else this
    }

    predicate DiscardReportedDone(id: Id, fate: Fate) {
      id in active && fate.Done?
    }
  }

  datatype Tls = Tls(recorded: map<string, Id>, queue: seq<Pending>, daemon: Daemon)

  /** Everything outside the manager's control during one call. `usable` is false when the
      call ends before any command: unsupported, empty or invalid material, file errors. */
  datatype Env = Env(
    usable: bool, load: Fate, commit: Fate, rollback: Fate,
    beforeOk: bool, afterOk: bool, pick: Id, discard: Id -> Fate)

  // ---------------------------------------------------------------------------
  // Specification
  // ---------------------------------------------------------------------------

  function Ids(q: seq<Pending>): set<Id> {
    set p | p in q :: p.id
  }

  function Enqueue(q: seq<Pending>, p: Pending): seq<Pending> {
    if p.id in Ids(q) then q
    else if |q| >= MAX_PENDING_DISCARDS then q[1..] + [p]
    else q + [p]
  }

  /** Ids a full queue pushes out. */
  function PushedOut(q: seq<Pending>, p: Pending): set<Id> {
    if p.id in Ids(q) || |q| < MAX_PENDING_DISCARDS then {} else {q[0].id}
  }

  datatype Discards = Discards(kept: seq<Pending>, daemon: Daemon, counted: nat)

  /** Tries every queued id in turn. */
  function DiscardAll(q: seq<Pending>, d: Daemon, afterOk: bool, fate: Id -> Fate): Discards {
    if q == [] then Discards([], d, 0)
    else
      var p := q[0];
      if afterOk && p.id !in d.active then DiscardAll(q[1..], d, afterOk, fate)
      else
        var r := DiscardAll(q[1..], d.Discard(p.id, fate(p.id)), afterOk, fate);
        if d.DiscardReportedDone(p.id, fate(p.id)) then r.(counted := r.counted + if afterOk then 1 else 0)
        else r.(kept := [p] + r.kept)
  }

  /** The daemon once the new certificate is staged, and once it is committed. */
  function Staged(s: Tls, e: Env): Daemon {
    s.daemon.Load(e.load)
  }

  function Committed(s: Tls, e: Env): Daemon {
    Staged(s, e).Commit(e.commit)
  }

  predicate Commits(e: Env) {
    e.usable && e.load.Done? && e.commit.Done?
  }

  /** Ids listed after the commit but not before it. */
  function Appeared(s: Tls, e: Env): set<Id> {
    Committed(s, e).active - s.daemon.active
  }

  predicate PickIsNew(s: Tls, e: Env) {
    Appeared(s, e) != {} ==> e.pick in Appeared(s, e)
  }

  /** The id taken for the new certificate: some id that appeared, if both listings worked. */
  function Identified(s: Tls, e: Env): Option<Id> {
    if e.beforeOk && e.afterOk && Appeared(s, e) != {} then Some(e.pick) else None
  }

  /** The superseded certificate a call has to discard. */
  function Superseded(s: Tls, name: string, e: Env): Option<Pending> {
    if Identified(s, e).Some? && name in s.recorded && s.recorded[name] != e.pick then
      Some(Pending(name, s.recorded[name]))
    else None
  }

  function QueueAfter(s: Tls, name: string, e: Env): seq<Pending> {
    var p := Superseded(s, name, e);
    if p.Some? then Enqueue(s.queue, p.value) else s.queue
  }

  function RecordedAfter(s: Tls, name: string, e: Env): map<string, Id> {
    if Identified(s, e).Some? then s.recorded[name := e.pick] else s.recorded
  }

  function LoadCertStep(s: Tls, name: string, e: Env): Tls {
    if !e.usable then s
    else if !e.load.Done? then s.(daemon := Staged(s, e).Rollback(e.rollback))
    else if !e.commit.Done? then s.(daemon := Committed(s, e).Rollback(e.rollback))
    else
      var r := DiscardAll(QueueAfter(s, name, e), Committed(s, e), e.afterOk, e.discard);
      Tls(RecordedAfter(s, name, e), r.kept, r.daemon)
  }

  // ---------------------------------------------------------------------------
  // The queue
  // ---------------------------------------------------------------------------

  predicate DistinctIds(q: seq<Pending>) {
    forall i, j | 0 <= i < j < |q| :: q[i].id != q[j].id
  }

  /** Which queued ids stay queued. */
  predicate Stays(active: set<Id>, id: Id, afterOk: bool, fate: Id -> Fate) {
    if id in active then !fate(id).Done? else !afterOk
  }

  lemma IdsSplit(q: seq<Pending>)
    requires q != []
    ensures Ids(q) == {q[0].id} + Ids(q[1..])
    ensures DistinctIds(q) ==> DistinctIds(q[1..]) && q[0].id !in Ids(q[1..])
  {
    forall x | x in q ensures x == q[0] || x in q[1..] {}
    forall x | x in q[1..] ensures x in q {}
    if DistinctIds(q) {
      forall x | x in q[1..] ensures x.id != q[0].id {
        var i :| 0 <= i < |q| - 1 && q[1..][i] == x;
        var j := i + 1;
        assert q[j] == x;
      }
    }
  }

  lemma IdsSnoc(q: seq<Pending>, p: Pending)
    ensures Ids(q + [p]) == Ids(q) + {p.id}
    ensures DistinctIds(q) && p.id !in Ids(q) ==> DistinctIds(q + [p])
  {
    var r := q + [p];
    assert r[|q|] == p;
    forall x | x in q ensures x in r && x.id in Ids(q) {}
    forall x | x in r ensures x in q || x == p {}
  }

  lemma EnqueueKeepsDistinct(q: seq<Pending>, p: Pending)
    requires DistinctIds(q) && |q| <= MAX_PENDING_DISCARDS
    ensures DistinctIds(Enqueue(q, p)) && |Enqueue(q, p)| <= MAX_PENDING_DISCARDS
    ensures Ids(Enqueue(q, p)) == Ids(q) - PushedOut(q, p) + {p.id}
  {
    IdsSnoc(q, p);
    if |q| >= MAX_PENDING_DISCARDS {
      IdsSplit(q);
      IdsSnoc(q[1..], p);
    }
    hide Ids, DistinctIds;
  }

  lemma IdsCons(p: Pending, q: seq<Pending>)
    ensures Ids([p] + q) == {p.id} + Ids(q)
    ensures DistinctIds(q) && p.id !in Ids(q) ==> DistinctIds([p] + q)
  {
    assert ([p] + q)[1..] == q;
    IdsSplit([p] + q);
    forall x | x in q ensures x.id in Ids(q) {}
  }

  function Kept(ids: set<Id>, active: set<Id>, afterOk: bool, fate: Id -> Fate): set<Id> {
    set id | id in ids && Stays(active, id, afterOk, fate)
  }

  /** Discards that took effect, and discards that were also reported so. */
  function Hit(ids: set<Id>, active: set<Id>, fate: Id -> Fate): set<Id> {
    set id | id in ids && id in active && !fate(id).Refused?
  }

  function Accepted(ids: set<Id>, active: set<Id>, fate: Id -> Fate): set<Id> {
    set id | id in ids && id in active && fate(id).Done?
  }

  lemma KeptSplits(id: Id, rest: set<Id>, active: set<Id>, afterOk: bool, fate: Id -> Fate)
    ensures Kept({id} + rest, active, afterOk, fate)
            == (if Stays(active, id, afterOk, fate) then {id} else {}) + Kept(rest, active, afterOk, fate)
  {
    hide Stays;
  }

  lemma HitSplits(id: Id, rest: set<Id>, active: set<Id>, fate: Id -> Fate)
    ensures Hit({id} + rest, active, fate)
            == (if id in active && !fate(id).Refused? then {id} else {}) + Hit(rest, active, fate)
  {}

  lemma AcceptedSplits(id: Id, rest: set<Id>, active: set<Id>, fate: Id -> Fate)
    requires id !in rest
    ensures |Accepted({id} + rest, active, fate)|
            == (if id in active && fate(id).Done? then 1 else 0) + |Accepted(rest, active, fate)|
  {
    var a := Accepted(rest, active, fate);
    var one := if id in active && fate(id).Done? then {id} else {};
    assert Accepted({id} + rest, active, fate) == a + one;
    assert a !! one;
    hide Accepted;
  }

  /**
   * Discarding the queue: exactly the ids whose discard was not accepted (or, with no
   * listing to go by, those varnishd does not know) stay queued; exactly the active queued
   * ids whose discard was not refused are doomed; and the accepted ones are counted.
   */
  lemma {:induction false} DiscardAllIs(q: seq<Pending>, d: Daemon, afterOk: bool, fate: Id -> Fate)
    requires DistinctIds(q)
    ensures var r := DiscardAll(q, d, afterOk, fate);
      && DistinctIds(r.kept) && |r.kept| <= |q|
      && Ids(r.kept) == Kept(Ids(q), d.active, afterOk, fate)
      && r.daemon == d.(doomed := d.doomed + Hit(Ids(q), d.active, fate))
      && r.counted == (if afterOk then |Accepted(Ids(q), d.active, fate)| else 0)
  {
    if q != [] {
      IdsSplit(q);
      var id := q[0].id;
      var d' := if afterOk && id !in d.active then d else d.Discard(id, fate(id));
      DiscardAllIs(q[1..], d', afterOk, fate);
      KeptSplits(id, Ids(q[1..]), d.active, afterOk, fate);
      HitSplits(id, Ids(q[1..]), d.active, fate);
      AcceptedSplits(id, Ids(q[1..]), d.active, fate);
      IdsCons(q[0], DiscardAll(q[1..], d', afterOk, fate).kept);
      KeptIsSmaller(Ids(q[1..]), d.active, afterOk, fate);
      hide Ids, Kept, Hit, Accepted, DistinctIds;
    } else {
      assert Hit({}, d.active, fate) == {} && Ids(q) == {};
    }
  }

  lemma KeptIsSmaller(ids: set<Id>, active: set<Id>, afterOk: bool, fate: Id -> Fate)
    ensures Kept(ids, active, afterOk, fate) <= ids
  {}

  // ---------------------------------------------------------------------------
  // Safety
  // ---------------------------------------------------------------------------

  /** No two names share a certificate; every recorded one is active and not discarded; the
      queue is bounded, without duplicates, and never names a recorded certificate. */
  ghost predicate Safe(s: Tls) {
    && (forall id | id in s.daemon.active :: id < s.daemon.next)
    && (forall id | id in s.daemon.staged :: id < s.daemon.next)
    && (forall id | id in Ids(s.queue) :: id < s.daemon.next)
    && s.daemon.active !! s.daemon.staged
    && Ids(s.queue) !! s.daemon.staged
    && (forall m, n | m in s.recorded && n in s.recorded && s.recorded[m] == s.recorded[n] :: m == n)
    && (forall n | n in s.recorded ::
          s.recorded[n] in s.daemon.active && s.recorded[n] !in s.daemon.doomed && s.recorded[n] !in Ids(s.queue))
    && DistinctIds(s.queue) && |s.queue| <= MAX_PENDING_DISCARDS
  }

  /** Exactly what was staged appears, and nothing that was recorded or queued. */
  lemma AppearedIsStaged(s: Tls, e: Env)
    requires Safe(s) && e.load.Done? && e.commit.Done?
    ensures Appeared(s, e) == s.daemon.staged + {s.daemon.next}
    ensures Appeared(s, e) !! Ids(s.queue) && Appeared(s, e) !! s.daemon.active
  {
    assert s.daemon.next !in s.daemon.active && s.daemon.next !in Ids(s.queue);
  }

  lemma QueueAfterIs(s: Tls, name: string, e: Env)
    requires Safe(s) && Commits(e) && PickIsNew(s, e)
    ensures var q := QueueAfter(s, name, e);
      && DistinctIds(q) && |q| <= MAX_PENDING_DISCARDS
      && (forall id | id in Ids(q) :: id in Ids(s.queue) || (name in s.recorded && id == s.recorded[name]))
      && (forall n | n in RecordedAfter(s, name, e) :: RecordedAfter(s, name, e)[n] !in Ids(q))
  {
    AppearedIsStaged(s, e);
    var p := Superseded(s, name, e);
    if p.Some? {
      EnqueueKeepsDistinct(s.queue, p.value);
    }
  }

  lemma FailedCallIsSafe(s: Tls, name: string, e: Env)
    requires Safe(s) && !Commits(e)
    ensures Safe(LoadCertStep(s, name, e))
  {
    hide Ids, DiscardAll, DistinctIds;
    assert s.daemon.next !in Ids(s.queue) && s.daemon.next !in s.daemon.active;
  }

  lemma CommitIsSafe(s: Tls, name: string, e: Env)
    requires Safe(s) && PickIsNew(s, e) && Commits(e)
    ensures Safe(LoadCertStep(s, name, e))
  {
    var q, d := QueueAfter(s, name, e), Committed(s, e);
    AppearedIsStaged(s, e);
    QueueAfterIs(s, name, e);
    DiscardAllIs(q, d, e.afterOk, e.discard);
    KeptIsSmaller(Ids(q), d.active, e.afterOk, e.discard);
    RecordedAfterIs(s, name, e);
    hide Ids, DiscardAll, QueueAfter, DistinctIds, RecordedAfter, Kept, Appeared, Identified;
  }

  /** After a commit the recorded certificates are still distinct and active. */
  lemma RecordedAfterIs(s: Tls, name: string, e: Env)
    requires Safe(s) && PickIsNew(s, e) && Commits(e)
    ensures var m, d := RecordedAfter(s, name, e), Committed(s, e);
      && (forall n | n in m :: m[n] in d.active)
      && (forall n, k | n in m && k in m && m[n] == m[k] :: n == k)
      && d.doomed == {} && d.staged == {} && (forall id | id in d.active :: id < d.next)
      && (forall id | id in Ids(QueueAfter(s, name, e)) :: id < d.next)
  {
    AppearedIsStaged(s, e);
    QueueAfterIs(s, name, e);
    hide Ids, QueueAfter, DistinctIds;
  }

  /** A call keeps the certificates safe, whatever commands fail and however they fail. */
  lemma StepIsSafe(s: Tls, name: string, e: Env)
    requires Safe(s) && PickIsNew(s, e)
    ensures Safe(LoadCertStep(s, name, e))
  {
    hide Safe, LoadCertStep, PickIsNew;
    if Commits(e) {
      CommitIsSafe(s, name, e);
    } else {
      FailedCallIsSafe(s, name, e);
    }
  }

  ghost predicate Follows(run: seq<Tls>, calls: seq<(string, Env)>) {
    && |run| == |calls| + 1
    && forall i | 0 <= i < |calls| ::
         PickIsNew(run[i], calls[i].1) && run[i + 1] == LoadCertStep(run[i], calls[i].0, calls[i].1)
  }

  /** Safe over any sequence of calls, from the empty manager. */
  lemma {:induction false} EveryRunIsSafe(run: seq<Tls>, calls: seq<(string, Env)>, i: nat)
    requires Follows(run, calls) && i < |run| && Safe(run[0])
    ensures Safe(run[i])
  {
    hide Safe, LoadCertStep, PickIsNew;
    if i > 0 {
      EveryRunIsSafe(run, calls, i - 1);
      var k := i - 1;
      StepIsSafe(run[k], calls[k].0, calls[k].1);
      assert run[k + 1] == LoadCertStep(run[k], calls[k].0, calls[k].1);
    }
  }

  /** A certificate in use is never discarded: every discard sent during a call names an id
      recorded for no name, before it and after it. */
  lemma DiscardsSpareRecorded(s: Tls, name: string, e: Env, id: Id)
    requires Safe(s) && PickIsNew(s, e) && Commits(e)
    requires id in Ids(QueueAfter(s, name, e))
    ensures id !in LoadCertStep(s, name, e).recorded.Values
    ensures forall n | n in s.recorded && n != name :: s.recorded[n] != id
  {
    QueueAfterIs(s, name, e);
    hide Ids, QueueAfter, DiscardAll;
  }

  /** What a call does for its name: a call that does not commit, or cannot compare the two
      listings, leaves every name its certificate. One that can records for this name, and
      for no other, a certificate that was not there before: the one just loaded, if nothing
      else was staged. The one it replaces is discarded unless varnishd refuses, and queued
      to try again unless varnishd confirms. */
  lemma RotationReplaces(s: Tls, name: string, e: Env)
    requires Safe(s) && PickIsNew(s, e)
    ensures var t := LoadCertStep(s, name, e);
      && (!Commits(e) ==> t.recorded == s.recorded && t.queue == s.queue)
      && (!(e.beforeOk && e.afterOk) ==> t.recorded == s.recorded)
      && (Commits(e) && e.beforeOk && e.afterOk ==>
            && name in t.recorded && t.recorded == s.recorded[name := t.recorded[name]]
            && t.recorded[name] in t.daemon.active - s.daemon.active
            && (s.daemon.staged == {} ==> t.recorded[name] == s.daemon.next)
            && (name in s.recorded ==>
                  var prior := s.recorded[name];
                  && (prior in t.daemon.doomed <==> !e.discard(prior).Refused?)
                  && (prior in Ids(t.queue) <==> !e.discard(prior).Done?)))
  {
    if Commits(e) {
      CommittedIs(s, e);
      AppearedIsStaged(s, e);
      QueueAfterIs(s, name, e);
      QueueIdsAfter(s, name, e);
      DiscardAllIs(QueueAfter(s, name, e), Committed(s, e), e.afterOk, e.discard);
      hide Ids, DiscardAll, QueueAfter, DistinctIds, Committed, PushedOut;
    }
  }

  // ---------------------------------------------------------------------------
  // Leaks
  // ---------------------------------------------------------------------------

  /** Active certificates that nothing will ever discard. */
  function Leaked(s: Tls): set<Id> {
    s.daemon.active - s.daemon.doomed - s.recorded.Values - Ids(s.queue)
  }

  /** What one call leaks: certificates a failed commit installed after all, appeared ids
      other than the recorded one, and active ids pushed out of a full queue. */
  function Leaks(s: Tls, name: string, e: Env): set<Id> {
    if !e.usable || !e.load.Done? || e.commit.Refused? then {}
    else if e.commit.Unreported? then Appeared(s, e)
    else
      var i := Identified(s, e);
      var p := Superseded(s, name, e);
      (if i.Some? then Appeared(s, e) - {i.value} else Appeared(s, e))
      + (if p.Some? then PushedOut(s.queue, p.value) * Committed(s, e).active else {})
  }

  /** Exactly what a call leaks. */
  lemma LeakedExactly(s: Tls, name: string, e: Env)
    requires Safe(s) && PickIsNew(s, e)
    ensures Leaked(LoadCertStep(s, name, e)) == Leaked(s) + Leaks(s, name, e)
  {
    if Commits(e) {
      CommitLeaks(s, name, e);
    } else if e.usable && e.load.Done? && e.commit.Unreported? {
      FailedCommitLeaks(s, name, e);
    }
  }

  lemma FailedCommitLeaks(s: Tls, name: string, e: Env)
    requires Safe(s) && e.usable && e.load.Done? && e.commit.Unreported?
    ensures Leaked(LoadCertStep(s, name, e)) == Leaked(s) + Appeared(s, e)
  {
    var d := Committed(s, e);
    assert d.active == (s.daemon.active - s.daemon.doomed) + (s.daemon.staged + {s.daemon.next});
    assert s.daemon.next !in s.daemon.active && s.daemon.next !in Ids(s.queue);
    assert forall id | id in s.recorded.Values :: id in s.daemon.active;
    hide Ids;
  }

  /** The set algebra of a rotation: what was active, recorded and queued before, what the
      call adds and removes, and what is left unaccounted for. */
  lemma RotationAlgebra(live: set<Id>, recorded: set<Id>, queued: set<Id>, appeared: set<Id>, taken: set<Id>,
                        superseded: set<Id>, pushed: set<Id>, hit: set<Id>, kept: set<Id>)
    requires recorded <= live && recorded !! queued && appeared !! live && appeared !! queued
    requires taken <= appeared && superseded <= recorded && pushed <= queued
    requires var q := queued - pushed + superseded;
             hit <= q && kept <= q && q * (live + appeared) <= hit + kept
    ensures (live + appeared) - hit - (recorded - superseded + taken) - kept
            == (live - recorded - queued) + ((appeared - taken) + pushed * (live + appeared))
  {
    var q := queued - pushed + superseded;
    var left := (live + appeared) - hit - (recorded - superseded + taken) - kept;
    var right := (live - recorded - queued) + ((appeared - taken) + pushed * (live + appeared));
    forall id ensures id in left <==> id in right {
      assert id in q * (live + appeared) ==> id in hit + kept;
      assert id in live ==> id !in appeared;
      assert id in recorded ==> id in live && id !in queued;
      assert id in hit + kept ==> id in q;
    }
  }

  lemma CommitLeaks(s: Tls, name: string, e: Env)
    requires Safe(s) && PickIsNew(s, e) && Commits(e)
    ensures Leaked(LoadCertStep(s, name, e)) == Leaked(s) + Leaks(s, name, e)
  {
    hide Safe, Ids, DiscardAll, QueueAfter, DistinctIds, RecordedAfter, Kept, Hit, Accepted, Appeared, PushedOut, Committed, PickIsNew;
    var s' := LoadCertStep(s, name, e);
    var q, d := QueueAfter(s, name, e), Committed(s, e);
    var p, i := Superseded(s, name, e), Identified(s, e);
    CommittedIs(s, e);
    QueueAfterIs(s, name, e);
    DiscardAllIs(q, d, e.afterOk, e.discard);
    QueueIdsAfter(s, name, e);
    RecordedValues(s, name, e);
    RecordedIsLive(s);
    HitOrKept(Ids(q), d.active, e.afterOk, e.discard);
    PushedWasQueued(s.queue, if p.Some? then p.value else Pending(name, 0));
    RotationAlgebra(s.daemon.active - s.daemon.doomed, s.recorded.Values, Ids(s.queue), Appeared(s, e),
      if i.Some? then {e.pick} else {}, if p.Some? then {p.value.id} else {},
      if p.Some? then PushedOut(s.queue, p.value) else {},
      Hit(Ids(q), d.active, e.discard), Ids(s'.queue));
  }

  lemma CommittedIs(s: Tls, e: Env)
    requires Safe(s) && PickIsNew(s, e) && Commits(e)
    ensures var d, live := Committed(s, e), s.daemon.active - s.daemon.doomed;
      && d.active == live + Appeared(s, e) && d.doomed == {}
      && Appeared(s, e) !! live && Appeared(s, e) !! Ids(s.queue)
      && (Identified(s, e).Some? ==> e.pick in Appeared(s, e))
  {
    AppearedIsStaged(s, e);
    hide Ids, DistinctIds;
  }

  lemma RecordedIsLive(s: Tls)
    requires Safe(s)
    ensures s.recorded.Values <= s.daemon.active - s.daemon.doomed && s.recorded.Values !! Ids(s.queue)
  {
    hide Ids, DistinctIds;
  }

  lemma HitOrKept(ids: set<Id>, active: set<Id>, afterOk: bool, fate: Id -> Fate)
    ensures Hit(ids, active, fate) <= ids && Kept(ids, active, afterOk, fate) <= ids
    ensures ids * active <= Hit(ids, active, fate) + Kept(ids, active, afterOk, fate)
  {}

  lemma PushedWasQueued(q: seq<Pending>, p: Pending)
    ensures PushedOut(q, p) <= Ids(q)
  {
    if |q| > 0 {
      assert q[0] in q;
    }
  }

  lemma QueueIdsAfter(s: Tls, name: string, e: Env)
    requires Safe(s)
    ensures var p := Superseded(s, name, e);
            Ids(QueueAfter(s, name, e)) == if p.Some? then Ids(s.queue) - PushedOut(s.queue, p.value) + {p.value.id} else Ids(s.queue)
  {
    var p := Superseded(s, name, e);
    if p.Some? {
      EnqueueKeepsDistinct(s.queue, p.value);
    }
  }

  lemma RecordedValues(s: Tls, name: string, e: Env)
    requires Safe(s)
    ensures var v := RecordedAfter(s, name, e).Values;
      if Identified(s, e).None? then v == s.recorded.Values
      else v == s.recorded.Values - (if name in s.recorded then {s.recorded[name]} else {}) + {e.pick}
  {
    var m := RecordedAfter(s, name, e);
    if Identified(s, e).Some? {
      var gone := if name in s.recorded then {s.recorded[name]} else {};
      forall id ensures id in m.Values <==> id in s.recorded.Values - gone + {e.pick} {
        if id in s.recorded.Values - gone {
          var n :| n in s.recorded && s.recorded[n] == id;
          assert n in m && m[n] == id;
        }
        assert name in m && m[name] == e.pick;
      }
    }
  }

  /** What leaked stays leaked, and what leaks, leaks in some call: at any point of any run,
      exactly the certificates its calls so far leaked are beyond reach. */
  lemma {:induction false} RunLeaksNothingIff(run: seq<Tls>, calls: seq<(string, Env)>, i: nat)
    requires Follows(run, calls) && i < |run| && Safe(run[0])
    ensures Leaked(run[i]) == {} <==>
      Leaked(run[0]) == {} && forall k | 0 <= k < i :: Leaks(run[k], calls[k].0, calls[k].1) == {}
  {
    hide Safe, LoadCertStep, PickIsNew, Leaked, Leaks;
    if i > 0 {
      var k := i - 1;
      RunLeaksNothingIff(run, calls, k);
      EveryRunIsSafe(run, calls, k);
      assert run[k + 1] == LoadCertStep(run[k], calls[k].0, calls[k].1);
      LeakedExactly(run[k], calls[k].0, calls[k].1);
    }
  }

  /** The commands of a call that leaves nothing behind: a failed commit took no effect; if a
      call fails with something staged, the rollback clears it; and a commit can be told
      apart by the listings around it. */
  predicate Orderly(e: Env) {
    e.usable ==>
      && (e.load.Unreported? || (e.load.Done? && e.commit.Refused?) ==> !e.rollback.Refused?)
      && (e.load.Done? ==> !e.commit.Unreported?)
      && (Commits(e) ==> e.beforeOk && e.afterOk)
  }

  predicate NoOverflow(s: Tls, name: string, e: Env) {
    var p := Superseded(s, name, e);
    p.Some? ==> PushedOut(s.queue, p.value) == {}
  }

  /** As long as calls are orderly and the queue does not overflow, every active certificate
      is recorded for a name, queued for discard, or discarded already. */
  lemma {:induction false} OrderlyRunsLeakNothing(run: seq<Tls>, calls: seq<(string, Env)>, i: nat)
    requires Follows(run, calls) && i < |run| && Safe(run[0]) && Leaked(run[0]) == {} && run[0].daemon.staged == {}
    requires forall k | 0 <= k < |calls| :: Orderly(calls[k].1) && NoOverflow(run[k], calls[k].0, calls[k].1)
    ensures Leaked(run[i]) == {} && run[i].daemon.staged == {}
  {
    hide Safe, LoadCertStep, PickIsNew, Leaked, NoOverflow, Orderly;
    if i > 0 {
      OrderlyRunsLeakNothing(run, calls, i - 1);
      EveryRunIsSafe(run, calls, i - 1);
      var k := i - 1;
      OrderlyStep(run[k], calls[k].0, calls[k].1);
      assert run[k + 1] == LoadCertStep(run[k], calls[k].0, calls[k].1);
    }
  }

  lemma OrderlyStep(s: Tls, name: string, e: Env)
    requires Safe(s) && PickIsNew(s, e) && Orderly(e) && NoOverflow(s, name, e)
    requires Leaked(s) == {} && s.daemon.staged == {}
    ensures Leaked(LoadCertStep(s, name, e)) == {} && LoadCertStep(s, name, e).daemon.staged == {}
  {
    LeakedExactly(s, name, e);
    if Commits(e) {
      AppearedIsStaged(s, e);
      QueueAfterIs(s, name, e);
      DiscardAllIs(QueueAfter(s, name, e), Committed(s, e), e.afterOk, e.discard);
    }
    hide Ids, DiscardAll, QueueAfter, DistinctIds, Leaked;
  }

  /**
   * Working listings and a roomy queue are not enough: if the rollback of a refused commit
   * fails too, the next call commits both certificates, records one, and leaks the other.
   */
  lemma FailedRollbackLeaks(name: string, ok: Id -> Fate)
    ensures var s0 := Tls(map[], [], Daemon({}, {}, {}, 0));
      var e1 := Env(true, Done, Refused, Refused, true, true, 0, ok);
      var e2 := Env(true, Done, Done, Done, true, true, 1, ok);
      var s1 := LoadCertStep(s0, name, e1);
      var s2 := LoadCertStep(s1, name, e2);
      && PickIsNew(s0, e1) && PickIsNew(s1, e2)
      && s2.recorded == map[name := 1] && s2.daemon.active == {0, 1} && Leaked(s2) == {0}
  {
    var s0 := Tls(map[], [], Daemon({}, {}, {}, 0));
    var e1 := Env(true, Done, Refused, Refused, true, true, 0, ok);
    var s1 := LoadCertStep(s0, name, e1);
    assert s1 == Tls(map[], [], Daemon({}, {0}, {}, 1));
    var e2 := Env(true, Done, Done, Done, true, true, 1, ok);
    assert Appeared(s1, e2) == {0, 1};
    var s2 := LoadCertStep(s1, name, e2);
    assert s2 == Tls(map[name := 1], [], Daemon({0, 1}, {}, {}, 2));
    assert s2.recorded.Values == {1};
  }

  /** The gauge: certificates listed after the commit less those discarded since. With the
      listing at hand it is the number of active, undiscarded certificates if and only if no
      discard reported as failed took effect. */
  lemma GaugeIsExactIff(s: Tls, name: string, e: Env)
    requires Safe(s) && PickIsNew(s, e) && Commits(e) && e.afterOk
    ensures var q, d := QueueAfter(s, name, e), Committed(s, e);
      var r := DiscardAll(q, d, e.afterOk, e.discard);
      (|d.active| - r.counted == |r.daemon.active - r.daemon.doomed|)
      <==> (forall id | id in Ids(q) && id in d.active :: !e.discard(id).Unreported?)
  {
    var q, d := QueueAfter(s, name, e), Committed(s, e);
    QueueAfterIs(s, name, e);
    DiscardAllIs(q, d, e.afterOk, e.discard);
    HitsAreAcceptedIff(Ids(q), d.active, e.discard);
    assert d.doomed == {};
    hide Ids, Hit, Accepted, Kept, DiscardAll, QueueAfter, DistinctIds, Safe;
    CardinalityOfRest(d.active, Hit(Ids(q), d.active, e.discard));
  }

  lemma HitsAreAcceptedIff(ids: set<Id>, active: set<Id>, fate: Id -> Fate)
    ensures Hit(ids, active, fate) <= active
    ensures |Hit(ids, active, fate)| == |Accepted(ids, active, fate)|
            <==> (forall id | id in ids && id in active :: !fate(id).Unreported?)
  {
    var hit, accepted := Hit(ids, active, fate), Accepted(ids, active, fate);
    CardinalityOfRest(hit, accepted);
    if hit - accepted == {} {
      forall id | id in ids && id in active ensures !fate(id).Unreported? {
        assert id !in hit - accepted;
      }
    } else {
      var id :| id in hit - accepted;
      assert |hit - accepted| > 0;
    }
  }

  lemma CardinalityOfRest(a: set<Id>, b: set<Id>)
    requires b <= a
    ensures |a - b| == |a| - |b|
  {
    assert a == (a - b) + b;
  }

  // ---------------------------------------------------------------------------
  // The manager
  // ---------------------------------------------------------------------------

  class Manager {
    var tlsCertIDs: map<string, Id>
    var tlsPendingDiscards: seq<Pending>
    /** varnishd at the other end of the management connection. */
    var daemon: Daemon

    ghost function State(): Tls
      reads this
    {
      Tls(tlsCertIDs, tlsPendingDiscards, daemon)
    }

    constructor ()
      ensures State() == Tls(map[], [], Daemon({}, {}, {}, 0)) && Safe(State())
    {
      tlsCertIDs, tlsPendingDiscards, daemon := map[], [], Daemon({}, {}, {}, 0);
    }

    method QueueDiscard(name: string, id: Id)
      modifies `tlsPendingDiscards
      ensures tlsPendingDiscards == Enqueue(old(tlsPendingDiscards), Pending(name, id))
    {
      var i := 0;
      while i < |tlsPendingDiscards|
        invariant 0 <= i <= |tlsPendingDiscards| && tlsPendingDiscards == old(tlsPendingDiscards)
        invariant forall j | 0 <= j < i :: tlsPendingDiscards[j].id != id
      {
        if tlsPendingDiscards[i].id == id {
          assert tlsPendingDiscards[i] in tlsPendingDiscards;
          return;
        }
        i := i + 1;
      }
      if |tlsPendingDiscards| >= MAX_PENDING_DISCARDS {
        tlsPendingDiscards := tlsPendingDiscards[1..];
      }
      tlsPendingDiscards := tlsPendingDiscards + [Pending(name, id)];
    }

    /** Filters the queue, keeping what still has to be tried again. */
    method DiscardQueued(after: set<Id>, afterOk: bool, fate: Id -> Fate) returns (discarded: nat)
      requires after == if afterOk then daemon.active else {}
      modifies `tlsPendingDiscards, `daemon
      ensures Discards(tlsPendingDiscards, daemon, discarded) ==
              DiscardAll(old(tlsPendingDiscards), old(daemon), afterOk, fate)
      ensures daemon.active == old(daemon.active)
    {
      var queue := tlsPendingDiscards;
      var kept := [];
      discarded := 0;
      ghost var result := DiscardAll(queue, daemon, afterOk, fate);
      var i := 0;
      while i < |queue|
        invariant 0 <= i <= |queue|
        invariant daemon.active == old(daemon.active)
        invariant var rest := DiscardAll(queue[i..], daemon, afterOk, fate);
                  result == Discards(kept + rest.kept, rest.daemon, discarded + rest.counted)
      {
        var p := queue[i];
        assert queue[i..][0] == p && queue[i..][1..] == queue[i + 1..];
        var listed := p.id in after;
        i := i + 1;
        if afterOk && !listed {
          continue;
        }
        var ok := daemon.DiscardReportedDone(p.id, fate(p.id));
        daemon := daemon.Discard(p.id, fate(p.id));
        if !ok {
          ghost var rest := DiscardAll(queue[i..], daemon, afterOk, fate);
          assert kept + ([p] + rest.kept) == kept + [p] + rest.kept;
          kept := kept + [p];
          continue;
        }
        if listed {
          discarded := discarded + 1;
        }
      }
      tlsPendingDiscards := kept;
    }

    /** Installs a certificate for `name`. Returns whether it was committed and the gauge. */
    method LoadCert(name: string, e: Env) returns (committed: bool, gauge: Option<int>)
      requires PickIsNew(State(), e)
      modifies this
      ensures State() == LoadCertStep(old(State()), name, e)
      ensures committed <==> Commits(e)
      ensures gauge.Some? <==> Commits(e) && e.afterOk
      ensures gauge.Some? && Safe(old(State())) ==>
        (gauge == Some(|daemon.active - daemon.doomed|) <==>
          forall id | id in Ids(QueueAfter(old(State()), name, e)) && id in daemon.active :: !e.discard(id).Unreported?)
    {
      hide Ids, Enqueue, DiscardAll, Safe;
      if !e.usable {
        return false, None;
      }
      var before: set<Id> := if e.beforeOk then daemon.active else {};
      daemon := daemon.Load(e.load);
      if !e.load.Done? {
        daemon := daemon.Rollback(e.rollback);
        return false, None;
      }
      daemon := daemon.Commit(e.commit);
      if !e.commit.Done? {
        daemon := daemon.Rollback(e.rollback);
        return false, None;
      }
      var after: set<Id> := if e.afterOk then daemon.active else {};
      if e.beforeOk && e.afterOk && after - before != {} {
        var newID := e.pick;
        var hadPrior := name in tlsCertIDs;
        var prior := if hadPrior then tlsCertIDs[name] else 0;
        tlsCertIDs := tlsCertIDs[name := newID];
        if hadPrior && prior != newID {
          QueueDiscard(name, prior);
        }
      }
      assert tlsPendingDiscards == QueueAfter(old(State()), name, e) && daemon == Committed(old(State()), e);
      var discarded := DiscardQueued(after, e.afterOk, e.discard);
      if e.afterOk && Safe(old(State())) {
        GaugeIsExactIff(old(State()), name, e);
      }
      return true, if e.afterOk then Some(|after| - discarded) else None;
    }
  }
}
