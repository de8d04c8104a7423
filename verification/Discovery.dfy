/** Bare-name ownership across discovery watchers, and one reconcile of a watcher
    against the Services currently listed. */
module Discovery {
  import opened Basics

  /** A Service, identified by namespace and bare name. */
  datatype Key = Key(ns: string, name: string)

  /** Owner token: a watcher id together with the Service it manages. */
  datatype Token = Token(watcher: nat, key: Key)

  type Owners = map<string, Token>

  predicate Claimable(owners: Owners, name: string, owner: Token) {
    name in owners ==> owners[name] == owner
  }

  function Claimed(owners: Owners, name: string, owner: Token): Owners {
    if Claimable(owners, name, owner) then owners[name := owner] else owners
  }

  predicate Held(owners: Owners, name: string, owner: Token) {
    name in owners && owners[name] == owner
  }

  function Released(owners: Owners, name: string, owner: Token): Owners {
    if Held(owners, name, owner) then owners - {name} else owners
  }

  class NameRegistry {
    var owners: Owners
    var subscribers: set<nat>
    var subSeq: nat

    constructor ()
      ensures owners == map[] && subscribers == {}
    {
      owners, subscribers, subSeq := map[], {}, 0;
    }

    /** Succeeds when the name is free or already held by this very owner. */
    method Claim(name: string, owner: Token) returns (ok: bool)
      modifies this
      ensures ok == Claimable(old(owners), name, owner)
      ensures owners == Claimed(old(owners), name, owner)
      ensures ok <==> Held(owners, name, owner)
      ensures subscribers == old(subscribers)
    {
      if name in owners {
        return owners[name] == owner;
      }
      owners := owners[name := owner];
      return true;
    }

    /** Frees the name iff this owner holds it, and returns the subscribers to kick. */
    method Release(name: string, owner: Token) returns (kicked: set<nat>)
      modifies this
      ensures owners == Released(old(owners), name, owner)
      ensures kicked == if Held(old(owners), name, owner) then old(subscribers) else {}
      ensures subscribers == old(subscribers)
    {
      kicked := {};
      if name in owners && owners[name] == owner {
        owners := owners - {name};
        kicked := subscribers;
      }
    }

    method Subscribe() returns (id: nat)
      requires forall s | s in subscribers :: s < subSeq
      modifies this
      ensures id !in old(subscribers) && subscribers == old(subscribers) + {id}
      ensures owners == old(owners) && forall s | s in subscribers :: s < subSeq
    {
      id := subSeq;
      subSeq := subSeq + 1;
      subscribers := subscribers + {id};
    }

    method Unsubscribe(id: nat)
      modifies this
      ensures subscribers == old(subscribers) - {id} && owners == old(owners)
    {
      subscribers := subscribers - {id};
    }
  }

  // ---------------------------------------------------------------------------
  // One reconcile
  // ---------------------------------------------------------------------------

  /** What a reconcile reads and writes: the managed incarnations with their
      generations, the shared owners, and the last generation drawn. */
  datatype Local = Local(managed: map<Key, nat>, owners: Owners, genSeq: nat)

  /** A same-named Service of another namespace is already managed. */
  predicate NameTaken(managed: map<Key, nat>, key: Key) {
    exists k | k in managed :: k.name == key.name && k.ns != key.ns
  }

  /** The watcher's fixed configuration; without a registry names are only deduplicated
      within the watcher. */
  datatype Config = Config(id: nat, shared: bool, explicit: set<string>)

  predicate Adoptable(cfg: Config, key: Key, l: Local) {
    && key !in l.managed && key.name !in cfg.explicit && !NameTaken(l.managed, key)
    && (cfg.shared ==> Claimable(l.owners, key.name, Token(cfg.id, key)))
  }

  /** One iteration of the add pass. */
  function Adopt(cfg: Config, key: Key, l: Local): Local {
    if Adoptable(cfg, key, l) then
      Local(l.managed[key := l.genSeq + 1],
            if cfg.shared then Claimed(l.owners, key.name, Token(cfg.id, key)) else l.owners,
            l.genSeq + 1)
    else l
  }

  function AddPass(cfg: Config, keys: seq<Key>, l: Local): Local {
    if keys == [] then l
    else Adopt(cfg, keys[|keys| - 1], AddPass(cfg, keys[..|keys| - 1], l))
  }

  function Unlisted(managed: map<Key, nat>, keys: seq<Key>): set<Key> {
    set k | k in managed && k !in keys
  }

  /** The claims of the departing incarnations. */
  predicate Departing(cfg: Config, gone: set<Key>, name: string, owner: Token) {
    owner.watcher == cfg.id && owner.key.name == name && owner.key in gone
  }

  /** Drops incarnations together with their claims. */
  function Without(cfg: Config, gone: set<Key>, l: Local): Local {
    Local(l.managed - gone,
          if cfg.shared then
            map n | n in l.owners && !Departing(cfg, gone, n, l.owners[n]) :: l.owners[n]
          else l.owners,
          l.genSeq)
  }

  /** The remove pass: every incarnation no longer listed goes. */
  function RemovePass(cfg: Config, keys: seq<Key>, l: Local): Local {
    Without(cfg, Unlisted(l.managed, keys), l)
  }

  function Reconcile(cfg: Config, keys: seq<Key>, l: Local): Local {
    var added := AddPass(cfg, keys, l);
    var kept := RemovePass(cfg, keys, added);
    if Unlisted(added.managed, keys) == {} then kept else AddPass(cfg, keys, kept)
  }

  /** At most one managed incarnation per bare name, none of an explicit backend. */
  ghost predicate Wellformed(cfg: Config, l: Local) {
    && (forall j, k | j in l.managed && k in l.managed && j.name == k.name :: j == k)
    && (forall k | k in l.managed :: k.name !in cfg.explicit && 0 < l.managed[k] <= l.genSeq)
  }

  /** The first listed Service with this name. */
  function First(keys: seq<Key>, name: string): Option<Key> {
    if keys == [] then None
    else
      var r, key := First(keys[..|keys| - 1], name), keys[|keys| - 1];
      if r.Some? then r else if key.name == name then Some(key) else None
  }

  lemma {:induction false} FirstIsListed(keys: seq<Key>, name: string)
    ensures First(keys, name).Some? ==> First(keys, name).value in keys && First(keys, name).value.name == name
    ensures First(keys, name).None? ==> forall k | k in keys :: k.name != name
  {
    if keys != [] {
      FirstIsListed(keys[..|keys| - 1], name);
      assert keys == keys[..|keys| - 1] + [keys[|keys| - 1]];
    }
  }

  /** Some managed incarnation holds the name. */
  predicate NameManaged(managed: map<Key, nat>, name: string) {
    exists k | k in managed :: k.name == name
  }

  /** What an add pass over `keys` leaves managed, starting from `before`. */
  predicate Adopts(cfg: Config, keys: seq<Key>, before: map<Key, nat>, k: Key) {
    || k in before
    || (k.name !in cfg.explicit && First(keys, k.name) == Some(k) && !NameManaged(before, k.name))
  }

  lemma AdoptsIsManaged(cfg: Config, l: Local, key: Key)
    requires Wellformed(cfg, l) && !cfg.shared
    ensures Adoptable(cfg, key, l) <==> key.name !in cfg.explicit && !NameManaged(l.managed, key.name)
  {
    forall k | k in l.managed && k.name == key.name && k.ns == key.ns ensures k == key {}
  }

  /** Without a registry: an add pass adopts, for each free non-explicit name, the first
      listed Service, and touches nothing else. */
  lemma {:induction false} AddPassAdoptsFirst(cfg: Config, keys: seq<Key>, l: Local)
    requires !cfg.shared && Wellformed(cfg, l)
    ensures var r := AddPass(cfg, keys, l);
            && Wellformed(cfg, r) && r.owners == l.owners && l.genSeq <= r.genSeq
            && (forall k :: k in r.managed <==> Adopts(cfg, keys, l.managed, k))
            && (forall k | k in l.managed :: k in r.managed && r.managed[k] == l.managed[k])
            && (forall k | k in r.managed && k !in l.managed :: r.managed[k] > l.genSeq)
  {
    if keys != [] {
      hide First, NameManaged, Adopt, Adopts;
      var n := |keys| - 1;
      AddPassAdoptsFirst(cfg, keys[..n], l);
      AdoptStep(cfg, keys[..n], keys[n], l, AddPass(cfg, keys[..n], l));
      AdoptKeeps(cfg, keys[n], AddPass(cfg, keys[..n], l));
      assert keys[..n] + [keys[n]] == keys;
    }
  }

  lemma AdoptKeeps(cfg: Config, key: Key, l: Local)
    requires !cfg.shared && Wellformed(cfg, l)
    ensures var r := Adopt(cfg, key, l);
            && Wellformed(cfg, r) && r.owners == l.owners && l.genSeq <= r.genSeq
            && (forall k | k in l.managed :: k in r.managed && r.managed[k] == l.managed[k])
            && (forall k | k in r.managed && k !in l.managed :: r.managed[k] > l.genSeq)
  {
    AdoptsIsManaged(cfg, l, key);
  }

  /** The next key is adopted exactly when it is the first free one of its name. */
  lemma AdoptStep(cfg: Config, init: seq<Key>, key: Key, l: Local, q: Local)
    requires !cfg.shared && Wellformed(cfg, l) && Wellformed(cfg, q)
    requires forall k :: k in q.managed <==> Adopts(cfg, init, l.managed, k)
    ensures forall k :: k in Adopt(cfg, key, q).managed <==> Adopts(cfg, init + [key], l.managed, k)
  {
    AdoptsIsManaged(cfg, q, key);
    FirstIsListed(init, key.name);
    assert (init + [key])[..|init|] == init;
    var first := First(init, key.name);
    if first.Some? {
      assert Adopts(cfg, init, l.managed, first.value) || key.name in cfg.explicit || NameManaged(l.managed, key.name);
    }
    assert NameManaged(q.managed, key.name) <==>
      NameManaged(l.managed, key.name) || (key.name !in cfg.explicit && first.Some?) by {
      if NameManaged(l.managed, key.name) {
        var k :| k in l.managed && k.name == key.name;
        assert k in q.managed;
      }
      if key.name !in cfg.explicit && first.Some? && !NameManaged(l.managed, key.name) {
        assert first.value in q.managed;
      }
    }
  }

  /** Which Service ends up managing a name: the incumbent while it is listed, else the
      first listed Service of that name. */
  ghost predicate Wins(keys: seq<Key>, before: map<Key, nat>, k: Key) {
    if Incumbent(keys, before, k.name) then k in before && k in keys
    else First(keys, k.name) == Some(k)
  }

  predicate Incumbent(keys: seq<Key>, before: map<Key, nat>, name: string) {
    exists j | j in before :: j.name == name && j in keys
  }

  /** One reconcile leaves no orphan: afterwards exactly the winners of the listed,
      non-explicit names are managed, one per name; incumbents keep their generation and
      every newly adopted incarnation gets a larger one than any before. */
  lemma ReconcileLeavesNoOrphan(cfg: Config, keys: seq<Key>, l: Local)
    requires !cfg.shared && Wellformed(cfg, l)
    ensures var r := Reconcile(cfg, keys, l);
            && Wellformed(cfg, r)
            && (forall k :: k in r.managed <==> k.name !in cfg.explicit && Wins(keys, l.managed, k))
            && (forall k | k in l.managed && k in keys :: r.managed[k] == l.managed[k])
            && (forall k | k in r.managed && k !in l.managed :: r.managed[k] > l.genSeq)
  {
    hide AddPass, RemovePass, Unlisted, Adopts, Wins;
    var a := AddPass(cfg, keys, l);
    AddPassAdoptsFirst(cfg, keys, l);
    var b := RemovePass(cfg, keys, a);
    RemovePassKeepsListed(cfg, keys, a);
    AddPassAdoptsFirst(cfg, keys, b);
    var r := Reconcile(cfg, keys, l);
    forall k ensures k in r.managed <==> k.name !in cfg.explicit && Wins(keys, l.managed, k) {
      WinnerIsManaged(cfg, keys, l, a.managed, b.managed, k);
    }
  }

  lemma RemovePassKeepsListed(cfg: Config, keys: seq<Key>, l: Local)
    requires !cfg.shared && Wellformed(cfg, l)
    ensures var r := RemovePass(cfg, keys, l);
            && Wellformed(cfg, r) && r.genSeq == l.genSeq
            && (forall k :: k in r.managed <==> k in l.managed && k in keys)
            && (forall k | k in r.managed :: r.managed[k] == l.managed[k])
    ensures Unlisted(l.managed, keys) == {} <==> forall k | k in l.managed :: k in keys
  {
    forall k ensures k in Unlisted(l.managed, keys) <==> k in l.managed && k !in keys {}
  }

  lemma WinnerIsManaged(cfg: Config, keys: seq<Key>, l: Local, a: map<Key, nat>, b: map<Key, nat>, k: Key)
    requires Wellformed(cfg, l)
    requires forall j :: j in a <==> Adopts(cfg, keys, l.managed, j)
    requires forall j :: j in b <==> j in a && j in keys
    ensures Adopts(cfg, keys, b, k) <==> k.name !in cfg.explicit && Wins(keys, l.managed, k)
    ensures (forall j | j in a :: j in keys) ==> (k in a <==> Adopts(cfg, keys, b, k))
  {
    hide First;
    FirstIsListed(keys, k.name);
    if Incumbent(keys, l.managed, k.name) {
      var j :| j in l.managed && j.name == k.name && j in keys;
      assert j in b;
      assert NameManaged(b, k.name);
    } else if First(keys, k.name).Some? {
      var f := First(keys, k.name).value;
      if NameManaged(b, k.name) && k.name !in cfg.explicit {
        var j :| j in b && j.name == k.name;
        assert j == f;
      }
    }
  }

  /** Every listed name that is not explicit ends up managed. */
  lemma EveryListedNameIsManaged(cfg: Config, keys: seq<Key>, l: Local, key: Key)
    requires !cfg.shared && Wellformed(cfg, l) && key in keys && key.name !in cfg.explicit
    ensures NameManaged(Reconcile(cfg, keys, l).managed, key.name)
  {
    hide Reconcile, First;
    ReconcileLeavesNoOrphan(cfg, keys, l);
    FirstIsListed(keys, key.name);
    if Incumbent(keys, l.managed, key.name) {
      var j :| j in l.managed && j.name == key.name && j in keys;
      assert Wins(keys, l.managed, j);
    } else {
      assert Wins(keys, l.managed, First(keys, key.name).value);
    }
  }

  // ---------------------------------------------------------------------------
  // With a registry shared by other watchers
  // ---------------------------------------------------------------------------

  /** The claims of the other watchers. */
  function Others(cfg: Config, owners: Owners): Owners {
    map n | n in owners && owners[n].watcher != cfg.id :: owners[n]
  }

  /** Every managed incarnation holds the claim on its name, and this watcher holds no other. */
  ghost predicate Matched(cfg: Config, l: Local) {
    && ClaimsAreHeld(cfg, l)
    && forall n | n in l.owners && l.owners[n].watcher == cfg.id ::
         l.owners[n].key.name == n && l.owners[n].key in l.managed
  }

  /** The same watcher on its own, with the names of the others ruled out. */
  function Alone(cfg: Config, others: Owners): Config {
    Config(cfg.id, false, cfg.explicit + others.Keys)
  }

  /** Both manage the same incarnations and will draw the same generations. */
  predicate Alike(l: Local, m: Local) {
    l.managed == m.managed && l.genSeq == m.genSeq
  }

  lemma AdoptAlone(cfg: Config, key: Key, l: Local, m: Local)
    requires cfg.shared && Matched(cfg, l) && Alike(l, m)
    ensures var r := Adopt(cfg, key, l);
            && Matched(cfg, r) && Others(cfg, r.owners) == Others(cfg, l.owners)
            && Alike(r, Adopt(Alone(cfg, Others(cfg, l.owners)), key, m))
  {
    var others := Others(cfg, l.owners);
    assert key.name in others <==> key.name in l.owners && l.owners[key.name].watcher != cfg.id;
    if key !in l.managed && key.name in l.owners && l.owners[key.name].watcher == cfg.id {
      var k := l.owners[key.name].key;
      assert k.name == key.name && k.ns != key.ns;
      assert NameTaken(l.managed, key);
    }
    if Adoptable(cfg, key, l) {
      assert Others(cfg, Adopt(cfg, key, l).owners) == others;
    }
  }

  lemma {:induction false} AddPassAlone(cfg: Config, keys: seq<Key>, l: Local, m: Local)
    requires cfg.shared && Matched(cfg, l) && Alike(l, m)
    ensures var r := AddPass(cfg, keys, l);
            && Matched(cfg, r) && Others(cfg, r.owners) == Others(cfg, l.owners)
            && Alike(r, AddPass(Alone(cfg, Others(cfg, l.owners)), keys, m))
  {
    if keys != [] {
      hide Adopt, Matched, Others;
      var n := |keys| - 1;
      AddPassAlone(cfg, keys[..n], l, m);
      AdoptAlone(cfg, keys[n], AddPass(cfg, keys[..n], l),
                 AddPass(Alone(cfg, Others(cfg, l.owners)), keys[..n], m));
    }
  }

  lemma RemovePassAlone(cfg: Config, keys: seq<Key>, l: Local, m: Local)
    requires cfg.shared && Matched(cfg, l) && Alike(l, m)
    ensures var r := RemovePass(cfg, keys, l);
            && Matched(cfg, r) && Others(cfg, r.owners) == Others(cfg, l.owners)
            && Alike(r, RemovePass(Alone(cfg, Others(cfg, l.owners)), keys, m))
  {
    var gone := Unlisted(l.managed, keys);
    forall n | n in l.owners ensures Departing(cfg, gone, n, l.owners[n]) ==> l.owners[n].watcher == cfg.id {}
    assert Others(cfg, RemovePass(cfg, keys, l).owners) == Others(cfg, l.owners);
  }

  lemma ReconcileAlone(cfg: Config, keys: seq<Key>, l: Local)
    requires cfg.shared && Matched(cfg, l)
    ensures var r := Reconcile(cfg, keys, l);
            && Matched(cfg, r) && Others(cfg, r.owners) == Others(cfg, l.owners)
            && Alike(r, Reconcile(Alone(cfg, Others(cfg, l.owners)), keys, l))
  {
    hide AddPass, RemovePass, Matched, Others, Unlisted;
    var alone := Alone(cfg, Others(cfg, l.owners));
    var a, b := AddPass(cfg, keys, l), AddPass(alone, keys, l);
    AddPassAlone(cfg, keys, l, l);
    RemovePassAlone(cfg, keys, a, b);
    AddPassAlone(cfg, keys, RemovePass(cfg, keys, a), RemovePass(alone, keys, b));
  }

  /** Another watcher owns the name. */
  predicate Foreign(cfg: Config, owners: Owners, name: string) {
    name in owners && owners[name].watcher != cfg.id
  }

  /**
   * One reconcile next to other watchers: afterwards exactly the winners of the listed names
   * that are neither explicit nor another watcher's are managed, each holding the claim on
   * its name, and this watcher holds no other claim. The others' claims are as before.
   * Incumbents keep their generation, newly adopted incarnations get larger ones.
   */
  lemma ReconcileBesideOthers(cfg: Config, keys: seq<Key>, l: Local)
    requires cfg.shared && Wellformed(cfg, l) && Matched(cfg, l)
    ensures var r := Reconcile(cfg, keys, l);
            && Wellformed(cfg, r) && Matched(cfg, r)
            && (forall n, t: Token | t.watcher != cfg.id :: Held(r.owners, n, t) <==> Held(l.owners, n, t))
            && (forall k :: k in r.managed <==>
                  k.name !in cfg.explicit && !Foreign(cfg, l.owners, k.name) && Wins(keys, l.managed, k))
            && (forall k | k in l.managed && k in keys :: r.managed[k] == l.managed[k])
            && (forall k | k in r.managed && k !in l.managed :: r.managed[k] > l.genSeq)
  {
    var others := Others(cfg, l.owners);
    var alone := Alone(cfg, others);
    assert Wellformed(alone, l) by {
      forall k | k in l.managed ensures k.name !in others {
        assert Held(l.owners, k.name, Token(cfg.id, k));
      }
    }
    ReconcileAlone(cfg, keys, l);
    ReconcileLeavesNoOrphan(alone, keys, l);
    var r := Reconcile(cfg, keys, l);
    forall n ensures n in others <==> Foreign(cfg, l.owners, n) {}
    forall n, t: Token | t.watcher != cfg.id ensures Held(r.owners, n, t) <==> Held(l.owners, n, t) {
      hide Wins, Reconcile, Matched, Wellformed;
      assert Held(l.owners, n, t) <==> n in others && others[n] == t;
      var now := Others(cfg, r.owners);
      assert Held(r.owners, n, t) <==> n in now && now[n] == t;
    }
    hide Wins, Reconcile, Matched, Others;
  }

  /** Every listed name that is not explicit is managed here or owned by another watcher, at
      the first reconcile and whatever went before. */
  lemma EveryListedNameIsOwned(cfg: Config, keys: seq<Key>, l: Local, key: Key)
    requires cfg.shared && Wellformed(cfg, l) && Matched(cfg, l)
    requires key in keys && key.name !in cfg.explicit
    ensures var r := Reconcile(cfg, keys, l);
            NameManaged(r.managed, key.name) != Foreign(cfg, r.owners, key.name)
  {
    hide Reconcile, First;
    ReconcileBesideOthers(cfg, keys, l);
    FirstIsListed(keys, key.name);
    var r := Reconcile(cfg, keys, l);
    assert Foreign(cfg, r.owners, key.name) <==> Foreign(cfg, l.owners, key.name) by {
      if Foreign(cfg, r.owners, key.name) {
        assert Held(r.owners, key.name, r.owners[key.name]);
      }
      if Foreign(cfg, l.owners, key.name) {
        assert Held(l.owners, key.name, l.owners[key.name]);
      }
    }
    if !Foreign(cfg, l.owners, key.name) {
      if Incumbent(keys, l.managed, key.name) {
        var j :| j in l.managed && j.name == key.name && j in keys;
        assert Wins(keys, l.managed, j);
      } else {
        assert Wins(keys, l.managed, First(keys, key.name).value);
      }
    }
  }

  // ---------------------------------------------------------------------------
  // Listing order does not matter
  // ---------------------------------------------------------------------------

  /** Strict lexicographic order on byte strings. */
  predicate Before(s: string, t: string) {
    t != "" && (s == "" || s[0] < t[0] || (s[0] == t[0] && Before(s[1..], t[1..])))
  }

  function Path(k: Key): string {
    k.ns + "/" + k.name
  }

  /** The reconcile visits Services in ascending order of "namespace/name". */
  predicate Ascending(keys: seq<Key>) {
    forall i, j | 0 <= i < j < |keys| :: Before(Path(keys[i]), Path(keys[j]))
  }

  lemma {:induction false} BeforeIsStrict(s: string, t: string)
    ensures !Before(s, s) && !(Before(s, t) && Before(t, s))
  {
    if s != "" && t != "" { BeforeIsStrict(s[1..], t[1..]); }
    if s != "" { BeforeIsStrict(s[1..], s[1..]); }
  }

  lemma SomeMember(keys: seq<Key>)
    ensures keys != [] ==> exists k :: k in keys
  {
    if keys != [] { assert keys[0] in keys; }
  }

  lemma RestOfAscending(keys: seq<Key>)
    requires Ascending(keys) && keys != []
    ensures forall k :: k in keys[1..] <==> k in keys && k != keys[0]
  {
    assert keys == [keys[0]] + keys[1..];
    BeforeIsStrict(Path(keys[0]), Path(keys[0]));
    forall k | k in keys[1..] ensures k != keys[0] {
      var i :| 0 <= i < |keys| - 1 && keys[1..][i] == k;
      assert Before(Path(keys[0]), Path(keys[i + 1]));
    }
  }

  /** One ascending listing per set of Services. */
  lemma {:induction false} AscendingIsUnique(keys: seq<Key>, others: seq<Key>)
    requires Ascending(keys) && Ascending(others)
    requires forall k :: k in keys <==> k in others
    ensures keys == others
  {
    if keys == [] {
      SomeMember(others);
    } else {
      assert keys[0] in others;
      var a, b := keys[0], others[0];
      if a != b {
        var i :| 0 <= i < |others| && others[i] == a;
        assert b in keys;
        var j :| 0 <= j < |keys| && keys[j] == b;
        BeforeIsStrict(Path(a), Path(b));
      }
      assert a == b;
      RestOfAscending(keys);
      RestOfAscending(others);
      AscendingIsUnique(keys[1..], others[1..]);
    }
  }

  /** The result of a reconcile depends on which Services are listed, not on the order
      the lister returned them in. */
  lemma ReconcileIgnoresListingOrder(cfg: Config, keys: seq<Key>, others: seq<Key>, l: Local)
    requires Ascending(keys) && Ascending(others)
    requires forall k :: k in keys <==> k in others
    ensures Reconcile(cfg, keys, l) == Reconcile(cfg, others, l)
  {
    AscendingIsUnique(keys, others);
  }

  /** The first listed Service of a name is the one with the lowest path. */
  lemma {:induction false} FirstIsLowest(keys: seq<Key>, name: string, k: Key)
    requires Ascending(keys) && k in keys && k.name == name
    ensures var f := First(keys, name);
            f.Some? && (f.value == k || Before(Path(f.value), Path(k)))
  {
    var n := |keys| - 1;
    assert keys == keys[..n] + [keys[n]];
    FirstIsListed(keys[..n], name);
    if k in keys[..n] {
      FirstIsLowest(keys[..n], name, k);
    }
  }

  // ---------------------------------------------------------------------------
  // The reconcile as the watcher runs it
  // ---------------------------------------------------------------------------

  /** The process-wide generation counter, shared by all watchers. */
  class GenCounter {
    var n: nat

    constructor ()
      ensures n == 0
    {
      n := 0;
    }

    method Next() returns (g: nat)
      modifies this
      ensures g == n == old(n) + 1
    {
      n := n + 1;
      return n;
    }
  }

  class DiscoveryWatcher {
    const cfg: Config
    const registry: NameRegistry?
    const gens: GenCounter
    var managed: map<Key, nat>

    ghost predicate Valid() {
      cfg.shared <==> registry != null
    }

    ghost function View(): Local
      reads this, registry, gens
    {
      Local(managed, if registry != null then registry.owners else map[], gens.n)
    }

    constructor (cfg: Config, registry: NameRegistry?, gens: GenCounter)
      requires cfg.shared <==> registry != null
      ensures Valid() && this.cfg == cfg && this.registry == registry && this.gens == gens
      ensures managed == map[]
    {
      this.cfg, this.registry, this.gens := cfg, registry, gens;
      managed := map[];
    }

    /** Adopts every listed Service that is not managed and whose bare name is free. */
    method AddServices(keys: seq<Key>)
      requires Valid()
      modifies this, registry, gens
      ensures View() == AddPass(cfg, keys, old(View()))
      ensures registry != null ==> registry.subscribers == old(registry.subscribers)
    {
      for i := 0 to |keys|
        invariant View() == AddPass(cfg, keys[..i], old(View()))
        invariant registry != null ==> registry.subscribers == old(registry.subscribers)
      {
        assert keys[..i + 1][..i] == keys[..i];
        var key := keys[i];
        if key in managed || key.name in cfg.explicit || NameTaken(managed, key) {
          continue;
        }
        if registry != null {
          var ok := registry.Claim(key.name, Token(cfg.id, key));
          if !ok {
            continue;
          }
        }
        var g := gens.Next();
        managed := managed[key := g];
      }
      assert keys[..|keys|] == keys;
    }

    /** Reconciles the managed set with the Services listed, in ascending order. Returns
        the removed incarnations to announce and the subscribers to kick. */
    method SyncServices(keys: seq<Key>) returns (removed: map<Key, nat>, kicked: set<nat>)
      requires Valid()
      modifies this, registry, gens
      ensures View() == Reconcile(cfg, keys, old(View()))
      ensures var added := AddPass(cfg, keys, old(View())).managed;
              removed == map k | k in added && k !in keys :: added[k]
      ensures kicked <= if registry != null then old(registry.subscribers) else {}
      ensures cfg.shared && removed != map[] && ClaimsAreHeld(cfg, AddPass(cfg, keys, old(View()))) ==>
                kicked == old(registry.subscribers)
    {
      hide AddPass, Without, ClaimsAreHeld;
      AddServices(keys);
      ghost var added := View();
      removed, kicked := map[], {};
      var doomed := set k | k in managed && k !in keys;
      ghost var all := doomed;
      WithoutNothing(cfg, added);
      assert all - doomed == {};
      while doomed != {}
        invariant doomed <= all && View() == Without(cfg, all - doomed, added)
        invariant removed == map k | k in all - doomed :: added.managed[k]
        invariant registry != null ==> registry.subscribers == old(registry.subscribers)
        invariant kicked <= if registry != null then old(registry.subscribers) else {}
        invariant cfg.shared && removed != map[] && ClaimsAreHeld(cfg, added) ==> kicked == old(registry.subscribers)
        decreases doomed
      {
        var key :| key in doomed;
        ghost var gone := all - doomed;
        WithoutOneMore(cfg, gone, key, added);
        WithoutKeepsOthers(cfg, gone, key, added);
        var held := managed[key];
        managed := managed - {key};
        if registry != null {
          var k := registry.Release(key.name, Token(cfg.id, key));
          kicked := kicked + k;
        }
        doomed := doomed - {key};
        removed := removed[key := held];
        assert all - doomed == gone + {key};
      }
      assert all - doomed == all == removed.Keys == Unlisted(added.managed, keys);
      assert View() == RemovePass(cfg, keys, added);
      if removed != map[] {
        AddServices(keys);
      }
    }
  }

  /** Every managed incarnation holds the claim on its name. */
  ghost predicate ClaimsAreHeld(cfg: Config, l: Local) {
    && (forall k | k in l.managed :: Held(l.owners, k.name, Token(cfg.id, k)))
    && (forall j, k | j in l.managed && k in l.managed && j.name == k.name :: j == k)
  }

  lemma WithoutKeepsOthers(cfg: Config, gone: set<Key>, key: Key, l: Local)
    requires key in l.managed && key !in gone
    ensures Without(cfg, gone, l).managed == l.managed - gone
    ensures cfg.shared && ClaimsAreHeld(cfg, l) ==>
              Held(Without(cfg, gone, l).owners, key.name, Token(cfg.id, key))
  {}

  lemma WithoutNothing(cfg: Config, l: Local)
    ensures Without(cfg, {}, l) == l
  {}

  /** Dropping incarnations one at a time, in any order, is dropping them together. */
  lemma WithoutOneMore(cfg: Config, gone: set<Key>, key: Key, l: Local)
    ensures var w := Without(cfg, gone, l);
            Without(cfg, gone + {key}, l)
            == Local(w.managed - {key},
                     if cfg.shared then Released(w.owners, key.name, Token(cfg.id, key)) else w.owners,
                     w.genSeq)
  {
    assert l.managed - (gone + {key}) == l.managed - gone - {key};
  }
}
