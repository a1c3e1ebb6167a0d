/**
 SSH tunnels and MySQL pools (src/sql/ssh.rs, src/sql/pool.rs). Each method of `Caches` is one lock
 section or, for `Retire`, `Sweep` and `Publish`, the sections it goes through when nothing comes in
 between. A tunnel carries a generation number; a pool that rides it is keyed by that number, so a pool
 can never be spliced onto a later tunnel that happens to reuse the local port.
*/
module Transport {
  import opened Wrappers

  const MAX_TUNNELS: nat := 8
  const MAX_POOLS: nat := 16

  /** The identity a tunnel was opened for: the connection, and everything else that must match
      (bastion, user, method, known-hosts content, credential, policy revision, target, bridge). */
  datatype TunnelKey = TunnelKey(connection: string, identity: string)

  datatype Tunnel = Tunnel(generation: nat, lastUsed: nat)

  /** Everything in a pool's configuration except the credential. */
  datatype PoolKey = PoolKey(config: string, tunnel: Option<nat>)

  /** A pool as it was opened. */
  datatype Pool = Pool(id: nat, key: PoolKey, credential: string)

  datatype PoolEntry = PoolEntry(pool: Pool, credential: string, tunnel: Option<nat>)

  datatype PoolResult = Got(pool: Pool) | CacheFull(n: nat)

  datatype State = State(
    tunnels: map<TunnelKey, Tunnel>,
    nextGeneration: nat,
    draining: set<nat>,                 // generations that have been retired
    closed: set<nat>,                   // generations whose SSH session is gone
    pools: map<PoolKey, PoolEntry>)

  // ----- What each section does -----

  predicate Live(s: State, key: TunnelKey) {
    && key in s.tunnels
    && s.tunnels[key].generation !in s.closed && s.tunnels[key].generation !in s.draining
  }

  function Touched(s: State, key: TunnelKey, now: nat): State {
    if Live(s, key) then s.(tunnels := s.tunnels[key := Tunnel(s.tunnels[key].generation, now)]) else s
  }

  function GenerationsOf(tunnels: map<TunnelKey, Tunnel>, keys: set<TunnelKey>): set<nat> {
    set k | k in keys && k in tunnels :: tunnels[k].generation
  }

  function NotRiding(pools: map<PoolKey, PoolEntry>, generations: set<nat>): map<PoolKey, PoolEntry> {
    map k | k in pools && (pools[k].tunnel.Some? ==> pools[k].tunnel.value !in generations) :: pools[k]
  }

  /** Tunnels of the same connection under another identity. */
  function Stale(s: State, key: TunnelKey): set<TunnelKey> {
    set k | k in s.tunnels && k.connection == key.connection && k != key
  }

  function Dead(s: State, key: TunnelKey): set<TunnelKey> {
    set k | k in s.tunnels && k !in Stale(s, key) && s.tunnels[k].generation in s.closed
  }

  /** Nothing in `victims` was used later than anything outside. */
  predicate NoneYounger(tunnels: map<TunnelKey, Tunnel>, victims: set<TunnelKey>) {
    forall v, k :: v in victims && v in tunnels && k in tunnels && k !in victims ==>
      tunnels[v].lastUsed <= tunnels[k].lastUsed
  }

  /** From `s` the tunnels in `victims`, none of them used later than what is left, are retired. */
  ghost predicate Roomed(s: State, victims: set<TunnelKey>, s': State) {
    && victims <= s.tunnels.Keys
    && NoneYounger(s.tunnels, victims)
    && s' == s.(tunnels := s.tunnels - victims,
                draining := s.draining + GenerationsOf(s.tunnels, victims),
                pools := NotRiding(s.pools, GenerationsOf(s.tunnels, victims)))
  }

  /** Publishing a fresh tunnel: stale and dead ones are retired, then as many of the least recently
      used (`victims`) as it takes to make room, and with each tunnel the pools that ride it. */
  ghost predicate Published(s: State, key: TunnelKey, generation: nat, now: nat, victims: set<TunnelKey>, s': State) {
    var left := s.tunnels - (Stale(s, key) + Dead(s, key));
    var gone := GenerationsOf(s.tunnels, Stale(s, key) + Dead(s, key) + victims);
    && victims <= left.Keys
    && |left - victims| < MAX_TUNNELS && (victims != {} ==> |left - victims| == MAX_TUNNELS - 1)
    && NoneYounger(left, victims)
    && s' == s.(tunnels := (left - victims)[key := Tunnel(generation, now)],
                draining := s.draining + gone,
                pools := NotRiding(s.pools, gone))
  }

  function PoolFound(s: State, key: PoolKey, credential: string): Option<Pool> {
    if key in s.pools && s.pools[key].credential == credential then Some(s.pools[key].pool) else None
  }

  /** Publishing a verified candidate: an equal one published meanwhile wins, one with another
      credential is superseded, and a full cache refuses. */
  function PoolPublished(s: State, candidate: Pool): (State, PoolResult) {
    var key, credential := candidate.key, candidate.credential;
    if PoolFound(s, key, credential).Some? then (s, Got(s.pools[key].pool))
    else
      var pools := s.pools - {key};
      if |pools| >= MAX_POOLS then (s.(pools := pools), CacheFull(|pools|))
      else (s.(pools := pools[key := PoolEntry(candidate, credential, key.tunnel)]), Got(candidate))
  }

  // ----- The shared caches -----

  class Caches {
    var tunnels: map<TunnelKey, Tunnel>
    var nextGeneration: nat
    var draining: set<nat>
    var closed: set<nat>
    var pools: map<PoolKey, PoolEntry>

    function Now(): State
      reads this
    {
      State(tunnels, nextGeneration, draining, closed, pools)
    }

    constructor ()
      ensures Now() == Start()
    {
      tunnels, nextGeneration, draining, closed, pools := map[], 1, {}, {}, map[];
    }

    /** The fast path, and the second look under the in-flight guard. */
    method Lease(key: TunnelKey, now: nat) returns (generation: Option<nat>)
      modifies this
      ensures Now() == Touched(old(Now()), key, now)
      ensures generation == if Live(old(Now()), key) then Some(old(tunnels)[key].generation) else None
    {
      if key in tunnels {
        var t := tunnels[key];
        if t.generation !in closed && t.generation !in draining {
          tunnels := tunnels[key := Tunnel(t.generation, now)];
          return Some(t.generation);
        }
      }
      return None;
    }

    method AssignGeneration() returns (generation: nat)
      modifies this
      ensures generation == old(nextGeneration)
      ensures Now() == old(Now()).(nextGeneration := generation + 1)
    {
      generation := nextGeneration;
      nextGeneration := nextGeneration + 1;
    }

    /** Closes and removes every pool riding the generation; returns how many. */
    method EvictByGeneration(generation: nat) returns (n: nat)
      modifies this`pools
      ensures pools == NotRiding(old(pools), {generation})
      ensures n == |old(pools)| - |pools|
    {
      var victims := set k | k in pools && pools[k].tunnel == Some(generation);
      n := |victims|;
      ManyLess(pools, victims);
      pools := pools - victims;
    }

    /** The first half of retiring a tunnel, under the tunnel lock: out of the map, and marked. */
    method Mark(key: TunnelKey) returns (generation: nat)
      requires key in tunnels
      modifies this`tunnels, this`draining
      ensures generation == old(tunnels)[key].generation
      ensures tunnels == old(tunnels) - {key} && draining == old(draining) + {generation}
    {
      generation := tunnels[key].generation;
      tunnels := tunnels - {key};
      draining := draining + {generation};
    }

    /** Both halves; the second takes the pool lock, and other pool sections can come in between. */
    method Retire(key: TunnelKey)
      requires key in tunnels
      modifies this`tunnels, this`draining, this`pools
      ensures tunnels == old(tunnels) - {key}
      ensures draining == old(draining) + {old(tunnels)[key].generation}
      ensures pools == NotRiding(old(pools), {old(tunnels)[key].generation})
    {
      var generation := Mark(key);
      var _ := EvictByGeneration(generation);
    }

    method RetireAll(keys: set<TunnelKey>)
      requires keys <= tunnels.Keys
      modifies this`tunnels, this`draining, this`pools
      ensures tunnels == old(tunnels) - keys
      ensures draining == old(draining) + GenerationsOf(old(tunnels), keys)
      ensures pools == NotRiding(old(pools), GenerationsOf(old(tunnels), keys))
    {
      var todo := keys;
      while todo != {}
        invariant todo <= keys && todo <= tunnels.Keys
        invariant tunnels == old(tunnels) - (keys - todo)
        invariant draining == old(draining) + GenerationsOf(old(tunnels), keys - todo)
        invariant pools == NotRiding(old(pools), GenerationsOf(old(tunnels), keys - todo))
      {
        var k :| k in todo;
        assert keys - (todo - {k}) == (keys - todo) + {k};
        GenerationsOfMore(old(tunnels), keys - todo, k);
        NotRidingTwice(old(pools), GenerationsOf(old(tunnels), keys - todo), {old(tunnels)[k].generation});
        Retire(k);
        todo := todo - {k};
      }
    }

    /** Retires a least recently used tunnel. */
    method RetireOldest() returns (victim: TunnelKey)
      requires |tunnels| > 0
      modifies this`tunnels, this`draining, this`pools
      ensures victim in old(tunnels)
      ensures forall k :: k in old(tunnels) ==> old(tunnels)[victim].lastUsed <= old(tunnels)[k].lastUsed
      ensures tunnels == old(tunnels) - {victim} && |tunnels| == |old(tunnels)| - 1
      ensures draining == old(draining) + {old(tunnels)[victim].generation}
      ensures pools == NotRiding(old(pools), {old(tunnels)[victim].generation})
    {
      OldestExists(tunnels, tunnels.Keys);
      victim :| IsOldest(tunnels, tunnels.Keys, victim);
      OneLess(tunnels, victim);
      Retire(victim);
    }

    /** Retires least recently used tunnels until one more fits. */
    method MakeRoom() returns (ghost victims: set<TunnelKey>)
      modifies this`tunnels, this`draining, this`pools
      ensures Roomed(old(Now()), victims, Now())
      ensures |tunnels| < MAX_TUNNELS && (victims != {} ==> |tunnels| == MAX_TUNNELS - 1)
    {
      hide Roomed;
      victims := {};
      RoomedNone(Now());
      while |tunnels| >= MAX_TUNNELS
        invariant Roomed(old(Now()), victims, Now())
        invariant victims != {} ==> |tunnels| >= MAX_TUNNELS - 1
        decreases |tunnels|
      {
        ghost var s := Now();
        var victim := RetireOldest();
        RoomedMore(old(Now()), victims, s, victim, Now());
        victims := victims + {victim};
      }
    }

    /** Retires what no longer fits the identity `key` and what is dead. */
    method Sweep(key: TunnelKey)
      modifies this`tunnels, this`draining, this`pools
      ensures var s := old(Now()); var gone := Stale(s, key) + Dead(s, key);
              Now() == s.(tunnels := s.tunnels - gone,
                          draining := s.draining + GenerationsOf(s.tunnels, gone),
                          pools := NotRiding(s.pools, GenerationsOf(s.tunnels, gone)))
    {
      hide GenerationsOf, NotRiding;
      ghost var s := Now();
      var stale := set k | k in tunnels && k.connection == key.connection && k != key;
      RetireAll(stale);
      var dead := set k | k in tunnels && tunnels[k].generation in closed;
      RetireAll(dead);
      assert stale == Stale(s, key) && dead == Dead(s, key);
      GenerationsOfBoth(s.tunnels, stale, dead);
      NotRidingTwice(s.pools, GenerationsOf(s.tunnels, stale), GenerationsOf(s.tunnels, dead));
      assert tunnels == s.tunnels - (stale + dead);
    }

    method Publish(key: TunnelKey, generation: nat, now: nat) returns (ghost victims: set<TunnelKey>)
      modifies this
      ensures Published(old(Now()), key, generation, now, victims, Now())
    {
      hide GenerationsOf, NotRiding, NoneYounger, Stale, Dead, Published;
      ghost var s := Now();
      Sweep(key);
      ghost var swept := Now();
      victims := MakeRoom();
      ghost var roomed := Now();
      tunnels := tunnels[key := Tunnel(generation, now)];
      SweepThenRoom(s, key, generation, now, swept, victims, roomed, Now());
    }

    method FindPool(key: PoolKey, credential: string) returns (pool: Option<Pool>)
      ensures pool == PoolFound(Now(), key, credential)
    {
      if key in pools {
        if pools[key].credential == credential {
          return Some(pools[key].pool);
        }
      }
      return None;
    }

    method PublishPool(candidate: Pool) returns (r: PoolResult)
      modifies this
      ensures (Now(), r) == PoolPublished(old(Now()), candidate)
    {
      var key := candidate.key;
      if key in pools {
        if pools[key].credential == candidate.credential {
          return Got(pools[key].pool);
        }
        pools := pools - {key};
      }
      assert pools == old(pools) - {key};
      if |pools| >= MAX_POOLS {
        return CacheFull(|pools|);
      }
      pools := pools[key := PoolEntry(candidate, candidate.credential, key.tunnel)];
      return Got(candidate);
    }
  }

  lemma GenerationsOfMore(tunnels: map<TunnelKey, Tunnel>, keys: set<TunnelKey>, k: TunnelKey)
    requires k in tunnels
    ensures GenerationsOf(tunnels, keys + {k}) == GenerationsOf(tunnels, keys) + {tunnels[k].generation}
  {
  }

  lemma RoomedNone(s: State)
    ensures Roomed(s, {}, s)
  {
    NotRidingNone(s.pools);
    GenerationsOfNone(s.tunnels);
    assert s.tunnels - {} == s.tunnels;
  }

  lemma RoomedMore(s: State, victims: set<TunnelKey>, t: State, victim: TunnelKey, t': State)
    requires Roomed(s, victims, t) && victim in t.tunnels
    requires forall k :: k in t.tunnels ==> t.tunnels[victim].lastUsed <= t.tunnels[k].lastUsed
    requires t' == t.(tunnels := t.tunnels - {victim},
                      draining := t.draining + {t.tunnels[victim].generation},
                      pools := NotRiding(t.pools, {t.tunnels[victim].generation}))
    ensures Roomed(s, victims + {victim}, t')
  {
    hide GenerationsOf, NotRiding, NoneYounger;
    var g := s.tunnels[victim].generation;
    GenerationsOfMore(s.tunnels, victims, victim);
    NotRidingTwice(s.pools, GenerationsOf(s.tunnels, victims), {g});
    NoneYoungerMore(s.tunnels, victims, victim);
    MinusMore(s.tunnels, victims, victim);
  }

  /** The two goes of `Publish` together are what `Published` says. */
  lemma SweepThenRoom(s: State, key: TunnelKey, generation: nat, now: nat, swept: State, victims: set<TunnelKey>,
                      roomed: State, s': State)
    requires var gone := Stale(s, key) + Dead(s, key);
             swept == s.(tunnels := s.tunnels - gone,
                         draining := s.draining + GenerationsOf(s.tunnels, gone),
                         pools := NotRiding(s.pools, GenerationsOf(s.tunnels, gone)))
    requires Roomed(swept, victims, roomed)
    requires |roomed.tunnels| < MAX_TUNNELS && (victims != {} ==> |roomed.tunnels| == MAX_TUNNELS - 1)
    requires s' == roomed.(tunnels := roomed.tunnels[key := Tunnel(generation, now)])
    ensures Published(s, key, generation, now, victims, s')
  {
    hide GenerationsOf, NotRiding, NoneYounger, Stale, Dead;
    var gone := Stale(s, key) + Dead(s, key);
    GenerationsOfBoth(s.tunnels, gone, victims);
    NotRidingTwice(s.pools, GenerationsOf(s.tunnels, gone), GenerationsOf(s.tunnels, victims));
    assert s'.draining == s.draining + GenerationsOf(s.tunnels, gone + victims);
    assert roomed.tunnels == s.tunnels - gone - victims;
  }

  lemma GenerationsOfNone(tunnels: map<TunnelKey, Tunnel>)
    ensures GenerationsOf(tunnels, {}) == {}
  {
  }

  /** Collecting in two goes, the second from what the first has left. */
  lemma GenerationsOfBoth(tunnels: map<TunnelKey, Tunnel>, a: set<TunnelKey>, b: set<TunnelKey>)
    requires a !! b
    ensures GenerationsOf(tunnels - a, b) == GenerationsOf(tunnels, b)
    ensures GenerationsOf(tunnels, a + b) == GenerationsOf(tunnels, a) + GenerationsOf(tunnels, b)
  {
  }

  lemma NoneYoungerNone(tunnels: map<TunnelKey, Tunnel>)
    ensures NoneYounger(tunnels, {})
  {
  }

  lemma NoneYoungerMore(tunnels: map<TunnelKey, Tunnel>, victims: set<TunnelKey>, victim: TunnelKey)
    requires NoneYounger(tunnels, victims) && victim in tunnels - victims
    requires forall k :: k in tunnels - victims ==>
               (tunnels - victims)[victim].lastUsed <= (tunnels - victims)[k].lastUsed
    ensures NoneYounger(tunnels, victims + {victim})
  {
    forall v, k | v in victims + {victim} && v in tunnels && k in tunnels && k !in victims + {victim}
      ensures tunnels[v].lastUsed <= tunnels[k].lastUsed
    {
      assert k in tunnels - victims;
    }
  }

  lemma OneLess<K, V>(m: map<K, V>, k: K)
    requires k in m
    ensures |m - {k}| == |m| - 1
  {
    assert m.Keys == (m - {k}).Keys + {k};
  }

  lemma ManyLess<K, V>(m: map<K, V>, gone: set<K>)
    requires gone <= m.Keys
    ensures |m - gone| == |m| - |gone|
  {
    assert m.Keys == (m - gone).Keys + gone && (m - gone).Keys !! gone;
  }

  lemma MinusMore<K, V>(m: map<K, V>, gone: set<K>, k: K)
    ensures m - gone - {k} == m - (gone + {k})
  {
  }

  lemma NotRidingTwice(pools: map<PoolKey, PoolEntry>, a: set<nat>, b: set<nat>)
    ensures NotRiding(NotRiding(pools, a), b) == NotRiding(pools, a + b)
  {
  }

  lemma NotRidingNone(pools: map<PoolKey, PoolEntry>)
    ensures NotRiding(pools, {}) == pools
  {
  }

  predicate IsOldest(tunnels: map<TunnelKey, Tunnel>, keys: set<TunnelKey>, v: TunnelKey) {
    v in keys && v in tunnels && forall k :: k in keys && k in tunnels ==> tunnels[v].lastUsed <= tunnels[k].lastUsed
  }

  lemma {:induction false} OldestExists(tunnels: map<TunnelKey, Tunnel>, keys: set<TunnelKey>)
    requires keys != {} && keys <= tunnels.Keys
    ensures exists v :: IsOldest(tunnels, keys, v)
    decreases |keys|
  {
    var x :| x in keys;
    if keys == {x} {
      assert IsOldest(tunnels, keys, x);
    } else {
      OldestExists(tunnels, keys - {x});
      var v :| IsOldest(tunnels, keys - {x}, v);
      assert IsOldest(tunnels, keys, if tunnels[x].lastUsed <= tunnels[v].lastUsed then x else v);
    }
  }

  function Start(): State {
    State(map[], 1, {}, {}, map[])
  }

  // ----- All interleavings -----

  /** A caller that publishes its tunnel and holds the tunnel lock meanwhile. */
  datatype Holder = Holder(key: TunnelKey, generation: nat, now: nat)

  /** The caches, the generations handed out to sessions that are still being set up, the holder of the tunnel lock
      and the retired generation whose pools it has yet to evict. */
  datatype Sys = Sys(s: State, inHand: set<nat>, holder: Option<Holder>, evicting: Option<nat>)

  function Begin(): Sys {
    Sys(Start(), {}, None, None)
  }

  /** One lock section, with what went in and what came out. Publishing a tunnel is `Enter`, then any number of
      `Retire` and `Evict` in turn, then `Insert`; only sections of the pool lock fall in between. */
  datatype Label =
    | Lease(key: TunnelKey, now: nat, leased: Option<nat>)
    | Assign(generation: nat)
    | Enter(key: TunnelKey, generation: nat, now: nat)
    | Retire(key: TunnelKey)
    | Evict(generation: nat)
    | Insert
    | Abandon(generation: nat)
    | SessionCloses(generation: nat)
    | FindPool(poolKey: PoolKey, credential: string, pool: Option<Pool>)
    | BuildFails(poolKey: PoolKey, credential: string)
    | PublishPool(candidate: Pool, result: PoolResult)

  /** The publisher of `key` retires `k`: first what is stale, then what is dead, then the least recently used if
      there is no room. */
  predicate MayRetire(s: State, key: TunnelKey, k: TunnelKey) {
    && k in s.tunnels
    && (k in Stale(s, key)
        || (Stale(s, key) == {}
            && (s.tunnels[k].generation in s.closed
                || (|s.tunnels| >= MAX_TUNNELS && IsOldest(s.tunnels, s.tunnels.Keys, k)))))
  }

  predicate MayInsert(s: State, key: TunnelKey) {
    Stale(s, key) == {} && |s.tunnels| < MAX_TUNNELS
  }

  /** The sections of the tunnel lock, and what needs no lock. */
  ghost predicate TunnelNext(a: Sys, l: Label, b: Sys) {
    match l
    case Lease(key, now, generation) =>
      && a.holder.None? && b == a.(s := Touched(a.s, key, now))
      && generation == (if Live(a.s, key) then Some(a.s.tunnels[key].generation) else None)
    case Assign(g) =>
      g == a.s.nextGeneration && b == a.(s := a.s.(nextGeneration := g + 1), inHand := a.inHand + {g})
    case Enter(key, g, now) =>
      a.holder.None? && g in a.inHand && b == a.(inHand := a.inHand - {g}, holder := Some(Holder(key, g, now)))
    case Retire(k) =>
      && a.holder.Some? && a.evicting.None? && MayRetire(a.s, a.holder.value.key, k)
      && var g := a.s.tunnels[k].generation;
         b == a.(s := a.s.(tunnels := a.s.tunnels - {k}, draining := a.s.draining + {g}), evicting := Some(g))
    case Insert =>
      && a.holder.Some? && a.evicting.None? && MayInsert(a.s, a.holder.value.key)
      && var h := a.holder.value;
         b == a.(s := a.s.(tunnels := a.s.tunnels[h.key := Tunnel(h.generation, h.now)]), holder := None)
    case Abandon(g) => b == a.(inHand := a.inHand - {g})
    case SessionCloses(g) => b == a.(s := a.s.(closed := a.s.closed + {g}))
    case _ => false
  }

  /** The sections of the pool lock. */
  ghost predicate PoolNext(a: Sys, l: Label, b: Sys) {
    match l
    case Evict(g) =>
      a.evicting == Some(g) && b == a.(s := a.s.(pools := NotRiding(a.s.pools, {g})), evicting := None)
    case FindPool(key, credential, pool) => b == a && pool == PoolFound(a.s, key, credential)
    case BuildFails(_, _) => b == a
    case PublishPool(candidate, result) =>
      (b.s, result) == PoolPublished(a.s, candidate) && b == a.(s := b.s)
    case _ => false
  }

  ghost predicate Next(a: Sys, l: Label, b: Sys) {
    TunnelNext(a, l, b) || PoolNext(a, l, b)
  }

  /** Steps one after the other. */
  ghost predicate Path(states: seq<Sys>, labels: seq<Label>) {
    |states| == |labels| + 1 && forall i :: 0 <= i < |labels| ==> NextAt(states, labels, i)
  }

  ghost predicate IsRun(states: seq<Sys>, labels: seq<Label>) {
    Path(states, labels) && states[0] == Begin()
  }

  ghost predicate NextAt(states: seq<Sys>, labels: seq<Label>, i: nat)
    requires |states| == |labels| + 1 && i < |labels|
  {
    Next(states[i], labels[i], states[i + 1])
  }

  predicate InMap(s: State, g: nat) {
    exists k :: k in s.tunnels && s.tunnels[k].generation == g
  }

  /** Handed out and not published yet. */
  predicate Waiting(a: Sys, g: nat) {
    g in a.inHand || (a.holder.Some? && a.holder.value.generation == g)
  }

  ghost predicate TunnelsInv(a: Sys) {
    && (forall k :: k in a.s.tunnels ==>
          var g := a.s.tunnels[k].generation;
          g < a.s.nextGeneration && g !in a.s.draining && !Waiting(a, g))
    && (forall j, k :: j in a.s.tunnels && k in a.s.tunnels && j != k ==>
          a.s.tunnels[j].generation != a.s.tunnels[k].generation)
    && (forall g :: g in a.inHand ==> g < a.s.nextGeneration && g !in a.s.draining)
    && (a.holder.Some? ==>
          var g := a.holder.value.generation;
          g < a.s.nextGeneration && g !in a.s.draining && g !in a.inHand)
    && (forall g :: g in a.s.draining ==> g < a.s.nextGeneration)
    && (a.evicting.Some? ==> a.evicting.value in a.s.draining)
    && |a.s.tunnels| <= MAX_TUNNELS
  }

  ghost predicate PoolsInv(a: Sys) {
    && (forall k :: k in a.s.pools ==>
          && a.s.pools[k].pool.key == k
          && a.s.pools[k].pool.credential == a.s.pools[k].credential
          && a.s.pools[k].tunnel == k.tunnel)
    && |a.s.pools| <= MAX_POOLS
  }

  lemma AddOne<K, V>(m: map<K, V>, k: K, v: V)
    ensures |m[k := v]| <= |m| + 1 && (k in m ==> |m[k := v]| == |m|)
  {
    assert m[k := v].Keys == m.Keys + {k};
  }

  lemma TouchedKeepsTunnels(a: Sys, key: TunnelKey, now: nat)
    requires TunnelsInv(a)
    ensures TunnelsInv(a.(s := Touched(a.s, key, now)))
    ensures Touched(a.s, key, now).draining == a.s.draining
    ensures Touched(a.s, key, now).nextGeneration == a.s.nextGeneration
  {
    if Live(a.s, key) { AddOne(a.s.tunnels, key, Tunnel(a.s.tunnels[key].generation, now)); }
  }

  lemma RetireKeepsTunnels(a: Sys, l: Label, b: Sys)
    requires TunnelsInv(a) && l.Retire? && TunnelNext(a, l, b)
    ensures TunnelsInv(b)
  {
    hide Stale, IsOldest;
    OneLess(a.s.tunnels, l.key);
  }

  lemma InsertKeepsTunnels(a: Sys, l: Label, b: Sys)
    requires TunnelsInv(a) && l.Insert? && TunnelNext(a, l, b)
    ensures TunnelsInv(b)
  {
    hide Stale;
    var h := a.holder.value;
    AddOne(a.s.tunnels, h.key, Tunnel(h.generation, h.now));
    assert Waiting(a, h.generation);
  }

  lemma TunnelNextKeepsTunnels(a: Sys, l: Label, b: Sys)
    requires TunnelsInv(a) && TunnelNext(a, l, b)
    ensures TunnelsInv(b) && a.s.draining <= b.s.draining && a.s.nextGeneration <= b.s.nextGeneration
    ensures b.s.pools == a.s.pools
  {
    hide Touched, MayRetire, MayInsert;
    match l {
      case Lease(key, now, _) =>
        TouchedKeepsTunnels(a, key, now);
        TouchedKeepsPools(a.s, key, now);
      case Retire(_) =>
        RetireKeepsTunnels(a, l, b);
      case Insert =>
        InsertKeepsTunnels(a, l, b);
      case _ =>
    }
  }

  lemma TouchedKeepsPools(s: State, key: TunnelKey, now: nat)
    ensures Touched(s, key, now).pools == s.pools
  {
  }

  lemma PoolNextKeepsTunnels(a: Sys, l: Label, b: Sys)
    requires PoolNext(a, l, b)
    ensures b.s == a.s.(pools := b.s.pools) && b.inHand == a.inHand && b.holder == a.holder
    ensures b.evicting == a.evicting || b.evicting.None?
    ensures TunnelsInv(a) ==> TunnelsInv(b)
  {
    PoolNextFrame(a, l, b);
    hide PoolNext;
    if TunnelsInv(a) {
      SameTunnels(a, b);
    }
  }

  lemma PoolNextFrame(a: Sys, l: Label, b: Sys)
    requires PoolNext(a, l, b)
    ensures b.s == a.s.(pools := b.s.pools) && b.inHand == a.inHand && b.holder == a.holder
    ensures b.evicting == a.evicting || b.evicting.None?
  {
    hide NotRiding, PoolFound;
  }

  lemma SameTunnels(a: Sys, b: Sys)
    requires TunnelsInv(a)
    requires b.s == a.s.(pools := b.s.pools) && b.inHand == a.inHand && b.holder == a.holder
    requires b.evicting == a.evicting || b.evicting.None?
    ensures TunnelsInv(b)
  {
    assert forall g :: Waiting(b, g) ==> Waiting(a, g);
  }

  lemma NextKeepsTunnels(a: Sys, l: Label, b: Sys)
    requires TunnelsInv(a) && Next(a, l, b)
    ensures TunnelsInv(b) && a.s.draining <= b.s.draining && a.s.nextGeneration <= b.s.nextGeneration
  {
    hide TunnelNext, PoolNext, TunnelsInv;
    if TunnelNext(a, l, b) {
      TunnelNextKeepsTunnels(a, l, b);
    } else {
      PoolNextKeepsTunnels(a, l, b);
    }
  }

  lemma NotRidingIsLess(pools: map<PoolKey, PoolEntry>, generations: set<nat>)
    ensures |NotRiding(pools, generations)| <= |pools|
  {
    var gone := pools.Keys - NotRiding(pools, generations).Keys;
    ManyLess(pools, gone);
    assert pools - gone == NotRiding(pools, generations);
  }

  lemma PoolNextKeepsPools(a: Sys, l: Label, b: Sys)
    requires PoolsInv(a) && PoolNext(a, l, b)
    ensures PoolsInv(b)
  {
    match l {
      case Evict(g) =>
        NotRidingIsLess(a.s.pools, {g});
      case PublishPool(candidate, _) =>
        var rest := a.s.pools - {candidate.key};
        if candidate.key in a.s.pools { OneLess(a.s.pools, candidate.key); }
        assert candidate.key !in a.s.pools ==> rest == a.s.pools;
        AddOne(rest, candidate.key, PoolEntry(candidate, candidate.credential, candidate.key.tunnel));
      case _ =>
    }
  }

  lemma NextKeepsPools(a: Sys, l: Label, b: Sys)
    requires TunnelsInv(a) && PoolsInv(a) && Next(a, l, b)
    ensures PoolsInv(b)
  {
    hide TunnelNext, PoolNext, TunnelsInv;
    if TunnelNext(a, l, b) {
      TunnelNextKeepsTunnels(a, l, b);
    } else {
      PoolNextKeepsPools(a, l, b);
    }
  }

  lemma RunStarts(states: seq<Sys>, labels: seq<Label>)
    requires IsRun(states, labels)
    ensures |states| == |labels| + 1 && states[0] == Begin() && TunnelsInv(states[0]) && PoolsInv(states[0])
  {
  }

  lemma RunStep(states: seq<Sys>, labels: seq<Label>, i: nat)
    requires IsRun(states, labels) && i + 1 < |states|
    ensures i < |labels| && Next(states[i], labels[i], states[i + 1])
  {
    assert NextAt(states, labels, i);
  }

  lemma {:induction false} RunKeepsInv(states: seq<Sys>, labels: seq<Label>, i: nat)
    requires IsRun(states, labels) && i < |states|
    ensures TunnelsInv(states[i]) && PoolsInv(states[i])
  {
    hide *;
    if i == 0 {
      RunStarts(states, labels);
    } else {
      RunStep(states, labels, i - 1);
      RunKeepsInv(states, labels, i - 1);
      NextKeepsTunnels(states[i - 1], labels[i - 1], states[i]);
      NextKeepsPools(states[i - 1], labels[i - 1], states[i]);
    }
  }

  lemma {:induction false} NothingGoesBack(states: seq<Sys>, labels: seq<Label>, i: nat, j: nat)
    requires IsRun(states, labels) && i <= j < |states|
    ensures states[i].s.draining <= states[j].s.draining
    ensures states[i].s.nextGeneration <= states[j].s.nextGeneration
    decreases j
  {
    hide *;
    if i < j {
      RunStep(states, labels, j - 1);
      RunKeepsInv(states, labels, j - 1);
      NothingGoesBack(states, labels, i, j - 1);
      NextKeepsTunnels(states[j - 1], labels[j - 1], states[j]);
    }
  }

  /** The caches never outgrow their bounds. */
  lemma CachesStayBounded(states: seq<Sys>, labels: seq<Label>, i: nat)
    requires IsRun(states, labels) && i < |states|
    ensures |states[i].s.tunnels| <= 8 && |states[i].s.pools| <= 16
  {
    RunKeepsInv(states, labels, i);
  }

  /** Generations are assigned in strictly increasing order, whoever asks. */
  lemma GenerationsIncrease(states: seq<Sys>, labels: seq<Label>, i: nat, j: nat)
    requires IsRun(states, labels) && i < j < |labels| && labels[i].Assign? && labels[j].Assign?
    ensures labels[i].generation < labels[j].generation
  {
    NothingGoesBack(states, labels, i + 1, j);
    RunStep(states, labels, i);
    RunStep(states, labels, j);
  }

  lemma DrainedStaysOut(a: Sys, l: Label, b: Sys, g: nat)
    requires TunnelsInv(a) && Next(a, l, b) && g in a.s.draining
    ensures l.Lease? ==> l.leased != Some(g)
    ensures l.Enter? ==> l.generation != g
    ensures !InMap(a.s, g) && !Waiting(a, g)
  {
    hide MayRetire, MayInsert, Touched, PoolPublished, PoolFound, NotRiding;
    assert l.Enter? ==> Waiting(a, l.generation);
  }

  /** Once retired, a generation is never leased, never published and never in the map again. */
  lemma RetiredIsNeverLeased(states: seq<Sys>, labels: seq<Label>, i: nat, j: nat, g: nat)
    requires IsRun(states, labels) && i <= j < |labels| && g in states[i].s.draining
    ensures labels[j].Lease? ==> labels[j].leased != Some(g)
    ensures labels[j].Enter? ==> labels[j].generation != g
    ensures !InMap(states[j].s, g) && !Waiting(states[j], g)
  {
    hide *;
    RunStarts(states, labels);
    NothingGoesBack(states, labels, i, j);
    RunKeepsInv(states, labels, j);
    RunStep(states, labels, j);
    DrainedStaysOut(states[j], labels[j], states[j + 1], g);
  }

  lemma PoolIsOwn(a: Sys, l: Label, b: Sys)
    requires PoolsInv(a) && Next(a, l, b)
    ensures l.FindPool? && l.pool.Some? ==> l.pool.value.key == l.poolKey && l.pool.value.credential == l.credential
    ensures l.PublishPool? && l.result.Got? ==>
              l.result.pool.key == l.candidate.key && l.result.pool.credential == l.candidate.credential
  {
    hide MayRetire, MayInsert, Touched, Live;
  }

  /** Every pool handed out, from the cache or fresh, was opened for exactly the caller's own
      configuration, tunnel generation and credential. */
  lemma PoolIsTheCallersOwn(states: seq<Sys>, labels: seq<Label>, i: nat)
    requires IsRun(states, labels) && i < |labels|
    ensures var l := labels[i];
            && (l.FindPool? && l.pool.Some? ==>
                  l.pool.value.key == l.poolKey && l.pool.value.credential == l.credential)
            && (l.PublishPool? && l.result.Got? ==>
                  l.result.pool.key == l.candidate.key && l.result.pool.credential == l.candidate.credential)
  {
    hide *;
    RunStarts(states, labels);
    RunKeepsInv(states, labels, i);
    RunStep(states, labels, i);
    PoolIsOwn(states[i], labels[i], states[i + 1]);
  }

  /** In every run: a caller that publishes a pool gets the one cached for its configuration and credential if there is
      one, and then nothing changes; is refused exactly when there is none and sixteen other pools are cached; and
      otherwise its own pool is cached. Pools of other configurations stay. */
  lemma OnePoolIsShared(states: seq<Sys>, labels: seq<Label>, i: nat)
    requires IsRun(states, labels) && i < |labels| && labels[i].PublishPool?
    ensures i + 1 < |states|
    ensures var before, after := states[i].s.pools, states[i + 1].s.pools;
            var mine, r := labels[i].candidate, labels[i].result;
            var shared := mine.key in before && before[mine.key].credential == mine.credential;
            && (shared ==> r == Got(before[mine.key].pool) && after == before)
            && (r.CacheFull? <==> !shared && |before - {mine.key}| == 16)
            && (r.CacheFull? ==> r.n == 16)
            && (!shared && r.Got? ==> r.pool == mine && mine.key in after && after[mine.key].pool == mine)
            && (forall k :: k != mine.key ==> (k in after <==> k in before) && (k in after ==> after[k] == before[k]))
  {
    RunStep(states, labels, i);
    RunKeepsInv(states, labels, i);
    IsPoolStep(states[i], labels[i], states[i + 1]);
    hide *;
    PublishShares(states[i], labels[i], states[i + 1]);
  }

  lemma IsPoolStep(a: Sys, l: Label, b: Sys)
    requires Next(a, l, b) && PoolsInv(a) && l.PublishPool?
    ensures PoolNext(a, l, b) && |a.s.pools| <= 16
  {
  }

  lemma PublishShares(a: Sys, l: Label, b: Sys)
    requires PoolNext(a, l, b) && l.PublishPool? && |a.s.pools| <= 16
    ensures var before, after, mine, r := a.s.pools, b.s.pools, l.candidate, l.result;
            var shared := mine.key in before && before[mine.key].credential == mine.credential;
            && (shared ==> r == Got(before[mine.key].pool) && after == before)
            && (r.CacheFull? <==> !shared && |before - {mine.key}| == 16)
            && (r.CacheFull? ==> r.n == 16)
            && (!shared && r.Got? ==> r.pool == mine && mine.key in after && after[mine.key].pool == mine)
            && (forall k :: k != mine.key ==> (k in after <==> k in before) && (k in after ==> after[k] == before[k]))
  {
    var pools, key := a.s.pools, l.candidate.key;
    if key in pools {
      OneLess(pools, key);
    } else {
      assert pools - {key} == pools;
    }
  }

  /** In every run a lookup finds a pool exactly when one is cached for the configuration and the credential. */
  lemma PoolIsFoundIff(states: seq<Sys>, labels: seq<Label>, i: nat)
    requires IsRun(states, labels) && i < |labels| && labels[i].FindPool?
    ensures i < |states|
    ensures var pools, key, found := states[i].s.pools, labels[i].poolKey, labels[i].pool;
            && (found.Some? <==> key in pools && pools[key].credential == labels[i].credential)
            && (found.Some? ==> found.value == pools[key].pool && found.value.key == key
                                && found.value.credential == labels[i].credential)
  {
    RunStep(states, labels, i);
    RunKeepsInv(states, labels, i);
    hide IsRun;
  }

  // ----- Uses of a tunnel -----

  /** What the last publisher entered with. */
  function LastEntry(labels: seq<Label>): Option<(TunnelKey, nat)> {
    if labels == [] then None
    else
      match labels[|labels| - 1]
      case Enter(key, _, now) => Some((key, now))
      case _ => LastEntry(labels[..|labels| - 1])
  }

  /** When the tunnel of `key` was last leased out or published. */
  function LastUse(labels: seq<Label>, key: TunnelKey): Option<nat> {
    if labels == [] then None
    else
      var before := labels[..|labels| - 1];
      match labels[|labels| - 1]
      case Lease(k, now, leased) => if k == key && leased.Some? then Some(now) else LastUse(before, key)
      case Insert =>
        var entry := LastEntry(before);
        if entry.Some? && entry.value.0 == key then Some(entry.value.1) else LastUse(before, key)
      case _ => LastUse(before, key)
  }

  /** The cache agrees with the history about uses. */
  ghost predicate UsesAgree(a: Sys, labels: seq<Label>) {
    && (a.holder.Some? ==> LastEntry(labels) == Some((a.holder.value.key, a.holder.value.now)))
    && (forall k :: k in a.s.tunnels ==> LastUse(labels, k) == Some(a.s.tunnels[k].lastUsed))
  }

  lemma PoolLabels(a: Sys, l: Label, b: Sys)
    requires PoolNext(a, l, b)
    ensures !l.Lease? && !l.Enter? && !l.Insert? && !l.SessionCloses?
  {
  }

  lemma UsesStep(a: Sys, l: Label, b: Sys, labels: seq<Label>)
    requires Next(a, l, b) && UsesAgree(a, labels)
    ensures UsesAgree(b, labels + [l])
  {
    assert (labels + [l])[..|labels + [l]| - 1] == labels;
    hide MayRetire, MayInsert, PoolNext;
    if PoolNext(a, l, b) {
      PoolNextFrame(a, l, b);
      PoolLabels(a, l, b);
    }
  }

  lemma {:induction false} UsesAlwaysAgree(states: seq<Sys>, labels: seq<Label>, i: nat)
    requires IsRun(states, labels) && i < |states|
    ensures UsesAgree(states[i], labels[..i])
  {
    if i == 0 {
      RunStarts(states, labels);
    } else {
      hide IsRun, Next, UsesAgree;
      RunStarts(states, labels);
      RunStep(states, labels, i - 1);
      UsesAlwaysAgree(states, labels, i - 1);
      UsesStep(states[i - 1], labels[i - 1], states[i], labels[..i - 1]);
      assert labels[..i] == labels[..i - 1] + [labels[i - 1]];
    }
  }

  /** A tunnel that is alive and no stale one of the connection is retired only when the cache is full, and then no
      other tunnel in it was leased out or published longer ago. */
  lemma OnlyTheLongestUnusedGoes(states: seq<Sys>, labels: seq<Label>, i: nat)
    requires IsRun(states, labels) && i < |labels| && labels[i].Retire?
    requires var a, k := states[i], labels[i].key;
             && a.holder.Some? && k in a.s.tunnels && a.s.tunnels[k].generation !in a.s.closed
             && !(k.connection == a.holder.value.key.connection && k != a.holder.value.key)
    ensures var a, k := states[i], labels[i].key;
            && |a.s.tunnels| >= 8
            && LastUse(labels[..i], k).Some?
            && (forall other :: other in a.s.tunnels ==>
                  LastUse(labels[..i], other).Some?
                  && LastUse(labels[..i], k).value <= LastUse(labels[..i], other).value)
  {
    hide LastUse;
    RunStep(states, labels, i);
    UsesAlwaysAgree(states, labels, i);
  }

  lemma {:induction false} ClosedStaysClosed(states: seq<Sys>, labels: seq<Label>, i: nat, j: nat)
    requires IsRun(states, labels) && i <= j < |states|
    ensures states[i].s.closed <= states[j].s.closed
    decreases j
  {
    hide *;
    if i < j {
      RunStep(states, labels, j - 1);
      StepKeepsClosed(states[j - 1], labels[j - 1], states[j]);
      ClosedStaysClosed(states, labels, i, j - 1);
    }
  }

  lemma StepKeepsClosed(a: Sys, l: Label, b: Sys)
    requires Next(a, l, b)
    ensures a.s.closed <= b.s.closed
  {
    hide MayRetire, MayInsert, PoolNext;
    if PoolNext(a, l, b) {
      PoolNextFrame(a, l, b);
    }
  }

  /** Once its session has closed, a tunnel is never leased again. */
  lemma ClosedIsNeverLeased(states: seq<Sys>, labels: seq<Label>, i: nat, j: nat)
    requires IsRun(states, labels) && i < j < |labels| && labels[i].SessionCloses? && labels[j].Lease?
    ensures labels[j].leased != Some(labels[i].generation)
  {
    RunStep(states, labels, i);
    ClosedStaysClosed(states, labels, i + 1, j);
    RunStep(states, labels, j);
    hide IsRun;
    assert labels[i].generation in states[i + 1].s.closed;
  }

  lemma {:induction false} ClosedAreThoseThatClosed(states: seq<Sys>, labels: seq<Label>, i: nat, g: nat)
    requires IsRun(states, labels) && i < |states|
    ensures g in states[i].s.closed <==> i <= |labels| && SessionCloses(g) in labels[..i]
  {
    hide *;
    RunStarts(states, labels);
    if i == 0 {
      NothingClosedYet();
    } else {
      RunStep(states, labels, i - 1);
      ClosedAreThoseThatClosed(states, labels, i - 1, g);
      StepCloses(states[i - 1], labels[i - 1], states[i], g);
      assert labels[..i] == labels[..i - 1] + [labels[i - 1]];
    }
  }

  lemma NothingClosedYet()
    ensures Begin().s.closed == {}
  {
  }

  lemma StepCloses(a: Sys, l: Label, b: Sys, g: nat)
    requires Next(a, l, b)
    ensures g in b.s.closed <==> g in a.s.closed || l == SessionCloses(g)
  {
    hide MayRetire, MayInsert, PoolNext;
    if PoolNext(a, l, b) {
      PoolNextFrame(a, l, b);
      PoolLabels(a, l, b);
    }
  }

  /** A lookup is answered with a tunnel exactly when one is cached for its identity whose session has not closed, and
      then with that one. */
  lemma LeaseSucceedsIff(states: seq<Sys>, labels: seq<Label>, i: nat)
    requires IsRun(states, labels) && i < |labels| && labels[i].Lease?
    ensures i < |states|
    ensures var tunnels, key, leased := states[i].s.tunnels, labels[i].key, labels[i].leased;
            && (leased.Some? <==> key in tunnels && SessionCloses(tunnels[key].generation) !in labels[..i])
            && (leased.Some? ==> key in tunnels && leased.value == tunnels[key].generation)
  {
    RunStep(states, labels, i);
    RunKeepsInv(states, labels, i);
    var a := states[i];
    if labels[i].key in a.s.tunnels {
      ClosedAreThoseThatClosed(states, labels, i, a.s.tunnels[labels[i].key].generation);
    }
    hide IsRun;
  }

  // ----- Pools on retired tunnels -----

  predicate RidesRetired(a: Sys, k: PoolKey) {
    k in a.s.pools && k.tunnel.Some? && k.tunnel.value in a.s.draining
  }

  /** How a pool comes to ride a retired tunnel: it did before and is not being evicted, its tunnel is being retired
      and its eviction is pending, or it is published late. */
  lemma LateOrPending(a: Sys, l: Label, b: Sys, k: PoolKey)
    requires PoolsInv(a) && PoolsInv(b) && Next(a, l, b) && RidesRetired(b, k)
    ensures || b.evicting == k.tunnel
            || (RidesRetired(a, k) && a.evicting != k.tunnel)
            || (l.PublishPool? && l.candidate.key == k && k.tunnel.value in a.s.draining)
  {
    hide MayRetire, MayInsert, Live;
  }

  lemma NothingRides(states: seq<Sys>, labels: seq<Label>, k: PoolKey)
    requires IsRun(states, labels)
    ensures |states| > 0 && !RidesRetired(states[0], k)
  {
  }

  /** A cached pool on a retired generation was published after the retirement, by a caller that still held the old
      lease, or its eviction is pending. */
  lemma {:induction false} RetiredPoolsCameLate(states: seq<Sys>, labels: seq<Label>, i: nat, k: PoolKey)
    returns (j: nat)
    requires IsRun(states, labels) && i < |states| && RidesRetired(states[i], k)
    ensures || states[i].evicting == k.tunnel
            || (j < i && j < |labels| && labels[j].PublishPool? && labels[j].candidate.key == k
                && k.tunnel.Some? && k.tunnel.value in states[j].s.draining)
  {
    hide *;
    j := 0;
    NothingRides(states, labels, k);
    if i > 0 {
      RunStep(states, labels, i - 1);
      var a, l, b := states[i - 1], labels[i - 1], states[i];
      RunKeepsInv(states, labels, i - 1);
      RunKeepsInv(states, labels, i);
      LateOrPending(a, l, b, k);
      if b.evicting != k.tunnel {
        RidingIsRetired(b, k);
        if RidesRetired(a, k) && a.evicting != k.tunnel {
          j := RetiredPoolsCameLate(states, labels, i - 1, k);
        } else {
          j := i - 1;
        }
      }
    }
  }

  lemma RidingIsRetired(a: Sys, k: PoolKey)
    requires RidesRetired(a, k)
    ensures k.tunnel.Some?
  {
  }

  // ----- Tunnels that are overwritten instead of retired -----

  /** A tunnel is inserted over another of the same identity, which leaves the map without being retired. */
  ghost predicate Overwrites(a: Sys, l: Label, g: nat) {
    && l.Insert? && a.holder.Some? && a.holder.value.key in a.s.tunnels
    && a.s.tunnels[a.holder.value.key].generation == g
  }

  lemma RetireLeaves(a: Sys, l: Label, b: Sys, k: TunnelKey)
    requires TunnelsInv(a) && TunnelNext(a, l, b) && l.Retire? && k in a.s.tunnels
    ensures if k == l.key then a.s.tunnels[k].generation in b.s.draining else InMap(b.s, a.s.tunnels[k].generation)
  {
    hide MayRetire;
    if k != l.key {
      assert k in b.s.tunnels && b.s.tunnels[k] == a.s.tunnels[k];
    }
  }

  lemma InsertLeaves(a: Sys, l: Label, b: Sys, k: TunnelKey)
    requires TunnelsInv(a) && TunnelNext(a, l, b) && l.Insert? && k in a.s.tunnels
    ensures b.s.draining == a.s.draining && b.s.pools == a.s.pools
    ensures k != a.holder.value.key ==> InMap(b.s, a.s.tunnels[k].generation)
  {
    hide MayInsert;
    if k != a.holder.value.key {
      assert k in b.s.tunnels && b.s.tunnels[k] == a.s.tunnels[k];
    }
  }

  /** All other steps leave every generation where it is. */
  lemma OthersKeep(a: Sys, l: Label, b: Sys, k: TunnelKey)
    requires Next(a, l, b) && !l.Retire? && !l.Insert? && k in a.s.tunnels
    ensures InMap(b.s, a.s.tunnels[k].generation)
  {
    hide MayRetire, MayInsert, NotRiding, PoolFound;
    assert k in b.s.tunnels && b.s.tunnels[k].generation == a.s.tunnels[k].generation;
  }

  /** A generation that a step takes out of the map is retired, unless it is overwritten; and the pools on an
      overwritten one stay in the cache. */
  lemma LeavesUnretiredIff(a: Sys, l: Label, b: Sys, g: nat)
    requires TunnelsInv(a) && Next(a, l, b) && InMap(a.s, g) && !InMap(b.s, g)
    ensures g in b.s.draining <==> !Overwrites(a, l, g)
    ensures Overwrites(a, l, g) ==> b.s.pools == a.s.pools
  {
    var k :| k in a.s.tunnels && a.s.tunnels[k].generation == g;
    assert l.Retire? || l.Insert? ==> TunnelNext(a, l, b);
    hide TunnelNext, PoolNext;
    if l.Retire? {
      RetireLeaves(a, l, b, k);
    } else if l.Insert? {
      InsertLeaves(a, l, b, k);
      InsertHasHolder(a, l, b);
    } else {
      OthersKeep(a, l, b, k);
    }
  }

  lemma InsertHasHolder(a: Sys, l: Label, b: Sys)
    requires TunnelNext(a, l, b) && l.Insert?
    ensures a.holder.Some?
  {
  }

  /** Overwriting does take the generation out of the map. */
  lemma OverwriteLeaves(a: Sys, l: Label, b: Sys, g: nat)
    requires TunnelsInv(a) && Next(a, l, b) && Overwrites(a, l, g)
    ensures InMap(a.s, g) && !InMap(b.s, g)
  {
    hide MayInsert;
    assert Waiting(a, a.holder.value.generation);
  }

  /** Handed out, and neither in the map nor waiting to be published. */
  ghost predicate Left(a: Sys, g: nat) {
    g < a.s.nextGeneration && !InMap(a.s, g) && !Waiting(a, g)
  }

  lemma RetireStaysLeft(a: Sys, l: Label, b: Sys, g: nat)
    requires TunnelNext(a, l, b) && l.Retire? && Left(a, g)
    ensures Left(b, g) && (g in b.s.draining <==> g in a.s.draining)
  {
    hide Stale, IsOldest;
    assert l.key in a.s.tunnels && a.s.tunnels[l.key].generation != g;
    assert forall k :: k in b.s.tunnels ==> k in a.s.tunnels && b.s.tunnels[k] == a.s.tunnels[k];
  }

  lemma InsertStaysLeft(a: Sys, l: Label, b: Sys, g: nat)
    requires TunnelNext(a, l, b) && l.Insert? && Left(a, g)
    ensures Left(b, g) && (g in b.s.draining <==> g in a.s.draining)
  {
    hide MayInsert;
    var h := a.holder.value;
    assert h.generation != g;
    assert forall k :: k in b.s.tunnels && k != h.key ==> k in a.s.tunnels && b.s.tunnels[k] == a.s.tunnels[k];
  }

  lemma OtherStaysLeft(a: Sys, l: Label, b: Sys, g: nat)
    requires TunnelNext(a, l, b) && !l.Retire? && !l.Insert? && Left(a, g)
    ensures Left(b, g) && (g in b.s.draining <==> g in a.s.draining)
  {
    forall k | k in b.s.tunnels
      ensures k in a.s.tunnels && b.s.tunnels[k].generation == a.s.tunnels[k].generation
    {
    }
    assert !InMap(b.s, g);
  }

  lemma TunnelStepStaysLeft(a: Sys, l: Label, b: Sys, g: nat)
    requires TunnelNext(a, l, b) && Left(a, g)
    ensures Left(b, g) && (g in b.s.draining <==> g in a.s.draining)
  {
    hide TunnelNext, Left;
    if l.Retire? {
      RetireStaysLeft(a, l, b, g);
    } else if l.Insert? {
      InsertStaysLeft(a, l, b, g);
    } else {
      OtherStaysLeft(a, l, b, g);
    }
  }

  lemma StaysLeft(a: Sys, l: Label, b: Sys, g: nat)
    requires TunnelsInv(a) && Next(a, l, b) && Left(a, g)
    ensures Left(b, g) && (g in b.s.draining <==> g in a.s.draining)
  {
    hide TunnelNext, PoolNext, TunnelsInv;
    if TunnelNext(a, l, b) {
      TunnelStepStaysLeft(a, l, b, g);
    } else {
      PoolNextKeepsTunnels(a, l, b);
    }
  }

  lemma {:induction false} LeftForGood(states: seq<Sys>, labels: seq<Label>, i: nat, j: nat, g: nat)
    requires IsRun(states, labels) && i <= j < |states| && Left(states[i], g)
    ensures Left(states[j], g) && (g in states[j].s.draining <==> g in states[i].s.draining)
    decreases j
  {
    hide *;
    if i < j {
      LeftForGood(states, labels, i, j - 1, g);
      RunStep(states, labels, j - 1);
      RunKeepsInv(states, labels, j - 1);
      StaysLeft(states[j - 1], labels[j - 1], states[j], g);
    }
  }

  lemma TunnelStepLeaves(a: Sys, l: Label, b: Sys, g: nat)
    requires TunnelsInv(a) && TunnelNext(a, l, b) && InMap(a.s, g) && !InMap(b.s, g)
    ensures Left(b, g)
  {
    hide MayRetire, MayInsert, Touched;
    var k :| k in a.s.tunnels && a.s.tunnels[k].generation == g;
    assert g < a.s.nextGeneration && !Waiting(a, g);
    TunnelNextKeepsTunnels(a, l, b);
  }

  lemma StepLeaves(a: Sys, l: Label, b: Sys, g: nat)
    requires TunnelsInv(a) && Next(a, l, b) && InMap(a.s, g) && !InMap(b.s, g)
    ensures Left(b, g)
  {
    if TunnelNext(a, l, b) {
      hide TunnelNext, PoolNext, TunnelsInv, InMap;
      TunnelStepLeaves(a, l, b, g);
    } else {
      hide TunnelNext, PoolNext, TunnelsInv;
      PoolNextKeepsTunnels(a, l, b);
    }
  }

  /** The step at which a generation left the map. */
  lemma {:induction false} LeavingStep(states: seq<Sys>, labels: seq<Label>, i: nat, j: nat, g: nat)
    returns (m: nat)
    requires IsRun(states, labels) && i < j < |states| && InMap(states[i].s, g) && !InMap(states[j].s, g)
    ensures i <= m < j && InMap(states[m].s, g) && !InMap(states[m + 1].s, g)
    decreases j
  {
    hide InMap, IsRun;
    if InMap(states[j - 1].s, g) {
      m := j - 1;
    } else {
      m := LeavingStep(states, labels, i, j - 1, g);
    }
  }

  /** A generation that has left the map is not retired, and then never will be, exactly when it was
      overwritten. */
  lemma UnretiredIff(states: seq<Sys>, labels: seq<Label>, i: nat, j: nat, g: nat)
    requires IsRun(states, labels) && i < j < |states| && InMap(states[i].s, g) && !InMap(states[j].s, g)
    ensures g !in states[j].s.draining <==> exists m :: i <= m < j && Overwrites(states[m], labels[m], g)
  {
    hide IsRun, Overwrites, InMap, Next, Left, TunnelsInv, PoolsInv;
    RunStarts(states, labels);
    var m := LeavingStep(states, labels, i, j, g);
    LeftAfter(states, labels, m, j, g);
    RunKeepsInv(states, labels, m);
    RunStep(states, labels, m);
    LeavesUnretiredIff(states[m], labels[m], states[m + 1], g);
    if n :| i <= n < j && Overwrites(states[n], labels[n], g) {
      RunKeepsInv(states, labels, n);
      RunStep(states, labels, n);
      OverwriteLeaves(states[n], labels[n], states[n + 1], g);
      LeavesUnretiredIff(states[n], labels[n], states[n + 1], g);
      LeftAfter(states, labels, n, j, g);
    }
  }

  lemma LeftAfter(states: seq<Sys>, labels: seq<Label>, m: nat, j: nat, g: nat)
    requires IsRun(states, labels) && m < j < |states| && InMap(states[m].s, g) && !InMap(states[m + 1].s, g)
    ensures g in states[j].s.draining <==> g in states[m + 1].s.draining
  {
    hide IsRun, InMap, Next, Left, TunnelsInv, PoolsInv;
    RunStep(states, labels, m);
    RunKeepsInv(states, labels, m);
    StepLeaves(states[m], labels[m], states[m + 1], g);
    LeftForGood(states, labels, m + 1, j, g);
  }

  // ----- A publication that nothing disturbs -----

  /** Steps extended by one that leads from their end `a` on to `b`. */
  lemma Then(states: seq<Sys>, labels: seq<Label>, a: Sys, l: Label, b: Sys)
    returns (states': seq<Sys>, labels': seq<Label>)
    requires Path(states, labels) && states[|states| - 1] == a && Next(a, l, b)
    ensures states' == states + [b] && labels' == labels + [l] && Path(states', labels')
    ensures IsRun(states, labels) ==> IsRun(states', labels')
  {
    hide Next;
    states', labels' := states + [b], labels + [l];
    forall i | 0 <= i < |labels'| ensures NextAt(states', labels', i) {
      if i < |labels| {
        assert NextAt(states, labels, i);
      }
    }
  }

  /** `s` without the tunnels `keys`, which are retired. */
  function Gone(s: State, keys: set<TunnelKey>): State {
    s.(tunnels := s.tunnels - keys,
       draining := s.draining + GenerationsOf(s.tunnels, keys),
       pools := NotRiding(s.pools, GenerationsOf(s.tunnels, keys)))
  }

  lemma GoneMore(s: State, keys: set<TunnelKey>, k: TunnelKey)
    requires k in keys
    ensures Gone(Gone(s, {k}), keys - {k}) == Gone(s, keys)
  {
    hide GenerationsOf, NotRiding;
    var one, more := GenerationsOf(s.tunnels, {k}), GenerationsOf(s.tunnels, keys - {k});
    GenerationsOfBoth(s.tunnels, {k}, keys - {k});
    NotRidingTwice(s.pools, one, more);
    assert {k} + (keys - {k}) == keys;
    assert s.tunnels - {k} - (keys - {k}) == s.tunnels - keys;
    assert s.draining + one + more == s.draining + (one + more);
  }

  lemma GoneNone(s: State)
    ensures Gone(s, {}) == s
  {
    GenerationsOfNone(s.tunnels);
    NotRidingNone(s.pools);
    assert s.tunnels - {} == s.tunnels;
  }

  /** All of `keys` are stale; or nothing is stale and all of them are dead, or the least recently used of a map that
      is full until the last of them has gone. */
  ghost predicate Retirable(s: State, key: TunnelKey, keys: set<TunnelKey>) {
    && keys <= s.tunnels.Keys
    && (|| keys <= Stale(s, key)
        || (&& Stale(s, key) == {}
            && ((forall k :: k in keys ==> s.tunnels[k].generation in s.closed)
                || (NoneYounger(s.tunnels, keys) && |s.tunnels| - |keys| >= MAX_TUNNELS - 1))))
  }

  lemma RetirableOne(s: State, key: TunnelKey, keys: set<TunnelKey>) returns (k: TunnelKey)
    requires Retirable(s, key, keys) && keys != {}
    ensures k in keys && MayRetire(s, key, k)
  {
    hide Stale;
    OldestExists(s.tunnels, keys);
    k :| IsOldest(s.tunnels, keys, k);
    assert |keys| > 0;
  }

  lemma RetirableRest(s: State, key: TunnelKey, keys: set<TunnelKey>, k: TunnelKey)
    requires Retirable(s, key, keys) && k in keys
    ensures Retirable(Gone(s, {k}), key, keys - {k})
  {
    hide GenerationsOf, NotRiding;
    OneLess(s.tunnels, k);
    assert s.tunnels - {k} == Gone(s, {k}).tunnels;
    assert Stale(Gone(s, {k}), key) == Stale(s, key) - {k};
    assert |keys - {k}| == |keys| - 1;
  }

  /** Marking and evicting, one after the other. */
  lemma RetireInTwoSteps(a: Sys, k: TunnelKey) returns (marked: Sys, b: Sys)
    requires a.holder.Some? && a.evicting.None? && MayRetire(a.s, a.holder.value.key, k)
    ensures b == a.(s := Gone(a.s, {k}))
    ensures Next(a, Retire(k), marked) && Next(marked, Evict(a.s.tunnels[k].generation), b)
  {
    var g := a.s.tunnels[k].generation;
    marked := a.(s := a.s.(tunnels := a.s.tunnels - {k}, draining := a.s.draining + {g}), evicting := Some(g));
    b := a.(s := Gone(a.s, {k}));
    assert GenerationsOf(a.s.tunnels, {k}) == {g};
    assert TunnelNext(a, Retire(k), marked) && PoolNext(marked, Evict(g), b);
  }

  lemma {:induction false} RetireThem(states: seq<Sys>, labels: seq<Label>, a: Sys, keys: set<TunnelKey>)
    returns (states': seq<Sys>, labels': seq<Label>)
    requires Path(states, labels) && states[|states| - 1] == a
    requires a.holder.Some? && a.evicting.None? && Retirable(a.s, a.holder.value.key, keys)
    ensures Path(states', labels') && states'[0] == states[0]
    ensures states'[|states'| - 1] == a.(s := Gone(a.s, keys))
    decreases keys
  {
    hide Next, Gone, Path, Retirable, MayRetire;
    PathIsSomewhere(states, labels);
    if keys == {} {
      GoneNone(a.s);
      states', labels' := states, labels;
    } else {
      var k := RetirableOne(a.s, a.holder.value.key, keys);
      var marked, b := RetireInTwoSteps(a, k);
      states', labels' := Then(states, labels, a, Retire(k), marked);
      MayRetireIsThere(a.s, a.holder.value.key, k);
      states', labels' := Then(states', labels', marked, Evict(a.s.tunnels[k].generation), b);
      RetirableRest(a.s, a.holder.value.key, keys, k);
      GoneMore(a.s, keys, k);
      states', labels' := RetireThem(states', labels', b, keys - {k});
    }
  }

  lemma PathIsSomewhere(states: seq<Sys>, labels: seq<Label>)
    requires Path(states, labels)
    ensures |states| > 0
  {
  }

  lemma MayRetireIsThere(s: State, key: TunnelKey, k: TunnelKey)
    requires MayRetire(s, key, k)
    ensures k in s.tunnels
  {
  }

  lemma SweepIsRetirable(s: State, key: TunnelKey)
    ensures Retirable(s, key, Stale(s, key))
    ensures var s1 := Gone(s, Stale(s, key));
            && Retirable(s1, key, Dead(s, key))
            && Stale(Gone(s1, Dead(s, key)), key) == {}
            && Gone(s1, Dead(s, key)) == Gone(s, Stale(s, key) + Dead(s, key))
  {
    var stale, dead := Stale(s, key), Dead(s, key);
    var s1 := Gone(s, stale);
    assert s1.tunnels == s.tunnels - stale && s1.closed == s.closed;
    assert Stale(s1, key) == {};
    assert Gone(s1, dead).tunnels == s.tunnels - stale - dead;
    assert Stale(Gone(s1, dead), key) == {};
    assert forall k :: k in dead ==> k in s1.tunnels && s1.tunnels[k] == s.tunnels[k];
    GoneTwice(s, stale, dead);
  }

  lemma GoneTwice(s: State, a: set<TunnelKey>, b: set<TunnelKey>)
    requires a !! b
    ensures Gone(Gone(s, a), b) == Gone(s, a + b)
  {
    hide GenerationsOf, NotRiding;
    GenerationsOfBoth(s.tunnels, a, b);
    NotRidingTwice(s.pools, GenerationsOf(s.tunnels, a), GenerationsOf(s.tunnels, b));
    assert s.tunnels - a - b == s.tunnels - (a + b);
    assert s.draining + GenerationsOf(s.tunnels, a) + GenerationsOf(s.tunnels, b)
        == s.draining + (GenerationsOf(s.tunnels, a) + GenerationsOf(s.tunnels, b));
  }

  lemma RoomIsRetirable(s: State, key: TunnelKey, g: nat, now: nat, victims: set<TunnelKey>, s': State)
    requires Published(s, key, g, now, victims, s')
    ensures var swept := Gone(s, Stale(s, key) + Dead(s, key));
            && Retirable(swept, key, victims)
            && var roomed := Gone(swept, victims);
               MayInsert(roomed, key) && s' == roomed.(tunnels := roomed.tunnels[key := Tunnel(g, now)])
  {
    SweepIsRetirable(s, key);
    var gone := Stale(s, key) + Dead(s, key);
    var swept := Gone(s, gone);
    assert swept.tunnels == s.tunnels - gone;
    GoneTwice(s, gone, victims);
    hide GenerationsOf, NotRiding, NoneYounger, Dead;
    var roomed := Gone(swept, victims);
    assert roomed.tunnels == swept.tunnels - victims;
    assert Stale(roomed, key) <= Stale(swept, key);
    ManyLess(swept.tunnels, victims);
    assert s.tunnels - gone - victims == roomed.tunnels;
  }

  /** What `Publish` does when nothing comes in between is one of the ways its sections can go. */
  lemma PublishIsAPath(a: Sys, key: TunnelKey, g: nat, now: nat, victims: set<TunnelKey>, s': State)
    returns (states: seq<Sys>, labels: seq<Label>)
    requires a.holder.None? && a.evicting.None? && g in a.inHand && Published(a.s, key, g, now, victims, s')
    ensures Path(states, labels) && states[0] == a
    ensures states[|states| - 1] == a.(s := s', inHand := a.inHand - {g})
  {
    SweepIsRetirable(a.s, key);
    RoomIsRetirable(a.s, key, g, now, victims, s');
    var a1 := a.(inHand := a.inHand - {g}, holder := Some(Holder(key, g, now)));
    assert TunnelNext(a, Enter(key, g, now), a1);
    var s1 := Gone(a.s, Stale(a.s, key));
    var s2 := Gone(s1, Dead(a.s, key));
    var s3 := Gone(s2, victims);
    var b := a.(s := s', inHand := a.inHand - {g});
    assert TunnelNext(a1.(s := s3), Insert, b);
    hide Next, Gone, Retirable, Published, MayInsert;
    states, labels := [a], [];
    states, labels := Then(states, labels, a, Enter(key, g, now), a1);
    states, labels := RetireThem(states, labels, a1, Stale(a.s, key));
    states, labels := RetireThem(states, labels, a1.(s := s1), Dead(a.s, key));
    states, labels := RetireThem(states, labels, a1.(s := s2), victims);
    states, labels := Then(states, labels, a1.(s := s3), Insert, b);
  }

  // ----- Runs in which these things happen -----

  const OLD_KEY := TunnelKey("c", "old")
  const NEW_KEY := TunnelKey("c", "new!")
  const OLD_POOL := Pool(0, PoolKey("", Some(1)), "")

  function Over(tunnels: map<TunnelKey, Tunnel>, next: nat, draining: set<nat>, pooled: bool): State {
    var pools: map<PoolKey, PoolEntry> :=
      if pooled then map[OLD_POOL.key := PoolEntry(OLD_POOL, "", Some(1))] else map[];
    State(tunnels, next, draining, {}, pools)
  }

  /** Generation 1 is published under `OLD_KEY`, and with `pooled` a pool on it as well. */
  lemma ReachOld(pooled: bool) returns (states: seq<Sys>, labels: seq<Label>)
    ensures IsRun(states, labels) && |states| == if pooled then 5 else 4
    ensures states[|states| - 1] == Sys(Over(map[OLD_KEY := Tunnel(1, 0)], 2, {}, pooled), {}, None, None)
    ensures forall j :: 0 <= j < |labels| ==> states[j].s.draining == {}
  {
    states, labels := [Begin()], [];
    var a1 := Sys(Over(map[], 2, {}, false), {1}, None, None);
    var a2 := a1.(inHand := {}, holder := Some(Holder(OLD_KEY, 1, 0)));
    var a3 := Sys(Over(map[OLD_KEY := Tunnel(1, 0)], 2, {}, false), {}, None, None);
    assert TunnelNext(Begin(), Assign(1), a1);
    assert a1.inHand - {1} == {} && TunnelNext(a1, Enter(OLD_KEY, 1, 0), a2);
    assert MayInsert(a2.s, OLD_KEY) && TunnelNext(a2, Insert, a3);
    states, labels := Then(states, labels, Begin(), Assign(1), a1);
    states, labels := Then(states, labels, a1, Enter(OLD_KEY, 1, 0), a2);
    states, labels := Then(states, labels, a2, Insert, a3);
    if pooled {
      var a4 := a3.(s := Over(map[OLD_KEY := Tunnel(1, 0)], 2, {}, true));
      OldPoolIsPublished(a3, a4);
      states, labels := Then(states, labels, a3, PublishPool(OLD_POOL, Got(OLD_POOL)), a4);
    }
  }

  lemma OldPoolIsPublished(a: Sys, b: Sys)
    requires a.s.pools == map[] && b == a.(s := a.s.(pools := map[OLD_POOL.key := PoolEntry(OLD_POOL, "", Some(1))]))
    ensures Next(a, PublishPool(OLD_POOL, Got(OLD_POOL)), b)
  {
    assert a.s.pools - {OLD_POOL.key} == map[];
    assert PoolPublished(a.s, OLD_POOL) == (b.s, Got(OLD_POOL));
    assert PoolNext(a, PublishPool(OLD_POOL, Got(OLD_POOL)), b);
  }

  /** Then the identity changes, and generation 1 is marked as retired. */
  lemma ReachMarked(pooled: bool) returns (states: seq<Sys>, labels: seq<Label>)
    ensures IsRun(states, labels)
    ensures states[|states| - 1]
         == Sys(Over(map[], 3, {1}, pooled), {}, Some(Holder(NEW_KEY, 2, 0)), Some(1))
    ensures forall j :: 0 <= j < |labels| ==> states[j].s.draining == {}
  {
    states, labels := ReachOld(pooled);
    var tunnels := map[OLD_KEY := Tunnel(1, 0)];
    var a0 := Sys(Over(tunnels, 2, {}, pooled), {}, None, None);
    var a1 := Sys(Over(tunnels, 3, {}, pooled), {2}, None, None);
    var a2 := Sys(Over(tunnels, 3, {}, pooled), {}, Some(Holder(NEW_KEY, 2, 0)), None);
    var a3 := Sys(Over(map[], 3, {1}, pooled), {}, Some(Holder(NEW_KEY, 2, 0)), Some(1));
    EntersNew(pooled, a0, a1, a2);
    MarksOld(a2, a3);
    assert a0.s.draining == a1.s.draining == a2.s.draining == {};
    hide *;
    states, labels := Then(states, labels, a0, Assign(2), a1);
    states, labels := Then(states, labels, a1, Enter(NEW_KEY, 2, 0), a2);
    states, labels := Then(states, labels, a2, Retire(OLD_KEY), a3);
  }

  lemma EntersNew(pooled: bool, a0: Sys, a1: Sys, a2: Sys)
    requires var tunnels := map[OLD_KEY := Tunnel(1, 0)];
             && a0 == Sys(Over(tunnels, 2, {}, pooled), {}, None, None)
             && a1 == Sys(Over(tunnels, 3, {}, pooled), {2}, None, None)
             && a2 == Sys(Over(tunnels, 3, {}, pooled), {}, Some(Holder(NEW_KEY, 2, 0)), None)
    ensures Next(a0, Assign(2), a1) && Next(a1, Enter(NEW_KEY, 2, 0), a2)
  {
    assert TunnelNext(a0, Assign(2), a1);
    assert a1.inHand - {2} == {} && TunnelNext(a1, Enter(NEW_KEY, 2, 0), a2);
  }

  lemma MarksOld(a: Sys, b: Sys)
    requires a.s.tunnels == map[OLD_KEY := Tunnel(1, 0)] && a.holder == Some(Holder(NEW_KEY, 2, 0))
        && a.evicting == None
    requires a.s.draining == {} && b == a.(s := a.s.(tunnels := map[], draining := {1}), evicting := Some(1))
    ensures Next(a, Retire(OLD_KEY), b)
  {
    assert |OLD_KEY.identity| != |NEW_KEY.identity|;
    assert OLD_KEY in Stale(a.s, NEW_KEY);
    assert a.s.tunnels - {OLD_KEY} == map[];
    assert TunnelNext(a, Retire(OLD_KEY), b);
  }

  /** Between the mark and the eviction a caller is handed a pool on the retired generation, which nobody has
      published late. */
  lemma PendingEvictionRun() returns (states: seq<Sys>, labels: seq<Label>, n: nat)
    ensures IsRun(states, labels) && n < |labels|
    ensures labels[n].FindPool? && labels[n].pool == Some(OLD_POOL) && 1 in states[n].s.draining
    ensures forall j :: 0 <= j < n ==> states[j].s.draining == {}
  {
    states, labels := ReachMarked(true);
    var a := Sys(Over(map[], 3, {1}, true), {}, Some(Holder(NEW_KEY, 2, 0)), Some(1));
    var l := FindPool(OLD_POOL.key, "", Some(OLD_POOL));
    assert PoolNext(a, l, a);
    n := |labels|;
    states, labels := Then(states, labels, a, l, a);
  }

  /** After the eviction a caller that still holds the old lease publishes its pool. */
  lemma LateLeaseholderRun() returns (states: seq<Sys>, labels: seq<Label>)
    ensures IsRun(states, labels)
    ensures var last := states[|states| - 1];
            last.evicting.None? && last.holder.None? && exists k :: RidesRetired(last, k)
  {
    states, labels := ReachMarked(false);
    var a0 := Sys(Over(map[], 3, {1}, false), {}, Some(Holder(NEW_KEY, 2, 0)), Some(1));
    var a1 := a0.(evicting := None);
    var a2 := Sys(Over(map[NEW_KEY := Tunnel(2, 0)], 3, {1}, false), {}, None, None);
    var a3 := Sys(Over(map[NEW_KEY := Tunnel(2, 0)], 3, {1}, true), {}, None, None);
    assert NotRiding(a0.s.pools, {1}) == a0.s.pools;
    assert PoolNext(a0, Evict(1), a1);
    assert MayInsert(a1.s, NEW_KEY) && TunnelNext(a1, Insert, a2);
    OldPoolIsPublished(a2, a3);
    assert RidesRetired(a3, OLD_POOL.key);
    hide Over, Next, RidesRetired;
    states, labels := Then(states, labels, a0, Evict(1), a1);
    states, labels := Then(states, labels, a1, Insert, a2);
    states, labels := Then(states, labels, a2, PublishPool(OLD_POOL, Got(OLD_POOL)), a3);
  }

  /** Two callers open tunnels for one identity, which the in-flight guard no longer prevents once an earlier tunnel
      has died, and publish one after the other. */
  lemma OverwrittenRun() returns (states: seq<Sys>, labels: seq<Label>, i: nat)
    ensures IsRun(states, labels) && i < |states|
    ensures InMap(states[i].s, 1)
    ensures var last := states[|states| - 1].s;
            !InMap(last, 1) && 1 !in last.draining && exists k :: k in last.pools && k.tunnel == Some(1)
  {
    states, labels := ReachOld(true);
    i := |states| - 1;
    var tunnels, after := map[OLD_KEY := Tunnel(1, 0)], map[OLD_KEY := Tunnel(2, 0)];
    var a0 := Sys(Over(tunnels, 2, {}, true), {}, None, None);
    var a1 := Sys(Over(tunnels, 3, {}, true), {2}, None, None);
    var a2 := a1.(inHand := {}, holder := Some(Holder(OLD_KEY, 2, 0)));
    var a3 := Sys(Over(after, 3, {}, true), {}, None, None);
    assert OLD_KEY in a0.s.tunnels;
    assert TunnelNext(a0, Assign(2), a1);
    assert a1.inHand - {2} == {} && TunnelNext(a1, Enter(OLD_KEY, 2, 0), a2);
    InsertsOver(a2, a3);
    assert OLD_POOL.key in a3.s.pools;
    hide Over, Next, InMap;
    states, labels := Then(states, labels, a0, Assign(2), a1);
    states, labels := Then(states, labels, a1, Enter(OLD_KEY, 2, 0), a2);
    states, labels := Then(states, labels, a2, Insert, a3);
  }

  lemma InsertsOver(a: Sys, b: Sys)
    requires a.s.tunnels == map[OLD_KEY := Tunnel(1, 0)] && a.holder == Some(Holder(OLD_KEY, 2, 0))
        && a.evicting == None
    requires b == a.(s := a.s.(tunnels := map[OLD_KEY := Tunnel(2, 0)]), holder := None)
    ensures Next(a, Insert, b) && !InMap(b.s, 1) && InMap(a.s, 1)
  {
    assert Stale(a.s, OLD_KEY) == {};
    OneLess(a.s.tunnels, OLD_KEY);
    assert a.s.tunnels - {OLD_KEY} == map[];
    assert MayInsert(a.s, OLD_KEY);
    assert a.s.tunnels[OLD_KEY := Tunnel(2, 0)] == b.s.tunnels;
    assert TunnelNext(a, Insert, b);
    assert OLD_KEY in a.s.tunnels;
  }
}
