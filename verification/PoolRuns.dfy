/** Runs of the circuit pool: dials, reuse, failed BEGINs, closes, the janitor, NewIdentity, Close
    and RotateGuard in any order, with circuits dying at any time. */
module PoolRuns {
  import opened CircuitPool
  import opened Options

  /** An outstanding claim on a circuit's stream count: BEGIN in progress, or an open connection. */
  datatype Lease = Lease(circ: Cid, open: bool)

  /** `spent` are the leases that have been given back. */
  datatype State = State(pool: Pool, leases: map<nat, Lease>, spent: set<nat>)

  function Start(maxDirty: int): (s: State) {
    State(Pool(map[], [], map[], maxDirty), map[], {})
  }

  datatype Action =
    | Build(id: Cid, lease: nat, born: int, host: string, ports: set<int>)
    | Reuse(lease: nat, host: string, port: int, now: int)
    | BeginOk(lease: nat)
    | BeginFails(lease: nat, now: int)
    | CloseConn(lease: nat, now: int)
    | Reap(now: int)
    | NewIdentity
    | CloseClient
    | RotateGuard
    | Dies(id: Cid)

  /** The circuit that acquireClearnet or acquireOnion returns. */
  function Acquired(s: State, a: Action): (r: Option<Cid>)
    requires a.Reuse?
  {
    var port := if a.host == "" then Some(a.port) else None;
    FirstReusable(s.pool.circs, OwnList(s.pool, a.host), a.now, s.pool.maxDirty, port)
  }

  predicate NewLease(s: State, lease: nat) {
    lease !in s.leases && lease !in s.spent
  }

  function GiveBack(s: State, lease: nat, now: int): (r: State)
    requires lease in s.leases && s.leases[lease].circ in s.pool.circs
  {
    s.(pool := Release(s.pool, s.leases[lease].circ, now), leases := s.leases - {lease}, spent := s.spent + {lease})
  }

  ghost predicate Enabled(s: State, a: Action) {
    match a
    case Build(id, lease, _, _, _) => id !in s.pool.circs && NewLease(s, lease)
    case Reuse(lease, _, _, _) => NewLease(s, lease) && Acquired(s, a).Some?
    case BeginOk(lease) => lease in s.leases && !s.leases[lease].open
    case BeginFails(lease, _) => lease in s.leases && !s.leases[lease].open && s.leases[lease].circ in s.pool.circs
    // a second Close finds the lease spent and does nothing
    case CloseConn(lease, _) => lease in s.leases && s.leases[lease].open && s.leases[lease].circ in s.pool.circs
    case Dies(id) => id in s.pool.circs
    case _ => true
  }

  ghost function Apply(s: State, a: Action): (r: State) {
    if !Enabled(s, a) then s
    else match a
      case Build(id, lease, born, host, ports) =>
        s.(pool := Insert(s.pool, id, born, host, ports), leases := s.leases[lease := Lease(id, false)])
      case Reuse(lease, host, port, now) =>
        var id := Acquired(s, a).value;
        s.(pool := AddStream(s.pool, id), leases := s.leases[lease := Lease(id, false)])
      case BeginOk(lease) => s.(leases := s.leases[lease := s.leases[lease].(open := true)])
      case BeginFails(lease, now) => GiveBack(s, lease, now)
      case CloseConn(lease, now) => GiveBack(s, lease, now)
      case Reap(now) => s.(pool := CircuitPool.Reap(s.pool, now))
      case NewIdentity => s.(pool := CircuitPool.NewIdentity(s.pool))
      case CloseClient => s.(pool := CloseAll(s.pool))
      case RotateGuard => s.(pool := CloseAll(s.pool))
      case Dies(id) => s.(pool := s.pool.(circs := s.pool.circs[id := s.pool.circs[id].(closed := true)]))
  }

  ghost function Exec(s: State, acts: seq<Action>): (r: State)
    decreases |acts|
  {
    if acts == [] then s else Apply(Exec(s, acts[..|acts| - 1]), acts[|acts| - 1])
  }

  /* ----- Lease conservation ----- */

  ghost function LeasesOn(leases: map<nat, Lease>, id: Cid): (s: set<nat>) {
    set l | l in leases && leases[l].circ == id
  }

  /** Every circuit counts exactly its outstanding leases. */
  ghost predicate LeaseInv(circs: map<Cid, Circ>, leases: map<nat, Lease>) {
    && (forall l :: l in leases ==> leases[l].circ in circs)
    && (forall c :: c in circs ==> circs[c].streams == |LeasesOn(leases, c)|)
  }

  lemma LeaseAdded(leases: map<nat, Lease>, l: nat, id: Cid)
    requires l !in leases
    ensures |LeasesOn(leases[l := Lease(id, false)], id)| == |LeasesOn(leases, id)| + 1
    ensures forall c :: c != id ==> LeasesOn(leases[l := Lease(id, false)], c) == LeasesOn(leases, c)
  {
    assert LeasesOn(leases[l := Lease(id, false)], id) == LeasesOn(leases, id) + {l};
  }

  lemma LeaseRemoved(leases: map<nat, Lease>, l: nat)
    requires l in leases
    ensures |LeasesOn(leases - {l}, leases[l].circ)| == |LeasesOn(leases, leases[l].circ)| - 1
    ensures forall c :: c != leases[l].circ ==> LeasesOn(leases - {l}, c) == LeasesOn(leases, c)
  {
    var id := leases[l].circ;
    assert LeasesOn(leases - {l}, id) == LeasesOn(leases, id) - {l};
    assert l in LeasesOn(leases, id);
  }

  ghost predicate SameStreams(m: map<Cid, Circ>, k: map<Cid, Circ>) {
    m.Keys == k.Keys && forall c :: c in m ==> k[c].streams == m[c].streams
  }

  lemma ReleaseStreams(p: Pool, id: Cid, now: int)
    requires id in p.circs
    ensures var r := Release(p, id, now);
      && r.circs.Keys == p.circs.Keys
      && (forall c :: c in p.circs && c != id ==> r.circs[c].streams == p.circs[c].streams)
      && r.circs[id].streams == (if p.circs[id].streams > 0 then p.circs[id].streams - 1 else 0)
  {
  }

  lemma GiveBackKeepsLeases(s: State, lease: nat, now: int)
    requires LeaseInv(s.pool.circs, s.leases) && lease in s.leases
    ensures var r := GiveBack(s, lease, now); LeaseInv(r.pool.circs, r.leases)
  {
    var id := s.leases[lease].circ;
    LeaseRemoved(s.leases, lease);
    assert lease in LeasesOn(s.leases, id);
    ReleaseStreams(s.pool, id, now);
  }

  lemma BuildKeepsLeases(p: Pool, leases: map<nat, Lease>, id: Cid, lease: nat,
                         born: int, host: string, ports: set<int>)
    requires LeaseInv(p.circs, leases) && id !in p.circs && lease !in leases
    ensures LeaseInv(Insert(p, id, born, host, ports).circs, leases[lease := Lease(id, false)])
  {
    LeaseAdded(leases, lease, id);
    assert LeasesOn(leases, id) == {};
  }

  lemma ReuseKeepsLeases(p: Pool, leases: map<nat, Lease>, lease: nat, id: Cid)
    requires LeaseInv(p.circs, leases) && id in p.circs && lease !in leases
    ensures LeaseInv(AddStream(p, id).circs, leases[lease := Lease(id, false)])
  {
    LeaseAdded(leases, lease, id);
  }

  lemma OpenKeepsLeases(leases: map<nat, Lease>, lease: nat)
    requires lease in leases
    ensures forall c :: LeasesOn(leases[lease := leases[lease].(open := true)], c) == LeasesOn(leases, c)
  {
  }

  lemma StepKeepsLeases(s: State, a: Action)
    requires LeaseInv(s.pool.circs, s.leases) && Enabled(s, a)
    ensures var r := Apply(s, a); LeaseInv(r.pool.circs, r.leases)
  {
    match a
    case Build(id, lease, born, host, ports) => BuildKeepsLeases(s.pool, s.leases, id, lease, born, host, ports);
    case Reuse(lease, _, _, _) => ReuseKeepsLeases(s.pool, s.leases, lease, Acquired(s, a).value);
    case BeginOk(lease) => OpenKeepsLeases(s.leases, lease);
    case BeginFails(lease, now) => GiveBackKeepsLeases(s, lease, now);
    case CloseConn(lease, now) => GiveBackKeepsLeases(s, lease, now);
    case _ => assert SameStreams(s.pool.circs, Apply(s, a).pool.circs);
  }

  lemma StepKeepsPool(s: State, a: Action)
    requires PoolInv(s.pool) && Enabled(s, a)
    ensures PoolInv(Apply(s, a).pool)
  {
    match a
    case Build(id, _, born, host, ports) => InsertKeeps(s.pool, id, born, host, ports);
    case Reuse(_, _, _, _) => AddStreamKeeps(s.pool, Acquired(s, a).value);
    case BeginOk(_) =>
    case BeginFails(lease, now) => ReleaseKeeps(s.pool, s.leases[lease].circ, now);
    case CloseConn(lease, now) => ReleaseKeeps(s.pool, s.leases[lease].circ, now);
    case Reap(now) => DestroyKeeps(s.pool, ReapSet(s.pool, now));
    case NewIdentity => NewIdentityKeeps(s.pool);
    case CloseClient => DestroyKeeps(s.pool, PooledSet(s.pool));
    case RotateGuard => DestroyKeeps(s.pool, PooledSet(s.pool));
    case Dies(id) => TameOnly(s.pool, s.pool.circs[id := s.pool.circs[id].(closed := true)]);
  }

  ghost predicate Inv(s: State) {
    PoolInv(s.pool) && LeaseInv(s.pool.circs, s.leases)
  }

  /** Pool safety and lease conservation in every reachable state: at most 32 reusable clearnet
      circuits and 8 per onion host, each pooled circuit once and in its own pool, no empty host
      entry, and every circuit's `streams` equal to its outstanding leases. */
  lemma {:induction false} RunKeeps(maxDirty: int, acts: seq<Action>)
    ensures Inv(Exec(Start(maxDirty), acts))
    decreases |acts|
  {
    if acts == [] {
    } else {
      RunKeeps(maxDirty, acts[..|acts| - 1]);
      var s, a := Exec(Start(maxDirty), acts[..|acts| - 1]), acts[|acts| - 1];
      if Enabled(s, a) {
        StepKeepsPool(s, a);
        StepKeepsLeases(s, a);
      }
    }
  }

  /** A step that closes an open circuit finds or leaves it without streams. */
  lemma DestroyNeedsIdle(s: State, a: Action, id: Cid)
    requires Enabled(s, a) && !a.CloseClient? && !a.RotateGuard? && !a.Dies?
    requires id in s.pool.circs && !s.pool.circs[id].closed
    requires id in Apply(s, a).pool.circs && Apply(s, a).pool.circs[id].closed
    ensures Apply(s, a).pool.circs[id].streams == 0
  {
  }

  /** Outside Close and RotateGuard, a circuit that was open is torn down only when no lease on it
      remains. */
  lemma DestroyedOnlyIdle(maxDirty: int, acts: seq<Action>, a: Action, id: Cid)
    requires !a.CloseClient? && !a.RotateGuard? && !a.Dies?
    requires var s := Exec(Start(maxDirty), acts);
      id in s.pool.circs && !s.pool.circs[id].closed
      && id in Apply(s, a).pool.circs && Apply(s, a).pool.circs[id].closed
    ensures LeasesOn(Apply(Exec(Start(maxDirty), acts), a).leases, id) == {}
  {
    var s := Exec(Start(maxDirty), acts);
    RunKeeps(maxDirty, acts);
    DestroyNeedsIdle(s, a, id);
    StepKeepsLeases(s, a);
  }

  lemma TeardownIsCloseAll(s: State, a: Action)
    requires a.CloseClient? || a.RotateGuard?
    ensures Apply(s, a).pool == CloseAll(s.pool)
  {
  }

  /** Close and RotateGuard leave both pools empty, whatever the pool held. */
  lemma TeardownEmpties(maxDirty: int, acts: seq<Action>, a: Action)
    requires a.CloseClient? || a.RotateGuard?
    ensures var r := Apply(Exec(Start(maxDirty), acts), a); r.pool.clearnet == [] && r.pool.onion == map[]
  {
    RunKeeps(maxDirty, acts);
    TeardownIsCloseAll(Exec(Start(maxDirty), acts), a);
    CloseAllEmpties(Exec(Start(maxDirty), acts).pool);
  }

  /* ----- NewIdentity ----- */

  /** Retired circuits stay retired and known. */
  lemma RetiredForever(s: State, a: Action, id: Cid)
    requires id in s.pool.circs && s.pool.circs[id].retired
    ensures id in Apply(s, a).pool.circs && Apply(s, a).pool.circs[id].retired
  {
  }

  lemma {:induction false} RetiredInRuns(s: State, acts: seq<Action>, id: Cid)
    requires id in s.pool.circs && s.pool.circs[id].retired
    ensures id in Exec(s, acts).pool.circs && Exec(s, acts).pool.circs[id].retired
    decreases |acts|
  {
    if acts == [] {
    } else {
      RetiredInRuns(s, acts[..|acts| - 1], id);
      RetiredForever(Exec(s, acts[..|acts| - 1]), acts[|acts| - 1], id);
    }
  }

  /** No circuit that is pooled when NewIdentity runs is ever handed out afterwards. */
  lemma NeverHandedOutAgain(maxDirty: int, acts: seq<Action>, more: seq<Action>, a: Action, id: Cid)
    requires a.Reuse? && InPool(Exec(Start(maxDirty), acts).pool, id)
    ensures Acquired(Exec(Apply(Exec(Start(maxDirty), acts), NewIdentity), more), a) != Some(id)
  {
    var s := Exec(Start(maxDirty), acts);
    RunKeeps(maxDirty, acts);
    PooledKnown(s.pool, id);
    var r := Apply(s, NewIdentity);
    assert id in PooledSet(s.pool);
    assert r.pool.circs[id].retired;
    RetiredInRuns(r, more, id);
  }

  /** The list that serves a host holds exactly the pooled circuits of that host. */
  lemma OwnListIff(p: Pool, host: string, c: Cid)
    requires PoolInv(p)
    ensures c in OwnList(p, host) <==> InPool(p, c) && c in p.circs && p.circs[c].host == host
  {
    if c in OwnList(p, host) {
      assert host != "" ==> HostInv(p, host);
    }
    if InPool(p, c) && c !in p.clearnet {
      var h :| h in p.onion && c in p.onion[h];
      assert HostInv(p, h);
    }
  }

  /** What acquire hands out is a pooled circuit of the host ("" is clearnet) that is open, not retired,
      within the dirtiness window and, for clearnet, permits the port; it hands out nothing exactly
      when there is none. */
  lemma AcquiredIff(maxDirty: int, acts: seq<Action>, host: string, port: int, now: int)
    ensures var s := Exec(Start(maxDirty), acts); var got := Acquired(s, Reuse(0, host, port, now));
      && (got.Some? ==> CanCarry(s.pool, got.value, host, port, now))
      && (got.None? ==> forall c :: !CanCarry(s.pool, c, host, port, now))
  {
    var s := Exec(Start(maxDirty), acts);
    RunKeeps(maxDirty, acts);
    forall c
      ensures c in OwnList(s.pool, host) <==> InPool(s.pool, c) && c in s.pool.circs && s.pool.circs[c].host == host
    {
      OwnListIff(s.pool, host, c);
    }
  }

  ghost predicate CanCarry(p: Pool, c: Cid, host: string, port: int, now: int) {
    && InPool(p, c) && c in p.circs && p.circs[c].host == host
    && !p.circs[c].closed && !p.circs[c].retired
    && now < p.circs[c].born + p.maxDirty && (host == "" ==> port in p.circs[c].ports)
  }

  /* ----- No circuit leaks ----- */

  lemma ReleaseCloses(p: Pool, id: Cid, now: int)
    requires id in p.circs && NoLeak(p)
    ensures NoLeak(Release(p, id, now))
    ensures forall c :: c in p.circs ==>
      (Release(p, id, now).circs[c].closed <==> p.circs[c].closed || (InPool(p, c) && !InPool(Release(p, id, now), c)))
  {
    var was := p.circs[id];
    var q := p.(circs := p.circs[id := was.(streams := if was.streams > 0 then was.streams - 1 else 0)]);
    assert forall c :: InPool(q, c) <==> InPool(p, c);
    DestroyCloses(q, {id});
    forall c | c in p.circs
      ensures InPool(DestroySet(q, {id}), c) <==> InPool(p, c) && c != id
    {
      DestroyLeaves(q, {id}, c);
    }
  }

  /** A pass closes exactly the circuits that it takes out of the pool. */
  lemma PassCloses(p: Pool, q: Pool, gone: set<Cid>, c: Cid)
    requires NoLeak(p) && q.clearnet == p.clearnet && q.onion == p.onion && q.circs.Keys == p.circs.Keys
    requires forall x :: x in p.circs ==> q.circs[x].closed == p.circs[x].closed
    requires c in p.circs && (c in gone ==> InPool(p, c))
    ensures var r := DestroySet(q, gone);
      && (r.circs[c].closed <==> p.circs[c].closed || (InPool(p, c) && !InPool(r, c)))
      && (InPool(r, c) || r.circs[c].closed)
  {
    DestroyLeaves(q, gone, c);
    assert InPool(q, c) <==> InPool(p, c);
  }

  /** A step closes exactly the circuits that it takes out of the pool, and the one that dies. */
  ghost predicate ClosesRight(s: State, a: Action, c: Cid)
    requires c in s.pool.circs
  {
    var r := Apply(s, a);
    && c in r.pool.circs
    && (r.pool.circs[c].closed <==>
          s.pool.circs[c].closed || (InPool(s.pool, c) && !InPool(r.pool, c)) || a == Dies(c))
    && (InPool(r.pool, c) || r.pool.circs[c].closed)
  }

  lemma StepClosesRight(s: State, a: Action, c: Cid)
    requires NoLeak(s.pool) && Enabled(s, a) && c in s.pool.circs
    ensures ClosesRight(s, a, c)
  {
    var p := s.pool;
    match a
    case Build(id, _, born, host, ports) => InsertStays(p, id, born, host, ports, c);
    case Reuse(_, _, _, _) => assert InPool(Apply(s, a).pool, c) <==> InPool(p, c);
    case BeginOk(_) =>
    case BeginFails(lease, now) => ReleaseCloses(p, s.leases[lease].circ, now);
    case CloseConn(lease, now) => ReleaseCloses(p, s.leases[lease].circ, now);
    case Reap(now) => PassCloses(p, p, ReapSet(p, now), c);
    case NewIdentity => PassCloses(p, p.(circs := Retired(p.circs, PooledSet(p))), IdleSet(p), c);
    case CloseClient => PassCloses(p, p, PooledSet(p), c);
    case RotateGuard => PassCloses(p, p, PooledSet(p), c);
    case Dies(_) => assert InPool(Apply(s, a).pool, c) <==> InPool(p, c);
  }

  /** Inserting a circuit leaves the others where they are. */
  lemma InsertStays(p: Pool, id: Cid, born: int, host: string, ports: set<int>, c: Cid)
    requires c != id
    ensures InPool(Insert(p, id, born, host, ports), c) <==> InPool(p, c)
    ensures InPool(Insert(p, id, born, host, ports), id)
  {
    var r := Insert(p, id, born, host, ports);
    if host == "" {
      assert r.clearnet[|p.clearnet|] == id;
    } else {
      assert r.onion[host][|HostList(p, host)|] == id;
      forall h | h in r.onion
        ensures c in r.onion[h] <==> h in p.onion && c in p.onion[h]
      {
      }
      assert forall h :: h in p.onion ==> h in r.onion;
    }
  }

  lemma StepNoLeak(s: State, a: Action)
    requires NoLeak(s.pool) && Enabled(s, a)
    ensures NoLeak(Apply(s, a).pool)
  {
    var r := Apply(s, a);
    forall c | c in r.pool.circs
      ensures InPool(r.pool, c) || r.pool.circs[c].closed
    {
      if c in s.pool.circs {
        StepClosesRight(s, a, c);
      } else {
        assert a.Build? && c == a.id;
        InsertStays(s.pool, a.id, a.born, a.host, a.ports, a.id + 1);
      }
    }
  }

  /** In every reachable state a circuit that is not pooled is closed: none leaks. */
  lemma {:induction false} NoCircuitLeaks(maxDirty: int, acts: seq<Action>)
    ensures NoLeak(Exec(Start(maxDirty), acts).pool)
    decreases |acts|
  {
    if acts == [] {
    } else {
      var n := |acts| - 1;
      NoCircuitLeaks(maxDirty, acts[..n]);
      if Enabled(Exec(Start(maxDirty), acts[..n]), acts[n]) {
        StepNoLeak(Exec(Start(maxDirty), acts[..n]), acts[n]);
      }
    }
  }

  /** In every run, a step closes exactly the circuits that it takes out of the pool, and the one
      that dies. */
  lemma ClosedExactly(maxDirty: int, acts: seq<Action>, a: Action, c: Cid)
    requires var s := Exec(Start(maxDirty), acts); Enabled(s, a) && c in s.pool.circs
    ensures ClosesRight(Exec(Start(maxDirty), acts), a, c)
  {
    NoCircuitLeaks(maxDirty, acts);
    StepClosesRight(Exec(Start(maxDirty), acts), a, c);
  }

  /** Whether a circuit is pooled after a step, in terms of the state before it. */
  ghost predicate PooledAfter(s: State, a: Action, c: Cid)
    requires Enabled(s, a)
  {
    var p := s.pool;
    match a
    case Build(id, _, _, _, _) => InPool(p, c) || c == id
    case BeginFails(lease, now) => InPool(p, c) && !Finished(p, s.leases[lease].circ, now, c)
    case CloseConn(lease, now) => InPool(p, c) && !Finished(p, s.leases[lease].circ, now, c)
    case Reap(now) =>
      && InPool(p, c) && c in p.circs && !p.circs[c].closed
      && (p.circs[c].streams > 0 || (!p.circs[c].retired && now - p.circs[c].born < p.maxDirty))
    case NewIdentity => InPool(p, c) && c in p.circs && p.circs[c].streams > 0
    case CloseClient => false
    case RotateGuard => false
    case _ => InPool(p, c)
  }

  /** `c` is the circuit `id` whose last stream goes and that may not be reused. */
  predicate Finished(p: Pool, id: Cid, now: int, c: Cid)
    requires id in p.circs
  {
    c == id && p.circs[id].streams <= 1 && (p.circs[id].retired || now - p.circs[id].born >= p.maxDirty)
  }

  lemma StepPools(s: State, a: Action, c: Cid)
    requires PoolInv(s.pool) && Enabled(s, a)
    ensures InPool(Apply(s, a).pool, c) <==> PooledAfter(s, a, c)
  {
    var p := s.pool;
    match a
    case Build(id, _, born, host, ports) => InsertStays(p, id, born, host, ports, if c == id then id + 1 else c);
    case BeginFails(lease, now) => ReleaseLeaves(p, s.leases[lease].circ, now, c);
    case CloseConn(lease, now) => ReleaseLeaves(p, s.leases[lease].circ, now, c);
    case Reap(now) => ReapLeaves(p, now, c);
    case NewIdentity => NewIdentityLeaves(p, c);
    case CloseClient => CloseAllEmpties(p);
    case RotateGuard => CloseAllEmpties(p);
    case _ => assert InPool(Apply(s, a).pool, c) <==> InPool(p, c);
  }

  /** In every run a step changes the membership of the pool exactly as PooledAfter says. */
  lemma PoolMembership(maxDirty: int, acts: seq<Action>, a: Action, c: Cid)
    requires Enabled(Exec(Start(maxDirty), acts), a)
    ensures var s := Exec(Start(maxDirty), acts); InPool(Apply(s, a).pool, c) <==> PooledAfter(s, a, c)
  {
    RunKeeps(maxDirty, acts);
    StepPools(Exec(Start(maxDirty), acts), a, c);
  }

  /* ----- Leases, told from the actions ----- */

  ghost function Effective(maxDirty: int, acts: seq<Action>): (done: seq<Action>)
    decreases |acts|
  {
    if acts == [] then []
    else
      var n := |acts| - 1;
      var before := Effective(maxDirty, acts[..n]);
      if Enabled(Exec(Start(maxDirty), acts[..n]), acts[n]) then before + [acts[n]] else before
  }

  predicate Takes(a: Action, lease: nat) {
    (a.Build? || a.Reuse?) && a.lease == lease
  }

  predicate Returns(a: Action, lease: nat) {
    (a.BeginFails? || a.CloseConn?) && a.lease == lease
  }

  ghost predicate Taken(done: seq<Action>, lease: nat) {
    exists i :: 0 <= i < |done| && Takes(done[i], lease)
  }

  ghost predicate Returned(done: seq<Action>, lease: nat) {
    exists i :: 0 <= i < |done| && Returns(done[i], lease)
  }

  ghost predicate Begun(done: seq<Action>, lease: nat) {
    exists i :: 0 <= i < |done| && done[i] == BeginOk(lease)
  }

  /** A lease is outstanding from its dial until it is given back; it is open once BEGIN succeeded. */
  ghost predicate LeaseTraced(s: State, done: seq<Action>, lease: nat) {
    && (lease in s.leases <==> Taken(done, lease) && !Returned(done, lease))
    && (lease in s.spent <==> Returned(done, lease))
    && (Returned(done, lease) || Begun(done, lease) ==> Taken(done, lease))
    && (lease in s.leases ==> (s.leases[lease].open <==> Begun(done, lease)))
  }

  lemma SnocLease(done: seq<Action>, a: Action, lease: nat)
    ensures Taken(done + [a], lease) <==> Taken(done, lease) || Takes(a, lease)
    ensures Returned(done + [a], lease) <==> Returned(done, lease) || Returns(a, lease)
    ensures Begun(done + [a], lease) <==> Begun(done, lease) || a == BeginOk(lease)
  {
    var all := done + [a];
    assert all[|done|] == a;
    assert forall i :: 0 <= i < |done| ==> all[i] == done[i];
  }

  lemma StepLeaseTraced(s: State, a: Action, done: seq<Action>, lease: nat)
    requires LeaseTraced(s, done, lease) && Enabled(s, a)
    ensures LeaseTraced(Apply(s, a), done + [a], lease)
  {
    SnocLease(done, a, lease);
  }

  lemma {:induction false} LeasesTraced(maxDirty: int, acts: seq<Action>, lease: nat)
    ensures LeaseTraced(Exec(Start(maxDirty), acts), Effective(maxDirty, acts), lease)
    decreases |acts|
  {
    if acts == [] {
    } else {
      var n := |acts| - 1;
      LeasesTraced(maxDirty, acts[..n], lease);
      if Enabled(Exec(Start(maxDirty), acts[..n]), acts[n]) {
        StepLeaseTraced(Exec(Start(maxDirty), acts[..n]), acts[n], Effective(maxDirty, acts[..n]), lease);
      }
    }
  }

  /** Every lease can be given back, and after that closing it again does nothing, ever. */
  lemma GiveBackOnce(maxDirty: int, acts: seq<Action>, lease: nat, now: int)
    ensures var s := Exec(Start(maxDirty), acts);
      && (lease in s.leases ==>
            Enabled(s, if s.leases[lease].open then CloseConn(lease, now) else BeginFails(lease, now)))
      && (Returned(Effective(maxDirty, acts), lease) ==> Apply(s, CloseConn(lease, now)) == s)
  {
    RunKeeps(maxDirty, acts);
    LeasesTraced(maxDirty, acts, lease);
  }

  ghost predicate Built(done: seq<Action>, id: Cid) {
    exists i :: 0 <= i < |done| && done[i].Build? && done[i].id == id
  }

  lemma {:induction false} CircsTraced(maxDirty: int, acts: seq<Action>, id: Cid)
    ensures id in Exec(Start(maxDirty), acts).pool.circs <==> Built(Effective(maxDirty, acts), id)
    decreases |acts|
  {
    if acts == [] {
    } else {
      var n := |acts| - 1;
      CircsTraced(maxDirty, acts[..n], id);
      var s, a, done := Exec(Start(maxDirty), acts[..n]), acts[n], Effective(maxDirty, acts[..n]);
      if Enabled(s, a) {
        StepCircs(s, a, id);
        assert (done + [a])[|done|] == a;
        assert forall i :: 0 <= i < |done| ==> (done + [a])[i] == done[i];
      }
    }
  }

  lemma StepCircs(s: State, a: Action, id: Cid)
    requires Enabled(s, a)
    ensures id in Apply(s, a).pool.circs <==> id in s.pool.circs || (a.Build? && a.id == id)
  {
  }

  /** When each step of a dial is possible: a circuit is pooled once, a lease is taken once; a reuse
      needs a circuit that can carry it; BEGIN is answered once; any circuit may die. */
  lemma AcceptedIff(maxDirty: int, acts: seq<Action>, id: Cid, lease: nat, born: int, host: string, ports: set<int>,
                    port: int, now: int)
    ensures var s := Exec(Start(maxDirty), acts); var done := Effective(maxDirty, acts);
      && (Enabled(s, Build(id, lease, born, host, ports)) <==> !Built(done, id) && !Taken(done, lease))
      && (Enabled(s, Reuse(lease, host, port, now)) <==>
            !Taken(done, lease) && exists c :: CanCarry(s.pool, c, host, port, now))
      && (Enabled(s, BeginOk(lease)) <==> Taken(done, lease) && !Returned(done, lease) && !Begun(done, lease))
      && (Enabled(s, Dies(id)) <==> Built(done, id))
  {
    CircsTraced(maxDirty, acts, id);
    LeasesTraced(maxDirty, acts, lease);
    AcquiredIff(maxDirty, acts, host, port, now);
  }
}
