/** The pool fields of a client, updated in place under poolMu (pool.go, client.go), proved against
    the functions of module CircuitPool. The teardown loops walk a snapshot while they change the
    pools that it was taken from. */
module PoolClient {
  import opened CircuitPool
  import opened Options

  /* ----- DestroySet one circuit at a time ----- */

  lemma OnionWithoutTwice(onion: map<string, seq<Cid>>, a: set<Cid>, b: set<Cid>)
    ensures OnionWithout(OnionWithout(onion, a), b) == OnionWithout(onion, a + b)
  {
    forall h | h in onion
      ensures Without(Without(onion[h], a), b) == Without(onion[h], a + b)
    {
      WithoutTwice(onion[h], a, b);
    }
  }

  lemma ClosedTwice(circs: map<Cid, Circ>, a: set<Cid>, b: set<Cid>)
    ensures Closed(Closed(circs, a), b) == Closed(circs, a + b)
  {
  }

  lemma DestroyTwice(p: Pool, a: set<Cid>, b: set<Cid>)
    ensures DestroySet(DestroySet(p, a), b) == DestroySet(p, a + b)
  {
    WithoutTwice(p.clearnet, a, b);
    OnionWithoutTwice(p.onion, a, b);
    ClosedTwice(p.circs, a, b);
  }

  lemma OnionWithoutNone(onion: map<string, seq<Cid>>)
    requires forall h :: h in onion ==> onion[h] != []
    ensures OnionWithout(onion, {}) == onion
  {
    forall h | h in onion
      ensures Without(onion[h], {}) == onion[h]
    {
      WithoutNone(onion[h], {});
    }
  }

  lemma ClosedNone(circs: map<Cid, Circ>)
    ensures Closed(circs, {}) == circs
  {
  }

  lemma DestroyNone(p: Pool)
    requires PoolInv(p)
    ensures DestroySet(p, {}) == p
  {
    WithoutNone(p.clearnet, {});
    assert forall h :: h in p.onion ==> HostInv(p, h);
    OnionWithoutNone(p.onion);
    ClosedNone(p.circs);
  }

  /** A circuit is in no list but that of its own host, so dropping it there is enough. */
  lemma OnlyOwnList(p: Pool, id: Cid, h: string)
    requires PoolInv(p) && id in p.circs
    ensures p.circs[id].host != "" ==> Without(p.clearnet, {id}) == p.clearnet
    ensures h in p.onion && h != p.circs[id].host ==> Without(p.onion[h], {id}) == p.onion[h] != []
  {
    if p.circs[id].host != "" {
      WithoutNone(p.clearnet, {id});
    }
    if h in p.onion && h != p.circs[id].host {
      assert HostInv(p, h);
      WithoutNone(p.onion[h], {id});
    }
  }

  /** The rewrite of one host's list in removeLocked. */
  function DropFrom(onion: map<string, seq<Cid>>, host: string, id: Cid): (r: map<string, seq<Cid>>) {
    var rest := Without(if host in onion then onion[host] else [], {id});
    if rest == [] then onion - {host} else onion[host := rest]
  }

  lemma DropFromIsWithout(onion: map<string, seq<Cid>>, host: string, id: Cid)
    requires forall h :: h in onion && h != host ==> Without(onion[h], {id}) == onion[h] != []
    ensures DropFrom(onion, host, id) == OnionWithout(onion, {id})
  {
  }

  lemma OwnHost(p: Pool, id: Cid)
    requires PoolInv(p) && id in p.circs
    ensures var host := p.circs[id].host;
      if host == "" then OnionWithout(p.onion, {id}) == p.onion
      else Without(p.clearnet, {id}) == p.clearnet && DropFrom(p.onion, host, id) == OnionWithout(p.onion, {id})
  {
    var host := p.circs[id].host;
    OnlyOwnList(p, id, host);
    forall h | h in p.onion
      ensures h != "" && (h != host ==> Without(p.onion[h], {id}) == p.onion[h] != [])
    {
      assert HostInv(p, h);
      OnlyOwnList(p, id, h);
    }
    if host == "" {
      assert OnionWithout(p.onion, {id}) == p.onion;
    } else {
      DropFromIsWithout(p.onion, host, id);
    }
  }

  /* ----- The three passes over a snapshot of the pool ----- */

  /** Close and RotateGuard, the janitor, and NewIdentity. */
  datatype Pass = Teardown | Janitor(now: int) | Identity

  predicate Doomed(c: Circ, pass: Pass, maxDirty: int) {
    match pass
    case Teardown => true
    case Janitor(now) => ReapDoomed(c, now, maxDirty)
    case Identity => c.streams == 0
  }

  function Touch(p: Pool, pass: Pass, id: Cid): (r: Pool) {
    if pass.Identity? then p.(circs := Retired(p.circs, {id})) else p
  }

  /** What a pass does on meeting `id`, in whatever state the pool then is. */
  function Visit(p: Pool, pass: Pass, id: Cid): (r: Pool) {
    if id in p.circs && Doomed(p.circs[id], pass, p.maxDirty) then DestroySet(Touch(p, pass, id), {id})
    else Touch(p, pass, id)
  }

  function Sweep(p: Pool, pass: Pass, list: seq<Cid>): (r: Pool) {
    if list == [] then p else Visit(Sweep(p, pass, list[..|list| - 1]), pass, list[|list| - 1])
  }

  lemma VisitTeardown(p: Pool, id: Cid)
    requires id in p.circs
    ensures Visit(p, Teardown, id) == DestroySet(p, {id})
  {
  }

  lemma TouchKeeps(p: Pool, pass: Pass, id: Cid)
    requires PoolInv(p)
    ensures PoolInv(Touch(p, pass, id))
  {
    TameOnly(p, Retired(p.circs, {id}));
  }

  lemma VisitKeeps(p: Pool, pass: Pass, id: Cid)
    requires PoolInv(p)
    ensures PoolInv(Visit(p, pass, id)) && Visit(p, pass, id).circs.Keys == p.circs.Keys
  {
    TouchKeeps(p, pass, id);
    DestroyKeeps(Touch(p, pass, id), {id});
  }

  lemma {:induction false} SweepKeeps(p: Pool, pass: Pass, list: seq<Cid>)
    requires PoolInv(p)
    ensures PoolInv(Sweep(p, pass, list)) && Sweep(p, pass, list).circs.Keys == p.circs.Keys
  {
    if list == [] {
    } else {
      SweepKeeps(p, pass, list[..|list| - 1]);
      VisitKeeps(Sweep(p, pass, list[..|list| - 1]), pass, list[|list| - 1]);
    }
  }

  function Members(list: seq<Cid>): (s: set<Cid>)
    ensures forall c :: c in s <==> c in list
  {
    set c | c in list
  }

  /** The members of `list` that the pass is to destroy, judged before it starts. */
  function DoomedOf(p: Pool, pass: Pass, list: seq<Cid>): (s: set<Cid>) {
    set c | c in list && c in p.circs && Doomed(p.circs[c], pass, p.maxDirty)
  }

  function TouchedOf(pass: Pass, list: seq<Cid>): (s: set<Cid>) {
    if pass.Identity? then Members(list) else {}
  }

  /** The pass at one stroke. */
  function AtOnce(p: Pool, touched: set<Cid>, gone: set<Cid>): (r: Pool) {
    DestroySet(p.(circs := Retired(p.circs, touched)), gone)
  }

  lemma RetireLater(circs: map<Cid, Circ>, touched: set<Cid>, gone: set<Cid>, id: Cid)
    ensures Retired(Closed(Retired(circs, touched), gone), {id}) == Closed(Retired(circs, touched + {id}), gone)
  {
  }

  lemma TouchAtOnce(p: Pool, touched: set<Cid>, gone: set<Cid>, pass: Pass, id: Cid)
    ensures Touch(AtOnce(p, touched, gone), pass, id) == AtOnce(p, touched + if pass.Identity? then {id} else {}, gone)
  {
    RetireLater(p.circs, touched, gone, id);
    assert touched + {} == touched;
  }

  lemma DoomedSnoc(p: Pool, pass: Pass, list: seq<Cid>, id: Cid)
    ensures DoomedOf(p, pass, list + [id]) ==
      DoomedOf(p, pass, list) + if id in p.circs && Doomed(p.circs[id], pass, p.maxDirty) then {id} else {}
    ensures TouchedOf(pass, list + [id]) == TouchedOf(pass, list) + if pass.Identity? then {id} else {}
  {
  }

  /** The verdict on a circuit is the same whenever the pass meets it. */
  lemma DoomStable(p: Pool, pass: Pass, list: seq<Cid>, id: Cid)
    requires id in p.circs
    ensures id in AtOnce(p, TouchedOf(pass, list), DoomedOf(p, pass, list)).circs
    ensures Doomed(AtOnce(p, TouchedOf(pass, list), DoomedOf(p, pass, list)).circs[id], pass, p.maxDirty)
      <==> Doomed(p.circs[id], pass, p.maxDirty)
  {
  }

  /** Walking the snapshot while the pools change under it does what the pass would do at one
      stroke. */
  lemma {:induction false} SweepAtOnce(p: Pool, pass: Pass, list: seq<Cid>)
    requires PoolInv(p)
    ensures Sweep(p, pass, list) == AtOnce(p, TouchedOf(pass, list), DoomedOf(p, pass, list))
  {
    if list == [] {
      assert TouchedOf(pass, list) == {} && DoomedOf(p, pass, list) == {};
      assert Retired(p.circs, {}) == p.circs;
      DestroyNone(p);
    } else {
      var n := |list| - 1;
      var id := list[n];
      SweepAtOnce(p, pass, list[..n]);
      assert list == list[..n] + [id];
      VisitAtOnce(p, pass, list[..n], id);
    }
  }

  lemma VisitAtOnce(p: Pool, pass: Pass, list: seq<Cid>, id: Cid)
    ensures Visit(AtOnce(p, TouchedOf(pass, list), DoomedOf(p, pass, list)), pass, id)
      == AtOnce(p, TouchedOf(pass, list + [id]), DoomedOf(p, pass, list + [id]))
  {
    var touched, gone := TouchedOf(pass, list), DoomedOf(p, pass, list);
    var after := TouchedOf(pass, list + [id]);
    DoomedSnoc(p, pass, list, id);
    TouchAtOnce(p, touched, gone, pass, id);
    if id in p.circs {
      DoomStable(p, pass, list, id);
      DestroyTwice(p.(circs := Retired(p.circs, after)), gone, {id});
    }
    assert gone + {} == gone;
  }

  /** `all` lists the pooled circuits, in any order. */
  ghost predicate Snapshot(p: Pool, all: seq<Cid>) {
    forall c :: c in all <==> InPool(p, c)
  }

  lemma SnapshotMembers(p: Pool, all: seq<Cid>)
    requires PoolInv(p) && Snapshot(p, all)
    ensures Members(all) == PooledSet(p) && forall c :: c in all ==> c in p.circs
  {
  }

  lemma SweepIsCloseAll(p: Pool, all: seq<Cid>)
    requires PoolInv(p) && Snapshot(p, all)
    ensures Sweep(p, Teardown, all) == CloseAll(p)
  {
    SnapshotMembers(p, all);
    SweepAtOnce(p, Teardown, all);
    assert DoomedOf(p, Teardown, all) == PooledSet(p);
    assert Retired(p.circs, {}) == p.circs;
  }

  lemma SweepIsReap(p: Pool, all: seq<Cid>, now: int)
    requires PoolInv(p) && Snapshot(p, all)
    ensures Sweep(p, Janitor(now), all) == Reap(p, now)
  {
    SnapshotMembers(p, all);
    SweepAtOnce(p, Janitor(now), all);
    assert DoomedOf(p, Janitor(now), all) == ReapSet(p, now);
    assert Retired(p.circs, {}) == p.circs;
  }

  lemma SweepIsNewIdentity(p: Pool, all: seq<Cid>)
    requires PoolInv(p) && Snapshot(p, all)
    ensures Sweep(p, Identity, all) == NewIdentity(p)
  {
    SnapshotMembers(p, all);
    SweepAtOnce(p, Identity, all);
    assert DoomedOf(p, Identity, all) == IdleSet(p);
  }

  class Client {
    var circs: map<Cid, Circ>
    var clearnetPool: seq<Cid>
    var onionPool: map<string, seq<Cid>>
    const maxDirty: int

    ghost function View(): (p: Pool)
      reads this
    {
      Pool(circs, clearnetPool, onionPool, maxDirty)
    }

    constructor (maxDirty: int)
      ensures View() == Pool(map[], [], map[], maxDirty)
    {
      circs, clearnetPool, onionPool, this.maxDirty := map[], [], map[], maxDirty;
    }

    /** reusableClearnetLocked and reusableOnionLocked. */
    method CountReusableIn(list: seq<Cid>) returns (n: nat)
      requires forall c :: c in list ==> c in circs
      ensures n == CountReusable(circs, list)
    {
      n := 0;
      for i := 0 to |list|
        invariant n == CountReusable(circs, list[..i])
      {
        assert list[..i + 1][..i] == list[..i];
        if !circs[list[i]].retired {
          n := n + 1;
        }
      }
      assert list[..|list|] == list;
    }

    /** The insertion of a freshly built circuit (dialClearnet, dialOnionViaDescriptor). */
    method InsertCircuit(id: Cid, born: int, host: string, ports: set<int>)
      requires PoolInv(View()) && id !in circs
      modifies this
      ensures View() == Insert(old(View()), id, born, host, ports) && PoolInv(View())
    {
      InsertKeeps(View(), id, born, host, ports);
      var retired: bool;
      if host == "" {
        var n := CountReusableIn(clearnetPool);
        retired := n >= MAX_CLEARNET;
        circs := circs[id := Circ(born, host, ports, 1, retired, false)];
        clearnetPool := clearnetPool + [id];
      } else {
        var list := if host in onionPool then onionPool[host] else [];
        assert host in onionPool ==> HostInv(View(), host);
        var n := CountReusableIn(list);
        retired := n >= MAX_ONION_PER_HOST || (host !in onionPool && |onionPool| >= MAX_ONION_HOSTS);
        circs := circs[id := Circ(born, host, ports, 1, retired, false)];
        onionPool := onionPool[host := list + [id]];
      }
    }

    /** acquireClearnet (with a port) and acquireOnion (without): the first circuit that may be
        reused gets one more stream. */
    method Acquire(list: seq<Cid>, now: int, port: Option<int>) returns (r: Option<Cid>)
      requires forall c :: c in list ==> c in circs
      modifies this`circs
      ensures r == FirstReusable(old(circs), list, now, maxDirty, port)
      ensures View() == if r.Some? then AddStream(old(View()), r.value) else old(View())
    {
      for i := 0 to |list|
        invariant circs == old(circs)
        invariant FirstReusable(circs, list, now, maxDirty, port)
               == FirstReusable(circs, list[i..], now, maxDirty, port)
      {
        var id := list[i];
        if Serves(circs[id], now, maxDirty, port) {
          circs := circs[id := circs[id].(streams := circs[id].streams + 1)];
          return Some(id);
        }
      }
      return None;
    }

    /** removePooled: a fresh list without `id`. */
    method RemovePooled(list: seq<Cid>, id: Cid) returns (out: seq<Cid>)
      ensures out == Without(list, {id})
    {
      out := [];
      for i := 0 to |list|
        invariant out == Without(list[..i], {id})
      {
        assert list[..i + 1][..i] == list[..i];
        if list[i] != id {
          out := out + [list[i]];
        }
      }
      assert list[..|list|] == list;
    }

    /** destroyLocked: tear the circuit down, drop it from its own list. */
    method DestroyLocked(id: Cid)
      requires PoolInv(View()) && id in circs
      modifies this
      ensures View() == DestroySet(old(View()), {id}) && PoolInv(View())
    {
      DestroyKeeps(View(), {id});
      OwnHost(View(), id);
      var host := circs[id].host;
      assert Closed(circs, {id}) == circs[id := circs[id].(closed := true)];
      circs := circs[id := circs[id].(closed := true)];
      if host == "" {
        clearnetPool := RemovePooled(clearnetPool, id);
      } else {
        var rest := RemovePooled(if host in onionPool then onionPool[host] else [], id);
        if |rest| == 0 {
          onionPool := onionPool - {host};
        } else {
          onionPool := onionPool[host := rest];
        }
      }
    }

    /** releaseStream. */
    method ReleaseStream(id: Cid, now: int)
      requires PoolInv(View()) && id in circs
      modifies this
      ensures View() == Release(old(View()), id, now) && PoolInv(View())
    {
      ghost var p := View();
      ReleaseKeeps(p, id, now);
      var c := circs[id];
      if c.streams > 0 {
        c := c.(streams := c.streams - 1);
        circs := circs[id := c];
      }
      assert circs == p.circs[id := c];
      TameOnly(p, circs);
      if c.streams == 0 && (c.retired || now - c.born >= maxDirty) {
        DestroyLocked(id);
      }
    }

    /** allPooledLocked: every pooled circuit, hosts in any order. */
    method AllPooled() returns (all: seq<Cid>)
      ensures Snapshot(View(), all)
    {
      all := clearnetPool;
      var hosts := onionPool.Keys;
      ghost var done: set<string> := {};
      while hosts != {}
        invariant hosts <= onionPool.Keys && done == onionPool.Keys - hosts
        invariant forall c :: c in all <==> c in clearnetPool || exists h :: h in done && c in onionPool[h]
        decreases |hosts|
      {
        var h :| h in hosts;
        all := all + onionPool[h];
        hosts, done := hosts - {h}, done + {h};
      }
    }

    /** The loop of Close and of RotateGuard: every circuit of the snapshot is destroyed. */
    method DestroyEverything()
      requires PoolInv(View())
      modifies this
      ensures View() == CloseAll(old(View()))
      ensures clearnetPool == [] && onionPool == map[]
    {
      ghost var p := View();
      CloseAllEmpties(p);
      var all := AllPooled();
      SnapshotMembers(p, all);
      for i := 0 to |all|
        invariant View() == Sweep(p, Teardown, all[..i])
      {
        assert all[..i + 1][..i] == all[..i];
        SweepKeeps(p, Teardown, all[..i]);
        DestroyLocked(all[i]);
        VisitTeardown(Sweep(p, Teardown, all[..i]), all[i]);
      }
      assert all[..|all|] == all;
      SweepIsCloseAll(p, all);
    }

    /** reap: the janitor's pass over the snapshot. */
    method Reap(now: int)
      requires PoolInv(View())
      modifies this
      ensures View() == CircuitPool.Reap(old(View()), now)
    {
      ghost var p := View();
      var all := AllPooled();
      SnapshotMembers(p, all);
      for i := 0 to |all|
        invariant View() == Sweep(p, Janitor(now), all[..i])
      {
        assert all[..i + 1][..i] == all[..i];
        SweepKeeps(p, Janitor(now), all[..i]);
        var c := circs[all[i]];
        if c.closed || (c.streams == 0 && (c.retired || now - c.born >= maxDirty)) {
          DestroyLocked(all[i]);
        }
      }
      assert all[..|all|] == all;
      SweepIsReap(p, all, now);
    }

    /** One circuit of NewIdentity's snapshot: retired, and destroyed if idle. */
    method RetireNext(id: Cid)
      requires PoolInv(View()) && id in circs
      modifies this
      ensures View() == Visit(old(View()), Identity, id)
    {
      TouchKeeps(View(), Identity, id);
      assert Retired(circs, {id}) == circs[id := circs[id].(retired := true)];
      circs := circs[id := circs[id].(retired := true)];
      if circs[id].streams == 0 {
        DestroyLocked(id);
      }
    }

    /** NewIdentity's pass over the snapshot. */
    method NewIdentity()
      requires PoolInv(View())
      modifies this
      ensures View() == CircuitPool.NewIdentity(old(View()))
    {
      ghost var p := View();
      var all := AllPooled();
      SnapshotMembers(p, all);
      for i := 0 to |all|
        invariant View() == Sweep(p, Identity, all[..i])
      {
        assert all[..i + 1][..i] == all[..i];
        SweepKeeps(p, Identity, all[..i]);
        RetireNext(all[i]);
      }
      assert all[..|all|] == all;
      SweepIsNewIdentity(p, all);
    }
  }
}
