/** The circuit pool (pool.go, client.go:258-292, 341-424): leases, retirement, reaping, caps and
    the teardown loops, as functions of the pool and as a system over whole runs. */
module CircuitPool {
  import opened Options

  const MAX_CLEARNET := 32
  const MAX_ONION_PER_HOST := 8
  const MAX_ONION_HOSTS := 64

  type Cid = nat

  /** A pooled circuit: `host` is "" for clearnet, `ports` what its exit permits, `streams` its
      active stream count. Circuits are kept after they leave the pool, as their streams may. */
  datatype Circ = Circ(born: int, host: string, ports: set<int>, streams: nat, retired: bool, closed: bool)

  datatype Pool = Pool(circs: map<Cid, Circ>, clearnet: seq<Cid>, onion: map<string, seq<Cid>>, maxDirty: int)

  /* ----- Operations ----- */

  predicate Reusable(c: Circ, now: int, maxDirty: int, matches: bool) {
    !c.closed && !c.retired && now - c.born < maxDirty && matches
  }

  predicate Expired(c: Circ, now: int, maxDirty: int) {
    now - c.born >= maxDirty
  }

  /** The circuits of `list` that are not retired. */
  function CountReusable(circs: map<Cid, Circ>, list: seq<Cid>): (n: nat) {
    if list == [] then 0
    else
      var c := list[|list| - 1];
      CountReusable(circs, list[..|list| - 1]) + if c in circs && !circs[c].retired then 1 else 0
  }

  function HostList(p: Pool, host: string): (list: seq<Cid>) {
    if host in p.onion then p.onion[host] else []
  }

  /** The list a circuit belongs to. */
  function OwnList(p: Pool, host: string): (list: seq<Cid>) {
    if host == "" then p.clearnet else HostList(p, host)
  }

  /** Whether a fresh circuit is served once and not kept for reuse. */
  predicate RetireNew(p: Pool, host: string) {
    if host == "" then CountReusable(p.circs, p.clearnet) >= MAX_CLEARNET
    else CountReusable(p.circs, HostList(p, host)) >= MAX_ONION_PER_HOST
         || (host !in p.onion && |p.onion| >= MAX_ONION_HOSTS)
  }

  /** A freshly built circuit joins the pool with its first stream. */
  function Insert(p: Pool, id: Cid, born: int, host: string, ports: set<int>): (r: Pool) {
    var c := Circ(born, host, ports, 1, RetireNew(p, host), false);
    if host == "" then p.(circs := p.circs[id := c], clearnet := p.clearnet + [id])
    else p.(circs := p.circs[id := c], onion := p.onion[host := HostList(p, host) + [id]])
  }

  /** The circuit may carry a new stream; for clearnet its exit must permit the port. */
  predicate Serves(c: Circ, now: int, maxDirty: int, port: Option<int>) {
    Reusable(c, now, maxDirty, port.None? || port.value in c.ports)
  }

  /** Position k holds the first circuit of `list` that serves. */
  predicate FirstAt(circs: map<Cid, Circ>, list: seq<Cid>, now: int, maxDirty: int, port: Option<int>, k: nat) {
    && k < |list| && list[k] in circs && Serves(circs[list[k]], now, maxDirty, port)
    && forall j :: 0 <= j < k && list[j] in circs ==> !Serves(circs[list[j]], now, maxDirty, port)
  }

  lemma FirstInTail(circs: map<Cid, Circ>, list: seq<Cid>, now: int, maxDirty: int, port: Option<int>)
    requires list != [] && (list[0] in circs ==> !Serves(circs[list[0]], now, maxDirty, port))
    ensures forall k: nat :: FirstAt(circs, list[1..], now, maxDirty, port, k) ==>
      FirstAt(circs, list, now, maxDirty, port, k + 1) && list[k + 1] == list[1..][k]
  {
    forall k: nat | FirstAt(circs, list[1..], now, maxDirty, port, k)
      ensures FirstAt(circs, list, now, maxDirty, port, k + 1)
    {
      forall j | 0 <= j < k + 1 && list[j] in circs
        ensures !Serves(circs[list[j]], now, maxDirty, port)
      {
        assert j > 0 ==> list[1..][j - 1] == list[j];
      }
    }
  }

  /** The first circuit of `list` that may carry a new stream; `port` matters for clearnet. */
  function FirstReusable(circs: map<Cid, Circ>, list: seq<Cid>, now: int, maxDirty: int, port: Option<int>)
    : (r: Option<Cid>)
    ensures r.Some? ==> exists k: nat :: FirstAt(circs, list, now, maxDirty, port, k) && list[k] == r.value
    ensures r.None? ==> forall c :: c in list && c in circs ==> !Serves(circs[c], now, maxDirty, port)
  {
    if list == [] then None
    else
      var c := list[0];
      if c in circs && Serves(circs[c], now, maxDirty, port) then
        assert FirstAt(circs, list, now, maxDirty, port, 0);
        Some(c)
      else
        FirstInTail(circs, list, now, maxDirty, port);
        FirstReusable(circs, list[1..], now, maxDirty, port)
  }

  function AddStream(p: Pool, id: Cid): (r: Pool)
    requires id in p.circs
  {
    p.(circs := p.circs[id := p.circs[id].(streams := p.circs[id].streams + 1)])
  }

  /** `list` without the members of `gone`. */
  function Without(list: seq<Cid>, gone: set<Cid>): (r: seq<Cid>) {
    if list == [] then []
    else Without(list[..|list| - 1], gone) + if list[|list| - 1] in gone then [] else [list[|list| - 1]]
  }

  function OnionWithout(onion: map<string, seq<Cid>>, gone: set<Cid>): (r: map<string, seq<Cid>>) {
    map h | h in onion && Without(onion[h], gone) != [] :: Without(onion[h], gone)
  }

  function Closed(circs: map<Cid, Circ>, gone: set<Cid>): (r: map<Cid, Circ>)
    ensures r.Keys == circs.Keys
    ensures forall c :: c in circs ==> r[c] == if c in gone then circs[c].(closed := true) else circs[c]
  {
    map c | c in circs :: if c in gone then circs[c].(closed := true) else circs[c]
  }

  /** Tears down the circuits in `gone` and drops them from the pool; a host left with none loses
      its entry. */
  function DestroySet(p: Pool, gone: set<Cid>): (r: Pool) {
    p.(circs := Closed(p.circs, gone), clearnet := Without(p.clearnet, gone), onion := OnionWithout(p.onion, gone))
  }

  /** releaseStream. */
  function Release(p: Pool, id: Cid, now: int): (r: Pool)
    requires id in p.circs
  {
    var c := p.circs[id];
    var left := if c.streams > 0 then c.streams - 1 else 0;
    var q := p.(circs := p.circs[id := c.(streams := left)]);
    if left == 0 && (c.retired || Expired(c, now, p.maxDirty)) then DestroySet(q, {id}) else q
  }

  ghost predicate InPool(p: Pool, id: Cid) {
    id in p.clearnet || exists h :: h in p.onion && id in p.onion[h]
  }

  ghost function PooledSet(p: Pool): (s: set<Cid>) {
    set c | c in p.circs && InPool(p, c)
  }

  /** What the janitor destroys: dead circuits, and idle ones that are no longer reusable. */
  predicate ReapDoomed(c: Circ, now: int, maxDirty: int) {
    c.closed || (c.streams == 0 && (c.retired || Expired(c, now, maxDirty)))
  }

  ghost function ReapSet(p: Pool, now: int): (s: set<Cid>) {
    set c | c in PooledSet(p) && ReapDoomed(p.circs[c], now, p.maxDirty)
  }

  ghost function Reap(p: Pool, now: int): (r: Pool) {
    DestroySet(p, ReapSet(p, now))
  }

  function Retired(circs: map<Cid, Circ>, pooled: set<Cid>): (r: map<Cid, Circ>)
    ensures r.Keys == circs.Keys
    ensures forall c :: c in circs ==> r[c] == if c in pooled then circs[c].(retired := true) else circs[c]
  {
    map c | c in circs :: if c in pooled then circs[c].(retired := true) else circs[c]
  }

  /** Every pooled circuit is retired, and destroyed at once if it carries no stream. */
  ghost function NewIdentity(p: Pool): (r: Pool) {
    DestroySet(p.(circs := Retired(p.circs, PooledSet(p))), IdleSet(p))
  }

  ghost function IdleSet(p: Pool): (s: set<Cid>) {
    set c | c in PooledSet(p) && p.circs[c].streams == 0
  }

  ghost function CloseAll(p: Pool): (r: Pool) {
    DestroySet(p, PooledSet(p))
  }

  /* ----- Facts about lists ----- */

  ghost predicate NoDup(list: seq<Cid>) {
    forall i, j :: 0 <= i < j < |list| ==> list[i] != list[j]
  }

  lemma {:induction false} WithoutMembers(list: seq<Cid>, gone: set<Cid>)
    ensures forall c :: c in Without(list, gone) <==> c in list && c !in gone
    ensures NoDup(list) ==> NoDup(Without(list, gone))
    ensures |Without(list, gone)| <= |list|
  {
    if list == [] {
    } else {
      var n := |list| - 1;
      WithoutMembers(list[..n], gone);
      assert list == list[..n] + [list[n]];
      assert NoDup(list) ==> NoDup(list[..n]) && list[n] !in list[..n];
    }
  }

  lemma {:induction false} WithoutTwice(list: seq<Cid>, a: set<Cid>, b: set<Cid>)
    ensures Without(Without(list, a), b) == Without(list, a + b)
  {
    if list == [] {
    } else {
      var n := |list| - 1;
      WithoutTwice(list[..n], a, b);
      var w := Without(list[..n], a);
      assert (w + [list[n]])[..|w|] == w;
      assert w + [] == w;
    }
  }

  lemma {:induction false} WithoutNone(list: seq<Cid>, gone: set<Cid>)
    requires forall c :: c in list ==> c !in gone
    ensures Without(list, gone) == list
  {
    if list == [] {
    } else {
      var n := |list| - 1;
      assert list[n] in list;
      WithoutNone(list[..n], gone);
    }
  }

  lemma {:induction false} CountSame(m: map<Cid, Circ>, k: map<Cid, Circ>, list: seq<Cid>)
    requires forall c :: c in list && c in k && !k[c].retired ==> c in m && !m[c].retired
    ensures CountReusable(k, list) <= CountReusable(m, list)
  {
    if list == [] {
    } else {
      var n := |list| - 1;
      assert list[n] in list;
      CountSame(m, k, list[..n]);
    }
  }

  lemma {:induction false} CountWithout(circs: map<Cid, Circ>, list: seq<Cid>, gone: set<Cid>)
    ensures CountReusable(circs, Without(list, gone)) <= CountReusable(circs, list)
  {
    if list == [] {
    } else {
      var n := |list| - 1;
      CountWithout(circs, list[..n], gone);
      var w := Without(list[..n], gone);
      assert (w + [list[n]])[..|w|] == w;
      assert w + [] == w;
    }
  }

  /* ----- What every operation keeps ----- */

  /** A list of circuits that all belong to `host`, each once. */
  ghost predicate Housed(circs: map<Cid, Circ>, list: seq<Cid>, host: string) {
    NoDup(list) && forall c :: c in list ==> c in circs && circs[c].host == host
  }

  /** Each pooled circuit sits once in its own pool, no host has an empty entry, and the reusable
      circuits are within the caps. */
  ghost predicate PoolInv(p: Pool) {
    && Housed(p.circs, p.clearnet, "") && CountReusable(p.circs, p.clearnet) <= MAX_CLEARNET
    && forall h :: h in p.onion ==> HostInv(p, h)
  }

  ghost predicate HostInv(p: Pool, h: string)
    requires h in p.onion
  {
    && h != "" && p.onion[h] != []
    && Housed(p.circs, p.onion[h], h) && CountReusable(p.circs, p.onion[h]) <= MAX_ONION_PER_HOST
  }

  lemma PooledKnown(p: Pool, id: Cid)
    requires PoolInv(p) && InPool(p, id)
    ensures id in p.circs
  {
  }

  /** `k` has the circuits of `m`, in the same hosts, and none that was retired is usable again. */
  ghost predicate Tame(m: map<Cid, Circ>, k: map<Cid, Circ>) {
    forall c :: c in m ==> c in k && k[c].host == m[c].host && (m[c].retired ==> k[c].retired)
  }

  lemma TameKeepsList(m: map<Cid, Circ>, k: map<Cid, Circ>, list: seq<Cid>, gone: set<Cid>, host: string)
    requires Tame(m, k) && Housed(m, list, host)
    ensures Housed(k, Without(list, gone), host)
    ensures CountReusable(k, Without(list, gone)) <= CountReusable(m, list)
  {
    WithoutMembers(list, gone);
    CountSame(m, k, list);
    CountWithout(k, list, gone);
  }

  /** Changing circuits without un-retiring any, and dropping some from the pool. */
  lemma TameKeepsPool(p: Pool, r: Pool, gone: set<Cid>)
    requires PoolInv(p) && Tame(p.circs, r.circs)
    requires r.clearnet == Without(p.clearnet, gone)
    requires r.onion == OnionWithout(p.onion, gone)
    ensures PoolInv(r)
  {
    TameKeepsList(p.circs, r.circs, p.clearnet, gone, "");
    forall h | h in r.onion
      ensures HostInv(r, h)
    {
      assert HostInv(p, h);
      TameKeepsList(p.circs, r.circs, p.onion[h], gone, h);
    }
  }

  lemma TameOnly(p: Pool, circs: map<Cid, Circ>)
    requires PoolInv(p) && Tame(p.circs, circs)
    ensures PoolInv(p.(circs := circs))
  {
    WithoutNone(p.clearnet, {});
    forall h | h in p.onion
      ensures Without(p.onion[h], {}) == p.onion[h] != []
    {
      assert HostInv(p, h);
      WithoutNone(p.onion[h], {});
    }
    assert p.onion == OnionWithout(p.onion, {});
    TameKeepsPool(p, p.(circs := circs), {});
  }

  lemma DestroyKeeps(p: Pool, gone: set<Cid>)
    requires PoolInv(p)
    ensures PoolInv(DestroySet(p, gone))
  {
    TameKeepsPool(p, DestroySet(p, gone), gone);
  }

  /** Counting after a fresh circuit has been appended. */
  lemma CountInsert(circs: map<Cid, Circ>, list: seq<Cid>, id: Cid, c: Circ)
    requires id !in circs && forall x :: x in list ==> x in circs
    ensures CountReusable(circs[id := c], list) <= CountReusable(circs, list)
    ensures CountReusable(circs[id := c], list + [id]) <= CountReusable(circs, list) + if c.retired then 0 else 1
  {
    CountSame(circs, circs[id := c], list);
    assert (list + [id])[..|list|] == list;
  }

  /** A list of other circuits is as it was after a fresh one has been added. */
  lemma OtherListKept(circs: map<Cid, Circ>, list: seq<Cid>, host: string, id: Cid, c: Circ)
    requires Housed(circs, list, host) && id !in circs
    ensures Housed(circs[id := c], list, host)
    ensures CountReusable(circs[id := c], list) <= CountReusable(circs, list)
  {
    CountInsert(circs, list, id, c);
  }

  lemma GrownListKept(circs: map<Cid, Circ>, list: seq<Cid>, host: string, id: Cid, c: Circ)
    requires Housed(circs, list, host) && id !in circs && c.host == host
    ensures Housed(circs[id := c], list + [id], host)
    ensures CountReusable(circs[id := c], list + [id]) <= CountReusable(circs, list) + if c.retired then 0 else 1
  {
    CountInsert(circs, list, id, c);
  }

  lemma InsertKeeps(p: Pool, id: Cid, born: int, host: string, ports: set<int>)
    requires PoolInv(p) && id !in p.circs
    ensures PoolInv(Insert(p, id, born, host, ports))
  {
    var r := Insert(p, id, born, host, ports);
    var c := r.circs[id];
    if host == "" {
      GrownListKept(p.circs, p.clearnet, "", id, c);
    } else {
      OtherListKept(p.circs, p.clearnet, "", id, c);
      assert host in p.onion ==> HostInv(p, host);
      GrownListKept(p.circs, HostList(p, host), host, id, c);
    }
    forall h | h in r.onion
      ensures HostInv(r, h)
    {
      if h != host {
        assert HostInv(p, h);
        OtherListKept(p.circs, p.onion[h], h, id, c);
      } else {
        assert h in p.onion ==> HostInv(p, h);
      }
    }
  }

  lemma AddStreamKeeps(p: Pool, id: Cid)
    requires PoolInv(p) && id in p.circs
    ensures PoolInv(AddStream(p, id))
  {
    TameOnly(p, AddStream(p, id).circs);
  }

  lemma ReleaseKeeps(p: Pool, id: Cid, now: int)
    requires PoolInv(p) && id in p.circs
    ensures PoolInv(Release(p, id, now))
  {
    var c := p.circs[id];
    var q := p.(circs := p.circs[id := c.(streams := if c.streams > 0 then c.streams - 1 else 0)]);
    TameOnly(p, q.circs);
    DestroyKeeps(q, {id});
  }

  lemma NewIdentityKeeps(p: Pool)
    requires PoolInv(p)
    ensures PoolInv(NewIdentity(p))
  {
    var q := p.(circs := Retired(p.circs, PooledSet(p)));
    TameOnly(p, q.circs);
    DestroyKeeps(q, IdleSet(p));
  }

  /* ----- What stays in the pool ----- */

  /** Tearing circuits down removes them from the pool and nothing else. */
  lemma DestroyLeaves(p: Pool, gone: set<Cid>, c: Cid)
    ensures InPool(DestroySet(p, gone), c) <==> InPool(p, c) && c !in gone
  {
    var r := DestroySet(p, gone);
    WithoutMembers(p.clearnet, gone);
    forall h | h in p.onion
      ensures c in Without(p.onion[h], gone) <==> c in p.onion[h] && c !in gone
    {
      WithoutMembers(p.onion[h], gone);
    }
    if InPool(p, c) && c !in gone && c !in p.clearnet {
      var h :| h in p.onion && c in p.onion[h];
      assert h in r.onion && c in r.onion[h];
    }
  }

  /** The janitor leaves exactly the live circuits that are in use or still reusable. */
  lemma ReapLeaves(p: Pool, now: int, c: Cid)
    requires PoolInv(p)
    ensures InPool(Reap(p, now), c) <==>
      InPool(p, c) && c in p.circs && !p.circs[c].closed
      && (p.circs[c].streams > 0 || (!p.circs[c].retired && now - p.circs[c].born < p.maxDirty))
  {
    DestroyLeaves(p, ReapSet(p, now), c);
    if InPool(p, c) {
      PooledKnown(p, c);
    }
  }

  /** NewIdentity leaves exactly the circuits in use, all retired. */
  lemma NewIdentityLeaves(p: Pool, c: Cid)
    requires PoolInv(p)
    ensures InPool(NewIdentity(p), c) <==> InPool(p, c) && c in p.circs && p.circs[c].streams > 0
    ensures InPool(p, c) ==> c in NewIdentity(p).circs && NewIdentity(p).circs[c].retired
  {
    var q := p.(circs := Retired(p.circs, PooledSet(p)));
    DestroyLeaves(q, IdleSet(p), c);
    assert InPool(q, c) <==> InPool(p, c);
    if InPool(p, c) {
      PooledKnown(p, c);
      assert c in PooledSet(p);
    }
  }

  /** Releasing a stream takes the circuit out of the pool exactly when the last stream goes and the
      circuit is retired or expired. */
  lemma ReleaseLeaves(p: Pool, id: Cid, now: int, c: Cid)
    requires id in p.circs
    ensures InPool(Release(p, id, now), c) <==>
      InPool(p, c)
      && !(c == id && p.circs[id].streams <= 1 && (p.circs[id].retired || now - p.circs[id].born >= p.maxDirty))
  {
    var was := p.circs[id];
    var q := p.(circs := p.circs[id := was.(streams := if was.streams > 0 then was.streams - 1 else 0)]);
    assert InPool(q, c) <==> InPool(p, c);
    DestroyLeaves(q, {id}, c);
  }

  /* ----- What a pass closes ----- */

  /** `k` differs from `m` in closing exactly the circuits in `gone`. */
  ghost predicate ClosesJust(m: map<Cid, Circ>, k: map<Cid, Circ>, gone: set<Cid>) {
    forall c :: c in m ==> c in k && (k[c].closed <==> m[c].closed || c in gone)
  }

  /** Circuits that have left the pool are closed: none leaks. */
  ghost predicate NoLeak(p: Pool) {
    forall c :: c in p.circs ==> InPool(p, c) || p.circs[c].closed
  }

  /** Tearing circuits down closes exactly them, so nothing leaves the pool open. */
  lemma DestroyCloses(p: Pool, gone: set<Cid>)
    ensures ClosesJust(p.circs, DestroySet(p, gone).circs, gone)
    ensures NoLeak(p) ==> NoLeak(DestroySet(p, gone))
  {
    forall c | c in p.circs
      ensures NoLeak(p) ==> InPool(DestroySet(p, gone), c) || DestroySet(p, gone).circs[c].closed
    {
      DestroyLeaves(p, gone, c);
    }
  }

  /* ----- Caps, counted ----- */

  /** The circuits of a list that may be reused. */
  ghost function ReusableSet(circs: map<Cid, Circ>, list: seq<Cid>): (s: set<Cid>) {
    set c | c in list && c in circs && !circs[c].retired
  }

  lemma {:induction false} CountIsSize(circs: map<Cid, Circ>, list: seq<Cid>)
    requires NoDup(list)
    ensures CountReusable(circs, list) == |ReusableSet(circs, list)|
  {
    if list == [] {
    } else {
      var n := |list| - 1;
      assert list == list[..n] + [list[n]];
      assert list[n] !in list[..n];
      CountIsSize(circs, list[..n]);
      var before, after := ReusableSet(circs, list[..n]), ReusableSet(circs, list);
      assert after == before + if list[n] in circs && !circs[list[n]].retired then {list[n]} else {};
    }
  }

  /** At most 32 reusable clearnet circuits and 8 for each onion host. */
  lemma Caps(p: Pool)
    requires PoolInv(p)
    ensures |ReusableSet(p.circs, p.clearnet)| <= 32
    ensures forall h :: h in p.onion ==> |ReusableSet(p.circs, p.onion[h])| <= 8
  {
    CountIsSize(p.circs, p.clearnet);
    forall h | h in p.onion
      ensures |ReusableSet(p.circs, p.onion[h])| <= 8
    {
      assert HostInv(p, h);
      CountIsSize(p.circs, p.onion[h]);
    }
  }

  /** A new circuit is kept for reuse exactly while its list, and for a new onion host the number of
      hosts, is below the cap. */
  lemma InsertedReusableIff(p: Pool, id: Cid, born: int, host: string, ports: set<int>)
    requires PoolInv(p)
    ensures var c := Insert(p, id, born, host, ports).circs[id];
      && c.born == born && c.host == host && c.ports == ports && c.streams == 1 && !c.closed
      && (!c.retired <==>
            if host == "" then |ReusableSet(p.circs, p.clearnet)| < 32
            else if host in p.onion then |ReusableSet(p.circs, p.onion[host])| < 8
            else |p.onion| < 64)
  {
    CountIsSize(p.circs, p.clearnet);
    if host in p.onion {
      assert HostInv(p, host);
      CountIsSize(p.circs, p.onion[host]);
    }
  }

  /** A circuit that was inserted below the cap serves the next dial to its host, or to a port that
      its exit permits, while it is within the dirtiness window. */
  lemma InsertedServes(p: Pool, id: Cid, born: int, host: string, ports: set<int>, port: int, now: int)
    requires PoolInv(p) && !Insert(p, id, born, host, ports).circs[id].retired
    requires now - born < p.maxDirty && (host == "" ==> port in ports)
    ensures var r := Insert(p, id, born, host, ports);
      FirstReusable(r.circs, OwnList(r, host), now, r.maxDirty, if host == "" then Some(port) else None).Some?
  {
    var r := Insert(p, id, born, host, ports);
    assert OwnList(r, host)[|OwnList(r, host)| - 1] == id;
    assert id in OwnList(r, host) && Serves(r.circs[id], now, r.maxDirty, if host == "" then Some(port) else None);
  }

  lemma {:induction false} WithoutAll(list: seq<Cid>, gone: set<Cid>)
    requires forall c :: c in list ==> c in gone
    ensures Without(list, gone) == []
  {
    if list == [] {
    } else {
      assert list[|list| - 1] in list;
      WithoutAll(list[..|list| - 1], gone);
    }
  }

  /** Destroying every pooled circuit leaves both pools empty. */
  lemma CloseAllEmpties(p: Pool)
    requires PoolInv(p)
    ensures CloseAll(p).clearnet == [] && CloseAll(p).onion == map[]
  {
    var gone := PooledSet(p);
    WithoutAll(p.clearnet, gone);
    forall h | h in p.onion
      ensures Without(p.onion[h], gone) == []
    {
      assert HostInv(p, h);
      forall c | c in p.onion[h]
        ensures c in gone
      {
        assert InPool(p, c);
      }
      WithoutAll(p.onion[h], gone);
    }
  }
}
