/** The isolation key of a credential pair (pkg/proxyauth/proxyauth.go). */
module ProxyAuth {
  const NUL := 0 as char

  function IsoKey(user: string, pass: string): (key: string) {
    if user == "" && pass == "" then "" else user + [NUL] + pass
  }

  /** The key of a pair: empty for no credentials, otherwise the user name, one NUL, the password. */
  lemma KeyLayout(user: string, pass: string)
    ensures IsoKey("", "") == ""
    ensures (user, pass) != ("", "") ==>
      var key := IsoKey(user, pass);
      |key| == |user| + 1 + |pass| && key[..|user|] == user && key[|user|] == 0 as char && key[|user| + 1..] == pass
  {
  }

  lemma JoinedAt(user: string, pass: string, i: nat)
    requires i < |user| + 1 + |pass|
    ensures var key := user + [NUL] + pass;
      key[i] == if i < |user| then user[i] else if i == |user| then NUL else pass[i - |user| - 1]
  {
  }

  /** The key determines the pair once the length of the user name is known. */
  lemma SameSplit(u: string, p: string, v: string, q: string)
    requires u + [NUL] + p == v + [NUL] + q && |u| == |v|
    ensures u == v && p == q
  {
    var k, l := u + [NUL] + p, v + [NUL] + q;
    assert u == k[..|u|] && v == l[..|v|];
    assert p == k[|u| + 1..] && q == l[|v| + 1..];
  }

  /** A longer user name has swallowed the separator of the other pair. */
  lemma LongerHoldsNul(u: string, p: string, v: string, q: string)
    requires u + [NUL] + p == v + [NUL] + q && |u| < |v|
    ensures NUL in v && NUL in p
  {
    JoinedAt(u, p, |u|);
    JoinedAt(v, q, |u|);
    assert v[|u|] == NUL;
    JoinedAt(u, p, |v|);
    JoinedAt(v, q, |v|);
    assert p[|v| - |u| - 1] == NUL;
  }

  /** Pairs without a NUL byte never share a key. */
  lemma KeyInjective(u: string, p: string, v: string, q: string)
    requires NUL !in u && NUL !in p && IsoKey(u, p) == IsoKey(v, q)
    ensures u == v && p == q
  {
    if (u == "" && p == "") || (v == "" && q == "") {
      assert |IsoKey(u, p)| == |IsoKey(v, q)|;
    } else if |u| == |v| {
      SameSplit(u, p, v, q);
    } else if |u| < |v| {
      LongerHoldsNul(u, p, v, q);
    } else {
      LongerHoldsNul(v, q, u, p);
    }
  }

  ghost predicate Collides(u: string, p: string) {
    exists v, q :: (v, q) != (u, p) && IsoKey(v, q) == IsoKey(u, p)
  }

  /** Moving the split to a NUL inside the user name. */
  lemma SplitInUser(u: string, p: string, i: nat)
    requires i < |u| && u[i] == NUL
    ensures Collides(u, p)
  {
    var v, q := u[..i], u[i + 1..] + [NUL] + p;
    assert v + [NUL] + q == u + [NUL] + p by {
      assert u == u[..i] + [NUL] + u[i + 1..];
    }
    assert (v, q) != (u, p);
    assert IsoKey(v, q) == IsoKey(u, p);
  }

  lemma SplitInPass(u: string, p: string, i: nat)
    requires i < |p| && p[i] == NUL
    ensures Collides(u, p)
  {
    var v, q := u + [NUL] + p[..i], p[i + 1..];
    assert v + [NUL] + q == u + [NUL] + p by {
      assert p == p[..i] + [NUL] + p[i + 1..];
    }
    assert |v| > |u|;
    assert (v, q) != (u, p);
    assert IsoKey(v, q) == IsoKey(u, p);
  }

  /** The mapping is ambiguous exactly at the pairs in which a NUL byte occurs. */
  lemma CollidesIff(u: string, p: string)
    ensures Collides(u, p) <==> NUL in u || NUL in p
  {
    if NUL in u {
      var i :| 0 <= i < |u| && u[i] == NUL;
      SplitInUser(u, p, i);
    } else if NUL in p {
      var i :| 0 <= i < |p| && p[i] == NUL;
      SplitInPass(u, p, i);
    } else if Collides(u, p) {
      var v, q :| (v, q) != (u, p) && IsoKey(v, q) == IsoKey(u, p);
      KeyInjective(u, p, v, q);
    }
  }

  /** Nothing in IsoKey itself keeps NUL out: two distinct pairs with one key. */
  lemma Collision()
    ensures IsoKey("a" + [NUL] + "b", "c") == IsoKey("a", "b" + [NUL] + "c")
    ensures ("a" + [NUL] + "b", "c") != ("a", "b" + [NUL] + "c")
  {
    assert IsoKey("a" + [NUL] + "b", "c") == ['a', NUL, 'b', NUL, 'c'];
    assert IsoKey("a", "b" + [NUL] + "c") == ['a', NUL, 'b', NUL, 'c'];
    assert |"a" + [NUL] + "b"| == 3;
  }
}

/** The identity pool (cmd/go-tor-client/client_pool.go): one client per isolation key, built at
    most once at a time while the pool lock is released. */
module IdentityPool {
  import opened ProxyAuth
  import opened Options

  const MAX_CLIENTS := 64

  /** A handle to a bootstrapped client. */
  type Client = nat

  datatype Outcome = Ok(client: Client) | BootstrapFailed | AtCapacity | Cancelled

  /** A build is named by the call that started it. */
  datatype Pool = Pool(clients: map<string, Client>, building: map<string, nat>)

  datatype Verdict = Found(client: Client) | Join(build: nat) | Refused | Start

  /* ----- The two locked sections of clientFor ----- */

  function Enter(p: Pool, key: string): (v: Verdict) {
    if key in p.clients then Found(p.clients[key])
    else if key in p.building then Join(p.building[key])
    else if |p.clients| + |p.building| >= MAX_CLIENTS then Refused
    else Start
  }

  function Begun(p: Pool, key: string, me: nat): (r: Pool) {
    p.(building := p.building[key := me])
  }

  function Installed(p: Pool, key: string, res: Outcome): (r: Pool) {
    Pool(if res.Ok? then p.clients[key := res.client] else p.clients, p.building - {key})
  }

  /** The pool's maps, updated in place while the lock is held. */
  class ClientPool {
    var clients: map<string, Client>
    var building: map<string, nat>

    ghost function View(): (p: Pool)
      reads this
    {
      Pool(clients, building)
    }

    constructor (base: Client)
      ensures View() == Pool(map["" := base], map[])
    {
      clients, building := map["" := base], map[];
    }

    /** First section: look the key up, join its build, refuse, or start a build. */
    method Lookup(key: string, me: nat) returns (v: Verdict)
      requires PoolInv(View())
      modifies this
      ensures v == Enter(old(View()), key)
      ensures View() == if v.Start? then Begun(old(View()), key, me) else old(View())
      ensures PoolInv(View())
    {
      if key in clients {
        return Found(clients[key]);
      }
      if key in building {
        return Join(building[key]);
      }
      if |clients| + |building| >= MAX_CLIENTS {
        return Refused;
      }
      BegunKeepsPool(View(), key, me);
      building := building[key := me];
      return Start;
    }

    /** Second section: the build is over, and on success its client becomes the key's. */
    method Install(key: string, res: Outcome)
      requires PoolInv(View()) && key in building
      modifies this
      ensures View() == Installed(old(View()), key, res)
      ensures PoolInv(View())
      ensures forall k :: k in old(clients) ==> k in clients && clients[k] == old(clients)[k]
    {
      InstalledKeepsPool(View(), key, res);
      building := building - {key};
      if res.Ok? {
        clients := clients[key := res.client];
      }
    }
  }

  ghost predicate PoolInv(p: Pool) {
    p.clients.Keys !! p.building.Keys && |p.clients| + |p.building| <= MAX_CLIENTS
  }

  lemma BegunKeepsPool(p: Pool, key: string, me: nat)
    requires PoolInv(p) && Enter(p, key) == Start
    ensures PoolInv(Begun(p, key, me))
  {
  }

  lemma InstalledKeepsPool(p: Pool, key: string, res: Outcome)
    requires PoolInv(p) && key in p.building
    ensures PoolInv(Installed(p, key, res))
  {
  }

  /* ----- Runs ----- */

  /** Where a call of clientFor stands. */
  datatype Phase =
    | Bootstrapping
    | Bootstrapped(res: Outcome)
    | Publishing(res: Outcome)
    | Waiting(build: nat)
    | Finished(out: Outcome)

  /** `via` is the build that the call joined, if it joined one. */
  datatype Call = Call(key: string, via: Option<nat>, phase: Phase)

  /** clientBuild: `result` is set, and `done` closed, in one step. */
  datatype Build = Build(key: string, result: Option<Outcome>)

  datatype State = State(pool: Pool, calls: map<nat, Call>, builds: map<nat, Build>, made: set<Client>)

  function Init(base: Client): (s: State) {
    State(Pool(map["" := base], map[]), map[], map[], {base})
  }

  datatype Action =
    | Enters(t: nat, key: string)
    | BootEnds(t: nat, res: Outcome)
    | Installs(t: nat)
    | Publishes(t: nat)
    | Wakes(t: nat)
    | CtxDone(t: nat)

  predicate Enabled(s: State, a: Action) {
    if a.Enters? then a.t !in s.calls && a.t !in s.builds
    else
      && a.t in s.calls
      && var ph := s.calls[a.t].phase;
        match a
        case BootEnds(_, res) => ph.Bootstrapping? && (res.Ok? || res.BootstrapFailed?)
        case Installs(_) => ph.Bootstrapped?
        case Publishes(_) => ph.Publishing? && a.t in s.builds
        case Wakes(_) => ph.Waiting? && ph.build in s.builds && s.builds[ph.build].result.Some?
        case CtxDone(_) => ph.Waiting?
  }

  function Moved(s: State, t: nat, phase: Phase): (r: State)
    requires t in s.calls
  {
    s.(calls := s.calls[t := Call(s.calls[t].key, s.calls[t].via, phase)])
  }

  function Entered(s: State, t: nat, key: string): (r: State) {
    match Enter(s.pool, key)
    case Found(c) => s.(calls := s.calls[t := Call(key, None, Finished(Ok(c)))])
    case Join(b) => s.(calls := s.calls[t := Call(key, Some(b), Waiting(b))])
    case Refused => s.(calls := s.calls[t := Call(key, None, Finished(AtCapacity))])
    case Start =>
      s.(pool := Begun(s.pool, key, t),
         calls := s.calls[t := Call(key, None, Bootstrapping)],
         builds := s.builds[t := Build(key, None)])
  }

  function Apply(s: State, a: Action): (r: State) {
    if !Enabled(s, a) then s
    else match a
      case Enters(t, key) => Entered(s, t, key)
      case BootEnds(t, res) =>
        Moved(s, t, Bootstrapped(res)).(made := if res.Ok? then s.made + {res.client} else s.made)
      case Installs(t) =>
        var res := s.calls[t].phase.res;
        Moved(s, t, Publishing(res)).(pool := Installed(s.pool, s.calls[t].key, res))
      case Publishes(t) =>
        var res := s.calls[t].phase.res;
        Moved(s, t, Finished(res)).(builds := s.builds[t := s.builds[t].(result := Some(res))])
      case Wakes(t) => Moved(s, t, Finished(s.builds[s.calls[t].phase.build].result.value))
      case CtxDone(t) => Moved(s, t, Finished(Cancelled))
  }

  function Exec(s: State, acts: seq<Action>): (r: State)
    decreases |acts|
  {
    if acts == [] then s else Apply(Exec(s, acts[..|acts| - 1]), acts[|acts| - 1])
  }

  /* ----- What every step keeps ----- */

  predicate Owns(p: Pool, key: string, t: nat) {
    key in p.building && p.building[key] == t
  }

  /** `out`, if a success, is the client installed for `key`. */
  predicate Backed(p: Pool, key: string, out: Outcome) {
    out.Ok? ==> key in p.clients && p.clients[key] == out.client
  }

  predicate OpenBuild(builds: map<nat, Build>, t: nat, key: string) {
    t in builds && builds[t] == Build(key, None)
  }

  predicate CallOk(p: Pool, builds: map<nat, Build>, t: nat, c: Call) {
    match c.phase
    case Bootstrapping => Owns(p, c.key, t) && OpenBuild(builds, t, c.key)
    case Bootstrapped(_) => Owns(p, c.key, t) && OpenBuild(builds, t, c.key)
    case Publishing(res) => Backed(p, c.key, res) && OpenBuild(builds, t, c.key)
    case Waiting(b) => b in builds && builds[b].key == c.key
    case Finished(out) => Backed(p, c.key, out)
  }

  predicate Building(c: Call) {
    c.phase.Bootstrapping? || c.phase.Bootstrapped?
  }

  /** An unfinished build has a live call working on it; a finished one has delivered. */
  predicate BuildOk(p: Pool, calls: map<nat, Call>, b: nat, build: Build) {
    && b in calls && calls[b].key == build.key
    && (build.result.None? ==> Building(calls[b]) || calls[b].phase.Publishing?)
    && (build.result.Some? ==> calls[b].phase.Finished? && Backed(p, build.key, build.result.value))
  }

  predicate OwnerOk(p: Pool, calls: map<nat, Call>, key: string)
    requires key in p.building
  {
    p.building[key] in calls && calls[p.building[key]].key == key && Building(calls[p.building[key]])
  }

  ghost predicate Inv(s: State) {
    && PoolInv(s.pool)
    && (forall t :: t in s.calls ==> CallOk(s.pool, s.builds, t, s.calls[t]))
    && (forall b :: b in s.builds ==> BuildOk(s.pool, s.calls, b, s.builds[b]))
    && (forall k :: k in s.pool.building ==> OwnerOk(s.pool, s.calls, k))
  }

  lemma StepKeepsPool(s: State, a: Action)
    requires Inv(s) && Enabled(s, a)
    ensures PoolInv(Apply(s, a).pool)
  {
    match a
    case Enters(t, key) =>
      if Enter(s.pool, key) == Start {
        BegunKeepsPool(s.pool, key, t);
      }
    case Installs(t) =>
      assert CallOk(s.pool, s.builds, t, s.calls[t]);
      InstalledKeepsPool(s.pool, s.calls[t].key, s.calls[t].phase.res);
    case _ =>
  }

  lemma StepKeepsOther(s: State, a: Action, t: nat)
    requires PoolInv(s.pool) && Enabled(s, a) && t in s.calls && t != a.t
    requires CallOk(s.pool, s.builds, t, s.calls[t])
    requires a.t in s.calls ==> CallOk(s.pool, s.builds, a.t, s.calls[a.t])
    ensures t in Apply(s, a).calls && CallOk(Apply(s, a).pool, Apply(s, a).builds, t, Apply(s, a).calls[t])
  {
  }

  lemma EnterKeepsSelf(s: State, t: nat, key: string)
    requires Inv(s) && t !in s.calls
    ensures CallOk(Entered(s, t, key).pool, Entered(s, t, key).builds, t, Entered(s, t, key).calls[t])
  {
    if key in s.pool.building {
      assert OwnerOk(s.pool, s.calls, key);
      var b := s.pool.building[key];
      assert CallOk(s.pool, s.builds, b, s.calls[b]);
    }
  }

  lemma StepKeepsSelf(s: State, a: Action)
    requires Inv(s) && Enabled(s, a)
    ensures a.t in Apply(s, a).calls
    ensures CallOk(Apply(s, a).pool, Apply(s, a).builds, a.t, Apply(s, a).calls[a.t])
  {
    if a.Enters? {
      EnterKeepsSelf(s, a.t, a.key);
    } else {
      assert CallOk(s.pool, s.builds, a.t, s.calls[a.t]);
      if a.Wakes? {
        var b := s.calls[a.t].phase.build;
        assert BuildOk(s.pool, s.calls, b, s.builds[b]);
      }
    }
  }

  lemma StepKeepsBuild(s: State, a: Action, b: nat)
    requires PoolInv(s.pool) && Enabled(s, a) && b in Apply(s, a).builds
    requires b in s.builds ==> BuildOk(s.pool, s.calls, b, s.builds[b])
    requires a.t in s.calls ==> CallOk(s.pool, s.builds, a.t, s.calls[a.t])
    ensures BuildOk(Apply(s, a).pool, Apply(s, a).calls, b, Apply(s, a).builds[b])
  {
  }

  lemma StepKeepsOwner(s: State, a: Action, k: string)
    requires PoolInv(s.pool) && Enabled(s, a) && k in Apply(s, a).pool.building
    requires k in s.pool.building ==> OwnerOk(s.pool, s.calls, k)
    requires a.t in s.calls ==> CallOk(s.pool, s.builds, a.t, s.calls[a.t])
    ensures OwnerOk(Apply(s, a).pool, Apply(s, a).calls, k)
  {
  }

  lemma StepKeeps(s: State, a: Action)
    requires Inv(s) && Enabled(s, a)
    ensures Inv(Apply(s, a))
  {
    StepKeepsPool(s, a);
    var r := Apply(s, a);
    forall t | t in r.calls
      ensures CallOk(r.pool, r.builds, t, r.calls[t])
    {
      if t == a.t {
        StepKeepsSelf(s, a);
      } else {
        StepKeepsOther(s, a, t);
      }
    }
    forall b | b in r.builds
      ensures BuildOk(r.pool, r.calls, b, r.builds[b])
    {
      StepKeepsBuild(s, a, b);
    }
    forall k | k in r.pool.building
      ensures OwnerOk(r.pool, r.calls, k)
    {
      StepKeepsOwner(s, a, k);
    }
  }

  /** In every interleaving: clients and builds in flight are at most 64 and have disjoint keys,
      every build in flight is one live call's, and every success is the key's installed client. */
  lemma {:induction false} RunKeeps(base: Client, acts: seq<Action>)
    ensures Inv(Exec(Init(base), acts))
    decreases |acts|
  {
    if acts == [] {
    } else {
      RunKeeps(base, acts[..|acts| - 1]);
      var s, a := Exec(Init(base), acts[..|acts| - 1]), acts[|acts| - 1];
      if Enabled(s, a) {
        StepKeeps(s, a);
      }
    }
  }

  /* ----- Single flight and isolation ----- */

  /** At most one bootstrap runs for a key, and none once the key has its client. */
  lemma SingleFlight(base: Client, acts: seq<Action>, t: nat, u: nat)
    requires var s := Exec(Init(base), acts);
      && t in s.calls && u in s.calls && s.calls[t].key == s.calls[u].key
      && s.calls[t].phase.Bootstrapping? && s.calls[u].phase.Bootstrapping?
    ensures t == u && Exec(Init(base), acts).calls[t].key !in Exec(Init(base), acts).pool.clients
  {
    RunKeeps(base, acts);
    var s := Exec(Init(base), acts);
    assert CallOk(s.pool, s.builds, t, s.calls[t]) && CallOk(s.pool, s.builds, u, s.calls[u]);
  }

  ghost predicate KeepsClients(m: map<string, Client>, n: map<string, Client>) {
    forall k :: k in m ==> k in n && n[k] == m[k]
  }

  lemma StepKeepsClients(s: State, a: Action)
    requires Inv(s)
    ensures KeepsClients(s.pool.clients, Apply(s, a).pool.clients)
  {
    if Enabled(s, a) && a.Installs? {
      assert CallOk(s.pool, s.builds, a.t, s.calls[a.t]);
    }
  }

  lemma LastStep(s: State, acts: seq<Action>, more: seq<Action>)
    requires more != []
    ensures Exec(s, acts + more) == Apply(Exec(s, acts + more[..|more| - 1]), more[|more| - 1])
  {
    assert (acts + more)[..|acts + more| - 1] == acts + more[..|more| - 1];
  }

  /** An installed client is never replaced, whatever happens later. */
  lemma {:induction false} NeverReplaced(base: Client, acts: seq<Action>, more: seq<Action>)
    ensures KeepsClients(Exec(Init(base), acts).pool.clients, Exec(Init(base), acts + more).pool.clients)
    decreases |more|
  {
    if more == [] {
      assert acts + more == acts;
    } else {
      var n := |more| - 1;
      NeverReplaced(base, acts, more[..n]);
      RunKeeps(base, acts + more[..n]);
      LastStep(Init(base), acts, more);
      StepKeepsClients(Exec(Init(base), acts + more[..n]), more[n]);
    }
  }

  /** A call that waits can be woken, or the call it waits for is still at work. */
  lemma WaiterServed(base: Client, acts: seq<Action>, t: nat)
    requires t in Exec(Init(base), acts).calls && Exec(Init(base), acts).calls[t].phase.Waiting?
    ensures var s := Exec(Init(base), acts); var b := s.calls[t].phase.build;
      || Enabled(s, Wakes(t))
      || (b in s.calls && s.calls[b].key == s.calls[t].key && (Building(s.calls[b]) || s.calls[b].phase.Publishing?))
  {
    RunKeeps(base, acts);
    var s := Exec(Init(base), acts);
    assert CallOk(s.pool, s.builds, t, s.calls[t]);
    var b := s.calls[t].phase.build;
    assert BuildOk(s.pool, s.calls, b, s.builds[b]);
  }

  predicate Succeeded(s: State, t: nat) {
    t in s.calls && s.calls[t].phase.Finished? && s.calls[t].phase.out.Ok?
  }

  function ClientOf(s: State, t: nat): (c: Client)
    requires Succeeded(s, t)
  {
    s.calls[t].phase.out.client
  }

  /** Successful calls for one key all return the client installed for it. */
  lemma SameKeySameClient(base: Client, acts: seq<Action>, t: nat)
    requires Succeeded(Exec(Init(base), acts), t)
    ensures var s := Exec(Init(base), acts); var key := s.calls[t].key;
      key in s.pool.clients && ClientOf(s, t) == s.pool.clients[key]
  {
    RunKeeps(base, acts);
    var s := Exec(Init(base), acts);
    assert CallOk(s.pool, s.builds, t, s.calls[t]);
  }

  /* ----- What calls return, told from the actions ----- */

  /** The actions of a run that were enabled when they came. */
  ghost function Effective(base: Client, acts: seq<Action>): (done: seq<Action>)
    decreases |acts|
  {
    if acts == [] then []
    else
      var n := |acts| - 1;
      var before := Effective(base, acts[..n]);
      if Enabled(Exec(Init(base), acts[..n]), acts[n]) then before + [acts[n]] else before
  }

  /** A bootstrap that has ended with `res`. */
  predicate EndedWith(c: Call, res: Outcome) {
    c.phase == Bootstrapped(res) || c.phase == Publishing(res) || c.phase == Finished(res)
  }

  /** A call that joined a build ends with that build's result, unless it was cancelled; a call that
      bootstrapped ends with what the bootstrap gave; any other had an answer at once. */
  ghost predicate Answered(s: State, done: seq<Action>, t: nat, out: Outcome)
    requires t in s.calls
  {
    var via := s.calls[t].via;
    if via.Some? then
      (out == Cancelled && CtxDone(t) in done)
      || (via.value in s.builds && s.builds[via.value].result == Some(out) && BootEnds(via.value, out) in done)
    else if t in s.builds then s.builds[t].result == Some(out) && BootEnds(t, out) in done
    else out.Ok? || out == AtCapacity
  }

  ghost predicate CallTraced(s: State, done: seq<Action>, t: nat) {
    && (forall res :: BootEnds(t, res) in done ==>
          t in s.calls && s.calls[t].via.None? && t in s.builds && EndedWith(s.calls[t], res))
    && (CtxDone(t) in done ==> t in s.calls && s.calls[t].phase == Finished(Cancelled))
    && (Wakes(t) in done || Publishes(t) in done ==> t in s.calls && s.calls[t].phase.Finished?)
    && (Installs(t) in done ==> t in s.calls && (s.calls[t].phase.Publishing? || s.calls[t].phase.Finished?))
    && (t in s.calls ==>
          match s.calls[t].phase
          case Bootstrapping => t in s.builds && s.calls[t].via.None?
          case Bootstrapped(res) => t in s.builds && s.calls[t].via.None? && BootEnds(t, res) in done
          case Publishing(res) => t in s.builds && s.calls[t].via.None? && BootEnds(t, res) in done
          case Waiting(b) => s.calls[t].via == Some(b)
          case Finished(out) => Answered(s, done, t, out))
  }

  ghost predicate BuildTraced(s: State, done: seq<Action>, b: nat) {
    b in s.builds && s.builds[b].result.Some? ==> BootEnds(b, s.builds[b].result.value) in done
  }

  lemma StepBuildTraced(s: State, a: Action, done: seq<Action>, b: nat)
    requires Enabled(s, a) && BuildTraced(s, done, b) && CallTraced(s, done, a.t)
    ensures BuildTraced(Apply(s, a), done + [a], b)
  {
  }

  /** Results of builds stay. */
  lemma ResultStays(s: State, a: Action, b: nat)
    requires Inv(s) && Enabled(s, a) && b in s.builds && s.builds[b].result.Some?
    ensures b in Apply(s, a).builds && Apply(s, a).builds[b] == s.builds[b]
  {
    assert BuildOk(s.pool, s.calls, b, s.builds[b]);
  }

  /** A step of one call leaves the others and their builds alone. */
  lemma OtherFrame(s: State, a: Action, t: nat)
    requires Enabled(s, a) && t != a.t
    ensures var r := Apply(s, a);
      && (t in r.calls <==> t in s.calls) && (t in s.calls ==> r.calls[t] == s.calls[t])
      && (t in r.builds <==> t in s.builds) && (t in s.builds ==> r.builds[t] == s.builds[t])
  {
  }

  lemma FrameTraced(s: State, r: State, a: Action, done: seq<Action>, t: nat)
    requires t != a.t && CallTraced(s, done, t)
    requires (t in r.calls <==> t in s.calls) && (t in s.calls ==> r.calls[t] == s.calls[t])
    requires (t in r.builds <==> t in s.builds) && (t in s.builds ==> r.builds[t] == s.builds[t])
    requires t in s.calls && s.calls[t].via.Some? ==>
      var b := s.calls[t].via.value;
      b in s.builds && s.builds[b].result.Some? ==> b in r.builds && r.builds[b] == s.builds[b]
    ensures CallTraced(r, done + [a], t)
  {
  }

  lemma OtherTraced(s: State, a: Action, done: seq<Action>, t: nat)
    requires Inv(s) && Enabled(s, a) && t != a.t && CallTraced(s, done, t)
    ensures CallTraced(Apply(s, a), done + [a], t)
  {
    OtherFrame(s, a, t);
    if t in s.calls && s.calls[t].via.Some? {
      var b := s.calls[t].via.value;
      if b in s.builds && s.builds[b].result.Some? {
        ResultStays(s, a, b);
      }
    }
    FrameTraced(s, Apply(s, a), a, done, t);
  }

  lemma EnterTraced(s: State, t: nat, key: string, done: seq<Action>)
    requires Enabled(s, Enters(t, key)) && CallTraced(s, done, t)
    ensures CallTraced(Entered(s, t, key), done + [Enters(t, key)], t)
  {
  }

  lemma BuilderTraced(s: State, a: Action, done: seq<Action>)
    requires Enabled(s, a) && CallTraced(s, done, a.t) && (a.BootEnds? || a.Installs? || a.Publishes?)
    ensures CallTraced(Apply(s, a), done + [a], a.t)
  {
  }

  lemma WaiterTraced(s: State, a: Action, done: seq<Action>)
    requires Enabled(s, a) && CallTraced(s, done, a.t) && (a.Wakes? || a.CtxDone?)
    requires BuildTraced(s, done, s.calls[a.t].phase.build)
    ensures CallTraced(Apply(s, a), done + [a], a.t)
  {
  }

  lemma SelfTraced(s: State, a: Action, done: seq<Action>)
    requires Enabled(s, a) && CallTraced(s, done, a.t) && forall b :: BuildTraced(s, done, b)
    ensures CallTraced(Apply(s, a), done + [a], a.t)
  {
    match a
    case Enters(t, key) => EnterTraced(s, t, key, done);
    case Wakes(_) => WaiterTraced(s, a, done);
    case CtxDone(_) => WaiterTraced(s, a, done);
    case _ => BuilderTraced(s, a, done);
  }

  /** In every interleaving: a finished call that waited has its build's result unless it was
      cancelled, a build's result is what its bootstrap gave, and a bootstrap ends once. */
  lemma {:induction false} RunTraced(base: Client, acts: seq<Action>)
    ensures forall t :: CallTraced(Exec(Init(base), acts), Effective(base, acts), t)
    ensures forall b :: BuildTraced(Exec(Init(base), acts), Effective(base, acts), b)
    decreases |acts|
  {
    if acts == [] {
    } else {
      var n := |acts| - 1;
      RunTraced(base, acts[..n]);
      RunKeeps(base, acts[..n]);
      var s, a, done := Exec(Init(base), acts[..n]), acts[n], Effective(base, acts[..n]);
      if Enabled(s, a) {
        forall t
          ensures CallTraced(Apply(s, a), done + [a], t)
        {
          if t == a.t {
            SelfTraced(s, a, done);
          } else {
            OtherTraced(s, a, done, t);
          }
        }
        forall b
          ensures BuildTraced(Apply(s, a), done + [a], b)
        {
          StepBuildTraced(s, a, done, b);
        }
      }
    }
  }

  /** The result of a call, in every run: see Answered. Two bootstraps of one call cannot both end. */
  lemma CallReturns(base: Client, acts: seq<Action>, t: nat, r: Outcome, r': Outcome)
    ensures var s := Exec(Init(base), acts); var done := Effective(base, acts);
      && (t in s.calls && s.calls[t].phase.Finished? ==> Answered(s, done, t, s.calls[t].phase.out))
      && (BootEnds(t, r) in done && BootEnds(t, r') in done ==> r == r')
      && (CtxDone(t) in done ==> t in s.calls && s.calls[t].phase == Finished(Cancelled))
      && (Wakes(t) in done || Publishes(t) in done ==> t in s.calls && s.calls[t].phase.Finished?)
  {
    RunTraced(base, acts);
    assert CallTraced(Exec(Init(base), acts), Effective(base, acts), t);
  }

  /** What a new call meets: the installed client at once; a build of its key, which it joins; a full
      pool of 64, which refuses it; or room to bootstrap. */
  lemma NewCall(base: Client, acts: seq<Action>, t: nat, key: string)
    requires Enabled(Exec(Init(base), acts), Enters(t, key))
    ensures var s := Exec(Init(base), acts); var r := Apply(s, Enters(t, key));
      && t in r.calls && r.calls[t].key == key
      && (key in s.pool.clients ==> r.calls[t].phase == Finished(Ok(s.pool.clients[key])) && r.pool == s.pool)
      && (key in s.pool.building ==>
            && r.pool == s.pool && r.calls[t].phase.Waiting?
            && var b := r.calls[t].phase.build; b in s.calls && s.calls[b].key == key && Building(s.calls[b]))
      && (key !in s.pool.clients && key !in s.pool.building ==>
            (r.calls[t].phase == Finished(AtCapacity) <==> |s.pool.clients| + |s.pool.building| == 64)
            && (r.calls[t].phase == Bootstrapping <==> |s.pool.clients| + |s.pool.building| < 64))
  {
    RunKeeps(base, acts);
    var s := Exec(Init(base), acts);
    if key in s.pool.building {
      assert OwnerOk(s.pool, s.calls, key);
    }
  }

  /** Every successful bootstrap of the run returns a client not seen before. */
  predicate FreshRun(base: Client, acts: seq<Action>)
    decreases |acts|
  {
    acts == [] ||
    var n := |acts| - 1;
    FreshRun(base, acts[..n]) && FreshStep(Exec(Init(base), acts[..n]), acts[n])
  }

  predicate FreshStep(s: State, a: Action) {
    Enabled(s, a) && a.BootEnds? && a.res.Ok? ==> a.res.client !in s.made
  }

  /** The client a call has bootstrapped and not yet installed. */
  predicate Holds(c: Call, x: Client) {
    c.phase.Bootstrapped? && c.phase.res == Ok(x)
  }

  ghost predicate InstalledApart(clients: map<string, Client>, made: set<Client>) {
    && (forall k :: k in clients ==> clients[k] in made)
    && (forall k, l :: k in clients && l in clients && k != l ==> clients[k] != clients[l])
  }

  ghost predicate HeldApart(clients: map<string, Client>, calls: map<nat, Call>, made: set<Client>) {
    && (forall t, x :: t in calls && Holds(calls[t], x) ==> x in made && forall k :: k in clients ==> clients[k] != x)
    && (forall t, u, x :: t in calls && u in calls && Holds(calls[t], x) && Holds(calls[u], x) ==> t == u)
  }

  ghost predicate Apart(s: State) {
    InstalledApart(s.pool.clients, s.made) && HeldApart(s.pool.clients, s.calls, s.made)
  }

  lemma StepKeepsInstalledApart(s: State, a: Action)
    requires Apart(s) && Enabled(s, a)
    ensures InstalledApart(Apply(s, a).pool.clients, Apply(s, a).made)
  {
  }

  lemma StepKeepsHeldApart(s: State, a: Action)
    requires Apart(s) && Enabled(s, a) && FreshStep(s, a)
    ensures HeldApart(Apply(s, a).pool.clients, Apply(s, a).calls, Apply(s, a).made)
  {
    var r := Apply(s, a);
    if a.Installs? && s.calls[a.t].phase.res.Ok? {
      assert Holds(s.calls[a.t], s.calls[a.t].phase.res.client);
    }
    if a.BootEnds? {
      assert forall t, x :: t in r.calls && t != a.t && Holds(r.calls[t], x) ==> t in s.calls && Holds(s.calls[t], x);
    } else {
      assert forall t, x :: t in r.calls && Holds(r.calls[t], x) ==> t in s.calls && t != a.t && Holds(s.calls[t], x);
    }
  }

  lemma {:induction false} RunKeepsApart(base: Client, acts: seq<Action>)
    requires FreshRun(base, acts)
    ensures Apart(Exec(Init(base), acts))
    decreases |acts|
  {
    if acts == [] {
    } else {
      var n := |acts| - 1;
      RunKeepsApart(base, acts[..n]);
      if Enabled(Exec(Init(base), acts[..n]), acts[n]) {
        StepKeepsInstalledApart(Exec(Init(base), acts[..n]), acts[n]);
        StepKeepsHeldApart(Exec(Init(base), acts[..n]), acts[n]);
      }
    }
  }

  /** Isolation: calls under credential pairs free of NUL get the same client exactly when the
      pairs are the same. */
  lemma Isolation(base: Client, acts: seq<Action>, t: nat, user: string, pass: string,
                  u: nat, user': string, pass': string)
    requires FreshRun(base, acts)
    requires NUL !in user && NUL !in pass
    requires Succeeded(Exec(Init(base), acts), t) && Exec(Init(base), acts).calls[t].key == IsoKey(user, pass)
    requires Succeeded(Exec(Init(base), acts), u) && Exec(Init(base), acts).calls[u].key == IsoKey(user', pass')
    ensures var s := Exec(Init(base), acts);
      ClientOf(s, t) == ClientOf(s, u) <==> (user, pass) == (user', pass')
  {
    RunKeepsApart(base, acts);
    SameKeySameClient(base, acts, t);
    SameKeySameClient(base, acts, u);
    if IsoKey(user, pass) == IsoKey(user', pass') {
      KeyInjective(user, pass, user', pass');
    }
  }

  /** No call is stuck: a new one can enter at any time; one that bootstraps can end either way, be
      installed and published; one that waits can be cancelled, and woken once its build is done. */
  lemma CallMoves(base: Client, acts: seq<Action>, t: nat, key: string, c: Client)
    ensures var s := Exec(Init(base), acts);
      if t !in s.calls then Enabled(s, Enters(t, key))
      else match s.calls[t].phase
        case Bootstrapping => Enabled(s, BootEnds(t, Ok(c))) && Enabled(s, BootEnds(t, BootstrapFailed))
        case Bootstrapped(_) => Enabled(s, Installs(t))
        case Publishing(_) => Enabled(s, Publishes(t))
        case Waiting(b) =>
          Enabled(s, CtxDone(t)) && (b in s.builds && s.builds[b].result.Some? ==> Enabled(s, Wakes(t)))
        case Finished(_) => true
  {
    RunKeeps(base, acts);
    var s := Exec(Init(base), acts);
    if t in s.calls {
      assert CallOk(s.pool, s.builds, t, s.calls[t]);
    }
    assert t in s.builds ==> BuildOk(s.pool, s.calls, t, s.builds[t]);
  }
}
