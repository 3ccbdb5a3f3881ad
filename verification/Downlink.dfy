/** The inbound half of a circuit (pkg/circuit/circuit.go:446-525, 563-604).

    Hops originate cells, which the relays before them layer; the client peels, recognises and
    accounts for them, and claims an authenticated SENDME (proposal 289) every 100 data cells.
    Cells that no honest hop originated may be injected at any point. */
module Downlink {
  import opened Bytes
  import opened Options
  import opened RelayCells
  import opened Onion
  import opened OnionRuns

  const CIRC_WINDOW_START := 1000
  const CIRC_WINDOW_INCREMENT := 100
  const SENDME_TAG_LEN := 20
  const RELAY_TRUNCATED: byte := 9

  /** A data cell as accounted: its source hop and that hop's digest right after it. */
  datatype Seen = Seen(hop: nat, sum: Sum)

  /** A circuit-level SENDME claimed for a hop. */
  datatype Sendme = Sendme(hop: nat, body: seq<byte>)

  function EncodeSendmeV1(tag: seq<byte>): (body: seq<byte>)
    requires |tag| < 0x1_0000
  {
    var d := if |tag| > SENDME_TAG_LEN then tag[..SENDME_TAG_LEN] else tag;
    [1] + PutU16(|d|) + d
  }

  /** The deliver window with the data cells and SENDMEs so far; `seenOpen` counts the data cells
      accounted before the circuit closed. */
  datatype Account = Account(window: int, closed: bool, data: seq<Seen>, seenOpen: nat, sendmes: seq<Sendme>)

  /** accountInboundData. */
  function AccountData(a: Account, seen: Seen, hops: nat): (r: Account) {
    var window := a.window - 1;
    var send := window <= CIRC_WINDOW_START - CIRC_WINDOW_INCREMENT;
    a.(window := if send then window + CIRC_WINDOW_INCREMENT else window,
       data := a.data + [seen],
       seenOpen := if a.closed then a.seenOpen else a.seenOpen + 1,
       sendmes := if send && !a.closed && seen.hop < hops then
                    a.sendmes + [Sendme(seen.hop, EncodeSendmeV1(seen.sum))]
                  else a.sendmes)
  }

  /** handleRelay after decryption: data cells are accounted, TRUNCATED fails the circuit. */
  function HandlePeeled(a: Account, p: Peeled): (r: Account) {
    if p.cell.Some? && p.cell.value.command == RELAY_DATA && p.at < |p.hops| then
      AccountData(a, Seen(p.at, Snapshot(p.hops[p.at])), |p.hops|)
    else if p.cell.Some? && p.cell.value.command == RELAY_TRUNCATED then a.(closed := true)
    else a
  }

  /** `relays` send and `hops` (the client) receive; `wire` is what reaches the client and
      `honest` how much of it came before the first injected cell; `source` gives, for each data
      cell accounted, its place on the wire. */
  datatype State = State(relays: seq<Half>, hops: seq<Half>, seeds: seq<Half>, log: seq<Entry>, clean: nat,
                         wire: seq<Payload>, honest: nat, got: seq<Got>, acct: Account, source: seq<nat>)

  const START := State([], [], [], [], 0, [], 0, [], Account(CIRC_WINDOW_START, false, [], 0, []), [])

  datatype Action = AddHop(half: Half) | Originate(src: nat, rc: RelayCell) | Inject(payload: Payload) | Receive | Close

  function DoOriginate(s: State, e: Entry): (r: State) {
    s.(relays := e.after, log := s.log + [e], clean := NextClean(s.log, s.clean, e),
       wire := s.wire + [e.payload],
       honest := if s.honest == |s.wire| then s.honest + 1 else s.honest)
  }

  function DoReceive(s: State, p: Peeled): (r: State) {
    var acct := HandlePeeled(s.acct, p);
    s.(hops := p.hops, got := s.got + [Got(p.found, p.at, p.cell)], acct := acct,
       source := if |acct.data| > |s.acct.data| then s.source + [|s.got|] else s.source)
  }

  function Apply(s: State, a: Action): (r: State) {
    match a
    case AddHop(half) => s.(hops := s.hops + [half], relays := s.relays + [half], seeds := s.seeds + [half])
    case Originate(src, rc) => if src < |s.relays| then DoOriginate(s, MakeEntry(s.relays, src, rc)) else s
    case Inject(p) => s.(wire := s.wire + [p])
    case Receive => if |s.got| < |s.wire| then DoReceive(s, Peel(s.hops, 0, s.wire[|s.got|])) else s
    case Close => s.(acct := s.acct.(closed := true))
  }

  function Exec(s: State, acts: seq<Action>): (r: State)
    decreases |acts|
  {
    if acts == [] then s else Apply(Exec(s, acts[..|acts| - 1]), acts[|acts| - 1])
  }

  /* ----- Window accounting, for any cells whatever ----- */

  ghost predicate AcctInv(a: Account) {
    && a.window == CIRC_WINDOW_START - |a.data| % CIRC_WINDOW_INCREMENT
    && a.seenOpen <= |a.data| && (!a.closed ==> a.seenOpen == |a.data|)
    && |a.sendmes| == a.seenOpen / CIRC_WINDOW_INCREMENT
    && forall j :: 0 <= j < |a.sendmes| ==> SendmeAt(a, j)
  }

  /** SENDME number j+1 answers data cell number 100(j+1): its source hop, and the first 20 bytes
      of that hop's digest right after it. */
  ghost predicate SendmeAt(a: Account, j: nat) {
    && j < |a.sendmes| && 100 * j + 99 < |a.data|
    && var d := a.data[100 * j + 99];
       a.sendmes[j] == Sendme(d.hop, [1, 0, 20] + d.sum[..20])
  }

  lemma SendmeBody(sum: Sum)
    ensures EncodeSendmeV1(sum) == [1, 0, 20] + sum[..20]
  {
  }

  lemma AccountKeeps(a: Account, seen: Seen, hops: nat)
    requires AcctInv(a) && seen.hop < hops
    ensures AcctInv(AccountData(a, seen, hops))
  {
    var r := AccountData(a, seen, hops);
    SendmeBody(seen.sum);
    forall j | 0 <= j < |r.sendmes|
      ensures SendmeAt(r, j)
    {
      if j < |a.sendmes| {
        assert SendmeAt(a, j);
      }
    }
  }

  lemma HandleKeeps(a: Account, p: Peeled)
    requires AcctInv(a)
    ensures AcctInv(HandlePeeled(a, p))
    ensures a.data <= HandlePeeled(a, p).data && |HandlePeeled(a, p).data| <= |a.data| + 1
  {
    if p.cell.Some? && p.cell.value.command == RELAY_DATA && p.at < |p.hops| {
      AccountKeeps(a, Seen(p.at, Snapshot(p.hops[p.at])), |p.hops|);
    } else {
      forall j | 0 <= j < |a.sendmes|
        ensures SendmeAt(HandlePeeled(a, p), j)
      {
        assert SendmeAt(a, j);
      }
    }
  }

  lemma CloseKeeps(a: Account)
    requires AcctInv(a)
    ensures AcctInv(a.(closed := true))
  {
    forall j | 0 <= j < |a.sendmes|
      ensures SendmeAt(a.(closed := true), j)
    {
      assert SendmeAt(a, j);
    }
  }

  /** Receive accounting, over every run: after n data cells the deliver window is
      1000 - n mod 100; n div 100 SENDMEs were claimed while the circuit was open, and each names
      the hop and carries the digest of the cell that completed its hundred. */
  lemma {:induction false} RunKeepsAccount(acts: seq<Action>)
    ensures AcctInv(Exec(START, acts).acct)
    decreases |acts|
  {
    if acts == [] {
    } else {
      RunKeepsAccount(acts[..|acts| - 1]);
      var s := Exec(START, acts[..|acts| - 1]);
      match acts[|acts| - 1]
      case AddHop(_) =>
      case Originate(_, _) =>
      case Inject(_) =>
      case Receive =>
        if |s.got| < |s.wire| {
          HandleKeeps(s.acct, Peel(s.hops, 0, s.wire[|s.got|]));
        }
      case Close => CloseKeeps(s.acct);
    }
  }

  /* ----- Recognition of what honest hops originate ----- */

  /** The number of cells before the first injected one and the first chance match. */
  function Sound(s: State): (n: nat) {
    if s.honest < s.clean then s.honest else s.clean
  }

  ghost predicate WireInv(log: seq<Entry>, wire: seq<Payload>, honest: nat) {
    && honest <= |wire| && honest <= |log|
    && (honest < |log| ==> honest < |wire|)
    && forall k :: 0 <= k < honest ==> wire[k] == log[k].payload
  }

  /** The client stands where the relays stood after the cells it has received. */
  ghost predicate ClientStands(s: State)
    requires Fit(s.seeds, s.log, s.relays) && s.clean <= |s.log|
  {
    |s.got| <= Sound(s) ==> s.hops == Pad(At(s.log, s.relays, |s.got|), s.seeds)
  }

  /** A data cell that was received soundly is accounted with its source's own digest. */
  ghost predicate TrueSeen(log: seq<Entry>, seen: Seen, k: nat) {
    && k < |log| && log[k].hop < |log[k].after| && log[k].rc.command == RELAY_DATA
    && seen == Seen(log[k].hop, Snapshot(log[k].after[log[k].hop]))
  }

  ghost predicate TrueData(log: seq<Entry>, data: seq<Seen>, source: seq<nat>, got: nat, n: nat) {
    && |source| == |data|
    && (forall j :: 0 <= j < |source| ==> source[j] < got)
    && forall j :: 0 <= j < |source| && source[j] < n ==> TrueSeen(log, data[j], source[j])
  }

  ghost predicate SyncInv(s: State) {
    && AllGenuine(s.log)
    && Fit(s.seeds, s.log, s.relays)
    && Chained(s.seeds, s.log, s.relays)
    && CleanPrefix(s.log, s.clean)
    && WireInv(s.log, s.wire, s.honest)
    && |s.got| <= |s.wire|
    && RightLog(s.log, s.got, Sound(s))
    && ClientStands(s)
    && TrueData(s.log, s.acct.data, s.source, |s.got|, Sound(s))
  }

  lemma AddHopKeepsSync(s: State, half: Half)
    requires SyncInv(s)
    ensures SyncInv(Apply(s, AddHop(half)))
  {
    AddHopKeepsChained(s.seeds, s.log, s.relays, half);
    if |s.got| <= Sound(s) {
      AddHopKeepsChain(s.seeds, s.log, s.relays, half, |s.got|);
    }
  }

  lemma TrueDataSnoc(log: seq<Entry>, e: Entry, data: seq<Seen>, source: seq<nat>, got: nat, n: nat, m: nat)
    requires TrueData(log, data, source, got, n) && n <= m && (n < m ==> got <= n)
    ensures TrueData(log + [e], data, source, got, m)
  {
  }

  lemma OriginateKeepsStand(s: State, e: Entry)
    requires Fit(s.seeds, s.log, s.relays) && CleanPrefix(s.log, s.clean) && ClientStands(s)
    requires WireInv(s.log, s.wire, s.honest) && |s.got| <= |s.wire|
    requires e.before == s.relays && |e.after| == |s.relays|
    ensures var r := DoOriginate(s, e);
      && WireInv(r.log, r.wire, r.honest)
      && Sound(s) <= Sound(r) && (Sound(s) < Sound(r) ==> |s.got| <= Sound(s))
      && Fit(r.seeds, r.log, r.relays) && r.clean <= |r.log| && ClientStands(r)
  {
  }

  lemma OriginateKeepsSync(s: State, e: Entry)
    requires SyncInv(s) && Genuine(e) && e.before == s.relays && |e.after| == |s.relays|
    ensures SyncInv(DoOriginate(s, e))
  {
    var r := DoOriginate(s, e);
    GenuineSnoc(s.log, e);
    SendKeepsChain(s.seeds, s.log, e);
    CleanSnoc(s.log, s.clean, e);
    OriginateKeepsStand(s, e);
    TrueDataSnoc(s.log, e, s.acct.data, s.source, |s.got|, Sound(s), Sound(r));
    forall k | 0 <= k < |r.got| && k < Sound(r) && k < |r.log|
      ensures r.got[k] == r.log[k].expected
    {
      assert k < Sound(s);
    }
  }

  /** The client receives the next sound cell: it is recognised at its source hop and leaves the
      client in step. */
  lemma ReceiveNext(s: State)
    requires SyncInv(s) && |s.got| < Sound(s)
    ensures |s.got| < |s.wire|
    ensures var p := Peel(s.hops, 0, s.wire[|s.got|]); var e := s.log[|s.got|];
      && Genuine(e)
      && p == Peeled(Pad(e.after, s.seeds), true, e.hop, e.expected.cell)
      && p.hops == Pad(At(s.log, s.relays, |s.got| + 1), s.seeds)
  {
    var n := |s.got|;
    assert Genuine(s.log[n]) && Joined(s.seeds, s.log, s.relays, n);
    PeelEntry(s.log[n], s.seeds);
  }

  /** A genuine data entry is accounted with its source's own digest. */
  lemma HandleEntry(a: Account, p: Peeled, log: seq<Entry>, k: nat)
    requires k < |log| && Genuine(log[k]) && |log[k].after| <= |p.hops|
    requires p.hops[..|log[k].after|] == log[k].after
    requires p.found && p.at == log[k].hop && p.cell == log[k].expected.cell
    ensures var r := HandlePeeled(a, p);
      |r.data| == |a.data| || (r.data[..|a.data|] == a.data && |r.data| == |a.data| + 1
                               && TrueSeen(log, r.data[|a.data|], k))
  {
  }

  lemma ReceiveKeepsData(s: State, p: Peeled)
    requires TrueData(s.log, s.acct.data, s.source, |s.got|, Sound(s)) && AcctInv(s.acct)
    requires var data := HandlePeeled(s.acct, p).data;
      |s.got| < Sound(s) ==>
        |data| == |s.acct.data| || (|data| == |s.acct.data| + 1 && TrueSeen(s.log, data[|s.acct.data|], |s.got|))
    ensures var r := DoReceive(s, p); TrueData(r.log, r.acct.data, r.source, |r.got|, Sound(r))
  {
  }

  lemma TakenKeepsSync(s: State, p: Peeled)
    requires SyncInv(s) && |s.got| < |s.wire|
    requires |s.got| < Sound(s) ==>
      && Got(p.found, p.at, p.cell) == s.log[|s.got|].expected
      && p.hops == Pad(At(s.log, s.relays, |s.got| + 1), s.seeds)
    requires var r := DoReceive(s, p); TrueData(r.log, r.acct.data, r.source, |r.got|, Sound(r))
    ensures SyncInv(DoReceive(s, p))
  {
  }

  lemma ReceiveKeepsSync(s: State)
    requires SyncInv(s) && AcctInv(s.acct) && |s.got| < |s.wire|
    ensures SyncInv(DoReceive(s, Peel(s.hops, 0, s.wire[|s.got|])))
  {
    var p := Peel(s.hops, 0, s.wire[|s.got|]);
    if |s.got| < Sound(s) {
      ReceiveNext(s);
      HandleEntry(s.acct, p, s.log, |s.got|);
    }
    ReceiveKeepsData(s, p);
    TakenKeepsSync(s, p);
  }

  lemma StepKeepsSync(s: State, a: Action)
    requires SyncInv(s) && AcctInv(s.acct)
    ensures SyncInv(Apply(s, a))
  {
    match a
    case AddHop(half) => AddHopKeepsSync(s, half);
    case Originate(src, rc) =>
      if src < |s.relays| {
        OriginateKeepsSync(s, MakeEntry(s.relays, src, rc));
      }
    case Inject(_) =>
    case Receive =>
      if |s.got| < |s.wire| {
        ReceiveKeepsSync(s);
      }
    case Close =>
  }

  lemma {:induction false} RunKeepsSync(acts: seq<Action>)
    ensures SyncInv(Exec(START, acts))
    decreases |acts|
  {
    if acts == [] {
    } else {
      RunKeepsSync(acts[..|acts| - 1]);
      RunKeepsAccount(acts[..|acts| - 1]);
      StepKeepsSync(Exec(START, acts[..|acts| - 1]), acts[|acts| - 1]);
    }
  }

  /** Backward recognition: in every run, each cell received before the first injected cell and
      the first chance match is recognised at exactly the hop that originated it, with its
      command, stream and data. */
  lemma BackwardSync(acts: seq<Action>, k: nat)
    requires var s := Exec(START, acts); k < |s.got| && k < Sound(s)
    ensures var s := Exec(START, acts);
      && k < |s.log| && s.got[k].found && s.got[k].at == s.log[k].hop
      && s.got[k].cell.Some?
      && var got := s.got[k].cell.value; var rc := s.log[k].rc;
         && got.command == rc.command && got.streamID == rc.streamID
         && got.recognized == 0 && got.data == Carried(rc.data)
  {
    RunKeepsSync(acts);
    var s := Exec(START, acts);
    assert Genuine(s.log[k]);
  }

  /** After receiving everything that honest hops originated, the client has every backward
      keystream position and digest of the relays. */
  lemma ClientInStep(acts: seq<Action>)
    requires var s := Exec(START, acts); |s.got| == s.honest == s.clean == |s.log|
    ensures var s := Exec(START, acts); s.hops == s.relays
  {
    RunKeepsSync(acts);
    var s := Exec(START, acts);
    PadFull(s.relays, s.seeds);
  }

  /** The authenticated SENDMEs match: SENDME number j+1 goes to the hop that originated the
      100(j+1)-th data cell and carries the first 20 bytes of that hop's own backward digest as
      the hop had it right after originating the cell. */
  lemma SendmeMatchesSource(acts: seq<Action>, j: nat)
    requires var s := Exec(START, acts);
      j < |s.acct.sendmes| && 100 * j + 99 < |s.source| && s.source[100 * j + 99] < Sound(s)
    ensures var s := Exec(START, acts);
      var k := s.source[100 * j + 99];
      && k < |s.log| && s.log[k].rc.command == RELAY_DATA && s.log[k].hop < |s.log[k].after|
      && s.acct.sendmes[j]
           == Sendme(s.log[k].hop, [1, 0, 20] + Snapshot(s.log[k].after[s.log[k].hop])[..20])
  {
    RunKeepsSync(acts);
    RunKeepsAccount(acts);
    var s := Exec(START, acts);
    assert SendmeAt(s.acct, j);
    assert TrueSeen(s.log, s.acct.data[100 * j + 99], s.source[100 * j + 99]);
  }

  /* ----- What a run did, told from its actions and the cells received ----- */

  predicate Can(s: State, a: Action) {
    match a
    case Originate(src, _) => src < |s.relays|
    case Receive => |s.got| < |s.wire|
    case _ => true
  }

  /** The actions of a run that were possible when they came. */
  ghost function Effective(acts: seq<Action>): (done: seq<Action>)
    decreases |acts|
  {
    if acts == [] then []
    else
      var n := |acts| - 1;
      if Can(Exec(START, acts[..n]), acts[n]) then Effective(acts[..n]) + [acts[n]] else Effective(acts[..n])
  }

  ghost function Added(done: seq<Action>): (halves: seq<Half>) {
    if done == [] then []
    else
      var a := done[|done| - 1];
      if a.AddHop? then Added(done[..|done| - 1]) + [a.half] else Added(done[..|done| - 1])
  }

  /** The cells that hops originated, in order. */
  ghost function Originated(done: seq<Action>): (cells: seq<Action>) {
    if done == [] then []
    else
      var a := done[|done| - 1];
      if a.Originate? then Originated(done[..|done| - 1]) + [a] else Originated(done[..|done| - 1])
  }

  ghost function Receipts(done: seq<Action>): (n: nat) {
    if done == [] then 0
    else Receipts(done[..|done| - 1]) + if done[|done| - 1].Receive? then 1 else 0
  }

  ghost function Injections(done: seq<Action>): (n: nat) {
    if done == [] then 0
    else Injections(done[..|done| - 1]) + if done[|done| - 1].Inject? then 1 else 0
  }

  ghost predicate ClosedIn(done: seq<Action>) {
    exists i :: 0 <= i < |done| && done[i].Close?
  }

  predicate HasCommand(g: Got, command: byte) {
    g.cell.Some? && g.cell.value.command == command
  }

  /** Which of the cells received are DATA cells (command 2). */
  ghost function DataIn(got: seq<Got>): (source: seq<nat>) {
    if got == [] then []
    else
      var n := |got| - 1;
      if HasCommand(got[n], 2) then DataIn(got[..n]) + [n] else DataIn(got[..n])
  }

  /** A TRUNCATED cell (command 9) has been received. */
  ghost predicate TruncatedIn(got: seq<Got>) {
    exists k :: 0 <= k < |got| && HasCommand(got[k], 9)
  }

  lemma {:induction false} DataInSound(got: seq<Got>, j: nat)
    requires j < |DataIn(got)|
    ensures DataIn(got)[j] < |got| && HasCommand(got[DataIn(got)[j]], 2)
  {
    var n := |got| - 1;
    if j < |DataIn(got[..n])| {
      DataInSound(got[..n], j);
    }
  }

  lemma {:induction false} DataInOrdered(got: seq<Got>, i: nat, j: nat)
    requires i < j < |DataIn(got)|
    ensures DataIn(got)[i] < DataIn(got)[j]
  {
    var n := |got| - 1;
    if j < |DataIn(got[..n])| {
      DataInOrdered(got[..n], i, j);
    } else {
      DataInSound(got[..n], i);
    }
  }

  lemma {:induction false} DataInComplete(got: seq<Got>, k: nat)
    requires k < |got| && HasCommand(got[k], 2)
    ensures k in DataIn(got)
  {
    var n := |got| - 1;
    if k == n {
    } else {
      DataInComplete(got[..n], k);
    }
  }

  /** DataIn lists exactly the DATA cells, in order. */
  lemma DataInExact(got: seq<Got>)
    ensures forall j :: 0 <= j < |DataIn(got)| ==> DataIn(got)[j] < |got| && HasCommand(got[DataIn(got)[j]], 2)
    ensures forall i, j :: 0 <= i < j < |DataIn(got)| ==> DataIn(got)[i] < DataIn(got)[j]
    ensures forall k :: 0 <= k < |got| && HasCommand(got[k], 2) ==> k in DataIn(got)
  {
    forall j | 0 <= j < |DataIn(got)|
      ensures DataIn(got)[j] < |got| && HasCommand(got[DataIn(got)[j]], 2)
    {
      DataInSound(got, j);
    }
    forall i, j | 0 <= i < j < |DataIn(got)|
      ensures DataIn(got)[i] < DataIn(got)[j]
    {
      DataInOrdered(got, i, j);
    }
    forall k | 0 <= k < |got| && HasCommand(got[k], 2)
      ensures k in DataIn(got)
    {
      DataInComplete(got, k);
    }
  }

  /** Each data cell accounted came from the hop that recognised it. */
  ghost predicate DataTraced(data: seq<Seen>, source: seq<nat>, got: seq<Got>) {
    && source == DataIn(got) && |data| == |source|
    && forall j :: 0 <= j < |data| ==> source[j] < |got| && data[j].hop == got[source[j]].at
  }

  ghost predicate LogTraced(log: seq<Entry>, cells: seq<Action>) {
    && |log| == |cells|
    && forall k :: 0 <= k < |log| ==> cells[k].Originate? && log[k].hop == cells[k].src && log[k].rc == cells[k].rc
  }

  ghost predicate Traced(s: State, done: seq<Action>) {
    && s.seeds == Added(done)
    && LogTraced(s.log, Originated(done))
    && |s.wire| == |s.log| + Injections(done) && (Injections(done) == 0 ==> s.honest == |s.log|)
    && |s.got| == Receipts(done)
    && DataTraced(s.acct.data, s.source, s.got)
    && (s.acct.closed <==> ClosedIn(done) || TruncatedIn(s.got))
  }

  lemma SnocTrace(done: seq<Action>, a: Action)
    ensures Added(done + [a]) == if a.AddHop? then Added(done) + [a.half] else Added(done)
    ensures Originated(done + [a]) == if a.Originate? then Originated(done) + [a] else Originated(done)
    ensures Receipts(done + [a]) == Receipts(done) + if a.Receive? then 1 else 0
    ensures Injections(done + [a]) == Injections(done) + if a.Inject? then 1 else 0
    ensures ClosedIn(done + [a]) <==> ClosedIn(done) || a.Close?
  {
    assert (done + [a])[..|done|] == done;
    if ClosedIn(done) {
      var i :| 0 <= i < |done| && done[i].Close?;
      assert (done + [a])[i] == done[i];
    }
    assert (done + [a])[|done|] == a;
  }

  lemma SnocGot(got: seq<Got>, g: Got)
    ensures DataIn(got + [g]) == if HasCommand(g, 2) then DataIn(got) + [|got|] else DataIn(got)
    ensures TruncatedIn(got + [g]) <==> TruncatedIn(got) || HasCommand(g, 9)
  {
    assert (got + [g])[..|got|] == got;
    if TruncatedIn(got) {
      var k :| 0 <= k < |got| && HasCommand(got[k], 9);
      assert (got + [g])[k] == got[k];
    }
    assert (got + [g])[|got|] == g;
  }

  /** Every DATA cell that some hop recognises is accounted, and no other. */
  lemma HandleAccounts(a: Account, p: Peeled)
    requires p.cell.Some? ==> p.at < |p.hops|
    ensures var r := HandlePeeled(a, p); var g := Got(p.found, p.at, p.cell);
      && (HasCommand(g, 2) ==> |r.data| == |a.data| + 1 && r.data[..|a.data|] == a.data && r.data[|a.data|].hop == p.at)
      && (!HasCommand(g, 2) ==> r.data == a.data)
      && (r.closed <==> a.closed || HasCommand(g, 9))
  {
  }

  lemma ReceiveTraced(s: State, p: Peeled, done: seq<Action>)
    requires Traced(s, done) && (p.cell.Some? ==> p.at < |p.hops|)
    ensures Traced(DoReceive(s, p), done + [Receive])
  {
    SnocTrace(done, Receive);
    var g := Got(p.found, p.at, p.cell);
    SnocGot(s.got, g);
    HandleAccounts(s.acct, p);
    var r := DoReceive(s, p);
    assert r.got == s.got + [g];
    forall j | 0 <= j < |r.acct.data|
      ensures r.source[j] < |r.got| && r.acct.data[j].hop == r.got[r.source[j]].at
    {
      if j < |s.acct.data| {
        assert r.acct.data[j] == s.acct.data[j] && r.source[j] == s.source[j];
      }
    }
  }

  lemma OriginateTraced(s: State, a: Action, done: seq<Action>)
    requires Traced(s, done) && a.Originate? && a.src < |s.relays|
    ensures Traced(DoOriginate(s, MakeEntry(s.relays, a.src, a.rc)), done + [a])
  {
    SnocTrace(done, a);
  }

  lemma StepTraced(s: State, a: Action, done: seq<Action>)
    requires Traced(s, done) && Can(s, a)
    ensures Traced(Apply(s, a), done + [a])
  {
    SnocTrace(done, a);
    match a
    case Receive =>
      PeelShape(s.hops, 0, s.wire[|s.got|]);
      ReceiveTraced(s, Peel(s.hops, 0, s.wire[|s.got|]), done);
    case Originate(_, _) => OriginateTraced(s, a, done);
    case _ =>
  }

  /** In every run: the log holds exactly the cells originated, in order; `source` lists exactly the
      DATA cells among those received, each accounted once and for the hop that recognised it; the
      circuit is closed exactly after a close or a TRUNCATED cell. */
  lemma {:induction false} RunTraced(acts: seq<Action>)
    ensures Traced(Exec(START, acts), Effective(acts))
    decreases |acts|
  {
    if acts == [] {
    } else {
      var n := |acts| - 1;
      RunTraced(acts[..n]);
      if Can(Exec(START, acts[..n]), acts[n]) {
        StepTraced(Exec(START, acts[..n]), acts[n], Effective(acts[..n]));
      }
    }
  }

  /** Receive accounting from the cells received alone: with n DATA cells among them the window is
      1000 - n mod 100, and unless the circuit was closed, n div 100 SENDMEs have been claimed, the
      j-th for the hop of the 100j-th DATA cell. */
  lemma AccountFromCells(acts: seq<Action>)
    ensures var s := Exec(START, acts); var n := |DataIn(s.got)|;
      && s.acct.window == 1000 - n % 100
      && (!ClosedIn(Effective(acts)) && !TruncatedIn(s.got) ==> |s.acct.sendmes| == n / 100)
      && forall j :: 0 <= j < |s.acct.sendmes| ==> SendmeFor(s, j)
  {
    var s := Exec(START, acts);
    RunTraced(acts);
    RunKeepsAccount(acts);
    DataInExact(s.got);
    forall j | 0 <= j < |s.acct.sendmes|
      ensures SendmeFor(s, j)
    {
      assert SendmeAt(s.acct, j);
    }
  }

  ghost predicate SendmeFor(s: State, j: nat)
    requires j < |s.acct.sendmes|
  {
    && 100 * j + 99 < |DataIn(s.got)| && DataIn(s.got)[100 * j + 99] < |s.got|
    && s.acct.sendmes[j].hop == s.got[DataIn(s.got)[100 * j + 99]].at
    && |s.acct.sendmes[j].body| == 23
  }

  /** A closed circuit claims no further SENDME. */
  lemma {:induction false} ClosedClaimsNone(s: State, acts: seq<Action>)
    requires s.acct.closed
    ensures var r := Exec(s, acts); r.acct.closed && r.acct.sendmes == s.acct.sendmes
    decreases |acts|
  {
    if acts == [] {
    } else {
      ClosedClaimsNone(s, acts[..|acts| - 1]);
    }
  }
}
