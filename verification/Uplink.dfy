/** The outbound half of a circuit together with the relays (pkg/circuit/circuit.go:336-415).

    Cells are layered and ticketed in one step, written through the turnstile, and peeled by
    relays that keep their own keystreams and digests (the relay model of
    pkg/circuit/circuit_test.go:94-132, deciding for themselves which cells are theirs). */
module Uplink {
  import opened Bytes
  import opened Options
  import opened RelayCells
  import opened Onion
  import opened OnionRuns
  import opened Turnstile

  /** `seeds` are the forward halves as negotiated and `log` the cells in ticket order; `clean`
      counts the cells before the first that is not clean. */
  datatype State = State(gate: Gate, hops: seq<Half>, relays: seq<Half>, decoded: seq<Got>,
                         seeds: seq<Half>, log: seq<Entry>, clean: nat)

  const START := State(OPEN, [], [], [], [], [], 0)

  datatype Action =
    | AddHop(half: Half)
    | Send(tid: nat, dest: nat, rc: RelayCell, early: bool)
    | Gated(move: Move)
    | Deliver

  predicate Enabled(s: State, a: Action) {
    match a
    case AddHop(_) => true
    case Send(tid, dest, rc, early) =>
      dest < |s.hops| && Can(s.gate, Claim(tid, LinkCell(early, MakeEntry(s.hops, dest, rc).payload)))
    case Gated(move) => !move.Claim? && Can(s.gate, move)
    case Deliver => |s.decoded| < |s.gate.wire|
  }

  function DoAddHop(s: State, half: Half): (r: State) {
    s.(hops := s.hops + [half], relays := s.relays + [half], seeds := s.seeds + [half])
  }

  /** sendRelay (or the SENDME of accountInboundData) up to the unlock. */
  function DoSend(s: State, tid: nat, e: Entry, early: bool): (r: State) {
    s.(gate := DoClaim(s.gate, tid, LinkCell(early, e.payload)),
       hops := e.after,
       log := s.log + [e],
       clean := NextClean(s.log, s.clean, e))
  }

  function DoDeliver(s: State): (r: State)
    requires |s.decoded| < |s.gate.wire|
  {
    var p := Peel(s.relays, 0, s.gate.wire[|s.decoded|].payload);
    s.(relays := p.hops, decoded := s.decoded + [Got(p.found, p.at, p.cell)])
  }

  function Apply(s: State, a: Action): (r: State) {
    if !Enabled(s, a) then s
    else match a
      case AddHop(half) => DoAddHop(s, half)
      case Send(tid, dest, rc, early) => DoSend(s, tid, MakeEntry(s.hops, dest, rc), early)
      case Gated(move) => s.(gate := Do(s.gate, move))
      case Deliver => DoDeliver(s)
  }

  function Exec(s: State, acts: seq<Action>): (r: State)
    decreases |acts|
  {
    if acts == [] then s else Apply(Exec(s, acts[..|acts| - 1]), acts[|acts| - 1])
  }

  lemma StepKeepsTurn(s: State, a: Action)
    requires TurnInv(s.gate)
    ensures TurnInv(Apply(s, a).gate)
  {
    if Enabled(s, a) {
      match a
      case AddHop(_) =>
      case Send(tid, dest, rc, early) => 
        MoveKeeps(s.gate, Claim(tid, LinkCell(early, MakeEntry(s.hops, dest, rc).payload)));
      case Gated(move) => MoveKeeps(s.gate, move);
      case Deliver =>
    }
  }

  /* ----- Forward synchrony ----- */

  ghost predicate Payloads(log: seq<Entry>, cells: seq<LinkCell>) {
    |cells| == |log| && forall k :: 0 <= k < |log| ==> cells[k].payload == log[k].payload
  }

  /** The number of cells before the first bad write and the first chance match. */
  function Sound(s: State): (n: nat) {
    if s.gate.good < s.clean then s.gate.good else s.clean
  }

  /** The relays stand where the client stood after the cells they have processed. */
  ghost predicate RelaysStand(s: State)
    requires Fit(s.seeds, s.log, s.hops) && s.clean <= |s.log|
  {
    |s.decoded| <= Sound(s) ==> s.relays == Pad(At(s.log, s.hops, |s.decoded|), s.seeds)
  }

  ghost predicate SyncInv(s: State) {
    && AllGenuine(s.log)
    && Fit(s.seeds, s.log, s.hops)
    && Chained(s.seeds, s.log, s.hops)
    && Payloads(s.log, s.gate.cells)
    && CleanPrefix(s.log, s.clean)
    && |s.decoded| <= |s.gate.wire|
    && RightLog(s.log, s.decoded, Sound(s))
    && RelaysStand(s)
  }

  lemma AddHopKeepsSync(s: State, half: Half)
    requires SyncInv(s)
    ensures SyncInv(DoAddHop(s, half))
  {
    AddHopKeepsChained(s.seeds, s.log, s.hops, half);
    if |s.decoded| <= Sound(s) {
      AddHopKeepsChain(s.seeds, s.log, s.hops, half, |s.decoded|);
    }
  }

  lemma SendKeepsStand(s: State, tid: nat, e: Entry, early: bool)
    requires Fit(s.seeds, s.log, s.hops) && s.clean <= |s.log| && s.gate.good <= |s.log| && RelaysStand(s)
    requires e.before == s.hops && |e.after| == |s.hops|
    ensures var r := DoSend(s, tid, e, early); Fit(r.seeds, r.log, r.hops) && r.clean <= |r.log| && RelaysStand(r)
  {
  }

  lemma SendKeepsSync(s: State, tid: nat, e: Entry, early: bool)
    requires SyncInv(s) && s.gate.good <= |s.log|
    requires Genuine(e) && e.before == s.hops && |e.after| == |s.hops|
    ensures SyncInv(DoSend(s, tid, e, early))
  {
    GenuineSnoc(s.log, e);
    SendKeepsChain(s.seeds, s.log, e);
    CleanSnoc(s.log, s.clean, e);
    assert Payloads(s.log + [e], s.gate.cells + [LinkCell(early, e.payload)]);
    SendKeepsStand(s, tid, e, early);
  }

  /** The good part of the wire carries the claimed cells in order. */
  lemma WireCarries(g: Gate, k: nat)
    requires TurnInv(g) && k < g.good
    ensures k < |g.wire| && k < |g.cells| && g.wire[k] == g.cells[k]
  {
  }

  lemma DeliverNext(s: State)
    requires TurnInv(s.gate) && SyncInv(s) && |s.decoded| < Sound(s)
    ensures |s.decoded| < |s.gate.wire|
    ensures var r := DoDeliver(s); var n := |s.decoded|;
      r.relays == Pad(At(s.log, s.hops, n + 1), s.seeds) && r.decoded == s.decoded + [s.log[n].expected]
  {
    var n := |s.decoded|;
    WireCarries(s.gate, n);
    assert Genuine(s.log[n]) && Joined(s.seeds, s.log, s.hops, n);
    PeelEntry(s.log[n], s.seeds);
  }

  lemma DeliverKeepsSync(s: State)
    requires TurnInv(s.gate) && SyncInv(s) && |s.decoded| < |s.gate.wire|
    ensures SyncInv(DoDeliver(s))
  {
    var r := DoDeliver(s);
    if |s.decoded| < Sound(s) {
      DeliverNext(s);
    }
    RightLogSnoc(s.log, s.decoded, r.decoded[|s.decoded|], Sound(s));
  }

  lemma GatedKeepsSync(s: State, move: Move)
    requires TurnInv(s.gate) && SyncInv(s) && !move.Claim? && Can(s.gate, move)
    ensures SyncInv(s.(gate := Do(s.gate, move)))
  {
  }

  lemma StepKeepsSync(s: State, a: Action)
    requires TurnInv(s.gate) && SyncInv(s) && Enabled(s, a)
    ensures SyncInv(Apply(s, a))
  {
    match a
    case AddHop(half) => AddHopKeepsSync(s, half);
    case Send(tid, dest, rc, early) => SendKeepsSync(s, tid, MakeEntry(s.hops, dest, rc), early);
    case Gated(move) => GatedKeepsSync(s, move);
    case Deliver => DeliverKeepsSync(s);
  }

  lemma {:induction false} RunKeepsSync(acts: seq<Action>)
    ensures var s := Exec(START, acts); TurnInv(s.gate) && SyncInv(s)
    decreases |acts|
  {
    if acts == [] {
    } else {
      var s, a := Exec(START, acts[..|acts| - 1]), acts[|acts| - 1];
      RunKeepsSync(acts[..|acts| - 1]);
      StepKeepsTurn(s, a);
      if Enabled(s, a) {
        StepKeepsSync(s, a);
      }
    }
  }

  /** Cell k was taken by the hop it was sent to, which recovered command, stream and data. */
  ghost predicate Recovered(s: State, k: nat) {
    && k < |s.decoded| && k < |s.log|
    && s.decoded[k].found && s.decoded[k].at == s.log[k].hop
    && s.decoded[k].cell.Some?
    && var got := s.decoded[k].cell.value; var rc := s.log[k].rc;
       && got.command == rc.command && got.streamID == rc.streamID
       && got.recognized == 0 && got.data == Carried(rc.data)
  }

  /** Forward synchrony: in every run, whatever the interleaving and whenever hops are added,
      every cell that the relays have processed, handed over before the first bad write and with
      no chance match up to it, is recovered by exactly the hop it was sent to. */
  lemma ForwardSync(acts: seq<Action>, k: nat)
    requires var s := Exec(START, acts); k < |s.decoded| && k < Sound(s)
    ensures Recovered(Exec(START, acts), k)
  {
    RunKeepsSync(acts);
    var s := Exec(START, acts);
    assert Genuine(s.log[k]);
  }

  /** Once every ticket has been written and every cell processed, with no bad write and no
      chance match, each relay has the client's forward keystream position and digest, and no
      cell is missing. */
  lemma RelaysInStep(acts: seq<Action>)
    requires var s := Exec(START, acts);
      !s.gate.broken && s.gate.sendTurn == s.gate.sendNext && |s.decoded| == |s.gate.wire| && s.clean == |s.log|
    ensures var s := Exec(START, acts); s.relays == s.hops && |s.decoded| == |s.log|
  {
    RunKeepsSync(acts);
    var s := Exec(START, acts);
    PadFull(s.hops, s.seeds);
  }

  /* ----- What a run did, told from its actions ----- */

  /** The actions of a run that were enabled when they came. */
  ghost function Effective(acts: seq<Action>): (done: seq<Action>)
    decreases |acts|
  {
    if acts == [] then []
    else
      var n := |acts| - 1;
      Effective(acts[..n]) + if Enabled(Exec(START, acts[..n]), acts[n]) then [acts[n]] else []
  }

  /** The hops negotiated, in order. */
  ghost function Added(done: seq<Action>): (halves: seq<Half>) {
    if done == [] then []
    else
      var a := done[|done| - 1];
      if a.AddHop? then Added(done[..|done| - 1]) + [a.half] else Added(done[..|done| - 1])
  }

  /** The sends, in order. */
  ghost function Sends(done: seq<Action>): (sends: seq<Action>)
    ensures forall k :: 0 <= k < |sends| ==> sends[k].Send?
  {
    if done == [] then []
    else
      var a := done[|done| - 1];
      if a.Send? then Sends(done[..|done| - 1]) + [a] else Sends(done[..|done| - 1])
  }

  ghost function Deliveries(done: seq<Action>): (n: nat) {
    if done == [] then 0
    else Deliveries(done[..|done| - 1]) + if done[|done| - 1].Deliver? then 1 else 0
  }

  /** Cell k is the k-th that was sent: its destination, contents and kind. */
  ghost predicate LoggedAs(log: seq<Entry>, cells: seq<LinkCell>, sends: seq<Action>, k: nat)
    requires k < |log| && |cells| == |log| == |sends|
  {
    sends[k].Send? && log[k].hop == sends[k].dest && log[k].rc == sends[k].rc && cells[k].early == sends[k].early
  }

  ghost predicate LogTraced(log: seq<Entry>, cells: seq<LinkCell>, sends: seq<Action>) {
    |log| == |cells| == |sends| && forall k :: 0 <= k < |log| ==> LoggedAs(log, cells, sends, k)
  }

  ghost predicate Traced(s: State, done: seq<Action>) {
    && s.seeds == Added(done)
    && LogTraced(s.log, s.gate.cells, Sends(done))
    && |s.decoded| == Deliveries(done)
  }

  lemma SnocTrace(done: seq<Action>, a: Action)
    ensures Added(done + [a]) == if a.AddHop? then Added(done) + [a.half] else Added(done)
    ensures Sends(done + [a]) == if a.Send? then Sends(done) + [a] else Sends(done)
    ensures Deliveries(done + [a]) == Deliveries(done) + if a.Deliver? then 1 else 0
  {
    assert (done + [a])[..|done|] == done;
  }

  lemma LogSnoc(log: seq<Entry>, cells: seq<LinkCell>, sends: seq<Action>, e: Entry, c: LinkCell, a: Action)
    requires LogTraced(log, cells, sends) && a.Send? && e.hop == a.dest && e.rc == a.rc && c.early == a.early
    ensures LogTraced(log + [e], cells + [c], sends + [a])
  {
    forall k | 0 <= k < |log + [e]|
      ensures LoggedAs(log + [e], cells + [c], sends + [a], k)
    {
      if k < |log| {
        assert LoggedAs(log, cells, sends, k);
      }
    }
  }

  lemma StepTraced(s: State, a: Action, done: seq<Action>)
    requires Traced(s, done) && Enabled(s, a)
    ensures Traced(Apply(s, a), done + [a])
  {
    SnocTrace(done, a);
    if a.Send? {
      var e := MakeEntry(s.hops, a.dest, a.rc);
      LogSnoc(s.log, s.gate.cells, Sends(done), e, LinkCell(a.early, e.payload), a);
    }
  }

  /** In every run the log holds exactly the cells sent, to the hops and in the order of the sends;
      the hops are those negotiated, and one cell is processed for each delivery. */
  lemma {:induction false} RunTraced(acts: seq<Action>)
    ensures Traced(Exec(START, acts), Effective(acts))
    decreases |acts|
  {
    if acts == [] {
    } else {
      var n := |acts| - 1;
      RunTraced(acts[..n]);
      if Enabled(Exec(START, acts[..n]), acts[n]) {
        StepTraced(Exec(START, acts[..n]), acts[n], Effective(acts[..n]));
      } else {
        assert Effective(acts) == Effective(acts[..n]);
      }
    }
  }

  /** The gate of an uplink is at every point the result of a run of the turnstile, so all that is
      said of such runs holds of it. */
  lemma {:induction false} GateRuns(acts: seq<Action>) returns (moves: seq<Move>)
    ensures Run(OPEN, moves) == Exec(START, acts).gate
    decreases |acts|
  {
    if acts == [] {
      moves := [];
    } else {
      var n := |acts| - 1;
      moves := GateRuns(acts[..n]);
      var s, a := Exec(START, acts[..n]), acts[n];
      if Enabled(s, a) && (a.Send? || a.Gated?) {
        var m := if a.Gated? then a.move else Claim(a.tid, LinkCell(a.early, MakeEntry(s.hops, a.dest, a.rc).payload));
        assert (moves + [m])[..|moves|] == moves;
        moves := moves + [m];
      }
    }
  }

  /** A send is accepted exactly on an open circuit that has the hop, from a caller not already in
      the turnstile, and as RELAY_EARLY only while fewer than 8 have been. */
  lemma SendAcceptedIff(acts: seq<Action>, tid: nat, dest: nat, rc: RelayCell, early: bool)
    ensures var s := Exec(START, acts);
      Enabled(s, Send(tid, dest, rc, early)) <==>
        && dest < |Added(Effective(acts))|
        && tid !in s.gate.writers && !s.gate.closed && (early ==> CountEarly(s.gate.cells) < 8)
  {
    RunKeepsSync(acts);
    RunTraced(acts);
  }

  /** The relays can always catch up with the wire. */
  lemma {:induction false} CatchUp(acts: seq<Action>) returns (more: seq<Action>)
    ensures acts <= more && forall i :: |acts| <= i < |more| ==> more[i] == Deliver
    ensures var s := Exec(START, more); s.gate == Exec(START, acts).gate && |s.decoded| == |s.gate.wire|
    decreases |Exec(START, acts).gate.wire| - |Exec(START, acts).decoded|
  {
    var s := Exec(START, acts);
    RunKeepsSync(acts);
    if |s.decoded| == |s.gate.wire| {
      more := acts;
    } else {
      var next := acts + [Deliver];
      assert next[..|acts|] == acts;
      assert Exec(START, next) == DoDeliver(s);
      more := CatchUp(next);
    }
  }

  /** Hops can be added at any time, each at the end of the circuit and on its relay, and every step
      that the turnstile allows can be taken. */
  lemma OthersAccepted(s: State, half: Half, move: Move)
    ensures var r := Apply(s, AddHop(half));
      r.hops == s.hops + [half] && r.relays == s.relays + [half] && r.log == s.log
    ensures !move.Claim? ==> Apply(s, Gated(move)) == s.(gate := Do(s.gate, move))
  {
  }
}
