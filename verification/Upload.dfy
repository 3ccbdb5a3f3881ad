/** Stream writes end to end (pkg/stream/stream.go:256-298, pkg/circuit/circuit.go:539-561):
    Write cuts its argument into RELAY_DATA cells, which go through the uplink together with
    everything else the circuit sends. One application writer per stream. */
module Upload {
  import opened Bytes
  import opened Options
  import opened RelayCells
  import opened Onion
  import opened OnionRuns
  import opened Turnstile
  import Uplink

  /** Where a writer is: outside Write; choosing its next chunk; inside SendData with the writer
      `tid` of the turnstile; SendData about to return. */
  datatype Phase = Idle | Running | Sending(tid: nat) | Returning(ok: bool)

  /** `done` holds what earlier Write calls reported as written, `cur` and `total` the argument
      and count of the current call; `lost` that some call failed after its cell was claimed. */
  datatype AppWriter = AppWriter(done: seq<byte>, cur: seq<byte>, total: nat, phase: Phase, lost: bool)

  const NEW_WRITER := AppWriter([], [], 0, Idle, false)

  datatype State = State(net: Uplink.State, writers: map<u16, AppWriter>)

  const START := State(Uplink.START, map[])

  function WriterOf(s: State, sid: u16): (w: AppWriter) {
    if sid in s.writers then s.writers[sid] else NEW_WRITER
  }

  /** The chunk that Write takes next: at most 498 bytes. */
  function Chunk(w: AppWriter): (c: seq<byte>)
    requires w.total <= |w.cur|
    ensures c <= w.cur[w.total..] && |c| == if |w.cur| - w.total > 498 then 498 else |w.cur| - w.total
  {
    if |w.cur| - w.total > RELAY_DATA_LEN then w.cur[w.total..w.total + RELAY_DATA_LEN] else w.cur[w.total..]
  }

  function DataCell(sid: u16, data: seq<byte>): (rc: RelayCell) {
    RelayCell(RELAY_DATA, 0, sid, BLANK, data)
  }

  datatype Action =
    | StartWrite(sid: u16, p: seq<byte>)
    | SendChunk(sid: u16, tid: nat, dest: nat)
    | EndWrite(sid: u16)  // everything written, a timeout, the stream done or SendData refused
    | Return(sid: u16)
    | Finish(tid: nat)
    | Other(act: Uplink.Action)

  predicate Enabled(s: State, a: Action) {
    match a
    case StartWrite(sid, p) => WriterOf(s, sid).phase.Idle?
    case SendChunk(sid, tid, dest) =>
      var w := WriterOf(s, sid);
      && w.phase.Running? && w.total < |w.cur|
      && Uplink.Enabled(s.net, Uplink.Send(tid, dest, DataCell(sid, Chunk(w)), false))
    case EndWrite(sid) => WriterOf(s, sid).phase.Running?
    case Return(sid) => WriterOf(s, sid).phase.Returning?
    case Finish(tid) => Can(s.net.gate, Advance(tid))
    case Other(act) =>
      && !(act.Send? && act.rc.command == RELAY_DATA)
      && !(act.Gated? && act.move.Advance?)
  }

  /** The end of a Write call: it reports `total` bytes of its argument. */
  function EndCall(w: AppWriter): (r: AppWriter)
    requires w.total <= |w.cur|
  {
    w.(done := w.done + w.cur[..w.total], cur := [], total := 0, phase := Idle)
  }

  /** SendData has returned: count the chunk and go on, or report the error. */
  function AfterSend(w: AppWriter): (r: AppWriter)
    requires w.phase.Returning? && w.total <= |w.cur|
  {
    if w.phase.ok then w.(total := w.total + |Chunk(w)|, phase := Running)
    else EndCall(w).(lost := true)
  }

  /** The turn of `tid` is over: the SendData call that was using it is about to return. */
  function Released(ws: map<u16, AppWriter>, tid: nat, ok: bool): (r: map<u16, AppWriter>)
    ensures r.Keys == ws.Keys
    ensures forall sid :: sid in ws ==>
      r[sid] == if ws[sid].phase == Sending(tid) then ws[sid].(phase := Returning(ok)) else ws[sid]
  {
    map sid | sid in ws :: if ws[sid].phase == Sending(tid) then ws[sid].(phase := Returning(ok)) else ws[sid]
  }

  function Apply(s: State, a: Action): (r: State) {
    if !Enabled(s, a) then s
    else match a
      case StartWrite(sid, p) =>
        s.(writers := s.writers[sid := WriterOf(s, sid).(cur := p, total := 0, phase := Running)])
      case SendChunk(sid, tid, dest) =>
        var w := WriterOf(s, sid);
        s.(net := Uplink.Apply(s.net, Uplink.Send(tid, dest, DataCell(sid, Chunk(w)), false)),
           writers := s.writers[sid := w.(phase := Sending(tid))])
      case EndWrite(sid) =>
        var w := WriterOf(s, sid);
        if w.total <= |w.cur| then s.(writers := s.writers[sid := EndCall(w)]) else s
      case Return(sid) =>
        var w := WriterOf(s, sid);
        if w.total <= |w.cur| then s.(writers := s.writers[sid := AfterSend(w)]) else s
      case Finish(tid) =>
        s.(net := Uplink.Apply(s.net, Uplink.Gated(Advance(tid))),
           writers := Released(s.writers, tid, s.net.gate.writers[tid].phase.outcome.Wrote?))
      case Other(act) => s.(net := Uplink.Apply(s.net, act))
  }

  function Exec(s: State, acts: seq<Action>): (r: State)
    decreases |acts|
  {
    if acts == [] then s else Apply(Exec(s, acts[..|acts| - 1]), acts[|acts| - 1])
  }

  /* ----- Projections ----- */

  predicate IsData(rc: RelayCell, sid: u16) {
    rc.command == RELAY_DATA && rc.streamID == sid
  }

  /** The data sent for a stream, in ticket order. */
  ghost function SentData(log: seq<Entry>, sid: u16): (d: seq<byte>) {
    if log == [] then []
    else
      var rc := log[|log| - 1].rc;
      SentData(log[..|log| - 1], sid) + if IsData(rc, sid) then rc.data else []
  }

  /** The data that the relays decoded for a stream. */
  ghost function GotData(decoded: seq<Got>, sid: u16): (d: seq<byte>) {
    if decoded == [] then []
    else
      var got := decoded[|decoded| - 1].cell;
      GotData(decoded[..|decoded| - 1], sid) + if got.Some? && IsData(got.value, sid) then got.value.data else []
  }

  /** What a stream's Write calls have reported so far. */
  ghost function Reported(w: AppWriter): (d: seq<byte>)
    requires w.total <= |w.cur|
  {
    w.done + w.cur[..w.total]
  }

  /** The chunk that is claimed but not yet reported. */
  ghost function InHand(w: AppWriter): (d: seq<byte>)
    requires w.total <= |w.cur|
  {
    if w.phase.Sending? || w.phase.Returning? then Chunk(w) else []
  }

  /* ----- Invariant ----- */

  ghost predicate WriterOk(w: AppWriter) {
    && w.total <= |w.cur|
    && (w.phase.Sending? || w.phase.Returning? ==> w.total < |w.cur|)
    && (w.phase.Idle? ==> w.cur == [])
  }

  /** Unless a write of its own failed, a stream's cells carry what it reported and the chunk in
      hand. */
  ghost predicate WriterMatches(w: AppWriter, data: seq<byte>) {
    WriterOk(w) && (!w.lost ==> data == Reported(w) + InHand(w))
  }

  ghost predicate StreamOk(s: State, sid: u16) {
    WriterMatches(WriterOf(s, sid), SentData(s.net.log, sid))
  }

  /** Data cells hold 1 to 498 bytes. */
  ghost predicate ChunksFit(log: seq<Entry>) {
    forall k :: 0 <= k < |log| && log[k].rc.command == RELAY_DATA ==> 1 <= |log[k].rc.data| <= RELAY_DATA_LEN
  }

  predicate HasLost(w: AppWriter) {
    w.lost || w.phase == Returning(false)
  }

  /** A stream loses bytes only through a write that did not succeed. */
  ghost predicate LossNeedsFailure(s: State) {
    forall sid :: sid in s.writers && HasLost(s.writers[sid]) ==> s.net.gate.broken
  }

  ghost predicate UploadInv(s: State) {
    && (forall sid: u16 :: StreamOk(s, sid))
    && ChunksFit(s.net.log)
    && LossNeedsFailure(s)
    && OutcomesKnown(s.net.gate)
  }

  /** A writer that is past a bad write has marked the circuit's link as broken. */
  ghost predicate OutcomesKnown(g: Gate) {
    forall t :: t in g.writers && g.writers[t].phase.Written? && !g.writers[t].phase.outcome.Wrote? ==> g.broken
  }

  lemma SentSnoc(log: seq<Entry>, e: Entry, sid: u16)
    ensures SentData(log + [e], sid) == SentData(log, sid) + if IsData(e.rc, sid) then e.rc.data else []
  {
  }

  lemma NetKeepsOutcomes(s: Uplink.State, a: Uplink.Action)
    requires OutcomesKnown(s.gate)
    ensures OutcomesKnown(Uplink.Apply(s, a).gate)
    ensures s.gate.broken ==> Uplink.Apply(s, a).gate.broken
  {
  }

  /** An action that is not a data cell leaves every stream's cells alone. */
  lemma NetKeepsData(s: Uplink.State, a: Uplink.Action, sid: u16)
    requires !(a.Send? && a.rc.command == RELAY_DATA)
    ensures SentData(Uplink.Apply(s, a).log, sid) == SentData(s.log, sid)
    ensures ChunksFit(s.log) ==> ChunksFit(Uplink.Apply(s, a).log)
  {
    if a.Send? && Uplink.Enabled(s, a) {
      SentSnoc(s.log, MakeEntry(s.hops, a.dest, a.rc), sid);
    }
  }

  lemma ClaimMatches(w: AppWriter, data: seq<byte>, tid: nat)
    requires WriterMatches(w, data) && w.phase.Running? && w.total < |w.cur|
    ensures WriterMatches(w.(phase := Sending(tid)), data + Chunk(w))
    ensures 1 <= |Chunk(w)| <= RELAY_DATA_LEN
  {
  }

  /** Any state that follows from `s` by claiming the chunk of `sid` as entry `e`. */
  lemma ClaimedKeeps(s: State, r: State, sid: u16, tid: nat, e: Entry)
    requires UploadInv(s) && WriterOf(s, sid).phase.Running? && WriterOf(s, sid).total < |WriterOf(s, sid).cur|
    requires e.rc == DataCell(sid, Chunk(WriterOf(s, sid)))
    requires r.writers == s.writers[sid := WriterOf(s, sid).(phase := Sending(tid))]
    requires r.net.log == s.net.log + [e] && r.net.gate.broken == s.net.gate.broken && OutcomesKnown(r.net.gate)
    ensures UploadInv(r)
  {
    var w := WriterOf(s, sid);
    assert StreamOk(s, sid);
    ClaimMatches(w, SentData(s.net.log, sid), tid);
    forall other: u16
      ensures StreamOk(r, other)
    {
      assert StreamOk(s, other);
      SentSnoc(s.net.log, e, other);
    }
  }

  lemma SendChunkKeeps(s: State, sid: u16, tid: nat, dest: nat)
    requires UploadInv(s) && Enabled(s, SendChunk(sid, tid, dest))
    ensures UploadInv(Apply(s, SendChunk(sid, tid, dest)))
  {
    var act := Uplink.Send(tid, dest, DataCell(sid, Chunk(WriterOf(s, sid))), false);
    NetKeepsOutcomes(s.net, act);
    ClaimedKeeps(s, Apply(s, SendChunk(sid, tid, dest)), sid, tid, MakeEntry(s.net.hops, dest, act.rc));
  }

  lemma ReleaseMatches(w: AppWriter, data: seq<byte>, ok: bool)
    requires WriterMatches(w, data) && w.phase.Sending?
    ensures WriterMatches(w.(phase := Returning(ok)), data)
  {
  }

  lemma FinishKeeps(s: State, tid: nat)
    requires UploadInv(s) && Enabled(s, Finish(tid))
    ensures UploadInv(Apply(s, Finish(tid)))
  {
    var r := Apply(s, Finish(tid));
    var ok := s.net.gate.writers[tid].phase.outcome.Wrote?;
    var act := Uplink.Gated(Advance(tid));
    NetKeepsOutcomes(s.net, act);
    assert r.net.log == s.net.log;
    forall sid: u16
      ensures StreamOk(r, sid)
    {
      assert StreamOk(s, sid);
      if WriterOf(s, sid).phase == Sending(tid) {
        ReleaseMatches(WriterOf(s, sid), SentData(s.net.log, sid), ok);
      }
    }
  }

  lemma OtherKeeps(s: State, act: Uplink.Action)
    requires UploadInv(s) && Enabled(s, Other(act))
    ensures UploadInv(Apply(s, Other(act)))
  {
    var r := Apply(s, Other(act));
    NetKeepsOutcomes(s.net, act);
    NetKeepsData(s.net, act, 0);
    forall sid: u16
      ensures StreamOk(r, sid)
    {
      assert StreamOk(s, sid);
      NetKeepsData(s.net, act, sid);
    }
  }

  lemma ReturnMatches(w: AppWriter, data: seq<byte>)
    requires WriterMatches(w, data) && w.phase.Returning?
    ensures WriterMatches(AfterSend(w), data)
  {
  }

  lemma EndMatches(w: AppWriter, data: seq<byte>)
    requires WriterMatches(w, data) && w.phase.Running?
    ensures WriterMatches(EndCall(w), data)
  {
  }

  /** Steps of one writer alone. */
  lemma WriterKeeps(s: State, a: Action)
    requires UploadInv(s) && Enabled(s, a) && (a.StartWrite? || a.EndWrite? || a.Return?)
    ensures UploadInv(Apply(s, a))
  {
    var r := Apply(s, a);
    var w := WriterOf(s, a.sid);
    assert StreamOk(s, a.sid);
    if a.Return? {
      ReturnMatches(w, SentData(s.net.log, a.sid));
    } else if a.EndWrite? {
      EndMatches(w, SentData(s.net.log, a.sid));
    }
    forall sid: u16
      ensures StreamOk(r, sid)
    {
      assert StreamOk(s, sid);
    }
  }

  lemma {:induction false} RunKeeps(acts: seq<Action>)
    ensures UploadInv(Exec(START, acts))
    decreases |acts|
  {
    if acts == [] {
    } else {
      RunKeeps(acts[..|acts| - 1]);
      var s, a := Exec(START, acts[..|acts| - 1]), acts[|acts| - 1];
      if Enabled(s, a) {
        match a
        case SendChunk(sid, tid, dest) => SendChunkKeeps(s, sid, tid, dest);
        case Finish(tid) => FinishKeeps(s, tid);
        case Other(act) => OtherKeeps(s, act);
        case _ => WriterKeeps(s, a);
      }
    }
  }

  /** Every step of an upload is one step of its uplink, or none. */
  lemma StepKeepsNet(s: State, a: Action)
    requires TurnInv(s.net.gate) && Uplink.SyncInv(s.net) && Enabled(s, a)
    ensures var net := Apply(s, a).net; TurnInv(net.gate) && Uplink.SyncInv(net)
  {
    match a
    case SendChunk(sid, tid, dest) =>
      NetStep(s.net, Uplink.Send(tid, dest, DataCell(sid, Chunk(WriterOf(s, sid))), false));
    case Finish(tid) => NetStep(s.net, Uplink.Gated(Advance(tid)));
    case Other(act) => NetStep(s.net, act);
    case _ =>
  }

  lemma {:induction false} RunKeepsNet(acts: seq<Action>)
    ensures var net := Exec(START, acts).net; TurnInv(net.gate) && Uplink.SyncInv(net)
    decreases |acts|
  {
    if acts == [] {
    } else {
      RunKeepsNet(acts[..|acts| - 1]);
      if Enabled(Exec(START, acts[..|acts| - 1]), acts[|acts| - 1]) {
        StepKeepsNet(Exec(START, acts[..|acts| - 1]), acts[|acts| - 1]);
      }
    }
  }

  lemma NetStep(net: Uplink.State, act: Uplink.Action)
    requires TurnInv(net.gate) && Uplink.SyncInv(net)
    ensures var r := Uplink.Apply(net, act); TurnInv(r.gate) && Uplink.SyncInv(r)
  {
    Uplink.StepKeepsTurn(net, act);
    if Uplink.Enabled(net, act) {
      Uplink.StepKeepsSync(net, act);
    }
  }

  /** Decoding the first n sound cells yields the data that was sent in them. */
  lemma {:induction false} GotIsSent(log: seq<Entry>, decoded: seq<Got>, sid: u16, n: nat)
    requires n <= |log| && n <= |decoded| && AllGenuine(log) && RightLog(log, decoded, n) && ChunksFit(log)
    ensures GotData(decoded[..n], sid) == SentData(log[..n], sid)
  {
    if n == 0 {
    } else {
      GotIsSent(log, decoded, sid, n - 1);
      assert decoded[..n][..n - 1] == decoded[..n - 1] && log[..n][..n - 1] == log[..n - 1];
      assert Genuine(log[n - 1]) && decoded[n - 1] == log[n - 1].expected;
    }
  }

  lemma {:induction false} SentPrefix(log: seq<Entry>, sid: u16, n: nat)
    requires n <= |log|
    ensures SentData(log[..n], sid) <= SentData(log, sid)
    decreases |log|
  {
    if n == |log| {
      assert log[..n] == log;
    } else {
      assert log[..|log| - 1][..n] == log[..n];
      SentPrefix(log[..|log| - 1], sid, n);
    }
  }

  /** End to end: in every run without a bad write or a chance match, what the relays have decoded
      for a stream is a prefix of the bytes that its Write calls reported, in order, followed by
      the chunk in hand; once every cell has been processed it is all of them. */
  lemma EndToEnd(acts: seq<Action>, sid: u16)
    requires var s := Exec(START, acts); !s.net.gate.broken && s.net.clean == |s.net.log|
    ensures var s := Exec(START, acts); var w := WriterOf(s, sid);
      && w.total <= |w.cur|
      && GotData(s.net.decoded, sid) <= Reported(w) + InHand(w)
      && (|s.net.decoded| == |s.net.log| ==> GotData(s.net.decoded, sid) == Reported(w) + InHand(w))
      && (|s.net.decoded| == |s.net.log| && w.phase.Idle? ==> GotData(s.net.decoded, sid) == w.done)
  {
    RunKeeps(acts);
    RunKeepsNet(acts);
    var s := Exec(START, acts);
    var n := |s.net.decoded|;
    assert StreamOk(s, sid);
    assert !WriterOf(s, sid).lost;
    assert n <= Uplink.Sound(s.net);
    GotIsSent(s.net.log, s.net.decoded, sid, n);
    assert s.net.decoded[..n] == s.net.decoded;
    SentPrefix(s.net.log, sid, n);
    assert n == |s.net.log| ==> s.net.log[..n] == s.net.log;
  }

  /* ----- What a run did, told from its actions ----- */

  /** The network part of an upload is at every point the result of a run of the uplink. */
  lemma {:induction false} NetRuns(acts: seq<Action>) returns (net: seq<Uplink.Action>)
    ensures Uplink.Exec(Uplink.START, net) == Exec(START, acts).net
    decreases |acts|
  {
    if acts == [] {
      net := [];
    } else {
      var n := |acts| - 1;
      net := NetRuns(acts[..n]);
      var s, a := Exec(START, acts[..n]), acts[n];
      if Enabled(s, a) && (a.SendChunk? || a.Finish? || a.Other?) {
        var act := match a
          case SendChunk(sid, tid, dest) => Uplink.Send(tid, dest, DataCell(sid, Chunk(WriterOf(s, sid))), false)
          case Finish(tid) => Uplink.Gated(Advance(tid))
          case Other(act) => act;
        assert (net + [act])[..|net|] == net;
        net := net + [act];
      }
    }
  }

  ghost function Effective(acts: seq<Action>): (done: seq<Action>)
    decreases |acts|
  {
    if acts == [] then []
    else
      var n := |acts| - 1;
      if Enabled(Exec(START, acts[..n]), acts[n]) then Effective(acts[..n]) + [acts[n]] else Effective(acts[..n])
  }

  /** The arguments of a stream's Write calls, in order. */
  ghost function Args(done: seq<Action>, sid: u16): (args: seq<seq<byte>>) {
    if done == [] then []
    else
      var a := done[|done| - 1];
      if a.StartWrite? && a.sid == sid then Args(done[..|done| - 1], sid) + [a.p] else Args(done[..|done| - 1], sid)
  }

  /** The first lens[i] bytes of args[i], one after the other. */
  ghost function Prefixes(args: seq<seq<byte>>, lens: seq<nat>): (b: seq<byte>)
    requires |args| == |lens| && forall i :: 0 <= i < |args| ==> lens[i] <= |args[i]|
  {
    if args == [] then []
    else
      var n := |args| - 1;
      Prefixes(args[..n], lens[..n]) + args[n][..lens[n]]
  }

  /** The writer has reported lens[i] bytes of its i-th argument; the last one is under way unless
      the writer is idle. */
  ghost predicate ReportedAs(w: AppWriter, args: seq<seq<byte>>, lens: seq<nat>) {
    && w.total <= |w.cur|
    && |args| == |lens| && (forall i :: 0 <= i < |args| ==> lens[i] <= |args[i]|)
    && Reported(w) == Prefixes(args, lens)
    && (w.phase.Idle? ==> w.cur == [])
    && (!w.phase.Idle? ==> args != [] && args[|args| - 1] == w.cur && lens[|args| - 1] == w.total)
  }

  lemma PrefixesSnoc(args: seq<seq<byte>>, lens: seq<nat>, p: seq<byte>, n: nat)
    requires |args| == |lens| && forall i :: 0 <= i < |args| ==> lens[i] <= |args[i]|
    requires n <= |p|
    ensures Prefixes(args + [p], lens + [n]) == Prefixes(args, lens) + p[..n]
  {
    assert (args + [p])[..|args|] == args && (lens + [n])[..|lens|] == lens;
  }

  /** The last argument has been reported up to m bytes. */
  lemma PrefixesGrow(args: seq<seq<byte>>, lens: seq<nat>, m: nat)
    requires |args| == |lens| > 0 && forall i :: 0 <= i < |args| ==> lens[i] <= |args[i]|
    requires lens[|lens| - 1] <= m <= |args[|args| - 1]|
    ensures Prefixes(args, lens[|lens| - 1 := m])
         == Prefixes(args, lens) + args[|args| - 1][lens[|lens| - 1]..m]
  {
    var n := |args| - 1;
    var more := lens[n := m];
    assert more[..n] == lens[..n];
    assert args[n][..m] == args[n][..lens[n]] + args[n][lens[n]..m];
  }

  lemma StartReported(w: AppWriter, args: seq<seq<byte>>, lens: seq<nat>, p: seq<byte>)
    requires ReportedAs(w, args, lens) && w.phase.Idle?
    ensures ReportedAs(w.(cur := p, total := 0, phase := Running), args + [p], lens + [0])
  {
    PrefixesSnoc(args, lens, p, 0);
    assert p[..0] == [] && w.cur[..w.total] == [];
  }

  lemma ReturnReported(w: AppWriter, args: seq<seq<byte>>, lens: seq<nat>) returns (more: seq<nat>)
    requires ReportedAs(w, args, lens) && w.phase.Returning?
    ensures ReportedAs(AfterSend(w), args, more)
  {
    more := lens;
    if w.phase.ok {
      var m := w.total + |Chunk(w)|;
      more := lens[|lens| - 1 := m];
      PrefixesGrow(args, lens, m);
      assert w.cur[..m] == w.cur[..w.total] + w.cur[w.total..m];
    }
  }

  /** What a step does to the writer of stream `sid`. */
  lemma StepReported(s: State, a: Action, sid: u16, args: seq<seq<byte>>, lens: seq<nat>) returns (more: seq<nat>)
    requires Enabled(s, a) && ReportedAs(WriterOf(s, sid), args, lens)
    ensures ReportedAs(WriterOf(Apply(s, a), sid), if a.StartWrite? && a.sid == sid then args + [a.p] else args, more)
  {
    more := lens;
    var w := WriterOf(s, sid);
    match a
    case StartWrite(x, p) =>
      if x == sid {
        StartReported(w, args, lens, p);
        more := lens + [0];
      }
    case Return(x) =>
      if x == sid {
        more := ReturnReported(w, args, lens);
      }
    case _ =>
  }

  lemma ArgsSnoc(done: seq<Action>, a: Action, sid: u16)
    ensures Args(done + [a], sid) == if a.StartWrite? && a.sid == sid then Args(done, sid) + [a.p] else Args(done, sid)
  {
    assert (done + [a])[..|done|] == done;
  }

  /** In every run, what a stream's Write calls have reported is a prefix of each of their arguments,
      in order; the call under way has the last argument and has reported `total` bytes of it. */
  lemma {:induction false} WritesReported(acts: seq<Action>, sid: u16) returns (lens: seq<nat>)
    ensures ReportedAs(WriterOf(Exec(START, acts), sid), Args(Effective(acts), sid), lens)
    decreases |acts|
  {
    if acts == [] {
      lens := [];
    } else {
      var n := |acts| - 1;
      lens := WritesReported(acts[..n], sid);
      var s := Exec(START, acts[..n]);
      if Enabled(s, acts[n]) {
        lens := StepReported(s, acts[n], sid, Args(Effective(acts[..n]), sid), lens);
        ArgsSnoc(Effective(acts[..n]), acts[n], sid);
      }
    }
  }

  /** A chunk whose write is over is reported exactly if the write succeeded. */
  lemma ChunkReportedIff(acts: seq<Action>, sid: u16, tid: nat)
    requires var s := Exec(START, acts); WriterOf(s, sid).phase == Sending(tid) && Can(s.net.gate, Advance(tid))
    ensures var s := Exec(START, acts); var w := WriterOf(s, sid);
      var r := WriterOf(Apply(Apply(s, Finish(tid)), Return(sid)), sid);
      && w.total <= |w.cur| && r.total <= |r.cur|
      && Reported(r) == (if s.net.gate.writers[tid].phase.outcome.Wrote? then Reported(w) + Chunk(w) else Reported(w))
      && r.lost == (w.lost || !s.net.gate.writers[tid].phase.outcome.Wrote?)
  {
    RunKeeps(acts);
    var s := Exec(START, acts);
    assert StreamOk(s, sid);
    ReleasedReturns(s, sid, tid);
    AfterSendReports(WriterOf(s, sid), s.net.gate.writers[tid].phase.outcome.Wrote?);
  }

  lemma ReleasedReturns(s: State, sid: u16, tid: nat)
    requires WriterOf(s, sid).phase == Sending(tid) && WriterOf(s, sid).total < |WriterOf(s, sid).cur|
    requires Can(s.net.gate, Advance(tid))
    ensures var ok := s.net.gate.writers[tid].phase.outcome.Wrote?;
      WriterOf(Apply(Apply(s, Finish(tid)), Return(sid)), sid) == AfterSend(WriterOf(s, sid).(phase := Returning(ok)))
  {
    var ok := s.net.gate.writers[tid].phase.outcome.Wrote?;
    assert WriterOf(Apply(s, Finish(tid)), sid) == WriterOf(s, sid).(phase := Returning(ok));
  }

  lemma AfterSendReports(w: AppWriter, ok: bool)
    requires w.total < |w.cur|
    ensures var r := AfterSend(w.(phase := Returning(ok)));
      && r.total <= |r.cur| && r.lost == (w.lost || !ok)
      && Reported(r) == (if ok then Reported(w) + Chunk(w) else Reported(w))
  {
    if ok {
      ChunkIsNext(w);
      var r := AfterSend(w.(phase := Returning(true)));
      assert Reported(r) == w.done + (w.cur[..w.total] + Chunk(w));
    } else {
      var r := AfterSend(w.(phase := Returning(false)));
      assert r.cur[..r.total] == [];
    }
  }

  lemma ChunkIsNext(w: AppWriter)
    requires w.total < |w.cur|
    ensures var n := w.total + |Chunk(w)|; n <= |w.cur| && w.cur[..n] == w.cur[..w.total] + Chunk(w)
  {
  }

  /** No Write call is stuck: an idle stream can start one; one that is choosing its next chunk can
      end, and claims the chunk whenever the circuit accepts it; one whose SendData is over returns. */
  lemma WriterMoves(acts: seq<Action>, sid: u16, p: seq<byte>, tid: nat, dest: nat)
    ensures var s := Exec(START, acts); var w := WriterOf(s, sid);
      && w.total <= |w.cur|
      && (w.phase.Idle? ==> WriterOf(Apply(s, StartWrite(sid, p)), sid) == w.(cur := p, total := 0, phase := Running))
      && (w.phase.Running? ==> WriterOf(Apply(s, EndWrite(sid)), sid).phase.Idle?)
      && (w.phase.Running? && w.total < |w.cur| ==>
            (Enabled(s, SendChunk(sid, tid, dest)) <==>
               Uplink.Enabled(s.net, Uplink.Send(tid, dest, DataCell(sid, Chunk(w)), false))))
      && (w.phase.Returning? ==> !WriterOf(Apply(s, Return(sid)), sid).phase.Returning?)
  {
    RunKeeps(acts);
    assert StreamOk(Exec(START, acts), sid);
  }
}
