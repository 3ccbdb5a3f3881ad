/** The ordered-write turnstile of a circuit (pkg/circuit/circuit.go:76-86, 336-396).

    A caller or a detached SENDME goroutine claims a ticket under the circuit lock, waits for
    its turn on a condition variable, passes its cell to the link outside the lock and advances
    the turn. An action that is not enabled changes nothing, so every sequence of actions is
    a run. */
module Turnstile {
  import opened Bytes
  import opened RelayCells

  const MAX_RELAY_EARLY := 8

  datatype LinkCell = LinkCell(early: bool, payload: Payload)

  /** What SendCell did. */
  datatype Outcome = Wrote | Failed | Panicked

  /** Where a writer is in writeAtTurn; `asleep` means inside sendCond.Wait. */
  datatype Phase = Waiting(asleep: bool) | Writing | Written(outcome: Outcome) | Failing

  datatype Writer = Writer(ticket: nat, cell: LinkCell, phase: Phase)

  /** `cells` and `owner` record, for every ticket, the cell claimed for it and the claimant;
      `handed` the cells passed to SendCell in order; `wire` those that reach the first relay;
      `good` how many were handed over before the first write that did not succeed. */
  datatype Gate = Gate(
    closed: bool, earlyCount: nat, sendNext: nat, sendTurn: nat, writers: map<nat, Writer>,
    cells: seq<LinkCell>, owner: seq<nat>,
    handed: seq<LinkCell>, wire: seq<LinkCell>, broken: bool, good: nat)

  const OPEN := Gate(false, 0, 0, 0, map[], [], [], [], [], false, 0)

  datatype Move =
    | Claim(tid: nat, cell: LinkCell)
    | Check(tid: nat)
    | Write(tid: nat, outcome: Outcome, reached: bool)
    | Advance(tid: nat)
    | Fail(tid: nat)
    | Destroy

  predicate Can(g: Gate, m: Move) {
    match m
    case Claim(tid, cell) => tid !in g.writers && !g.closed && (cell.early ==> g.earlyCount < MAX_RELAY_EARLY)
    case Check(tid) => tid in g.writers && g.writers[tid].phase == Waiting(false)
    case Write(tid, outcome, reached) => tid in g.writers && g.writers[tid].phase.Writing?
    case Advance(tid) => tid in g.writers && g.writers[tid].phase.Written?
    case Fail(tid) => tid in g.writers && g.writers[tid].phase.Failing?
    case Destroy => true
  }

  /** The end of sendRelay's critical section: count a RELAY_EARLY cell, take a ticket. */
  function DoClaim(g: Gate, tid: nat, cell: LinkCell): (r: Gate) {
    g.(earlyCount := g.earlyCount + if cell.early then 1 else 0,
       sendNext := g.sendNext + 1,
       writers := g.writers[tid := Writer(g.sendNext, cell, Waiting(false))],
       cells := g.cells + [cell], owner := g.owner + [tid])
  }

  /** One round of the wait loop: go and write, or sleep until the next broadcast. */
  function DoCheck(g: Gate, tid: nat): (r: Gate)
    requires tid in g.writers
  {
    var w := g.writers[tid];
    g.(writers := g.writers[tid := w.(phase := if w.ticket == g.sendTurn then Writing else Waiting(true))])
  }

  /** SendCell; `reached` says whether a failed write got the cell to the relay all the same. */
  function DoWrite(g: Gate, tid: nat, outcome: Outcome, reached: bool): (r: Gate)
    requires tid in g.writers
  {
    var w := g.writers[tid];
    g.(writers := g.writers[tid := w.(phase := Written(outcome))],
       handed := g.handed + [w.cell],
       wire := if outcome.Wrote? || reached then g.wire + [w.cell] else g.wire,
       broken := g.broken || !outcome.Wrote?,
       good := if g.broken || !outcome.Wrote? then g.good else g.good + 1)
  }

  function WakeAll(ws: map<nat, Writer>): (r: map<nat, Writer>)
    ensures r.Keys == ws.Keys
    ensures forall t :: t in ws ==> r[t] == if ws[t].phase.Waiting? then ws[t].(phase := Waiting(false)) else ws[t]
  {
    map t | t in ws :: if ws[t].phase.Waiting? then ws[t].(phase := Waiting(false)) else ws[t]
  }

  /** The deferred step: next turn, broadcast. After a failed write the circuit is still to be
      failed; a panic unwinds the goroutine instead. */
  function DoAdvance(g: Gate, tid: nat): (r: Gate)
    requires tid in g.writers && g.writers[tid].phase.Written?
  {
    var w := g.writers[tid];
    var awake := WakeAll(g.writers);
    g.(sendTurn := g.sendTurn + 1,
       writers := if w.phase.outcome.Failed? then awake[tid := w.(phase := Failing)] else awake - {tid})
  }

  function DoFail(g: Gate, tid: nat): (r: Gate) {
    g.(closed := true, writers := g.writers - {tid})
  }

  function Do(g: Gate, m: Move): (r: Gate) {
    if !Can(g, m) then g
    else match m
      case Claim(tid, cell) => DoClaim(g, tid, cell)
      case Check(tid) => DoCheck(g, tid)
      case Write(tid, outcome, reached) => DoWrite(g, tid, outcome, reached)
      case Advance(tid) => DoAdvance(g, tid)
      case Fail(tid) => DoFail(g, tid)
      case Destroy => g.(closed := true)
  }

  function Run(g: Gate, moves: seq<Move>): (r: Gate)
    decreases |moves|
  {
    if moves == [] then g else Do(Run(g, moves[..|moves| - 1]), moves[|moves| - 1])
  }

  /* ----- The invariant ----- */

  function CountEarly(cells: seq<LinkCell>): (n: nat) {
    if cells == [] then 0
    else CountEarly(cells[..|cells| - 1]) + if cells[|cells| - 1].early then 1 else 0
  }

  /** Every writer holds a ticket and cell of its own; those that have not advanced the turn hold
      a ticket from sendTurn on, the failing ones an older ticket. */
  ghost predicate Held(g: Gate) {
    && |g.cells| == |g.owner| == g.sendNext
    && g.sendTurn <= g.sendNext
    && forall t :: t in g.writers ==> var w := g.writers[t];
         && w.ticket < g.sendNext && g.owner[w.ticket] == t && w.cell == g.cells[w.ticket]
         && (w.ticket < g.sendTurn <==> w.phase.Failing?)
  }

  /** Every ticket from sendTurn to sendNext-1 is held by its claimant. */
  ghost predicate Pending(g: Gate)
    requires |g.owner| == g.sendNext
  {
    forall k :: g.sendTurn <= k < g.sendNext ==> g.owner[k] in g.writers && g.writers[g.owner[k]].ticket == k
  }

  /** Only the holder of the turn writes, and it never sleeps. */
  ghost predicate Turns(g: Gate) {
    forall t :: t in g.writers ==> var w := g.writers[t];
      && (w.phase.Writing? || w.phase.Written? ==> w.ticket == g.sendTurn)
      && (w.phase == Waiting(true) ==> w.ticket != g.sendTurn)
  }

  /** A cell has been passed to SendCell whose turn is not yet over. */
  ghost predicate HandedAhead(g: Gate) {
    exists t :: t in g.writers && g.writers[t].phase.Written?
  }

  /** The link gets the cells in ticket order, and the relay gets the good ones. */
  ghost predicate InOrder(g: Gate) {
    && |g.handed| == g.sendTurn + (if HandedAhead(g) then 1 else 0) <= |g.cells|
    && g.handed == g.cells[..|g.handed|]
    && g.good <= |g.wire| && g.good <= |g.handed|
    && g.wire[..g.good] == g.handed[..g.good]
    && (!g.broken ==> g.good == |g.handed| == |g.wire|)
  }

  ghost predicate EarlyBudget(g: Gate) {
    g.earlyCount == CountEarly(g.cells) && g.earlyCount <= MAX_RELAY_EARLY
  }

  ghost predicate TurnInv(g: Gate) {
    Held(g) && Pending(g) && Turns(g) && InOrder(g) && EarlyBudget(g)
  }

  lemma ClaimKeepsTickets(g: Gate, tid: nat, cell: LinkCell)
    requires Held(g) && Pending(g) && Turns(g) && Can(g, Claim(tid, cell))
    ensures var r := DoClaim(g, tid, cell); Held(r) && Pending(r) && Turns(r)
  {
  }

  lemma ClaimKeepsOrder(g: Gate, tid: nat, cell: LinkCell)
    requires InOrder(g) && EarlyBudget(g) && Can(g, Claim(tid, cell))
    ensures var r := DoClaim(g, tid, cell); InOrder(r) && EarlyBudget(r)
  {
    var r := DoClaim(g, tid, cell);
    assert r.cells[..|r.cells| - 1] == g.cells;
    assert HandedAhead(r) <==> HandedAhead(g) by {
      if HandedAhead(g) {
        var t :| t in g.writers && g.writers[t].phase.Written?;
        assert r.writers[t] == g.writers[t];
      }
    }
    assert r.cells[..|g.handed|] == g.cells[..|g.handed|];
  }

  lemma CheckKeepsTickets(g: Gate, tid: nat)
    requires Held(g) && Pending(g) && Turns(g) && Can(g, Check(tid))
    ensures var r := DoCheck(g, tid); Held(r) && Pending(r) && Turns(r)
  {
  }

  lemma CheckKeepsOrder(g: Gate, tid: nat)
    requires InOrder(g) && EarlyBudget(g) && Can(g, Check(tid))
    ensures var r := DoCheck(g, tid); InOrder(r) && EarlyBudget(r)
  {
    var r := DoCheck(g, tid);
    assert HandedAhead(r) <==> HandedAhead(g) by {
      if HandedAhead(g) {
        var t :| t in g.writers && g.writers[t].phase.Written?;
        assert r.writers[t] == g.writers[t];
      }
    }
  }

  lemma WriteKeepsTickets(g: Gate, tid: nat, outcome: Outcome, reached: bool)
    requires Held(g) && Pending(g) && Turns(g) && Can(g, Write(tid, outcome, reached))
    ensures var r := DoWrite(g, tid, outcome, reached); Held(r) && Pending(r) && Turns(r)
  {
  }

  lemma WriteKeepsOrder(g: Gate, tid: nat, outcome: Outcome, reached: bool)
    requires Held(g) && Turns(g) && InOrder(g) && EarlyBudget(g) && Can(g, Write(tid, outcome, reached))
    ensures var r := DoWrite(g, tid, outcome, reached); InOrder(r) && EarlyBudget(r)
  {
    var r := DoWrite(g, tid, outcome, reached);
    assert g.writers[tid].ticket == g.sendTurn && g.owner[g.sendTurn] == tid;
    assert !HandedAhead(g) && r.writers[tid].phase.Written?;
    assert r.handed == r.cells[..|r.handed|];
    assert r.wire[..g.good] == g.wire[..g.good] && r.handed[..g.good] == g.handed[..g.good];
  }

  /** No other writer holds the turn that `tid` is about to give up. */
  lemma OnlyHolder(g: Gate, tid: nat)
    requires Held(g) && Turns(g) && Can(g, Advance(tid))
    ensures g.writers[tid].ticket == g.sendTurn < g.sendNext
    ensures forall t :: t in g.writers && t != tid ==> g.writers[t].ticket != g.sendTurn
  {
  }

  lemma AdvanceKeepsHeld(g: Gate, tid: nat)
    requires Held(g) && Turns(g) && Can(g, Advance(tid))
    ensures Held(DoAdvance(g, tid))
  {
    OnlyHolder(g, tid);
    var r := DoAdvance(g, tid);
    forall t | t in r.writers
      ensures var w := r.writers[t];
        && w.ticket < r.sendNext && r.owner[w.ticket] == t && w.cell == r.cells[w.ticket]
        && (w.ticket < r.sendTurn <==> w.phase.Failing?)
    {
      var w := g.writers[t];
      assert r.writers[t].ticket == w.ticket && r.writers[t].cell == w.cell;
    }
  }

  lemma AdvanceKeepsTurns(g: Gate, tid: nat)
    requires Held(g) && Turns(g) && Can(g, Advance(tid))
    ensures Turns(DoAdvance(g, tid))
  {
    OnlyHolder(g, tid);
  }

  lemma AdvanceKeepsPending(g: Gate, tid: nat)
    requires Held(g) && Pending(g) && Turns(g) && Can(g, Advance(tid))
    ensures Pending(DoAdvance(g, tid))
  {
  }

  lemma AdvanceKeepsOrder(g: Gate, tid: nat)
    requires TurnInv(g) && Can(g, Advance(tid))
    ensures var r := DoAdvance(g, tid); InOrder(r) && EarlyBudget(r)
  {
    var r := DoAdvance(g, tid);
    assert HandedAhead(g);
    OnlyHolder(g, tid);
    assert !HandedAhead(r);
  }

  lemma FailKeeps(g: Gate, tid: nat)
    requires TurnInv(g) && Can(g, Fail(tid))
    ensures TurnInv(DoFail(g, tid))
  {
    var r := DoFail(g, tid);
    assert HandedAhead(r) <==> HandedAhead(g) by {
      if HandedAhead(g) {
        var t :| t in g.writers && g.writers[t].phase.Written?;
        assert t in r.writers && r.writers[t] == g.writers[t];
      }
    }
  }

  lemma MoveKeeps(g: Gate, m: Move)
    requires TurnInv(g)
    ensures TurnInv(Do(g, m))
  {
    if Can(g, m) {
      match m
      case Claim(tid, cell) =>
        ClaimKeepsTickets(g, tid, cell);
        ClaimKeepsOrder(g, tid, cell);
      case Check(tid) =>
        CheckKeepsTickets(g, tid);
        CheckKeepsOrder(g, tid);
      case Write(tid, outcome, reached) =>
        WriteKeepsTickets(g, tid, outcome, reached);
        WriteKeepsOrder(g, tid, outcome, reached);
      case Advance(tid) =>
        AdvanceKeepsHeld(g, tid);
        AdvanceKeepsTurns(g, tid);
        AdvanceKeepsPending(g, tid);
        AdvanceKeepsOrder(g, tid);
      case Fail(tid) => FailKeeps(g, tid);
      case Destroy =>
        var r := g.(closed := true);
        assert HandedAhead(r) <==> HandedAhead(g);
    }
  }

  /** Turnstile, over every interleaving: the link is handed the cells in ticket order, the
      tickets pending are exactly sendTurn..sendNext-1 and at most 8 cells are RELAY_EARLY. */
  lemma {:induction false} RunKeeps(moves: seq<Move>)
    ensures TurnInv(Run(OPEN, moves))
    decreases |moves|
  {
    if moves == [] {
    } else {
      RunKeeps(moves[..|moves| - 1]);
      MoveKeeps(Run(OPEN, moves[..|moves| - 1]), moves[|moves| - 1]);
    }
  }

  /* ----- What a run did, told from its moves ----- */

  /** The moves of a run that were enabled when they came. */
  ghost function Done(g: Gate, moves: seq<Move>): (done: seq<Move>)
    decreases |moves|
  {
    if moves == [] then []
    else
      var n := |moves| - 1;
      Done(g, moves[..n]) + if Can(Run(g, moves[..n]), moves[n]) then [moves[n]] else []
  }

  /** The cells claimed, in order. */
  ghost function Claims(done: seq<Move>): (cells: seq<LinkCell>) {
    if done == [] then []
    else
      var m := done[|done| - 1];
      Claims(done[..|done| - 1]) + if m.Claim? then [m.cell] else []
  }

  /** What became of one cell handed to SendCell. */
  datatype Result = Result(outcome: Outcome, reached: bool)

  ghost function Results(done: seq<Move>): (rs: seq<Result>) {
    if done == [] then []
    else
      var m := done[|done| - 1];
      Results(done[..|done| - 1]) + if m.Write? then [Result(m.outcome, m.reached)] else []
  }

  predicate Closes(m: Move) {
    m.Fail? || m.Destroy?
  }

  ghost predicate ClosedIn(done: seq<Move>) {
    exists i :: 0 <= i < |done| && Closes(done[i])
  }

  /** How many writes succeeded before the first that did not. */
  ghost function Leading(rs: seq<Result>): (n: nat)
    ensures n <= |rs|
  {
    if rs == [] then 0
    else
      var k := Leading(rs[..|rs| - 1]);
      if k == |rs| - 1 && rs[|rs| - 1].outcome.Wrote? then |rs| else k
  }

  /** The cells that reach the relay: those written, and those whose failed write reached it. */
  ghost function Arrived(cells: seq<LinkCell>, rs: seq<Result>): (wire: seq<LinkCell>)
    requires |rs| <= |cells|
  {
    if rs == [] then []
    else
      var n := |rs| - 1;
      Arrived(cells, rs[..n]) + if rs[n].outcome.Wrote? || rs[n].reached then [cells[n]] else []
  }

  ghost predicate Traced(g: Gate, done: seq<Move>) {
    && g.cells == Claims(done) && g.closed == ClosedIn(done)
    && WroteAs(|g.handed|, g.broken, g.good, g.wire, g.cells, Results(done))
  }

  ghost predicate WroteAs(handed: nat, broken: bool, good: nat, wire: seq<LinkCell>, cells: seq<LinkCell>,
                          rs: seq<Result>)
  {
    && handed == |rs| <= |cells|
    && broken == (Leading(rs) < |rs|) && good == Leading(rs)
    && wire == Arrived(cells, rs)
  }

  lemma SnocTrace(done: seq<Move>, m: Move)
    ensures Claims(done + [m]) == if m.Claim? then Claims(done) + [m.cell] else Claims(done)
    ensures Results(done + [m]) == if m.Write? then Results(done) + [Result(m.outcome, m.reached)] else Results(done)
    ensures ClosedIn(done + [m]) <==> ClosedIn(done) || Closes(m)
  {
    assert (done + [m])[..|done|] == done;
    if ClosedIn(done) {
      var i :| 0 <= i < |done| && Closes(done[i]);
      assert (done + [m])[i] == done[i];
    }
    assert (done + [m])[|done|] == m;
  }

  lemma SnocResult(rs: seq<Result>, r: Result)
    ensures Leading(rs + [r]) == if Leading(rs) == |rs| && r.outcome.Wrote? then |rs| + 1 else Leading(rs)
  {
    assert (rs + [r])[..|rs|] == rs;
  }

  lemma SnocArrived(cells: seq<LinkCell>, rs: seq<Result>, r: Result)
    requires |rs| < |cells|
    ensures Arrived(cells, rs + [r])
         == if r.outcome.Wrote? || r.reached then Arrived(cells, rs) + [cells[|rs|]] else Arrived(cells, rs)
  {
    assert (rs + [r])[..|rs|] == rs;
  }

  lemma {:induction false} ArrivedExtend(cells: seq<LinkCell>, c: LinkCell, rs: seq<Result>)
    requires |rs| <= |cells|
    ensures Arrived(cells + [c], rs) == Arrived(cells, rs)
  {
    if rs == [] {
    } else {
      ArrivedExtend(cells, c, rs[..|rs| - 1]);
    }
  }

  lemma WroteMore(handed: nat, broken: bool, good: nat, wire: seq<LinkCell>, cells: seq<LinkCell>, rs: seq<Result>,
                  r: Result)
    requires WroteAs(handed, broken, good, wire, cells, rs) && handed < |cells|
    ensures WroteAs(handed + 1, broken || !r.outcome.Wrote?,
                    if broken || !r.outcome.Wrote? then good else good + 1,
                    if r.outcome.Wrote? || r.reached then wire + [cells[handed]] else wire,
                    cells, rs + [r])
  {
    SnocResult(rs, r);
    SnocArrived(cells, rs, r);
  }

  /** The writer of the turn hands over the next cell. */
  lemma WriterIsNext(g: Gate, m: Move)
    requires TurnInv(g) && m.Write? && Can(g, m)
    ensures |g.handed| < |g.cells| && g.writers[m.tid].cell == g.cells[|g.handed|]
  {
    assert g.writers[m.tid].ticket == g.sendTurn && g.owner[g.sendTurn] == m.tid;
    assert !HandedAhead(g);
  }

  lemma WriteTraced(g: Gate, m: Move, done: seq<Move>)
    requires Traced(g, done) && m.Write? && Can(g, m)
    requires |g.handed| < |g.cells| && g.writers[m.tid].cell == g.cells[|g.handed|]
    ensures Traced(Do(g, m), done + [m])
  {
    SnocTrace(done, m);
    WroteMore(|g.handed|, g.broken, g.good, g.wire, g.cells, Results(done), Result(m.outcome, m.reached));
  }

  lemma ClaimTraced(g: Gate, m: Move, done: seq<Move>)
    requires Traced(g, done) && m.Claim? && Can(g, m)
    ensures Traced(Do(g, m), done + [m])
  {
    SnocTrace(done, m);
    ArrivedExtend(g.cells, m.cell, Results(done));
  }

  lemma OtherTraced(g: Gate, m: Move, done: seq<Move>)
    requires Traced(g, done) && !m.Write? && !m.Claim? && Can(g, m)
    ensures Traced(Do(g, m), done + [m])
  {
    SnocTrace(done, m);
  }

  lemma StepTraced(g: Gate, m: Move, done: seq<Move>)
    requires TurnInv(g) && Traced(g, done) && Can(g, m)
    ensures Traced(Do(g, m), done + [m])
  {
    if m.Write? {
      WriterIsNext(g, m);
      WriteTraced(g, m, done);
    } else if m.Claim? {
      ClaimTraced(g, m, done);
    } else {
      OtherTraced(g, m, done);
    }
  }

  /** In every run: the cells are those claimed, in order; the circuit is closed exactly when a
      writer has failed it or it was destroyed; and which cells reached the relay, and how many
      before the first bad write, is told by the results of the writes alone. */
  lemma {:induction false} RunTraced(moves: seq<Move>)
    ensures Traced(Run(OPEN, moves), Done(OPEN, moves))
    decreases |moves|
  {
    if moves == [] {
    } else {
      var n := |moves| - 1;
      RunTraced(moves[..n]);
      RunKeeps(moves[..n]);
      var g := Run(OPEN, moves[..n]);
      if Can(g, moves[n]) {
        StepTraced(g, moves[n], Done(OPEN, moves[..n]));
      } else {
        assert Done(OPEN, moves) == Done(OPEN, moves[..n]);
      }
    }
  }

  /** A claim is granted exactly to a caller of its own on an open circuit, and a RELAY_EARLY cell
      only while fewer than 8 have been claimed. */
  lemma ClaimGrantedIff(moves: seq<Move>, tid: nat, cell: LinkCell)
    ensures var g := Run(OPEN, moves);
      (Do(g, Claim(tid, cell)).cells == g.cells + [cell] <==>
        tid !in g.writers && !ClosedIn(Done(OPEN, moves)) && (cell.early ==> CountEarly(Claims(Done(OPEN, moves))) < 8))
  {
    RunKeeps(moves);
    RunTraced(moves);
    assert |Run(OPEN, moves).cells + [cell]| != |Run(OPEN, moves).cells|;
  }

  /** Destroying the circuit closes it at any time, and changes nothing else. */
  lemma DestroyCloses(g: Gate)
    ensures Do(g, Destroy) == g.(closed := true)
  {
  }

  /** A closed circuit stays closed and claims nothing more. */
  lemma {:induction false} ClosedForGood(g: Gate, moves: seq<Move>)
    requires g.closed
    ensures var r := Run(g, moves); r.closed && r.cells == g.cells && r.sendNext == g.sendNext
    decreases |moves|
  {
    if moves == [] {
    } else {
      ClosedForGood(g, moves[..|moves| - 1]);
    }
  }

  /** A write that failed is on its way to failing the circuit, unless it is closed already. */
  ghost predicate FailurePending(g: Gate) {
    exists t :: t in g.writers && (g.writers[t].phase == Written(Failed) || g.writers[t].phase.Failing?)
  }

  ghost predicate HasFailed(rs: seq<Result>) {
    exists i :: 0 <= i < |rs| && rs[i].outcome.Failed?
  }

  ghost predicate FailureSeen(g: Gate, rs: seq<Result>) {
    HasFailed(rs) ==> g.closed || FailurePending(g)
  }

  lemma PendingStays(g: Gate, m: Move)
    requires Can(g, m) && FailurePending(g)
    ensures Do(g, m).closed || FailurePending(Do(g, m))
  {
    var t :| t in g.writers && (g.writers[t].phase == Written(Failed) || g.writers[t].phase.Failing?);
    var r := Do(g, m);
    if m.Fail? || m.Destroy? {
    } else {
      assert t in r.writers && (r.writers[t].phase == Written(Failed) || r.writers[t].phase.Failing?);
    }
  }

  lemma StepSeesFailure(g: Gate, m: Move, rs: seq<Result>)
    requires Can(g, m) && FailureSeen(g, rs)
    ensures FailureSeen(Do(g, m), if m.Write? then rs + [Result(m.outcome, m.reached)] else rs)
  {
    var r := Do(g, m);
    if HasFailed(rs) {
      if g.closed {
        assert r.closed;
      } else {
        PendingStays(g, m);
      }
    } else if m.Write? && m.outcome.Failed? {
      assert r.writers[m.tid].phase == Written(Failed);
    }
  }

  lemma {:induction false} RunSeesFailure(moves: seq<Move>)
    ensures FailureSeen(Run(OPEN, moves), Results(Done(OPEN, moves)))
    decreases |moves|
  {
    if moves == [] {
    } else {
      var n := |moves| - 1;
      RunSeesFailure(moves[..n]);
      var g := Run(OPEN, moves[..n]);
      if Can(g, moves[n]) {
        StepSeesFailure(g, moves[n], Results(Done(OPEN, moves[..n])));
        SnocTrace(Done(OPEN, moves[..n]), moves[n]);
      } else {
        assert Done(OPEN, moves) == Done(OPEN, moves[..n]);
      }
    }
  }

  /** Once the writers are through, a circuit on which some write failed is closed. */
  lemma FailedWriteCloses(moves: seq<Move>)
    requires Run(OPEN, moves).writers == map[] && HasFailed(Results(Done(OPEN, moves)))
    ensures Run(OPEN, moves).closed
  {
    RunSeesFailure(moves);
  }

  /* ----- Progress ----- */

  /** Steps that are neither new claims nor closes from outside. */
  predicate Internal(m: Move) {
    !m.Claim? && !m.Destroy?
  }

  /** How much of writeAtTurn is left for ticket k. A sleeper is woken at most once per turn. */
  ghost function Left(g: Gate, k: nat): (n: nat)
    requires k < |g.owner|
  {
    var t := g.owner[k];
    if t !in g.writers || g.writers[t].ticket != k then 0 else LeftOf(k, g.writers[t].phase, g.sendTurn)
  }

  ghost function LeftOf(k: nat, phase: Phase, turn: nat): (n: nat) {
    match phase
    case Waiting(asleep) => if k < turn then 0 else 2 * (k - turn) + (if asleep then 5 else 6)
    case Writing => 4
    case Written(_) => 3
    case Failing => 1
  }

  ghost function TotalLeft(g: Gate, n: nat): (total: nat)
    requires n <= |g.owner|
  {
    if n == 0 then 0 else TotalLeft(g, n - 1) + Left(g, n - 1)
  }

  lemma {:induction false} TotalShrinks(g: Gate, r: Gate, n: nat, at: nat)
    requires n <= |g.owner| == |r.owner|
    requires forall k :: 0 <= k < n ==> Left(r, k) <= Left(g, k)
    requires at < n ==> Left(r, at) < Left(g, at)
    ensures TotalLeft(r, n) <= TotalLeft(g, n)
    ensures at < n ==> TotalLeft(r, n) < TotalLeft(g, n)
  {
    if n == 0 {
    } else {
      TotalShrinks(g, r, n - 1, at);
    }
  }

  /** An internal step leaves less to do for its own ticket. */
  lemma OwnLeftShrinks(g: Gate, m: Move)
    requires Held(g) && Turns(g) && Internal(m) && Can(g, m)
    ensures Do(g, m).owner == g.owner
    ensures var k := g.writers[m.tid].ticket; Left(Do(g, m), k) < Left(g, k)
  {
  }

  /** What an internal step does to the writer of another ticket: nothing, or the turn moves on and
      it is woken. */
  lemma OtherWriter(g: Gate, m: Move, t: nat)
    requires Internal(m) && Can(g, m) && t != m.tid
    ensures var r := Do(g, m); (t in r.writers <==> t in g.writers) && r.owner == g.owner
    ensures t in g.writers ==>
      var w, v := g.writers[t], Do(g, m).writers[t];
      && v.ticket == w.ticket
      && if m.Advance? then
           Do(g, m).sendTurn == g.sendTurn + 1 && v.phase == (if w.phase.Waiting? then Waiting(false) else w.phase)
         else Do(g, m).sendTurn == g.sendTurn && v.phase == w.phase
  {
  }

  /** Being woken by an advance costs no more than the advance gains. */
  lemma WokenIsNearer(k: nat, phase: Phase, turn: nat)
    requires turn < k || !phase.Waiting?
    ensures LeftOf(k, if phase.Waiting? then Waiting(false) else phase, turn + 1) <= LeftOf(k, phase, turn)
  {
  }

  /** An internal step leaves no more to do for any other ticket. */
  lemma OtherLeftKept(g: Gate, m: Move, k: nat)
    requires Held(g) && Turns(g) && Internal(m) && Can(g, m) && k < |g.owner| && k != g.writers[m.tid].ticket
    ensures Do(g, m).owner == g.owner && Left(Do(g, m), k) <= Left(g, k)
  {
    var t := g.owner[k];
    if t == m.tid {
      OwnTicketStays(g, m);
    } else {
      OtherWriter(g, m, t);
      if t in g.writers && g.writers[t].ticket == k && m.Advance? {
        OnlyHolder(g, m.tid);
        WokenIsNearer(k, g.writers[t].phase, g.sendTurn);
      }
    }
  }

  lemma OwnTicketStays(g: Gate, m: Move)
    requires Internal(m) && Can(g, m)
    ensures Do(g, m).owner == g.owner
    ensures m.tid in Do(g, m).writers ==> Do(g, m).writers[m.tid].ticket == g.writers[m.tid].ticket
  {
  }

  /** Every internal step, of any goroutine, brings the turnstile nearer to being drained. */
  lemma InternalShrinks(g: Gate, m: Move)
    requires TurnInv(g) && Internal(m) && Can(g, m)
    ensures var r := Do(g, m);
      r.sendNext == g.sendNext && r.owner == g.owner
      && TotalLeft(r, |r.owner|) < TotalLeft(g, |g.owner|)
  {
    var r := Do(g, m);
    var own := g.writers[m.tid].ticket;
    OwnLeftShrinks(g, m);
    forall k | 0 <= k < |g.owner|
      ensures Left(r, k) <= Left(g, k)
    {
      if k != own {
        OtherLeftKept(g, m, k);
      }
    }
    TotalShrinks(g, r, |g.owner|, own);
  }

  /** While tickets are pending, the holder of the turn is awake and can move. */
  lemma HolderMoves(g: Gate, outcome: Outcome) returns (m: Move)
    requires TurnInv(g) && g.writers != map[]
    ensures Internal(m) && Can(g, m)
    ensures g.sendTurn < g.sendNext ==> m.tid == g.owner[g.sendTurn]
    ensures m.Write? ==> m.outcome == outcome && m.reached
  {
    var t;
    if g.sendTurn < g.sendNext {
      t := g.owner[g.sendTurn];
    } else {
      t :| t in g.writers;
    }
    match g.writers[t].phase
    case Waiting(_) => m := Check(t);
    case Writing => m := Write(t, outcome, true);
    case Written(_) => m := Advance(t);
    case Failing => m := Fail(t);
  }

  /** Every write of the run ends as `outcome` says for the ticket whose turn it is. */
  ghost predicate Obeys(g: Gate, moves: seq<Move>, outcome: nat -> Outcome) {
    forall i :: 0 <= i < |moves| ==> ObeysAt(g, moves, outcome, i)
  }

  ghost predicate ObeysAt(g: Gate, moves: seq<Move>, outcome: nat -> Outcome, i: nat)
    requires i < |moves|
  {
    moves[i].Write? ==> moves[i].outcome == outcome(Run(g, moves[..i]).sendTurn)
  }

  lemma FirstStep(g: Gate, m: Move, rest: seq<Move>)
    ensures Run(g, [m] + rest) == Run(Do(g, m), rest)
  {
    RunSplit(g, [m], rest);
    assert Run(g, [m]) == Do(Run(g, [m][..0]), m);
  }

  lemma ObeysCons(g: Gate, m: Move, rest: seq<Move>, outcome: nat -> Outcome)
    requires m.Write? ==> m.outcome == outcome(g.sendTurn)
    requires Obeys(Do(g, m), rest, outcome)
    ensures Obeys(g, [m] + rest, outcome)
  {
    var moves := [m] + rest;
    forall i | 0 <= i < |moves|
      ensures ObeysAt(g, moves, outcome, i)
    {
      if i == 0 {
        assert moves[..0] == [];
      } else {
        assert ObeysAt(Do(g, m), rest, outcome, i - 1);
        assert moves[..i] == [m] + rest[..i - 1];
        FirstStep(g, m, rest[..i - 1]);
      }
    }
  }

  /** Pending tickets have writers. */
  lemma PendingHeld(g: Gate)
    requires TurnInv(g) && g.sendTurn < g.sendNext
    ensures g.owner[g.sendTurn] in g.writers
  {
  }

  /** Whatever SendCell does with each ticket, failures and panics included, the goroutines
      already inside can always finish: every pending ticket gets its turn. */
  lemma {:induction false} Drains(g: Gate, outcome: nat -> Outcome) returns (moves: seq<Move>)
    requires TurnInv(g)
    ensures forall i :: 0 <= i < |moves| ==> Internal(moves[i])
    ensures Obeys(g, moves, outcome)
    ensures var r := Run(g, moves);
      && TurnInv(r)
      && r.sendTurn == r.sendNext == g.sendNext
      && r.writers == map[]
      && r.handed == g.cells
    decreases TotalLeft(g, |g.owner|)
  {
    if g.writers == map[] {
      moves := [];
      if g.sendTurn < g.sendNext {
        PendingHeld(g);
      }
    } else {
      var m := HolderMoves(g, outcome(g.sendTurn));
      InternalShrinks(g, m);
      MoveKeeps(g, m);
      InternalKeepsCells(g, m);
      var rest := Drains(Do(g, m), outcome);
      moves := [m] + rest;
      FirstStep(g, m, rest);
      ObeysCons(g, m, rest, outcome);
    }
  }

  lemma InternalKeepsCells(g: Gate, m: Move)
    requires Internal(m)
    ensures Do(g, m).cells == g.cells && Do(g, m).sendNext == g.sendNext
  {
  }

  /** Every step of the run is internal and enabled when its turn comes. */
  ghost predicate Schedule(g: Gate, moves: seq<Move>)
    decreases |moves|
  {
    if moves == [] then true
    else
      var n := |moves| - 1;
      Schedule(g, moves[..n]) && Internal(moves[n]) && Can(Run(g, moves[..n]), moves[n])
  }

  /** No schedule of the goroutines inside goes on for ever: its length is bounded by what was left
      to do at the start. */
  lemma {:induction false} SchedulesEnd(g: Gate, moves: seq<Move>)
    requires TurnInv(g) && Schedule(g, moves)
    ensures var r := Run(g, moves);
      && TurnInv(r) && r.cells == g.cells && r.sendNext == g.sendNext
      && |moves| + TotalLeft(r, |r.owner|) <= TotalLeft(g, |g.owner|)
    decreases |moves|
  {
    if moves == [] {
    } else {
      var n := |moves| - 1;
      SchedulesEnd(g, moves[..n]);
      InternalShrinks(Run(g, moves[..n]), moves[n]);
      InternalKeepsCells(Run(g, moves[..n]), moves[n]);
      MoveKeeps(Run(g, moves[..n]), moves[n]);
    }
  }

  /** A schedule ends only when everything claimed has been handed over: together with SchedulesEnd,
      every schedule that goes on while it can drains the turnstile. */
  lemma StuckIsDrained(g: Gate)
    requires TurnInv(g) && forall m :: Internal(m) ==> !Can(g, m)
    ensures g.writers == map[] && g.sendTurn == g.sendNext && g.handed == g.cells
  {
    if g.sendTurn < g.sendNext {
      PendingHeld(g);
    }
    if g.writers != map[] {
      var m := HolderMoves(g, Wrote);
    }
  }

  lemma {:induction false} RunSplit(g: Gate, first: seq<Move>, rest: seq<Move>)
    ensures Run(g, first + rest) == Run(Run(g, first), rest)
    decreases |rest|
  {
    if rest == [] {
      assert first + rest == first;
    } else {
      var n := |rest| - 1;
      assert (first + rest)[..|first + rest| - 1] == first + rest[..n];
      RunSplit(g, first, rest[..n]);
    }
  }
}
