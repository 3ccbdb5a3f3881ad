/** The package windows (pkg/circuit/circuit.go:381-395, 527-561, pkg/stream/stream.go:173-181,
    256-298, sections 7.3 and 7.4 of tor-spec) as a client/peer system.

    The same token semaphore guards a circuit (1000 permits, SENDME every 100 cells) and each
    stream (500 permits, SENDME every 50 cells). A sending call takes a permit, tries to send,
    and gives the permit back when the cell was refused or its write failed. A write that failed
    may have reached the peer all the same; the circuit is failed before its permit comes back. The
    peer counts data cells and returns a SENDME for each full increment; a peer that breaks the
    rules may also send SENDMEs that it does not owe. */
module SendWindow {
  /** Calls holding a permit, by phase: `holding` before the claim, `writing` with a ticket,
      `failing` and `straying` after a failed write and before the circuit is failed (the cell did
      not, or did, reach the peer), `refunding` about to give the permit back.

      `wire` counts data cells on their way to the peer, `counted` those counted toward its next
      SENDME, `sendmes` the SENDMEs on their way back, worth `owed`, and `crediting` the permits still to be
      pushed for the one being handled; `strays` counts the failed writes that reached the peer and
      `dropped` the permits for which the channel had no room. */
  datatype Window = Window(start: nat, inc: nat, tokens: nat, holding: nat, writing: nat, failing: nat, straying: nat,
                           refunding: nat, wire: nat, counted: nat, sendmes: nat, owed: nat, crediting: nat,
                           closed: bool, strays: nat, dropped: nat, honest: bool)

  function Fresh(start: nat, inc: nat): (w: Window) {
    Window(start, inc, start, 0, 0, 0, 0, 0, 0, 0, 0, 0, 0, false, 0, 0, true)
  }

  const CIRCUIT := Fresh(1000, 100)
  const STREAM := Fresh(500, 50)

  datatype Action =
    | Take
    | Refuse
    | Claim
    | WriteOk
    | WriteErr(reached: bool)
    | Fail(reached: bool)
    | Refund
    | Destroy
    | PeerCounts
    | PeerInvents
    | TakeSendme
    | Push

  predicate Can(w: Window, a: Action) {
    match a
    case Take => w.tokens > 0
    case Refuse => w.holding > 0
    case Claim => w.holding > 0 && !w.closed
    case WriteOk => w.writing > 0
    case WriteErr(_) => w.writing > 0
    case Fail(reached) => if reached then w.straying > 0 else w.failing > 0
    case Refund => w.refunding > 0
    case Destroy => true
    case PeerCounts => w.wire > 0
    case PeerInvents => true
    case TakeSendme => w.sendmes > 0 && w.crediting == 0
    case Push => w.crediting > 0
  }

  function Do(w: Window, a: Action): (r: Window)
    requires Can(w, a)
  {
    match a
    case Take => w.(tokens := w.tokens - 1, holding := w.holding + 1)
    case Refuse => w.(holding := w.holding - 1, refunding := w.refunding + 1)
    case Claim => w.(holding := w.holding - 1, writing := w.writing + 1)
    case WriteOk => w.(writing := w.writing - 1, wire := w.wire + 1)
    case WriteErr(reached) =>
      if reached then
        w.(writing := w.writing - 1, straying := w.straying + 1, strays := w.strays + 1, wire := w.wire + 1)
      else w.(writing := w.writing - 1, failing := w.failing + 1)
    case Fail(reached) =>
      if reached then w.(straying := w.straying - 1, refunding := w.refunding + 1, closed := true)
      else w.(failing := w.failing - 1, refunding := w.refunding + 1, closed := true)
    case Refund =>
      if w.tokens < w.start then w.(refunding := w.refunding - 1, tokens := w.tokens + 1)
      else w.(refunding := w.refunding - 1, dropped := w.dropped + 1)
    case Destroy => w.(closed := true)
    case PeerCounts =>
      if w.counted + 1 < w.inc then w.(wire := w.wire - 1, counted := w.counted + 1)
      else w.(wire := w.wire - 1, counted := 0, sendmes := w.sendmes + 1, owed := w.owed + w.inc)
    case PeerInvents => w.(sendmes := w.sendmes + 1, owed := w.owed + w.inc, honest := false)
    case TakeSendme =>
      w.(sendmes := w.sendmes - 1, owed := if w.owed >= w.inc then w.owed - w.inc else 0, crediting := w.inc)
    case Push =>
      if w.tokens < w.start then w.(tokens := w.tokens + 1, crediting := w.crediting - 1)
      else w.(crediting := 0, dropped := w.dropped + w.crediting)
  }

  function Apply(w: Window, a: Action): (r: Window) {
    if Can(w, a) then Do(w, a) else w
  }

  function Exec(w: Window, acts: seq<Action>): (r: Window)
    decreases |acts|
  {
    if acts == [] then w else Apply(Exec(w, acts[..|acts| - 1]), acts[|acts| - 1])
  }

  /** Every SENDME on its way is worth one increment. */
  ghost predicate Worth(w: Window) {
    w.owed == w.sendmes * w.inc
  }

  lemma StepKeepsWorth(w: Window, a: Action)
    requires Worth(w) && Can(w, a)
    ensures Worth(Do(w, a))
  {
    assert (w.sendmes + 1) * w.inc == w.owed + w.inc;
    assert w.sendmes > 0 ==> (w.sendmes - 1) * w.inc == w.owed - w.inc;
  }

  /** The cells that have reached the peer's side and are not yet credited. */
  ghost function Unacknowledged(w: Window): (n: nat) {
    w.wire + w.counted + w.owed + w.crediting
  }

  ghost function Held(w: Window): (n: nat) {
    w.holding + w.writing + w.failing + w.straying + w.refunding
  }

  /** Every permit is somewhere exactly once, a stray cell's twice. */
  ghost predicate Conserved(w: Window) {
    w.tokens + Held(w) + Unacknowledged(w) + w.dropped == w.start + w.strays
  }

  /** Until the circuit is failed, the call of every stray cell still holds its permit. */
  ghost predicate StraysHeld(w: Window) {
    w.straying <= w.strays && (!w.closed ==> w.strays == w.straying)
  }

  ghost predicate Inv(w: Window) {
    Worth(w) && Tallied(w)
  }

  ghost predicate Tallied(w: Window) {
    && w.tokens <= w.start && w.counted < w.inc
    && StraysHeld(w)
    && (w.honest ==> Conserved(w) && Unacknowledged(w) + w.writing <= w.start)
    && (w.honest && (!w.closed || w.strays == 0) ==> w.dropped == 0)
  }

  lemma BeforeWriteKeeps(w: Window, a: Action)
    requires Tallied(w) && Can(w, a) && (a.Take? || a.Refuse? || a.Claim?)
    ensures Tallied(Do(w, a))
  {
  }

  lemma WriteOkKeeps(w: Window)
    requires Tallied(w) && Can(w, WriteOk)
    ensures Tallied(Do(w, WriteOk))
  {
  }

  lemma WriteErrKeeps(w: Window, reached: bool)
    requires Tallied(w) && Can(w, WriteErr(reached))
    ensures Tallied(Do(w, WriteErr(reached)))
  {
  }

  lemma FailKeeps(w: Window, a: Action)
    requires Tallied(w) && Can(w, a) && (a.Fail? || a.Destroy?)
    ensures Tallied(Do(w, a))
  {
  }

  lemma RefundKeeps(w: Window)
    requires Tallied(w) && Can(w, Refund)
    ensures Tallied(Do(w, Refund))
  {
  }

  lemma PeerKeeps(w: Window)
    requires Tallied(w) && Can(w, PeerCounts)
    ensures Tallied(Do(w, PeerCounts))
  {
  }

  lemma CreditKeeps(w: Window, a: Action)
    requires Tallied(w) && Can(w, a) && (a.TakeSendme? ==> w.owed >= w.inc) && (a.TakeSendme? || a.Push?)
    ensures Tallied(Do(w, a))
  {
  }

  lemma StepKeeps(w: Window, a: Action)
    requires Inv(w) && Can(w, a)
    ensures Inv(Do(w, a))
  {
    StepKeepsWorth(w, a);
    match a
    case Take => BeforeWriteKeeps(w, a);
    case Refuse => BeforeWriteKeeps(w, a);
    case Claim => BeforeWriteKeeps(w, a);
    case WriteOk => WriteOkKeeps(w);
    case WriteErr(reached) => WriteErrKeeps(w, reached);
    case Fail(_) => FailKeeps(w, a);
    case Destroy => FailKeeps(w, a);
    case Refund => RefundKeeps(w);
    case PeerCounts => PeerKeeps(w);
    case PeerInvents =>
    case TakeSendme =>
      assert (w.sendmes - 1) * w.inc == w.owed - w.inc;
      CreditKeeps(w, a);
    case Push => CreditKeeps(w, a);
  }

  lemma StepKeepsSize(w: Window, a: Action)
    ensures Apply(w, a).start == w.start && Apply(w, a).inc == w.inc
  {
  }

  lemma {:induction false} RunKeeps(w: Window, acts: seq<Action>)
    requires Inv(w)
    ensures Inv(Exec(w, acts))
    ensures Exec(w, acts).start == w.start && Exec(w, acts).inc == w.inc
    decreases |acts|
  {
    if acts == [] {
    } else {
      RunKeeps(w, acts[..|acts| - 1]);
      var v, a := Exec(w, acts[..|acts| - 1]), acts[|acts| - 1];
      StepKeepsSize(v, a);
      if Can(v, a) {
        StepKeeps(v, a);
      }
    }
  }

  /** What conservation means for a window of `start` permits, `owed` of them in SENDMEs. */
  ghost predicate Accounts(w: Window, start: nat, owed: nat) {
    && w.tokens <= start
    && (w.honest ==>
          && w.tokens + Held(w) + (w.wire + w.counted + owed + w.crediting) + w.dropped == start + w.strays
          && w.wire + w.counted + owed + w.crediting + w.writing <= start
          && (w.dropped > 0 ==> w.strays > 0)
          && (!w.closed ==> w.dropped == 0 && w.strays == w.straying))
  }

  lemma InvAccounts(w: Window)
    requires Inv(w)
    ensures Accounts(w, w.start, w.sendmes * w.inc)
  {
  }

  /** Send-window conservation: in every run of a circuit against a peer that follows the rules,
      over every error path of SendData, permits available, held, in flight, counted, in SENDMEs
      and dropped at the cap add up to 1000 and one more for each failed write that reached the
      peer. At most 1000 cells are unacknowledged or being written, even so; a permit is dropped
      only after such a write, and never while the circuit is open. Against any peer the window
      never exceeds 1000. */
  lemma CircuitConserved(acts: seq<Action>)
    ensures var w := Exec(CIRCUIT, acts); Accounts(w, 1000, 100 * w.sendmes)
  {
    RunKeeps(CIRCUIT, acts);
    InvAccounts(Exec(CIRCUIT, acts));
  }

  /** The same for a stream's window of 500. */
  lemma StreamConserved(acts: seq<Action>)
    ensures var w := Exec(STREAM, acts); Accounts(w, 500, 50 * w.sendmes)
  {
    RunKeeps(STREAM, acts);
    InvAccounts(Exec(STREAM, acts));
  }

  /** Nothing is in progress and every SENDME has been handled. */
  ghost predicate Quiet(w: Window) {
    Held(w) == 0 && w.wire == 0 && w.sendmes == 0 && w.crediting == 0
  }

  /** What a quiet window says about its permits. */
  ghost predicate PermitsHome(w: Window) {
    && (w.strays == 0 ==> w.tokens == w.start - w.counted)
    && (w.strays > 0 ==> w.closed && w.tokens == w.start - w.counted + w.strays - w.dropped)
  }

  lemma QuietAccounts(w: Window)
    requires Inv(w)
    ensures w.honest && Quiet(w) ==> PermitsHome(w)
  {
  }

  /** All permits come home: in a quiet window what is missing is what the peer has counted toward
      its next SENDME, unless a failed write reached the peer; then the circuit is closed. */
  lemma QuietWindow(acts: seq<Action>)
    ensures var w := Exec(CIRCUIT, acts);
      w.start == 1000 && w.counted < 100 && (w.honest && Quiet(w) ==> PermitsHome(w))
  {
    RunKeeps(CIRCUIT, acts);
    QuietAccounts(Exec(CIRCUIT, acts));
  }

  /** The run of a call whose write fails after reaching the peer. */
  function StrayRun(w: Window): (r: Window) {
    Apply(Apply(Apply(Apply(Apply(w, Take), Claim), WriteErr(true)), Fail(true)), Refund)
  }

  lemma StrayRunIsRun(w: Window)
    ensures StrayRun(w) == Exec(w, [Take, Claim, WriteErr(true), Fail(true), Refund])
  {
    var a := [Take, Claim, WriteErr(true), Fail(true), Refund];
    assert a[..4][..3] == a[..3] && a[..3][..2] == a[..2] && a[..2][..1] == a[..1] && a[..1][..0] == [];
    assert Exec(w, a[..1]) == Apply(w, Take);
    assert Exec(w, a[..2]) == Apply(Exec(w, a[..1]), Claim);
    assert Exec(w, a[..3]) == Apply(Exec(w, a[..2]), WriteErr(true));
    assert Exec(w, a[..4]) == Apply(Exec(w, a[..3]), Fail(true));
  }

  /** A failed write that reached the peer does break exact conservation, once its call has given
      the permit back: one permit too many, on a closed circuit. */
  lemma StrayBreaksExactness(w: Window)
    requires Inv(w) && !w.closed && w.honest && w.straying == 0 && w.tokens > 0
    ensures StrayRun(w) == Exec(w, [Take, Claim, WriteErr(true), Fail(true), Refund])
    ensures var r := StrayRun(w);
      && r.honest && r.closed && r.strays == 1 && r.dropped == 0
      && r.tokens + Held(r) + Unacknowledged(r) == w.start + 1
  {
    StrayRunIsRun(w);
    var written := Apply(Apply(Apply(w, Take), Claim), WriteErr(true));
    assert written == w.(tokens := w.tokens - 1, straying := 1, strays := 1, wire := w.wire + 1);
    assert Apply(written, Fail(true)) == written.(straying := 0, refunding := w.refunding + 1, closed := true);
  }

  /* ----- What a run did, told from its actions ----- */

  /** The actions of a run that were possible when they came. */
  ghost function Effective(w: Window, acts: seq<Action>): (done: seq<Action>)
    decreases |acts|
  {
    if acts == [] then []
    else
      var n := |acts| - 1;
      if Can(Exec(w, acts[..n]), acts[n]) then Effective(w, acts[..n]) + [acts[n]] else Effective(w, acts[..n])
  }

  ghost function Count(done: seq<Action>, a: Action): (n: nat) {
    if done == [] then 0 else Count(done[..|done| - 1], a) + if done[|done| - 1] == a then 1 else 0
  }

  /** Where the calls are, from how often each of their steps was taken. */
  ghost predicate CallsCounted(w: Window, n: Action -> nat) {
    && w.holding + n(Refuse) + n(Claim) == n(Take)
    && w.writing + n(WriteOk) + n(WriteErr(true)) + n(WriteErr(false)) == n(Claim)
    && w.failing + n(Fail(false)) == n(WriteErr(false))
    && w.straying + n(Fail(true)) == n(WriteErr(true)) == w.strays
    && w.refunding + n(Refund) == n(Refuse) + n(Fail(true)) + n(Fail(false))
  }

  /** The SENDMEs that the peer has sent, without those that it invented. */
  ghost function Earned(w: Window, n: Action -> nat): (k: int) {
    w.sendmes + n(TakeSendme) - n(PeerInvents)
  }

  /** What is under way between client and peer: the peer has sent one SENDME for each full increment
      that it has counted, and those that it invented. */
  ghost predicate PeerCounted(w: Window, n: Action -> nat) {
    && w.wire + n(PeerCounts) == n(WriteOk) + n(WriteErr(true))
    && w.counted < w.inc
    && Earned(w, n) * w.inc + w.counted == n(PeerCounts)
  }

  /** The circuit is closed exactly when it was failed or destroyed, the peer honest exactly when it
      invented no SENDME. */
  ghost predicate FlagsCounted(w: Window, n: Action -> nat) {
    && (w.closed <==> n(Fail(true)) + n(Fail(false)) + n(Destroy) > 0)
    && (w.honest <==> n(PeerInvents) == 0)
  }

  /** The permits: one less for each taken, one more for each given back, an increment for each
      SENDME handled. */
  ghost predicate TokensCounted(w: Window, n: Action -> nat) {
    w.tokens + w.dropped + w.crediting + n(Take) == w.start + n(Refund) + n(TakeSendme) * w.inc
  }

  /** `m` counts one `a` more than `n`. */
  ghost predicate OneMore(n: Action -> nat, m: Action -> nat, a: Action) {
    forall b :: m(b) == n(b) + if a == b then 1 else 0
  }

  lemma ClaimsCounted(w: Window, a: Action, n: Action -> nat, m: Action -> nat)
    requires CallsCounted(w, n) && Can(w, a) && OneMore(n, m, a) && (a.Take? || a.Refuse? || a.Claim?)
    ensures CallsCounted(Do(w, a), m)
  {
  }

  lemma WritesCounted(w: Window, a: Action, n: Action -> nat, m: Action -> nat)
    requires CallsCounted(w, n) && Can(w, a) && OneMore(n, m, a) && (a.WriteOk? || a.WriteErr?)
    ensures CallsCounted(Do(w, a), m)
  {
  }

  lemma FailsCounted(w: Window, a: Action, n: Action -> nat, m: Action -> nat)
    requires CallsCounted(w, n) && Can(w, a) && OneMore(n, m, a) && (a.Fail? || a.Refund?)
    ensures CallsCounted(Do(w, a), m)
  {
  }

  /** A step of the peer, of the circuit's end or of a credit. */
  predicate Outside(a: Action) {
    a.Destroy? || a.PeerCounts? || a.PeerInvents? || a.TakeSendme? || a.Push?
  }

  lemma OutsideKeepsCalls(w: Window, a: Action)
    requires Can(w, a) && Outside(a)
    ensures var r := Do(w, a);
      && r.holding == w.holding && r.writing == w.writing && r.failing == w.failing
      && r.straying == w.straying && r.refunding == w.refunding && r.strays == w.strays
  {
  }

  lemma StepCallsCounted(w: Window, a: Action, n: Action -> nat, m: Action -> nat)
    requires CallsCounted(w, n) && Can(w, a) && OneMore(n, m, a)
    ensures CallsCounted(Do(w, a), m)
  {
    if a.Take? || a.Refuse? || a.Claim? {
      ClaimsCounted(w, a, n, m);
    } else if a.WriteOk? || a.WriteErr? {
      WritesCounted(w, a, n, m);
    } else if a.Fail? || a.Refund? {
      FailsCounted(w, a, n, m);
    } else {
      OutsideKeepsCalls(w, a);
    }
  }

  lemma StepFlagsCounted(w: Window, a: Action, n: Action -> nat, m: Action -> nat)
    requires FlagsCounted(w, n) && Can(w, a) && OneMore(n, m, a)
    ensures FlagsCounted(Do(w, a), m)
  {
  }

  lemma PeerCountsOne(w: Window, n: Action -> nat, m: Action -> nat)
    requires PeerCounted(w, n) && Can(w, PeerCounts) && OneMore(n, m, PeerCounts)
    ensures PeerCounted(Do(w, PeerCounts), m)
  {
    var k, r := Earned(w, n), Do(w, PeerCounts);
    assert (k + 1) * w.inc == k * w.inc + w.inc;
    assert Earned(r, m) == k || Earned(r, m) == k + 1;
  }

  lemma CellMoves(w: Window, a: Action, n: Action -> nat, m: Action -> nat)
    requires PeerCounted(w, n) && Can(w, a) && OneMore(n, m, a)
    requires a.WriteOk? || a.WriteErr? || a.PeerInvents? || a.TakeSendme?
    ensures PeerCounted(Do(w, a), m)
  {
    assert Earned(Do(w, a), m) == Earned(w, n);
  }

  lemma OthersKeepCells(w: Window, a: Action)
    requires Can(w, a) && !a.WriteOk? && !a.WriteErr? && !a.PeerCounts? && !a.PeerInvents? && !a.TakeSendme?
    ensures var r := Do(w, a);
      r.wire == w.wire && r.counted == w.counted && r.sendmes == w.sendmes && r.inc == w.inc
  {
  }

  lemma StepPeerCounted(w: Window, a: Action, n: Action -> nat, m: Action -> nat)
    requires PeerCounted(w, n) && Can(w, a) && OneMore(n, m, a)
    ensures PeerCounted(Do(w, a), m)
  {
    if a.PeerCounts? {
      PeerCountsOne(w, n, m);
    } else if a.WriteOk? || a.WriteErr? || a.PeerInvents? || a.TakeSendme? {
      CellMoves(w, a, n, m);
    } else {
      OthersKeepCells(w, a);
    }
  }

  lemma StepTokensCounted(w: Window, a: Action, n: Action -> nat, m: Action -> nat)
    requires TokensCounted(w, n) && Can(w, a) && OneMore(n, m, a)
    ensures TokensCounted(Do(w, a), m)
  {
    assert (n(TakeSendme) + 1) * w.inc == n(TakeSendme) * w.inc + w.inc;
  }

  ghost predicate Counted(w: Window, n: Action -> nat) {
    CallsCounted(w, n) && PeerCounted(w, n) && FlagsCounted(w, n) && TokensCounted(w, n)
  }

  lemma CountSnoc(done: seq<Action>, a: Action)
    ensures OneMore(b => Count(done, b), b => Count(done + [a], b), a)
  {
    assert (done + [a])[..|done|] == done;
  }

  /** In every run each part of the system holds what its actions have put there: the peer has
      returned one SENDME for each full increment of cells it counted, the circuit is closed exactly
      when it was failed or destroyed, and the permits follow from those taken, given back and
      credited. */
  lemma {:induction false} RunCounted(start: nat, inc: nat, acts: seq<Action>)
    requires inc > 0
    ensures var w := Exec(Fresh(start, inc), acts); var done := Effective(Fresh(start, inc), acts);
      w.inc == inc && w.start == start && Counted(w, b => Count(done, b))
    decreases |acts|
  {
    if acts == [] {
    } else {
      var k := |acts| - 1;
      RunCounted(start, inc, acts[..k]);
      var w, done, a := Exec(Fresh(start, inc), acts[..k]), Effective(Fresh(start, inc), acts[..k]), acts[k];
      if Can(w, a) {
        CountSnoc(done, a);
        StepKeepsSize(w, a);
        StepCallsCounted(w, a, b => Count(done, b), b => Count(done + [a], b));
        StepFlagsCounted(w, a, b => Count(done, b), b => Count(done + [a], b));
        StepPeerCounted(w, a, b => Count(done, b), b => Count(done + [a], b));
        StepTokensCounted(w, a, b => Count(done, b), b => Count(done + [a], b));
      }
    }
  }

  /** One step of a window that is not quiet, taking no new permit. */
  function NextStep(w: Window): (a: Action)
    requires !Quiet(w)
    ensures Can(w, a) && !a.Take? && !a.PeerInvents?
  {
    if w.holding > 0 then Refuse
    else if w.writing > 0 then WriteOk
    else if w.failing > 0 then Fail(false)
    else if w.straying > 0 then Fail(true)
    else if w.refunding > 0 then Refund
    else if w.wire > 0 then PeerCounts
    else if w.crediting > 0 then Push
    else TakeSendme
  }

  lemma ExecCons(w: Window, a: Action, rest: seq<Action>)
    ensures Exec(w, [a] + rest) == Exec(Apply(w, a), rest)
    decreases |rest|
  {
    var acts := [a] + rest;
    if rest == [] {
      assert acts[..0] == [] && acts == [a];
      assert Exec(w, acts) == Apply(Exec(w, acts[..0]), a);
    } else {
      var n := |rest| - 1;
      assert acts[..|acts| - 1] == [a] + rest[..n];
      ExecCons(w, a, rest[..n]);
    }
  }

  /** Every window can settle: the calls finish, the peer counts what is on the wire, and every SENDME
      is credited. */
  lemma {:induction false} Settles(w: Window) returns (acts: seq<Action>)
    requires w.inc > 0
    ensures Quiet(Exec(w, acts)) && forall i :: 0 <= i < |acts| ==> !acts[i].Take? && !acts[i].PeerInvents?
    decreases w.holding + w.writing + w.failing + w.straying, w.refunding, w.wire, w.sendmes, w.crediting
  {
    if Quiet(w) {
      acts := [];
    } else {
      var a := NextStep(w);
      var rest := Settles(Apply(w, a));
      acts := [a] + rest;
      ExecCons(w, a, rest);
    }
  }
}
