/** The receiving side of a stream (pkg/stream/stream.go:123-254): a deque of chunks that the
    application reads in pieces of any size, consumption-based SENDMEs, END and Close, and the
    one-slot wake-up signal, as a system of reader, dispatcher and exit. */
module StreamRead {
  import opened Bytes
  import opened Options
  import opened RelayCells

  const STREAM_WINDOW_START := 500
  const STREAM_WINDOW_INCREMENT := 50
  const END_REASON_DONE: byte := 6

  datatype ReadError = Eof | EndError(reason: byte) | NetClosed

  function EndOf(reason: byte): (e: ReadError) {
    if reason == END_REASON_DONE then Eof else EndError(reason)
  }

  ghost function Flatten(chunks: seq<seq<byte>>): (b: seq<byte>) {
    if chunks == [] then [] else chunks[0] + Flatten(chunks[1..])
  }

  ghost predicate NonEmpty(chunks: seq<seq<byte>>) {
    forall i :: 0 <= i < |chunks| ==> chunks[i] != []
  }

  lemma {:induction false} FlattenSnoc(chunks: seq<seq<byte>>, c: seq<byte>)
    ensures Flatten(chunks + [c]) == Flatten(chunks) + c
  {
    if chunks == [] {
      assert Flatten([c]) == c + Flatten([]);
    } else {
      assert (chunks + [c])[1..] == chunks[1..] + [c];
      FlattenSnoc(chunks[1..], c);
    }
  }

  /** What a read with room for `room` bytes takes: the bytes, what is left, and how many chunks
      were used up. */
  datatype Drained = Drained(out: seq<byte>, rest: seq<seq<byte>>, cells: nat)

  function Drain(chunks: seq<seq<byte>>, room: nat): (d: Drained)
    decreases |chunks|
  {
    if room == 0 || chunks == [] then Drained([], chunks, 0)
    else if |chunks[0]| <= room then
      var d := Drain(chunks[1..], room - |chunks[0]|);
      Drained(chunks[0] + d.out, d.rest, d.cells + 1)
    else Drained(chunks[0][..room], [chunks[0][room..]] + chunks[1..], 0)
  }

  lemma FlattenHead(c: seq<byte>, rest: seq<seq<byte>>)
    ensures Flatten([c] + rest) == c + Flatten(rest)
  {
  }

  lemma {:induction false} DrainKeepsBytes(chunks: seq<seq<byte>>, room: nat)
    ensures Drain(chunks, room).out + Flatten(Drain(chunks, room).rest) == Flatten(chunks)
    decreases |chunks|
  {
    if room == 0 || chunks == [] {
    } else {
      var c, rest := chunks[0], chunks[1..];
      if |c| <= room {
        DrainKeepsBytes(rest, room - |c|);
        var d := Drain(rest, room - |c|);
        assert (c + d.out) + Flatten(d.rest) == c + (d.out + Flatten(d.rest));
      } else {
        FlattenHead(c[room..], rest);
        assert c[..room] + (c[room..] + Flatten(rest)) == c + Flatten(rest);
      }
    }
  }

  lemma {:induction false} DrainFills(chunks: seq<seq<byte>>, room: nat)
    ensures |Drain(chunks, room).out| == if room <= |Flatten(chunks)| then room else |Flatten(chunks)|
    decreases |chunks|
  {
    if room == 0 || chunks == [] || |chunks[0]| > room {
    } else {
      DrainFills(chunks[1..], room - |chunks[0]|);
    }
  }

  lemma {:induction false} DrainCounts(chunks: seq<seq<byte>>, room: nat)
    requires NonEmpty(chunks)
    ensures var d := Drain(chunks, room); NonEmpty(d.rest) && d.cells + |d.rest| == |chunks|
    decreases |chunks|
  {
    if room == 0 || chunks == [] || |chunks[0]| > room {
    } else {
      DrainCounts(chunks[1..], room - |chunks[0]|);
    }
  }

  /** A read neither loses, repeats nor reorders bytes, and takes as many as fit. */
  lemma DrainConserves(chunks: seq<seq<byte>>, room: nat)
    requires NonEmpty(chunks)
    ensures var d := Drain(chunks, room);
      && d.out + Flatten(d.rest) == Flatten(chunks)
      && |d.out| == (if room <= |Flatten(chunks)| then room else |Flatten(chunks)|)
      && NonEmpty(d.rest) && d.cells + |d.rest| == |chunks|
  {
    DrainKeepsBytes(chunks, room);
    DrainFills(chunks, room);
    DrainCounts(chunks, room);
  }

  /** SENDMEs due after `cells` more chunks have been used up. */
  function Due(consumed: nat, cells: nat): (n: nat) {
    (consumed + cells) / STREAM_WINDOW_INCREMENT
  }

  function Left(consumed: nat, cells: nat): (n: nat) {
    (consumed + cells) % STREAM_WINDOW_INCREMENT
  }

  /* ----- The system ----- */

  /** The application's reader: outside Read, about to lock, or in the select with its buffer. */
  datatype Reader = Idle | Top(room: nat) | Blocked(room: nat)

  /** `posting` counts updates whose signalRead is still to come; `owed` SENDMEs that a read is
      about to send, `back` those on their way to the exit, `unsent` those whose send failed;
      `wire` the data cells in flight; `dropped` cells that arrived after the end. `accepted` and
      `delivered` are the bytes taken in and read so far; `reported` the error returned, if any. */
  datatype State = State(
    chunks: seq<seq<byte>>, err: Option<ReadError>, consumed: nat, sig: bool, cancelled: bool,
    posting: nat, reader: Reader,
    window: nat, wire: seq<seq<byte>>, owed: nat, back: nat, unsent: nat, dropped: nat,
    accepted: seq<byte>, delivered: seq<byte>, reported: Option<ReadError>)

  const START := State([], None, 0, false, false, 0, Idle, STREAM_WINDOW_START, [], 0, 0, 0, 0, [], [], None)

  datatype Action =
    | ExitSends(data: seq<byte>)
    | Arrive
    | End(reason: byte)
    | Close
    | Post
    | Cancel
    | SetDeadline
    | CallRead(room: nat)
    | LookUnderLock
    | TakeSignal
    | TimeOut
    | SeeCancel
    | SendSendme(ok: bool)
    | ExitCredits

  /** onData for a non-empty cell. */
  function DoArrive(s: State): (r: State)
    requires s.wire != []
  {
    var d := s.wire[0];
    if s.err.Some? then s.(wire := s.wire[1..], dropped := s.dropped + 1)
    else s.(wire := s.wire[1..], chunks := s.chunks + [d], accepted := s.accepted + d, posting := s.posting + 1)
  }

  /** The locked part of onEnd and of Close: the first error stays. */
  function DoEnd(s: State, e: ReadError): (r: State) {
    s.(err := if s.err.Some? then s.err else Some(e), posting := s.posting + 1)
  }

  /** The locked part of Read. */
  function DoLook(s: State, room: nat): (r: State) {
    if s.chunks != [] then
      var d := Drain(s.chunks, room);
      s.(chunks := d.rest, consumed := Left(s.consumed, d.cells), owed := s.owed + Due(s.consumed, d.cells),
         delivered := s.delivered + d.out, reader := Idle)
    else if s.err.Some? then s.(reader := Idle, reported := s.err)
    else s.(reader := Blocked(room))
  }

  /** Read wakes up because the stream's context is done. */
  function DoSeeCancel(s: State, room: nat): (r: State) {
    if s.chunks != [] then s.(reader := Top(room))
    else s.(reader := Idle, reported := if s.err.Some? then s.err else Some(NetClosed))
  }

  function Apply(s: State, a: Action): (r: State) {
    match a
    case ExitSends(d) => if s.window > 0 && d != [] then s.(window := s.window - 1, wire := s.wire + [d]) else s
    case Arrive => if s.wire != [] then DoArrive(s) else s
    case End(reason) => DoEnd(s, EndOf(reason))
    case Close => DoEnd(s, NetClosed)
    case Post => if s.posting > 0 then s.(posting := s.posting - 1, sig := true) else s
    case Cancel => if s.err.Some? then s.(cancelled := true) else s
    case SetDeadline => s.(sig := true)
    case CallRead(room) => if s.reader.Idle? then s.(reader := Top(room)) else s
    case LookUnderLock => if s.reader.Top? then DoLook(s, s.reader.room) else s
    case TakeSignal => if s.reader.Blocked? && s.sig then s.(sig := false, reader := Top(s.reader.room)) else s
    case TimeOut => if s.reader.Blocked? then s.(reader := Idle) else s
    case SeeCancel => if s.reader.Blocked? && s.cancelled then DoSeeCancel(s, s.reader.room) else s
    case SendSendme(ok) =>
      if s.owed == 0 then s
      else if ok then s.(owed := s.owed - 1, back := s.back + 1)
      else s.(owed := s.owed - 1, unsent := s.unsent + 1)
    case ExitCredits =>
      if s.back > 0 then s.(back := s.back - 1, window := s.window + STREAM_WINDOW_INCREMENT) else s
  }

  function Exec(s: State, acts: seq<Action>): (r: State)
    decreases |acts|
  {
    if acts == [] then s else Apply(Exec(s, acts[..|acts| - 1]), acts[|acts| - 1])
  }

  /** Bytes read, then bytes buffered, are all the bytes accepted. */
  ghost predicate BytesInv(s: State) {
    && NonEmpty(s.chunks) && NonEmpty(s.wire)
    && s.delivered + Flatten(s.chunks) == s.accepted
  }

  /** Every cell of the stream's receive window is somewhere, exactly once. */
  ghost predicate WindowInv(s: State) {
    && s.consumed < STREAM_WINDOW_INCREMENT
    && s.window + |s.wire| + |s.chunks| + s.consumed + s.dropped + 50 * (s.owed + s.back + s.unsent)
         == STREAM_WINDOW_START
  }

  /** An end is reported only when recorded and when everything accepted has been read. */
  ghost predicate EndInv(s: State) {
    && (s.cancelled ==> s.err.Some?)
    && (s.dropped > 0 ==> s.err.Some?)
    && (s.reported.Some? ==> s.reported == s.err && s.chunks == [] && s.delivered == s.accepted)
  }

  /** A blocked reader that has something to see has a wake-up pending or about to be posted. */
  ghost predicate WakeInv(s: State) {
    s.reader.Blocked? && (s.chunks != [] || s.err.Some?) ==> s.sig || s.posting > 0
  }

  ghost predicate Inv(s: State) {
    BytesInv(s) && WindowInv(s) && EndInv(s) && WakeInv(s)
  }

  lemma LookKeeps(s: State, room: nat)
    requires Inv(s)
    ensures Inv(DoLook(s, room))
  {
    if s.chunks != [] {
      DrainConserves(s.chunks, room);
      var d := Drain(s.chunks, room);
      assert s.delivered + (d.out + Flatten(d.rest)) == (s.delivered + d.out) + Flatten(d.rest);
    } else {
      assert s.delivered + Flatten([]) == s.delivered;
    }
  }

  lemma ArriveKeeps(s: State)
    requires Inv(s) && s.wire != []
    ensures Inv(DoArrive(s))
  {
    FlattenSnoc(s.chunks, s.wire[0]);
    assert s.delivered + (Flatten(s.chunks) + s.wire[0]) == (s.delivered + Flatten(s.chunks)) + s.wire[0];
  }

  lemma SeeCancelKeeps(s: State, room: nat)
    requires Inv(s) && s.cancelled
    ensures Inv(DoSeeCancel(s, room))
  {
  }

  lemma StepKeeps(s: State, a: Action)
    requires Inv(s)
    ensures Inv(Apply(s, a))
  {
    match a
    case Arrive => if s.wire != [] { ArriveKeeps(s); }
    case LookUnderLock => if s.reader.Top? { LookKeeps(s, s.reader.room); }
    case SeeCancel => if s.reader.Blocked? && s.cancelled { SeeCancelKeeps(s, s.reader.room); }
    case _ =>
  }

  /** Over every run of arrivals, reads of any size, END, Close, timeouts and SENDMEs. */
  lemma {:induction false} RunKeeps(acts: seq<Action>)
    ensures Inv(Exec(START, acts))
    decreases |acts|
  {
    if acts == [] {
    } else {
      RunKeeps(acts[..|acts| - 1]);
      StepKeeps(Exec(START, acts[..|acts| - 1]), acts[|acts| - 1]);
    }
  }

  /** Receive-window conservation: until the stream ends or a SENDME cannot be sent, the exit's
      window, cells in flight, buffered and consumed and SENDMEs owed or in flight make 500; the
      buffer never holds more than 500 cells, however slowly the application reads. */
  lemma ReceiveConserved(acts: seq<Action>)
    ensures var s := Exec(START, acts);
      && |s.chunks| <= 500
      && (s.err.None? && s.unsent == 0 ==>
            s.window + |s.wire| + |s.chunks| + s.consumed + 50 * (s.owed + s.back) == 500)
  {
    RunKeeps(acts);
  }

  lemma EndStays(s: State, a: Action)
    ensures var r := Apply(s, a);
      && (s.err.Some? ==> r.err == s.err && r.accepted == s.accepted)
      && (s.reported.Some? ==> r.reported.Some?)
  {
  }

  lemma {:induction false} EndStaysInRuns(acts: seq<Action>, more: seq<Action>)
    ensures var s := Exec(START, acts); var r := Exec(START, acts + more);
      && (s.err.Some? ==> r.err == s.err && r.accepted == s.accepted)
      && (s.reported.Some? ==> r.reported.Some?)
    decreases |more|
  {
    if more == [] {
      assert acts + more == acts;
    } else {
      var n := |more| - 1;
      assert (acts + more)[..|acts + more| - 1] == acts + more[..n];
      EndStaysInRuns(acts, more[..n]);
      EndStays(Exec(START, acts + more[..n]), more[n]);
    }
  }

  /** Read semantics: what was read is a prefix of what was accepted, with nothing missing between
      it and the buffer; an error, always the recorded one, comes only after the last byte, and
      nothing is accepted after it. */
  lemma EndIsFinal(acts: seq<Action>, more: seq<Action>)
    ensures var s := Exec(START, acts); var r := Exec(START, acts + more);
      && s.delivered <= s.accepted
      && (s.err.Some? ==> r.err == s.err && r.accepted == s.accepted)
      && (s.reported.Some? ==> s.reported == s.err && r.delivered == s.delivered == s.accepted)
  {
    RunKeeps(acts);
    RunKeeps(acts + more);
    EndStaysInRuns(acts, more);
  }

  /** No lost wake-up: a blocked reader with data or an end to see is brought back to the lock by
      the posting and taking of the signal, which nothing else can prevent. */
  lemma BlockedReaderWakes(acts: seq<Action>)
    requires var s := Exec(START, acts); s.reader.Blocked? && (s.chunks != [] || s.err.Some?)
    ensures var s := Exec(START, acts);
      var r := if s.sig then s else Apply(s, Post);
      r.sig && r.reader == s.reader && Apply(r, TakeSignal).reader == Top(s.reader.room)
  {
    RunKeeps(acts);
  }

  /* ----- What a run did, told from its actions ----- */

  predicate Can(s: State, a: Action) {
    match a
    case ExitSends(d) => s.window > 0 && d != []
    case Arrive => s.wire != []
    case Post => s.posting > 0
    case Cancel => s.err.Some?
    case CallRead(_) => s.reader.Idle?
    case LookUnderLock => s.reader.Top?
    case TakeSignal => s.reader.Blocked? && s.sig
    case TimeOut => s.reader.Blocked?
    case SeeCancel => s.reader.Blocked? && s.cancelled
    case SendSendme(_) => s.owed > 0
    case ExitCredits => s.back > 0
    case _ => true
  }

  /** The actions of a run that were possible when they came. */
  ghost function Effective(acts: seq<Action>): (done: seq<Action>)
    decreases |acts|
  {
    if acts == [] then []
    else
      var n := |acts| - 1;
      if Can(Exec(START, acts[..n]), acts[n]) then Effective(acts[..n]) + [acts[n]] else Effective(acts[..n])
  }

  /** All bytes that the exit has sent, in order. */
  ghost function SentBytes(done: seq<Action>): (b: seq<byte>) {
    if done == [] then []
    else
      var a := done[|done| - 1];
      if a.ExitSends? then SentBytes(done[..|done| - 1]) + a.data else SentBytes(done[..|done| - 1])
  }

  /** The first end: Eof for an END with reason 6, an error with the reason for any other, the
      closed-connection error for a Close. */
  ghost function FirstEnd(done: seq<Action>): (e: Option<ReadError>) {
    if done == [] then None
    else
      var before, a := FirstEnd(done[..|done| - 1]), done[|done| - 1];
      if before.Some? then before
      else if a.End? then Some(if a.reason == 6 then Eof else EndError(a.reason))
      else if a.Close? then Some(NetClosed)
      else None
  }

  datatype Kind = Sends | Arrivals | Credits | GoodSendmes | BadSendmes | Cancels | Ends | Posts

  predicate IsKind(a: Action, k: Kind) {
    match k
    case Sends => a.ExitSends?
    case Arrivals => a.Arrive?
    case Credits => a.ExitCredits?
    case GoodSendmes => a == SendSendme(true)
    case BadSendmes => a == SendSendme(false)
    case Cancels => a.Cancel?
    case Ends => a.End? || a.Close?
    case Posts => a.Post?
  }

  ghost function Count(done: seq<Action>, k: Kind): (n: nat) {
    if done == [] then 0 else Count(done[..|done| - 1], k) + if IsKind(done[|done| - 1], k) then 1 else 0
  }

  /** Every counter of the system, from the number of times each thing happened. */
  ghost predicate Counted(s: State, done: seq<Action>) {
    && s.window + Count(done, Sends) == 500 + 50 * Count(done, Credits)
    && |s.wire| + Count(done, Arrivals) == Count(done, Sends)
    && s.back + Count(done, Credits) == Count(done, GoodSendmes)
    && s.unsent == Count(done, BadSendmes)
    && (s.cancelled <==> Count(done, Cancels) > 0)
  }

  /** Each cell taken in and each end has one signal posted or still to be posted. */
  ghost predicate PostsCounted(s: State, done: seq<Action>) {
    s.posting + Count(done, Posts) + s.dropped == Count(done, Arrivals) + Count(done, Ends)
  }

  /** Whether the one slot of the signal is full: something was posted since it was last taken. */
  ghost function Signalled(done: seq<Action>): (sig: bool) {
    if done == [] then false
    else
      var a := done[|done| - 1];
      a.Post? || a.SetDeadline? || (!a.TakeSignal? && Signalled(done[..|done| - 1]))
  }

  /** What was accepted is what the exit sent: all of it that has arrived before the end. */
  ghost predicate BytesTraced(s: State, sent: seq<byte>) {
    s.accepted <= sent && (s.err.None? ==> s.accepted + Flatten(s.wire) == sent)
  }

  lemma SnocTrace(done: seq<Action>, a: Action)
    ensures SentBytes(done + [a]) == if a.ExitSends? then SentBytes(done) + a.data else SentBytes(done)
    ensures FirstEnd(done + [a])
      == if FirstEnd(done).Some? then FirstEnd(done)
         else if a.End? then Some(if a.reason == 6 then Eof else EndError(a.reason))
         else if a.Close? then Some(NetClosed)
         else None
    ensures forall k :: Count(done + [a], k) == Count(done, k) + if IsKind(a, k) then 1 else 0
    ensures Signalled(done + [a]) == (a.Post? || a.SetDeadline? || (!a.TakeSignal? && Signalled(done)))
  {
    assert (done + [a])[..|done|] == done;
  }

  predicate IsCounted(a: Action) {
    a.ExitSends? || a.Arrive? || a.ExitCredits? || a.SendSendme? || a.Cancel?
  }

  lemma OthersUncounted(s: State, a: Action)
    requires !IsCounted(a)
    ensures var r := Apply(s, a);
      r.window == s.window && r.wire == s.wire && r.back == s.back && r.unsent == s.unsent && r.cancelled == s.cancelled
    ensures forall k :: IsKind(a, k) ==> k.Ends? || k.Posts?
  {
  }

  /** Steps of the cells: sent by the exit, or arriving. */
  lemma CellsCounted(s: State, a: Action, done: seq<Action>)
    requires Counted(s, done) && Can(s, a) && (a.ExitSends? || a.Arrive?)
    ensures Counted(Apply(s, a), done + [a])
  {
    SnocTrace(done, a);
  }

  /** Steps of the SENDMEs, and the cancellation. */
  lemma SendmesCounted(s: State, a: Action, done: seq<Action>)
    requires Counted(s, done) && Can(s, a) && (a.ExitCredits? || a.SendSendme? || a.Cancel?)
    ensures Counted(Apply(s, a), done + [a])
  {
    SnocTrace(done, a);
  }

  lemma StepCounted(s: State, a: Action, done: seq<Action>)
    requires Counted(s, done) && Can(s, a)
    ensures Counted(Apply(s, a), done + [a])
  {
    if a.ExitSends? || a.Arrive? {
      CellsCounted(s, a, done);
    } else if IsCounted(a) {
      SendmesCounted(s, a, done);
    } else {
      OthersUncounted(s, a);
      SnocTrace(done, a);
    }
  }

  lemma StepPosts(s: State, a: Action, done: seq<Action>)
    requires PostsCounted(s, done) && Can(s, a)
    ensures PostsCounted(Apply(s, a), done + [a])
  {
    SnocTrace(done, a);
  }

  lemma StepSignals(s: State, a: Action, done: seq<Action>)
    requires s.sig == Signalled(done) && Can(s, a)
    ensures Apply(s, a).sig == Signalled(done + [a])
  {
    SnocTrace(done, a);
  }

  lemma StepEnds(s: State, a: Action, done: seq<Action>)
    requires s.err == FirstEnd(done) && Can(s, a)
    ensures Apply(s, a).err == FirstEnd(done + [a])
  {
    SnocTrace(done, a);
  }

  lemma OthersKeepBytes(s: State, a: Action)
    requires !a.ExitSends? && !a.Arrive?
    ensures var r := Apply(s, a);
      r.accepted == s.accepted && r.wire == s.wire && (r.err.None? ==> s.err.None?)
  {
  }

  lemma StepBytesTraced(s: State, a: Action, sent: seq<byte>)
    requires BytesTraced(s, sent) && Can(s, a)
    ensures BytesTraced(Apply(s, a), if a.ExitSends? then sent + a.data else sent)
  {
    if a.ExitSends? {
      FlattenSnoc(s.wire, a.data);
      assert s.accepted + (Flatten(s.wire) + a.data) == (s.accepted + Flatten(s.wire)) + a.data;
    } else if a.Arrive? {
      assert s.accepted + (s.wire[0] + Flatten(s.wire[1..])) == (s.accepted + s.wire[0]) + Flatten(s.wire[1..]);
    } else {
      OthersKeepBytes(s, a);
    }
  }

  /** In every run: the bytes accepted are those the exit sent, in order, up to the first end; the
      end recorded is the first END or Close, with its reason; and every counter follows from how
      often each thing happened. */
  lemma {:induction false} RunTraced(acts: seq<Action>)
    ensures var s := Exec(START, acts); var done := Effective(acts);
      && BytesTraced(s, SentBytes(done)) && s.err == FirstEnd(done)
      && Counted(s, done) && PostsCounted(s, done) && s.sig == Signalled(done)
    decreases |acts|
  {
    if acts == [] {
    } else {
      var n := |acts| - 1;
      RunTraced(acts[..n]);
      var s, a, done := Exec(START, acts[..n]), acts[n], Effective(acts[..n]);
      if Can(s, a) {
        StepCounted(s, a, done);
        StepEnds(s, a, done);
        StepPosts(s, a, done);
        StepSignals(s, a, done);
        StepBytesTraced(s, a, SentBytes(done));
        SnocTrace(done, a);
      } else {
        assert Apply(s, a) == s;
      }
    }
  }

  /** What a Read returns: as many buffered bytes as fit; on an empty buffer the end, if there is
      one; otherwise it blocks. */
  lemma ReadReturns(s: State, room: nat)
    requires Inv(s) && s.reader.Idle?
    ensures var r := Apply(Apply(s, CallRead(room)), LookUnderLock); var all := Flatten(s.chunks);
      && (s.chunks != [] ==>
            && r.reader == Idle && r.reported == s.reported
            && r.delivered == s.delivered + all[..if room <= |all| then room else |all|])
      && (s.chunks == [] && s.err.Some? ==> r.reader == Idle && r.reported == s.err && r.delivered == s.delivered)
      && (s.chunks == [] && s.err.None? ==> r.reader == Blocked(room) && r.reported == s.reported)
  {
    if s.chunks != [] {
      DrainConserves(s.chunks, room);
      var d := Drain(s.chunks, room);
      assert Flatten(s.chunks)[..|d.out|] == d.out;
    }
  }

  /** How a blocked reader goes on: a timeout returns without data or end; the signal, once there,
      sends it back to look; the end of the stream makes it return that end, or go back for data. */
  lemma BlockedReads(s: State)
    requires Inv(s) && s.reader.Blocked?
    ensures Apply(s, TimeOut) == s.(reader := Idle)
    ensures s.sig ==> Apply(s, TakeSignal) == s.(reader := Top(s.reader.room), sig := false)
    ensures s.cancelled && s.chunks != [] ==> Apply(s, SeeCancel) == s.(reader := Top(s.reader.room))
    ensures s.cancelled && s.chunks == [] ==>
      s.err.Some? && Apply(s, SeeCancel) == s.(reader := Idle, reported := s.err)
  {
  }
}
