/** A stream object (pkg/stream/stream.go:59-339): its read side is proved against the functions
    of module StreamRead, its Write against the cutting of the argument into cells. */
module Stream {
  import opened Bytes
  import opened Options
  import opened RelayCells
  import opened StreamRead
  import StreamIDs

  /** `p` cut into cells: 498 bytes each, the last one shorter if need be. */
  function Cut(p: seq<byte>): (cells: seq<seq<byte>>) {
    if p == [] then []
    else if |p| <= RELAY_DATA_LEN then [p]
    else [p[..RELAY_DATA_LEN]] + Cut(p[RELAY_DATA_LEN..])
  }

  /** Cutting keeps the bytes and their order, in cells that relay encoding never truncates. */
  lemma {:induction false} CutKeepsBytes(p: seq<byte>)
    ensures Flatten(Cut(p)) == p
    ensures forall i :: 0 <= i < |Cut(p)| ==> 1 <= |Cut(p)[i]| <= RELAY_DATA_LEN && Carried(Cut(p)[i]) == Cut(p)[i]
    ensures |Cut(p)| == (|p| + RELAY_DATA_LEN - 1) / RELAY_DATA_LEN
    decreases |p|
  {
    if p == [] {
    } else if |p| <= RELAY_DATA_LEN {
      assert Flatten([p]) == p + Flatten([]);
    } else {
      CutKeepsBytes(p[RELAY_DATA_LEN..]);
      assert Cut(p)[1..] == Cut(p[RELAY_DATA_LEN..]);
      assert p == p[..RELAY_DATA_LEN] + p[RELAY_DATA_LEN..];
    }
  }

  /** Whole cells followed by one more. */
  lemma {:induction false} CutSnoc(p: seq<byte>, c: seq<byte>)
    requires |p| % RELAY_DATA_LEN == 0 && 1 <= |c| <= RELAY_DATA_LEN
    ensures Cut(p + c) == Cut(p) + [c]
    decreases |p|
  {
    if p == [] {
      assert p + c == c;
    } else if |p| == RELAY_DATA_LEN {
      assert (p + c)[..RELAY_DATA_LEN] == p && (p + c)[RELAY_DATA_LEN..] == c;
    } else {
      assert (p + c)[..RELAY_DATA_LEN] == p[..RELAY_DATA_LEN];
      assert (p + c)[RELAY_DATA_LEN..] == p[RELAY_DATA_LEN..] + c;
      CutSnoc(p[RELAY_DATA_LEN..], c);
    }
  }

  /** What is left of the deque when k bytes of its first chunk have been copied. */
  function AfterCopy(chunks: seq<seq<byte>>, k: nat): (rest: seq<seq<byte>>)
    requires chunks != [] && k <= |chunks[0]|
  {
    if k == |chunks[0]| then chunks[1..] else [chunks[0][k..]] + chunks[1..]
  }

  /** One round of the drain loop. */
  lemma DrainRound(chunks: seq<seq<byte>>, room: nat, k: nat)
    requires chunks != [] && room > 0 && k == if |chunks[0]| <= room then |chunks[0]| else room
    ensures var d := Drain(AfterCopy(chunks, k), room - k);
      Drain(chunks, room)
        == Drained(chunks[0][..k] + d.out, d.rest, d.cells + if k == |chunks[0]| then 1 else 0)
    ensures NonEmpty(chunks) ==> NonEmpty(AfterCopy(chunks, k))
  {
  }

  /** What happens to one round of Write, `credits` permits having come in with SENDMEs while it
      waited: SendData succeeds or fails, or no stream permit comes before the deadline or the end
      of the stream. */
  datatype Round = Sent(credits: nat) | SendFailed(credits: nat) | NoPermit(credits: nat)

  /** The window after a credit: never more than it holds. */
  function Credited(tokens: nat, n: nat): (r: nat) {
    if tokens + n <= STREAM_WINDOW_START then tokens + n else STREAM_WINDOW_START
  }

  /** The permits that round k finds, when the rounds before it took one each. */
  function Permits(tokens: nat, rounds: seq<Round>, k: nat): (r: nat)
    requires k < |rounds|
    decreases k, 1
  {
    Credited(PermitsAfter(tokens, rounds, k), rounds[k].credits)
  }

  /** The permits left after k rounds. */
  function PermitsAfter(tokens: nat, rounds: seq<Round>, k: nat): (r: nat)
    requires k <= |rounds|
    decreases k, 0
  {
    if k == 0 then tokens
    else
      var found := Permits(tokens, rounds, k - 1);
      if found == 0 then 0 else found - 1
  }

  datatype ReadResult = Data(n: nat, sendmes: nat) | Ended(error: ReadError) | WouldBlock

  class Stream {
    const mgr: StreamIDs.Manager
    const id: u16
    /** The one slot on which a pending Begin waits: connected, or the error of the end. */
    var connectCh: Option<Option<ReadError>>
    var readChunks: seq<seq<byte>>
    var readErr: Option<ReadError>
    var readSig: bool
    var consumedCells: nat
    var cancelled: bool
    var closeOnce: bool
    var pkgTokens: nat
    /** The data cells that SendData accepted, in order. */
    ghost var sent: seq<seq<byte>>

    ghost predicate Valid()
      reads this
    {
      consumedCells < STREAM_WINDOW_INCREMENT && NonEmpty(readChunks) && pkgTokens <= STREAM_WINDOW_START
    }

    constructor (mgr: StreamIDs.Manager, id: u16)
      ensures this.mgr == mgr && this.id == id && connectCh == None
      ensures Valid() && readChunks == [] && readErr == None && consumedCells == 0
      ensures pkgTokens == STREAM_WINDOW_START && sent == [] && !readSig && !cancelled && !closeOnce
    {
      this.mgr, this.id, connectCh := mgr, id, None;
      readChunks, readErr, readSig, consumedCells := [], None, false, 0;
      cancelled, closeOnce, pkgTokens, sent := false, false, STREAM_WINDOW_START, [];
    }

    /** onData: empty cells and cells after the end are dropped. */
    method OnData(data: seq<byte>)
      requires Valid()
      modifies this`readChunks, this`readSig
      ensures Valid()
      ensures readChunks == if data == [] || readErr.Some? then old(readChunks) else old(readChunks) + [data]
      ensures Flatten(readChunks) == Flatten(old(readChunks)) + if readErr.Some? then [] else data
      ensures readSig == (old(readSig) || (data != [] && readErr.None?))
    {
      if data == [] || readErr.Some? {
        return;
      }
      FlattenSnoc(readChunks, data);
      readChunks := readChunks + [data];
      readSig := true;
    }

    /** onEnd: the first end is kept, a pending Begin and the reader learn of it, and the ID goes
        back to the manager. */
    method OnEnd(reason: byte)
      requires Valid()
      modifies this`readErr, this`readSig, this`cancelled, this`connectCh, mgr`streams
      ensures Valid() && readSig && cancelled
      ensures readErr == if old(readErr).Some? then old(readErr) else Some(EndOf(reason))
      ensures connectCh == if old(connectCh).Some? then old(connectCh) else Some(readErr)
      ensures mgr.View() == StreamIDs.Remove(old(mgr.View()), id)
    {
      if readErr.None? {
        readErr := Some(if reason == END_REASON_DONE then Eof else EndError(reason));
      }
      readSig := true;
      if connectCh.None? {
        connectCh := Some(readErr);
      }
      cancelled := true;
      mgr.RemoveStream(id);
    }

    /** Close: once; buffered data stays readable, and the ID goes back to the manager, by then
        perhaps another stream's (StreamIDs.HitsIff). */
    method Close() returns (endSent: bool)
      requires Valid()
      modifies this`readErr, this`readSig, this`cancelled, this`closeOnce, mgr`streams
      ensures Valid() && closeOnce
      ensures endSent == !old(closeOnce)
      ensures !endSent ==> readErr == old(readErr) && readSig == old(readSig) && cancelled == old(cancelled)
      ensures !endSent ==> mgr.View() == old(mgr.View())
      ensures endSent ==> readSig && cancelled
      ensures endSent ==> readErr == if old(readErr).Some? then old(readErr) else Some(NetClosed)
      ensures endSent ==> mgr.View() == StreamIDs.Remove(old(mgr.View()), id)
    {
      if closeOnce {
        return false;
      }
      closeOnce := true;
      if readErr.None? {
        readErr := Some(NetClosed);
      }
      readSig := true;
      cancelled := true;
      mgr.RemoveStream(id);
      return true;
    }

    /** drainLocked: fills `p` from the deque, chunk by chunk. */
    method DrainLocked(p: array<byte>) returns (n: nat, sendmes: nat)
      requires Valid()
      modifies this`readChunks, this`consumedCells, p
      ensures Valid()
      ensures var d := Drain(old(readChunks), p.Length);
        && n == |d.out| <= p.Length
        && p[..n] == d.out && p[n..] == old(p[n..])
        && readChunks == d.rest
        && sendmes == Due(old(consumedCells), d.cells) && consumedCells == Left(old(consumedCells), d.cells)
    {
      n, sendmes := 0, 0;
      ghost var all := Drain(readChunks, p.Length);
      while n < p.Length && |readChunks| > 0
        invariant n <= p.Length
        invariant NonEmpty(readChunks)
        invariant p[..n] + Drain(readChunks, p.Length - n).out == all.out
        invariant Drain(readChunks, p.Length - n).rest == all.rest
        invariant p[n..] == old(p[..])[n..]
        invariant consumedCells < STREAM_WINDOW_INCREMENT
        invariant STREAM_WINDOW_INCREMENT * sendmes + consumedCells
               == old(consumedCells) + all.cells - Drain(readChunks, p.Length - n).cells
        decreases |readChunks|, p.Length - n
      {
        ghost var before := p[..];
        var k, used := TakeFront(p, n);
        assert p[n + k..] == before[n..][k..] == old(p[..])[n + k..];
        n := n + k;
        if used {
          consumedCells := consumedCells + 1;
          if consumedCells >= STREAM_WINDOW_INCREMENT {
            consumedCells := consumedCells - STREAM_WINDOW_INCREMENT;
            sendmes := sendmes + 1;
          }
        }
      }
    }

    /** One round of the drain loop: copy what fits of the first chunk; drop it if used up. */
    method TakeFront(p: array<byte>, n: nat) returns (k: nat, used: bool)
      requires n < p.Length && readChunks != [] && NonEmpty(readChunks)
      modifies this`readChunks, p
      ensures 0 < k <= p.Length - n && NonEmpty(readChunks)
      ensures used ==> |readChunks| == |old(readChunks)| - 1
      ensures !used ==> |readChunks| == |old(readChunks)| && n + k == p.Length
      ensures p[n + k..] == old(p[..])[n + k..]
      ensures var d := Drain(readChunks, p.Length - n - k); var was := Drain(old(readChunks), p.Length - n);
        && p[..n + k] + d.out == old(p[..n]) + was.out
        && d.rest == was.rest && d.cells + (if used then 1 else 0) == was.cells
    {
      var c := readChunks[0];
      ghost var front := p[..n];
      k := CopyOut(p, n, c);
      used := k == |c|;
      DrainRound(readChunks, p.Length - n, k);
      readChunks := AfterCopy(readChunks, k);
      ghost var d := Drain(readChunks, p.Length - n - k);
      assert front + (c[..k] + d.out) == (front + c[..k]) + d.out;
    }

    /** One pass of Read under the lock. */
    method ReadOnce(p: array<byte>) returns (r: ReadResult)
      requires Valid()
      modifies this`readChunks, this`consumedCells, p
      ensures Valid()
      ensures old(readChunks) != [] ==>
        && r.Data? && r.n <= p.Length
        && p[..r.n] + Flatten(readChunks) == old(Flatten(readChunks))
        && r.n == (if p.Length <= |old(Flatten(readChunks))| then p.Length else |old(Flatten(readChunks))|)
        && STREAM_WINDOW_INCREMENT * r.sendmes + consumedCells == old(consumedCells) + |old(readChunks)| - |readChunks|
      ensures old(readChunks) == [] ==>
        && readChunks == [] && consumedCells == old(consumedCells)
        && r == if readErr.Some? then Ended(readErr.value) else WouldBlock
    {
      if |readChunks| > 0 {
        DrainConserves(readChunks, p.Length);
        var n, sendmes := DrainLocked(p);
        return Data(n, sendmes);
      }
      if readErr.Some? {
        return Ended(readErr.value);
      }
      return WouldBlock;
    }

    /** creditPackage: up to n permits back, never more than the window. */
    method CreditPackage(n: nat)
      requires Valid()
      modifies this`pkgTokens
      ensures Valid()
      ensures pkgTokens == Credited(old(pkgTokens), n)
    {
      var k := 0;
      while k < n
        invariant k <= n && pkgTokens == old(pkgTokens) + k <= STREAM_WINDOW_START
      {
        if pkgTokens == STREAM_WINDOW_START {
          return;
        }
        pkgTokens := pkgTokens + 1;
        k := k + 1;
      }
    }

    /** Write: `rounds` says what the environment does with each chunk in turn. The bytes reported
        are exactly those in the cells that were sent; it stops early only at a round that finds no
        permit or fails to send, and such a round leaves the permits as it found them. */
    method Write(p: seq<byte>, rounds: seq<Round>) returns (total: nat, ok: bool)
      requires Valid()
      modifies this`pkgTokens, this`sent
      ensures Valid()
      ensures total <= |p| && (ok <==> total == |p|)
      ensures sent == old(sent) + Cut(p[..total])
      ensures var k := |Cut(p[..total])|;
        && k <= |rounds|
        && (forall j :: 0 <= j < k ==> rounds[j].Sent? && Permits(old(pkgTokens), rounds, j) > 0)
        && (!ok && k < |rounds| ==> !rounds[k].Sent? || Permits(old(pkgTokens), rounds, k) == 0)
        && pkgTokens == if ok || k == |rounds| then PermitsAfter(old(pkgTokens), rounds, k)
                        else Permits(old(pkgTokens), rounds, k)
    {
      total := 0;
      var round := 0;
      assert p[..0] == [];
      while total < |p|
        invariant total <= |p| && (total < |p| ==> total % RELAY_DATA_LEN == 0)
        invariant Valid()
        invariant sent == old(sent) + Cut(p[..total])
        invariant round == |Cut(p[..total])| <= |rounds|
        invariant forall j :: 0 <= j < round ==> rounds[j].Sent? && Permits(old(pkgTokens), rounds, j) > 0
        invariant pkgTokens == PermitsAfter(old(pkgTokens), rounds, round)
      {
        var chunk := if |p| - total > RELAY_DATA_LEN then p[total..total + RELAY_DATA_LEN] else p[total..];
        if round >= |rounds| {
          return total, false;
        }
        CreditPackage(rounds[round].credits);
        if pkgTokens == 0 || rounds[round].NoPermit? {
          return total, false;
        }
        pkgTokens := pkgTokens - 1;
        if rounds[round].SendFailed? {
          CreditPackage(1);
          return total, false;
        }
        sent := sent + [chunk];
        CutSnoc(p[..total], chunk);
        assert p[..total + |chunk|] == p[..total] + chunk;
        total := total + |chunk|;
        round := round + 1;
      }
      ok := true;
    }
  }

  /** copy(p[n:], c): as much of `c` as fits. */
  method CopyOut(p: array<byte>, n: nat, c: seq<byte>) returns (k: nat)
    requires n <= p.Length
    modifies p
    ensures k == if |c| <= p.Length - n then |c| else p.Length - n
    ensures p[..n + k] == old(p[..n]) + c[..k]
    ensures p[n + k..] == old(p[n + k..])
  {
    k := 0;
    var m := if |c| <= p.Length - n then |c| else p.Length - n;
    while k < m
      invariant k <= m
      invariant forall i :: n <= i < n + k ==> p[i] == c[i - n]
      invariant forall i :: 0 <= i < p.Length && !(n <= i < n + k) ==> p[i] == old(p[i])
    {
      p[n + k] := c[k];
      k := k + 1;
    }
  }
}
