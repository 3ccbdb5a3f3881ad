/** A circuit's crypto and send state, updated in place (pkg/circuit/circuit.go,
    pkg/torcrypto/digest.go), proved against the functions of modules Onion and Downlink. */
module Circuit {
  import opened Bytes
  import opened Options
  import opened RelayCells
  import opened Onion
  import opened Turnstile
  import opened Downlink

  /** The rolling hash of one direction of a hop. */
  class RunningDigest {
    const hash: seq<byte> -> Sum
    var fed: seq<byte>

    constructor (hash: seq<byte> -> Sum, seed: seq<byte>)
      ensures this.hash == hash && fed == seed
    {
      this.hash := hash;
      fed := seed;
    }

    method Update(cell: seq<byte>)
      modifies this
      ensures fed == old(fed) + cell
    {
      fed := fed + cell;
    }

    method Snapshot() returns (sum: Sum)
      ensures sum == hash(fed)
    {
      sum := hash(fed);
    }

    /** Advances a clone and commits it only if its leading |want| bytes are `want`. */
    method VerifyAndCommit(cellPayload: seq<byte>, want: seq<byte>) returns (ok: bool)
      modifies this
      ensures ok <==> want <= hash(old(fed) + cellPayload)
      ensures fed == if ok then old(fed) + cellPayload else old(fed)
    {
      var clone := fed + cellPayload;
      var sum := hash(clone);
      if |want| > |sum| || sum[..|want|] != want {
        return false;
      }
      fed := clone;
      return true;
    }
  }

  /** XORKeyStream: the keystream from `pos` on, XORed over the buffer in place. */
  method XorKeyStream(buf: array<byte>, stream: nat -> byte, pos: nat)
    modifies buf
    ensures buf[..] == XorStream(old(buf[..]), stream, pos)
  {
    var n := 0;
    while n < buf.Length
      invariant n <= buf.Length
      invariant forall k :: 0 <= k < n ==> buf[k] == Xor(old(buf[k]), stream(pos + k))
      invariant forall k :: n <= k < buf.Length ==> buf[k] == old(buf[k])
    {
      buf[n] := Xor(buf[n], stream(pos + n));
      n := n + 1;
    }
  }

  /** Writes the four bytes of `d` into the digest field of `buf`, in place. */
  method CopyDigest(buf: array<byte>, d: Digest)
    requires buf.Length == PAYLOAD_LEN
    modifies buf
    ensures buf[..] == WithDigest(old(buf[..]), d)
  {
    buf[5], buf[6], buf[7], buf[8] := d[0], d[1], d[2], d[3];
  }

  /** copy(buf[off:], d). */
  method CopyInto(buf: array<byte>, off: nat, d: seq<byte>)
    requires off + |d| <= buf.Length
    modifies buf
    ensures forall k :: off <= k < off + |d| ==> buf[k] == d[k - off]
    ensures forall k :: 0 <= k < buf.Length && !(off <= k < off + |d|) ==> buf[k] == old(buf[k])
  {
    var n := 0;
    while n < |d|
      invariant n <= |d|
      invariant forall k :: off <= k < off + n ==> buf[k] == d[k - off]
      invariant forall k :: 0 <= k < buf.Length && !(off <= k < off + n) ==> buf[k] == old(buf[k])
    {
      buf[off + n] := d[n];
      n := n + 1;
    }
  }

  /** The header fields of RelayCell.Encode, for n bytes of data. */
  method WriteHeader(buf: array<byte>, rc: RelayCell, n: u16)
    requires buf.Length == PAYLOAD_LEN
    modifies buf
    ensures buf[0] == rc.command && buf[1..3] == PutU16(rc.recognized) && buf[3..5] == PutU16(rc.streamID)
    ensures buf[5..9] == rc.digest && buf[9..11] == PutU16(n)
    ensures forall k :: DATA_OFF <= k < PAYLOAD_LEN ==> buf[k] == old(buf[k])
  {
    buf[0] := rc.command;
    CopyInto(buf, 1, PutU16(rc.recognized));
    CopyInto(buf, 3, PutU16(rc.streamID));
    CopyInto(buf, DIGEST_OFF, rc.digest);
    CopyInto(buf, LENGTH_OFF, PutU16(n));
  }

  /** RelayCell.Encode: fields written at fixed offsets into a zeroed 509-byte buffer. */
  method EncodeRelay(rc: RelayCell) returns (buf: array<byte>)
    ensures fresh(buf) && buf.Length == PAYLOAD_LEN && buf[..] == Encode(rc)
  {
    buf := new byte[PAYLOAD_LEN](_ => 0);
    var d := Carried(rc.data);
    WriteHeader(buf, rc, |d|);
    ghost var header := buf[..DATA_OFF];
    CopyInto(buf, DATA_OFF, d);
    assert buf[..DATA_OFF] == header;
    assert buf[11..11 + |d|] == d && buf[11 + |d|..] == Zeros(RELAY_DATA_LEN - |d|);
    Assembled(buf[..], rc);
  }

  /** A buffer with every field in its place is the encoding. */
  lemma Assembled(b: seq<byte>, rc: RelayCell)
    requires |b| == PAYLOAD_LEN && b[0] == rc.command
    requires b[1..3] == PutU16(rc.recognized) && b[3..5] == PutU16(rc.streamID)
    requires var n := |Carried(rc.data)|;
      && b[5..9] == rc.digest && b[9..11] == PutU16(n)
      && b[11..11 + n] == Carried(rc.data) && b[11 + n..] == Zeros(RELAY_DATA_LEN - n)
    ensures b == Encode(rc)
  {
    var n := |Carried(rc.data)|;
    assert b == [b[0]] + b[1..3] + b[3..5] + b[5..9] + b[9..11] + b[11..11 + n] + b[11 + n..];
  }

  /** Layers depend on keystreams and positions alone. */
  lemma {:induction false} WrapIgnoresDigest(hs: seq<Half>, d: nat, fed: seq<byte>, i: nat, n: nat, p: Payload)
    requires i <= n <= |hs| && d < |hs|
    ensures Wrap(hs[d := hs[d].(fed := fed)], i, n, p) == Wrap(hs, i, n, p)
    decreases n - i
  {
    if i == n {
    } else {
      WrapIgnoresDigest(hs, d, fed, i + 1, n, p);
    }
  }

  lemma SkipAfterAbsorb(hs: seq<Half>, d: nat, p: seq<byte>)
    requires d < |hs|
    ensures SkipFirst(hs[d := Absorb(hs[d], p)], d + 1) == SkipFirst(hs, d + 1)[d := Absorb(Skip(hs[d]), p)]
  {
  }

  /** Absorbing first and moving the keystreams after gives the halves and payload of Layer. */
  lemma LayerBySteps(hs: seq<Half>, d: nat, rc: RelayCell)
    requires d < |hs|
    ensures var fed := hs[d := Absorb(hs[d], Hashable(rc))];
      && Layer(hs, d, rc).hops == SkipFirst(fed, d + 1)
      && Layer(hs, d, rc).payload == Wrap(fed, 0, d + 1, Stamped(hs[d], rc))
  {
    WrapIgnoresDigest(hs, d, hs[d].fed + Hashable(rc), 0, d + 1, Stamped(hs[d], rc));
    SkipAfterAbsorb(hs, d, Hashable(rc));
  }

  /** One round of peeling, with the keystream moved before the digest check. */
  lemma PeelStep(hs: seq<Half>, i: nat, p: Payload)
    requires i < |hs|
    ensures var moved := hs[i := Skip(hs[i])]; var q := Crypt(hs[i], p);
      Peel(hs, i, p) == if Recognises(moved[i], q)
                        then Peeled(moved[i := Absorb(moved[i], WithDigest(q, BLANK))], true, i, Decode(q))
                        else Peel(moved, i + 1, q)
  {
  }

  /** `FailedWith` is whatever error the circuit was failed with. */
  datatype SendError = CircuitClosed | RelayEarlyExpired | FailedWith(reason: nat)

  datatype Claimed = Refused(error: SendError) | Ticket(number: nat, cell: LinkCell)

  class Circuit {
    // one half per hop and direction
    var fwd: seq<Half>
    var bwd: seq<Half>
    var relayEarlyCount: nat
    var closed: bool
    var closeErr: SendError
    /** The channel on which blocked callers wait has been closed. */
    var destroyed: bool
    var sendNext: nat
    var circPkgTokens: nat
    var circDeliverWindow: int

    ghost predicate Valid()
      reads this
    {
      |fwd| == |bwd| && relayEarlyCount <= MAX_RELAY_EARLY && circPkgTokens <= CIRC_WINDOW_START && destroyed == closed
    }

    constructor ()
      ensures Valid() && fwd == [] && relayEarlyCount == 0 && !closed && sendNext == 0
      ensures circPkgTokens == CIRC_WINDOW_START == circDeliverWindow
    {
      fwd, bwd, relayEarlyCount, closed, closeErr, sendNext := [], [], 0, false, CircuitClosed, 0;
      circPkgTokens, circDeliverWindow, destroyed := CIRC_WINDOW_START, CIRC_WINDOW_START, false;
    }

    method AddHop(f: Half, b: Half)
      requires Valid()
      modifies this`fwd, this`bwd
      ensures Valid() && fwd == old(fwd) + [f] && bwd == old(bwd) + [b]
    {
      fwd, bwd := fwd + [f], bwd + [b];
    }

    /** encryptForwardLocked: digest, stamp, then XOR the layers destHop..0 over the payload. */
    method EncryptForward(destHop: nat, rc: RelayCell) returns (payload: array<byte>)
      requires destHop < |fwd|
      modifies this`fwd
      ensures fresh(payload) && payload.Length == PAYLOAD_LEN
      ensures payload[..] == Layer(old(fwd), destHop, rc).payload
      ensures fwd == Layer(old(fwd), destHop, rc).hops
    {
      ghost var hs := fwd;
      payload := EncodeRelay(rc.(recognized := 0, digest := BLANK));
      var digest := new RunningDigest(fwd[destHop].hash, fwd[destHop].fed);
      digest.Update(payload[..]);
      fwd := fwd[destHop := fwd[destHop].(fed := digest.fed)];
      var snap := digest.Snapshot();
      CopyDigest(payload, snap[..4]);
      assert payload[..] == Stamped(hs[destHop], rc);
      XorLayers(destHop + 1, payload);
      LayerBySteps(hs, destHop, rc);
    }

    /** The forward layers n-1, ..., 0, XORed over the payload in place. */
    method XorLayers(n: nat, payload: array<byte>)
      requires n <= |fwd| && payload.Length == PAYLOAD_LEN
      modifies this`fwd, payload
      ensures payload[..] == Wrap(old(fwd), 0, n, old(payload[..]))
      ensures fwd == SkipFirst(old(fwd), n)
    {
      ghost var hs := fwd;
      var i := n;
      while i > 0
        invariant 0 <= i <= n
        invariant payload[..] == Wrap(hs, i, n, old(payload[..]))
        invariant |fwd| == |hs|
        invariant forall j :: 0 <= j < |hs| ==> fwd[j] == if i <= j < n then Skip(hs[j]) else hs[j]
      {
        i := i - 1;
        XorKeyStream(payload, fwd[i].stream, fwd[i].pos);
        fwd := fwd[i := Skip(fwd[i])];
      }
    }

    /** The digest check of hop i: commits the advance only if the hop recognises `q`. */
    method TryRecognise(i: nat, q: Payload) returns (ok: bool)
      requires i < |bwd|
      modifies this`bwd
      ensures ok <==> Recognises(old(bwd)[i], q)
      ensures bwd == if ok then old(bwd)[i := Absorb(old(bwd)[i], WithDigest(q, BLANK))] else old(bwd)
    {
      if RecognizedField(q) != 0 {
        return false;
      }
      var digest := new RunningDigest(bwd[i].hash, bwd[i].fed);
      ok := digest.VerifyAndCommit(WithDigest(q, BLANK), DigestField(q));
      bwd := bwd[i := bwd[i].(fed := digest.fed)];
    }

    /** decryptInboundLocked: peel hop after hop until one recognises the cell. */
    method DecryptInbound(payload: array<byte>) returns (at: nat, cell: Option<RelayCell>)
      requires payload.Length == PAYLOAD_LEN
      modifies this`bwd, payload
      ensures var r := Peel(old(bwd), 0, old(payload[..])); bwd == r.hops && at == r.at && cell == r.cell
    {
      ghost var result := Peel(bwd, 0, payload[..]);
      var i := 0;
      while i < |bwd|
        invariant 0 <= i <= |bwd|
        invariant Peel(bwd, i, payload[..]) == result
      {
        ghost var hs, p := bwd, payload[..];
        PeelStep(hs, i, p);
        XorKeyStream(payload, bwd[i].stream, bwd[i].pos);
        bwd := bwd[i := Skip(bwd[i])];
        var found := TryRecognise(i, payload[..]);
        if found {
          at, cell := i, Decode(payload[..]);
          return;
        }
        i := i + 1;
      }
      at, cell := 0, None;
    }

    /** sendRelay up to the unlock. */
    method ClaimRelay(destHop: nat, rc: RelayCell, early: bool) returns (r: Claimed)
      requires Valid()
      modifies this`fwd, this`relayEarlyCount, this`sendNext
      ensures Valid()
      ensures r.Refused? <==> closed || destHop >= |old(fwd)| || (early && old(relayEarlyCount) >= MAX_RELAY_EARLY)
      ensures r.Refused? ==>
        r.error == if closed then closeErr else if destHop >= |old(fwd)| then CircuitClosed else RelayEarlyExpired
      ensures r.Refused? ==> fwd == old(fwd) && relayEarlyCount == old(relayEarlyCount) && sendNext == old(sendNext)
      ensures r.Ticket? ==>
        && r == Ticket(old(sendNext), LinkCell(early, Layer(old(fwd), destHop, rc).payload))
        && fwd == Layer(old(fwd), destHop, rc).hops
        && relayEarlyCount == old(relayEarlyCount) + (if early then 1 else 0)
        && sendNext == old(sendNext) + 1
    {
      if closed {
        return Refused(closeErr);
      }
      if destHop >= |fwd| {
        return Refused(CircuitClosed);
      }
      if early && relayEarlyCount >= MAX_RELAY_EARLY {
        return Refused(RelayEarlyExpired);
      }
      var payload := EncryptForward(destHop, rc);
      if early {
        relayEarlyCount := relayEarlyCount + 1;
      }
      r := Ticket(sendNext, LinkCell(early, payload[..]));
      sendNext := sendNext + 1;
    }

    /** accountInboundData up to the unlock: the ticket claimed for a SENDME, if one is due. */
    method AccountInboundData(hopIdx: nat, tag: Sum, ghost a: Account) returns (sendme: Option<Claimed>)
      requires Valid() && a.window == circDeliverWindow && a.closed == closed
      modifies this`fwd, this`sendNext, this`circDeliverWindow
      ensures Valid()
      ensures var r := AccountData(a, Seen(hopIdx, tag), |old(fwd)|);
        && circDeliverWindow == r.window
        && (sendme.Some? <==> |r.sendmes| > |a.sendmes|)
        && (sendme.None? ==> fwd == old(fwd) && sendNext == old(sendNext))
        && (sendme.Some? ==>
              var rc := RelayCell(5, 0, 0, BLANK, r.sendmes[|a.sendmes|].body);
              && sendme.value == Ticket(old(sendNext), LinkCell(false, Layer(old(fwd), hopIdx, rc).payload))
              && fwd == Layer(old(fwd), hopIdx, rc).hops && sendNext == old(sendNext) + 1)
    {
      circDeliverWindow := circDeliverWindow - 1;
      var send := circDeliverWindow <= CIRC_WINDOW_START - CIRC_WINDOW_INCREMENT;
      if send {
        circDeliverWindow := circDeliverWindow + CIRC_WINDOW_INCREMENT;
      }
      if !send || closed || hopIdx >= |fwd| {
        return None;
      }
      var body := EncodeSendmeV1(tag);
      var payload := EncryptForward(hopIdx, RelayCell(RELAY_SENDME, 0, 0, BLANK, body));
      sendme := Some(Ticket(sendNext, LinkCell(false, payload[..])));
      sendNext := sendNext + 1;
    }

    /** creditPackageWindow: up to n permits back, never more than the channel holds. */
    method CreditPackageWindow(n: nat)
      requires Valid()
      modifies this`circPkgTokens
      ensures Valid()
      ensures var sum := old(circPkgTokens) + n;
        circPkgTokens == if sum <= CIRC_WINDOW_START then sum else CIRC_WINDOW_START
    {
      var k := 0;
      while k < n
        invariant k <= n && circPkgTokens == old(circPkgTokens) + k <= CIRC_WINDOW_START
      {
        if circPkgTokens == CIRC_WINDOW_START {
          return;
        }
        circPkgTokens := circPkgTokens + 1;
        k := k + 1;
      }
    }

    /** fail: the first failure wins and wakes all blocked callers, later ones change nothing; the
        channel is never closed twice. */
    method Fail(err: SendError)
      requires Valid()
      modifies this`closed, this`closeErr, this`destroyed
      ensures Valid() && closed && destroyed
      ensures closeErr == if old(closed) then old(closeErr) else err
    {
      if closed {
        return;
      }
      closed := true;
      closeErr := err;
      assert !destroyed;
      destroyed := true;
    }
  }
}
