/** Per-hop onion crypto (pkg/circuit/circuit.go, pkg/torcrypto/digest.go, sections 5.5 and
    6.1 of tor-spec).

    One direction of one hop is a `Half`: a keystream with its position and a rolling digest
    with everything fed to it. AES-CTR and SHA-1 or SHA3-256 are arbitrary functions here. The
    sender of a direction layers cells (the client forward, the relays backward) and the
    receiver peels them, so one theory serves both directions. */
module Onion {
  import opened Bytes
  import opened Options
  import opened RelayCells

  /** A full digest: 20 bytes for SHA-1, 32 bytes for SHA3-256. */
  type Sum = s: seq<byte> | |s| == 20 || |s| == 32 witness Zeros(20)

  datatype Half = Half(stream: nat -> byte, hash: seq<byte> -> Sum, pos: nat, fed: seq<byte>)

  function Snapshot(h: Half): (s: Sum) {
    h.hash(h.fed)
  }

  function Absorb(h: Half, p: seq<byte>): (r: Half) {
    h.(fed := h.fed + p)
  }

  function Skip(h: Half): (r: Half) {
    h.(pos := h.pos + PAYLOAD_LEN)
  }

  function Crypt(h: Half, p: Payload): (q: Payload) {
    XorStream(p, h.stream, h.pos)
  }

  /** What is hashed for `rc`: recognized and digest are zero. */
  function Hashable(rc: RelayCell): (p: Payload) {
    Encode(rc.(recognized := 0, digest := BLANK))
  }

  /** The digest field that the next cell `rc` carries. */
  function Tag(h: Half, rc: RelayCell): (d: Digest) {
    Snapshot(Absorb(h, Hashable(rc)))[..4]
  }

  function Stamped(h: Half, rc: RelayCell): (p: Payload) {
    WithDigest(Hashable(rc), Tag(h, rc))
  }

  /** The cell its destination gets: same command, stream and data. */
  function Delivered(h: Half, rc: RelayCell): (r: RelayCell) {
    RelayCell(rc.command, 0, rc.streamID, Tag(h, rc), Carried(rc.data))
  }

  /** `p` under the layers of hops i, ..., n-1, hop i outermost. */
  function Wrap(hs: seq<Half>, i: nat, n: nat, p: Payload): (q: Payload)
    requires i <= n <= |hs|
    decreases n - i
  {
    if i == n then p else Crypt(hs[i], Wrap(hs, i + 1, n, p))
  }

  /** The first `n` keystreams moved on by one cell. */
  function SkipFirst(hs: seq<Half>, n: nat): (r: seq<Half>)
    requires n <= |hs|
    ensures |r| == |hs|
    ensures forall i :: 0 <= i < |hs| ==> r[i] == if i < n then Skip(hs[i]) else hs[i]
  {
    seq(|hs|, i requires 0 <= i < |hs| => if i < n then Skip(hs[i]) else hs[i])
  }

  datatype Layered = Layered(hops: seq<Half>, payload: Payload)

  /** Sending `rc` to (or from) hop `d`. */
  function Layer(hs: seq<Half>, d: nat, rc: RelayCell): (r: Layered)
    requires d < |hs|
  {
    Layered(SkipFirst(hs, d + 1)[d := Absorb(Skip(hs[d]), Hashable(rc))],
            Wrap(hs, 0, d + 1, Stamped(hs[d], rc)))
  }

  /** Hop `h` takes the peeled payload `q` for its own. */
  predicate Recognises(h: Half, q: Payload) {
    && RecognizedField(q) == 0
    && h.hash(h.fed + WithDigest(q, BLANK))[..4] == DigestField(q)
  }

  /** `found` says that hop `at` recognised the cell; `cell` is then its decoding, if any. */
  datatype Peeled = Peeled(hops: seq<Half>, found: bool, at: nat, cell: Option<RelayCell>)

  /** Receiving a payload: hops i, i+1, ... take off their layer until one recognises it. */
  function Peel(hs: seq<Half>, i: nat, p: Payload): (r: Peeled)
    requires i <= |hs|
    decreases |hs| - i
  {
    if i == |hs| then Peeled(hs, false, 0, None)
    else
      var q := Crypt(hs[i], p);
      var moved := hs[i := Skip(hs[i])];
      if Recognises(hs[i], q) then
        Peeled(moved[i := Absorb(moved[i], WithDigest(q, BLANK))], true, i, Decode(q))
      else Peel(moved, i + 1, q)
  }

  /** Hop i, on the way to hop d, takes the stamped payload `p` for its own. */
  predicate MatchesAt(hs: seq<Half>, i: nat, d: nat, p: Payload)
    requires i < d < |hs|
  {
    Recognises(hs[i], Wrap(hs, i + 1, d + 1, p))
  }

  /** No hop before the destination matches the truncated digest by chance. */
  predicate NoChanceMatch(hs: seq<Half>, d: nat, rc: RelayCell)
    requires d < |hs|
  {
    forall i :: 0 <= i < d ==> !MatchesAt(hs, i, d, Stamped(hs[d], rc))
  }

  /** A layer really hides the payload: it changes exactly the bytes that meet a keystream byte
      other than zero. */
  lemma CryptChanges(h: Half, p: Payload, i: nat)
    requires i < PAYLOAD_LEN
    ensures Crypt(h, p)[i] != p[i] <==> h.stream(h.pos + i) != 0
    ensures forall k :: 0 <= k < 8 ==> Bit(Crypt(h, p)[i], k) == (Bit(p[i], k) + Bit(h.stream(h.pos + i), k)) % 2
  {
    XorChanges(p[i], h.stream(h.pos + i));
    forall k | 0 <= k < 8
      ensures Bit(Crypt(h, p)[i], k) == (Bit(p[i], k) + Bit(h.stream(h.pos + i), k)) % 2
    {
      XorBit(p[i], h.stream(h.pos + i), k);
    }
  }

  lemma CryptTwice(h: Half, p: Payload)
    ensures Crypt(h, Crypt(h, p)) == p
  {
    XorStreamCancels(p, h.stream, h.pos);
  }

  /** A stamped cell is recognised by the half that stamped it and decodes to the cell sent. */
  lemma StampedIsRecognised(h: Half, rc: RelayCell)
    ensures Recognises(h, Stamped(h, rc))
    ensures WithDigest(Stamped(h, rc), BLANK) == Hashable(rc)
    ensures Decode(Stamped(h, rc)) == Some(Delivered(h, rc))
  {
    var blank := rc.(recognized := 0, digest := BLANK);
    EncodeLayout(blank);
    WithDigestTwice(Hashable(rc), Tag(h, rc), BLANK);
    WithDigestTwice(Hashable(rc), BLANK, BLANK);
    EncodeWithDigest(blank, Tag(h, rc));
    DecodeEncode(blank.(digest := Tag(h, rc)));
  }

  /** Peeling from hop i on, the first i keystreams being already ahead. */
  lemma {:induction false} PeelFrom(hs: seq<Half>, i: nat, d: nat, rc: RelayCell)
    requires i <= d < |hs|
    requires forall j :: i <= j < d ==> !MatchesAt(hs, j, d, Stamped(hs[d], rc))
    ensures Peel(SkipFirst(hs, i), i, Wrap(hs, i, d + 1, Stamped(hs[d], rc)))
         == Peeled(Layer(hs, d, rc).hops, true, d, Some(Delivered(hs[d], rc)))
    decreases d - i
  {
    var moving := SkipFirst(hs, i);
    var inner := Wrap(hs, i + 1, d + 1, Stamped(hs[d], rc));
    CryptTwice(hs[i], inner);
    assert moving[i := Skip(hs[i])] == SkipFirst(hs, i + 1);
    if i == d {
      StampedIsRecognised(hs[d], rc);
    } else {
      assert !MatchesAt(hs, i, d, Stamped(hs[d], rc));
      PeelFrom(hs, i + 1, d, rc);
    }
  }

  /** Peeling stops no later than the first hop that recognises what it peels. */
  lemma {:induction false} PeelStopsEarly(hs: seq<Half>, i: nat, j: nat, d: nat, p: Payload)
    requires i <= j < d < |hs|
    requires MatchesAt(hs, j, d, p)
    ensures Peel(SkipFirst(hs, i), i, Wrap(hs, i, d + 1, p)).at < d
    ensures Peel(SkipFirst(hs, i), i, Wrap(hs, i, d + 1, p)).found
    decreases j - i
  {
    var moving := SkipFirst(hs, i);
    var inner := Wrap(hs, i + 1, d + 1, p);
    CryptTwice(hs[i], inner);
    assert moving[i := Skip(hs[i])] == SkipFirst(hs, i + 1);
    if Recognises(hs[i], inner) {
    } else {
      PeelStopsEarly(hs, i + 1, j, d, p);
    }
  }

  /** Layer and peel are inverse, and leave both ends in the same state, exactly when no hop
      before the destination matches by chance. */
  lemma PeelOfLayer(hs: seq<Half>, d: nat, rc: RelayCell)
    requires d < |hs|
    ensures var sent := Layer(hs, d, rc);
      NoChanceMatch(hs, d, rc) <==>
      Peel(hs, 0, sent.payload) == Peeled(sent.hops, true, d, Some(Delivered(hs[d], rc)))
  {
    assert SkipFirst(hs, 0) == hs;
    if NoChanceMatch(hs, d, rc) {
      PeelFrom(hs, 0, d, rc);
    } else {
      var j :| 0 <= j < d && MatchesAt(hs, j, d, Stamped(hs[d], rc));
      PeelStopsEarly(hs, 0, j, d, Stamped(hs[d], rc));
    }
  }

  /** Peeling yields a cell only at a hop that recognised it. */
  lemma {:induction false} PeelShape(hs: seq<Half>, i: nat, p: Payload)
    requires i <= |hs|
    ensures var r := Peel(hs, i, p);
      |r.hops| == |hs| && (r.found ==> i <= r.at < |hs|) && (!r.found ==> r.cell == None)
    decreases |hs| - i
  {
    if i == |hs| || Recognises(hs[i], Crypt(hs[i], p)) {
    } else {
      PeelShape(hs[i := Skip(hs[i])], i + 1, Crypt(hs[i], p));
    }
  }

  /** What peeling from hop i on, with result `r`, has done to hop j: the keystream of every hop tried
      has moved by one cell, and no digest but that of the recognising hop has changed. */
  ghost predicate MovedRight(hs: seq<Half>, i: nat, r: Peeled, j: nat) {
    && j < |hs| == |r.hops|
    && r.hops[j].pos == hs[j].pos + (if i <= j && (r.found ==> j <= r.at) then PAYLOAD_LEN else 0)
    && (!(r.found && j == r.at) ==> r.hops[j].fed == hs[j].fed)
    && r.hops[j].stream == hs[j].stream && r.hops[j].hash == hs[j].hash
  }

  lemma MovedBefore(hs: seq<Half>, i: nat, r: Peeled, j: nat)
    requires i < |hs| && (r.found ==> i < r.at) && MovedRight(hs[i := Skip(hs[i])], i + 1, r, j)
    ensures MovedRight(hs, i, r, j)
  {
  }

  lemma PeelStops(hs: seq<Half>, i: nat, p: Payload, j: nat)
    requires i < |hs| && j < |hs| && Recognises(hs[i], Crypt(hs[i], p))
    ensures MovedRight(hs, i, Peel(hs, i, p), j)
  {
  }

  lemma PeelGoesOn(hs: seq<Half>, i: nat, p: Payload)
    requires i < |hs| && !Recognises(hs[i], Crypt(hs[i], p))
    ensures var r := Peel(hs[i := Skip(hs[i])], i + 1, Crypt(hs[i], p)); Peel(hs, i, p) == r && (r.found ==> i < r.at)
  {
    PeelShape(hs[i := Skip(hs[i])], i + 1, Crypt(hs[i], p));
  }

  /** Peeling moves the keystream of every hop tried, recognised or not, and changes no digest but
      that of the hop that recognises the payload. */
  lemma {:induction false} PeelMovesStreams(hs: seq<Half>, i: nat, p: Payload, j: nat)
    requires i <= |hs| && j < |hs|
    ensures MovedRight(hs, i, Peel(hs, i, p), j)
    decreases |hs| - i
  {
    if i == |hs| {
    } else if Recognises(hs[i], Crypt(hs[i], p)) {
      PeelStops(hs, i, p, j);
    } else {
      PeelGoesOn(hs, i, p);
      PeelMovesStreams(hs[i := Skip(hs[i])], i + 1, Crypt(hs[i], p), j);
      MovedBefore(hs, i, Peel(hs, i, p), j);
    }
  }

  /* ----- A hop appended later does not disturb what went before ----- */

  lemma {:induction false} WrapExtend(hs: seq<Half>, ext: seq<Half>, i: nat, n: nat, p: Payload)
    requires i <= n <= |hs|
    ensures Wrap(hs + ext, i, n, p) == Wrap(hs, i, n, p)
    decreases n - i
  {
    if i == n {
    } else {
      WrapExtend(hs, ext, i + 1, n, p);
    }
  }

  lemma MatchesExtend(hs: seq<Half>, ext: seq<Half>, i: nat, d: nat, p: Payload)
    requires i < d < |hs|
    ensures MatchesAt(hs + ext, i, d, p) <==> MatchesAt(hs, i, d, p)
  {
    WrapExtend(hs, ext, i + 1, d + 1, p);
  }

  lemma NoChanceExtend(hs: seq<Half>, ext: seq<Half>, d: nat, rc: RelayCell)
    requires d < |hs|
    ensures NoChanceMatch(hs + ext, d, rc) <==> NoChanceMatch(hs, d, rc)
  {
    var p := Stamped(hs[d], rc);
    assert (hs + ext)[d] == hs[d];
    forall i | 0 <= i < d
      ensures MatchesAt(hs + ext, i, d, p) <==> MatchesAt(hs, i, d, p)
    {
      MatchesExtend(hs, ext, i, d, p);
    }
  }

  lemma LayerExtend(hs: seq<Half>, ext: seq<Half>, d: nat, rc: RelayCell)
    requires d < |hs|
    ensures Layer(hs + ext, d, rc).hops == Layer(hs, d, rc).hops + ext
    ensures Layer(hs + ext, d, rc).payload == Layer(hs, d, rc).payload
  {
    WrapExtend(hs, ext, 0, d + 1, Stamped(hs[d], rc));
    assert SkipFirst(hs + ext, d + 1) == SkipFirst(hs, d + 1) + ext;
  }

  /** A receiver that has more hops than the sender had: the extra ones stay as they were. */
  lemma PeelOfLayerExtend(hs: seq<Half>, ext: seq<Half>, d: nat, rc: RelayCell)
    requires d < |hs| && NoChanceMatch(hs, d, rc)
    ensures Peel(hs + ext, 0, Layer(hs, d, rc).payload)
         == Peeled(Layer(hs, d, rc).hops + ext, true, d, Some(Delivered(hs[d], rc)))
  {
    LayerExtend(hs, ext, d, rc);
    NoChanceExtend(hs, ext, d, rc);
    PeelOfLayer(hs + ext, d, rc);
  }
}

/** Runs in one direction: the sender's log of cells, against which the receivers' results and
    positions are judged. Forward the client sends and the relays receive; backward the relays
    send and the client receives. */
module OnionRuns {
  import opened Bytes
  import opened Options
  import opened RelayCells
  import opened Onion

  /** What the receivers made of one cell: the hop that took it, if any, and its decoding. */
  datatype Got = Got(found: bool, at: nat, cell: Option<RelayCell>)

  /** One cell sent: its far end and contents, the sender's halves before and after, its payload,
      what the receivers should make of it, and whether no hop before the far end takes it for
      its own by chance. */
  datatype Entry = Entry(hop: nat, rc: RelayCell, before: seq<Half>, after: seq<Half>, payload: Payload,
                         expected: Got, clean: bool)

  function MakeEntry(hops: seq<Half>, hop: nat, rc: RelayCell): (e: Entry)
    requires hop < |hops|
  {
    var layered := Layer(hops, hop, rc);
    Entry(hop, rc, hops, layered.hops, layered.payload,
          Got(true, hop, Some(Delivered(hops[hop], rc))), NoChanceMatch(hops, hop, rc))
  }

  ghost predicate Genuine(e: Entry) {
    e.hop < |e.before| && e == MakeEntry(e.before, e.hop, e.rc)
  }

  ghost predicate AllGenuine(log: seq<Entry>) {
    forall k {:trigger Genuine(log[k])} :: 0 <= k < |log| ==> Genuine(log[k])
  }

  /** The sender's halves when n cells had been sent. */
  ghost function At(log: seq<Entry>, halves: seq<Half>, n: nat): (hs: seq<Half>)
    requires n <= |log|
  {
    if n < |log| then log[n].before else halves
  }

  /** `hs`, followed by the seeds of the hops that it lacks. */
  ghost function Pad(hs: seq<Half>, seeds: seq<Half>): (r: seq<Half>)
    requires |hs| <= |seeds|
  {
    hs + seeds[|hs|..]
  }

  ghost predicate Fit(seeds: seq<Half>, log: seq<Entry>, halves: seq<Half>) {
    && |halves| == |seeds|
    && forall k :: 0 <= k < |log| ==> |log[k].before| == |log[k].after| <= |seeds|
  }

  /** Each cell starts where the one before left off, on hops added since then if any. */
  ghost predicate Chained(seeds: seq<Half>, log: seq<Entry>, halves: seq<Half>)
    requires Fit(seeds, log, halves)
  {
    && Pad(At(log, halves, 0), seeds) == seeds
    && forall k :: 0 <= k < |log| ==> Joined(seeds, log, halves, k)
  }

  ghost predicate Joined(seeds: seq<Half>, log: seq<Entry>, halves: seq<Half>, k: nat)
    requires Fit(seeds, log, halves) && k < |log|
  {
    Pad(At(log, halves, k + 1), seeds) == Pad(log[k].after, seeds)
  }

  /** `clean` is the index of the first entry that is not clean. */
  ghost predicate CleanPrefix(log: seq<Entry>, clean: nat) {
    && clean <= |log|
    && (forall k :: 0 <= k < clean ==> log[k].clean)
    && (clean < |log| ==> !log[clean].clean)
  }

  function NextClean(log: seq<Entry>, clean: nat, e: Entry): (r: nat) {
    if clean == |log| && e.clean then clean + 1 else clean
  }

  lemma CleanSnoc(log: seq<Entry>, clean: nat, e: Entry)
    requires CleanPrefix(log, clean)
    ensures CleanPrefix(log + [e], NextClean(log, clean, e))
  {
  }

  /** The first n results, as far as there are any, are the expected ones. */
  ghost predicate RightLog(log: seq<Entry>, decoded: seq<Got>, n: nat) {
    forall k :: 0 <= k < |decoded| && k < n && k < |log| ==> decoded[k] == log[k].expected
  }

  lemma PadSnoc(hs: seq<Half>, seeds: seq<Half>, half: Half)
    requires |hs| <= |seeds|
    ensures Pad(hs, seeds + [half]) == Pad(hs, seeds) + [half]
  {
  }

  lemma PadFull(hs: seq<Half>, seeds: seq<Half>)
    requires |hs| == |seeds|
    ensures Pad(hs, seeds) == hs
  {
  }

  lemma AddHopKeepsChain(seeds: seq<Half>, log: seq<Entry>, halves: seq<Half>, half: Half, n: nat)
    requires Fit(seeds, log, halves) && n <= |log|
    ensures Pad(At(log, halves + [half], n), seeds + [half]) == Pad(At(log, halves, n), seeds) + [half]
  {
    PadSnoc(At(log, halves, n), seeds, half);
    PadFull(halves, seeds);
    PadFull(halves + [half], seeds + [half]);
  }

  lemma AddHopKeepsChained(seeds: seq<Half>, log: seq<Entry>, halves: seq<Half>, half: Half)
    requires Fit(seeds, log, halves) && Chained(seeds, log, halves)
    ensures Fit(seeds + [half], log, halves + [half]) && Chained(seeds + [half], log, halves + [half])
  {
    AddHopKeepsChain(seeds, log, halves, half, 0);
    forall k | 0 <= k < |log|
      ensures Joined(seeds + [half], log, halves + [half], k)
    {
      assert Joined(seeds, log, halves, k);
      AddHopKeepsChain(seeds, log, halves, half, k + 1);
      PadSnoc(log[k].after, seeds, half);
    }
  }

  lemma SendKeepsChain(seeds: seq<Half>, log: seq<Entry>, e: Entry)
    requires Fit(seeds, log, e.before) && Chained(seeds, log, e.before) && |e.after| == |seeds|
    ensures Fit(seeds, log + [e], e.after) && Chained(seeds, log + [e], e.after)
  {
    forall k | 0 <= k < |log + [e]|
      ensures Joined(seeds, log + [e], e.after, k)
    {
      if k < |log| {
        assert Joined(seeds, log, e.before, k);
      }
    }
  }

  lemma GenuineSnoc(log: seq<Entry>, e: Entry)
    requires AllGenuine(log) && Genuine(e)
    ensures AllGenuine(log + [e])
  {
  }

  /** Receivers in step with the sender take a clean cell at its far end and stay in step. */
  lemma PeelEntry(e: Entry, seeds: seq<Half>)
    requires Genuine(e) && e.clean && |e.before| == |e.after| <= |seeds|
    ensures Peel(Pad(e.before, seeds), 0, e.payload)
         == Peeled(Pad(e.after, seeds), e.expected.found, e.expected.at, e.expected.cell)
  {
    PeelOfLayerExtend(e.before, seeds[|e.before|..], e.hop, e.rc);
  }

  lemma RightLogSnoc(log: seq<Entry>, decoded: seq<Got>, got: Got, n: nat)
    requires RightLog(log, decoded, n)
    requires |decoded| < n && |decoded| < |log| ==> got == log[|decoded|].expected
    ensures RightLog(log, decoded + [got], n)
  {
  }
}
