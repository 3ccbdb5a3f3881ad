/** The 509-byte relay payload (pkg/cell/relay.go, section 6.1 of tor-spec). */
module RelayCells {
  import opened Bytes
  import opened Options

  const PAYLOAD_LEN := 509
  const RELAY_DATA_LEN := 498
  const DIGEST_OFF := 5
  const LENGTH_OFF := 9
  const DATA_OFF := 11

  const RELAY_DATA: byte := 2
  const RELAY_SENDME: byte := 5

  type Digest = d: seq<byte> | |d| == 4 witness [0, 0, 0, 0]
  type Payload = p: seq<byte> | |p| == 509 witness Zeros(509)

  const BLANK: Digest := [0, 0, 0, 0]

  datatype RelayCell = RelayCell(command: byte, recognized: u16, streamID: u16, digest: Digest, data: seq<byte>)

  /** The data bytes that fit: longer data is cut at 498 bytes. */
  function Carried(data: seq<byte>): (d: seq<byte>)
    ensures d <= data && |d| == if |data| <= 498 then |data| else 498
  {
    if |data| <= RELAY_DATA_LEN then data else data[..RELAY_DATA_LEN]
  }

  function Encode(rc: RelayCell): (p: Payload) {
    var d := Carried(rc.data);
    [rc.command] + PutU16(rc.recognized) + PutU16(rc.streamID) + rc.digest + PutU16(|d|)
      + d + Zeros(RELAY_DATA_LEN - |d|)
  }

  function Decode(p: seq<byte>): (r: Option<RelayCell>) {
    if |p| != PAYLOAD_LEN then None
    else
      var n := GetU16(p[9..11]);
      if n > RELAY_DATA_LEN then None
      else Some(RelayCell(p[0], GetU16(p[1..3]), GetU16(p[3..5]), p[5..9], p[11..11 + n]))
  }

  function RecognizedField(p: Payload): (v: u16) {
    GetU16(p[1..3])
  }

  function DigestField(p: Payload): (d: Digest) {
    p[5..9]
  }

  /** `p` with its digest field overwritten. */
  function WithDigest(p: Payload, d: Digest): (q: Payload)
    ensures DigestField(q) == d
    ensures RecognizedField(q) == RecognizedField(p)
    ensures q[..5] == p[..5] && q[9..] == p[9..]
  {
    var q := p[..5] + d + p[9..];
    assert q[..5] == p[..5] && q[1..3] == p[1..3];
    q
  }

  lemma WithDigestTwice(p: Payload, d: Digest, e: Digest)
    ensures WithDigest(WithDigest(p, d), e) == WithDigest(p, e)
    ensures WithDigest(p, DigestField(p)) == p
  {
  }

  /** Where each field of an encoded cell sits. */
  lemma EncodeLayout(rc: RelayCell)
    ensures var p := Encode(rc); var d := Carried(rc.data);
      && p[0] == rc.command
      && p[1..3] == PutU16(rc.recognized)
      && p[3..5] == PutU16(rc.streamID)
      && p[5..9] == rc.digest
      && p[9..11] == PutU16(|d|)
      && p[11..11 + |d|] == d
      && p[11 + |d|..] == Zeros(RELAY_DATA_LEN - |d|)
  {
  }

  /** Decoding an encoded cell gives it back with its data cut at 498 bytes. */
  lemma DecodeEncode(rc: RelayCell)
    ensures Decode(Encode(rc)) == Some(rc.(data := Carried(rc.data)))
  {
    EncodeLayout(rc);
  }

  /** Whatever 509 bytes arrive: they decode exactly when the length field is at most 498, and then
      every field is read from its offset, whatever the padding holds. */
  lemma DecodeIff(p: seq<byte>)
    ensures Decode(p).Some? <==> |p| == 509 && 256 * p[9] as int + p[10] as int <= 498
    ensures Decode(p).Some? ==>
      var rc := Decode(p).value;
      && rc.command == p[0]
      && rc.recognized == 256 * p[1] as int + p[2] as int
      && rc.streamID == 256 * p[3] as int + p[4] as int
      && rc.digest == p[5..9]
      && |rc.data| == 256 * p[9] as int + p[10] as int
      && rc.data == p[11..11 + |rc.data|]
  {
  }

  /** Re-encoding a decoded payload restores all of it but the padding. */
  lemma EncodeDecode(p: seq<byte>)
    requires Decode(p).Some?
    ensures var rc := Decode(p).value; Encode(rc)[..11 + |rc.data|] == p[..11 + |rc.data|]
  {
    var rc := Decode(p).value;
    var q, n := Encode(rc), |rc.data|;
    EncodeLayout(rc);
    PutGetU16(p[1..3]);
    PutGetU16(p[3..5]);
    PutGetU16(p[9..11]);
    assert q[..11 + n] == [q[0]] + q[1..3] + q[3..5] + q[5..9] + q[9..11] + q[11..11 + n];
    assert p[..11 + n] == [p[0]] + p[1..3] + p[3..5] + p[5..9] + p[9..11] + p[11..11 + n];
  }

  /** The digest field is independent of every other field. */
  lemma EncodeWithDigest(rc: RelayCell, d: Digest)
    ensures WithDigest(Encode(rc), d) == Encode(rc.(digest := d))
  {
    EncodeLayout(rc);
    EncodeLayout(rc.(digest := d));
    var p, q := Encode(rc), Encode(rc.(digest := d));
    assert p[..5] == q[..5];
    assert p[9..] == q[9..];
    assert q == q[..5] + q[5..9] + q[9..];
  }
}
