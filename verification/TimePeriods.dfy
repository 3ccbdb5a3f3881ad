/** Time periods and shared-random values (pkg/onion/timeperiod.go), sections 2.2.1 and 2.2.4.1 of
    rend-spec-v3. Times are Unix seconds. */
module TimePeriods {
  import opened Bytes
  import HashRing

  const U64 := 0x1_0000_0000_0000_0000
  const PERIOD_MINUTES := 1440
  const OFFSET_MINUTES := 720
  const DAY := 86400
  const HALF_DAY := 43200

  type Time = t: int | -0x8000_0000_0000_0000 <= t < 0x8000_0000_0000_0000

  /** TimePeriod: unsigned 64-bit arithmetic, so the conversion and the subtraction wrap. */
  function PeriodNum(now: Time): (num: nat) {
    var minutes := now % U64 / 60;
    (minutes - OFFSET_MINUTES) % U64 / PERIOD_MINUTES
  }

  function Hour(t: Time): (h: nat) {
    t % DAY / 3600
  }

  function SRVForFetch(validAfter: Time, current: seq<byte>, previous: seq<byte>): (srv: seq<byte>) {
    if Hour(validAfter) >= 12 then
      if |current| == 32 then current else previous
    else
      if |previous| == 32 then previous else current
  }

  /** A usable value is returned exactly when the consensus has one. */
  lemma UsableIff(validAfter: Time, current: seq<byte>, previous: seq<byte>)
    ensures var srv := SRVForFetch(validAfter, current, previous);
      && (|srv| == 32 <==> |current| == 32 || |previous| == 32)
      && (srv == current || srv == previous)
  {
  }

  /* ----- Periods run from noon to noon ----- */

  /** The 12:00-to-12:00 period that holds `t`, counted from the epoch's first noon. */
  function NoonPeriod(t: int): (n: int) {
    (t - 43200) / 86400
  }

  lemma PeriodIsNoonPeriod(t: Time)
    requires t >= HALF_DAY
    ensures PeriodNum(t) == NoonPeriod(t)
  {
  }

  /** The period number is the count of noons passed exactly from the first noon on. */
  lemma PeriodIff(t: Time)
    ensures PeriodNum(t) == NoonPeriod(t) <==> t >= 43200
  {
  }

  /* ----- Daily rotation ----- */

  type Srv = s: seq<byte> | |s| == 32 witness Zeros(32)

  /** What a client fetches with when value `srv(d)` becomes current at 00:00 of day `d`. */
  function Fetched(t: Time, srv: int -> Srv): (s: seq<byte>) {
    SRVForFetch(t, srv(t / 86400), srv(t / 86400 - 1))
  }

  lemma FetchedIsOfNoon(t: Time, srv: int -> Srv)
    ensures Fetched(t, srv) == srv(NoonPeriod(t))
  {
  }

  /** Whatever values the network issues, the client uses the one of its period's number. */
  ghost predicate ByPeriod(t: Time) {
    forall srv: int -> Srv :: Fetched(t, srv) == srv(PeriodNum(t))
  }

  function MarkValue(): (s: Srv)
    ensures s[0] == 1
  {
    [1] + Zeros(31)
  }

  function MarkedAt(day: int, d: int): (s: Srv)
    ensures d == day <==> s[0] == 1
  {
    if d == day then MarkValue() else Zeros(32)
  }

  /** A rotation in which the value of one day differs from all others. */
  function Marked(day: int): (srv: int -> Srv) {
    d => MarkedAt(day, d)
  }

  /** The choice is a function of the period number exactly from the first noon of the epoch on:
      before it the unsigned subtraction wraps. */
  lemma ByPeriodIff(t: Time)
    ensures ByPeriod(t) <==> t >= 43200
  {
    PeriodIff(t);
    if t >= HALF_DAY {
      forall srv: int -> Srv
        ensures Fetched(t, srv) == srv(PeriodNum(t))
      {
        FetchedIsOfNoon(t, srv);
      }
    } else {
      var srv := Marked(NoonPeriod(t));
      FetchedIsOfNoon(t, srv);
      assert srv(NoonPeriod(t))[0] == 1 && srv(PeriodNum(t))[0] != 1;
      assert Fetched(t, srv) != srv(PeriodNum(t));
    }
  }

  /* ----- One ring for each period ----- */

  /** The query of a client whose consensus became valid at `t`; `blinded` is the key blinded for
      a period. */
  function ClientQuery(hash: seq<byte> -> HashRing.Digest, blinded: nat -> seq<byte>, t: Time, srv: int -> Srv)
    : (q: HashRing.Query)
  {
    HashRing.Query(hash, blinded(PeriodNum(t)), PeriodNum(t), PERIOD_MINUTES, Fetched(t, srv))
  }

  /** All clients within one noon-to-noon period choose the same directories, in whatever order
      they list the candidates. */
  lemma OneRingForEachPeriod(hash: seq<byte> -> HashRing.Digest, blinded: nat -> seq<byte>, srv: int -> Srv,
                             t: Time, nodes: seq<HashRing.Node>, out: seq<HashRing.Node>,
                             t': Time, nodes': seq<HashRing.Node>, out': seq<HashRing.Node>)
    requires HALF_DAY <= t && HALF_DAY <= t' && NoonPeriod(t) == NoonPeriod(t')
    requires forall n :: n in nodes <==> n in nodes'
    ensures var q, q' := ClientQuery(hash, blinded, t, srv), ClientQuery(hash, blinded, t', srv);
      && HashRing.NoTies(q, HashRing.ValidIds(nodes))
      && HashRing.Chooses(q, nodes, out) && HashRing.Chooses(q', nodes', out')
      ==> HashRing.Eds(out) == HashRing.Eds(out')
    ensures var q := ClientQuery(hash, blinded, t, srv);
      && q.periodNum == NoonPeriod(t) && q.periodLength == 1440
      && q.srv == srv(NoonPeriod(t)) && q.blindedKey == blinded(q.periodNum)
  {
    PeriodIsNoonPeriod(t);
    PeriodIsNoonPeriod(t');
    FetchedIsOfNoon(t, srv);
    FetchedIsOfNoon(t', srv);
    HashRing.OrderIrrelevant(ClientQuery(hash, blinded, t, srv), nodes, out, nodes', out');
  }
}
