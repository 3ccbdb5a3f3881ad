/** Bandwidth-weighted relay selection (pkg/pathsel/pathsel.go), over unbounded integers. */
module PathSelect {
  import opened Options

  type Identity = seq<char>

  /** The first two octets of the relay's address, when it parses as IPv4. */
  datatype Prefix16 = Prefix16(a: nat, b: nat)

  datatype Relay = Relay(identity: Identity, ip: Option<Prefix16>, flags: set<string>, bandwidth: int,
                         microdescHash: string)

  datatype Position = Guard | Middle | Exit(allow: Option<Relay -> bool>) | DirCache

  /** One call: an excluded relay may be nil. */
  datatype Query = Query(weights: map<string, int>, position: Position, exclude: seq<Option<Relay>>)

  /* ----- Eligibility and weight ----- */

  predicate BaseEligible(r: Relay) {
    "Running" in r.flags && "Valid" in r.flags && r.bandwidth > 0 && r.microdescHash != ""
  }

  predicate Eligible(p: Position, r: Relay) {
    match p
    case Guard => "Guard" in r.flags && "Fast" in r.flags && "Stable" in r.flags
    case Middle => "Fast" in r.flags
    case Exit(allow) =>
      "Exit" in r.flags && "Fast" in r.flags && "BadExit" !in r.flags && (allow.None? || allow.value(r))
    case DirCache => "Fast" in r.flags && "V2Dir" in r.flags
  }

  function MiddleWeightKey(r: Relay): (k: string) {
    if "Guard" in r.flags && "Exit" in r.flags then "Wmd"
    else if "Guard" in r.flags then "Wmg"
    else if "Exit" in r.flags then "Wme"
    else "Wmm"
  }

  function WeightKey(p: Position, r: Relay): (k: string) {
    match p
    case Guard => if "Exit" in r.flags then "Wgd" else "Wgg"
    case Middle => MiddleWeightKey(r)
    case Exit(_) => if "Guard" in r.flags then "Wed" else "Wee"
    case DirCache => MiddleWeightKey(r)
  }

  /** Division that truncates toward zero. */
  function Quotient(a: int, b: int): (q: int)
    requires b > 0
  {
    if a >= 0 then a / b else -(-a / b)
  }

  /** The quotient is exact but for a remainder smaller than the divisor and of the dividend's sign. */
  lemma QuotientTruncates(a: int, b: int)
    requires b > 0
    ensures var r := a - Quotient(a, b) * b; -b < r < b && (a >= 0 ==> r >= 0) && (a <= 0 ==> r <= 0)
  {
    if a >= 0 {
      assert a == a / b * b + a % b;
    } else {
      assert -a == -a / b * b + -a % b;
    }
  }

  function Product(weights: map<string, int>, r: Relay, key: string): (p: int) {
    r.bandwidth * (if key in weights then weights[key] else 10000)
  }

  function WeightedBw(weights: map<string, int>, r: Relay, key: string): (w: int) {
    Quotient(Product(weights, r, key), 10000)
  }

  predicate SameSlash16(a: Option<Prefix16>, b: Option<Prefix16>) {
    a.Some? && b.Some? && a == b
  }

  /** `e` rules `r` out: the same relay, or the same /16. */
  predicate Conflicts(r: Relay, e: Option<Relay>) {
    e.Some? && (r.identity == e.value.identity || SameSlash16(r.ip, e.value.ip))
  }

  predicate Excluded(r: Relay, exclude: seq<Option<Relay>>) {
    exists i :: 0 <= i < |exclude| && Conflicts(r, exclude[i])
  }

  method ExcludedBy(r: Relay, exclude: seq<Option<Relay>>) returns (out: bool)
    ensures out <==> Excluded(r, exclude)
  {
    for i := 0 to |exclude|
      invariant forall j :: 0 <= j < i ==> !Conflicts(r, exclude[j])
    {
      if exclude[i].None? {
        continue;
      }
      if r.identity == exclude[i].value.identity {
        return true;
      }
      if SameSlash16(r.ip, exclude[i].value.ip) {
        return true;
      }
    }
    return false;
  }

  /** A relay's share of the draw: its weight, or nothing when it may not be picked. */
  function Share(q: Query, r: Relay): (w: nat) {
    if !BaseEligible(r) || !Eligible(q.position, r) || Excluded(r, q.exclude) then 0
    else
      var w := WeightedBw(q.weights, r, WeightKey(q.position, r));
      if w <= 0 then 0 else w
  }

  /** The shares of all relays, in consensus order. */
  function Shares(q: Query, routers: seq<Relay>): (ws: seq<nat>)
    ensures |ws| == |routers| && forall i :: 0 <= i < |routers| ==> ws[i] == Share(q, routers[i])
  {
    seq(|routers|, i requires 0 <= i < |routers| => Share(q, routers[i]))
  }

  /* ----- Shares laid end to end ----- */

  function Sum(ws: seq<nat>): (s: nat) {
    if ws == [] then 0 else Sum(ws[..|ws| - 1]) + ws[|ws| - 1]
  }

  /** The draw `pick` falls in the stretch of index `i`. */
  predicate Lands(ws: seq<nat>, i: nat, pick: int)
    requires i < |ws|
  {
    Sum(ws[..i]) <= pick < Sum(ws[..i]) + ws[i]
  }

  lemma SumNext(ws: seq<nat>, i: nat)
    requires i < |ws|
    ensures Sum(ws[..i + 1]) == Sum(ws[..i]) + ws[i]
  {
    assert ws[..i + 1][..i] == ws[..i];
  }

  lemma {:induction false} SumMonotone(ws: seq<nat>, i: nat, j: nat)
    requires i <= j <= |ws|
    ensures Sum(ws[..i]) <= Sum(ws[..j])
    decreases j - i
  {
    if i == j {
    } else {
      SumMonotone(ws, i, j - 1);
      SumNext(ws, j - 1);
    }
  }

  lemma StretchInside(ws: seq<nat>, i: nat)
    requires i < |ws|
    ensures Sum(ws[..i]) + ws[i] <= Sum(ws)
  {
    SumNext(ws, i);
    SumMonotone(ws, i + 1, |ws|);
    assert ws[..|ws|] == ws;
  }

  lemma LandsOnce(ws: seq<nat>, i: nat, j: nat, pick: int)
    requires i < |ws| && j < |ws| && Lands(ws, i, pick) && Lands(ws, j, pick)
    ensures i == j
  {
    SumNext(ws, i);
    SumNext(ws, j);
    if i < j {
      SumMonotone(ws, i + 1, j);
    } else if j < i {
      SumMonotone(ws, j + 1, i);
    }
  }

  lemma {:induction false} LandsSomewhere(ws: seq<nat>, n: nat, pick: nat) returns (i: nat)
    requires n <= |ws| && pick < Sum(ws[..n])
    ensures i < n && Lands(ws, i, pick)
    decreases n
  {
    SumNext(ws, n - 1);
    if Sum(ws[..n - 1]) <= pick {
      i := n - 1;
    } else {
      i := LandsSomewhere(ws, n - 1, pick);
    }
  }

  lemma {:induction false} SumZero(ws: seq<nat>)
    ensures Sum(ws) == 0 <==> forall i :: 0 <= i < |ws| ==> ws[i] == 0
  {
    if ws == [] {
    } else {
      var n := |ws| - 1;
      SumZero(ws[..n]);
      assert forall i :: 0 <= i < n ==> ws[..n][i] == ws[i];
    }
  }

  function Interval(lo: int, n: nat): (s: set<int>) {
    if n == 0 then {} else Interval(lo, n - 1) + {lo + n - 1}
  }

  lemma {:induction false} IntervalSize(lo: int, n: nat)
    ensures |Interval(lo, n)| == n && forall k :: k in Interval(lo, n) <==> lo <= k < lo + n
  {
    if n == 0 {
    } else {
      IntervalSize(lo, n - 1);
    }
  }

  /** The draws in [0, total) that pick index `i`. */
  function Draws(ws: seq<nat>, i: nat): (s: set<int>)
    requires i < |ws|
  {
    set k | 0 <= k < Sum(ws) && Lands(ws, i, k)
  }

  lemma DrawsSize(ws: seq<nat>, i: nat)
    requires i < |ws|
    ensures |Draws(ws, i)| == ws[i]
  {
    StretchInside(ws, i);
    IntervalSize(Sum(ws[..i]), ws[i]);
    assert Draws(ws, i) == Interval(Sum(ws[..i]), ws[i]);
  }

  /* ----- Selection is exact ----- */

  /** Each relay is picked by exactly as many draws as its share. */
  lemma ExactWeights(q: Query, routers: seq<Relay>, i: nat)
    requires i < |routers|
    ensures |Draws(Shares(q, routers), i)| == Share(q, routers[i])
  {
    DrawsSize(Shares(q, routers), i);
  }

  /** Every draw in [0, total) picks exactly one relay. */
  lemma DrawsPartition(q: Query, routers: seq<Relay>, pick: nat) returns (i: nat)
    requires pick < Sum(Shares(q, routers))
    ensures i < |routers| && pick in Draws(Shares(q, routers), i)
    ensures forall j :: 0 <= j < |routers| && pick in Draws(Shares(q, routers), j) ==> j == i
  {
    var ws := Shares(q, routers);
    assert ws[..|ws|] == ws;
    i := LandsSomewhere(ws, |ws|, pick);
    forall j | 0 <= j < |routers| && pick in Draws(ws, j)
      ensures j == i
    {
      LandsOnce(ws, i, j, pick);
    }
  }

  /** A relay that some draw picks is eligible, has positive weight and conflicts with none of the
      excluded. */
  lemma PickIsSound(q: Query, routers: seq<Relay>, i: nat, pick: int)
    requires i < |routers| && Lands(Shares(q, routers), i, pick)
    ensures BaseEligible(routers[i]) && Eligible(q.position, routers[i])
    ensures WeightedBw(q.weights, routers[i], WeightKey(q.position, routers[i])) > 0
    ensures forall k :: 0 <= k < |q.exclude| ==> !Conflicts(routers[i], q.exclude[k])
  {
  }

  /** The two are different relays with different first two octets of their IPv4 addresses. */
  predicate Unlike(r: Relay, e: Relay) {
    && e.identity != r.identity
    && !(r.ip.Some? && e.ip.Some? && r.ip.value.a == e.ip.value.a && r.ip.value.b == e.ip.value.b)
  }

  /** No excluded relay, nil entries aside, is the same relay or shares the /16. */
  ghost predicate Apart(r: Relay, exclude: seq<Option<Relay>>) {
    forall k :: 0 <= k < |exclude| && exclude[k].Some? ==> Unlike(r, exclude[k].value)
  }

  /** What every position asks of a relay. */
  predicate Usable(r: Relay) {
    {"Running", "Valid"} <= r.flags && r.bandwidth > 0 && r.microdescHash != ""
  }

  /** The bandwidth of a relay under a weight key; a missing weight counts as 10000. */
  function Scaled(q: Query, r: Relay, key: string): (w: int) {
    var p := r.bandwidth * (if key in q.weights then q.weights[key] else 10000);
    if p >= 0 then p / 10000 else 0
  }

  /** SelectGuard: a relay has a share exactly if it is usable, has the flags Guard, Fast and Stable and
      is apart from the excluded ones; the weight is Wgd for exits and Wgg for others. */
  lemma GuardShare(q: Query, r: Relay)
    requires q.position.Guard?
    ensures Share(q, r) ==
      if Usable(r) && {"Guard", "Fast", "Stable"} <= r.flags && Apart(r, q.exclude)
      then Scaled(q, r, if "Exit" in r.flags then "Wgd" else "Wgg") else 0
  {
    ApartIff(r, q.exclude);
  }

  /** SelectExit: Exit and Fast and not BadExit, and allowed by the caller; Wed for guards, else Wee. */
  lemma ExitShare(q: Query, r: Relay)
    requires q.position.Exit?
    ensures Share(q, r) ==
      if Usable(r) && {"Exit", "Fast"} <= r.flags && "BadExit" !in r.flags && Apart(r, q.exclude)
         && (q.position.allow.Some? ==> q.position.allow.value(r))
      then Scaled(q, r, if "Guard" in r.flags then "Wed" else "Wee") else 0
  {
    ApartIff(r, q.exclude);
  }

  /** SelectMiddle asks for Fast, SelectDirCache for Fast and V2Dir; the weight key goes by Guard and
      Exit. */
  lemma MiddleShare(q: Query, r: Relay)
    requires q.position.Middle? || q.position.DirCache?
    ensures Share(q, r) ==
      if Usable(r) && "Fast" in r.flags && (q.position.DirCache? ==> "V2Dir" in r.flags) && Apart(r, q.exclude)
      then
        Scaled(q, r, if {"Guard", "Exit"} <= r.flags then "Wmd" else if "Guard" in r.flags then "Wmg"
                     else if "Exit" in r.flags then "Wme" else "Wmm")
      else 0
  {
    ApartIff(r, q.exclude);
  }

  lemma ApartIff(r: Relay, exclude: seq<Option<Relay>>)
    ensures Apart(r, exclude) <==> !Excluded(r, exclude)
  {
    if !Apart(r, exclude) {
      var k :| 0 <= k < |exclude| && exclude[k].Some? && !Unlike(r, exclude[k].value);
      assert Conflicts(r, exclude[k]);
    }
  }

  /* ----- 64-bit arithmetic ----- */

  const TWO63 := 0x8000_0000_0000_0000
  const TWO64 := 0x1_0000_0000_0000_0000

  /** The value of x in 64-bit two's complement. */
  function Wrap64(x: int): (r: int) {
    (x + TWO63) % TWO64 - TWO63
  }

  predicate In64(x: int) {
    -TWO63 <= x < TWO63
  }

  lemma WrapIff(x: int)
    ensures Wrap64(x) == x <==> In64(x)
    ensures In64(Wrap64(x))
  {
  }

  lemma WrapSum(x: int, y: int)
    ensures Wrap64(Wrap64(x) + y) == Wrap64(x + y)
  {
  }

  /** `total += w` over all shares, as the code computes it. */
  function Total64(ws: seq<nat>): (t: int) {
    if ws == [] then 0 else Wrap64(Total64(ws[..|ws| - 1]) + ws[|ws| - 1])
  }

  lemma {:induction false} TotalWraps(ws: seq<nat>)
    ensures Total64(ws) == Wrap64(Sum(ws))
  {
    if ws == [] {
    } else {
      TotalWraps(ws[..|ws| - 1]);
      WrapSum(Sum(ws[..|ws| - 1]), ws[|ws| - 1]);
    }
  }

  lemma QuotientWraps(x: int)
    ensures Quotient(Wrap64(x), 10000) == Quotient(x, 10000) <==> In64(x)
  {
    assert x >= TWO63 ==> Wrap64(x) <= x - TWO64;
    assert x < -TWO63 ==> Wrap64(x) >= x + TWO64;
  }

  /** The weight computed in 64 bits is exact exactly when the product of bandwidth and weight fits. */
  lemma WeightExactIff(weights: map<string, int>, r: Relay, key: string)
    ensures Quotient(Wrap64(Product(weights, r, key)), 10000) == WeightedBw(weights, r, key)
      <==> In64(Product(weights, r, key))
  {
    QuotientWraps(Product(weights, r, key));
  }

  /** The 64-bit total is the sum of the shares exactly when that sum is below 2^63. */
  lemma TotalExactIff(q: Query, routers: seq<Relay>)
    ensures Total64(Shares(q, routers)) == Sum(Shares(q, routers)) <==> Sum(Shares(q, routers)) < TWO63
  {
    TotalWraps(Shares(q, routers));
    WrapIff(Sum(Shares(q, routers)));
  }

  /* ----- The two loops ----- */

  datatype Cand = Cand(index: nat, w: nat)

  function CandSum(cands: seq<Cand>): (s: nat) {
    if cands == [] then 0 else CandSum(cands[..|cands| - 1]) + cands[|cands| - 1].w
  }

  /** Candidate `j` stands for a relay whose stretch begins where those before it end. */
  ghost predicate Tracks(ws: seq<nat>, cands: seq<Cand>, j: nat)
    requires j < |cands|
  {
    && cands[j].index < |ws| && cands[j].w == ws[cands[j].index]
    && Sum(ws[..cands[j].index]) == CandSum(cands[..j])
  }

  ghost predicate TracksAll(ws: seq<nat>, cands: seq<Cand>) {
    forall j :: 0 <= j < |cands| ==> Tracks(ws, cands, j)
  }

  lemma TracksSnoc(ws: seq<nat>, cands: seq<Cand>, c: Cand)
    requires TracksAll(ws, cands)
    requires c.index < |ws| && c.w == ws[c.index] && Sum(ws[..c.index]) == CandSum(cands)
    ensures TracksAll(ws, cands + [c])
    ensures CandSum(cands + [c]) == CandSum(cands) + c.w
  {
    var more := cands + [c];
    assert more[..|cands|] == cands;
    forall j | 0 <= j < |more|
      ensures Tracks(ws, more, j)
    {
      if j < |cands| {
        assert Tracks(ws, cands, j);
        assert more[..j] == cands[..j];
      }
    }
  }

  /** The checks the first loop makes on one relay; 0 when it is skipped. */
  method WeighOne(q: Query, r: Relay) returns (w: nat)
    ensures w == Share(q, r)
  {
    if !BaseEligible(r) || !Eligible(q.position, r) {
      return 0;
    }
    var out := ExcludedBy(r, q.exclude);
    if out {
      return 0;
    }
    var x := WeightedBw(q.weights, r, WeightKey(q.position, r));
    if x <= 0 {
      return 0;
    }
    return x;
  }

  /** The first loop of selectWeighted. */
  method Candidates(q: Query, routers: seq<Relay>) returns (cands: seq<Cand>, total: nat)
    ensures total == Sum(Shares(q, routers)) == CandSum(cands)
    ensures TracksAll(Shares(q, routers), cands)
  {
    ghost var ws := Shares(q, routers);
    assert ws[..|ws|] == ws;
    cands, total := [], 0;
    for i := 0 to |routers|
      invariant total == Sum(ws[..i]) == CandSum(cands)
      invariant TracksAll(ws, cands)
    {
      SumNext(ws, i);
      var w := WeighOne(q, routers[i]);
      if w > 0 {
        TracksSnoc(ws, cands, Cand(i, w));
        cands, total := cands + [Cand(i, w)], total + w;
      }
    }
  }

  /** The second loop: the fallback after it is never reached. */
  method Choose(cands: seq<Cand>, draw: nat, ghost ws: seq<nat>) returns (index: nat)
    requires TracksAll(ws, cands) && draw < CandSum(cands)
    ensures index < |ws| && Lands(ws, index, draw)
  {
    assert cands[..|cands|] == cands;
    var pick: int := draw;
    for j := 0 to |cands|
      invariant pick == draw - CandSum(cands[..j]) && pick >= 0
    {
      assert Tracks(ws, cands, j);
      if pick < cands[j].w {
        return cands[j].index;
      }
      assert cands[..j + 1][..j] == cands[..j];
      pick := pick - cands[j].w;
    }
    assert false;
  }

  /** selectWeighted: `rand` draws below its argument. No relay is found exactly when none has a
      positive share; otherwise the relay in whose stretch the draw falls is returned. */
  method SelectWeighted(q: Query, routers: seq<Relay>, rand: nat -> nat) returns (r: Option<nat>)
    requires forall n: nat :: n > 0 ==> rand(n) < n
    ensures r.None? <==> forall i :: 0 <= i < |routers| ==> Share(q, routers[i]) == 0
    ensures r.Some? ==>
      r.value < |routers| && rand(Sum(Shares(q, routers))) in Draws(Shares(q, routers), r.value)
  {
    ghost var ws := Shares(q, routers);
    SumZero(ws);
    var cands, total := Candidates(q, routers);
    if total == 0 {
      assert forall i :: 0 <= i < |routers| ==> Share(q, routers[i]) == ws[i];
      return None;
    }
    var index := Choose(cands, rand(total), ws);
    return Some(index);
  }
}
