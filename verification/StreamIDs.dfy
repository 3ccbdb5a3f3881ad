/** Stream-ID allocation (pkg/stream/manager.go:34-56, 102-128): a wrapping 16-bit cursor and a
    bounded search for an ID that is not in use. */
module StreamIDs {
  import opened Bytes
  import opened Options
  import opened RelayCells

  const STEPS := 0x1_0000
  const IDS := 0xFFFF

  /** The cursor after `c`: a 16-bit increment that skips 0. */
  function Next(c: u16): (n: u16)
    ensures n != 0
  {
    var n := (c + 1) % 0x1_0000;
    if n == 0 then 1 else n
  }

  /** The number of a stream object, in the order of creation. */
  type Serial = nat

  /** Which stream object each ID in use belongs to. */
  datatype Table = Table(streams: map<u16, Serial>, nextID: u16)

  const EMPTY := Table(map[], 1)

  datatype Found = Found(id: Option<u16>, table: Table)

  /** At most n rounds of the search, for the stream object `me`. */
  function Search(t: Table, n: nat, me: Serial): (f: Found)
    decreases n
  {
    if n == 0 then Found(None, t)
    else
      var moved := t.(nextID := Next(t.nextID));
      if t.nextID == 0 || t.nextID in t.streams then Search(moved, n - 1, me)
      else Found(Some(t.nextID), moved.(streams := t.streams[t.nextID := me]))
  }

  function Alloc(t: Table, me: Serial): (f: Found) {
    Search(t, STEPS, me)
  }

  function Remove(t: Table, id: u16): (r: Table) {
    t.(streams := t.streams - {id})
  }

  /** The ID k places after the cursor in the cycle 1..65535. */
  ghost function Ahead(c: u16, k: nat): (id: u16)
    requires c != 0
    ensures id != 0
  {
    (c - 1 + k) % IDS + 1
  }

  lemma AheadNext(c: u16, k: nat)
    requires c != 0
    ensures Ahead(c, 0) == c
    ensures Ahead(Next(c), k) == Ahead(c, k + 1)
  {
    if c == IDS {
      assert (IDS - 1 + (k + 1)) % IDS == k % IDS;
    }
  }

  /** The search returns the first free ID in cyclic order, if there is one within reach. */
  lemma {:induction false} SearchFindsFirst(t: Table, n: nat, me: Serial)
    requires t.nextID != 0
    ensures var f := Search(t, n, me);
      && f.table.nextID != 0
      && (f.id.None? ==> f.table.streams == t.streams && forall k :: 0 <= k < n ==> Ahead(t.nextID, k) in t.streams)
      && (f.id.Some? ==>
            && f.id.value != 0 && f.id.value !in t.streams
            && f.table.streams == t.streams[f.id.value := me]
            && f.table.nextID == Next(f.id.value)
            && exists k :: 0 <= k < n && FirstFree(t, f.id.value, k))
    decreases n
  {
    if n == 0 {
    } else {
      AheadNext(t.nextID, 0);
      if t.nextID !in t.streams {
        assert FirstFree(t, t.nextID, 0);
      } else {
        var moved := t.(nextID := Next(t.nextID));
        SearchFindsFirst(moved, n - 1, me);
        var f := Search(moved, n - 1, me);
        assert Search(t, n, me) == f;
        if f.id.None? {
          forall k | 0 <= k < n
            ensures Ahead(t.nextID, k) in t.streams
          {
            if k > 0 {
              AheadNext(t.nextID, k - 1);
              assert Ahead(moved.nextID, k - 1) in t.streams;
            }
          }
        } else {
          var k :| 0 <= k < n - 1 && FirstFree(moved, f.id.value, k);
          FirstFreeLater(t, f.id.value, k);
        }
      }
    }
  }

  /** `id` is the first free ID from the cursor on, k places ahead. */
  ghost predicate FirstFree(t: Table, id: u16, k: nat)
    requires t.nextID != 0
  {
    id == Ahead(t.nextID, k) && forall j :: 0 <= j < k ==> Ahead(t.nextID, j) in t.streams
  }

  lemma FirstFreeLater(t: Table, id: u16, k: nat)
    requires t.nextID != 0 && t.nextID in t.streams
    requires FirstFree(t.(nextID := Next(t.nextID)), id, k)
    ensures FirstFree(t, id, k + 1)
  {
    AheadNext(t.nextID, k);
    forall j | 0 <= j < k + 1
      ensures Ahead(t.nextID, j) in t.streams
    {
      if j == 0 {
        AheadNext(t.nextID, 0);
      } else {
        AheadNext(t.nextID, j - 1);
        assert Ahead(Next(t.nextID), j - 1) in t.streams;
      }
    }
  }

  /** Every ID comes up within 65535 places of the cursor. */
  lemma AheadCovers(c: u16, id: u16) returns (k: nat)
    requires c != 0 && id != 0
    ensures k < IDS && Ahead(c, k) == id
  {
    k := if id >= c then id - c else id - c + IDS;
  }

  /** Completeness: the search fails exactly when all 65535 IDs are in use, and otherwise yields a
      nonzero ID that was free. */
  lemma AllocComplete(t: Table, me: Serial)
    requires t.nextID != 0
    ensures var f := Alloc(t, me);
      && (f.id.None? <==> forall id: u16 :: id != 0 ==> id in t.streams)
      && (f.id.Some? ==> f.id.value != 0 && f.id.value !in t.streams)
  {
    SearchFindsFirst(t, STEPS, me);
    if Alloc(t, me).id.None? {
      forall id: u16 | id != 0
        ensures id in t.streams
      {
        var k := AheadCovers(t.nextID, id);
        assert Ahead(t.nextID, k) in t.streams;
      }
    }
  }

  /* ----- Runs ----- */

  /** A stream object: its ID, whether it has been ended by the exit (onEnd removes the ID) and
      whether its owner is done with it (Close, or a failed begin, removes the ID again). */
  datatype Str = Str(id: u16, ended: bool, released: bool)

  datatype State = State(table: Table, strs: seq<Str>)

  const START := State(EMPTY, [])

  /** `EndCell` is a RELAY_END for an ID, `Release` the one Close of a stream or the clean-up of its
      failed begin. */
  datatype Op = Open | EndCell(id: u16) | Release(who: Serial)

  predicate Can(s: State, op: Op) {
    match op
    case Open => true
    case EndCell(id) => id in s.table.streams && s.table.streams[id] < |s.strs|
    case Release(who) => who < |s.strs| && !s.strs[who].released
  }

  function Do(s: State, op: Op): (r: State)
    requires Can(s, op)
  {
    match op
    case Open =>
      var f := Alloc(s.table, |s.strs|);
      if f.id.None? then s.(table := f.table) else State(f.table, s.strs + [Str(f.id.value, false, false)])
    case EndCell(id) =>
      var who := s.table.streams[id];
      State(Remove(s.table, id), s.strs[who := s.strs[who].(ended := true)])
    case Release(who) =>
      State(Remove(s.table, s.strs[who].id), s.strs[who := s.strs[who].(released := true)])
  }

  function Step(s: State, op: Op): (r: State) {
    if Can(s, op) then Do(s, op) else s
  }

  function Run(s: State, ops: seq<Op>): (r: State)
    decreases |ops|
  {
    if ops == [] then s else Step(Run(s, ops[..|ops| - 1]), ops[|ops| - 1])
  }

  /** A stream that neither side has finished with. */
  predicate Live(str: Str) {
    !str.ended && !str.released
  }

  /** No stream opened after `who` has its ID. */
  ghost predicate Latest(strs: seq<Str>, who: Serial)
    requires who < |strs|
  {
    forall k :: who < k < |strs| ==> strs[k].id != strs[who].id
  }

  /** A table entry is the latest stream with the ID, and neither side has finished with it. */
  ghost predicate EntryOk(s: State, id: u16)
    requires id in s.table.streams
  {
    var who := s.table.streams[id];
    id != 0 && who < |s.strs| && s.strs[who].id == id && Live(s.strs[who]) && Latest(s.strs, who)
  }

  ghost predicate Good(s: State) {
    s.table.nextID != 0 && forall id :: id in s.table.streams ==> EntryOk(s, id)
  }

  lemma StepGood(s: State, op: Op)
    requires Good(s) && Can(s, op)
    ensures Good(Do(s, op))
  {
    var r := Do(s, op);
    if op.Open? {
      SearchFindsFirst(s.table, STEPS, |s.strs|);
    }
    forall id | id in r.table.streams
      ensures EntryOk(r, id)
    {
      if id in s.table.streams {
        assert EntryOk(s, id);
      }
    }
  }

  /** Over every run of opens, ENDs and releases the cursor is nonzero, every ID in use is nonzero
      and belongs to a live stream that has this ID, and the next open obeys AllocComplete. */
  lemma {:induction false} RunGood(ops: seq<Op>)
    ensures Good(Run(START, ops))
    ensures var t := Run(START, ops).table;
      Alloc(t, |Run(START, ops).strs|).id.None? <==> forall id: u16 :: id != 0 ==> id in t.streams
    decreases |ops|
  {
    if ops == [] {
    } else {
      var s, op := Run(START, ops[..|ops| - 1]), ops[|ops| - 1];
      RunGood(ops[..|ops| - 1]);
      if Can(s, op) {
        StepGood(s, op);
      }
    }
    AllocComplete(Run(START, ops).table, |Run(START, ops).strs|);
  }

  /* ----- Whose entry a release removes ----- */

  /** The release of `who` takes the table entry of another stream, to which the RELAY_END that
      Close sends under the same ID then goes as well. */
  ghost predicate HitsAnother(s: State, who: Serial)
    requires Can(s, Release(who))
  {
    exists other :: other != who && Listed(s, other) && !Listed(Do(s, Release(who)), other)
  }

  /** The stream gets the cells that arrive for its ID. */
  ghost predicate Listed(s: State, who: Serial) {
    who < |s.strs| && s.strs[who].id in s.table.streams && s.table.streams[s.strs[who].id] == who
  }

  /** A release takes another stream's entry exactly when its ID is in use by then and not its own:
      the test that `remove` would need to make. */
  lemma HitsIff(s: State, who: Serial)
    requires Good(s) && Can(s, Release(who))
    ensures HitsAnother(s, who) <==> s.strs[who].id in s.table.streams && !Listed(s, who)
  {
    var id := s.strs[who].id;
    if id in s.table.streams && !Listed(s, who) {
      assert EntryOk(s, id);
      assert Listed(s, s.table.streams[id]);
    }
  }

  /** A stream hit by a release is live, and its ID was issued to it after it had been `who`'s: a
      release whose ID has not been issued again hits nobody. */
  lemma VictimIsLive(s: State, who: Serial, other: Serial)
    requires Good(s) && Can(s, Release(who)) && other != who
    requires Listed(s, other) && !Listed(Do(s, Release(who)), other)
    ensures Live(s.strs[other]) && s.strs[other].id == s.strs[who].id && !Listed(s, who)
    ensures who < other && !Latest(s.strs, who)
  {
    assert EntryOk(s, s.strs[other].id);
  }

  /** Until the cursor has wrapped, stream k has ID k + 1 and every live stream is listed. */
  ghost predicate Unwrapped(s: State) {
    && |s.strs| <= IDS
    && (|s.strs| < IDS ==> s.table.nextID == |s.strs| + 1)
    && forall k :: 0 <= k < |s.strs| ==> s.strs[k].id == k + 1 && (Live(s.strs[k]) ==> Listed(s, k))
  }

  lemma OpenUnwrapped(s: State)
    requires Good(s) && Unwrapped(s) && |s.strs| < IDS
    ensures Unwrapped(Do(s, Open))
  {
    var c := s.table.nextID;
    assert c in s.table.streams ==> EntryOk(s, c);
    assert Alloc(s.table, |s.strs|).id == Some(c);
    var r := Do(s, Open);
    forall k | 0 <= k < |r.strs|
      ensures r.strs[k].id == k + 1 && (Live(r.strs[k]) ==> Listed(r, k))
    {
      assert k < |s.strs| ==> r.strs[k] == s.strs[k];
    }
  }

  lemma RemoveUnwrapped(s: State, op: Op)
    requires Good(s) && Unwrapped(s) && !op.Open? && Can(s, op)
    ensures Unwrapped(Do(s, op))
  {
    if op.EndCell? {
      assert EntryOk(s, op.id);
    }
  }

  lemma FullOpenUnwrapped(s: State)
    requires Good(s) && Unwrapped(s) && |s.strs| == IDS && |Do(s, Open).strs| <= IDS
    ensures Unwrapped(Do(s, Open))
  {
    SearchFindsFirst(s.table, STEPS, |s.strs|);
  }

  lemma StepGrows(s: State, op: Op)
    ensures |s.strs| <= |Step(s, op).strs|
  {
  }

  lemma StepUnwrapped(s: State, op: Op)
    requires Good(s) && Unwrapped(s) && |Step(s, op).strs| <= IDS
    ensures Unwrapped(Step(s, op))
  {
    if Can(s, op) {
      if !op.Open? {
        RemoveUnwrapped(s, op);
      } else if |s.strs| < IDS {
        OpenUnwrapped(s);
      } else {
        FullOpenUnwrapped(s);
      }
    }
  }

  lemma {:induction false} RunUnwrapped(ops: seq<Op>)
    requires |Run(START, ops).strs| <= IDS
    ensures Unwrapped(Run(START, ops))
    decreases |ops|
  {
    if ops == [] {
    } else {
      var n := |ops| - 1;
      RunGood(ops[..n]);
      StepGrows(Run(START, ops[..n]), ops[n]);
      RunUnwrapped(ops[..n]);
      StepUnwrapped(Run(START, ops[..n]), ops[n]);
    }
  }

  /** In every run that has opened at most 65535 streams, a release takes nobody else's entry. */
  lemma NoHitBeforeWrap(ops: seq<Op>, who: Serial)
    requires |Run(START, ops).strs| <= IDS && Can(Run(START, ops), Release(who))
    ensures !HitsAnother(Run(START, ops), who)
  {
    var s := Run(START, ops);
    RunGood(ops);
    RunUnwrapped(ops);
    HitsIff(s, who);
    var id := s.strs[who].id;
    if id in s.table.streams {
      assert EntryOk(s, id);
    }
  }

  /** n streams have been opened and ended, one after the other. */
  ghost predicate Cycled(s: State, n: nat) {
    && |s.strs| == n <= IDS && s.table.streams == map[]
    && s.table.nextID == (if n == IDS then 1 else n + 1)
    && forall k :: 0 <= k < n ==> s.strs[k] == Str(k + 1, true, false)
  }

  lemma RunSnoc(s: State, ops: seq<Op>, op: Op)
    ensures Run(s, ops + [op]) == Step(Run(s, ops), op)
  {
    assert (ops + [op])[..|ops|] == ops;
  }

  lemma {:induction false} CycleRun(n: nat) returns (ops: seq<Op>)
    requires n <= IDS
    ensures Cycled(Run(START, ops), n)
  {
    if n == 0 {
      ops := [];
    } else {
      var before := CycleRun(n - 1);
      ops := before + [Open] + [EndCell(n)];
      RunSnoc(START, before, Open);
      RunSnoc(START, before + [Open], EndCell(n));
      CycleOnce(Run(START, before), n);
    }
  }

  lemma CycleOnce(s: State, n: nat)
    requires 0 < n <= IDS && Cycled(s, n - 1)
    ensures Cycled(Step(Step(s, Open), EndCell(n)), n)
  {
    assert Alloc(s.table, n - 1) == Found(Some(n), Table(map[n := n - 1], Next(n)));
    var mid := Step(s, Open);
    assert mid.strs[n - 1] == Str(n, false, false);
    assert mid.table.streams - {n} == map[];
  }

  /** The 65536th stream gets the ID of the first; when the first, ended long ago, is closed, it is
      the other stream that loses its entry. */
  lemma LateCloseHits() returns (ops: seq<Op>)
    ensures var s := Run(START, ops); |s.strs| == IDS + 1 && Can(s, Release(0)) && HitsAnother(s, 0)
  {
    var before := CycleRun(IDS);
    ops := before + [Open];
    RunSnoc(START, before, Open);
    ReissueHits(Run(START, before), IDS);
    RunGood(ops);
  }

  lemma ReissueHits(s: State, n: nat)
    requires n == IDS && Cycled(s, n)
    ensures var r := Step(s, Open); |r.strs| == n + 1 && Can(r, Release(0)) && HitsAnother(r, 0)
  {
    assert Alloc(s.table, n) == Found(Some(1), Table(map[1 := n], 2));
    var r := Step(s, Open);
    assert r.strs[n] == Str(1, false, false) && r.strs[0] == Str(1, true, false);
    assert Listed(r, n) && !Listed(Do(r, Release(0)), n);
  }

  /** The manager's table, updated in place. */
  class Manager {
    var streams: map<u16, Serial>
    var nextID: u16

    ghost function View(): (t: Table)
      reads this
    {
      Table(streams, nextID)
    }

    constructor ()
      ensures View() == EMPTY
    {
      streams, nextID := map[], 1;
    }

    method NewStream(me: Serial) returns (id: Option<u16>)
      modifies this
      ensures Found(id, View()) == Alloc(old(View()), me)
    {
      var i := 0;
      while i < STEPS
        invariant i <= STEPS
        invariant Search(View(), STEPS - i, me) == Alloc(old(View()), me)
      {
        var candidate := nextID;
        nextID := (nextID + 1) % 0x1_0000;
        if nextID == 0 {
          nextID := 1;
        }
        i := i + 1;
        if candidate != 0 && candidate !in streams {
          streams := streams[candidate := me];
          return Some(candidate);
        }
      }
      return None;
    }

    method RemoveStream(id: u16)
      modifies this`streams
      ensures View() == Remove(old(View()), id)
    {
      streams := streams - {id};
    }
  }
}
