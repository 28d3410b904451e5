/**
  What a database reads as: a copy-on-write state, a flat database and the base under a state against
  one reference network state; runs of operations on both, side by side.
 */
module Overlay {
  import opened Primitives
  import opened Event
  import opened Network
  import opened Store
  import opened DbState
  import opened Bytes
  import Undoing

  // ---------------------------------------------------------------------------------------------
  // Reading
  // ---------------------------------------------------------------------------------------------

  /** A stake is stored as eight bytes, least significant first. */
  function Decoded(b: Bin): Option<nat> {
    if |b| == 8 && forall i :: 0 <= i < 8 ==> 0 <= b[i] < 256 then Some(ReadLE(b)) else None
  }

  lemma {:induction false} DecodedBack(v: U64)
    ensures Decoded(WriteLE(v, 8)) == Some(v)
  {
    var k := 8;
    assert Power(8) == 0x1_0000_0000_0000_0000 by { assert Power(4) == 0x1_0000_0000; }
    ReadWrite(v, k);
  }

  /** A missing stake reads as zero. */
  function StakeRead(values: Values, id: U160): Option<nat> {
    if ValidatorStake(id) in values then Decoded(values[ValidatorStake(id)]) else Some(0)
  }

  ghost predicate ValuesRead(values: Values, n: Net) {
    && (forall key {:trigger Generic(key)} :: Lookup(values, Generic(key)) == Lookup(n.values, key))
    && (forall id {:trigger ValidatorKey(id)} :: Lookup(values, ValidatorKey(id)) == Lookup(n.validators, id))
    && (forall id {:trigger StakeRead(values, id)} :: StakeRead(values, id) == Some(StakeOf(n.stakes, id)))
  }

  /** The same events on every tick, in whatever order. */
  ghost predicate EventsRead(base: Buckets, added: PlotEvents, removed: PlotEvents, events: Events) {
    forall p, t, e {:trigger Visible(base, added, removed, p, t, e)} ::
      Visible(base, added, removed, p, t, e) <==> e in EventsAt(events, p, t)
  }

  /** The state reads as `n`. */
  ghost predicate Reads(state: DbState, n: Net)
    reads state
  {
    && state.Valid() && ValuesRead(state.Values(), n)
    && EventsRead(state.base, state.newEvents, state.delEvents, n.events)
  }

  /** A database with these entries reads as `n`. */
  ghost predicate BaseReads(values: Values, buckets: Buckets, n: Net) {
    && Sorted(buckets) && Contiguous(buckets) && ValuesRead(values, n)
    && forall p, t, e {:trigger Stored(buckets, p, t, e)} :: Stored(buckets, p, t, e) <==> e in EventsAt(n.events, p, t)
  }

  // ---------------------------------------------------------------------------------------------
  // One operation
  // ---------------------------------------------------------------------------------------------

  lemma {:induction false} ChangedMember(events: Events, p: PlotID, t: nat, e: RawEvent, add: bool, q: PlotID, u: nat, x: RawEvent)
    ensures x in EventsAt(ChangeEvents(events, {p}, t, e, add), q, u) <==>
            if add then x in EventsAt(events, q, u) || (q == p && u == t && x == e)
            else x in EventsAt(events, q, u) && !(q == p && u == t && x == e)
  {
    Undoing.ChangeEventsAt(events, {p}, t, e, add, q, u);
    ExcludingMembers(EventsAt(events, q, u), e, x);
  }

  /** Sets a value of the network state. */
  method PutValue(state: DbState, ghost n: Net, key: Bin, value: Bin)
    requires Reads(state, n) && state.delValues == {}
    modifies state`newValues, state`delValues
    ensures Reads(state, n.(values := n.values[key := value])) && state.delValues == {}
  {
    state.Put(Generic(key), value);
    forall id ensures StakeRead(state.Values(), id) == StakeRead(old(state.Values()), id) { }
  }

  method GetValue(state: DbState, ghost n: Net, key: Bin) returns (value: Option<Bin>)
    requires Reads(state, n)
    ensures value == Lookup(n.values, key)
  {
    assert Lookup(state.Values(), Generic(key)) == Lookup(n.values, key);
    var stored := state.Get(Generic(key));
    value := if stored.Ok? then Some(stored.value) else None;
  }

  /** Sets the public key of a validator. */
  method PutKey(state: DbState, ghost n: Net, id: U160, key: Bin)
    requires Reads(state, n) && state.delValues == {}
    modifies state`newValues, state`delValues
    ensures Reads(state, n.(validators := n.validators[id := key])) && state.delValues == {}
  {
    state.Put(ValidatorKey(id), key);
    forall x ensures StakeRead(state.Values(), x) == StakeRead(old(state.Values()), x) { }
  }

  /** Reads the public key of a validator. */
  method GetKey(state: DbState, ghost n: Net, id: U160) returns (key: Option<Bin>)
    requires Reads(state, n)
    ensures key == Lookup(n.validators, id)
  {
    assert Lookup(state.Values(), ValidatorKey(id)) == Lookup(n.validators, id);
    var stored := state.Get(ValidatorKey(id));
    key := if stored.Ok? then Some(stored.value) else None;
  }

  /** Reads the events of a plot from a tick on. */
  method GetEvents(state: DbState, ghost n: Net, p: PlotID, fromTick: nat) returns (events: RawEvents)
    requires Reads(state, n)
    ensures forall t: nat, e :: Has(events, t, e) <==> t >= fromTick && e in EventsAt(n.events, p, t)
  {
    events := state.GetPlotEvents(p, fromTick);
    forall t: nat, e ensures Has(events, t, e) <==> t >= fromTick && e in EventsAt(n.events, p, t) {
      assert state.Shows(p, t, e) <==> e in EventsAt(n.events, p, t);
    }
  }

  /** Reads a stake; a missing one is zero. */
  method GetStake(state: DbState, ghost n: Net, id: U160) returns (stake: U64)
    requires Reads(state, n)
    ensures stake == StakeOf(n.stakes, id)
  {
    assert StakeRead(state.Values(), id) == Some(StakeOf(n.stakes, id));
    var stored := state.Get(ValidatorStake(id));
    stake := if stored.Ok? then Decoded(stored.value).value else 0;
  }

  /** Sets a stake, of zero too. */
  method PutStakeOf(state: DbState, ghost n: Net, id: U160, stake: U64)
    requires Reads(state, n) && state.delValues == {}
    modifies state`newValues, state`delValues
    ensures Reads(state, n.(stakes := PutStake(n.stakes, id, stake))) && state.delValues == {}
  {
    DecodedBack(stake);
    state.Put(ValidatorStake(id), WriteLE(stake, 8));
    forall x ensures StakeRead(state.Values(), x) == Some(StakeOf(PutStake(n.stakes, id, stake), x)) {
      assert StakeRead(old(state.Values()), x) == Some(StakeOf(n.stakes, x));
    }
  }

  /** Adds an event that is not shown, or removes one that is. */
  method ChangeEvent(state: DbState, ghost n: Net, p: PlotID, t: nat, e: RawEvent, add: bool)
    requires Reads(state, n) && (e in EventsAt(n.events, p, t) <==> !add)
    modifies state`newEvents, state`delEvents
    ensures Reads(state, n.(events := ChangeEvents(n.events, {p}, t, e, add)))
  {
    assert state.Shows(p, t, e) <==> e in EventsAt(n.events, p, t);
    if add { state.AddEvent(p, t, e); } else { state.RemoveEvent(p, t, e); }
    forall q, u, x ensures state.Shows(q, u, x) <==> x in EventsAt(ChangeEvents(n.events, {p}, t, e, add), q, u) {
      ChangedMember(n.events, p, t, e, add, q, u, x);
    }
  }

  // ---------------------------------------------------------------------------------------------
  // Runs of operations
  // ---------------------------------------------------------------------------------------------

  datatype Op =
    | Put(key: Bin, value: Bin)
    | Add(plot: PlotID, tick: nat, event: RawEvent)
    | Drop(plot: PlotID, tick: nat, event: RawEvent)

  /** Events are added only when absent and removed only when present. */
  predicate Legal(events: Events, op: Op) {
    match op
    case Put(_, _) => true
    case Add(p, t, e) => e !in EventsAt(events, p, t)
    case Drop(p, t, e) => e in EventsAt(events, p, t)
  }

  function EventsAfter(events: Events, op: Op): Events {
    match op
    case Put(_, _) => events
    case Add(p, t, e) => ChangeEvents(events, {p}, t, e, true)
    case Drop(p, t, e) => ChangeEvents(events, {p}, t, e, false)
  }

  predicate LegalRun(events: Events, ops: seq<Op>)
    decreases |ops|
  {
    ops == [] || (Legal(events, ops[0]) && LegalRun(EventsAfter(events, ops[0]), ops[1..]))
  }

  /** The two databases answer every question alike. */
  ghost predicate Alike(state: DbState, flat: NetworkStore)
    reads state, flat
  {
    flat.Valid() && Reads(state, flat.Abs()) && state.delValues == {}
  }

  method StepEvent(state: DbState, flat: NetworkStore, p: PlotID, t: nat, e: RawEvent, add: bool)
    requires Alike(state, flat) && (e in EventsAt(flat.Abs().events, p, t) <==> !add)
    modifies state`newEvents, state`delEvents, flat`buckets
    ensures Alike(state, flat)
    ensures flat.Abs().events == ChangeEvents(old(flat.Abs().events), {p}, t, e, add)
  {
    ChangeEvent(state, flat.Abs(), p, t, e, add);
    if add { flat.AddEvent(p, t, e); } else { flat.RemoveEvent(p, t, e); }
  }

  /** One operation on both. */
  method Step(state: DbState, flat: NetworkStore, op: Op)
    requires Alike(state, flat) && Legal(flat.Abs().events, op)
    modifies state, flat
    ensures Alike(state, flat)
    ensures flat.Abs().events == EventsAfter(old(flat.Abs().events), op)
  {
    match op {
      case Put(key, value) =>
        PutValue(state, flat.Abs(), key, value);
        var _ := flat.SetValue(key, Some(value));
      case Add(p, t, e) => StepEvent(state, flat, p, t, e, true);
      case Drop(p, t, e) => StepEvent(state, flat, p, t, e, false);
    }
  }

  /** After every legal run over a base that reads as the flat database does, the copy-on-write state
      reads as the flat database that was given the same operations. */
  method Run(values: Values, buckets: Buckets, flat: NetworkStore, ops: seq<Op>) returns (state: DbState)
    requires flat.Valid() && BaseReads(values, buckets, flat.Abs()) && LegalRun(flat.Abs().events, ops)
    modifies flat
    ensures Alike(state, flat) && state.base == buckets && state.baseValues == values
  {
    state := Over(values, buckets, flat.Abs());
    for i := 0 to |ops|
      invariant fresh(state) && Alike(state, flat)
      invariant state.base == buckets && state.baseValues == values
      invariant LegalRun(flat.Abs().events, ops[i..])
    {
      assert ops[i..][0] == ops[i] && ops[i..][1..] == ops[i + 1..];
      Step(state, flat, ops[i]);
    }
  }

  /** A state over a base, before any change. */
  method Over(values: Values, buckets: Buckets, ghost n: Net) returns (state: DbState)
    requires BaseReads(values, buckets, n)
    ensures fresh(state) && Reads(state, n) && state.delValues == {}
    ensures state.base == buckets && state.baseValues == values
  {
    state := new DbState(values, buckets);
    forall p, t, e ensures state.Shows(p, t, e) <==> e in EventsAt(n.events, p, t) {
      assert Stored(buckets, p, t, e) <==> e in EventsAt(n.events, p, t);
    }
  }

  // ---------------------------------------------------------------------------------------------
  // Applying the compiled batch
  // ---------------------------------------------------------------------------------------------

  /** Some event of the plot in bucket `b` goes. */
  ghost predicate LosesIn(before: Events, after: Events, p: PlotID, b: nat) {
    exists t: nat, e :: BucketOf(t) == b && e in EventsAt(before, p, t) && e !in EventsAt(after, p, t)
  }

  /** Some event of the plot comes, in bucket `b` or a later one. */
  ghost predicate GainsFrom(before: Events, after: Events, p: PlotID, b: nat) {
    exists t: nat, e :: BucketOf(t) >= b && e in EventsAt(after, p, t) && e !in EventsAt(before, p, t)
  }

  /** No event that stays shares a bucket, other than the first, with one that goes while none comes to
      that bucket or a later one. */
  ghost predicate NoneDropped(before: Events, after: Events) {
    forall p, t: nat, e :: BucketOf(t) > 0 && e in EventsAt(before, p, t) && e in EventsAt(after, p, t) ==>
      !LosesIn(before, after, p, BucketOf(t)) || GainsFrom(before, after, p, BucketOf(t))
  }

  /** A diff is determined by what is read below and above it. */
  lemma {:induction false} DiffIs(base: Buckets, added: PlotEvents, removed: PlotEvents, before: Events, after: Events, p: PlotID, t: nat, e: RawEvent)
    requires Disjoint(base, added, removed) && EventsRead(base, added, removed, after)
    requires Stored(base, p, t, e) <==> e in EventsAt(before, p, t)
    ensures Listed(removed, p, t, e) <==> e in EventsAt(before, p, t) && e !in EventsAt(after, p, t)
    ensures Listed(added, p, t, e) <==> e in EventsAt(after, p, t) && e !in EventsAt(before, p, t)
  {
    assert Visible(base, added, removed, p, t, e) <==> e in EventsAt(after, p, t);
  }

  lemma {:induction false} TickListed(events: PlotEvents, p: PlotID, t: nat)
    requires TidyPlots(events)
    ensures t in ListsOf(events, p) <==> exists e :: Listed(events, p, t, e)
  {
    if t in ListsOf(events, p) {
      assert Tidy(events[p]);
      assert Listed(events, p, t, events[p][t][0]);
    }
  }

  lemma {:induction false} LateIs(base: Buckets, added: PlotEvents, removed: PlotEvents, before: Events, after: Events, p: PlotID, b: nat)
    requires TidyPlots(added) && TidyPlots(removed) && Disjoint(base, added, removed) && EventsRead(base, added, removed, after)
    requires forall q, t, e :: Stored(base, q, t, e) <==> e in EventsAt(before, q, t)
    ensures Late(ListsOf(added, p), ListsOf(removed, p), b) <==>
            b > 0 && LosesIn(before, after, p, b) && !GainsFrom(before, after, p, b)
  {
    forall t: nat, e
      ensures Listed(removed, p, t, e) <==> e in EventsAt(before, p, t) && e !in EventsAt(after, p, t)
      ensures Listed(added, p, t, e) <==> e in EventsAt(after, p, t) && e !in EventsAt(before, p, t)
    {
      DiffIs(base, added, removed, before, after, p, t, e);
    }
    forall t: nat ensures t in ListsOf(removed, p) <==> exists e :: Listed(removed, p, t, e) { TickListed(removed, p, t); }
    forall t: nat ensures t in ListsOf(added, p) <==> exists e :: Listed(added, p, t, e) { TickListed(added, p, t); }
  }

  lemma {:induction false} LeftoversAre(base: Buckets, added: PlotEvents, removed: PlotEvents, before: Events, after: Events)
    requires TidyPlots(added) && TidyPlots(removed) && Disjoint(base, added, removed) && EventsRead(base, added, removed, after)
    requires forall p, t, e :: Stored(base, p, t, e) <==> e in EventsAt(before, p, t)
    ensures NoLeftovers(base, added, removed) <==> NoneDropped(before, after)
  {
    forall p, t, e
      ensures Late(ListsOf(added, p), ListsOf(removed, p), BucketOf(t)) <==>
              BucketOf(t) > 0 && LosesIn(before, after, p, BucketOf(t)) && !GainsFrom(before, after, p, BucketOf(t))
      ensures Listed(removed, p, t, e) <==> e in EventsAt(before, p, t) && e !in EventsAt(after, p, t)
    {
      LateIs(base, added, removed, before, after, p, BucketOf(t));
      DiffIs(base, added, removed, before, after, p, t, e);
    }
  }

  /** The entries once the compiled batch was applied: they read as the state does exactly when no event
      is dropped with a late removal. */
  method Commit(state: DbState, ghost before: Net, ghost n: Net) returns (values: Values, buckets: Buckets)
    requires BaseReads(state.baseValues, state.base, before) && Reads(state, n)
    ensures Sorted(buckets) && Contiguous(buckets) && ValuesRead(values, n)
    ensures BaseReads(values, buckets, n) <==> NoneDropped(before.events, n.events)
  {
    var batch := state.Compile();
    values, buckets := (state.baseValues + batch.puts) - batch.dels, state.base + batch.buckets;
    CompiledReads(state.base, state.newEvents, state.delEvents, buckets, n.events);
    LeftoversAre(state.base, state.newEvents, state.delEvents, before.events, n.events);
  }

  lemma {:induction false} CompiledReads(base: Buckets, added: PlotEvents, removed: PlotEvents, buckets: Buckets, events: Events)
    requires TidyPlots(added) && EventsRead(base, added, removed, events)
    requires forall p, t, e :: Stored(buckets, p, t, e) <==> Compiled(base, added, removed, p, t, e)
    ensures (forall p, t, e :: Stored(buckets, p, t, e) <==> e in EventsAt(events, p, t)) <==> NoLeftovers(base, added, removed)
  {
    CompileKeepsIff(base, added, removed);
    forall p, t, e ensures (Compiled(base, added, removed, p, t, e) <==> Visible(base, added, removed, p, t, e)) <==>
                           (Stored(buckets, p, t, e) <==> e in EventsAt(events, p, t)) {
      assert Visible(base, added, removed, p, t, e) <==> e in EventsAt(events, p, t);
      assert Stored(buckets, p, t, e) <==> Compiled(base, added, removed, p, t, e);
    }
  }
}
