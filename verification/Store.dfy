/**
  The network part of the key-value store as the database lays it out, and the operations that
  change it. `Abs` reads the layout as a reference `Net`.
 */
module Store {
  import opened Primitives
  import opened Event
  import opened Network
  import Undoing

  /** Ticks are grouped a thousand (`PLOT_EVENT_BUCKET_SIZE`) to a bucket. */
  function BucketOf(tick: nat): nat {
    tick / 1000
  }

  lemma {:induction false} NextBucket(tick: nat)
    ensures BucketOf(tick + 1000) == BucketOf(tick) + 1
    ensures 1000 * BucketOf(tick) <= tick < 1000 * (BucketOf(tick) + 1)
  {
  }

  /** Bucketed events: one entry per plot and bucket number. */
  type Buckets = map<(PlotID, nat), RawEvents>

  /** Every bucket holds only ticks of its own range, tidily. */
  predicate Sorted(buckets: Buckets) {
    && (forall k, t :: k in buckets && t in buckets[k] ==> BucketOf(t) == k.1)
    && (forall k :: k in buckets ==> Tidy(buckets[k]))
  }

  /** No gaps: below every bucket of a plot there is the previous one, down to bucket 0. */
  predicate Contiguous(buckets: Buckets) {
    forall k :: k in buckets && k.1 > 0 ==> (k.0, k.1 - 1) in buckets
  }

  /** Contiguous but for the bucket just above the one being created. */
  predicate ContiguousAbove(buckets: Buckets, plot: PlotID, b: nat) {
    forall k :: k in buckets && k.1 > 0 && k != (plot, b + 1) ==> (k.0, k.1 - 1) in buckets
  }

  function StoredAt(buckets: Buckets, plot: PlotID, tick: nat): seq<RawEvent> {
    if (plot, BucketOf(tick)) in buckets then ListAt(buckets[(plot, BucketOf(tick))], tick) else []
  }

  ghost function EventKeys(buckets: Buckets): set<(PlotID, nat)> {
    set k, t | k in buckets && t in buckets[k] :: (k.0, t)
  }

  ghost function AbsEvents(buckets: Buckets): Events
    requires Sorted(buckets)
  {
    map q | q in EventKeys(buckets) :: StoredAt(buckets, q.0, q.1)
  }

  ghost function AbsStakes(stakes: Stakes): Stakes {
    map id | id in stakes && stakes[id] != 0 :: stakes[id]
  }

  lemma {:induction false} AbsEventsAt(buckets: Buckets, p: PlotID, t: nat)
    requires Sorted(buckets)
    ensures EventsAt(AbsEvents(buckets), p, t) == StoredAt(buckets, p, t)
    ensures NoEmptyTick(AbsEvents(buckets))
  {
    if StoredAt(buckets, p, t) != [] {
      assert (p, BucketOf(t)) in buckets && t in buckets[(p, BucketOf(t))];
    }
    forall q | q in EventKeys(buckets) ensures StoredAt(buckets, q.0, q.1) != [] {
      var k, u :| k in buckets && u in buckets[k] && q == (k.0, u);
    }
  }

  /** Layouts that store the same lists are the same reference events. */
  lemma {:induction false} AbsEventsEqual(buckets: Buckets, events: Events)
    requires Sorted(buckets) && NoEmptyTick(events)
    requires forall p, t :: StoredAt(buckets, p, t) == EventsAt(events, p, t)
    ensures AbsEvents(buckets) == events
  {
    forall p, t ensures EventsAt(AbsEvents(buckets), p, t) == EventsAt(events, p, t) {
      AbsEventsAt(buckets, p, t);
    }
    AbsEventsAt(buckets, (0, 0), 0);
    Undoing.EventsExtensional(AbsEvents(buckets), events);
  }

  /** The stored bucket, or a new one. */
  function Opened(buckets: Buckets, plot: PlotID, tick: nat): RawEvents {
    if (plot, BucketOf(tick)) in buckets then buckets[(plot, BucketOf(tick))] else map[]
  }

  /** Writing the bucket of `tick` back with that tick's list changed. */
  function Rewritten(buckets: Buckets, plot: PlotID, tick: nat, e: RawEvent, add: bool): Buckets {
    var was := Opened(buckets, plot, tick);
    buckets[(plot, BucketOf(tick)) := WithList(was, tick, ChangeList(ListAt(was, tick), e, add))]
  }

  lemma {:induction false} RewrittenSorted(buckets: Buckets, plot: PlotID, tick: nat, e: RawEvent, add: bool)
    requires Sorted(buckets)
    ensures Sorted(Rewritten(buckets, plot, tick, e, add))
  {
    WithListTidy(Opened(buckets, plot, tick), tick, e);
  }

  lemma {:induction false} RewrittenAt(buckets: Buckets, plot: PlotID, tick: nat, e: RawEvent, add: bool, p: PlotID, t: nat)
    ensures StoredAt(Rewritten(buckets, plot, tick, e, add), p, t)
         == if p == plot && t == tick then ChangeList(StoredAt(buckets, p, t), e, add) else StoredAt(buckets, p, t)
  {
  }

  lemma {:induction false} RewrittenAbs(buckets: Buckets, plot: PlotID, tick: nat, e: RawEvent, add: bool)
    requires Sorted(buckets)
    ensures Sorted(Rewritten(buckets, plot, tick, e, add))
    ensures AbsEvents(Rewritten(buckets, plot, tick, e, add)) == ChangeEvents(AbsEvents(buckets), {plot}, tick, e, add)
  {
    var buckets' := Rewritten(buckets, plot, tick, e, add);
    RewrittenSorted(buckets, plot, tick, e, add);
    var events := AbsEvents(buckets);
    var events' := ChangeEvents(events, {plot}, tick, e, add);
    forall p, t ensures StoredAt(buckets', p, t) == EventsAt(events', p, t) {
      RewrittenAt(buckets, plot, tick, e, add, p, t);
      AbsEventsAt(buckets, p, t);
      Undoing.ChangeEventsAt(events, {plot}, tick, e, add, p, t);
    }
    Undoing.ChangeEventsAt(events, {plot}, tick, e, add, plot, tick);
    AbsEventsEqual(buckets', events');
  }

  /** An empty bucket stores nothing. */
  lemma {:induction false} PutEmptyBucket(buckets: Buckets, k: (PlotID, nat))
    requires Sorted(buckets) && k !in buckets
    ensures Sorted(buckets[k := map[]]) && AbsEvents(buckets[k := map[]]) == AbsEvents(buckets)
  {
    var buckets' := buckets[k := map[]];
    forall p, t ensures StoredAt(buckets', p, t) == EventsAt(AbsEvents(buckets), p, t) {
      AbsEventsAt(buckets, p, t);
    }
    AbsEventsAt(buckets, k.0, 0);
    AbsEventsEqual(buckets', AbsEvents(buckets));
  }

  /** Empty buckets exist from `b + 1` to `top`; nothing else has changed since `before`. */
  ghost predicate Initialising(before: Buckets, buckets: Buckets, plot: PlotID, top: nat, b: nat) {
    && b <= top && Sorted(before) && Sorted(buckets) && AbsEvents(buckets) == AbsEvents(before)
    && ContiguousAbove(buckets, plot, b)
    && (if b < top then (plot, top) in buckets else Contiguous(buckets))
    && ((plot, top + 1) in buckets <==> (plot, top + 1) in before)
  }

  /** Buckets `0` to `top` of the plot are there, and no event and no later bucket has changed. */
  ghost predicate Initialised(before: Buckets, buckets: Buckets, plot: PlotID, top: nat) {
    && Sorted(before) && Sorted(buckets) && Contiguous(buckets) && AbsEvents(buckets) == AbsEvents(before)
    && (plot, top) in buckets && ((plot, top + 1) in buckets <==> (plot, top + 1) in before)
  }

  lemma {:induction false} PutContiguous(buckets: Buckets, plot: PlotID, b: nat)
    requires ContiguousAbove(buckets, plot, b)
    ensures var buckets' := buckets[(plot, b) := map[]];
            if b > 0 then ContiguousAbove(buckets', plot, b - 1) else Contiguous(buckets')
  {
  }

  lemma {:induction false} InitialiseOne(before: Buckets, buckets: Buckets, plot: PlotID, top: nat, b: nat)
    requires Initialising(before, buckets, plot, top, b) && (plot, b) !in buckets
    ensures var buckets' := buckets[(plot, b) := map[]];
            if b > 0 then Initialising(before, buckets', plot, top, b - 1) else Initialised(before, buckets', plot, top)
  {
    PutEmptyBucket(buckets, (plot, b));
    PutContiguous(buckets, plot, b);
  }

  /** At a bucket that exists, all lower ones exist too. */
  lemma {:induction false} InitialiseStops(before: Buckets, buckets: Buckets, plot: PlotID, top: nat, b: nat)
    requires Initialising(before, buckets, plot, top, b) && (plot, b) in buckets
    ensures Initialised(before, buckets, plot, top)
  {
  }

  lemma {:induction false} BelowIsStored(buckets: Buckets, plot: PlotID, b: nat, c: nat)
    requires Contiguous(buckets) && (plot, c) in buckets && b <= c
    ensures (plot, b) in buckets
    decreases c
  {
    if b < c { BelowIsStored(buckets, plot, b, c - 1); }
  }

  /** Visiting plots one at a time, in any order and even twice, changes all of them. */
  lemma {:induction false} ChangeEventsOneMore(events: Events, plots: set<PlotID>, p: PlotID, tick: nat, e: RawEvent, add: bool)
    requires NoEmptyTick(events)
    ensures ChangeEvents(ChangeEvents(events, plots, tick, e, add), {p}, tick, e, add)
         == ChangeEvents(events, plots + {p}, tick, e, add)
  {
    var one := ChangeEvents(events, plots, tick, e, add);
    var two := ChangeEvents(one, {p}, tick, e, add);
    var both := ChangeEvents(events, plots + {p}, tick, e, add);
    forall q, t ensures EventsAt(two, q, t) == EventsAt(both, q, t) {
      Undoing.ChangeEventsAt(events, plots, tick, e, add, q, t);
      Undoing.ChangeEventsAt(one, {p}, tick, e, add, q, t);
      Undoing.ChangeEventsAt(events, plots + {p}, tick, e, add, q, t);
      var list := EventsAt(events, q, t);
      ExcludingMembers(list, e, e);
      ExcludingAbsent(Excluding(list, e), e);
    }
    Undoing.ChangeEventsAt(one, {p}, tick, e, add, p, tick);
    Undoing.ChangeEventsAt(events, plots + {p}, tick, e, add, p, tick);
    Undoing.EventsExtensional(two, both);
  }

  /** Writing a stake, zero included. */
  lemma {:induction false} PutStakeAbs(stakes: Stakes, id: U160, delta: int)
    ensures AbsStakes(stakes[id := WrapU64(StakeOf(stakes, id) + delta)]) == AddStake(AbsStakes(stakes), id, delta)
  {
  }

  /** The sum does not depend on the order entries are taken in. */
  lemma {:induction false} TotalRemove(to: map<U160, U64>, k: U160)
    requires k in to
    ensures Total(to) == to[k] + Total(to - {k})
    decreases |to|
  {
    var j :| j in to && Total(to) == to[j] + Total(to - {j});
    if j != k {
      assert to.Keys == (to - {j}).Keys + {j};
      assert to.Keys == (to - {k}).Keys + {k};
      TotalRemove(to - {j}, k);
      TotalRemove(to - {k}, j);
      assert to - {j} - {k} == to - {k} - {j};
    }
  }

  lemma {:induction false} TotalAdd(to: map<U160, U64>, k: U160, v: U64)
    requires k !in to
    ensures Total(to[k := v]) == Total(to) + v
  {
    TotalRemove(to[k := v], k);
    assert to[k := v] - {k} == to;
  }

  lemma {:induction false} CreditOneMoreAt(stakes: Stakes, to: map<U160, U64>, k: U160, v: U64, undo: bool, x: U160)
    requires k !in to
    ensures StakeOf(AddStake(Credit(stakes, to, undo), k, Signed(undo, v)), x) == StakeOf(Credit(stakes, to[k := v], undo), x)
  {
    var credited := Credit(stakes, to, undo);
    Undoing.CreditAt(stakes, to, undo, x);
    Undoing.AddStakeAt(credited, k, Signed(undo, v), x);
    Undoing.CreditAt(stakes, to[k := v], undo, x);
  }

  lemma {:induction false} CreditOneMore(stakes: Stakes, to: map<U160, U64>, k: U160, v: U64, undo: bool)
    requires k !in to
    ensures AddStake(Credit(stakes, to, undo), k, Signed(undo, v)) == Credit(stakes, to[k := v], undo)
  {
    var one := AddStake(Credit(stakes, to, undo), k, Signed(undo, v));
    var both := Credit(stakes, to[k := v], undo);
    forall x ensures StakeOf(one, x) == StakeOf(both, x) {
      CreditOneMoreAt(stakes, to, k, v, undo, x);
    }
    Undoing.CreditAt(stakes, to, undo, k);
    Undoing.AddStakeAt(Credit(stakes, to, undo), k, Signed(undo, v), k);
    Undoing.CreditAt(stakes, to[k := v], undo, k);
    Undoing.StakesExtensional(one, both);
  }

  lemma {:induction false} CreditNone(stakes: Stakes, undo: bool)
    requires NoZeroStake(stakes)
    ensures Credit(stakes, map[], undo) == stakes
  {
    forall x ensures StakeOf(Credit(stakes, map[], undo), x) == StakeOf(stakes, x) {
      Undoing.CreditAt(stakes, map[], undo, x);
    }
    Undoing.CreditAt(stakes, map[], undo, 0);
    Undoing.StakesExtensional(Credit(stakes, map[], undo), stakes);
  }

  /** Adds a signed amount by adding or subtracting its magnitude. */
  method AddUnsigned(value: U64, amount: I64) returns (value': U64)
    ensures value' == WrapU64(value + amount)
  {
    if amount >= 0 {
      value' := WrapU64(value + amount);
    } else {
      var magnitude := WrapU64(0 - amount);
      value' := WrapU64(value - magnitude);
    }
  }

  /** Reads a stake (0 when missing), adds the signed amount in 64 bits and writes it back. */
  method ChangeStake(stakes: Stakes, id: U160, amount: I64) returns (stakes': Stakes)
    ensures AbsStakes(stakes') == AddStake(AbsStakes(stakes), id, amount)
  {
    var value := StakeOf(stakes, id);
    var value' := AddUnsigned(value, amount);
    PutStakeAbs(stakes, id, amount);
    stakes' := stakes[id := value'];
  }

  /** Pays one recipient, or takes the payment back, through a signed 64-bit amount. */
  method PayOne(stakes: Stakes, id: U160, amount: U64, undo: bool) returns (stakes': Stakes)
    ensures AbsStakes(stakes') == AddStake(AbsStakes(stakes), id, Signed(undo, amount))
  {
    var signed: int := WrapI64(amount);
    var delta := if undo then WrapI64(-signed) else signed;
    SignedWrap(undo, amount);
    AddStakeCongruent(AbsStakes(stakes), id, delta, Signed(undo, amount));
    stakes' := ChangeStake(stakes, id, delta);
  }

  /** Charges the sender the signed sum, or gives it back. */
  method ChargeSender(stakes: Stakes, from: U160, sum: I64, ghost total: int, undo: bool) returns (stakes': Stakes)
    requires sum == WrapI64(total)
    ensures AbsStakes(stakes') == AddStake(AbsStakes(stakes), from, Signed(!undo, total))
  {
    var signed: int := sum;
    var delta := if undo then signed else WrapI64(-signed);
    SignedWrap(!undo, total);
    AddStakeCongruent(AbsStakes(stakes), from, delta, Signed(!undo, total));
    stakes' := ChangeStake(stakes, from, delta);
  }

  /** Half-way through the recipients: all but those in `todo` are paid, `total` in all. */
  ghost predicate Paying(before: Stakes, stakes: Stakes, to: map<U160, U64>, todo: set<U160>, total: nat, undo: bool) {
    && todo <= to.Keys
    && AbsStakes(stakes) == Credit(AbsStakes(before), to - todo, undo)
    && total == Total(to - todo)
  }

  lemma {:induction false} PayingStarts(stakes: Stakes, to: map<U160, U64>, undo: bool)
    ensures Paying(stakes, stakes, to, to.Keys, 0, undo) && WrapI64(0) == 0
  {
    assert to - to.Keys == map[];
    CreditNone(AbsStakes(stakes), undo);
  }

  lemma {:induction false} PaidOne(before: Stakes, stakes: Stakes, stakes': Stakes, to: map<U160, U64>, todo: set<U160>, total: nat, undo: bool, id: U160)
    requires Paying(before, stakes, to, todo, total, undo) && id in todo
    requires AbsStakes(stakes') == AddStake(AbsStakes(stakes), id, Signed(undo, to[id]))
    ensures Paying(before, stakes', to, todo - {id}, total + to[id], undo)
  {
    CreditOneMore(AbsStakes(before), to - todo, id, to[id], undo);
    TotalAdd(to - todo, id, to[id]);
    assert to - (todo - {id}) == (to - todo)[id := to[id]];
  }

  method AddSigned(sum: I64, amount: U64, ghost total: nat) returns (sum': I64, ghost total': nat)
    requires sum == WrapI64(total)
    ensures total' == total + amount && sum' == WrapI64(total')
  {
    total' := total + amount;
    SumWrap(total, amount);
    sum' := WrapI64(sum + WrapI64(amount));
  }

  /** Pays the recipients in whatever order and sums what they got. */
  method PayAll(stakes: Stakes, to: map<U160, U64>, undo: bool) returns (stakes': Stakes, sum: I64)
    ensures AbsStakes(stakes') == Credit(AbsStakes(stakes), to, undo)
    ensures sum == WrapI64(Total(to))
  {
    ghost var total: nat := 0;
    PayingStarts(stakes, to, undo);
    stakes', sum := stakes, 0;
    var todo := to.Keys;
    while todo != {}
      invariant Paying(stakes, stakes', to, todo, total, undo)
      invariant sum == WrapI64(total)
      decreases |todo|
    {
      var id :| id in todo;
      ghost var paying := stakes';
      stakes' := PayOne(stakes', id, to[id], undo);
      PaidOne(stakes, paying, stakes', to, todo, total, undo, id);
      sum, total := AddSigned(sum, to[id], total);
      todo := todo - {id};
    }
    assert to - todo == to;
  }

  /** A transfer: the recipients are paid and the sender is charged, or the reverse when undoing. */
  method MoveStake(stakes: Stakes, from: U160, to: map<U160, U64>, undo: bool) returns (stakes': Stakes)
    ensures AbsStakes(stakes') == TransferStakes(AbsStakes(stakes), from, to, undo)
  {
    var sum;
    stakes', sum := PayAll(stakes, to, undo);
    stakes' := ChargeSender(stakes', from, sum, Total(to), undo);
  }

  /** Creates empty buckets below the one of `beforeTick`, down to the first that exists. */
  method InitEventBuckets(before: Buckets, plot: PlotID, beforeTick: nat) returns (buckets: Buckets)
    requires Sorted(before) && Contiguous(before)
    ensures Sorted(buckets) && Contiguous(buckets) && AbsEvents(buckets) == AbsEvents(before)
    ensures BucketOf(beforeTick) > 0 ==> (plot, BucketOf(beforeTick) - 1) in buckets
    ensures (plot, BucketOf(beforeTick)) in buckets <==> (plot, BucketOf(beforeTick)) in before
  {
    buckets := before;
    if beforeTick < 1000 { return; }
    var tick: nat := beforeTick - 1000;
    ghost var top := BucketOf(tick);
    NextBucket(tick);
    while true
      invariant Initialising(before, buckets, plot, top, BucketOf(tick))
      decreases tick
    {
      var k := (plot, BucketOf(tick));
      if k in buckets {
        InitialiseStops(before, buckets, plot, top, k.1);
        break;
      }
      InitialiseOne(before, buckets, plot, top, k.1);
      buckets := buckets[k := map[]];
      if tick < 1000 { break; }
      tick := tick - 1000;
      NextBucket(tick);
    }
    assert Initialised(before, buckets, plot, top);
  }

  lemma {:induction false} RewrittenContiguous(buckets: Buckets, plot: PlotID, tick: nat, e: RawEvent, add: bool)
    requires Contiguous(buckets) && (BucketOf(tick) > 0 ==> (plot, BucketOf(tick) - 1) in buckets)
    ensures Contiguous(Rewritten(buckets, plot, tick, e, add))
  {
  }

  /** Records an event on one plot, opening its bucket first when there is none. */
  method AddToBuckets(before: Buckets, plot: PlotID, tick: nat, event: RawEvent) returns (buckets: Buckets)
    requires Sorted(before) && Contiguous(before)
    ensures Sorted(buckets) && Contiguous(buckets)
    ensures AbsEvents(buckets) == ChangeEvents(AbsEvents(before), {plot}, tick, event, true)
  {
    var k := (plot, BucketOf(tick));
    buckets := before;
    if k !in buckets { buckets := InitEventBuckets(before, plot, tick); }
    var updated, _ := Event.AddEvent(Opened(before, plot, tick), tick, event);
    RewrittenAbs(buckets, plot, tick, event, true);
    RewrittenContiguous(buckets, plot, tick, event, true);
    assert Opened(buckets, plot, tick) == Opened(before, plot, tick);
    buckets := buckets[k := updated];
  }

  /** Removes an event from one plot; a missing one is only warned about. */
  method RemoveFromBuckets(before: Buckets, plot: PlotID, tick: nat, event: RawEvent) returns (buckets: Buckets)
    requires Sorted(before) && Contiguous(before)
    ensures Sorted(buckets) && Contiguous(buckets)
    ensures AbsEvents(buckets) == ChangeEvents(AbsEvents(before), {plot}, tick, event, false)
  {
    var k := (plot, BucketOf(tick));
    buckets := before;
    if k in buckets {
      var updated, removed := Event.RemoveEvent(buckets[k], tick, event);
      if removed {
        RewrittenAbs(before, plot, tick, event, false);
        RewrittenContiguous(before, plot, tick, event, false);
        buckets := buckets[k := updated];
      } else {
        AbsentStays(before, plot, tick, event);
      }
    } else {
      AbsentStays(before, plot, tick, event);
    }
  }

  lemma {:induction false} AbsentStays(buckets: Buckets, plot: PlotID, tick: nat, event: RawEvent)
    requires Sorted(buckets) && event !in StoredAt(buckets, plot, tick)
    ensures ChangeEvents(AbsEvents(buckets), {plot}, tick, event, false) == AbsEvents(buckets)
  {
    var events := AbsEvents(buckets);
    var events' := ChangeEvents(events, {plot}, tick, event, false);
    AbsEventsAt(buckets, plot, tick);
    ExcludingAbsent(EventsAt(events, plot, tick), event);
    forall p, t ensures EventsAt(events', p, t) == EventsAt(events, p, t) {
      Undoing.ChangeEventsAt(events, {plot}, tick, event, false, p, t);
    }
    Undoing.ChangeEventsAt(events, {plot}, tick, event, false, plot, tick);
    Undoing.EventsExtensional(events', events);
  }

  function Since(events: RawEvents, tick: nat): RawEvents {
    map t | t in events && t >= tick :: events[t]
  }

  /** The events of a plot at or after a tick, reading bucket after bucket until one is missing. */
  method CollectEvents(buckets: Buckets, plot: PlotID, fromTick: nat) returns (events: RawEvents)
    requires Sorted(buckets) && Contiguous(buckets)
    ensures forall t :: t in events <==> t >= fromTick && EventsAt(AbsEvents(buckets), plot, t) != []
    ensures forall t :: t in events ==> events[t] == EventsAt(AbsEvents(buckets), plot, t)
  {
    var tick: nat := fromTick;
    events := map[];
    ghost var lo, hi := BucketOf(fromTick), BucketOf(fromTick);
    while (plot, BucketOf(tick)) in buckets
      invariant lo <= hi == BucketOf(tick)
      invariant Collected(buckets, plot, lo, hi, events)
      decreases Ahead(buckets, plot, hi)
    {
      CollectBucket(buckets, plot, lo, hi, events);
      events := events + buckets[(plot, BucketOf(tick))];
      NextBucket(tick);
      tick, hi := tick + 1000, hi + 1;
    }
    CollectedAll(buckets, plot, fromTick, hi, events);
    events := Since(events, fromTick);
  }

  /** The network entries of the database, with the operations of the `Database` trait on them. */
  class NetworkStore {
    var values: map<Bin, Bin>
    var validators: map<U160, Bin>
    var stakes: Stakes
    var buckets: Buckets

    ghost predicate Valid()
      reads this
    {
      Sorted(buckets) && Contiguous(buckets)
    }

    ghost function Abs(): Net
      reads this
      requires Valid()
    {
      Net(values, validators, AbsStakes(stakes), AbsEvents(buckets))
    }

    constructor ()
      ensures Valid() && Abs() == EMPTY
    {
      values, validators, stakes, buckets := map[], map[], map[], map[];
    }

    lemma {:induction false} AbsNormal()
      requires Valid()
      ensures Normal(Abs())
    {
      AbsEventsAt(buckets, (0, 0), 0);
    }

    /** Sets or deletes an admin value and returns the one before. */
    method SetValue(key: Bin, value: Option<Bin>) returns (prior: Option<Bin>)
      requires Valid()
      modifies `values
      ensures prior == Lookup(old(values), key) && values == Network.SetValue(old(values), key, value)
    {
      prior := Lookup(values, key);
      match value {
        case Some(v) => values := values[key := v];
        case None =>
          if prior.Some? { values := values - {key}; }
          else { assert values - {key} == values; }
      }
    }

    method AddEvent(plot: PlotID, tick: nat, event: RawEvent)
      requires Valid()
      modifies `buckets
      ensures Valid()
      ensures AbsEvents(buckets) == ChangeEvents(old(AbsEvents(buckets)), {plot}, tick, event, true)
    {
      buckets := AddToBuckets(buckets, plot, tick, event);
    }

    method RemoveEvent(plot: PlotID, tick: nat, event: RawEvent)
      requires Valid()
      modifies `buckets
      ensures Valid()
      ensures AbsEvents(buckets) == ChangeEvents(old(AbsEvents(buckets)), {plot}, tick, event, false)
    {
      buckets := RemoveFromBuckets(buckets, plot, tick, event);
    }

    /** Adds or removes an event on the sending plot and then on every receiving one. */
    method ChangeEventsOn(from: PlotID, to: set<PlotID>, tick: nat, event: RawEvent, add: bool)
      requires Valid()
      modifies this
      ensures Valid()
      ensures Abs() == old(Abs()).(events := ChangeEvents(old(Abs()).events, {from} + to, tick, event, add))
    {
      AbsNormal();
      ghost var events := Abs().events;
      if add { AddEvent(from, tick, event); } else { RemoveEvent(from, tick, event); }
      var todo := to;
      assert {from} == {from} + (to - todo);
      while todo != {}
        invariant todo <= to && Valid()
        invariant Abs() == old(Abs()).(events := ChangeEvents(events, {from} + (to - todo), tick, event, add))
        decreases |todo|
      {
        var plot :| plot in todo;
        ChangeEventsOneMore(events, {from} + (to - todo), plot, tick, event, add);
        if add { AddEvent(plot, tick, event); } else { RemoveEvent(plot, tick, event); }
        assert {from} + (to - todo) + {plot} == {from} + (to - (todo - {plot}));
        todo := todo - {plot};
      }
      assert to - todo == to;
    }

    method ChangeValidatorStake(id: U160, amount: I64)
      requires Valid()
      modifies `stakes
      ensures AbsStakes(stakes) == AddStake(old(AbsStakes(stakes)), id, amount)
    {
      stakes := ChangeStake(stakes, id, amount);
    }

    /** Applies one change and returns the one that takes it back. */
    method ApplyOne(change: Change) returns (contra: Change)
      requires Valid()
      modifies this
      ensures Valid() && Abs() == ApplyChange(old(Abs()), change)
      ensures contra == ContraOf(old(Abs()), change)
    {
      contra := change;
      match change {
        case Admin(key, value) =>
          var prior := SetValue(key, value);
          contra := Admin(key, prior);
        case BlockReward(id) => ChangeValidatorStake(id, BLOCK_REWARD);
        case PlotEvent(from, to, tick, event) => ChangeEventsOn(from, to, tick, event, true);
        case NewValidator(id, key) => validators := validators[id := key];
        case Slash(id, amount) =>
          var delta := WrapI64(0 - WrapI64(amount));
          AddStakeCongruent(Abs().stakes, id, delta, 0 - amount);
          ChangeValidatorStake(id, delta);
        case Transfer(from, to) => stakes := MoveStake(stakes, from, to, false);
      }
    }

    /** Applies a mutation; the contra lists the reverse changes last first. */
    method Mutate(changes: seq<Change>) returns (contra: seq<Change>)
      requires Valid()
      modifies this
      ensures Valid() && Abs() == Apply(old(Abs()), changes)
      ensures contra == Contra(old(Abs()), changes)
    {
      contra := [];
      for i := 0 to |changes|
        invariant Valid() && Abs() == Apply(old(Abs()), changes[..i])
        invariant contra == Contra(old(Abs()), changes[..i])
      {
        assert changes[..i + 1][..i] == changes[..i];
        var reverse := ApplyOne(changes[i]);
        contra := [reverse] + contra;
      }
      assert changes[..|changes|] == changes;
    }

    /** Takes one change back. */
    method UndoOne(change: Change)
      requires Valid()
      modifies this
      ensures Valid() && Abs() == UndoChange(old(Abs()), change)
    {
      match change {
        case Admin(key, value) => var _ := SetValue(key, value);
        case BlockReward(id) => ChangeValidatorStake(id, 0 - BLOCK_REWARD);
        case PlotEvent(from, to, tick, event) => ChangeEventsOn(from, to, tick, event, false);
        case NewValidator(id, _) => var _ := SetValue(ValidatorKeyBin(id), None);
        case Slash(id, amount) =>
          AddStakeCongruent(Abs().stakes, id, WrapI64(amount), amount);
          ChangeValidatorStake(id, WrapI64(amount));
        case Transfer(from, to) => stakes := MoveStake(stakes, from, to, true);
      }
    }

    /** Takes a mutation back with its contra. */
    method UndoMutate(contra: seq<Change>)
      requires Valid()
      modifies this
      ensures Valid() && Abs() == Undo(old(Abs()), contra)
    {
      for i := 0 to |contra|
        invariant Valid() && Undo(Abs(), contra[i..]) == Undo(old(Abs()), contra)
      {
        assert contra[i..][0] == contra[i] && contra[i..][1..] == contra[i + 1..];
        UndoOne(contra[i]);
      }
    }

    /** Applying a mutation and undoing it leaves the store reading as before: the duplicate rule
        must have accepted it and it must introduce no validator. */
    method MutateAndBack(changes: seq<Change>)
      requires Valid() && Fresh(Abs(), changes)
      requires forall i :: 0 <= i < |changes| ==> !changes[i].NewValidator?
      modifies this
      ensures Valid() && Abs() == old(Abs())
    {
      AbsNormal();
      Undoing.UndoRestores(Abs(), changes);
      var contra := Mutate(changes);
      UndoMutate(contra);
    }

    method GetPlotEvents(plot: PlotID, fromTick: nat) returns (events: RawEvents)
      requires Valid()
      ensures forall t :: t in events <==> t >= fromTick && EventsAt(Abs().events, plot, t) != []
      ensures forall t :: t in events ==> events[t] == EventsAt(Abs().events, plot, t)
    {
      events := CollectEvents(buckets, plot, fromTick);
    }
  }

  /** The plot's buckets from number `b` on. */
  ghost function Ahead(buckets: Buckets, plot: PlotID, b: nat): set<(PlotID, nat)> {
    set k | k in buckets && k.0 == plot && k.1 >= b
  }

  /** The events stored in buckets `lo` up to, but not including, `hi`. */
  ghost predicate Collected(buckets: Buckets, plot: PlotID, lo: nat, hi: nat, events: RawEvents) {
    && (forall t :: t in events ==> lo <= BucketOf(t) < hi && events[t] == StoredAt(buckets, plot, t) != [])
    && (forall t :: lo <= BucketOf(t) < hi && t !in events ==> StoredAt(buckets, plot, t) == [])
  }

  lemma {:induction false} CollectBucket(buckets: Buckets, plot: PlotID, lo: nat, hi: nat, events: RawEvents)
    requires Sorted(buckets) && (plot, hi) in buckets && lo <= hi
    requires Collected(buckets, plot, lo, hi, events)
    ensures Collected(buckets, plot, lo, hi + 1, events + buckets[(plot, hi)])
    ensures Ahead(buckets, plot, hi + 1) < Ahead(buckets, plot, hi)
  {
    var bucket := buckets[(plot, hi)];
    assert forall t :: t in bucket ==> BucketOf(t) == hi;
    assert Tidy(bucket);
    assert (plot, hi) in Ahead(buckets, plot, hi) && (plot, hi) !in Ahead(buckets, plot, hi + 1);
  }

  /** Once a bucket is missing, nothing later is stored: the buckets are contiguous. */
  lemma {:induction false} CollectedAll(buckets: Buckets, plot: PlotID, fromTick: nat, hi: nat, events: RawEvents)
    requires Sorted(buckets) && Contiguous(buckets) && (plot, hi) !in buckets && hi >= BucketOf(fromTick)
    requires Collected(buckets, plot, BucketOf(fromTick), hi, events)
    ensures var read := Since(events, fromTick);
            && (forall t :: t in read <==> t >= fromTick && EventsAt(AbsEvents(buckets), plot, t) != [])
            && (forall t :: t in read ==> read[t] == EventsAt(AbsEvents(buckets), plot, t))
  {
    forall t: nat | t >= fromTick
      ensures t in events <==> EventsAt(AbsEvents(buckets), plot, t) != []
      ensures t in events ==> events[t] == EventsAt(AbsEvents(buckets), plot, t)
    {
      AbsEventsAt(buckets, plot, t);
      if (plot, BucketOf(t)) in buckets && BucketOf(t) >= hi {
        BelowIsStored(buckets, plot, hi, BucketOf(t));
      }
    }
  }

  lemma {:induction false} WrapShift(x: int, q: int)
    ensures WrapU64(x + 0x1_0000_0000_0000_0000 * q) == WrapU64(x)
  {
    assert x + 0x1_0000_0000_0000_0000 * q == 0x1_0000_0000_0000_0000 * (x / 0x1_0000_0000_0000_0000 + q) + x % 0x1_0000_0000_0000_0000;
  }

  /** Reading 64 bits as signed changes the number by a multiple of 2^64. */
  lemma {:induction false} WrapI64Quotient(x: int) returns (q: int)
    ensures WrapI64(x) == x + 0x1_0000_0000_0000_0000 * q
  {
    q := -((x + 0x8000_0000_0000_0000) / 0x1_0000_0000_0000_0000);
  }

  lemma {:induction false} SignedWrap(undo: bool, x: int)
    ensures var w: int := WrapI64(x);
            WrapU64(if undo then WrapI64(-w) else w) == WrapU64(Signed(undo, x))
  {
    var q := WrapI64Quotient(x);
    var w: int := WrapI64(x);
    WrapShift(x, q);
    if undo {
      var r := WrapI64Quotient(-w);
      assert WrapI64(-w) == -x + 0x1_0000_0000_0000_0000 * (r - q);
      WrapShift(-x, r - q);
    }
  }

  /** Adding in signed 64-bit steps is adding and wrapping once. */
  lemma {:induction false} SumWrap(x: int, y: int)
    ensures WrapI64(WrapI64(x) + WrapI64(y)) == WrapI64(x + y)
  {
    var q := WrapI64Quotient(x);
    var r := WrapI64Quotient(y);
    assert WrapI64(x) + WrapI64(y) == x + y + 0x1_0000_0000_0000_0000 * (q + r);
    WrapShift(x + y + 0x8000_0000_0000_0000, q + r);
  }

  lemma {:induction false} AddStakeCongruent(stakes: Stakes, id: U160, d: int, e: int)
    requires WrapU64(d) == WrapU64(e)
    ensures AddStake(stakes, id, d) == AddStake(stakes, id, e)
  {
    var q := d / 0x1_0000_0000_0000_0000 - e / 0x1_0000_0000_0000_0000;
    assert d == e + 0x1_0000_0000_0000_0000 * q;
    WrapShift(StakeOf(stakes, id) + e, q);
  }
}
