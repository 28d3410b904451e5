/**
  The network state: what applying mutations to the database produces, and undoing them takes back.

  `Net` is the reference state: a stake of zero is no entry and a tick without events is no entry.
  `Store` is the database's own layout: zero stakes are kept, and the events of a plot are stored in
  buckets of a thousand ticks. Each `Store` method is proved to do to `Abs()` what the reference
  function of the same name does to a `Net`.
 */
module Network {
  import opened Primitives
  import opened Event
  import Bytes

  const BLOCK_REWARD: U64 := 10

  datatype Change =
    | Admin(key: Bin, value: Option<Bin>)
    | BlockReward(id: U160)
    | PlotEvent(from: PlotID, to: set<PlotID>, tick: nat, event: RawEvent)
    | NewValidator(vid: U160, pubKey: Bin)  // `vid` is the hash of `pubKey`
    | Slash(id: U160, amount: U64)
    | Transfer(sender: U160, recipients: map<U160, U64>)
  {
    /** The plots a plot event is recorded on. */
    function Plots(): set<PlotID>
      requires PlotEvent?
    {
      {from} + to
    }
  }

  type Stakes = map<U160, U64>
  type Events = map<(PlotID, nat), seq<RawEvent>>

  datatype Net = Net(values: map<Bin, Bin>, validators: map<U160, Bin>, stakes: Stakes, events: Events)

  // ---------------------------------------------------------------------------------------------
  // Reference: values
  // ---------------------------------------------------------------------------------------------

  function Lookup<K, V>(m: map<K, V>, k: K): Option<V> {
    if k in m then Some(m[k]) else None
  }

  function SetValue(values: map<Bin, Bin>, key: Bin, value: Option<Bin>): map<Bin, Bin> {
    if value.Some? then values[key := value.value] else values - {key}
  }

  // ---------------------------------------------------------------------------------------------
  // Reference: stakes
  // ---------------------------------------------------------------------------------------------

  /** A missing stake reads as zero. */
  function StakeOf(stakes: Stakes, id: U160): U64 {
    if id in stakes then stakes[id] else 0
  }

  function PutStake(stakes: Stakes, id: U160, v: U64): Stakes {
    if v == 0 then stakes - {id} else stakes[id := v]
  }

  function AddStake(stakes: Stakes, id: U160, delta: int): Stakes {
    PutStake(stakes, id, WrapU64(StakeOf(stakes, id) + delta))
  }

  /** Forwards when applying, backwards when undoing. */
  function Signed(undo: bool, x: int): int {
    if undo then -x else x
  }

  /** The balance of one account once the recipients were paid (or the payments taken back). */
  function CreditedAt(stakes: Stakes, to: map<U160, U64>, undo: bool, id: U160): U64 {
    if id in to then WrapU64(StakeOf(stakes, id) + Signed(undo, to[id])) else StakeOf(stakes, id)
  }

  /** Pays, or takes back from, every recipient at once; no order of visiting them. */
  function Credit(stakes: Stakes, to: map<U160, U64>, undo: bool): Stakes {
    map id | id in stakes.Keys + to.Keys && CreditedAt(stakes, to, undo, id) != 0 :: CreditedAt(stakes, to, undo, id)
  }

  ghost function Total(to: map<U160, U64>): nat
    decreases |to|
  {
    if to == map[] then 0
    else
      var k :| k in to;
      assert |to - {k}| < |to| by { assert to.Keys == (to - {k}).Keys + {k}; }
      to[k] + Total(to - {k})
  }

  ghost function TransferStakes(stakes: Stakes, from: U160, to: map<U160, U64>, undo: bool): Stakes {
    AddStake(Credit(stakes, to, undo), from, Signed(!undo, Total(to)))
  }

  /** Stakes as a reference state holds them. */
  predicate NoZeroStake(stakes: Stakes) {
    forall id :: id in stakes ==> stakes[id] != 0
  }

  // ---------------------------------------------------------------------------------------------
  // Reference: events
  // ---------------------------------------------------------------------------------------------

  function EventsAt(events: Events, plot: PlotID, tick: nat): seq<RawEvent> {
    if (plot, tick) in events then events[(plot, tick)] else []
  }

  function ChangeList(list: seq<RawEvent>, e: RawEvent, add: bool): seq<RawEvent> {
    if add then Including(list, e) else Excluding(list, e)
  }

  /** What is recorded on `plot` at `t` once the event was added on (or removed from) all `plots`. */
  function ChangedAt(events: Events, plots: set<PlotID>, tick: nat, e: RawEvent, add: bool, plot: PlotID, t: nat)
    : seq<RawEvent>
  {
    if plot in plots && t == tick then ChangeList(EventsAt(events, plot, t), e, add) else EventsAt(events, plot, t)
  }

  /** Adds or removes an event on every one of the plots; no order of visiting them. */
  function ChangeEvents(events: Events, plots: set<PlotID>, tick: nat, e: RawEvent, add: bool): Events {
    map k | k in events.Keys + (set p | p in plots :: (p, tick)) && ChangedAt(events, plots, tick, e, add, k.0, k.1) != [] ::
      ChangedAt(events, plots, tick, e, add, k.0, k.1)
  }

  predicate NoEmptyTick(events: Events) {
    forall k :: k in events ==> events[k] != []
  }

  // ---------------------------------------------------------------------------------------------
  // Reference: mutations
  // ---------------------------------------------------------------------------------------------

  /** The state has neither zero stakes nor empty ticks. */
  predicate Normal(n: Net) {
    NoZeroStake(n.stakes) && NoEmptyTick(n.events)
  }

  const EMPTY: Net := Net(map[], map[], map[], map[])

  /** The bytes of the database key of a validator's public key: domain, kind and little-endian id. */
  function ValidatorKeyBin(id: U160): Bin {
    [0x6e, 0x56, 0x4b, 0x59] + Bytes.WriteLE(id, 20)
  }

  ghost function ApplyChange(n: Net, c: Change): Net {
    match c
    case Admin(key, value) => n.(values := SetValue(n.values, key, value))
    case BlockReward(id) => n.(stakes := AddStake(n.stakes, id, BLOCK_REWARD))
    case PlotEvent(from, to, tick, e) => n.(events := ChangeEvents(n.events, {from} + to, tick, e, true))
    case NewValidator(id, key) => n.(validators := n.validators[id := key])
    case Slash(id, amount) => n.(stakes := AddStake(n.stakes, id, 0 - amount))
    case Transfer(from, to) => n.(stakes := TransferStakes(n.stakes, from, to, false))
  }

  /** The change recorded for undoing `c`: only an admin change needs to remember the state. */
  function ContraOf(n: Net, c: Change): Change {
    match c
    case Admin(key, _) => Admin(key, Lookup(n.values, key))
    case _ => c
  }

  ghost function UndoChange(n: Net, c: Change): Net {
    match c
    case Admin(key, value) => n.(values := SetValue(n.values, key, value))
    case BlockReward(id) => n.(stakes := AddStake(n.stakes, id, 0 - BLOCK_REWARD))
    case PlotEvent(from, to, tick, e) => n.(events := ChangeEvents(n.events, {from} + to, tick, e, false))
    case NewValidator(id, _) => n.(values := SetValue(n.values, ValidatorKeyBin(id), None))
    case Slash(id, amount) => n.(stakes := AddStake(n.stakes, id, amount))
    case Transfer(from, to) => n.(stakes := TransferStakes(n.stakes, from, to, true))
  }

  /** `_mutate`, on the reference state. */
  ghost function Apply(n: Net, changes: seq<Change>): Net {
    if changes == [] then n
    else ApplyChange(Apply(n, changes[..|changes| - 1]), changes[|changes| - 1])
  }

  /** The contra mutation `_mutate` returns: last change first. */
  ghost function Contra(n: Net, changes: seq<Change>): seq<Change> {
    if changes == [] then []
    else
      var init := changes[..|changes| - 1];
      [ContraOf(Apply(n, init), changes[|changes| - 1])] + Contra(n, init)
  }

  /** `_undo_mutate`, on the reference state. */
  ghost function Undo(n: Net, contra: seq<Change>): Net
    decreases |contra|
  {
    if contra == [] then n
    else Undo(UndoChange(n, contra[0]), contra[1..])
  }

  /** `Duplicates`, declaratively: no event is in the state or recorded twice by the mutation on the
      same plot, and no validator is in the state or introduced twice. */
  predicate Fresh(n: Net, changes: seq<Change>) {
    && (forall i, p :: 0 <= i < |changes| && changes[i].PlotEvent? && p in changes[i].Plots() ==>
          changes[i].event !in EventsAt(n.events, p, changes[i].tick))
    && (forall i, j :: 0 <= i < j < |changes| ==> !Clash(changes[i], changes[j]))
    && (forall i :: 0 <= i < |changes| && changes[i].NewValidator? ==> changes[i].vid !in n.validators)
  }

  /** The same event on a common plot, or the same validator. */
  predicate Clash(c: Change, d: Change) {
    || (c.PlotEvent? && d.PlotEvent? && c.tick == d.tick && c.event == d.event && c.Plots() * d.Plots() != {})
    || (c.NewValidator? && d.NewValidator? && c.vid == d.vid)
  }
}
