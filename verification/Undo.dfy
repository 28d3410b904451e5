/** Undoing a mutation with its contra: when, exactly, the network state comes back. */
module Undoing {
  import opened Primitives
  import opened Event
  import opened Network

  // ---------------------------------------------------------------------------------------------
  // Reading the reference state
  // ---------------------------------------------------------------------------------------------

  lemma {:induction false} AddStakeAt(stakes: Stakes, id: U160, delta: int, x: U160)
    ensures StakeOf(AddStake(stakes, id, delta), x)
         == (if x == id then WrapU64(StakeOf(stakes, x) + delta) else StakeOf(stakes, x))
    ensures NoZeroStake(stakes) ==> NoZeroStake(AddStake(stakes, id, delta))
  {
  }

  lemma {:induction false} CreditAt(stakes: Stakes, to: map<U160, U64>, undo: bool, x: U160)
    ensures StakeOf(Credit(stakes, to, undo), x) == CreditedAt(stakes, to, undo, x)
    ensures NoZeroStake(Credit(stakes, to, undo))
  {
  }

  /** Two reference stake tables with the same readings are the same table. */
  lemma {:induction false} StakesExtensional(a: Stakes, b: Stakes)
    requires NoZeroStake(a) && NoZeroStake(b)
    requires forall x :: StakeOf(a, x) == StakeOf(b, x)
    ensures a == b
  {
    forall x ensures x in a <==> x in b {
      assert StakeOf(a, x) == StakeOf(b, x);
    }
    forall x | x in a ensures a[x] == b[x] {
      assert StakeOf(a, x) == StakeOf(b, x);
    }
  }

  lemma {:induction false} ChangeEventsAt(events: Events, plots: set<PlotID>, tick: nat, e: RawEvent, add: bool, p: PlotID, t: nat)
    ensures EventsAt(ChangeEvents(events, plots, tick, e, add), p, t) == ChangedAt(events, plots, tick, e, add, p, t)
    ensures NoEmptyTick(ChangeEvents(events, plots, tick, e, add))
  {
  }

  lemma {:induction false} EventsExtensional(a: Events, b: Events)
    requires NoEmptyTick(a) && NoEmptyTick(b)
    requires forall p, t :: EventsAt(a, p, t) == EventsAt(b, p, t)
    ensures a == b
  {
    forall k ensures k in a <==> k in b {
      assert EventsAt(a, k.0, k.1) == EventsAt(b, k.0, k.1);
    }
    forall k | k in a ensures a[k] == b[k] {
      assert EventsAt(a, k.0, k.1) == EventsAt(b, k.0, k.1);
    }
  }

  // ---------------------------------------------------------------------------------------------
  // One change
  // ---------------------------------------------------------------------------------------------

  lemma {:induction false} WrapCancels(v: U64, d: int)
    ensures WrapU64(WrapU64(v + d) - d) == v
  {
  }

  lemma {:induction false} WrapTwice(v: int, d: int, e: int)
    ensures WrapU64(WrapU64(v + d) + e) == WrapU64(v + d + e)
  {
  }

  lemma {:induction false} AddStakeCancels(stakes: Stakes, id: U160, d: int)
    requires NoZeroStake(stakes)
    ensures AddStake(AddStake(stakes, id, d), id, -d) == stakes
  {
    var s1 := AddStake(stakes, id, d);
    var s2 := AddStake(s1, id, -d);
    forall x ensures StakeOf(s2, x) == StakeOf(stakes, x) {
      AddStakeAt(stakes, id, d, x);
      AddStakeAt(s1, id, -d, x);
      WrapCancels(StakeOf(stakes, x), d);
    }
    AddStakeAt(stakes, id, d, id);
    AddStakeAt(s1, id, -d, id);
    StakesExtensional(s2, stakes);
  }

  /** The net effect of a transfer on one account. */
  ghost function Gain(from: U160, to: map<U160, U64>, x: U160): int {
    StakeOf(to, x) - (if x == from then Total(to) else 0)
  }

  lemma {:induction false} CreditWrapped(stakes: Stakes, to: map<U160, U64>, undo: bool, x: U160)
    ensures StakeOf(Credit(stakes, to, undo), x) == WrapU64(StakeOf(stakes, x) + Signed(undo, StakeOf(to, x)))
  {
    CreditAt(stakes, to, undo, x);
  }

  lemma {:induction false} AddWrapped(stakes: Stakes, id: U160, delta: int, x: U160)
    ensures StakeOf(AddStake(stakes, id, delta), x) == WrapU64(StakeOf(stakes, x) + if x == id then delta else 0)
  {
    AddStakeAt(stakes, id, delta, x);
  }

  lemma {:induction false} TransferAt(stakes: Stakes, from: U160, to: map<U160, U64>, undo: bool, x: U160)
    ensures StakeOf(TransferStakes(stakes, from, to, undo), x) == WrapU64(StakeOf(stakes, x) + Signed(undo, Gain(from, to, x)))
    ensures NoZeroStake(TransferStakes(stakes, from, to, undo))
  {
    var credited, total := Credit(stakes, to, undo), Signed(!undo, Total(to));
    CreditAt(stakes, to, undo, x);
    AddStakeAt(credited, from, total, x);
    CreditWrapped(stakes, to, undo, x);
    AddWrapped(credited, from, total, x);
    var paid, charged := Signed(undo, StakeOf(to, x)), if x == from then total else 0;
    WrapTwice(StakeOf(stakes, x), paid, charged);
    assert paid + charged == Signed(undo, Gain(from, to, x));
  }

  /** Taking a transfer back restores every balance, also when the sender pays itself. */
  lemma {:induction false} TransferCancels(stakes: Stakes, from: U160, to: map<U160, U64>)
    requires NoZeroStake(stakes)
    ensures TransferStakes(TransferStakes(stakes, from, to, false), from, to, true) == stakes
  {
    var s1 := TransferStakes(stakes, from, to, false);
    var s2 := TransferStakes(s1, from, to, true);
    forall x ensures StakeOf(s2, x) == StakeOf(stakes, x) { TransferCancelsAt(stakes, from, to, x); }
    TransferAt(s1, from, to, true, from);
    StakesExtensional(s2, stakes);
  }

  lemma {:induction false} TransferCancelsAt(stakes: Stakes, from: U160, to: map<U160, U64>, x: U160)
    ensures StakeOf(TransferStakes(TransferStakes(stakes, from, to, false), from, to, true), x) == StakeOf(stakes, x)
  {
    TransferAt(stakes, from, to, false, x);
    var s1 := TransferStakes(stakes, from, to, false);
    TransferAt(s1, from, to, true, x);
    SignedCancels(StakeOf(stakes, x), StakeOf(s1, x), Gain(from, to, x));
  }

  lemma {:induction false} SignedCancels(v: U64, w: U64, gain: int)
    requires w == WrapU64(v + Signed(false, gain))
    ensures WrapU64(w + Signed(true, gain)) == v
  {
    WrapCancels(v, gain);
  }

  lemma {:induction false} EventsCancel(events: Events, plots: set<PlotID>, tick: nat, e: RawEvent)
    requires NoEmptyTick(events)
    requires forall p :: p in plots ==> e !in EventsAt(events, p, tick)
    ensures ChangeEvents(ChangeEvents(events, plots, tick, e, true), plots, tick, e, false) == events
  {
    var e1 := ChangeEvents(events, plots, tick, e, true);
    var e2 := ChangeEvents(e1, plots, tick, e, false);
    forall p, t ensures EventsAt(e2, p, t) == EventsAt(events, p, t) {
      ChangeEventsAt(events, plots, tick, e, true, p, t);
      ChangeEventsAt(e1, plots, tick, e, false, p, t);
      if p in plots && t == tick { ListCancels(EventsAt(events, p, t), e); }
    }
    EventsExtensional(e2, events);
  }

  /** Every change but a new validator is undone by its contra, on any normal state it is fresh in. */
  lemma {:induction false} ChangeCancels(n: Net, c: Change)
    requires Normal(n) && !c.NewValidator?
    requires c.PlotEvent? ==> forall p :: p in c.Plots() ==> c.event !in EventsAt(n.events, p, c.tick)
    ensures UndoChange(ApplyChange(n, c), ContraOf(n, c)) == n
  {
    match c
    case Admin(key, value) =>
      assert SetValue(SetValue(n.values, key, value), key, Lookup(n.values, key)) == n.values;
    case BlockReward(id) => AddStakeCancels(n.stakes, id, BLOCK_REWARD);
    case PlotEvent(from, to, tick, e) => EventsCancel(n.events, {from} + to, tick, e);
    case Slash(id, amount) => AddStakeCancels(n.stakes, id, 0 - amount);
    case Transfer(from, to) => TransferCancels(n.stakes, from, to);
  }

  lemma {:induction false} ApplyChangeNormal(n: Net, c: Change)
    requires Normal(n)
    ensures Normal(ApplyChange(n, c))
  {
    match c
    case PlotEvent(from, to, tick, e) => ChangeEventsAt(n.events, {from} + to, tick, e, true, from, tick);
    case Transfer(from, to) => CreditAt(n.stakes, to, false, from);
    case _ =>
  }

  // ---------------------------------------------------------------------------------------------
  // Whole mutations
  // ---------------------------------------------------------------------------------------------

  lemma {:induction false} ApplyNormal(n: Net, changes: seq<Change>)
    requires Normal(n)
    ensures Normal(Apply(n, changes))
  {
    if changes != [] {
      ApplyNormal(n, changes[..|changes| - 1]);
      ApplyChangeNormal(Apply(n, changes[..|changes| - 1]), changes[|changes| - 1]);
    }
  }

  /** The mutation itself records `e` on `p` at `t`. */
  predicate Records(changes: seq<Change>, p: PlotID, t: nat, e: RawEvent) {
    exists i :: 0 <= i < |changes| && changes[i].PlotEvent? && p in changes[i].Plots() && changes[i].tick == t && changes[i].event == e
  }

  /** Events present after a mutation come from the state or from the mutation. */
  lemma {:induction false} EventOrigin(n: Net, changes: seq<Change>, p: PlotID, t: nat, e: RawEvent)
    requires e in EventsAt(Apply(n, changes).events, p, t)
    ensures e in EventsAt(n.events, p, t) || Records(changes, p, t, e)
  {
    if changes != [] {
      var k := |changes| - 1;
      var init, c := changes[..k], changes[k];
      var m := Apply(n, init);
      if c.PlotEvent? {
        ChangeEventsAt(m.events, c.Plots(), c.tick, c.event, true, p, t);
      }
      if e in EventsAt(m.events, p, t) {
        EventOrigin(n, init, p, t, e);
        if Records(init, p, t, e) {
          var i :| 0 <= i < |init| && init[i].PlotEvent? && p in init[i].Plots() && init[i].tick == t && init[i].event == e;
          assert changes[i] == init[i];
        }
      } else {
        assert c.PlotEvent? && p in c.Plots() && c.tick == t && c.event == e;
        assert changes[k].event == e;
      }
    }
  }

  lemma {:induction false} FreshPrefix(n: Net, changes: seq<Change>)
    requires Fresh(n, changes) && changes != []
    ensures Fresh(n, changes[..|changes| - 1])
  {
    var init := changes[..|changes| - 1];
    forall i, j | 0 <= i < j < |init| ensures !Clash(init[i], init[j]) {
      assert !Clash(changes[i], changes[j]);
    }
  }

  /** A fresh mutation's last change is still fresh once the others were applied. */
  lemma {:induction false} FreshLast(n: Net, changes: seq<Change>, p: PlotID)
    requires Fresh(n, changes) && changes != []
    requires var c := changes[|changes| - 1]; c.PlotEvent? && p in c.Plots()
    ensures var c := changes[|changes| - 1];
            c.event !in EventsAt(Apply(n, changes[..|changes| - 1]).events, p, c.tick)
  {
    var k := |changes| - 1;
    var init, c := changes[..k], changes[k];
    if c.event in EventsAt(Apply(n, init).events, p, c.tick) {
      EventOrigin(n, init, p, c.tick, c.event);
      var i :| 0 <= i < |init| && init[i].PlotEvent? && p in init[i].Plots() && init[i].tick == c.tick && init[i].event == c.event;
      assert p in changes[i].Plots() * c.Plots();
      assert Clash(changes[i], changes[k]);
    }
  }

  /** Undo inverts apply for every mutation without new validators that the duplicate rule accepts. */
  lemma {:induction false} UndoRestores(n: Net, changes: seq<Change>)
    requires Normal(n) && Fresh(n, changes)
    requires forall i :: 0 <= i < |changes| ==> !changes[i].NewValidator?
    ensures Undo(Apply(n, changes), Contra(n, changes)) == n
  {
    if changes != [] {
      var init, c := changes[..|changes| - 1], changes[|changes| - 1];
      var m := Apply(n, init);
      FreshPrefix(n, changes);
      ApplyNormal(n, init);
      if c.PlotEvent? {
        forall p | p in c.Plots() ensures c.event !in EventsAt(m.events, p, c.tick) {
          FreshLast(n, changes, p);
        }
      }
      ChangeCancels(m, c);
      UndoRestores(n, init);
      var contra := Contra(n, changes);
      assert contra[0] == ContraOf(m, c) && contra[1..] == Contra(n, init);
    }
  }

  lemma {:induction false} ApplyValidators(n: Net, changes: seq<Change>, id: U160)
    ensures id in Apply(n, changes).validators <==>
            id in n.validators || exists i :: 0 <= i < |changes| && changes[i].NewValidator? && changes[i].vid == id
  {
    if changes != [] {
      var k := |changes| - 1;
      var init, c := changes[..k], changes[k];
      ApplyValidators(n, init, id);
      if c.NewValidator? && c.vid == id {
        assert changes[k].NewValidator?;
      }
      if i :| 0 <= i < |init| && init[i].NewValidator? && init[i].vid == id {
        assert changes[i] == init[i];
      }
    }
  }

  lemma {:induction false} UndoValidators(n: Net, contra: seq<Change>)
    ensures Undo(n, contra).validators == n.validators
    decreases |contra|
  {
    if contra != [] { UndoValidators(UndoChange(n, contra[0]), contra[1..]); }
  }

  /** Undo inverts apply exactly when the accepted mutation introduces no validator: taking one back
      deletes an unrelated admin key and leaves the public key stored. */
  lemma {:induction false} UndoRestoresIff(n: Net, changes: seq<Change>)
    requires Normal(n) && Fresh(n, changes)
    ensures Undo(Apply(n, changes), Contra(n, changes)) == n <==>
            forall i :: 0 <= i < |changes| ==> !changes[i].NewValidator?
  {
    if forall i :: 0 <= i < |changes| ==> !changes[i].NewValidator? {
      UndoRestores(n, changes);
    } else {
      var i :| 0 <= i < |changes| && changes[i].NewValidator?;
      ApplyValidators(n, changes, changes[i].vid);
      UndoValidators(Apply(n, changes), Contra(n, changes));
    }
  }

  /** The smallest case: the key of a validator that joined and was undone stays behind. */
  lemma {:induction false} NewValidatorStays()
    ensures var m := [NewValidator(7, [1])];
            Fresh(EMPTY, m) && Undo(Apply(EMPTY, m), Contra(EMPTY, m)).validators == map[7 := [1]]
  {
    var m := [NewValidator(7, [1])];
    assert m[..0] == [];
    UndoValidators(Apply(EMPTY, m), Contra(EMPTY, m));
  }
}
