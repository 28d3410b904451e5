/** The `Duplicates` mutation rule: what undoing a mutation relies on. */
module Duplicates {
  import opened Primitives
  import opened Event
  import opened Network
  import opened Undoing
  import opened Store

  ghost predicate SeenIs(seen: PlotEvents, changes: seq<Change>) {
    forall p, t, e :: e in PlotListAt(seen, p, t) <==> Records(changes, p, t, e)
  }

  /** `c` repeats nothing of the state and nothing of the changes before it. */
  predicate New(n: Net, changes: seq<Change>, c: Change) {
    && (c.PlotEvent? ==> forall p :: p in c.Plots() ==>
          c.event !in EventsAt(n.events, p, c.tick) && !Records(changes, p, c.tick, c.event))
    && (c.NewValidator? ==> c.vid !in n.validators && forall i :: 0 <= i < |changes| && changes[i].NewValidator? ==> changes[i].vid != c.vid)
  }

  /** Without a clash, an event is not on record on any of its plots. */
  lemma {:induction false} NoClashNoRecord(changes: seq<Change>, c: Change, p: PlotID)
    requires c.PlotEvent? && p in c.Plots() && forall i :: 0 <= i < |changes| ==> !Clash(changes[i], c)
    ensures !Records(changes, p, c.tick, c.event)
  {
    forall i | 0 <= i < |changes| && changes[i].PlotEvent? && changes[i].tick == c.tick && changes[i].event == c.event
      ensures p !in changes[i].Plots()
    {
      assert !Clash(changes[i], c);
      SharedPlot(changes[i].Plots(), c.Plots(), p);
    }
  }

  lemma {:induction false} SharedPlot(a: set<PlotID>, b: set<PlotID>, p: PlotID)
    ensures p in a && p in b ==> a * b != {}
  {
    if p in a && p in b { assert p in a * b; }
  }

  lemma {:induction false} FreshSnoc(n: Net, changes: seq<Change>, c: Change)
    ensures Fresh(n, changes + [c]) <==> Fresh(n, changes) && New(n, changes, c)
  {
    var all := changes + [c];
    var k := |changes|;
    if Fresh(n, all) {
      FreshPrefix(n, all);
      assert all[..k] == changes;
      assert all[k] == c;
      forall i | 0 <= i < k ensures !Clash(changes[i], c) { assert !Clash(all[i], all[k]); }
      if c.PlotEvent? {
        forall p | p in c.Plots() ensures !Records(changes, p, c.tick, c.event) { NoClashNoRecord(changes, c, p); }
      }
    }
    if Fresh(n, changes) && New(n, changes, c) {
      forall i, j | 0 <= i < j < |all| ensures !Clash(all[i], all[j]) {
        if j < k {
          assert !Clash(changes[i], changes[j]);
        } else if all[i].PlotEvent? && c.PlotEvent? && all[i].Plots() * c.Plots() != {} {
          var p :| p in all[i].Plots() * c.Plots();
          assert !Records(changes, p, c.tick, c.event);
        }
      }
    }
  }

  lemma {:induction false} FreshDownward(n: Net, changes: seq<Change>, k: nat)
    requires k <= |changes| && Fresh(n, changes)
    ensures Fresh(n, changes[..k])
    decreases |changes|
  {
    if k < |changes| {
      FreshPrefix(n, changes);
      assert changes[..|changes| - 1][..k] == changes[..k];
      FreshDownward(n, changes[..|changes| - 1], k);
    } else {
      assert changes[..k] == changes;
    }
  }

  lemma {:induction false} RecordsSnoc(changes: seq<Change>, c: Change, p: PlotID, t: nat, e: RawEvent)
    ensures Records(changes + [c], p, t, e) <==>
            Records(changes, p, t, e) || (c.PlotEvent? && p in c.Plots() && c.tick == t && c.event == e)
  {
    var all := changes + [c];
    assert all[|changes|] == c;
    if i :| 0 <= i < |changes| && changes[i].PlotEvent? && p in changes[i].Plots() && changes[i].tick == t && changes[i].event == e {
      assert all[i] == changes[i];
    }
  }

  lemma {:induction false} SeenNext(seen: PlotEvents, changes: seq<Change>, c: Change)
    requires SeenIs(seen, changes) && !c.PlotEvent?
    ensures SeenIs(seen, changes + [c])
  {
    forall p, t, e ensures e in PlotListAt(seen, p, t) <==> Records(changes + [c], p, t, e) { RecordsSnoc(changes, c, p, t, e); }
  }

  lemma {:induction false} SeenMore(seen: PlotEvents, seen': PlotEvents, changes: seq<Change>, c: Change)
    requires SeenIs(seen, changes) && c.PlotEvent?
    requires forall p, t, e :: e in PlotListAt(seen', p, t) <==> e in PlotListAt(seen, p, t) || (p in c.Plots() && t == c.tick && e == c.event)
    ensures SeenIs(seen', changes + [c])
  {
    forall p, t, e ensures e in PlotListAt(seen', p, t) <==> Records(changes + [c], p, t, e) { RecordsSnoc(changes, c, p, t, e); }
  }

  /** Looks an event up in the state on each of the plots. */
  method InNetwork(store: NetworkStore, plots: set<PlotID>, tick: nat, event: RawEvent) returns (found: bool)
    requires store.Valid()
    ensures found <==> exists p :: p in plots && event in EventsAt(store.Abs().events, p, tick)
  {
    var todo := plots;
    while todo != {}
      invariant todo <= plots
      invariant forall p :: p in plots - todo ==> event !in EventsAt(store.Abs().events, p, tick)
      decreases |todo|
    {
      var p :| p in todo;
      var events := store.GetPlotEvents(p, tick);
      if tick in events && event in events[tick] { return true; }
      todo := todo - {p};
    }
    return false;
  }

  /** Puts an event on the record of each of the plots. */
  method Append(seen: PlotEvents, plots: set<PlotID>, tick: nat, event: RawEvent) returns (seen': PlotEvents)
    ensures forall p, t, e :: e in PlotListAt(seen', p, t) <==> e in PlotListAt(seen, p, t) || (p in plots && t == tick && e == event)
  {
    seen' := seen;
    var todo := plots;
    while todo != {}
      invariant todo <= plots
      invariant forall p, t, e :: e in PlotListAt(seen', p, t) <==> e in PlotListAt(seen, p, t) || (p in plots - todo && t == tick && e == event)
      decreases |todo|
    {
      var p :| p in todo;
      var was: RawEvents := if p in seen' then seen'[p] else map[];
      var updated, _ := AddEvent(was, tick, event);
      assert forall t :: ListAt(was, t) == PlotListAt(seen', p, t);
      assert forall t :: ListAt(updated, t) == if t == tick then Including(ListAt(was, t), event) else ListAt(was, t);
      ghost var before := seen';
      seen' := seen'[p := updated];
      assert forall q, t :: PlotListAt(seen', q, t) == if q == p then ListAt(updated, t) else PlotListAt(before, q, t);
      todo := todo - {p};
    }
  }

  /** The changes so far repeat nothing, and what they record and introduce is remembered. */
  ghost predicate Passed(n: Net, changes: seq<Change>, seen: PlotEvents, validators: set<U160>) {
    && Fresh(n, changes) && SeenIs(seen, changes)
    && forall id :: id in validators <==> Introduces(changes, id)
  }

  predicate Introduces(changes: seq<Change>, id: U160) {
    exists j :: 0 <= j < |changes| && changes[j].NewValidator? && changes[j].vid == id
  }

  lemma {:induction false} ValidatorsNext(changes: seq<Change>, c: Change, id: U160)
    ensures Introduces(changes + [c], id) <==> Introduces(changes, id) || (c.NewValidator? && c.vid == id)
  {
    var all := changes + [c];
    assert all[|changes|] == c;
    if j :| 0 <= j < |changes| && changes[j].NewValidator? && changes[j].vid == id { assert all[j] == changes[j]; }
  }

  /** A change that records no event repeats nothing exactly when its validator is new. */
  lemma {:induction false} PassPlain(n: Net, changes: seq<Change>, c: Change, seen: PlotEvents, validators: set<U160>)
    requires Passed(n, changes, seen, validators) && !c.PlotEvent?
    ensures c.NewValidator? ==> (New(n, changes, c) <==> c.vid !in validators && c.vid !in n.validators)
    ensures !c.NewValidator? ==> New(n, changes, c)
    ensures New(n, changes, c) ==> Passed(n, changes + [c], seen, if c.NewValidator? then validators + {c.vid} else validators)
  {
    FreshSnoc(n, changes, c);
    SeenNext(seen, changes, c);
    var all := changes + [c];
    forall id ensures Introduces(all, id) <==> Introduces(changes, id) || (c.NewValidator? && c.vid == id) { ValidatorsNext(changes, c, id); }
  }

  /** An event repeats nothing exactly when none of its plots has it on record. */
  lemma {:induction false} PassEvent(n: Net, changes: seq<Change>, c: Change, seen: PlotEvents, seen': PlotEvents, validators: set<U160>)
    requires Passed(n, changes, seen, validators) && c.PlotEvent? && New(n, changes, c)
    requires forall p, t, e :: e in PlotListAt(seen', p, t) <==> e in PlotListAt(seen, p, t) || (p in c.Plots() && t == c.tick && e == c.event)
    ensures Passed(n, changes + [c], seen', validators)
  {
    FreshSnoc(n, changes, c);
    SeenMore(seen, seen', changes, c);
    var all := changes + [c];
    forall id ensures Introduces(all, id) <==> Introduces(changes, id) { ValidatorsNext(changes, c, id); }
  }

  lemma {:induction false} NewEvent(n: Net, changes: seq<Change>, c: Change, seen: PlotEvents)
    requires SeenIs(seen, changes) && c.PlotEvent?
    ensures New(n, changes, c) <==>
              !(exists p :: p in c.Plots() && c.event in PlotListAt(seen, p, c.tick)) &&
              !(exists p :: p in c.Plots() && c.event in EventsAt(n.events, p, c.tick))
  {
  }

  /** Accepts exactly the mutations that repeat nothing of the state or of themselves. */
  method IsValid(store: NetworkStore, changes: seq<Change>) returns (valid: Result<()>)
    requires store.Valid()
    ensures valid == (if Fresh(store.Abs(), changes) then Ok(()) else Err(Duplicate))
  {
    var validators: set<U160> := {};
    var seen: PlotEvents := map[];
    ghost var n := store.Abs();
    for i := 0 to |changes|
      invariant Passed(n, changes[..i], seen, validators)
    {
      var c := changes[i];
      assert changes[..i + 1] == changes[..i] + [c];
      FreshIsNew(n, changes, i);
      if c.PlotEvent? {
        NewEvent(n, changes[..i], c, seen);
        if exists p :: p in c.Plots() && c.event in PlotListAt(seen, p, c.tick) { return Err(Duplicate); }
        var found := InNetwork(store, c.Plots(), c.tick, c.event);
        if found { return Err(Duplicate); }
        ghost var before := seen;
        seen := Append(seen, c.Plots(), c.tick, c.event);
        PassEvent(n, changes[..i], c, before, seen, validators);
      } else {
        PassPlain(n, changes[..i], c, seen, validators);
        if c.NewValidator? {
          if c.vid in validators || c.vid in store.validators { return Err(Duplicate); }
          validators := validators + {c.vid};
        }
      }
    }
    assert changes[..|changes|] == changes;
    return Ok(());
  }

  /** Every change of a fresh mutation is new where it stands. */
  lemma {:induction false} FreshIsNew(n: Net, changes: seq<Change>, i: nat)
    requires i < |changes|
    ensures Fresh(n, changes) ==> New(n, changes[..i], changes[i])
  {
    if Fresh(n, changes) {
      FreshDownward(n, changes, i + 1);
      assert changes[..i + 1] == changes[..i] + [changes[i]];
      FreshSnoc(n, changes[..i], changes[i]);
    }
  }
}
