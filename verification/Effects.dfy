/** What a mutation leaves in the network state, read entry by entry. */
module Effects {
  import opened Primitives
  import opened Event
  import opened Network
  import opened BlockTree
  import Bytes
  import Undoing

  // ---------------------------------------------------------------------------------------------
  // Validators and values
  // ---------------------------------------------------------------------------------------------

  /** Change `i` is the last that introduces validator `id`. */
  predicate IntroducedAt(changes: seq<Change>, id: U160, i: nat) {
    && i < |changes| && changes[i].NewValidator? && changes[i].vid == id
    && forall j :: i < j < |changes| && changes[j].NewValidator? ==> changes[j].vid != id
  }

  lemma {:induction false} OneKey(n: Net, c: Change, id: U160)
    ensures Lookup(ApplyChange(n, c).validators, id) ==
            if c.NewValidator? && c.vid == id then Some(c.pubKey) else Lookup(n.validators, id)
  {
  }

  /** A validator is stored with the whole public key it was last introduced with; one that is not
      introduced keeps the key it had, if any. */
  lemma {:induction false} KeyAfter(n: Net, changes: seq<Change>, id: U160, i: nat)
    ensures IntroducedAt(changes, id, i) ==> Lookup(Apply(n, changes).validators, id) == Some(changes[i].pubKey)
    ensures (forall j :: 0 <= j < |changes| && changes[j].NewValidator? ==> changes[j].vid != id) ==>
              Lookup(Apply(n, changes).validators, id) == Lookup(n.validators, id)
  {
    if changes != [] {
      var k := |changes| - 1;
      var init := changes[..k];
      KeyAfter(n, init, id, i);
      OneKey(Apply(n, init), changes[k], id);
      if IntroducedAt(changes, id, i) && i < k { assert IntroducedAt(init, id, i); }
    }
  }

  /** Change `i` is the last that sets or deletes the value of a key. */
  predicate SetAt(changes: seq<Change>, key: Bin, i: nat) {
    && i < |changes| && changes[i].Admin? && changes[i].key == key
    && forall j :: i < j < |changes| && changes[j].Admin? ==> changes[j].key != key
  }

  lemma {:induction false} OneValue(n: Net, c: Change, key: Bin)
    ensures Lookup(ApplyChange(n, c).values, key) == if c.Admin? && c.key == key then c.value else Lookup(n.values, key)
  {
  }

  /** A key reads as it was last set or deleted; one that is not mentioned reads as before. */
  lemma {:induction false} ValueAfter(n: Net, changes: seq<Change>, key: Bin, i: nat)
    ensures SetAt(changes, key, i) ==> Lookup(Apply(n, changes).values, key) == changes[i].value
    ensures (forall j :: 0 <= j < |changes| && changes[j].Admin? ==> changes[j].key != key) ==>
              Lookup(Apply(n, changes).values, key) == Lookup(n.values, key)
  {
    if changes != [] {
      var k := |changes| - 1;
      var init := changes[..k];
      ValueAfter(n, init, key, i);
      OneValue(Apply(n, init), changes[k], key);
      if SetAt(changes, key, i) && i < k { assert SetAt(init, key, i); }
    }
  }

  // ---------------------------------------------------------------------------------------------
  // Stakes
  // ---------------------------------------------------------------------------------------------

  lemma {:induction false} RewardLeaves(n: Net, id: U160, x: U160)
    ensures StakeOf(ApplyChange(n, BlockReward(id)).stakes, x) ==
            if x == id then WrapU64(StakeOf(n.stakes, x) + 10) else StakeOf(n.stakes, x)
  {
    Undoing.AddStakeAt(n.stakes, id, 10, x);
  }

  lemma {:induction false} SlashLeaves(n: Net, id: U160, amount: U64, x: U160)
    ensures StakeOf(ApplyChange(n, Slash(id, amount)).stakes, x) ==
            if x == id then WrapU64(StakeOf(n.stakes, x) - amount) else StakeOf(n.stakes, x)
  {
    Undoing.AddStakeAt(n.stakes, id, 0 - amount, x);
  }

  /** Every recipient gets its amount, and the sender pays all of them. */
  lemma {:induction false} TransferLeaves(n: Net, from: U160, to: map<U160, U64>, x: U160)
    ensures StakeOf(ApplyChange(n, Transfer(from, to)).stakes, x) ==
            WrapU64(StakeOf(n.stakes, x) + (if x in to then to[x] else 0) - (if x == from then Total(to) else 0))
  {
    Undoing.TransferAt(n.stakes, from, to, false, x);
  }

  /** What a change adds to an account. */
  ghost function Gained(c: Change, x: U160): int {
    match c
    case BlockReward(id) => if x == id then 10 else 0
    case Slash(id, amount) => if x == id then 0 - amount else 0
    case Transfer(from, to) => (if x in to then to[x] else 0) - (if x == from then Total(to) else 0)
    case _ => 0
  }

  ghost function GainedFrom(changes: seq<Change>, x: U160): int {
    if changes == [] then 0 else Gained(changes[0], x) + GainedFrom(changes[1..], x)
  }

  lemma {:induction false} GainedSnoc(changes: seq<Change>, c: Change, x: U160)
    ensures GainedFrom(changes + [c], x) == GainedFrom(changes, x) + Gained(c, x)
  {
    if changes == [] {
      assert [] + [c] == [c] && [c][1..] == [];
    } else {
      assert (changes + [c])[1..] == changes[1..] + [c];
      GainedSnoc(changes[1..], c, x);
    }
  }

  lemma {:induction false} OneGained(n: Net, c: Change, x: U160)
    ensures StakeOf(ApplyChange(n, c).stakes, x) == WrapU64(StakeOf(n.stakes, x) + Gained(c, x))
  {
    match c
    case BlockReward(id) => RewardLeaves(n, id, x);
    case Slash(id, amount) => SlashLeaves(n, id, amount, x);
    case Transfer(from, to) => TransferLeaves(n, from, to, x);
    case _ =>
  }

  lemma {:induction false} ApplySnoc(n: Net, init: seq<Change>, c: Change)
    ensures Apply(n, init + [c]) == ApplyChange(Apply(n, init), c)
  {
    assert (init + [c])[..|init|] == init;
  }

  /** One change, `q` times wrapped round. */
  lemma {:induction false} OneStep(n: Net, c: Change, x: U160) returns (q: int)
    ensures StakeOf(ApplyChange(n, c).stakes, x) == StakeOf(n.stakes, x) + Gained(c, x) + 0x1_0000_0000_0000_0000 * q
  {
    OneGained(n, c, x);
    q := -((StakeOf(n.stakes, x) + Gained(c, x)) / 0x1_0000_0000_0000_0000);
  }

  lemma {:induction false} SumSteps(n: Net, changes: seq<Change>, x: U160) returns (q: int)
    ensures StakeOf(Apply(n, changes).stakes, x) == StakeOf(n.stakes, x) + GainedFrom(changes, x) + 0x1_0000_0000_0000_0000 * q
  {
    q := 0;
    if changes != [] {
      var init, c := changes[..|changes| - 1], changes[|changes| - 1];
      q := SumSteps(n, init, x);
      var more := OneStep(Apply(n, init), c, x);
      GainedSnoc(init, c, x);
      assert changes == init + [c];
      q := q + more;
    }
  }

  lemma {:induction false} Residue(v: U64, sum: int, q: int)
    requires v == sum + 0x1_0000_0000_0000_0000 * q
    ensures v == WrapU64(sum)
  {
    assert sum == 0x1_0000_0000_0000_0000 * (-q) + v;
  }

  /** After a mutation every stake is the old one and the sum of what the changes add, modulo 2^64. */
  lemma {:induction false} StakeAfter(n: Net, changes: seq<Change>, x: U160)
    ensures StakeOf(Apply(n, changes).stakes, x) == WrapU64(StakeOf(n.stakes, x) + GainedFrom(changes, x))
  {
    var q := SumSteps(n, changes, x);
    Residue(StakeOf(Apply(n, changes).stakes, x), StakeOf(n.stakes, x) + GainedFrom(changes, x), q);
  }

  // ---------------------------------------------------------------------------------------------
  // Events
  // ---------------------------------------------------------------------------------------------

  /** The events a mutation records on one tick of one plot, in order. */
  function Recorded(changes: seq<Change>, p: PlotID, t: nat): seq<RawEvent> {
    if changes == [] then [] else RecordedBy(changes[0], p, t) + Recorded(changes[1..], p, t)
  }

  function RecordedBy(c: Change, p: PlotID, t: nat): seq<RawEvent> {
    if c.PlotEvent? && c.tick == t && (p == c.from || p in c.to) then [c.event] else []
  }

  lemma {:induction false} RecordedSnoc(changes: seq<Change>, c: Change, p: PlotID, t: nat)
    ensures Recorded(changes + [c], p, t) == Recorded(changes, p, t) + RecordedBy(c, p, t)
  {
    if changes == [] {
      assert [] + [c] == [c] && [c][1..] == [];
    } else {
      assert (changes + [c])[1..] == changes[1..] + [c];
      RecordedSnoc(changes[1..], c, p, t);
    }
  }

  lemma {:induction false} OneRecorded(n: Net, c: Change, p: PlotID, t: nat)
    ensures var list, more := EventsAt(n.events, p, t), RecordedBy(c, p, t);
            EventsAt(ApplyChange(n, c).events, p, t) == if more != [] && more[0] in list then list else list + more
  {
    if c.PlotEvent? { Undoing.ChangeEventsAt(n.events, {c.from} + c.to, c.tick, c.event, true, p, t); }
    assert EventsAt(n.events, p, t) + [] == EventsAt(n.events, p, t);
  }

  /** One more change of a mutation. */
  lemma {:induction false} EventsNext(n: Net, init: seq<Change>, c: Change, p: PlotID, t: nat)
    ensures var list, more := EventsAt(Apply(n, init).events, p, t), RecordedBy(c, p, t);
            && EventsAt(Apply(n, init + [c]).events, p, t) == (if more != [] && more[0] in list then list else list + more)
            && Recorded(init + [c], p, t) == Recorded(init, p, t) + more
  {
    ApplySnoc(n, init, c);
    OneRecorded(Apply(n, init), c, p, t);
    RecordedSnoc(init, c, p, t);
  }

  /** A mutation that the duplicate rule accepts puts its events behind those of each tick, in order. */
  lemma {:induction false} EventsAfter(n: Net, changes: seq<Change>, p: PlotID, t: nat)
    requires Fresh(n, changes)
    ensures EventsAt(Apply(n, changes).events, p, t) == EventsAt(n.events, p, t) + Recorded(changes, p, t)
  {
    if changes == [] {
      assert EventsAt(n.events, p, t) + [] == EventsAt(n.events, p, t);
    } else {
      var init, c := changes[..|changes| - 1], changes[|changes| - 1];
      assert changes == init + [c];
      Undoing.FreshPrefix(n, changes);
      EventsAfter(n, init, p, t);
      EventsNext(n, init, c, p, t);
      if RecordedBy(c, p, t) != [] { Undoing.FreshLast(n, changes, p); }
      Associates(EventsAt(n.events, p, t), Recorded(init, p, t), RecordedBy(c, p, t));
    }
  }

  lemma {:induction false} Associates(a: seq<RawEvent>, b: seq<RawEvent>, c: seq<RawEvent>)
    ensures (a + b) + c == a + (b + c)
  {
  }

  /** Any mutation keeps what is recorded and lets no event be recorded twice: a list grows by at most
      what the mutation records. */
  lemma {:induction false} EventsGrow(n: Net, changes: seq<Change>, p: PlotID, t: nat)
    ensures EventsAt(n.events, p, t) <= EventsAt(Apply(n, changes).events, p, t)
    ensures |EventsAt(Apply(n, changes).events, p, t)| <= |EventsAt(n.events, p, t)| + |Recorded(changes, p, t)|
  {
    if changes != [] {
      var init := changes[..|changes| - 1];
      assert changes == init + [changes[|changes| - 1]];
      EventsGrow(n, init, p, t);
      EventsNext(n, init, changes[|changes| - 1], p, t);
    }
  }

  lemma {:induction false} RecordedHas(changes: seq<Change>, i: nat, p: PlotID)
    requires i < |changes| && changes[i].PlotEvent? && (p == changes[i].from || p in changes[i].to)
    ensures changes[i].event in Recorded(changes, p, changes[i].tick)
  {
    var here, rest := RecordedBy(changes[0], p, changes[i].tick), Recorded(changes[1..], p, changes[i].tick);
    if i == 0 {
      assert (here + rest)[0] == changes[0].event;
    } else {
      RecordedHas(changes[1..], i - 1, p);
      assert changes[1..][i - 1] == changes[i];
    }
  }

  /** How often a mutation introduces a validator. */
  function Introductions(changes: seq<Change>, id: U160): nat {
    if changes == [] then 0
    else
      var last := changes[|changes| - 1];
      Introductions(changes[..|changes| - 1], id) + if last.NewValidator? && last.vid == id then 1 else 0
  }

  lemma {:induction false} Introduced(changes: seq<Change>, id: U160, i: nat)
    ensures i < |changes| && changes[i].NewValidator? && changes[i].vid == id ==> Introductions(changes, id) >= 1
    ensures (forall j :: 0 <= j < |changes| && changes[j].NewValidator? ==> changes[j].vid != id) ==> Introductions(changes, id) == 0
  {
    if changes != [] { Introduced(changes[..|changes| - 1], id, i); }
  }

  /** Every list grows by all that the mutation records there. */
  ghost predicate AllNew(n: Net, changes: seq<Change>) {
    forall p, t {:trigger Recorded(changes, p, t)} ::
      |EventsAt(Apply(n, changes).events, p, t)| == |EventsAt(n.events, p, t)| + |Recorded(changes, p, t)|
  }

  /** No validator is introduced twice or again. */
  ghost predicate OncePerValidator(n: Net, changes: seq<Change>) {
    forall id :: Introductions(changes, id) + (if id in n.validators then 1 else 0) <= 1
  }

  /** What the duplicate rule demands is that every event recorded makes its list longer and every
      validator is introduced only once. */
  lemma {:induction false} FreshIff(n: Net, changes: seq<Change>)
    ensures Fresh(n, changes) <==> AllNew(n, changes) && OncePerValidator(n, changes)
  {
    if Fresh(n, changes) {
      forall p, t ensures |EventsAt(Apply(n, changes).events, p, t)| == |EventsAt(n.events, p, t)| + |Recorded(changes, p, t)| {
        EventsAfter(n, changes, p, t);
      }
      forall id ensures Introductions(changes, id) + (if id in n.validators then 1 else 0) <= 1 { FreshOnce(n, changes, id); }
    }
    if AllNew(n, changes) && OncePerValidator(n, changes) { NewIsFresh(n, changes); }
  }

  lemma {:induction false} FreshOnce(n: Net, changes: seq<Change>, id: U160)
    requires Fresh(n, changes)
    ensures Introductions(changes, id) + (if id in n.validators then 1 else 0) <= 1
  {
    if changes != [] {
      var k := |changes| - 1;
      Undoing.FreshPrefix(n, changes);
      FreshOnce(n, changes[..k], id);
      if changes[k].NewValidator? && changes[k].vid == id {
        forall j | 0 <= j < k && changes[..k][j].NewValidator? ensures changes[..k][j].vid != id { assert !Clash(changes[j], changes[k]); }
        Introduced(changes[..k], id, 0);
      }
    }
  }

  lemma {:induction false} NewIsFresh(n: Net, changes: seq<Change>)
    requires AllNew(n, changes) && OncePerValidator(n, changes)
    ensures Fresh(n, changes)
  {
    if changes != [] {
      var k := |changes| - 1;
      var init, c := changes[..k], changes[k];
      assert changes == init + [c];
      forall p, t ensures |EventsAt(Apply(n, init).events, p, t)| == |EventsAt(n.events, p, t)| + |Recorded(init, p, t)| {
        LastIsNew(n, init, c, p, t);
      }
      forall id ensures Introductions(init, id) + (if id in n.validators then 1 else 0) <= 1 {
        assert Introductions(changes, id) + (if id in n.validators then 1 else 0) <= 1;
      }
      NewIsFresh(n, init);
      forall p | c.PlotEvent? && p in c.Plots() ensures c.event !in EventsAt(n.events, p, c.tick) {
        LastIsNew(n, init, c, p, c.tick);
        EventsGrow(n, init, p, c.tick);
      }
      forall i | 0 <= i < k ensures !Clash(changes[i], c) { NoClashWithLast(n, init, c, i); }
      assert c.NewValidator? ==> Introductions(changes, c.vid) >= 1;
      FreshSnoc(n, init, c);
    }
  }

  /** When a list grows by all that is recorded, so it does without the last change, whose own event is
      new to it. */
  lemma {:induction false} LastIsNew(n: Net, init: seq<Change>, c: Change, p: PlotID, t: nat)
    requires AllNew(n, init + [c])
    ensures |EventsAt(Apply(n, init).events, p, t)| == |EventsAt(n.events, p, t)| + |Recorded(init, p, t)|
    ensures RecordedBy(c, p, t) != [] ==> c.event !in EventsAt(Apply(n, init).events, p, t)
  {
    var changes := init + [c];
    EventsGrow(n, init, p, t);
    EventsNext(n, init, c, p, t);
    assert |EventsAt(Apply(n, changes).events, p, t)| == |EventsAt(n.events, p, t)| + |Recorded(changes, p, t)|;
  }

  lemma {:induction false} NoClashWithLast(n: Net, init: seq<Change>, c: Change, i: nat)
    requires AllNew(n, init + [c]) && OncePerValidator(n, init + [c]) && Fresh(n, init) && i < |init|
    ensures !Clash(init[i], c)
  {
    var d := init[i];
    if d.PlotEvent? && c.PlotEvent? && d.tick == c.tick && d.event == c.event && d.Plots() * c.Plots() != {} {
      var p :| p in d.Plots() * c.Plots();
      LastIsNew(n, init, c, p, c.tick);
      EventsAfter(n, init, p, c.tick);
      RecordedHas(init, i, p);
    }
    if d.NewValidator? && c.NewValidator? && d.vid == c.vid {
      assert (init + [c])[..|init|] == init;
      Introduced(init, c.vid, i);
    }
  }

  lemma {:induction false} FreshSnoc(n: Net, init: seq<Change>, c: Change)
    requires Fresh(n, init) && forall i :: 0 <= i < |init| ==> !Clash(init[i], c)
    requires c.PlotEvent? ==> forall p :: p in c.Plots() ==> c.event !in EventsAt(n.events, p, c.tick)
    requires c.NewValidator? ==> c.vid !in n.validators
    ensures Fresh(n, init + [c])
  {
  }

  // ---------------------------------------------------------------------------------------------
  // Undoing a new validator
  // ---------------------------------------------------------------------------------------------

  /** What is undone of a new validator is only that a generic key goes: an `n`, `VKY` and the twenty
      bytes of the validator's id. */
  lemma {:induction false} UndoneValidator(n: Net, id: U160, pubKey: Bin, key: Bin)
    ensures var n' := UndoChange(n, NewValidator(id, pubKey));
            && n'.validators == n.validators && n'.stakes == n.stakes && n'.events == n.events
            && Lookup(n'.values, key) == if key == [110, 86, 75, 89] + Bytes.WriteLE(id, 20) then None else Lookup(n.values, key)
  {
  }

  // ---------------------------------------------------------------------------------------------
  // Whole branches
  // ---------------------------------------------------------------------------------------------

  /** The mutations of a branch from the root up, one after another. */
  ghost function Mutations(t: Tree, b: U256, h: nat): seq<Change>
    requires Rooted(t) && Node(t, b) && h <= Height(t, b)
  {
    if h == 0 then []
    else
      AtHeight(t, b, h);
      assert Placed(t, At(t, b, h));
      Mutations(t, b, h - 1) + t.body[At(t, b, h)]
  }

  lemma {:induction false} ApplyAppend(n: Net, a: seq<Change>, b: seq<Change>)
    ensures Apply(n, a + b) == Apply(Apply(n, a), b)
    decreases |b|
  {
    if b == [] {
      assert a + b == a;
    } else {
      var init, last := b[..|b| - 1], b[|b| - 1];
      ApplyAppend(n, a, init);
      assert a + b == (a + init) + [last];
      ApplySnoc(n, a + init, last);
    }
  }

  /** The state of a branch is the empty state after all its mutations, the root's included. */
  lemma {:induction false} ReplayIsAll(t: Tree, b: U256, h: nat)
    requires Rooted(t) && Node(t, b) && h <= Height(t, b)
    ensures Node(t, At(t, b, h)) && Replay(t, At(t, b, h)) == Apply(Net(map[], map[], map[], map[]), Mutations(t, b, h))
    decreases h
  {
    AtHeight(t, b, h);
    if h > 0 {
      ReplayIsAll(t, b, h - 1);
      AtPrev(t, b, h);
      assert Placed(t, At(t, b, h));
      ApplyAppend(EMPTY, Mutations(t, b, h - 1), t.body[At(t, b, h)]);
    }
  }
}
