/**
  The record keeper's step: a block's mutations are applied and undone on a copy-on-write state, the
  state is compiled and the batch applied to the database, instead of changing the database directly.
 */
module StateWalk {
  import opened Primitives
  import opened Event
  import opened Network
  import opened DbState
  import opened Overlay
  import opened BlockTree
  import opened AncestorSearch
  import opened Chain
  import opened Database
  import Bytes
  import Store
  import Undoing

  // ---------------------------------------------------------------------------------------------
  // One change
  // ---------------------------------------------------------------------------------------------

  /** What the diff can carry without losing track: no admin value is deleted, and a plot event does
      not list its own plot as a recipient. */
  predicate Carried(change: Change) {
    match change
    case Admin(_, value) => value.Some?
    case PlotEvent(from, to, _, _) => from !in to
    case _ => true
  }

  predicate AllCarried(changes: seq<Change>) {
    forall i :: 0 <= i < |changes| ==> Carried(changes[i])
  }

  /** The event is on all plots of the change, or on none. */
  predicate OnPlots(events: Events, change: Change, there: bool)
    requires change.PlotEvent?
  {
    forall p :: p in change.Plots() ==> (change.event in EventsAt(events, p, change.tick) <==> there)
  }

  /** Reads a stake, adds the signed amount in 64 bits and writes it back. */
  method ChangeStake(state: DbState, ghost n: Net, id: U160, amount: I64)
    requires Reads(state, n) && state.delValues == {}
    modifies state`newValues, state`delValues
    ensures Reads(state, n.(stakes := AddStake(n.stakes, id, amount))) && state.delValues == {}
  {
    var value := GetStake(state, n, id);
    var value' := Store.AddUnsigned(value, amount);
    PutStakeOf(state, n, id, value');
  }

  /** Half-way through the recipients: `m` is `n` with all but those in `todo` paid, `total` in all. */
  ghost predicate Paying(n: Net, m: Net, to: map<U160, U64>, todo: set<U160>, total: nat, undo: bool) {
    m == n.(stakes := m.stakes) && NoZeroStake(m.stakes) && Store.Paying(n.stakes, m.stakes, to, todo, total, undo)
  }

  lemma {:induction false} PayingStarts(n: Net, to: map<U160, U64>, undo: bool)
    requires NoZeroStake(n.stakes)
    ensures Paying(n, n, to, to.Keys, 0, undo) && WrapI64(0) == 0
  {
    Store.PayingStarts(n.stakes, to, undo);
  }

  lemma {:induction false} PaidNext(n: Net, m: Net, to: map<U160, U64>, todo: set<U160>, total: nat, undo: bool, id: U160)
    requires Paying(n, m, to, todo, total, undo) && id in todo
    ensures var m' := m.(stakes := AddStake(m.stakes, id, Signed(undo, to[id])));
            Paying(n, m', to, todo - {id}, total + to[id], undo)
  {
    var paid := AddStake(m.stakes, id, Signed(undo, to[id]));
    AbsNormal(m.stakes);
    AbsNormal(paid);
    Store.PaidOne(n.stakes, m.stakes, paid, to, todo, total, undo, id);
  }

  lemma {:induction false} PayingEnds(n: Net, m: Net, to: map<U160, U64>, total: nat, undo: bool)
    requires NoZeroStake(n.stakes) && Paying(n, m, to, {}, total, undo)
    ensures m == n.(stakes := Credit(n.stakes, to, undo)) && total == Total(to)
  {
    assert to - {} == to;
    AbsNormal(n.stakes);
    AbsNormal(m.stakes);
  }

  /** Stakes without zeros stand for themselves. */
  lemma {:induction false} AbsNormal(stakes: Stakes)
    requires NoZeroStake(stakes)
    ensures Store.AbsStakes(stakes) == stakes
  {
  }

  /** Pays the recipients in whatever order and sums what they got. */
  method PayRecipients(state: DbState, ghost n: Net, to: map<U160, U64>, undo: bool) returns (sum: I64)
    requires Reads(state, n) && state.delValues == {} && NoZeroStake(n.stakes)
    modifies state`newValues, state`delValues
    ensures Reads(state, n.(stakes := Credit(n.stakes, to, undo))) && state.delValues == {}
    ensures sum == WrapI64(Total(to))
  {
    ghost var m, total := n, 0;
    PayingStarts(n, to, undo);
    sum := 0;
    var todo := to.Keys;
    while todo != {}
      invariant Reads(state, m) && state.delValues == {}
      invariant Paying(n, m, to, todo, total, undo) && sum == WrapI64(total)
      decreases |todo|
    {
      var id :| id in todo;
      Pay(state, m, id, to[id], undo);
      PaidNext(n, m, to, todo, total, undo, id);
      m := m.(stakes := AddStake(m.stakes, id, Signed(undo, to[id])));
      sum, total := Store.AddSigned(sum, to[id], total);
      todo := todo - {id};
    }
    PayingEnds(n, m, to, total, undo);
  }

  /** Pays one recipient, or takes the payment back, through a signed 64-bit amount. */
  method Pay(state: DbState, ghost n: Net, id: U160, amount: U64, undo: bool)
    requires Reads(state, n) && state.delValues == {}
    modifies state`newValues, state`delValues
    ensures Reads(state, n.(stakes := AddStake(n.stakes, id, Signed(undo, amount)))) && state.delValues == {}
  {
    var signed: int := WrapI64(amount);
    var delta := if undo then WrapI64(-signed) else signed;
    Store.SignedWrap(undo, amount);
    Store.AddStakeCongruent(n.stakes, id, delta, Signed(undo, amount));
    ChangeStake(state, n, id, delta);
  }

  /** A transfer: the recipients are paid and the sender is charged, or the reverse when undoing. */
  method MoveStakes(state: DbState, ghost n: Net, from: U160, to: map<U160, U64>, undo: bool)
    requires Reads(state, n) && state.delValues == {} && NoZeroStake(n.stakes)
    modifies state`newValues, state`delValues
    ensures Reads(state, n.(stakes := TransferStakes(n.stakes, from, to, undo))) && state.delValues == {}
  {
    var sum: int := PayRecipients(state, n, to, undo);
    ghost var credited, charge := Credit(n.stakes, to, undo), Signed(!undo, Total(to));
    var delta := if undo then sum else WrapI64(-sum);
    Store.SignedWrap(!undo, Total(to));
    Store.AddStakeCongruent(credited, from, delta, charge);
    ChangeStake(state, n.(stakes := credited), from, delta);
  }

  /** Half-way through the plots: `m` is `n` with the event changed on all but those in `todo`. */
  ghost predicate Changing(n: Net, m: Net, change: Change, todo: set<PlotID>, add: bool)
    requires change.PlotEvent?
  {
    && todo <= change.to
    && m == n.(events := ChangeEvents(n.events, {change.from} + (change.to - todo), change.tick, change.event, add))
  }

  lemma {:induction false} ChangedNext(n: Net, m: Net, change: Change, todo: set<PlotID>, add: bool, p: PlotID)
    requires NoEmptyTick(n.events) && change.PlotEvent? && Carried(change) && OnPlots(n.events, change, !add)
    requires Changing(n, m, change, todo, add) && p in todo
    ensures change.event in EventsAt(m.events, p, change.tick) <==> !add
    ensures var m' := m.(events := ChangeEvents(m.events, {p}, change.tick, change.event, add));
            Changing(n, m', change, todo - {p}, add)
  {
    var done := {change.from} + (change.to - todo);
    Undoing.ChangeEventsAt(n.events, done, change.tick, change.event, add, p, change.tick);
    Store.ChangeEventsOneMore(n.events, done, p, change.tick, change.event, add);
    assert done + {p} == {change.from} + (change.to - (todo - {p}));
  }

  /** Adds or removes an event on the sending plot and then on every receiving one. */
  method ChangeOnPlots(state: DbState, ghost n: Net, change: Change, add: bool)
    requires Reads(state, n) && NoEmptyTick(n.events)
    requires change.PlotEvent? && Carried(change) && OnPlots(n.events, change, !add)
    modifies state`newEvents, state`delEvents
    ensures Reads(state, n.(events := ChangeEvents(n.events, change.Plots(), change.tick, change.event, add)))
  {
    ChangeEvent(state, n, change.from, change.tick, change.event, add);
    ghost var m := n.(events := ChangeEvents(n.events, {change.from}, change.tick, change.event, add));
    var todo := change.to;
    assert {change.from} == {change.from} + (change.to - todo);
    while todo != {}
      invariant Reads(state, m) && Changing(n, m, change, todo, add)
      decreases |todo|
    {
      var p :| p in todo;
      ChangedNext(n, m, change, todo, add, p);
      ChangeEvent(state, m, p, change.tick, change.event, add);
      m := m.(events := ChangeEvents(m.events, {p}, change.tick, change.event, add));
      todo := todo - {p};
    }
    assert change.to - todo == change.to;
  }

  /** Applies one change and returns the one that takes it back. */
  method ApplyOne(state: DbState, ghost n: Net, change: Change) returns (contra: Change)
    requires Reads(state, n) && state.delValues == {} && Normal(n)
    requires Carried(change) && (change.PlotEvent? ==> OnPlots(n.events, change, false))
    modifies state
    ensures Reads(state, ApplyChange(n, change)) && state.delValues == {} && contra == ContraOf(n, change)
  {
    contra := change;
    match change {
      case Admin(key, value) =>
        var prior := GetValue(state, n, key);
        PutValue(state, n, key, value.value);
        contra := Admin(key, prior);
      case BlockReward(id) => ChangeStake(state, n, id, BLOCK_REWARD);
      case PlotEvent(_, _, _, _) => ChangeOnPlots(state, n, change, true);
      case NewValidator(id, key) => PutKey(state, n, id, key);
      case Slash(id, amount) =>
        var delta := WrapI64(0 - WrapI64(amount));
        Store.AddStakeCongruent(n.stakes, id, delta, 0 - amount);
        ChangeStake(state, n, id, delta);
      case Transfer(from, to) => MoveStakes(state, n, from, to, false);
    }
  }

  /** Takes one change back. */
  method UndoOne(state: DbState, ghost n: Net, change: Change)
    requires Reads(state, n) && state.delValues == {} && Normal(n)
    requires Carried(change) && !change.NewValidator? && (change.PlotEvent? ==> OnPlots(n.events, change, true))
    modifies state
    ensures Reads(state, UndoChange(n, change)) && state.delValues == {}
  {
    match change {
      case Admin(key, value) => PutValue(state, n, key, value.value);
      case BlockReward(id) => ChangeStake(state, n, id, 0 - BLOCK_REWARD);
      case PlotEvent(_, _, _, _) => ChangeOnPlots(state, n, change, false);
      case Slash(id, amount) =>
        Store.AddStakeCongruent(n.stakes, id, WrapI64(amount), amount);
        ChangeStake(state, n, id, WrapI64(amount));
      case Transfer(from, to) => MoveStakes(state, n, from, to, true);
    }
  }

  // ---------------------------------------------------------------------------------------------
  // Whole mutations
  // ---------------------------------------------------------------------------------------------

  lemma {:induction false} FreshUpTo(n: Net, changes: seq<Change>, i: nat)
    requires Fresh(n, changes) && i <= |changes|
    ensures Fresh(n, changes[..i])
    decreases |changes| - i
  {
    if i == |changes| {
      assert changes[..i] == changes;
    } else {
      FreshUpTo(n, changes, i + 1);
      assert changes[..i + 1][..i] == changes[..i];
      Undoing.FreshPrefix(n, changes[..i + 1]);
    }
  }

  /** The state that change `i` of a fresh mutation is applied to: normal and without the change's event,
      and with it afterwards. */
  lemma {:induction false} BeforeChange(n: Net, changes: seq<Change>, i: nat)
    requires Normal(n) && Fresh(n, changes) && i < |changes|
    ensures var m := Apply(n, changes[..i]);
            && Normal(m) && Apply(n, changes[..i + 1]) == ApplyChange(m, changes[i]) && Normal(ApplyChange(m, changes[i]))
            && (changes[i].PlotEvent? ==>
                  OnPlots(m.events, changes[i], false) && OnPlots(ApplyChange(m, changes[i]).events, changes[i], true))
  {
    var upTo, c := changes[..i + 1], changes[i];
    var m := Apply(n, changes[..i]);
    assert upTo[..i] == changes[..i];
    FreshUpTo(n, changes, i + 1);
    Undoing.ApplyNormal(n, changes[..i]);
    Undoing.ApplyChangeNormal(m, c);
    if c.PlotEvent? {
      forall p | p in c.Plots() ensures c.event !in EventsAt(m.events, p, c.tick) && c.event in EventsAt(ApplyChange(m, c).events, p, c.tick) {
        Undoing.FreshLast(n, upTo, p);
        Undoing.ChangeEventsAt(m.events, c.Plots(), c.tick, c.event, true, p, c.tick);
      }
    }
  }

  /** Applies a mutation that the duplicate rule accepts, as `_mutate` does. */
  method Mutate(state: DbState, ghost n: Net, changes: seq<Change>) returns (contra: seq<Change>)
    requires Reads(state, n) && state.delValues == {} && Normal(n) && Fresh(n, changes) && AllCarried(changes)
    modifies state
    ensures Reads(state, Apply(n, changes)) && state.delValues == {} && contra == Contra(n, changes)
  {
    contra := [];
    assert changes[..0] == [];
    for i := 0 to |changes|
      invariant Reads(state, Apply(n, changes[..i])) && state.delValues == {} && contra == Contra(n, changes[..i])
    {
      BeforeChange(n, changes, i);
      assert changes[..i + 1][..i] == changes[..i];
      var reverse := ApplyOne(state, Apply(n, changes[..i]), changes[i]);
      contra := [reverse] + contra;
    }
    assert changes[..|changes|] == changes;
  }

  lemma {:induction false} ContraLength(n: Net, changes: seq<Change>)
    ensures |Contra(n, changes)| == |changes|
  {
    if changes != [] { ContraLength(n, changes[..|changes| - 1]); }
  }

  /** The contra of the first `k` changes begins with the one that takes the last of them back. */
  lemma {:induction false} ContraNext(n: Net, changes: seq<Change>, k: nat, contra: seq<Change>)
    requires Normal(n) && Fresh(n, changes) && !AddsValidator(changes) && k <= |changes|
    requires contra == Contra(n, changes[..k]) && contra != []
    ensures k > 0
    ensures var m := Apply(n, changes[..k - 1]);
            && contra[0] == ContraOf(m, changes[k - 1]) && contra[1..] == Contra(n, changes[..k - 1])
            && UndoChange(ApplyChange(m, changes[k - 1]), contra[0]) == m
  {
    ContraLength(n, changes[..k]);
    assert changes[..k][..k - 1] == changes[..k - 1];
    BeforeChange(n, changes, k - 1);
    var m, c := Apply(n, changes[..k - 1]), changes[k - 1];
    Undoing.ChangeCancels(m, c);
    assert Contra(n, changes[..k]) == [ContraOf(m, c)] + Contra(n, changes[..k - 1]);
  }

  /** Takes a mutation back with its contra, as `_undo_mutate` does. */
  method UndoMutate(state: DbState, ghost n: Net, ghost changes: seq<Change>, contra: seq<Change>)
    requires Normal(n) && Fresh(n, changes) && !AddsValidator(changes) && contra == Contra(n, changes) && AllCarried(contra)
    requires Reads(state, Apply(n, changes)) && state.delValues == {}
    modifies state
    ensures Reads(state, n) && state.delValues == {}
  {
    ghost var k := |changes|;
    assert changes[..k] == changes;
    for i := 0 to |contra|
      invariant k + i == |changes| && contra[i..] == Contra(n, changes[..k])
      invariant Reads(state, Apply(n, changes[..k])) && state.delValues == {}
    {
      ContraNext(n, changes, k, contra[i..]);
      BeforeChange(n, changes, k - 1);
      k := k - 1;
      UndoOne(state, ApplyChange(Apply(n, changes[..k]), changes[k]), contra[i]);
      assert contra[i..][1..] == contra[i + 1..];
    }
    ContraLength(n, changes[..k]);
    assert changes[..k] == [];
  }

  // ---------------------------------------------------------------------------------------------
  // Walking
  // ---------------------------------------------------------------------------------------------

  /** The state of a branch at a height. */
  ghost function ReplayAt(t: Tree, x: U256, h: nat): Net
    requires Rooted(t) && Node(t, x) && h <= Height(t, x)
  {
    AtHeight(t, x, h);
    Replay(t, At(t, x, h))
  }

  /** The block of the branch at a height can be undone, and the diff can carry its contra. */
  ghost predicate Lowers(t: Tree, a: U256, h: nat)
    requires Rooted(t) && Node(t, a) && 0 < h <= Height(t, a)
  {
    AtHeight(t, a, h);
    UndoableAt(t, a, h) && AllCarried(ContraAt(t, At(t, a, h)))
  }

  /** The block of the branch at a height passes the duplicate rule, and the diff can carry it. */
  ghost predicate Raises(t: Tree, b: U256, h: nat)
    requires Rooted(t) && Node(t, b) && 0 < h <= Height(t, b)
  {
    AtHeight(t, b, h);
    assert Placed(t, At(t, b, h));
    FreshOn(t, b, h) && AllCarried(t.body[At(t, b, h)])
  }

  /** So is every block on the way from `a` to `b`. */
  ghost predicate Walkable(t: Tree, a: U256, b: U256)
    requires Rooted(t) && Node(t, a) && Node(t, b)
  {
    && (forall h: nat {:trigger Lowers(t, a, h)} :: Fork(t, a, b) < h <= Height(t, a) ==> Lowers(t, a, h))
    && (forall h: nat {:trigger Raises(t, b, h)} :: Fork(t, a, b) < h <= Height(t, b) ==> Raises(t, b, h))
  }

  /** A block of a branch, the state before it and its contra. */
  lemma {:induction false} BlockStep(t: Tree, x: U256, h: nat)
    requires Rooted(t) && Node(t, x) && 0 < h <= Height(t, x)
    ensures At(t, x, h) in t.height && Placed(t, At(t, x, h))
    ensures var n, body := ReplayAt(t, x, h - 1), t.body[At(t, x, h)];
            && Normal(n) && ReplayAt(t, x, h) == Apply(n, body) && ContraAt(t, At(t, x, h)) == Contra(n, body)
            && (FreshOn(t, x, h) <==> Fresh(n, body))
  {
    AtHeight(t, x, h);
    AtHeight(t, x, h - 1);
    AtPrev(t, x, h);
    assert Placed(t, At(t, x, h));
    ReplayNormal(t, At(t, x, h - 1));
  }

  /** The blocks to undo down to height `f`, with their heights in order and their contras. */
  ghost predicate DownPlan(t: Tree, a: U256, f: nat, keys: seq<nat>, down: map<nat, U256>, contras: map<U256, seq<Change>>)
    requires Rooted(t) && a in t.height
  {
    && 1 <= f <= Height(t, a) && down == Branch(t, a, f) && Stretch(keys, f, Height(t, a))
    && HasContras(t, contras, a) && RightContras(t, contras)
    && forall h: nat {:trigger Lowers(t, a, h)} :: f < h <= Height(t, a) ==> Lowers(t, a, h)
  }

  /** The blocks to apply above height `f`, with their heights in order and their mutations. */
  ghost predicate UpPlan(t: Tree, b: U256, f: nat, keys: seq<nat>, up: map<nat, U256>, bodies: map<U256, seq<Change>>)
    requires Rooted(t) && b in t.height
  {
    && 1 <= f <= Height(t, b) && up == Branch(t, b, f) && Stretch(keys, f, Height(t, b)) && bodies == t.body
    && forall h: nat {:trigger Raises(t, b, h)} :: f < h <= Height(t, b) ==> Raises(t, b, h)
  }

  lemma {:induction false} DownOne(t: Tree, a: U256, f: nat, keys: seq<nat>, down: map<nat, U256>, contras: map<U256, seq<Change>>, i: nat)
    requires Rooted(t) && a in t.height && DownPlan(t, a, f, keys, down, contras) && i < |keys|
    ensures var h := f + 1 + i;
            && keys[i] == h <= Height(t, a) && h in down && down[h] in contras && down[h] in t.body
            && (var n, body, contra := ReplayAt(t, a, h - 1), t.body[down[h]], contras[down[h]];
                && Normal(n) && Fresh(n, body) && !AddsValidator(body) && contra == Contra(n, body) && AllCarried(contra)
                && ReplayAt(t, a, h) == Apply(n, body))
  {
    var h := f + 1 + i;
    BranchBlock(t, a, f, h);
    BlockStep(t, a, h);
    assert Lowers(t, a, h) && HasContra(t, contras, a, h) && RightContra(t, contras, down[h]);
  }

  lemma {:induction false} UpOne(t: Tree, b: U256, f: nat, keys: seq<nat>, up: map<nat, U256>, bodies: map<U256, seq<Change>>, i: nat)
    requires Rooted(t) && b in t.height && UpPlan(t, b, f, keys, up, bodies) && i < |keys|
    ensures var h := f + 1 + i;
            && keys[i] == h <= Height(t, b) && h in up && up[h] in bodies
            && (var n, body := ReplayAt(t, b, h - 1), bodies[up[h]];
                Normal(n) && Fresh(n, body) && AllCarried(body) && ReplayAt(t, b, h) == Apply(n, body))
  {
    var h := f + 1 + i;
    BranchBlock(t, b, f, h);
    BlockStep(t, b, h);
    assert Raises(t, b, h);
  }

  /** Undoes one listed block. */
  method LowerOne(state: DbState, ghost t: Tree, ghost a: U256, ghost f: nat, keys: seq<nat>, down: map<nat, U256>,
                  contras: map<U256, seq<Change>>, i: nat)
    requires Rooted(t) && a in t.height && DownPlan(t, a, f, keys, down, contras) && i < |keys| == Height(t, a) - f
    requires Reads(state, ReplayAt(t, a, f + 1 + i)) && state.delValues == {}
    modifies state
    ensures Reads(state, ReplayAt(t, a, f + i)) && state.delValues == {}
  {
    DownOne(t, a, f, keys, down, contras, i);
    var c := down[keys[i]];
    UndoMutate(state, ReplayAt(t, a, f + i), t.body[c], contras[c]);
  }

  /** Applies one listed block. */
  method RaiseOne(state: DbState, ghost t: Tree, ghost b: U256, ghost f: nat, keys: seq<nat>, up: map<nat, U256>,
                  bodies: map<U256, seq<Change>>, i: nat)
    requires Rooted(t) && b in t.height && UpPlan(t, b, f, keys, up, bodies) && i < |keys| == Height(t, b) - f
    requires Reads(state, ReplayAt(t, b, f + i)) && state.delValues == {}
    modifies state
    ensures Reads(state, ReplayAt(t, b, f + 1 + i)) && state.delValues == {}
  {
    UpOne(t, b, f, keys, up, bodies, i);
    var _ := Mutate(state, ReplayAt(t, b, f + i), bodies[up[keys[i]]]);
  }

  /** Undoes the listed blocks, highest first. */
  method LowerState(state: DbState, ghost t: Tree, ghost a: U256, ghost f: nat, keys: seq<nat>, down: map<nat, U256>,
                    contras: map<U256, seq<Change>>)
    requires Rooted(t) && a in t.height && DownPlan(t, a, f, keys, down, contras)
    requires Reads(state, ReplayAt(t, a, Height(t, a))) && state.delValues == {}
    modifies state
    ensures Reads(state, ReplayAt(t, a, f)) && state.delValues == {}
  {
    var i := |keys|;
    while i > 0
      invariant 0 <= i <= |keys| == Height(t, a) - f && Reads(state, ReplayAt(t, a, f + i)) && state.delValues == {}
    {
      i := i - 1;
      LowerOne(state, t, a, f, keys, down, contras, i);
    }
  }

  /** Applies the listed blocks, lowest first. */
  method RaiseState(state: DbState, ghost t: Tree, ghost b: U256, ghost f: nat, keys: seq<nat>, up: map<nat, U256>,
                    bodies: map<U256, seq<Change>>)
    requires Rooted(t) && b in t.height && UpPlan(t, b, f, keys, up, bodies)
    requires Reads(state, ReplayAt(t, b, f)) && state.delValues == {}
    modifies state
    ensures Reads(state, ReplayAt(t, b, Height(t, b))) && state.delValues == {}
  {
    for i := 0 to |keys|
      invariant |keys| == Height(t, b) - f && Reads(state, ReplayAt(t, b, f + i)) && state.delValues == {}
    {
      RaiseOne(state, t, b, f, keys, up, bodies, i);
    }
  }

  /** Walks a state from one block to another, as `walk` does. */
  method WalkState(state: DbState, headers: Headers, bodies: map<U256, seq<Change>>, contras: map<U256, seq<Change>>,
                   ghost t: Tree, a: U256, b: U256, height: nat)
    requires Rooted(t) && Describes(headers, t) && bodies == t.body && a in t.height && b in t.height && height == Height(t, a)
    requires HasContras(t, contras, a) && RightContras(t, contras) && Walkable(t, a, b)
    requires Reads(state, Replay(t, a)) && state.delValues == {}
    modifies state
    ensures Reads(state, Replay(t, b)) && state.delValues == {}
  {
    ghost var f := Fork(t, a, b);
    ForkAboveRoot(t, a, b);
    var down, up := CalculateBlockPath(headers, t, a, b, height);
    var downKeys := SortedKeys(down);
    var upKeys := SortedKeys(up);
    SortedStretch(downKeys, f, Height(t, a));
    SortedStretch(upKeys, f, Height(t, b));
    LowerState(state, t, a, f, downKeys, down, contras);
    RaiseState(state, t, b, f, upKeys, up, bodies);
  }

  // ---------------------------------------------------------------------------------------------
  // The step of the record keeper
  // ---------------------------------------------------------------------------------------------

  /** The block the chain ends in once a child of a known block was recorded: the head stays on ties. */
  function NextHead(c: Chain, block: Block): U256
    requires block.prev in c.tree.height
  {
    if c.tree.height[block.prev] == c.head.height then block.hash else c.head.block
  }

  /** The step to the new block is one that a diff can carry. */
  ghost predicate StepCarried(c: Chain, block: Block)
    requires Structured(c) && block.hash !in c.tree.height && block.hash != U256_ZERO && block.prev in c.tree.height
  {
    GrownRooted(c.tree, block.hash, block.prev, block.changes);
    Walkable(Extended(c, block).tree, c.head.block, NextHead(c, block))
  }

  /** What is known of the tree with the new block before the step. */
  lemma {:induction false} BeforeStep(c: Chain, n: Net, block: Block)
    requires Consistent(c, n) && block.hash !in c.tree.height && block.hash != U256_ZERO && block.prev in c.tree.height
    requires StepCarried(c, block)
    ensures var t, a, b := Extended(c, block).tree, c.head.block, NextHead(c, block);
            && Rooted(t) && a in t.height && b in t.height && Height(t, a) == c.head.height
            && HasContras(t, c.contras, a) && RightContras(t, c.contras) && n == Replay(t, a)
            && Walkable(t, a, b) && Undoable(t, a, b)
  {
    ExtendedConsistent(c, n, block);
    var t, a, b := Extended(c, block).tree, c.head.block, NextHead(c, block);
    forall h: nat | Fork(t, a, b) < h <= Height(t, a) ensures UndoableAt(t, a, h) { assert Lowers(t, a, h); }
  }

  lemma {:induction false} ApplyKeepsEvent(n: Net, changes: seq<Change>, p: PlotID, t: nat, e: RawEvent)
    requires e in EventsAt(n.events, p, t)
    ensures e in EventsAt(Apply(n, changes).events, p, t)
  {
    if changes != [] {
      var init, c := changes[..|changes| - 1], changes[|changes| - 1];
      ApplyKeepsEvent(n, init, p, t, e);
      if c.PlotEvent? { Undoing.ChangeEventsAt(Apply(n, init).events, c.Plots(), c.tick, c.event, true, p, t); }
    }
  }

  lemma {:induction false} BranchKeepsEvent(t: Tree, b: U256, h: nat, p: PlotID, tick: nat, e: RawEvent)
    requires Rooted(t) && Node(t, b) && h <= Height(t, b) && e in EventsAt(ReplayAt(t, b, h).events, p, tick)
    ensures e in EventsAt(Replay(t, b).events, p, tick)
    decreases Height(t, b)
  {
    if h != Height(t, b) {
      assert Placed(t, b);
      BranchKeepsEvent(t, t.prev[b], h, p, tick, e);
      ApplyKeepsEvent(Replay(t, t.prev[b]), t.body[b], p, tick, e);
    }
  }

  /** When no block is undone, no event is dropped. */
  lemma {:induction false} UpDropsNothing(t: Tree, a: U256, b: U256)
    requires Rooted(t) && Node(t, a) && Node(t, b) && Fork(t, a, b) == Height(t, a)
    ensures NoneDropped(Replay(t, a).events, Replay(t, b).events)
  {
    forall p, tick: nat, e | e in EventsAt(Replay(t, a).events, p, tick) ensures e in EventsAt(Replay(t, b).events, p, tick) {
      BranchKeepsEvent(t, b, Height(t, a), p, tick, e);
    }
  }

  /** The record keeper's step on two databases that read alike: `db` is changed in place, the other, whose
      network entries are given, through a copy-on-write state. Both end as the replay of the new head:
      the second exactly when no event is dropped with a late removal; when no block was undone, always. */
  method AcceptLayered(db: Database, values: Values, buckets: Store.Buckets, block: Block)
    returns (values': Values, buckets': Store.Buckets)
    requires db.Valid() && AtTip(db.View()) && db.headers.Keys == db.heights.Keys
    requires block.hash != U256_ZERO && (block.shard == U256_ZERO || block.shard == db.shard)
    requires block.hash !in db.heights && block.prev in db.heights && StepCarried(db.View(), block)
    requires BaseReads(values, buckets, db.store.Abs())
    modifies db, db.store
    ensures db.Valid() && db.head.block == old(NextHead(db.View(), block))
    ensures db.View().tree == old(Extended(db.View(), block)).tree && db.store.Abs() == Replay(db.View().tree, db.head.block)
    ensures BaseReads(values', buckets', db.store.Abs()) <==> NoneDropped(old(db.store.Abs()).events, db.store.Abs().events)
    ensures Fork(db.View().tree, old(db.head).block, db.head.block) == old(db.head).height ==>
              BaseReads(values', buckets', db.store.Abs())
  {
    var from, contras := db.head, db.contras;
    BeforeStep(db.View(), db.store.Abs(), block);
    ghost var t := Extended(db.View(), block).tree;
    var _ := db.Accept(block);
    DescribedByHeaders(db);
    values', buckets' := Layered(values, buckets, db.headers, db.bodies, contras, t, from.block, db.head.block, from.height);
    if Fork(t, from.block, db.head.block) == from.height { UpDropsNothing(t, from.block, db.head.block); }
  }

  /** The part of the step that goes through the copy-on-write state. */
  method Layered(values: Values, buckets: Store.Buckets, headers: Headers, bodies: map<U256, seq<Change>>,
                 contras: map<U256, seq<Change>>, ghost t: Tree, a: U256, b: U256, height: nat)
    returns (values': Values, buckets': Store.Buckets)
    requires Rooted(t) && Describes(headers, t) && bodies == t.body && a in t.height && b in t.height && height == Height(t, a)
    requires HasContras(t, contras, a) && RightContras(t, contras) && Walkable(t, a, b)
    requires BaseReads(values, buckets, Replay(t, a))
    ensures BaseReads(values', buckets', Replay(t, b)) <==> NoneDropped(Replay(t, a).events, Replay(t, b).events)
  {
    var state := Over(values, buckets, Replay(t, a));
    WalkState(state, headers, bodies, contras, t, a, b, height);
    values', buckets' := Commit(state, Replay(t, a), Replay(t, b));
  }

  /** The headers of a database are those of its tree. */
  lemma {:induction false} DescribedByHeaders(db: Database)
    ensures Describes(db.headers, db.View().tree)
  {
  }

  // ---------------------------------------------------------------------------------------------
  // A step that loses an event
  // ---------------------------------------------------------------------------------------------

  /** A root that records an event at tick 1600 of a plot, a child `x` that records another at tick 1500,
      and a longer branch of empty blocks beside it. */
  ghost predicate Forked(t: Tree, root: U256, x: U256, y: U256, z: U256, p: PlotID) {
    && Rooted(t) && root in t.height && x in t.height && y in t.height && z in t.height && x != y
    && Placed(t, root) && Placed(t, x) && Placed(t, y) && Placed(t, z)
    && t.height[root] == 1 && t.prev[x] == root && t.prev[y] == root && t.prev[z] == y
    && t.body[root] == [PlotEvent(p, {}, 1600, [2])] && t.body[x] == [PlotEvent(p, {}, 1500, [1])]
    && t.body[y] == [] && t.body[z] == []
  }

  lemma {:induction false} ApplySingle(n: Net, c: Change)
    ensures Apply(n, [c]) == ApplyChange(n, c) && Contra(n, [c]) == [ContraOf(n, c)]
  {
    assert [c][..0] == [];
  }

  lemma {:induction false} ForkedFork(t: Tree, root: U256, x: U256, y: U256, z: U256, p: PlotID)
    requires Forked(t, root, x, y, z, p)
    ensures Height(t, x) == 2 && Height(t, z) == 3 && At(t, x, 2) == x && At(t, z, 2) == y && At(t, z, 3) == z
    ensures Fork(t, x, z) == 1
  {
    assert At(t, root, 1) == root && At(t, y, 1) == At(t, t.prev[y], 1) && At(t, z, 2) == At(t, t.prev[z], 2);
    assert At(t, x, 1) == root && At(t, z, 1) == At(t, t.prev[z], 1) == root;
    forall h: nat | 1 < h <= Height(t, x) && h <= Height(t, z) ensures Differ(t, x, z, h) { assert h == 2; }
    assert IsFork(t, x, z, 1);
    ForkUnique(t, x, z, 1, Fork(t, x, z));
  }

  lemma {:induction false} ForkedStates(t: Tree, root: U256, x: U256, y: U256, z: U256, p: PlotID)
    requires Forked(t, root, x, y, z, p)
    ensures Replay(t, x) == ApplyChange(Replay(t, root), PlotEvent(p, {}, 1500, [1])) && Replay(t, z) == Replay(t, y) == Replay(t, root)
    ensures EventsAt(Replay(t, root).events, p, 1600) == [[2]] && EventsAt(Replay(t, root).events, p, 1500) == []
    ensures EventsAt(Replay(t, x).events, p, 1600) == [[2]] && EventsAt(Replay(t, x).events, p, 1500) == [[1]]
  {
    var first, second := PlotEvent(p, {}, 1600, [2]), PlotEvent(p, {}, 1500, [1]);
    assert Replay(t, root) == Apply(EMPTY, [first]);
    ApplySingle(EMPTY, first);
    ApplySingle(Replay(t, root), second);
    Undoing.ChangeEventsAt(map[], {p} + {}, 1600, [2], true, p, 1600);
    Undoing.ChangeEventsAt(map[], {p} + {}, 1600, [2], true, p, 1500);
    Undoing.ChangeEventsAt(Replay(t, root).events, {p} + {}, 1500, [1], true, p, 1600);
    Undoing.ChangeEventsAt(Replay(t, root).events, {p} + {}, 1500, [1], true, p, 1500);
  }

  /** Walking from `x` to the longer branch is a step a diff can carry, but applying its batch drops the
      event at tick 1600, which nobody undid, together with the one at tick 1500. */
  lemma {:induction false} ReorganisationDrops(t: Tree, root: U256, x: U256, y: U256, z: U256, p: PlotID)
    requires Forked(t, root, x, y, z, p)
    ensures Walkable(t, x, z) && !NoneDropped(Replay(t, x).events, Replay(t, z).events)
    ensures [2] in EventsAt(Replay(t, z).events, p, 1600)
  {
    ForkedFork(t, root, x, y, z, p);
    ForkedStates(t, root, x, y, z, p);
    var second := PlotEvent(p, {}, 1500, [1]);
    ApplySingle(Replay(t, root), second);
    assert Fresh(Replay(t, root), [second]) && AllCarried(ContraAt(t, x));
    assert Lowers(t, x, 2);
    assert Raises(t, z, 2) && Raises(t, z, 3);
    forall h: nat | Fork(t, x, z) < h <= Height(t, x) ensures Lowers(t, x, h) { assert h == 2; }
    forall h: nat | Fork(t, x, z) < h <= Height(t, z) ensures Raises(t, z, h) { assert h == 2 || h == 3; }
    assert Store.BucketOf(1500) == Store.BucketOf(1600) == 1;
    assert [1] in EventsAt(Replay(t, x).events, p, 1500) && [1] !in EventsAt(Replay(t, z).events, p, 1500);
    assert LosesIn(Replay(t, x).events, Replay(t, z).events, p, 1);
    forall u: nat, e | e in EventsAt(Replay(t, z).events, p, u) ensures e in EventsAt(Replay(t, x).events, p, u) {
      Undoing.ChangeEventsAt(Replay(t, root).events, {p} + {}, 1500, [1], true, p, u);
    }
    assert !GainsFrom(Replay(t, x).events, Replay(t, z).events, p, 1);
    assert [2] in EventsAt(Replay(t, x).events, p, 1600);
  }
}
