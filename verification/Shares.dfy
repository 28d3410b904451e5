/**
  The `Shares` rule for transfers, and what it buys: an accepted mutation moves stake in 64-bit
  arithmetic without a single step leaving its range, forwards and backwards, and creates none.
 */
module Shares {
  import opened Primitives
  import opened Network
  import Undoing
  import Store

  // ---------------------------------------------------------------------------------------------
  // Reference
  // ---------------------------------------------------------------------------------------------

  /** What one change charges to an account. */
  ghost function Charge(c: Change, x: U160): nat {
    if c.Transfer? && c.sender == x then Total(c.recipients) else 0
  }

  /** Everything an account sends in a mutation. */
  ghost function Sent(changes: seq<Change>, x: U160): nat {
    if changes == [] then 0
    else Sent(changes[..|changes| - 1], x) + Charge(changes[|changes| - 1], x)
  }

  predicate Sends(changes: seq<Change>, x: U160) {
    exists i :: 0 <= i < |changes| && changes[i].Transfer? && changes[i].sender == x
  }

  /** A change may be a transfer only from its creator's account or from the administrator's. */
  predicate SignerOk(c: Change, creator: U160, admin: Option<U160>) {
    c.Transfer? ==> c.sender == creator || admin == Some(c.sender)
  }

  ghost predicate CanPay(stakes: Stakes, changes: seq<Change>, x: U160) {
    x in stakes && Sent(changes, x) <= stakes[x] && Sent(changes, x) < 0x8000_0000_0000_0000
  }

  /** The rule, declaratively: `creators[i]` signed `changes[i]`. */
  ghost predicate SharesOk(stakes: Stakes, admin: Option<U160>, changes: seq<Change>, creators: seq<U160>)
    requires |changes| == |creators|
  {
    && (forall i :: 0 <= i < |changes| ==> SignerOk(changes[i], creators[i], admin))
    && (forall x :: Sends(changes, x) ==> CanPay(stakes, changes, x))
  }

  /** In full: nobody but the creator or the administrator is a sender, and every sender has a stored
      stake that covers all its transfers, which together stay below 2^63. */
  lemma {:induction false} SharesMean(stakes: Stakes, admin: Option<U160>, changes: seq<Change>, creators: seq<U160>)
    requires |changes| == |creators|
    ensures SharesOk(stakes, admin, changes, creators) <==>
            forall i :: 0 <= i < |changes| && changes[i].Transfer? ==>
              var from := changes[i].sender;
              && (from == creators[i] || (admin.Some? && from == admin.value))
              && from in stakes && Sent(changes, from) <= stakes[from] && Sent(changes, from) < 0x8000_0000_0000_0000
  {
    if SharesOk(stakes, admin, changes, creators) {
      forall i | 0 <= i < |changes| && changes[i].Transfer? ensures CanPay(stakes, changes, changes[i].sender) && SignerOk(changes[i], creators[i], admin) {
        assert Sends(changes, changes[i].sender);
      }
    }
  }

  /** What an account sends is the sum of its transfers' amounts. */
  lemma {:induction false} SentMeans(changes: seq<Change>, c: Change, x: U160)
    ensures Sent([], x) == 0
    ensures Sent(changes + [c], x) == Sent(changes, x) + if c.Transfer? && c.sender == x then Total(c.recipients) else 0
  {
    assert (changes + [c])[..|changes|] == changes;
  }

  // ---------------------------------------------------------------------------------------------
  // The rule
  // ---------------------------------------------------------------------------------------------

  lemma {:induction false} SentGrows(changes: seq<Change>, i: nat, x: U160)
    requires i <= |changes|
    ensures Sent(changes[..i], x) <= Sent(changes, x)
    decreases |changes|
  {
    if i == |changes| {
      assert changes[..i] == changes;
    } else {
      var init := changes[..|changes| - 1];
      assert init[..i] == changes[..i];
      SentGrows(init, i, x);
    }
  }

  lemma {:induction false} SentNext(changes: seq<Change>, i: nat, x: U160)
    requires i < |changes|
    ensures Sent(changes[..i + 1], x) == Sent(changes[..i], x) + Charge(changes[i], x)
  {
    assert changes[..i + 1][..i] == changes[..i];
  }

  /** Checked sum of the amounts of one transfer. */
  method Subtotal(to: map<U160, U64>) returns (r: Option<U64>)
    ensures r.Some? <==> Total(to) < 0x1_0000_0000_0000_0000
    ensures r.Some? ==> r.value == Total(to)
  {
    var rest, sum: U64 := to, 0;
    while rest != map[]
      invariant sum + Total(rest) == Total(to)
      decreases |rest|
    {
      var id :| id in rest;
      Store.TotalRemove(rest, id);
      assert rest.Keys == (rest - {id}).Keys + {id};
      if sum + rest[id] >= 0x1_0000_0000_0000_0000 { return None; }
      sum := sum + rest[id];
      rest := rest - {id};
    }
    r := Some(sum);
  }

  /** The table of amounts sent so far. */
  ghost predicate Tallied(senders: Stakes, changes: seq<Change>) {
    forall x :: (x in senders <==> Sends(changes, x)) && (x in senders ==> senders[x] == Sent(changes, x))
  }

  lemma {:induction false} SendsNext(changes: seq<Change>, i: nat, x: U160)
    requires i < |changes|
    ensures Sends(changes[..i + 1], x) <==> Sends(changes[..i], x) || (changes[i].Transfer? && changes[i].sender == x)
  {
    var init, more := changes[..i], changes[..i + 1];
    if Sends(init, x) {
      var k :| 0 <= k < |init| && init[k].Transfer? && init[k].sender == x;
      assert more[k] == init[k];
    }
    if changes[i].Transfer? && changes[i].sender == x { assert more[i] == changes[i]; }
    if Sends(more, x) {
      var k :| 0 <= k < |more| && more[k].Transfer? && more[k].sender == x;
      if k < i { assert init[k] == more[k]; }
    }
  }

  lemma {:induction false} NothingSent(changes: seq<Change>, x: U160)
    requires !Sends(changes, x)
    ensures Sent(changes, x) == 0
  {
    if changes != [] {
      var i := |changes| - 1;
      SendsNext(changes, i, x);
      assert changes[..i + 1] == changes;
      NothingSent(changes[..i], x);
    }
  }

  lemma {:induction false} TalliedNext(senders: Stakes, changes: seq<Change>, i: nat)
    requires i < |changes| && Tallied(senders, changes[..i])
    ensures !changes[i].Transfer? ==> Tallied(senders, changes[..i + 1])
    ensures changes[i].Transfer? ==>
              var from, total := changes[i].sender, Total(changes[i].recipients) + StakeOf(senders, changes[i].sender);
              && total == Sent(changes[..i + 1], from)
              && (total < 0x1_0000_0000_0000_0000 ==> Tallied(senders[from := total], changes[..i + 1]))
  {
    forall x ensures Sent(changes[..i + 1], x) == Sent(changes[..i], x) + Charge(changes[i], x) { SentNext(changes, i, x); }
    forall x ensures Sends(changes[..i + 1], x) <==> Sends(changes[..i], x) || (changes[i].Transfer? && changes[i].sender == x) {
      SendsNext(changes, i, x);
    }
    if changes[i].Transfer? && changes[i].sender !in senders { NothingSent(changes[..i], changes[i].sender); }
  }

  /** Adds up what every account sends, in checked arithmetic. */
  method Tally(admin: Option<U160>, changes: seq<Change>, creators: seq<U160>) returns (r: Result<Stakes>)
    requires |changes| == |creators|
    ensures r.Ok? ==> Tallied(r.value, changes) && forall i :: 0 <= i < |changes| ==> SignerOk(changes[i], creators[i], admin)
    ensures r.Err? ==> r.error in {NotFound, InvalidSigner, InvalidMutation}
    ensures r.Err? && r.error == InvalidMutation ==>
              exists x :: Sends(changes, x) && Sent(changes, x) >= 0x1_0000_0000_0000_0000
    ensures r.Err? && r.error != InvalidMutation ==>
              (r.error == NotFound <==> admin.None?) && exists i :: 0 <= i < |changes| && !SignerOk(changes[i], creators[i], admin)
  {
    var senders: Stakes := map[];
    for i := 0 to |changes|
      invariant Tallied(senders, changes[..i])
      invariant forall k :: 0 <= k < i ==> SignerOk(changes[k], creators[k], admin)
    {
      TalliedNext(senders, changes, i);
      var c := changes[i];
      if c.Transfer? {
        if c.sender != creators[i] {
          if admin.None? { return Err(NotFound); }
          if c.sender != admin.value { return Err(InvalidSigner); }
        }
        var subtotal := Subtotal(c.recipients);
        SentGrows(changes, i + 1, c.sender);
        if subtotal.None? { return Err(InvalidMutation); }
        var prior: int := StakeOf(senders, c.sender);
        if subtotal.value + prior >= 0x1_0000_0000_0000_0000 { return Err(InvalidMutation); }
        senders := senders[c.sender := subtotal.value + prior];
      }
    }
    assert changes[..|changes|] == changes;
    r := Ok(senders);
  }

  /** Compares what every sender spends with its stake, in whatever order. */
  method CheckBalances(stakes: Stakes, senders: Stakes) returns (r: Option<Error>)
    ensures r.None? <==> forall x :: x in senders ==> x in stakes && senders[x] <= stakes[x] && senders[x] < 0x8000_0000_0000_0000
    ensures r == Some(NotFound) ==> exists x :: x in senders && x !in stakes
    ensures r == Some(NotEnoughShares) ==> exists x :: x in senders && x in stakes && stakes[x] < senders[x]
    ensures r == Some(InvalidMutation) ==> exists x :: x in senders && senders[x] >= 0x8000_0000_0000_0000
    ensures r.Some? ==> r.value in {NotFound, NotEnoughShares, InvalidMutation}
  {
    var todo := senders.Keys;
    while todo != {}
      invariant todo <= senders.Keys
      invariant forall x :: x in senders && x !in todo ==> x in stakes && senders[x] <= stakes[x] && senders[x] < 0x8000_0000_0000_0000
      decreases |todo|
    {
      var x :| x in todo;
      if x !in stakes { return Some(NotFound); }
      if stakes[x] < senders[x] { return Some(NotEnoughShares); }
      if senders[x] > 0x7fff_ffff_ffff_ffff { return Some(InvalidMutation); }
      todo := todo - {x};
    }
    r := None;
  }

  /** The rule accepts exactly the mutations of `SharesOk`. */
  method IsValid(stakes: Stakes, admin: Option<U160>, changes: seq<Change>, creators: seq<U160>) returns (r: Option<Error>)
    requires |changes| == |creators|
    ensures r.None? <==> SharesOk(stakes, admin, changes, creators)
    ensures r == Some(InvalidSigner) ==> exists i :: 0 <= i < |changes| && !SignerOk(changes[i], creators[i], admin)
    ensures r == Some(NotEnoughShares) ==> exists x :: x in stakes && stakes[x] < Sent(changes, x)
    ensures r == Some(InvalidMutation) ==> exists x :: Sends(changes, x) && Sent(changes, x) >= 0x8000_0000_0000_0000
  {
    var tally := Tally(admin, changes, creators);
    if tally.Err? {
      if tally.error == InvalidMutation {
        ghost var x :| Sends(changes, x) && Sent(changes, x) >= 0x1_0000_0000_0000_0000;
        assert !CanPay(stakes, changes, x);
      }
      return Some(tally.error);
    }
    r := CheckBalances(stakes, tally.value);
    if r.None? {
      forall x | Sends(changes, x) ensures CanPay(stakes, changes, x) { assert x in tally.value; }
    } else {
      ghost var x :| x in tally.value && !(x in stakes && tally.value[x] <= stakes[x] && tally.value[x] < 0x8000_0000_0000_0000);
      assert Sends(changes, x) && !CanPay(stakes, changes, x);
    }
  }

  // ---------------------------------------------------------------------------------------------
  // Exact transfers
  // ---------------------------------------------------------------------------------------------

  /** No step of a transfer, or of taking it back, leaves its 64-bit range. */
  ghost predicate Exact(stakes: Stakes, from: U160, to: map<U160, U64>, undo: bool) {
    && Payable(stakes, to, undo)
    && InU64(StakeOf(Credit(stakes, to, undo), from) + Signed(!undo, Total(to)))
  }

  predicate InU64(x: int) {
    0 <= x < 0x1_0000_0000_0000_0000
  }

  lemma {:induction false} TotalBounds(to: map<U160, U64>, id: U160)
    ensures StakeOf(to, id) <= Total(to)
  {
    if id in to { Store.TotalRemove(to, id); }
  }

  /** Partly paid: those not in `rest` have been credited. */
  ghost predicate Half(stakes: Stakes, stakes': Stakes, to: map<U160, U64>, rest: map<U160, U64>, undo: bool) {
    && rest.Keys <= to.Keys && (forall id :: id in rest ==> rest[id] == to[id])
    && forall x :: StakeOf(stakes', x) == HalfAt(stakes, to, rest, undo, x)
  }

  function HalfAt(stakes: Stakes, to: map<U160, U64>, rest: map<U160, U64>, undo: bool, x: U160): U64 {
    if x in rest then StakeOf(stakes, x) else CreditedAt(stakes, to, undo, x)
  }

  lemma {:induction false} HalfNextAt(stakes: Stakes, stakes': Stakes, to: map<U160, U64>, rest: map<U160, U64>, undo: bool, id: U160, v: U64, x: U160)
    requires StakeOf(stakes', x) == HalfAt(stakes, to, rest, undo, x)
    requires id in to && v == StakeOf(stakes, id) + Signed(undo, to[id])
    ensures StakeOf(stakes'[id := v], x) == HalfAt(stakes, to, rest - {id}, undo, x)
  {
  }

  lemma {:induction false} HalfNext(stakes: Stakes, stakes': Stakes, to: map<U160, U64>, rest: map<U160, U64>, undo: bool, id: U160, v: U64)
    requires Half(stakes, stakes', to, rest, undo) && id in rest && v == StakeOf(stakes, id) + Signed(undo, to[id])
    ensures StakeOf(stakes', id) == StakeOf(stakes, id)
    ensures Half(stakes, stakes'[id := v], to, rest - {id}, undo)
  {
    assert StakeOf(stakes', id) == HalfAt(stakes, to, rest, undo, id);
    forall x ensures StakeOf(stakes'[id := v], x) == HalfAt(stakes, to, rest - {id}, undo, x) {
      HalfNextAt(stakes, stakes', to, rest, undo, id, v, x);
    }
  }

  lemma {:induction false} HalfStarts(stakes: Stakes, to: map<U160, U64>, undo: bool)
    ensures Half(stakes, stakes, to, to, undo)
  {
  }

  lemma {:induction false} HalfEnds(stakes: Stakes, stakes': Stakes, to: map<U160, U64>, undo: bool)
    requires Half(stakes, stakes', to, map[], undo)
    ensures forall x :: StakeOf(stakes', x) == CreditedAt(stakes, to, undo, x)
  {
    forall x ensures StakeOf(stakes', x) == CreditedAt(stakes, to, undo, x) {
      assert StakeOf(stakes', x) == HalfAt(stakes, to, map[], undo, x);
    }
  }

  /** Changes one stake in plain arithmetic. */
  method ChangeExactly(stakes: Stakes, id: U160, delta: I64) returns (stakes': Stakes)
    requires InU64(StakeOf(stakes, id) + delta)
    ensures stakes' == stakes[id := StakeOf(stakes, id) + delta]
  {
    var value: U64 := StakeOf(stakes, id) + delta;
    stakes' := stakes[id := value];
  }

  ghost predicate Payable(stakes: Stakes, to: map<U160, U64>, undo: bool) {
    && Total(to) < 0x8000_0000_0000_0000
    && forall id :: id in to ==> InU64(StakeOf(stakes, id) + Signed(undo, to[id]))
  }

  ghost predicate Paying(stakes: Stakes, stakes': Stakes, to: map<U160, U64>, rest: map<U160, U64>, sum: I64, undo: bool) {
    Half(stakes, stakes', to, rest, undo) && sum + Total(rest) == Total(to)
  }

  lemma {:induction false} PayNext(stakes: Stakes, stakes': Stakes, to: map<U160, U64>, rest: map<U160, U64>, sum: I64, undo: bool, id: U160)
    requires Payable(stakes, to, undo) && Paying(stakes, stakes', to, rest, sum, undo) && id in rest
    ensures 0 <= rest[id] < 0x8000_0000_0000_0000 && sum + rest[id] < 0x8000_0000_0000_0000
    ensures InU64(StakeOf(stakes', id) + Signed(undo, rest[id]))
    ensures Paying(stakes, stakes'[id := StakeOf(stakes', id) + Signed(undo, rest[id])], to, rest - {id}, sum + rest[id], undo)
    ensures |rest - {id}| < |rest|
  {
    Store.TotalRemove(rest, id);
    assert rest[id] == to[id] && rest[id] <= Total(rest);
    TotalBounds(to, id);
    HalfNext(stakes, stakes', to, rest, undo, id, StakeOf(stakes, id) + Signed(undo, to[id]));
    assert rest.Keys == (rest - {id}).Keys + {id};
  }

  /** Pays the recipients, or takes the payments back, in plain arithmetic. Each value is declared with
      its machine type and no operation wraps: the body is accepted only because every step stays in
      range, whatever order the recipients come in. */
  method PayExactly(stakes: Stakes, to: map<U160, U64>, undo: bool) returns (stakes': Stakes, sum: I64)
    requires Payable(stakes, to, undo)
    ensures sum == Total(to) && forall x :: StakeOf(stakes', x) == CreditedAt(stakes, to, undo, x)
  {
    stakes', sum := stakes, 0;
    var rest := to;
    HalfStarts(stakes, to, undo);
    while rest != map[]
      invariant Paying(stakes, stakes', to, rest, sum, undo)
      decreases |rest|
    {
      var id :| id in rest;
      PayNext(stakes, stakes', to, rest, sum, undo, id);
      var amount: I64 := rest[id];
      stakes' := ChangeExactly(stakes', id, if undo then 0 - amount else amount);
      sum := sum + amount;
      rest := rest - {id};
    }
    HalfEnds(stakes, stakes', to, undo);
  }

  /** A whole transfer in plain arithmetic, with the outcome of the wrapping one. */
  method TransferExactly(stakes: Stakes, from: U160, to: map<U160, U64>, undo: bool) returns (stakes': Stakes)
    requires Exact(stakes, from, to, undo)
    ensures forall x :: StakeOf(stakes', x) == StakeOf(TransferStakes(stakes, from, to, undo), x)
  {
    var paid, sum := PayExactly(stakes, to, undo);
    Undoing.CreditAt(stakes, to, undo, from);
    stakes' := ChangeExactly(paid, from, if undo then sum else 0 - sum);
    forall x ensures StakeOf(stakes', x) == StakeOf(TransferStakes(stakes, from, to, undo), x) {
      Undoing.CreditAt(stakes, to, undo, x);
      ChargedAt(Credit(stakes, to, undo), from, Signed(!undo, Total(to)), paid, x);
    }
  }

  lemma {:induction false} ChargedAt(credited: Stakes, from: U160, delta: int, paid: Stakes, x: U160)
    requires StakeOf(paid, x) == StakeOf(credited, x) && StakeOf(paid, from) == StakeOf(credited, from)
    requires InU64(StakeOf(paid, from) + delta)
    ensures StakeOf(paid[from := StakeOf(paid, from) + delta], x) == StakeOf(AddStake(credited, from, delta), x)
  {
    Undoing.AddStakeAt(credited, from, delta, x);
  }

  // ---------------------------------------------------------------------------------------------
  // Conservation
  // ---------------------------------------------------------------------------------------------

  lemma {:induction false} TotalAddStake(stakes: Stakes, id: U160, delta: int)
    requires InU64(StakeOf(stakes, id) + delta)
    ensures Total(AddStake(stakes, id, delta)) == Total(stakes) + delta
  {
    var v := StakeOf(stakes, id) + delta;
    var others := stakes - {id};
    if id in stakes { Store.TotalRemove(stakes, id); } else { assert others == stakes; }
    if v != 0 {
      Store.TotalAdd(others, id, v);
      assert others[id := v] == stakes[id := v];
    }
  }

  lemma {:induction false} TotalCreditOne(stakes: Stakes, to: map<U160, U64>, id: U160, v: U64)
    requires id !in to && InU64(StakeOf(stakes, id) + v)
    ensures Total(Credit(stakes, to[id := v], false)) == Total(Credit(stakes, to, false)) + v
  {
    Store.CreditOneMore(stakes, to, id, v, false);
    Undoing.CreditAt(stakes, to, false, id);
    TotalAddStake(Credit(stakes, to, false), id, v);
  }

  lemma {:induction false} TotalCredit(stakes: Stakes, to: map<U160, U64>)
    requires NoZeroStake(stakes) && forall id :: id in to ==> InU64(StakeOf(stakes, id) + to[id])
    ensures Total(Credit(stakes, to, false)) == Total(stakes) + Total(to)
    decreases |to|
  {
    if to == map[] {
      Store.CreditNone(stakes, false);
    } else {
      var id :| id in to;
      var rest, v := to - {id}, to[id];
      assert to.Keys == rest.Keys + {id};
      assert to == rest[id := v];
      TotalCredit(stakes, rest);
      TotalCreditOne(stakes, rest, id, v);
      Store.TotalAdd(rest, id, v);
    }
  }

  /** What an account holds after a transfer it takes part in, in plain arithmetic. */
  lemma {:induction false} TransferPlain(stakes: Stakes, from: U160, to: map<U160, U64>, x: U160)
    requires Total(stakes) < 0x8000_0000_0000_0000 && Total(to) <= StakeOf(stakes, from)
    ensures StakeOf(to, x) <= Total(to) < 0x8000_0000_0000_0000 && StakeOf(stakes, x) < 0x8000_0000_0000_0000
    ensures StakeOf(TransferStakes(stakes, from, to, false), x) == StakeOf(stakes, x) + Undoing.Gain(from, to, x)
  {
    TotalBounds(stakes, from);
    TotalBounds(stakes, x);
    TotalBounds(to, x);
    Undoing.TransferAt(stakes, from, to, false, x);
    WrapSmall(StakeOf(stakes, x) + Undoing.Gain(from, to, x));
  }

  lemma {:induction false} WrapSmall(v: int)
    requires InU64(v)
    ensures WrapU64(v) == v
  {
  }

  lemma {:induction false} CreditPlain(stakes: Stakes, to: map<U160, U64>, undo: bool, x: U160)
    requires x in to ==> InU64(StakeOf(stakes, x) + Signed(undo, to[x]))
    ensures StakeOf(Credit(stakes, to, undo), x) == StakeOf(stakes, x) + Signed(undo, StakeOf(to, x))
  {
    Undoing.CreditAt(stakes, to, undo, x);
  }

  lemma {:induction false} ExactForwards(stakes: Stakes, from: U160, to: map<U160, U64>)
    requires Total(stakes) < 0x8000_0000_0000_0000 && Total(to) <= StakeOf(stakes, from)
    ensures Exact(stakes, from, to, false)
  {
    forall id | id in to ensures InU64(StakeOf(stakes, id) + Signed(false, to[id])) { TransferPlain(stakes, from, to, id); }
    TransferPlain(stakes, from, to, from);
    CreditPlain(stakes, to, false, from);
  }

  lemma {:induction false} ExactBackwards(stakes: Stakes, from: U160, to: map<U160, U64>)
    requires Total(stakes) < 0x8000_0000_0000_0000 && Total(to) <= StakeOf(stakes, from)
    ensures Exact(TransferStakes(stakes, from, to, false), from, to, true)
  {
    var after := TransferStakes(stakes, from, to, false);
    forall id | id in to ensures InU64(StakeOf(after, id) + Signed(true, to[id])) { TransferPlain(stakes, from, to, id); }
    TransferPlain(stakes, from, to, from);
    CreditPlain(after, to, true, from);
  }

  /** A transfer the sender can afford creates no stake. */
  lemma {:induction false} TransferConserves(stakes: Stakes, from: U160, to: map<U160, U64>)
    requires NoZeroStake(stakes) && Total(stakes) < 0x8000_0000_0000_0000 && Total(to) <= StakeOf(stakes, from)
    ensures Total(TransferStakes(stakes, from, to, false)) == Total(stakes)
  {
    ExactForwards(stakes, from, to);
    forall id | id in to ensures InU64(StakeOf(stakes, id) + to[id]) {
      assert InU64(StakeOf(stakes, id) + Signed(false, to[id]));
    }
    TotalCredit(stakes, to);
    TotalAddStake(Credit(stakes, to, false), from, 0 - Total(to));
  }

  /** Only transfers move stake. */
  predicate OnlyTransfers(changes: seq<Change>) {
    forall i :: 0 <= i < |changes| ==> !changes[i].BlockReward? && !changes[i].Slash?
  }

  /** A mutation whose senders can pay, part way through: nothing was created, and no account fell
      by more than what it sent. */
  lemma {:induction false} PartWay(n: Net, changes: seq<Change>, i: nat)
    requires i <= |changes| && Normal(n) && OnlyTransfers(changes) && Total(n.stakes) < 0x8000_0000_0000_0000
    requires forall x :: Sends(changes, x) ==> Sent(changes, x) <= StakeOf(n.stakes, x)
    ensures Total(Apply(n, changes[..i]).stakes) == Total(n.stakes)
    ensures forall x :: StakeOf(Apply(n, changes[..i]).stakes, x) + Sent(changes[..i], x) >= StakeOf(n.stakes, x)
    decreases i
  {
    if i > 0 {
      PartWay(n, changes, i - 1);
      var c, before := changes[i - 1], Apply(n, changes[..i - 1]);
      assert changes[..i][..i - 1] == changes[..i - 1];
      Undoing.ApplyNormal(n, changes[..i - 1]);
      if c.Transfer? {
        Affordable(n, changes, i - 1);
        TransferConserves(before.stakes, c.sender, c.recipients);
      }
      forall x ensures StakeOf(Apply(n, changes[..i]).stakes, x) + Sent(changes[..i], x) >= StakeOf(n.stakes, x) {
        SentNext(changes, i - 1, x);
        assert StakeOf(before.stakes, x) + Sent(changes[..i - 1], x) >= StakeOf(n.stakes, x);
        if c.Transfer? { TransferPlain(before.stakes, c.sender, c.recipients, x); }
      }
    }
  }

  /** Given where the previous changes left the accounts, the sender of the next transfer can pay. */
  lemma {:induction false} Affordable(n: Net, changes: seq<Change>, i: nat)
    requires i < |changes| && changes[i].Transfer?
    requires forall x :: Sends(changes, x) ==> Sent(changes, x) <= StakeOf(n.stakes, x)
    requires forall x :: StakeOf(Apply(n, changes[..i]).stakes, x) + Sent(changes[..i], x) >= StakeOf(n.stakes, x)
    ensures Total(changes[i].recipients) <= StakeOf(Apply(n, changes[..i]).stakes, changes[i].sender)
  {
    var from := changes[i].sender;
    SentNext(changes, i, from);
    SentGrows(changes, i + 1, from);
    assert Sends(changes, from);
  }

  /** Once `Shares` accepts a mutation that moves stake only by transfers, with all stake below 2^63:
      every transfer is exact where it is applied and where it is taken back, self-payments included,
      and the sum of all stakes never changes. */
  lemma {:induction false} AcceptedIsExact(stored: Stakes, n: Net, admin: Option<U160>, changes: seq<Change>, creators: seq<U160>, i: nat)
    requires Normal(n) && n.stakes == Store.AbsStakes(stored) && Total(n.stakes) < 0x8000_0000_0000_0000
    requires |changes| == |creators| && SharesOk(stored, admin, changes, creators) && OnlyTransfers(changes)
    requires i <= |changes|
    ensures Total(Apply(n, changes[..i]).stakes) == Total(n.stakes)
    ensures i < |changes| && changes[i].Transfer? ==>
              && Exact(Apply(n, changes[..i]).stakes, changes[i].sender, changes[i].recipients, false)
              && Exact(Apply(n, changes[..i + 1]).stakes, changes[i].sender, changes[i].recipients, true)
  {
    forall x | Sends(changes, x) ensures Sent(changes, x) <= StakeOf(n.stakes, x) {
      assert CanPay(stored, changes, x);
    }
    PartWay(n, changes, i);
    if i < |changes| && changes[i].Transfer? {
      Affordable(n, changes, i);
      ExactForwards(Apply(n, changes[..i]).stakes, changes[i].sender, changes[i].recipients);
      ExactBackwards(Apply(n, changes[..i]).stakes, changes[i].sender, changes[i].recipients);
      assert changes[..i + 1][..i] == changes[..i];
    }
  }

  /** The stakes seen while undoing are those seen while applying, in reverse. */
  lemma {:induction false} UndoRetraces(n: Net, changes: seq<Change>, i: nat, m: Net)
    requires Normal(n) && i < |changes| && m.stakes == Apply(n, changes[..i + 1]).stakes
    ensures UndoChange(m, ContraOf(Apply(n, changes[..i]), changes[i])).stakes == Apply(n, changes[..i]).stakes
  {
    assert changes[..i + 1][..i] == changes[..i];
    Undoing.ApplyNormal(n, changes[..i]);
    StakesCancel(Apply(n, changes[..i]), m, changes[i]);
  }

  lemma {:induction false} StakesCancel(before: Net, m: Net, c: Change)
    requires NoZeroStake(before.stakes) && m.stakes == ApplyChange(before, c).stakes
    ensures UndoChange(m, ContraOf(before, c)).stakes == before.stakes
  {
    match c
    case BlockReward(id) => Undoing.AddStakeCancels(before.stakes, id, BLOCK_REWARD);
    case Slash(id, amount) => Undoing.AddStakeCancels(before.stakes, id, 0 - amount);
    case Transfer(from, to) => Undoing.TransferCancels(before.stakes, from, to);
    case _ =>
  }
}
