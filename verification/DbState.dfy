/**
  A copy-on-write view of the database: a diff over an unchanged base, read as if its changes had been
  made, and compiled into a batch that makes them.
 */
module DbState {
  import opened Primitives
  import opened Event
  import opened Network
  import opened Store

  /** A database key other than those of event buckets; `Cached` stands for those of blocks and caches. */
  datatype Key = Generic(key: Bin) | ValidatorKey(id: U160) | ValidatorStake(id: U160) | Cached(entry: Bin)

  type Values = map<Key, Bin>

  /** `e` is recorded for the plot at the tick. */
  predicate Listed(events: PlotEvents, p: PlotID, t: nat, e: RawEvent) {
    e in PlotListAt(events, p, t)
  }

  predicate Stored(buckets: Buckets, p: PlotID, t: nat, e: RawEvent) {
    e in StoredAt(buckets, p, t)
  }

  /** What the diff makes of the base. */
  predicate Visible(base: Buckets, added: PlotEvents, removed: PlotEvents, p: PlotID, t: nat, e: RawEvent) {
    (Stored(base, p, t, e) && !Listed(removed, p, t, e)) || Listed(added, p, t, e)
  }

  /** Added events are not in the base, removed ones are. */
  ghost predicate Disjoint(base: Buckets, added: PlotEvents, removed: PlotEvents) {
    && (forall p, t, e :: Listed(added, p, t, e) ==> !Stored(base, p, t, e))
    && (forall p, t, e :: Listed(removed, p, t, e) ==> Stored(base, p, t, e))
  }

  // ---------------------------------------------------------------------------------------------
  // The diff's own lists
  // ---------------------------------------------------------------------------------------------

  function ListsOf(events: PlotEvents, p: PlotID): RawEvents {
    if p in events then events[p] else map[]
  }

  method Insert(events: PlotEvents, p: PlotID, t: nat, e: RawEvent) returns (events': PlotEvents)
    requires TidyPlots(events)
    ensures TidyPlots(events')
    ensures forall q, u, x :: Listed(events', q, u, x) <==> Listed(events, q, u, x) || (q == p && u == t && x == e)
  {
    ghost var was := ListsOf(events, p);
    assert p in events ==> Tidy(events[p]);
    WithListTidy(was, t, e);
    var updated, _ := AddEvent(if p in events then events[p] else map[], t, e);
    events' := events[p := updated];
    forall q, u, x ensures Listed(events', q, u, x) <==> Listed(events, q, u, x) || (q == p && u == t && x == e) {
      if q == p {
        IncludedHas(was, t, e, u, x);
        assert Listed(events, p, u, x) == Has(was, u, x) && Listed(events', p, u, x) == Has(updated, u, x);
      }
    }
    forall q | q in events' ensures Tidy(events'[q]) {
      if q != p { assert Tidy(events[q]); }
    }
  }

  /** Removes an event if it is listed and says whether it was. */
  method Delete(events: PlotEvents, p: PlotID, t: nat, e: RawEvent) returns (events': PlotEvents, removed: bool)
    requires TidyPlots(events)
    ensures TidyPlots(events') && removed == Listed(events, p, t, e)
    ensures forall q, u, x :: Listed(events', q, u, x) <==> Listed(events, q, u, x) && !(q == p && u == t && x == e)
  {
    if p !in events { return events, false; }
    ghost var was := events[p];
    assert Tidy(was);
    WithListTidy(was, t, e);
    var updated;
    updated, removed := RemoveEvent(events[p], t, e);
    events' := events[p := updated];
    forall q, u, x ensures Listed(events', q, u, x) <==> Listed(events, q, u, x) && !(q == p && u == t && x == e) {
      if q == p {
        ExcludedHas(was, t, e, u, x);
        assert Listed(events, p, u, x) == Has(was, u, x) && Listed(events', p, u, x) == Has(updated, u, x);
      }
    }
    forall q | q in events' ensures Tidy(events'[q]) {
      if q != p { assert Tidy(events[q]); }
    }
  }

  // ---------------------------------------------------------------------------------------------
  // Compiling the events of one plot
  // ---------------------------------------------------------------------------------------------

  /** The greatest bucket among the added events; 0 when there are none. */
  method GreatestBucket(added: RawEvents) returns (g: nat)
    ensures forall t :: t in added ==> BucketOf(t) <= g
    ensures g == 0 || exists t :: t in added && BucketOf(t) == g
  {
    g := 0;
    var todo := added.Keys;
    while todo != {}
      invariant todo <= added.Keys && forall t :: t in added && t !in todo ==> BucketOf(t) <= g
      invariant g == 0 || exists t :: t in added && BucketOf(t) == g
      decreases |todo|
    {
      var t :| t in todo;
      if BucketOf(t) > g { g := BucketOf(t); }
      todo := todo - {t};
    }
  }

  /** Writes of one plot's buckets, by bucket number. */
  type BucketWrites = map<nat, RawEvents>

  /** Creates the missing buckets from `g` down; returns where it stopped. */
  method FillBuckets(base: Buckets, plot: PlotID, g: nat) returns (writes: BucketWrites, stop: nat)
    requires Contiguous(base)
    ensures stop <= g && ((plot, stop) in base || stop == 0)
    ensures forall b :: stop < b <= g ==> (plot, b) !in base
    ensures forall b: nat :: b in writes <==> b <= g && (plot, b) !in base
    ensures forall b :: b in writes ==> writes[b] == map[]
  {
    writes := map[];
    stop := g;
    while true
      invariant stop <= g
      invariant forall b :: stop < b <= g ==> (plot, b) !in base
      invariant forall b: nat :: b in writes <==> stop < b <= g
      invariant forall b :: b in writes ==> writes[b] == map[]
      decreases stop
    {
      if (plot, stop) in base {
        forall b: nat | b <= stop ensures (plot, b) in base { BelowIsStored(base, plot, b, stop); }
        return;
      }
      writes := writes[stop := map[]];
      if stop == 0 { return; }
      stop := stop - 1;
    }
  }

  /** One bucket, with what was added and removed in its range of ticks. */
  method PatchBucket(events: RawEvents, added: RawEvents, removed: RawEvents, b: nat) returns (patched: RawEvents)
    requires Tidy(events)
    ensures Tidy(patched)
    ensures forall t, e :: Has(patched, t, e) <==>
              (Has(events, t, e) || (BucketOf(t) == b && Has(added, t, e))) && !(BucketOf(t) == b && Has(removed, t, e))
  {
    patched := AddRange(events, added, b * 1000, Some(b * 1000 + 1000));
    patched := RemoveRange(patched, removed, b * 1000, Some(b * 1000 + 1000));
    assert forall t: nat :: InRange(t, b * 1000, Some(b * 1000 + 1000)) <==> BucketOf(t) == b;
  }

  /** A bucket holds changes of the diff. */
  predicate Touched(added: RawEvents, removed: RawEvents, b: nat) {
    (exists t :: t in added && BucketOf(t) == b) || (exists t :: t in removed && BucketOf(t) == b)
  }

  /** What the code takes as the base of bucket `b`: nothing above the added events' last bucket. */
  function TakenBase(base: Buckets, plot: PlotID, g: nat, b: nat): RawEvents {
    if b <= g && (plot, b) in base then base[(plot, b)] else map[]
  }

  /** What compiling one plot writes to bucket `b`. */
  ghost predicate WriteOk(base: Buckets, plot: PlotID, added: RawEvents, removed: RawEvents, g: nat, writes: BucketWrites, b: nat)
    requires b in writes
  {
    && Tidy(writes[b]) && (forall t :: t in writes[b] ==> BucketOf(t) == b)
    && (Touched(added, removed, b) ==> Patched(TakenBase(base, plot, g, b), added, removed, writes[b], b))
    && (!Touched(added, removed, b) ==> writes[b] == map[] && (plot, b) !in base)
  }

  ghost predicate Patched(was: RawEvents, added: RawEvents, removed: RawEvents, now: RawEvents, b: nat) {
    forall t, e {:trigger Has(now, t, e)} :: BucketOf(t) == b ==>
      (Has(now, t, e) <==> (Has(was, t, e) || Has(added, t, e)) && !Has(removed, t, e))
  }

  /** Half-way through the touched buckets: those in `todo` are still to be patched. */
  ghost predicate Compiling(base: Buckets, plot: PlotID, added: RawEvents, removed: RawEvents, g: nat, writes: BucketWrites, todo: set<nat>) {
    && (forall b {:trigger Touched(added, removed, b)} :: b in todo ==> Touched(added, removed, b))
    && (forall b: nat {:trigger b in writes} :: b in writes <==> (Touched(added, removed, b) && b !in todo) || (b <= g && (plot, b) !in base))
    && (forall b {:trigger WriteOk(base, plot, added, removed, g, writes, b)} :: b in writes && b !in todo ==>
          WriteOk(base, plot, added, removed, g, writes, b))
  }

  lemma {:induction false} CompilingStarts(base: Buckets, plot: PlotID, added: RawEvents, removed: RawEvents, g: nat, fill: BucketWrites, todo: set<nat>)
    requires forall b: nat :: b in fill <==> b <= g && (plot, b) !in base
    requires forall b :: b in fill ==> fill[b] == map[]
    requires forall b: nat :: b in todo <==> Touched(added, removed, b)
    ensures Compiling(base, plot, added, removed, g, fill, todo)
  {
  }

  lemma {:induction false} CompileOne(base: Buckets, plot: PlotID, added: RawEvents, removed: RawEvents, g: nat, writes: BucketWrites, todo: set<nat>, b: nat, patched: RawEvents)
    requires Sorted(base) && Compiling(base, plot, added, removed, g, writes, todo) && b in todo && Tidy(patched)
    requires forall t, e :: Has(patched, t, e) <==>
               (Has(TakenBase(base, plot, g, b), t, e) || (BucketOf(t) == b && Has(added, t, e))) && !(BucketOf(t) == b && Has(removed, t, e))
    ensures Compiling(base, plot, added, removed, g, writes[b := patched], todo - {b})
  {
    var writes', todo' := writes[b := patched], todo - {b};
    assert Touched(added, removed, b);
    PatchedInBucket(base, plot, TakenBase(base, plot, g, b), added, removed, patched, b);
    forall c | c in writes' && c !in todo' ensures WriteOk(base, plot, added, removed, g, writes', c) {
      if c != b { assert WriteOk(base, plot, added, removed, g, writes, c); }
    }
  }

  /** One stored bucket, or an empty one above `stop`, with what was added and removed in its range. */
  method PatchStored(base: Buckets, plot: PlotID, added: RawEvents, removed: RawEvents, stop: nat, ghost g: nat, b: nat) returns (patched: RawEvents)
    requires Sorted(base) && stop <= g && forall c :: stop < c <= g ==> (plot, c) !in base
    ensures Tidy(patched)
    ensures forall t, e :: Has(patched, t, e) <==>
              (Has(TakenBase(base, plot, g, b), t, e) || (BucketOf(t) == b && Has(added, t, e))) && !(BucketOf(t) == b && Has(removed, t, e))
  {
    var events := if b > stop || (plot, b) !in base then map[] else base[(plot, b)];
    assert events == TakenBase(base, plot, g, b);
    assert (plot, b) in base ==> Tidy(base[(plot, b)]);
    patched := PatchBucket(events, added, removed, b);
  }

  /** The buckets to write for one plot. */
  method CompilePlot(base: Buckets, plot: PlotID, added: RawEvents, removed: RawEvents) returns (writes: BucketWrites)
    requires Sorted(base) && Contiguous(base) && Tidy(added) && Tidy(removed)
    ensures exists g :: IsGreatest(added, g) && Compiling(base, plot, added, removed, g, writes, {})
  {
    var greatest := GreatestBucket(added);
    ghost var g := greatest;
    var stop;
    writes, stop := FillBuckets(base, plot, greatest);
    var todo := set t | t in added.Keys + removed.Keys :: BucketOf(t);
    CompilingStarts(base, plot, added, removed, g, writes, todo);
    while todo != {}
      invariant Compiling(base, plot, added, removed, g, writes, todo)
      decreases |todo|
    {
      var b :| b in todo;
      var patched := PatchStored(base, plot, added, removed, stop, g, b);
      CompileOne(base, plot, added, removed, g, writes, todo, b, patched);
      writes, todo := writes[b := patched], todo - {b};
    }
    assert IsGreatest(added, g);
  }

  /** The last bucket with an added event; the first one when there is none. */
  ghost predicate IsGreatest(added: RawEvents, g: nat) {
    (forall t :: t in added ==> BucketOf(t) <= g) && (g == 0 || exists t :: t in added && BucketOf(t) == g)
  }

  lemma {:induction false} PatchedInBucket(base: Buckets, plot: PlotID, events: RawEvents, added: RawEvents, removed: RawEvents, patched: RawEvents, b: nat)
    requires Sorted(base) && Tidy(patched) && (events == map[] || ((plot, b) in base && events == base[(plot, b)]))
    requires forall t, e :: Has(patched, t, e) <==>
               (Has(events, t, e) || (BucketOf(t) == b && Has(added, t, e))) && !(BucketOf(t) == b && Has(removed, t, e))
    ensures forall t :: t in patched ==> BucketOf(t) == b
    ensures Patched(events, added, removed, patched, b)
  {
    forall t | t in patched ensures BucketOf(t) == b {
      assert patched[t] != [] && Has(patched, t, patched[t][0]);
    }
  }

  // ---------------------------------------------------------------------------------------------
  // Compiling all plots
  // ---------------------------------------------------------------------------------------------

  /** Bucket `b` of the plot has removals, and every addition to the plot is in an earlier bucket. */
  predicate Late(added: RawEvents, removed: RawEvents, b: nat) {
    b > 0 && (exists t :: t in removed && BucketOf(t) == b) && (forall t :: t in added ==> BucketOf(t) < b)
  }

  /** What the compiled batch leaves in the database: as seen through the diff, but for the buckets
      with only late removals, which it empties. */
  predicate Compiled(base: Buckets, added: PlotEvents, removed: PlotEvents, p: PlotID, t: nat, e: RawEvent) {
    Visible(base, added, removed, p, t, e) && !Late(ListsOf(added, p), ListsOf(removed, p), BucketOf(t))
  }

  /** Overwriting the buckets of one plot. */
  function Overwritten(base: Buckets, p: PlotID, writes: BucketWrites): Buckets {
    base + map k | k in (set b | b in writes :: (p, b)) :: writes[k.1]
  }

  lemma {:induction false} OverwrittenAt(base: Buckets, p: PlotID, writes: BucketWrites, q: PlotID, b: nat)
    ensures (q, b) in Overwritten(base, p, writes) <==> (q, b) in base || (q == p && b in writes)
    ensures q == p && b in writes ==> Overwritten(base, p, writes)[(q, b)] == writes[b]
    ensures !(q == p && b in writes) && (q, b) in base ==> Overwritten(base, p, writes)[(q, b)] == base[(q, b)]
  {
  }

  lemma {:induction false} OverwrittenOver(base: Buckets, batch: Buckets, p: PlotID, writes: BucketWrites)
    ensures base + Overwritten(batch, p, writes) == Overwritten(base + batch, p, writes)
  {
  }

  lemma {:induction false} OverwrittenStored(base: Buckets, p: PlotID, writes: BucketWrites, q: PlotID, t: nat, e: RawEvent)
    ensures Stored(Overwritten(base, p, writes), q, t, e) <==>
            if q == p && BucketOf(t) in writes then Has(writes[BucketOf(t)], t, e) else Stored(base, q, t, e)
  {
    OverwrittenAt(base, p, writes, q, BucketOf(t));
  }

  lemma {:induction false} NotTouched(added: RawEvents, removed: RawEvents, t: nat, e: RawEvent)
    requires !Touched(added, removed, BucketOf(t))
    ensures !Has(added, t, e) && !Has(removed, t, e)
  {
  }

  /** One plot's writes do to its events what `Compiled` says. */
  lemma {:induction false} PlotCompiled(base: Buckets, p: PlotID, added: PlotEvents, removed: PlotEvents, g: nat, writes: BucketWrites, t: nat, e: RawEvent)
    requires Sorted(base) && Disjoint(base, added, removed) && TidyPlots(added) && TidyPlots(removed)
    requires (forall u :: u in ListsOf(added, p) ==> BucketOf(u) <= g) && (g == 0 || exists u :: u in ListsOf(added, p) && BucketOf(u) == g)
    requires Compiling(base, p, ListsOf(added, p), ListsOf(removed, p), g, writes, {})
    ensures Stored(Overwritten(base, p, writes), p, t, e) <==> Compiled(base, added, removed, p, t, e)
  {
    var a, r, b := ListsOf(added, p), ListsOf(removed, p), BucketOf(t);
    OverwrittenStored(base, p, writes, p, t, e);
    assert Has(a, t, e) == Listed(added, p, t, e) && Has(r, t, e) == Listed(removed, p, t, e);
    assert Late(a, r, b) <==> b > g && Touched(a, r, b);
    if !Touched(a, r, b) {
      NotTouched(a, r, t, e);
      if b in writes { assert WriteOk(base, p, a, r, g, writes, b); }
    } else {
      assert b in writes && WriteOk(base, p, a, r, g, writes, b);
      assert Has(writes[b], t, e) <==> (Has(TakenBase(base, p, g, b), t, e) || Has(a, t, e)) && !Has(r, t, e);
      assert b <= g ==> (Has(TakenBase(base, p, g, b), t, e) <==> Stored(base, p, t, e));
      assert Has(a, t, e) ==> t in a;
    }
  }

  lemma {:induction false} PlotSorted(base: Buckets, p: PlotID, a: RawEvents, r: RawEvents, g: nat, writes: BucketWrites)
    requires Sorted(base) && Compiling(base, p, a, r, g, writes, {})
    ensures Sorted(Overwritten(base, p, writes))
  {
    var base' := Overwritten(base, p, writes);
    forall k | k in base' ensures Tidy(base'[k]) && forall t :: t in base'[k] ==> BucketOf(t) == k.1 {
      OverwrittenAt(base, p, writes, k.0, k.1);
      if k.0 == p && k.1 in writes { assert WriteOk(base, p, a, r, g, writes, k.1); }
    }
  }

  lemma {:induction false} PlotContiguous(base: Buckets, p: PlotID, a: RawEvents, r: RawEvents, g: nat, writes: BucketWrites)
    requires Contiguous(base) && Tidy(r) && (forall u :: u in a ==> BucketOf(u) <= g)
    requires forall t, e :: Has(r, t, e) ==> Stored(base, p, t, e)
    requires Compiling(base, p, a, r, g, writes, {})
    ensures Contiguous(Overwritten(base, p, writes))
  {
    var base' := Overwritten(base, p, writes);
    forall k | k in base' && k.1 > 0 ensures (k.0, k.1 - 1) in base' {
      OverwrittenAt(base, p, writes, k.0, k.1);
      OverwrittenAt(base, p, writes, k.0, k.1 - 1);
      if k !in base {
        assert k.1 in writes && k.0 == p;
        if k.1 > g {
          var u :| (u in a || u in r) && BucketOf(u) == k.1;
          assert Has(r, u, r[u][0]);
        }
        assert k.1 <= g;
        assert k.1 - 1 in writes || (p, k.1 - 1) in base;
      }
    }
  }

  /** Half-way through the plots. */
  ghost predicate CompilingPlots(base: Buckets, added: PlotEvents, removed: PlotEvents, base': Buckets, todo: set<PlotID>) {
    && Sorted(base') && Contiguous(base')
    && (forall p, b: nat {:trigger (p, b) in base'} :: p in todo ==> ((p, b) in base' <==> (p, b) in base) && ((p, b) in base ==> base'[(p, b)] == base[(p, b)]))
    && (forall p, t, e {:trigger Stored(base', p, t, e)} :: Stored(base', p, t, e) <==>
          if p in todo then Stored(base, p, t, e) else Compiled(base, added, removed, p, t, e))
  }

  lemma {:induction false} CompilingPlotsStarts(base: Buckets, added: PlotEvents, removed: PlotEvents)
    requires Sorted(base) && Contiguous(base)
    ensures CompilingPlots(base, added, removed, base, added.Keys + removed.Keys)
  {
  }

  /** Compiling reads one plot of the base at a time, so what was written for others is no matter. */
  lemma {:induction false} CompilingElsewhere(base: Buckets, base': Buckets, p: PlotID, a: RawEvents, r: RawEvents, g: nat, writes: BucketWrites)
    requires Compiling(base, p, a, r, g, writes, {})
    requires forall b: nat :: ((p, b) in base' <==> (p, b) in base) && ((p, b) in base ==> base'[(p, b)] == base[(p, b)])
    ensures Compiling(base', p, a, r, g, writes, {})
  {
    forall b | b in writes ensures WriteOk(base', p, a, r, g, writes, b) {
      assert WriteOk(base, p, a, r, g, writes, b);
      assert TakenBase(base', p, g, b) == TakenBase(base, p, g, b);
    }
  }

  lemma {:induction false} CompileNext(base: Buckets, added: PlotEvents, removed: PlotEvents, base': Buckets, todo: set<PlotID>, p: PlotID, g: nat, writes: BucketWrites)
    requires Sorted(base) && Disjoint(base, added, removed) && TidyPlots(added) && TidyPlots(removed)
    requires CompilingPlots(base, added, removed, base', todo) && p in todo
    requires (forall u :: u in ListsOf(added, p) ==> BucketOf(u) <= g) && (g == 0 || exists u :: u in ListsOf(added, p) && BucketOf(u) == g)
    requires Compiling(base, p, ListsOf(added, p), ListsOf(removed, p), g, writes, {})
    ensures CompilingPlots(base, added, removed, Overwritten(base', p, writes), todo - {p})
  {
    var a, r := ListsOf(added, p), ListsOf(removed, p);
    var base'' := Overwritten(base', p, writes);
    forall b: nat ensures ((p, b) in base' <==> (p, b) in base) && ((p, b) in base ==> base'[(p, b)] == base[(p, b)]) {
    }
    CompilingElsewhere(base, base', p, a, r, g, writes);
    PlotSorted(base', p, a, r, g, writes);
    forall t, e | Has(r, t, e) ensures Stored(base', p, t, e) {
      assert Listed(removed, p, t, e) && Stored(base, p, t, e);
    }
    assert p in removed ==> Tidy(removed[p]);
    PlotContiguous(base', p, a, r, g, writes);
    forall q, b: nat | q in todo - {p} ensures ((q, b) in base'' <==> (q, b) in base) && ((q, b) in base ==> base''[(q, b)] == base[(q, b)]) {
      OverwrittenAt(base', p, writes, q, b);
      assert (q, b) in base' <==> (q, b) in base;
    }
    forall q, t, e ensures Stored(base'', q, t, e) <==> if q in todo - {p} then Stored(base, q, t, e) else Compiled(base, added, removed, q, t, e) {
      OverwrittenStored(base', p, writes, q, t, e);
      if q == p {
        PlotCompiled(base, p, added, removed, g, writes, t, e);
        OverwrittenStored(base, p, writes, p, t, e);
        assert Stored(base', p, t, e) <==> Stored(base, p, t, e);
      } else {
        assert Stored(base', q, t, e) <==> if q in todo then Stored(base, q, t, e) else Compiled(base, added, removed, q, t, e);
      }
    }
  }

  /** The bucket writes for all plots with changes. */
  method CompileEvents(base: Buckets, added: PlotEvents, removed: PlotEvents) returns (batch: Buckets)
    requires Sorted(base) && Contiguous(base) && Disjoint(base, added, removed) && TidyPlots(added) && TidyPlots(removed)
    ensures Sorted(base + batch) && Contiguous(base + batch)
    ensures forall p, t, e :: Stored(base + batch, p, t, e) <==> Compiled(base, added, removed, p, t, e)
  {
    batch := map[];
    ghost var base' := base;
    var todo := added.Keys + removed.Keys;
    CompilingPlotsStarts(base, added, removed);
    assert base + batch == base;
    while todo != {}
      invariant CompilingPlots(base, added, removed, base', todo) && base + batch == base'
      decreases |todo|
    {
      var p :| p in todo;
      assert (p in added ==> Tidy(added[p])) && (p in removed ==> Tidy(removed[p]));
      var writes := CompilePlot(base, p, ListsOf(added, p), ListsOf(removed, p));
      ghost var g :| IsGreatest(ListsOf(added, p), g) && Compiling(base, p, ListsOf(added, p), ListsOf(removed, p), g, writes, {});
      CompileNext(base, added, removed, base', todo, p, g, writes);
      OverwrittenOver(base, batch, p, writes);
      base' := Overwritten(base', p, writes);
      batch := Overwritten(batch, p, writes);
      todo := todo - {p};
    }
  }

  // ---------------------------------------------------------------------------------------------
  // The state
  // ---------------------------------------------------------------------------------------------

  /** Writes to be made atomically; no key is both put and deleted. */
  datatype Batch = Batch(puts: Values, dels: set<Key>, buckets: Buckets)

  class DbState {
    const baseValues: Values
    const base: Buckets
    var newValues: Values
    var delValues: set<Key>
    var newEvents: PlotEvents
    var delEvents: PlotEvents

    ghost predicate Valid()
      reads this
    {
      && Sorted(base) && Contiguous(base)
      && newValues.Keys !! delValues
      && TidyPlots(newEvents) && TidyPlots(delEvents) && Disjoint(base, newEvents, delEvents)
    }

    /** The values as read through the diff. */
    ghost function Values(): Values
      reads this
    {
      (baseValues - delValues) + newValues
    }

    /** The events as read through the diff. */
    ghost predicate Shows(p: PlotID, t: nat, e: RawEvent)
      reads this
    {
      Visible(base, newEvents, delEvents, p, t, e)
    }

    constructor (values: Values, buckets: Buckets)
      requires Sorted(buckets) && Contiguous(buckets)
      ensures Valid() && Values() == values && baseValues == values && base == buckets && delValues == {}
      ensures forall p, t, e :: Shows(p, t, e) <==> Stored(buckets, p, t, e)
    {
      baseValues, base := values, buckets;
      newValues, delValues, newEvents, delEvents := map[], {}, map[], map[];
    }

    method Get(key: Key) returns (value: Result<Bin>)
      requires Valid()
      ensures value == if key in Values() then Ok(Values()[key]) else Err(NotFound)
    {
      if key in newValues { return Ok(newValues[key]); }
      if key in delValues { return Err(NotFound); }
      return if key in baseValues then Ok(baseValues[key]) else Err(NotFound);
    }

    /** Sets a value, unless the key was marked deleted: then the mark is all that goes. */
    method Put(key: Key, value: Bin)
      requires Valid()
      modifies `newValues, `delValues
      ensures Valid()
      ensures Values() == old(Values())[key := value] <==>
              (key !in old(delValues) || (key in baseValues && baseValues[key] == value))
      ensures Values() == if key !in old(delValues) then old(Values())[key := value]
                          else if key in baseValues then old(Values())[key := baseValues[key]] else old(Values()) - {key}
      ensures key !in old(delValues) ==> delValues == old(delValues)
    {
      if key in delValues {
        delValues := delValues - {key};
        assert key in Values() <==> key in baseValues;
      } else {
        newValues := newValues[key := value];
      }
    }

    /** Deletes a value; one set in the diff is only dropped from it. */
    method Remove(key: Key)
      requires Valid()
      modifies `newValues, `delValues
      ensures Valid()
      ensures Values() == old(Values()) - {key} <==> (key !in old(newValues) || key !in baseValues)
      ensures Values() == if key in old(newValues) && key in baseValues then old(Values())[key := baseValues[key]]
                          else old(Values()) - {key}
    {
      if key in newValues {
        newValues := newValues - {key};
        assert key in Values() <==> key in baseValues;
      } else {
        delValues := delValues + {key};
      }
    }

    /** Records a new event: taking back its removal if it was removed. */
    method AddEvent(p: PlotID, t: nat, e: RawEvent)
      requires Valid() && !Shows(p, t, e)
      modifies `newEvents, `delEvents
      ensures Valid()
      ensures forall q, u, x :: Shows(q, u, x) <==> Visible(base, old(newEvents), old(delEvents), q, u, x) || (q == p && u == t && x == e)
    {
      var rest, removed := Delete(delEvents, p, t, e);
      delEvents := rest;
      if !removed { newEvents := Insert(newEvents, p, t, e); }
    }

    /** Removes a present event: dropping its addition if it was added here. */
    method RemoveEvent(p: PlotID, t: nat, e: RawEvent)
      requires Valid() && Shows(p, t, e)
      modifies `newEvents, `delEvents
      ensures Valid()
      ensures forall q, u, x :: Shows(q, u, x) <==> Visible(base, old(newEvents), old(delEvents), q, u, x) && !(q == p && u == t && x == e)
    {
      var rest, removed := Delete(newEvents, p, t, e);
      newEvents := rest;
      if !removed { delEvents := Insert(delEvents, p, t, e); }
    }

    /** The events of a plot from a tick on: those of the base, less the removed, plus the added. */
    method GetPlotEvents(p: PlotID, fromTick: nat) returns (events: RawEvents)
      requires Valid()
      ensures Tidy(events)
      ensures forall t: nat, e :: Has(events, t, e) <==> t >= fromTick && Shows(p, t, e)
    {
      var stored := CollectEvents(base, p, fromTick);
      CollectedHas(base, p, fromTick, stored);
      assert (p in newEvents ==> Tidy(newEvents[p])) && (p in delEvents ==> Tidy(delEvents[p]));
      events := RemoveRange(stored, ListsOf(delEvents, p), fromTick, None);
      events := AddRange(events, ListsOf(newEvents, p), fromTick, None);
      forall t: nat, e ensures Has(events, t, e) <==> t >= fromTick && Shows(p, t, e) {
        assert Has(ListsOf(newEvents, p), t, e) == Listed(newEvents, p, t, e);
        assert Has(ListsOf(delEvents, p), t, e) == Listed(delEvents, p, t, e);
      }
    }

    /** The batch that turns the base into what is read through the diff, but for late removals. */
    method Compile() returns (batch: Batch)
      requires Valid()
      ensures (baseValues + batch.puts) - batch.dels == Values()
      ensures Sorted(base + batch.buckets) && Contiguous(base + batch.buckets)
      ensures forall p, t, e :: Stored(base + batch.buckets, p, t, e) <==> Compiled(base, newEvents, delEvents, p, t, e)
    {
      var buckets := CompileEvents(base, newEvents, delEvents);
      batch := Batch(newValues, delValues, buckets);
    }
  }

  lemma {:induction false} CollectedHas(base: Buckets, p: PlotID, fromTick: nat, events: RawEvents)
    requires Sorted(base)
    requires forall t :: t in events <==> t >= fromTick && EventsAt(AbsEvents(base), p, t) != []
    requires forall t :: t in events ==> events[t] == EventsAt(AbsEvents(base), p, t)
    ensures Tidy(events) && forall t: nat, e :: Has(events, t, e) <==> t >= fromTick && Stored(base, p, t, e)
  {
    forall t: nat ensures EventsAt(AbsEvents(base), p, t) == StoredAt(base, p, t) {
      AbsEventsAt(base, p, t);
    }
    forall t | t in events ensures forall i, j :: 0 <= i < j < |events[t]| ==> events[t][i] != events[t][j] {
      assert Tidy(base[(p, BucketOf(t))]);
    }
  }

  // ---------------------------------------------------------------------------------------------
  // When compiling keeps what was read
  // ---------------------------------------------------------------------------------------------

  /** Every bucket with only late removals loses all it held to them. */
  ghost predicate NoLeftovers(base: Buckets, added: PlotEvents, removed: PlotEvents) {
    forall p, t, e :: Stored(base, p, t, e) && Late(ListsOf(added, p), ListsOf(removed, p), BucketOf(t)) ==> Listed(removed, p, t, e)
  }

  /** The compiled database reads like the state exactly when no event shares a bucket with a late
      removal: one in a later bucket than every addition to that plot. */
  lemma {:induction false} CompileKeepsIff(base: Buckets, added: PlotEvents, removed: PlotEvents)
    requires TidyPlots(added)
    ensures (forall p, t, e :: Compiled(base, added, removed, p, t, e) <==> Visible(base, added, removed, p, t, e))
            <==> NoLeftovers(base, added, removed)
  {
    forall p, t, e | Listed(added, p, t, e) ensures !Late(ListsOf(added, p), ListsOf(removed, p), BucketOf(t)) {
      assert t in ListsOf(added, p);
    }
    if forall p, t, e :: Compiled(base, added, removed, p, t, e) <==> Visible(base, added, removed, p, t, e) {
      forall p, t, e | Stored(base, p, t, e) && Late(ListsOf(added, p), ListsOf(removed, p), BucketOf(t)) ensures Listed(removed, p, t, e) {
        assert Compiled(base, added, removed, p, t, e) <==> Visible(base, added, removed, p, t, e);
      }
    }
    if NoLeftovers(base, added, removed) {
      forall p, t, e ensures Compiled(base, added, removed, p, t, e) <==> Visible(base, added, removed, p, t, e) {
      }
    }
  }

  /** Removing one of two events from a later bucket, with nothing added, drops the other one too. */
  lemma {:induction false} LateRemovalDropsNeighbour()
    ensures var p, base := (0, 0), map[((0, 0), 0) := map[], ((0, 0), 1) := map[1500 := [[1]], 1600 := [[2]]]];
            var removed := map[p := map[1500 := [[1]]]];
            && Sorted(base) && Contiguous(base) && Disjoint(base, map[], removed)
            && Visible(base, map[], removed, p, 1600, [2]) && !Compiled(base, map[], removed, p, 1600, [2])
  {
    var p: PlotID := (0, 0);
    var bucket: RawEvents := map[1500 := [[1]], 1600 := [[2]]];
    var base: Buckets := map[(p, 0) := map[], (p, 1) := bucket];
    var removed: PlotEvents := map[p := map[1500 := [[1]]]];
    assert Tidy(bucket) && BucketOf(1500) == 1 && BucketOf(1600) == 1;
    assert 1500 in ListsOf(removed, p);
    assert Stored(base, p, 1500, [1]) && Stored(base, p, 1600, [2]);
    assert Late(ListsOf(map[], p), ListsOf(removed, p), 1);
  }
}
