/**
  The turn protocol of checkers games: which mutations `Turns` lets onto the plots, and the shape of
  every game recorded through it.
 */
module Turns {
  import opened Primitives
  import opened Checkers

  /** A game event on a plot, with the account that signed it. */
  datatype PlotEvent = PlotEvent(from: PlotID, to: set<PlotID>, tick: nat, event: Event, signer: U160)

  datatype Entry = Entry(event: Event, signer: U160)

  /** The events recorded on one plot, by tick. */
  type PlotLog = map<nat, seq<Entry>>

  type Log = map<PlotID, PlotLog>

  function LogOf(log: Log, p: PlotID): PlotLog {
    if p in log then log[p] else map[]
  }

  function At(l: PlotLog, t: nat): seq<Entry> {
    if t in l then l[t] else []
  }

  /** Adds one event at the end of its tick. */
  function Enter(l: PlotLog, e: PlotEvent): PlotLog {
    l[e.tick := At(l, e.tick) + [Entry(e.event, e.signer)]]
  }

  function RecordOne(log: Log, e: PlotEvent): Log {
    log[e.from := Enter(LogOf(log, e.from), e)]
  }

  function Record(log: Log, events: seq<PlotEvent>): Log {
    if events == [] then log
    else RecordOne(Record(log, events[..|events| - 1]), events[|events| - 1])
  }

  // ---------------------------------------------------------------------------------------------
  // What a recorded game looks like
  // ---------------------------------------------------------------------------------------------

  /** A game started by one of its players, with at most one place left open. */
  predicate StartOk(e: Entry) {
    && e.event.Start? && (e.event.p1 != 0 || e.event.p2 != 0)
    && (e.signer == e.event.p1 || e.signer == e.event.p2)
  }

  /** Someone joined a game with an open place. */
  predicate JoinOk(start: Entry, e: Entry) {
    start.event.Start? && e.event.Join? && e.event.player != 0 && (start.event.p1 == 0 || start.event.p2 == 0)
  }

  /** One event on each tick, at most tick 500, no gaps from tick 2 on; tick 0 starts and tick 1 joins. */
  predicate Shape(l: PlotLog) {
    && (forall t: nat :: t in l ==> |l[t]| == 1 && t <= 500)
    && (l != map[] ==> 0 in l && StartOk(l[0][0]))
    && (1 in l ==> JoinOk(l[0][0], l[1][0]))
    && (forall t: nat :: t in l && t >= 3 ==> t - 1 in l)
  }

  datatype Players = Players(p1: U160, p2: U160) {
    predicate Both() {
      p1 != 0 && p2 != 0
    }

    /** Even ticks belong to player 1, odd ticks to player 2. */
    function Mover(tick: nat): U160 {
      if tick % 2 == 0 then p1 else p2
    }

    /** The open place taken. */
    function Joined(player: U160): Players {
      if p1 == 0 then Players(player, p2) else if p2 == 0 then Players(p1, player) else this
    }
  }

  function StartPlayers(l: PlotLog): Players
    requires 0 in l && Shape(l)
  {
    Players(l[0][0].event.p1, l[0][0].event.p2)
  }

  /** The players of a game: its start, completed by the join if there is one. */
  function PlayersOf(l: PlotLog): Players
    requires 0 in l && Shape(l)
  {
    if 1 in l then StartPlayers(l).Joined(l[1][0].event.player) else StartPlayers(l)
  }

  /** Every event after the start was signed by the player whose turn it was, with both places taken. */
  predicate SignedBy(l: PlotLog, players: Players) {
    forall t: nat :: t in l && t >= 1 && l[t] != [] ==> players.Both() && l[t][0].signer == players.Mover(t)
  }

  predicate GameOk(l: PlotLog) {
    Shape(l) && (0 in l ==> SignedBy(l, PlayersOf(l)))
  }

  ghost predicate AllOk(log: Log) {
    forall p :: GameOk(LogOf(log, p))
  }

  // ---------------------------------------------------------------------------------------------
  // Mutations
  // ---------------------------------------------------------------------------------------------

  /** The entries a mutation makes on one tick of one plot, in order. */
  function Picked(events: seq<PlotEvent>, p: PlotID, t: nat): seq<Entry> {
    if events == [] then []
    else Picked(events[..|events| - 1], p, t) + PickOne(events[|events| - 1], p, t)
  }

  function PickOne(e: PlotEvent, p: PlotID, t: nat): seq<Entry> {
    if e.from == p && e.tick == t then [Entry(e.event, e.signer)] else []
  }

  /** No start leaves both places open, and nobody joins as the zero id, which marks an open place. */
  predicate PlainEvent(e: PlotEvent) {
    && (e.tick == 0 && e.event.Start? ==> e.event.p1 != 0 || e.event.p2 != 0)
    && (e.tick == 1 && e.event.Join? ==> e.event.player != 0)
  }

  /** And no plot is started twice. */
  ghost predicate Plain(events: seq<PlotEvent>) {
    && (forall e :: e in events ==> PlainEvent(e))
    && (forall p :: |Picked(events, p, 0)| <= 1)
  }

  predicate Plays(events: seq<PlotEvent>, p: PlotID, t: nat) {
    exists i :: 0 <= i < |events| && events[i].from == p && events[i].tick == t
  }

  /** What the rule should let through: single-plot events that leave every game in order, where a game
      started in the mutation is joined in it before its first turn is played. */
  ghost predicate Good(log: Log, events: seq<PlotEvent>) {
    && (forall e :: e in events ==> e.to == {})
    && AllOk(Record(log, events))
    && forall p :: Prompt(events, p)
  }

  /** Later events of a plot have no earlier tick. */
  predicate ByTick(events: seq<PlotEvent>) {
    forall i, j :: 0 <= i < j < |events| && events[i].from == events[j].from ==> events[i].tick <= events[j].tick
  }

  // ---------------------------------------------------------------------------------------------
  // Recording
  // ---------------------------------------------------------------------------------------------

  lemma {:induction false} RecordNext(log: Log, events: seq<PlotEvent>, i: nat)
    requires i < |events|
    ensures Record(log, events[..i + 1]) == RecordOne(Record(log, events[..i]), events[i])
  {
    assert events[..i + 1][..i] == events[..i];
  }

  ghost predicate Extends(l: PlotLog, l': PlotLog) {
    forall t: nat :: At(l, t) <= At(l', t)
  }

  lemma {:induction false} RecordGrows(log: Log, events: seq<PlotEvent>, i: nat, p: PlotID)
    requires i <= |events|
    ensures Extends(LogOf(Record(log, events[..i]), p), LogOf(Record(log, events), p))
    decreases |events| - i
  {
    if i == |events| {
      assert events[..i] == events;
    } else {
      RecordNext(log, events, i);
      RecordGrows(log, events, i + 1, p);
      var l, l', g := LogOf(Record(log, events[..i]), p), LogOf(Record(log, events[..i + 1]), p), LogOf(Record(log, events), p);
      forall t: nat ensures At(l, t) <= At(g, t) {
        assert At(l, t) <= At(l', t) <= At(g, t);
      }
    }
  }

  /** A tick recorded on a plot was there before or comes from the mutation. */
  lemma {:induction false} Origin(log: Log, events: seq<PlotEvent>, p: PlotID, t: nat)
    requires At(LogOf(log, p), t) == [] && At(LogOf(Record(log, events), p), t) != []
    ensures Plays(events, p, t)
  {
    var n := |events| - 1;
    var init := events[..n];
    if At(LogOf(Record(log, init), p), t) != [] {
      Origin(log, init, p, t);
      var i :| 0 <= i < |init| && init[i].from == p && init[i].tick == t;
      assert events[i].from == p;
    } else {
      assert events[n].from == p && events[n].tick == t;
    }
  }

  lemma {:induction false} PlayedIsRecorded(log: Log, events: seq<PlotEvent>, p: PlotID, t: nat)
    requires Plays(events, p, t)
    ensures At(LogOf(Record(log, events), p), t) != []
  {
    var m :| 0 <= m < |events| && events[m].from == p && events[m].tick == t;
    RecordNext(log, events, m);
    RecordGrows(log, events, m + 1, p);
    assert At(LogOf(Record(log, events[..m + 1]), p), t) <= At(LogOf(Record(log, events), p), t);
  }

  /** When the outcome is in order, an event is alone on its tick, and every lower tick of the outcome
      is already there when its turn comes. */
  lemma {:induction false} AloneAndInOrder(log: Log, events: seq<PlotEvent>, i: nat)
    requires i < |events| && ByTick(events) && AllOk(log) && AllOk(Record(log, events))
    ensures var e := events[i]; var l, g := LogOf(Record(log, events[..i]), e.from), LogOf(Record(log, events), e.from);
            && At(l, e.tick) == [] && e.tick in g && g[e.tick] == [Entry(e.event, e.signer)]
            && forall t: nat :: t < e.tick && t in g ==> t in l && l[t] == g[t]
  {
    var e := events[i];
    var p := e.from;
    var l, g := LogOf(Record(log, events[..i]), p), LogOf(Record(log, events), p);
    RecordNext(log, events, i);
    RecordGrows(log, events, i + 1, p);
    assert GameOk(g);
    assert At(l, e.tick) + [Entry(e.event, e.signer)] <= At(g, e.tick);
    forall t: nat | t < e.tick && t in g ensures t in l && l[t] == g[t] {
      LowerTick(log, events, i, t);
      RecordGrows(log, events, i, p);
      assert At(l, t) <= At(g, t);
    }
  }

  lemma {:induction false} LowerTick(log: Log, events: seq<PlotEvent>, i: nat, t: nat)
    requires i < |events| && ByTick(events) && t < events[i].tick
    requires At(LogOf(Record(log, events), events[i].from), t) != []
    ensures At(LogOf(Record(log, events[..i]), events[i].from), t) != []
  {
    var p := events[i].from;
    if At(LogOf(log, p), t) != [] {
      assert events[..i][..0] == [];
      RecordGrows(log, events[..i], 0, p);
      assert At(LogOf(log, p), t) <= At(LogOf(Record(log, events[..i]), p), t);
    } else {
      Origin(log, events, p, t);
      var k :| 0 <= k < |events| && events[k].from == p && events[k].tick == t;
      assert k < i;
      EarlierTick(log, events, k, i);
    }
  }

  lemma {:induction false} EarlierTick(log: Log, events: seq<PlotEvent>, k: nat, i: nat)
    requires k < i <= |events|
    ensures At(LogOf(Record(log, events[..i]), events[k].from), events[k].tick) != []
  {
    assert events[..i][k] == events[k];
    PlayedIsRecorded(log, events[..i], events[k].from, events[k].tick);
  }

  // ---------------------------------------------------------------------------------------------
  // One event
  // ---------------------------------------------------------------------------------------------

  /** What the rule remembers of a plot: its players and the last tick played. */
  datatype Board = Board(players: Players, last: nat)

  predicate BoardOk(l: PlotLog, b: Board) {
    Shape(l) && 0 in l && b.players == PlayersOf(l) && b.last in l && forall t: nat :: t in l ==> t <= b.last
  }

  /** Whether an event may follow what is recorded on its plot. */
  predicate Allowed(l: PlotLog, board: Option<Board>, e: PlotEvent)
    requires Shape(l)
  {
    && e.tick <= 500 && e.to == {} && e.tick !in l
    && if e.tick == 0 then e.event.Start? && l == map[] && (e.signer == e.event.p1 || e.signer == e.event.p2)
       else if e.tick == 1 then e.event.Join? && 0 in l && (StartPlayers(l).p1 == 0 || StartPlayers(l).p2 == 0)
       else 0 in l && if board.Some? then board.value.last + 1 == e.tick else e.tick == 2 || e.tick - 1 in l
  }

  /** What the rule knows of a plot: nothing yet, or the board of the events before. */
  predicate Knows(stored: PlotLog, l: PlotLog, board: Option<Board>) {
    Shape(l) && if board.Some? then BoardOk(l, board.value) else l == stored && GameOk(l)
  }

  /** Players of a game in the state that its next turns are checked against. */
  lemma {:induction false} PlayersCases(l: PlotLog)
    requires Shape(l) && 0 in l
    ensures !(StartPlayers(l).p1 == 0 && StartPlayers(l).p2 == 0)
    ensures 1 in l ==> PlayersOf(l).Both() && !StartPlayers(l).Both()
  {
  }

  lemma {:induction false} EnterKeepsShape(l: PlotLog, board: Option<Board>, e: PlotEvent)
    requires Shape(l) && Allowed(l, board, e) && PlainEvent(e)
    requires board.Some? ==> BoardOk(l, board.value)
    ensures Shape(Enter(l, e))
    ensures e.tick == 0 ==> PlayersOf(Enter(l, e)) == Players(e.event.p1, e.event.p2)
    ensures e.tick == 1 ==> PlayersOf(Enter(l, e)) == PlayersOf(l).Joined(e.event.player)
    ensures e.tick >= 2 ==> PlayersOf(Enter(l, e)) == PlayersOf(l)
  {
    var l' := Enter(l, e);
    forall t: nat | t in l' && t >= 3 ensures t - 1 in l' {
      if t == e.tick && board.Some? { assert t - 1 == board.value.last; }
    }
  }

  /** Without a turn at the next tick there is none after it. */
  lemma {:induction false} NothingAfterGap(l: PlotLog, t: nat, u: nat)
    requires Shape(l) && t >= 2 && t !in l && u > t
    ensures u !in l
    decreases u
  {
    if u > t + 1 { NothingAfterGap(l, t, u - 1); }
  }

  /** An event the rule allows is the last of its plot. */
  lemma {:induction false} AllowedIsLast(stored: PlotLog, l: PlotLog, board: Option<Board>, e: PlotEvent, u: nat)
    requires Knows(stored, l, board) && Allowed(l, board, e) && u in l && (board.Some? ==> board.value.last <= e.tick)
    ensures u < e.tick
  {
    if board.None? && u > e.tick >= 2 { NothingAfterGap(l, e.tick, u); }
  }

  /** The board after an event the rule lets through, or that it is refused. `Unseated` and `Crashed`
      are the outcomes on a plot whose record is broken: no board is kept, or the program stops. */
  datatype Verdict = Rejected | Seated(board: Board) | Unseated | Crashed

  /** Fills an open place. */
  function Fill(players: Players, player: U160): Verdict {
    if players.p1 == 0 || players.p2 == 0 then Seated(Board(players.Joined(player), 1)) else Rejected
  }

  function FirstOf(stored: PlotLog, t: nat): Option<Event> {
    if At(stored, t) == [] then None else Some(At(stored, t)[0].event)
  }

  /** The players and whether a join fills a place, as read from the record of the plot. */
  function Resume(stored: PlotLog, tick: nat): Verdict {
    var start, join := FirstOf(stored, 0), FirstOf(stored, 1);
    if start.None? || !start.value.Start? then Crashed
    else
      var players := Players(start.value.p1, start.value.p2);
      if 1 !in stored then Seated(Board(players, tick))
      else if join.None? || !join.value.Join? then Crashed
      else if players.p1 == 0 || players.p2 == 0 then Seated(Board(players.Joined(join.value.player), tick))
      else Unseated
  }

  /** One event on a plot: `stored` is what the state holds for it, `board` what the events before left. */
  function Next(stored: PlotLog, board: Option<Board>, e: PlotEvent): Verdict {
    if e.tick > 500 || e.to != {} then Rejected
    else if e.tick == 0 then
      if e.event.Start? && stored == map[] && (e.signer == e.event.p1 || e.signer == e.event.p2)
      then Seated(Board(Players(e.event.p1, e.event.p2), 0)) else Rejected
    else if e.tick == 1 then
      if !e.event.Join? then Rejected
      else if board.Some? then Fill(board.value.players, e.event.player)
      else if 0 !in stored || 1 in stored then Rejected
      else
        var start := FirstOf(stored, 0);
        if start.None? || !start.value.Start? then Crashed
        else Fill(Players(start.value.p1, start.value.p2), e.event.player)
    else if board.Some? then
      if board.value.last + 1 == e.tick then Seated(Board(board.value.players, e.tick)) else Rejected
    else if 0 !in stored || (e.tick != 2 && e.tick - 1 !in stored) || e.tick in stored then Rejected
    else Resume(stored, e.tick)
  }

  /** On games in order, an event is let through exactly when it may follow; the board is then that of
      the longer game. */
  lemma {:induction false} NextIs(stored: PlotLog, board: Option<Board>, e: PlotEvent, l: PlotLog)
    requires GameOk(stored) && Knows(stored, l, board) && PlainEvent(e)
    requires board.Some? ==> e.tick > 0 && board.value.last <= e.tick
    ensures Next(stored, board, e).Seated? <==> Allowed(l, board, e)
    ensures var next := Next(stored, board, e);
            next.Seated? ==> BoardOk(Enter(l, e), next.board) && next.board.last == e.tick
  {
    if 0 in stored { PlayersCases(stored); }
    if 0 in l { PlayersCases(l); }
    if Allowed(l, board, e) {
      EnterKeepsShape(l, board, e);
      forall u: nat | u in Enter(l, e) ensures u <= e.tick {
        if u in l { AllowedIsLast(stored, l, board, e, u); }
      }
    }
  }

  /** On games in order nothing goes wrong, whatever the event and the board. */
  lemma {:induction false} NextSafe(stored: PlotLog, board: Option<Board>, e: PlotEvent)
    requires GameOk(stored)
    ensures Next(stored, board, e).Rejected? || Next(stored, board, e).Seated?
  {
    if 0 in stored { PlayersCases(stored); }
  }

  /** A mutation that leaves the games in order has each of its events allowed in turn. */
  lemma {:induction false} GoodAllows(log: Log, events: seq<PlotEvent>, i: nat, board: Option<Board>)
    requires i < |events| && ByTick(events) && AllOk(log) && Good(log, events)
    requires var p := events[i].from; var l := LogOf(Record(log, events[..i]), p);
             Knows(LogOf(log, p), l, board) && (board.Some? ==> Plays(events[..i], p, board.value.last))
    ensures Allowed(LogOf(Record(log, events[..i]), events[i].from), board, events[i])
  {
    var e := events[i];
    var p := e.from;
    var l, g := LogOf(Record(log, events[..i]), p), LogOf(Record(log, events), p);
    AloneAndInOrder(log, events, i);
    assert GameOk(g);
    if e.tick == 0 {
      assert l == map[];
    } else if e.tick >= 2 && board.Some? {
      var last := board.value.last;
      var k :| 0 <= k < |events[..i]| && events[..i][k].from == p && events[..i][k].tick == last;
      assert events[k].from == p && events[k].tick == last;
      assert last < e.tick;
      if e.tick >= 3 {
        assert e.tick - 1 in l;
      } else if last == 0 {
        assert Plays(events, p, 0) && Plays(events, p, 2) && Prompt(events, p);
        PlayedIsRecorded(log, events, p, 1);
      }
    }
  }

  // ---------------------------------------------------------------------------------------------
  // The rule
  // ---------------------------------------------------------------------------------------------

  function BoardOf(boards: map<PlotID, Board>, p: PlotID): Option<Board> {
    if p in boards then Some(boards[p]) else None
  }

  /** The boards remembered after the first `i` events. */
  ghost predicate Walked(log: Log, events: seq<PlotEvent>, i: nat, boards: map<PlotID, Board>)
    requires i <= |events|
  {
    && (forall p :: Knows(LogOf(log, p), LogOf(Record(log, events[..i]), p), BoardOf(boards, p)))
    && (forall p :: p in boards ==> Plays(events[..i], p, boards[p].last))
    && (forall k :: 0 <= k < i ==> events[k].from in boards)
    && (forall p :: Prompt(events[..i], p))
  }

  /** A game started here is joined here before its first turn. */
  predicate Prompt(events: seq<PlotEvent>, p: PlotID) {
    Plays(events, p, 0) && Plays(events, p, 2) ==> Plays(events, p, 1)
  }

  lemma {:induction false} PlaysNext(events: seq<PlotEvent>, i: nat, p: PlotID, t: nat)
    requires i < |events|
    ensures Plays(events[..i + 1], p, t) <==> Plays(events[..i], p, t) || (events[i].from == p && events[i].tick == t)
  {
    if Plays(events[..i + 1], p, t) && !(events[i].from == p && events[i].tick == t) {
      var k :| 0 <= k < |events[..i + 1]| && events[..i + 1][k].from == p && events[..i + 1][k].tick == t;
      assert events[..i][k].from == p && events[..i][k].tick == t;
    }
    if Plays(events[..i], p, t) {
      var k :| 0 <= k < |events[..i]| && events[..i][k].from == p && events[..i][k].tick == t;
      assert events[..i + 1][k].from == p && events[..i + 1][k].tick == t;
    }
    if events[i].from == p && events[i].tick == t { assert events[..i + 1][i].from == p && events[..i + 1][i].tick == t; }
  }

  lemma {:induction false} PlayedHasBoard(log: Log, events: seq<PlotEvent>, i: nat, boards: map<PlotID, Board>, p: PlotID, t: nat)
    requires i <= |events| && Walked(log, events, i, boards) && Plays(events[..i], p, t)
    ensures p in boards
  {
    var k :| 0 <= k < |events[..i]| && events[..i][k].from == p && events[..i][k].tick == t;
    assert events[k].from == p;
  }

  lemma {:induction false} PromptNext(log: Log, events: seq<PlotEvent>, i: nat, boards: map<PlotID, Board>, p: PlotID)
    requires i < |events| && Walked(log, events, i, boards) && (events[i].from in boards ==> events[i].tick > 0)
    requires events[i].tick == 2 && events[i].from in boards ==> boards[events[i].from].last == 1
    ensures Prompt(events[..i + 1], p)
  {
    assert Prompt(events[..i], p);
    PlaysNext(events, i, p, 0);
    PlaysNext(events, i, p, 1);
    PlaysNext(events, i, p, 2);
    if events[i].from == p && events[i].tick == 0 && Plays(events[..i], p, 2) { PlayedHasBoard(log, events, i, boards, p, 2); }
    if events[i].from == p && events[i].tick == 2 && Plays(events[..i], p, 0) { PlayedHasBoard(log, events, i, boards, p, 0); }
  }

  lemma {:induction false} WalkedNext(log: Log, events: seq<PlotEvent>, i: nat, boards: map<PlotID, Board>, b: Board)
    requires i < |events| && Walked(log, events, i, boards) && b.last == events[i].tick
    requires BoardOk(Enter(LogOf(Record(log, events[..i]), events[i].from), events[i]), b)
    requires events[i].from in boards ==> events[i].tick > 0
    requires events[i].tick == 2 && events[i].from in boards ==> boards[events[i].from].last == 1
    ensures Walked(log, events, i + 1, boards[events[i].from := b])
  {
    var boards' := boards[events[i].from := b];
    RecordNext(log, events, i);
    forall p ensures Knows(LogOf(log, p), LogOf(Record(log, events[..i + 1]), p), BoardOf(boards', p)) {
      assert Knows(LogOf(log, p), LogOf(Record(log, events[..i]), p), BoardOf(boards, p));
    }
    forall p | p in boards' ensures Plays(events[..i + 1], p, boards'[p].last) { PlaysNext(events, i, p, boards'[p].last); }
    var more := events[..i + 1];
    forall p ensures Prompt(more, p) { PromptNext(log, events, i, boards, p); }
  }

  /** What sorting and fairness give about the board an event finds. */
  lemma {:induction false} BoardBefore(log: Log, events: seq<PlotEvent>, i: nat, boards: map<PlotID, Board>)
    requires i < |events| && ByTick(events) && Plain(events) && Walked(log, events, i, boards)
    ensures events[i].from in boards ==> events[i].tick > 0 && boards[events[i].from].last <= events[i].tick
  {
    var p := events[i].from;
    if p in boards {
      var t := boards[p].last;
      assert Plays(events[..i], p, t);
      var k :| 0 <= k < |events[..i]| && events[..i][k].from == p && events[..i][k].tick == t;
      assert events[k].from == p && events[k].tick == t;
      if events[i].tick == 0 { PickedTwice(events, k, i); }
    }
  }

  lemma {:induction false} PickedGrows(events: seq<PlotEvent>, i: nat, p: PlotID, t: nat)
    requires i <= |events|
    ensures Picked(events[..i], p, t) <= Picked(events, p, t)
    decreases |events|
  {
    if i == |events| {
      assert events[..i] == events;
    } else {
      var init := events[..|events| - 1];
      assert init[..i] == events[..i];
      PickedGrows(init, i, p, t);
    }
  }

  /** Event `i` adds one more entry to those before it. */
  lemma {:induction false} PickedOneMore(events: seq<PlotEvent>, i: nat)
    requires i < |events|
    ensures |Picked(events, events[i].from, events[i].tick)| > |Picked(events[..i], events[i].from, events[i].tick)|
  {
    var p, t := events[i].from, events[i].tick;
    PickedNext(events, i, p, t);
    PickedGrows(events, i + 1, p, t);
  }

  lemma {:induction false} PickedTwice(events: seq<PlotEvent>, i: nat, j: nat)
    requires i < j < |events| && events[i].from == events[j].from && events[i].tick == events[j].tick
    ensures |Picked(events, events[i].from, events[i].tick)| >= 2
  {
    var before := events[..j];
    assert before[i] == events[i];
    PickedOneMore(before, i);
    PickedOneMore(events, j);
  }

  lemma {:induction false} PickedNext(events: seq<PlotEvent>, i: nat, p: PlotID, t: nat)
    requires i < |events|
    ensures Picked(events[..i + 1], p, t) == Picked(events[..i], p, t) + PickOne(events[i], p, t)
  {
    assert events[..i + 1][..i] == events[..i];
  }

  /** Where an event finds its plot, and that only a mutation to be refused has it disallowed. */
  lemma {:induction false} Found(log: Log, events: seq<PlotEvent>, i: nat, boards: map<PlotID, Board>)
    requires i < |events| && ByTick(events) && AllOk(log) && Walked(log, events, i, boards)
    ensures var p := events[i].from; var l := LogOf(Record(log, events[..i]), p);
            && GameOk(LogOf(log, p)) && Knows(LogOf(log, p), l, BoardOf(boards, p))
            && (Good(log, events) ==> Allowed(l, BoardOf(boards, p), events[i]))
  {
    var p := events[i].from;
    assert GameOk(LogOf(log, p));
    assert Knows(LogOf(log, p), LogOf(Record(log, events[..i]), p), BoardOf(boards, p));
    if Good(log, events) { GoodAllows(log, events, i, BoardOf(boards, p)); }
  }

  lemma {:induction false} WalkedNone(log: Log, events: seq<PlotEvent>)
    requires AllOk(log)
    ensures Walked(log, events, 0, map[])
  {
    assert events[..0] == [];
    forall p ensures Knows(LogOf(log, p), LogOf(Record(log, events[..0]), p), None) { assert GameOk(LogOf(log, p)); }
    var none := events[..0];
    forall p ensures Prompt(none, p) { }
  }

  /** What the rule answers; `Crash` where the program stops instead. */
  datatype Decision = Accept | Refuse | Crash

  /** The first pass: the boards of the plots played on, or the answer that ends it. */
  datatype Pass = Ended(decision: Decision) | Boards(boards: map<PlotID, Board>)

  function Continue(log: Log, boards: map<PlotID, Board>, e: PlotEvent): Pass {
    match Next(LogOf(log, e.from), BoardOf(boards, e.from), e)
    case Rejected => Ended(Refuse)
    case Crashed => Ended(Crash)
    case Seated(b) => Boards(boards[e.from := b])
    case Unseated => Boards(boards)
  }

  function Follow(log: Log, events: seq<PlotEvent>): Pass {
    if events == [] then Boards(map[])
    else
      var before := Follow(log, events[..|events| - 1]);
      if before.Ended? then before else Continue(log, before.boards, events[|events| - 1])
  }

  lemma {:induction false} FollowNext(log: Log, events: seq<PlotEvent>, i: nat)
    requires i < |events|
    ensures var before := Follow(log, events[..i]);
            Follow(log, events[..i + 1]) == if before.Ended? then before else Continue(log, before.boards, events[i])
  {
    assert events[..i + 1][..i] == events[..i];
  }

  lemma {:induction false} FollowStops(log: Log, events: seq<PlotEvent>, i: nat)
    requires i <= |events| && Follow(log, events[..i]).Ended?
    ensures Follow(log, events) == Follow(log, events[..i])
    decreases |events|
  {
    if i == |events| {
      assert events[..i] == events;
    } else {
      assert events[..|events| - 1][..i] == events[..i];
      FollowStops(log, events[..|events| - 1], i);
    }
  }

  /** First pass: every event continues its game. */
  method FollowGames(log: Log, events: seq<PlotEvent>) returns (pass: Pass)
    ensures pass == Follow(log, events)
  {
    pass := Boards(map[]);
    for i := 0 to |events|
      invariant pass.Boards? && pass == Follow(log, events[..i])
    {
      FollowNext(log, events, i);
      var e := events[i];
      match Next(LogOf(log, e.from), BoardOf(pass.boards, e.from), e) {
        case Rejected =>
          FollowStops(log, events, i + 1);
          return Ended(Refuse);
        case Crashed =>
          FollowStops(log, events, i + 1);
          return Ended(Crash);
        case Seated(b) => pass := Boards(pass.boards[e.from := b]);
        case Unseated =>
      }
    }
    assert events[..|events|] == events;
  }

  /** On games in order the first pass never stops the program and seats every plot. */
  lemma {:induction false} FollowSafe(log: Log, events: seq<PlotEvent>)
    requires AllOk(log)
    ensures var pass := Follow(log, events);
            pass == Ended(Refuse) || (pass.Boards? && forall k :: 0 <= k < |events| ==> events[k].from in pass.boards)
  {
    if events != [] {
      var n := |events| - 1;
      FollowSafe(log, events[..n]);
      var before := Follow(log, events[..n]);
      if before.Boards? {
        assert GameOk(LogOf(log, events[n].from));
        NextSafe(LogOf(log, events[n].from), BoardOf(before.boards, events[n].from), events[n]);
        forall k | 0 <= k < n ensures events[k].from in before.boards { assert events[..n][k] == events[k]; }
      }
    }
  }

  /** The first pass over `i` events has left the boards of the longer games, or has ended early for a
      mutation that should be refused. */
  ghost predicate Following(log: Log, events: seq<PlotEvent>, i: nat, pass: Pass)
    requires i <= |events|
  {
    if pass.Boards? then Walked(log, events, i, pass.boards) && forall k :: 0 <= k < i ==> events[k].to == {}
    else !Good(log, events)
  }

  /** On games in order and plain events the first pass does its work. */
  lemma {:induction false} FollowWalks(log: Log, events: seq<PlotEvent>, i: nat)
    requires AllOk(log) && Plain(events) && ByTick(events) && i <= |events|
    ensures Following(log, events, i, Follow(log, events[..i]))
    decreases i
  {
    if i == 0 {
      WalkedNone(log, events);
      assert events[..0] == [];
    } else {
      FollowWalks(log, events, i - 1);
      FollowingNext(log, events, i - 1);
    }
  }

  lemma {:induction false} FollowingNext(log: Log, events: seq<PlotEvent>, i: nat)
    requires AllOk(log) && Plain(events) && ByTick(events) && i < |events|
    requires Following(log, events, i, Follow(log, events[..i]))
    ensures Following(log, events, i + 1, Follow(log, events[..i + 1]))
  {
    FollowNext(log, events, i);
    var before := Follow(log, events[..i]);
    if before.Boards? { WalkOne(log, events, i, before.boards); }
  }

  lemma {:induction false} WalkOne(log: Log, events: seq<PlotEvent>, i: nat, boards: map<PlotID, Board>)
    requires AllOk(log) && Plain(events) && ByTick(events) && i < |events| && Walked(log, events, i, boards)
    ensures var pass := Continue(log, boards, events[i]);
            if pass.Boards? then Walked(log, events, i + 1, pass.boards) && events[i].to == {} else !Good(log, events)
  {
    var e := events[i];
    var l := LogOf(Record(log, events[..i]), e.from);
    BoardBefore(log, events, i, boards);
    Found(log, events, i, boards);
    NextSafe(LogOf(log, e.from), BoardOf(boards, e.from), e);
    NextIs(LogOf(log, e.from), BoardOf(boards, e.from), e, l);
    var next := Next(LogOf(log, e.from), BoardOf(boards, e.from), e);
    if next.Seated? { WalkedNext(log, events, i, boards, next.board); }
  }

  predicate SignerOk(boards: map<PlotID, Board>, e: PlotEvent) {
    e.tick == 0 || (e.from in boards && boards[e.from].players.Both() && e.signer == boards[e.from].players.Mover(e.tick))
  }

  /** The second pass on one event. */
  function Check(boards: map<PlotID, Board>, e: PlotEvent): Decision {
    if e.tick == 0 then Accept
    else if e.from !in boards then Crash
    else if SignerOk(boards, e) then Accept else Refuse
  }

  function Signers(boards: map<PlotID, Board>, events: seq<PlotEvent>): Decision {
    if events == [] then Accept
    else
      var before := Signers(boards, events[..|events| - 1]);
      if before != Accept then before else Check(boards, events[|events| - 1])
  }

  lemma {:induction false} SignersStop(boards: map<PlotID, Board>, events: seq<PlotEvent>, i: nat)
    requires i <= |events| && Signers(boards, events[..i]) != Accept
    ensures Signers(boards, events) == Signers(boards, events[..i])
    decreases |events|
  {
    if i == |events| {
      assert events[..i] == events;
    } else {
      assert events[..|events| - 1][..i] == events[..i];
      SignersStop(boards, events[..|events| - 1], i);
    }
  }

  /** Second pass: every turn was signed by the player to move. */
  method CheckSigners(events: seq<PlotEvent>, boards: map<PlotID, Board>) returns (decision: Decision)
    ensures decision == Signers(boards, events)
  {
    for i := 0 to |events|
      invariant Signers(boards, events[..i]) == Accept
    {
      var e := events[i];
      assert events[..i + 1][..i] == events[..i];
      if Signers(boards, events[..i + 1]) != Accept { SignersStop(boards, events, i + 1); }
      if e.tick == 0 { continue; }
      if e.from !in boards { return Crash; }
      var players := boards[e.from].players;
      if players.p1 == 0 || players.p2 == 0 { return Refuse; }
      if e.tick % 2 == 0 {
        if e.signer != players.p1 { return Refuse; }
      } else {
        if e.signer != players.p2 { return Refuse; }
      }
    }
    assert events[..|events|] == events;
    decision := Accept;
  }

  /** With every plot seated, all turns are accepted exactly when each was signed right. */
  lemma {:induction false} SignersMean(boards: map<PlotID, Board>, events: seq<PlotEvent>)
    requires forall k :: 0 <= k < |events| ==> events[k].from in boards
    ensures Signers(boards, events) != Crash
    ensures Signers(boards, events) == Accept <==> forall i :: 0 <= i < |events| ==> SignerOk(boards, events[i])
  {
    if events != [] {
      var n := |events| - 1;
      SignersMean(boards, events[..n]);
      assert events == events[..n] + [events[n]];
    }
  }

  /** The players of a game do not change once both are set. */
  lemma {:induction false} PlayersStay(l: PlotLog, l': PlotLog)
    requires Shape(l) && Shape(l') && Extends(l, l') && 0 in l && PlayersOf(l).Both()
    ensures 0 in l' && PlayersOf(l') == PlayersOf(l)
  {
    assert At(l, 0) <= At(l', 0) && At(l, 1) <= At(l', 1);
  }

  lemma {:induction false} EventIsEntry(log: Log, events: seq<PlotEvent>, k: nat)
    requires k < |events| && Shape(LogOf(Record(log, events), events[k].from))
    ensures var g, e := LogOf(Record(log, events), events[k].from), events[k];
            e.tick in g && g[e.tick] == [Entry(e.event, e.signer)]
  {
    var e := events[k];
    var l, g := LogOf(Record(log, events[..k]), e.from), LogOf(Record(log, events), e.from);
    RecordNext(log, events, k);
    RecordGrows(log, events, k + 1, e.from);
    assert At(l, e.tick) + [Entry(e.event, e.signer)] <= At(g, e.tick);
  }

  lemma {:induction false} OldTurnSigned(log: Log, events: seq<PlotEvent>, p: PlotID, t: nat)
    requires AllOk(log) && t >= 1
    requires var l, g := LogOf(log, p), LogOf(Record(log, events), p); t in l && Shape(g)
    ensures var g := LogOf(Record(log, events), p);
            0 in g && t in g && PlayersOf(g).Both() && g[t][0].signer == PlayersOf(g).Mover(t)
  {
    var l, g := LogOf(log, p), LogOf(Record(log, events), p);
    assert GameOk(l);
    assert events[..0] == [];
    RecordGrows(log, events, 0, p);
    assert At(l, t) <= At(g, t);
    assert PlayersOf(l).Both();
    PlayersStay(l, g);
  }

  /** Once every event continued its game, the signers are right exactly when all games are in order. */
  lemma {:induction false} SignersIff(log: Log, events: seq<PlotEvent>, boards: map<PlotID, Board>)
    requires AllOk(log) && Walked(log, events, |events|, boards)
    ensures (forall i :: 0 <= i < |events| ==> SignerOk(boards, events[i])) <==> AllOk(Record(log, events))
  {
    assert events[..|events|] == events;
    if AllOk(Record(log, events)) {
      forall i | 0 <= i < |events| ensures SignerOk(boards, events[i]) { SignedRight(log, events, boards, i); }
    }
    if forall i :: 0 <= i < |events| ==> SignerOk(boards, events[i]) {
      forall p ensures GameOk(LogOf(Record(log, events), p)) { GameInOrder(log, events, boards, p); }
    }
  }

  lemma {:induction false} SignedRight(log: Log, events: seq<PlotEvent>, boards: map<PlotID, Board>, i: nat)
    requires AllOk(Record(log, events)) && Walked(log, events, |events|, boards) && i < |events|
    ensures SignerOk(boards, events[i])
  {
    var p := events[i].from;
    assert events[..|events|] == events;
    assert Knows(LogOf(log, p), LogOf(Record(log, events[..|events|]), p), BoardOf(boards, p));
    assert GameOk(LogOf(Record(log, events), p));
    EventIsEntry(log, events, i);
  }

  lemma {:induction false} GameInOrder(log: Log, events: seq<PlotEvent>, boards: map<PlotID, Board>, p: PlotID)
    requires AllOk(log) && Walked(log, events, |events|, boards)
    requires forall i :: 0 <= i < |events| ==> SignerOk(boards, events[i])
    ensures GameOk(LogOf(Record(log, events), p))
  {
    assert events[..|events|] == events;
    assert Knows(LogOf(log, p), LogOf(Record(log, events[..|events|]), p), BoardOf(boards, p));
    var g: PlotLog := LogOf(Record(log, events), p);
    if p in boards {
      forall t: nat | t in g && t >= 1 && g[t] != [] ensures PlayersOf(g).Both() && g[t][0].signer == PlayersOf(g).Mover(t) {
        assert GameOk(LogOf(log, p));
        if t in LogOf(log, p) {
          OldTurnSigned(log, events, p, t);
        } else {
          Origin(log, events, p, t);
          var k :| 0 <= k < |events| && events[k].from == p && events[k].tick == t;
          EventIsEntry(log, events, k);
          assert SignerOk(boards, events[k]);
        }
      }
    }
  }

  /** Both passes over events in order. */
  function Passes(log: Log, events: seq<PlotEvent>): Decision {
    match Follow(log, events)
    case Ended(decision) => decision
    case Boards(boards) => Signers(boards, events)
  }

  /** On games in order the program never stops. */
  lemma {:induction false} PassesSafe(log: Log, events: seq<PlotEvent>)
    requires AllOk(log)
    ensures Passes(log, events) != Crash
  {
    FollowSafe(log, events);
    var pass := Follow(log, events);
    if pass.Boards? { SignersMean(pass.boards, events); }
  }

  /** On games in order and plain events, the passes accept exactly what leaves all games in order. */
  lemma {:induction false} PassesIff(log: Log, events: seq<PlotEvent>)
    requires AllOk(log) && Plain(events) && ByTick(events)
    ensures Passes(log, events) == Accept <==> Good(log, events)
  {
    FollowSafe(log, events);
    FollowWalks(log, events, |events|);
    assert events[..|events|] == events;
    var pass := Follow(log, events);
    if pass.Boards? {
      SignersMean(pass.boards, events);
      SignersIff(log, events, pass.boards);
    }
  }

  // ---------------------------------------------------------------------------------------------
  // Any order of events
  // ---------------------------------------------------------------------------------------------

  /** By plot, then by tick. */
  predicate NotAfter(a: PlotEvent, b: PlotEvent) {
    || a.from.0 < b.from.0
    || (a.from.0 == b.from.0 && a.from.1 < b.from.1)
    || (a.from == b.from && a.tick <= b.tick)
  }

  /** Inserts behind everything not after it, so that sorting is stable. */
  function Insert(events: seq<PlotEvent>, e: PlotEvent): seq<PlotEvent> {
    if events == [] || NotAfter(events[|events| - 1], e) then events + [e]
    else Insert(events[..|events| - 1], e) + [events[|events| - 1]]
  }

  function SortEvents(events: seq<PlotEvent>): seq<PlotEvent> {
    if events == [] then [] else Insert(SortEvents(events[..|events| - 1]), events[|events| - 1])
  }

  predicate InOrder(events: seq<PlotEvent>) {
    forall i, j :: 0 <= i < j < |events| ==> NotAfter(events[i], events[j])
  }

  lemma {:induction false} InsertFacts(events: seq<PlotEvent>, e: PlotEvent)
    requires InOrder(events)
    ensures InOrder(Insert(events, e)) && forall x :: x in Insert(events, e) <==> x in events || x == e
  {
    if events != [] && !NotAfter(events[|events| - 1], e) {
      var init, last := events[..|events| - 1], events[|events| - 1];
      InsertFacts(init, e);
      assert events == init + [last];
      var inserted := Insert(init, e);
      forall i | 0 <= i < |inserted| ensures NotAfter(inserted[i], last) {
        assert inserted[i] in inserted;
      }
    }
  }

  lemma {:induction false} PickedInsert(events: seq<PlotEvent>, e: PlotEvent, p: PlotID, t: nat)
    ensures Picked(Insert(events, e), p, t) == Picked(events, p, t) + PickOne(e, p, t)
  {
    if events == [] || NotAfter(events[|events| - 1], e) {
      assert (events + [e])[..|events|] == events;
    } else {
      var init, last := events[..|events| - 1], events[|events| - 1];
      PickedInsert(init, e, p, t);
      assert (Insert(init, e) + [last])[..|Insert(init, e)|] == Insert(init, e);
      assert PickOne(e, p, t) == [] || PickOne(last, p, t) == [];
    }
  }

  lemma {:induction false} SortFacts(events: seq<PlotEvent>)
    ensures InOrder(SortEvents(events)) && forall x :: x in SortEvents(events) <==> x in events
  {
    if events != [] {
      var init, last := events[..|events| - 1], events[|events| - 1];
      SortFacts(init);
      InsertFacts(SortEvents(init), last);
      assert events == init + [last];
    }
  }

  lemma {:induction false} PickedSort(events: seq<PlotEvent>, p: PlotID, t: nat)
    ensures Picked(SortEvents(events), p, t) == Picked(events, p, t)
  {
    if events != [] {
      PickedSort(events[..|events| - 1], p, t);
      PickedInsert(SortEvents(events[..|events| - 1]), events[|events| - 1], p, t);
    }
  }

  lemma {:induction false} RecordPicked(log: Log, events: seq<PlotEvent>, p: PlotID, t: nat)
    ensures At(LogOf(Record(log, events), p), t) == At(LogOf(log, p), t) + Picked(events, p, t)
    ensures t in LogOf(Record(log, events), p) <==> t in LogOf(log, p) || Picked(events, p, t) != []
  {
    if events != [] {
      var init := events[..|events| - 1];
      RecordPicked(log, init, p, t);
      RecordOnePicked(Record(log, init), events[|events| - 1], p, t);
    }
  }

  lemma {:induction false} RecordOnePicked(log: Log, e: PlotEvent, p: PlotID, t: nat)
    ensures At(LogOf(RecordOne(log, e), p), t) == At(LogOf(log, p), t) + PickOne(e, p, t)
    ensures t in LogOf(RecordOne(log, e), p) <==> t in LogOf(log, p) || PickOne(e, p, t) != []
  {
  }

  lemma {:induction false} PlaysPicked(events: seq<PlotEvent>, p: PlotID, t: nat)
    ensures Plays(events, p, t) <==> Picked(events, p, t) != []
  {
    if events == [] {
    } else {
      var n := |events| - 1;
      PlaysPicked(events[..n], p, t);
      PlaysNext(events, n, p, t);
      assert events[..n + 1] == events;
    }
  }

  /** Sorting changes neither what is recorded nor whether it is good or plain. */
  lemma {:induction false} SortKeepsGood(log: Log, events: seq<PlotEvent>)
    ensures Good(log, SortEvents(events)) <==> Good(log, events)
    ensures Plain(SortEvents(events)) <==> Plain(events)
  {
    var sorted := SortEvents(events);
    SortFacts(events);
    forall p ensures LogOf(Record(log, sorted), p) == LogOf(Record(log, events), p) { SameRecord(log, events, p); }
    forall p ensures Prompt(sorted, p) <==> Prompt(events, p) {
      forall t: nat ensures Plays(sorted, p, t) <==> Plays(events, p, t) {
        PickedSort(events, p, t);
        PlaysPicked(events, p, t);
        PlaysPicked(sorted, p, t);
      }
    }
    forall p ensures |Picked(sorted, p, 0)| == |Picked(events, p, 0)| { PickedSort(events, p, 0); }
    assert AllOk(Record(log, sorted)) <==> AllOk(Record(log, events)) by {
      SameAllOk(Record(log, sorted), Record(log, events));
    }
  }

  lemma {:induction false} SameAllOk(a: Log, b: Log)
    requires forall p :: LogOf(a, p) == LogOf(b, p)
    ensures AllOk(a) <==> AllOk(b)
  {
    if AllOk(a) { forall p ensures GameOk(LogOf(b, p)) { assert GameOk(LogOf(a, p)); } }
    if AllOk(b) { forall p ensures GameOk(LogOf(a, p)) { assert GameOk(LogOf(b, p)); } }
  }

  lemma {:induction false} SameRecord(log: Log, events: seq<PlotEvent>, p: PlotID)
    ensures LogOf(Record(log, SortEvents(events)), p) == LogOf(Record(log, events), p)
  {
    var a, b := LogOf(Record(log, SortEvents(events)), p), LogOf(Record(log, events), p);
    forall t: nat ensures (t in a <==> t in b) && At(a, t) == At(b, t) {
      PickedSort(events, p, t);
      RecordPicked(log, events, p, t);
      RecordPicked(log, SortEvents(events), p, t);
    }
    forall t: nat | t in a ensures a[t] == b[t] { assert At(a, t) == At(b, t); }
  }

  /** The whole rule on any record of games and any mutation. */
  function Judge(log: Log, events: seq<PlotEvent>): Decision {
    Passes(log, SortEvents(events))
  }

  method IsValid(log: Log, events: seq<PlotEvent>) returns (decision: Decision)
    ensures decision == Judge(log, events)
  {
    var sorted := SortEvents(events);
    var pass := FollowGames(log, sorted);
    if pass.Ended? { return pass.decision; }
    decision := CheckSigners(sorted, pass.boards);
  }

  /** A record in order has been written by plain events. */
  lemma {:induction false} OrderIsPlain(log: Log, events: seq<PlotEvent>)
    requires AllOk(Record(log, events))
    ensures Plain(events)
  {
    forall e | e in events ensures PlainEvent(e) {
      var k :| 0 <= k < |events| && events[k] == e;
      assert GameOk(LogOf(Record(log, events), e.from));
      EventIsEntry(log, events, k);
    }
    forall p ensures |Picked(events, p, 0)| <= 1 {
      assert GameOk(LogOf(Record(log, events), p));
      RecordPicked(log, events, p, 0);
    }
  }

  /** On games in order the rule never stops the program; of plain mutations it accepts exactly those
      that leave every game in order; and an accepted mutation leaves them in order exactly when it is
      plain. */
  lemma {:induction false} JudgeIff(log: Log, events: seq<PlotEvent>)
    requires AllOk(log)
    ensures Judge(log, events) != Crash
    ensures Plain(events) ==> (Judge(log, events) == Accept <==> Good(log, events))
    ensures Judge(log, events) == Accept ==> (AllOk(Record(log, events)) <==> Plain(events))
  {
    var sorted := SortEvents(events);
    SortFacts(events);
    SortKeepsGood(log, events);
    PassesSafe(log, sorted);
    if Plain(events) { PassesIff(log, sorted); }
    if AllOk(Record(log, events)) { OrderIsPlain(log, events); }
  }

  lemma {:induction false} SortSorted(events: seq<PlotEvent>)
    requires InOrder(events)
    ensures SortEvents(events) == events
  {
    if events != [] {
      var n := |events| - 1;
      SortSorted(events[..n]);
      assert events == events[..n] + [events[n]];
    }
  }

  /** Two starts: one mutation may start a game between `a` and `x`, then another with an open place,
      and have `b` join the second. It is accepted. */
  lemma {:induction false} TwoStartsAccepted(p: PlotID, a: U160, x: U160, b: U160)
    requires a != 0 && b != 0
    ensures var events := TwoStarts(p, a, x, b);
            Judge(map[], events) == Accept && !Plain(events) && !AllOk(Record(map[], events))
  {
    var events := TwoStarts(p, a, x, b);
    var e0, e1, e2 := events[0], events[1], events[2];
    SortSorted(events);
    assert events[..2] == [e0, e1] && [e0, e1][..1] == [e0] && [e0][..0] == [];
    assert Follow(map[], [e0]) == Boards(map[p := Board(Players(a, x), 0)]);
    assert Follow(map[], [e0, e1]) == Boards(map[p := Board(Players(a, 0), 0)]);
    var boards := map[p := Board(Players(a, b), 1)];
    assert Follow(map[], events) == Boards(boards);
    SignersMean(boards, events);
    PickedTwice(events, 0, 1);
    if AllOk(Record(map[], events)) { OrderIsPlain(map[], events); }
  }

  function TwoStarts(p: PlotID, a: U160, x: U160, b: U160): seq<PlotEvent> {
    [PlotEvent(p, {}, 0, Start(a, x), a), PlotEvent(p, {}, 0, Start(a, 0), a), PlotEvent(p, {}, 1, Join(b), b)]
  }

  lemma {:induction false} PickedThree(e0: PlotEvent, e1: PlotEvent, e2: PlotEvent, p: PlotID, t: nat)
    ensures Picked([e0, e1, e2], p, t) == PickOne(e0, p, t) + PickOne(e1, p, t) + PickOne(e2, p, t)
  {
    var events := [e0, e1, e2];
    PickedNext(events, 0, p, t);
    PickedNext(events, 1, p, t);
    PickedNext(events, 2, p, t);
    assert events[..3] == events;
  }

  lemma {:induction false} FollowSingle(log: Log, e: PlotEvent)
    ensures Follow(log, [e]) == Continue(log, map[], e)
  {
    assert [e][..0] == [];
  }

  lemma {:induction false} SignersSingle(boards: map<PlotID, Board>, e: PlotEvent)
    ensures Signers(boards, [e]) == Check(boards, e)
  {
    assert [e][..0] == [];
  }

  /** A record that starts a game between two players and also has a join seats nobody. */
  lemma {:induction false} BrokenResume(stored: PlotLog, e: PlotEvent)
    requires e.to == {} && e.tick == 2 && 2 !in stored
    requires var start, join := FirstOf(stored, 0), FirstOf(stored, 1);
             && start.Some? && start.value.Start? && start.value.p1 != 0 && start.value.p2 != 0
             && join.Some? && join.value.Join?
    ensures Next(stored, None, e) == Unseated
  {
    assert 0 in stored && 1 in stored;
    assert Resume(stored, 2) == Unseated;
  }

  /** The first turn on such a plot stops the program. */
  lemma {:induction false} BrokenRecord(log: Log, turn: PlotEvent)
    requires turn.tick == 2 && Next(LogOf(log, turn.from), None, turn) == Unseated
    ensures Judge(log, [turn]) == Crash
  {
    SortSorted([turn]);
    FollowSingle(log, turn);
    SignersSingle(map[], turn);
    assert BoardOf(map[], turn.from) == None;
    assert Continue(log, map[], turn) == Boards(map[]);
    assert Check(map[], turn) == Crash;
  }

  /** The next turn on that plot stops the program. */
  lemma {:induction false} TwoStartsCrash(p: PlotID, a: U160, x: U160, b: U160, turn: PlotEvent)
    requires a != 0 && x != 0 && turn.from == p && turn.to == {} && turn.tick == 2
    ensures Judge(Record(map[], TwoStarts(p, a, x, b)), [turn]) == Crash
  {
    var events := TwoStarts(p, a, x, b);
    var l := LogOf(Record(map[], events), p);
    forall t: nat | t <= 2 ensures At(l, t) == Picked(events, p, t) && (t in l <==> Picked(events, p, t) != []) {
      RecordPicked(map[], events, p, t);
    }
    PickedThree(events[0], events[1], events[2], p, 0);
    PickedThree(events[0], events[1], events[2], p, 1);
    PickedThree(events[0], events[1], events[2], p, 2);
    assert events == [events[0], events[1], events[2]];
    BrokenResume(l, turn);
    BrokenRecord(Record(map[], events), turn);
  }

  /** A game that `a` started with the first place open, and two joins signed by `a`, the first of them
      of the zero id. */
  function OpenGame(p: PlotID, a: U160): Log {
    map[p := map[0 := [Entry(Start(0, a), a)]]]
  }

  function ZeroJoin(p: PlotID, a: U160, b: U160): seq<PlotEvent> {
    [PlotEvent(p, {}, 1, Join(0), a), PlotEvent(p, {}, 1, Join(b), a)]
  }

  lemma {:induction false} OpenGameOk(p: PlotID, a: U160)
    requires a != 0
    ensures AllOk(OpenGame(p, a))
  {
    forall q ensures GameOk(LogOf(OpenGame(p, a), q)) { }
  }

  /** The zero id: the mutation is accepted, and leaves two joins on tick 1. */
  lemma {:induction false} ZeroJoinAccepted(p: PlotID, a: U160, b: U160)
    requires a != 0 && b != 0
    ensures var log, events := OpenGame(p, a), ZeroJoin(p, a, b);
            AllOk(log) && Judge(log, events) == Accept && !Plain(events) && !AllOk(Record(log, events))
  {
    var log, events := OpenGame(p, a), ZeroJoin(p, a, b);
    OpenGameOk(p, a);
    SortSorted(events);
    assert events[..1] == [events[0]] && [events[0]][..0] == [];
    assert Follow(log, [events[0]]) == Boards(map[p := Board(Players(0, a), 1)]);
    var boards := map[p := Board(Players(b, a), 1)];
    assert Follow(log, events) == Boards(boards);
    SignersMean(boards, events);
    assert events[0] in events && !PlainEvent(events[0]);
    if AllOk(Record(log, events)) { OrderIsPlain(log, events); }
  }

  // ---------------------------------------------------------------------------------------------
  // What a game in order is
  // ---------------------------------------------------------------------------------------------

  /** Turns from 2 on have no gaps and each was played once: those of even ticks by the first player,
      those of odd ticks by the second. The players are those of the start, with the open place taken by
      whoever joined. */
  lemma {:induction false} GameMeans(l: PlotLog, t: nat, u: nat)
    requires GameOk(l) && t in l && 2 <= u <= t
    ensures t <= 500 && u in l && |l[u]| == 1 && 0 in l && |l[0]| == 1 && l[0][0].event.Start?
    ensures 1 in l ==> |l[1]| == 1 && l[1][0].event.Join?
    ensures var start := l[0][0].event;
            var first := if start.p1 == 0 && 1 in l then l[1][0].event.player else start.p1;
            var second := if start.p1 != 0 && start.p2 == 0 && 1 in l then l[1][0].event.player else start.p2;
            && first != 0 && second != 0
            && (u % 2 == 0 ==> l[u][0].signer == first) && (u % 2 == 1 ==> l[u][0].signer == second)
    decreases t
  {
    if u < t { GameMeans(l, t - 1, u); }
  }

  /** When a game is in order, in full. */
  lemma {:induction false} GameIff(l: PlotLog)
    ensures GameOk(l) <==>
            && (forall t: nat :: t in l ==> t <= 500 && |l[t]| == 1)
            && (l != map[] ==> 0 in l)
            && (forall t: nat :: t in l && t >= 3 ==> t - 1 in l)
            && (0 in l ==>
                  && l[0][0].event.Start?
                  && (var start, signer := l[0][0].event, l[0][0].signer;
                      (start.p1 != 0 || start.p2 != 0) && (signer == start.p1 || signer == start.p2)))
            && (1 in l ==>
                  && 0 in l && l[1][0].event.Join? && l[1][0].event.player != 0
                  && (l[0][0].event.p1 == 0 || l[0][0].event.p2 == 0))
            && (0 in l ==>
                  var start := l[0][0].event;
                  var first := if start.p1 == 0 && 1 in l then l[1][0].event.player else start.p1;
                  var second := if start.p1 != 0 && start.p2 == 0 && 1 in l then l[1][0].event.player else start.p2;
                  forall t: nat :: t in l && t >= 1 ==>
                    first != 0 && second != 0 && l[t][0].signer == if t % 2 == 0 then first else second)
  {
  }

  // ---------------------------------------------------------------------------------------------
  // Single events
  // ---------------------------------------------------------------------------------------------

  lemma {:induction false} JudgeSingle(log: Log, e: PlotEvent)
    ensures Judge(log, [e]) == match Continue(log, map[], e) case Ended(decision) => decision case Boards(boards) => Check(boards, e)
  {
    SortSorted([e]);
    FollowSingle(log, e);
    var pass := Continue(log, map[], e);
    if pass.Boards? { SignersSingle(pass.boards, e); }
  }

  /** A game starts on an unused plot, by one of its players. */
  lemma {:induction false} StartAlone(log: Log, e: PlotEvent)
    requires e.tick == 0
    ensures Judge(log, [e]) == Accept <==>
            e.to == {} && e.event.Start? && LogOf(log, e.from) == map[] && (e.signer == e.event.p1 || e.signer == e.event.p2)
  {
    JudgeSingle(log, e);
  }

  /** A join takes the open place of a started game nobody has joined, and is signed by who is second
      from then on. */
  lemma {:induction false} JoinAlone(log: Log, e: PlotEvent)
    requires AllOk(log) && e.tick == 1
    ensures var l := LogOf(log, e.from);
            Judge(log, [e]) == Accept <==>
              && e.to == {} && e.event.Join? && e.event.player != 0 && 0 in l && 1 !in l
              && (var start := l[0][0].event;
                  || (start.p1 == 0 && e.signer == start.p2)
                  || (start.p2 == 0 && e.signer == e.event.player))
  {
    assert GameOk(LogOf(log, e.from));
    JudgeSingle(log, e);
  }

  /** A turn follows the one before it, with both places taken: an even one is signed by the first
      player and an odd one by the second. */
  lemma {:induction false} TurnAlone(log: Log, e: PlotEvent)
    requires AllOk(log) && e.tick >= 2
    ensures var l := LogOf(log, e.from);
            Judge(log, [e]) == Accept <==>
              && e.to == {} && e.tick <= 500 && 0 in l && e.tick !in l && (e.tick == 2 || e.tick - 1 in l)
              && (var start := l[0][0].event;
                  var first := if start.p1 == 0 && 1 in l then l[1][0].event.player else start.p1;
                  var second := if start.p1 != 0 && start.p2 == 0 && 1 in l then l[1][0].event.player else start.p2;
                  first != 0 && second != 0 && e.signer == if e.tick % 2 == 0 then first else second)
  {
    assert GameOk(LogOf(log, e.from));
    JudgeSingle(log, e);
  }

  // ---------------------------------------------------------------------------------------------
  // Many events
  // ---------------------------------------------------------------------------------------------

  /** Plain mutations in full: accepted exactly when every event stays on its plot, every game ends in
      order, and a game both started and brought to its first turn in the mutation is joined in it. */
  lemma {:induction false} PlainAccepted(log: Log, events: seq<PlotEvent>)
    requires AllOk(log) && Plain(events)
    ensures Judge(log, events) == Accept <==>
            && (forall i :: 0 <= i < |events| ==> events[i].to == {})
            && AllOk(Record(log, events))
            && (forall i, k :: 0 <= i < |events| && 0 <= k < |events| && events[i].from == events[k].from
                               && events[i].tick == 0 && events[k].tick == 2 ==>
                  exists j :: 0 <= j < |events| && events[j].from == events[i].from && events[j].tick == 1)
  {
    JudgeIff(log, events);
    if Good(log, events) {
      forall i, k | 0 <= i < |events| && 0 <= k < |events| && events[i].from == events[k].from && events[i].tick == 0 && events[k].tick == 2
        ensures exists j :: 0 <= j < |events| && events[j].from == events[i].from && events[j].tick == 1
      {
        assert Plays(events, events[i].from, 0) && Plays(events, events[i].from, 2);
        assert Prompt(events, events[i].from);
      }
    } else if e :| e in events && e.to != {} {
      var i :| 0 <= i < |events| && events[i] == e;
    } else if AllOk(Record(log, events)) {
      var p :| !Prompt(events, p);
      var i :| 0 <= i < |events| && events[i].from == p && events[i].tick == 0;
      var k :| 0 <= k < |events| && events[k].from == p && events[k].tick == 2;
      assert events[i].from == events[k].from;
    }
  }

  /** Each turn of an accepted plain mutation is signed by the player its parity says, in the game as
      the mutation leaves it. */
  lemma {:induction false} TurnInMutation(log: Log, events: seq<PlotEvent>, i: nat)
    requires AllOk(log) && Plain(events) && Judge(log, events) == Accept && i < |events| && events[i].tick >= 2
    ensures var g, u := LogOf(Record(log, events), events[i].from), events[i].tick;
            && u <= 500 && 0 in g && |g[0]| == 1 && g[0][0].event.Start? && (1 in g ==> |g[1]| == 1 && g[1][0].event.Join?)
            && (var start := g[0][0].event;
                var first := if start.p1 == 0 && 1 in g then g[1][0].event.player else start.p1;
                var second := if start.p1 != 0 && start.p2 == 0 && 1 in g then g[1][0].event.player else start.p2;
                && first != 0 && second != 0
                && (u % 2 == 0 ==> events[i].signer == first) && (u % 2 == 1 ==> events[i].signer == second))
  {
    JudgeIff(log, events);
    assert GameOk(LogOf(Record(log, events), events[i].from));
    EventIsEntry(log, events, i);
    GameMeans(LogOf(Record(log, events), events[i].from), events[i].tick, events[i].tick);
  }

  /** What a mutation records: on every tick of every plot, its events behind what was there, each with
      its signer, in their order. */
  lemma {:induction false} RecordAdds(log: Log, events: seq<PlotEvent>, e: PlotEvent, p: PlotID, t: nat)
    ensures var before, after := At(LogOf(Record(log, events), p), t), At(LogOf(Record(log, events + [e]), p), t);
            after == if e.from == p && e.tick == t then before + [Entry(e.event, e.signer)] else before
  {
    assert (events + [e])[..|events|] == events;
  }

  // ---------------------------------------------------------------------------------------------
  // Whole histories
  // ---------------------------------------------------------------------------------------------

  /** Mutations offered one after another; those the rule accepts are recorded. */
  ghost predicate History(logs: seq<Log>, mutations: seq<seq<PlotEvent>>) {
    && |logs| == |mutations| + 1 && logs[0] == map[]
    && forall i :: 0 <= i < |mutations| ==> Follows(logs[i], mutations[i], logs[i + 1])
  }

  ghost predicate Follows(log: Log, events: seq<PlotEvent>, log': Log) {
    log' == if Judge(log, events) == Accept then Record(log, events) else log
  }

  /** Every accepted mutation of the first `n` was plain. */
  ghost predicate PlainSoFar(logs: seq<Log>, mutations: seq<seq<PlotEvent>>, n: nat)
    requires n <= |mutations| < |logs|
  {
    forall i {:trigger PlainStep(logs[i], mutations[i])} :: 0 <= i < n ==> PlainStep(logs[i], mutations[i])
  }

  ghost predicate PlainStep(log: Log, events: seq<PlotEvent>) {
    Judge(log, events) == Accept ==> Plain(events)
  }

  /** A history keeps all games in order exactly as long as the mutations it accepts are plain. */
  lemma {:induction false} HistoryIff(logs: seq<Log>, mutations: seq<seq<PlotEvent>>, n: nat)
    requires History(logs, mutations) && n < |logs|
    ensures (forall i :: 0 <= i <= n ==> AllOk(logs[i])) <==> PlainSoFar(logs, mutations, n)
    decreases n
  {
    if n > 0 {
      HistoryIff(logs, mutations, n - 1);
      assert Follows(logs[n - 1], mutations[n - 1], logs[n - 1 + 1]);
      if AllOk(logs[n - 1]) { JudgeIff(logs[n - 1], mutations[n - 1]); }
      assert PlainSoFar(logs, mutations, n) <==> PlainSoFar(logs, mutations, n - 1) && PlainStep(logs[n - 1], mutations[n - 1]);
    } else {
      forall p ensures GameOk(LogOf(logs[0], p)) { }
    }
  }

  /** In such a history a game keeps its turns, and its players once both places are taken, forever. */
  lemma {:induction false} HistoryOk(logs: seq<Log>, mutations: seq<seq<PlotEvent>>, i: nat, j: nat, p: PlotID)
    requires History(logs, mutations) && i <= j < |logs| && PlainSoFar(logs, mutations, j)
    ensures GameOk(LogOf(logs[i], p)) && GameOk(LogOf(logs[j], p)) && Extends(LogOf(logs[i], p), LogOf(logs[j], p))
    ensures 0 in LogOf(logs[i], p) && PlayersOf(LogOf(logs[i], p)).Both() ==>
              0 in LogOf(logs[j], p) && PlayersOf(LogOf(logs[j], p)) == PlayersOf(LogOf(logs[i], p))
  {
    HistoryIff(logs, mutations, j);
    assert AllOk(logs[i]) && AllOk(logs[j]);
    HistoryExtends(logs, mutations, i, j, p);
    var l, l' := LogOf(logs[i], p), LogOf(logs[j], p);
    if 0 in l && PlayersOf(l).Both() { PlayersStay(l, l'); }
  }

  lemma {:induction false} HistoryExtends(logs: seq<Log>, mutations: seq<seq<PlotEvent>>, i: nat, j: nat, p: PlotID)
    requires History(logs, mutations) && i <= j < |logs|
    ensures Extends(LogOf(logs[i], p), LogOf(logs[j], p))
    decreases j
  {
    if i < j {
      HistoryExtends(logs, mutations, i, j - 1, p);
      assert Follows(logs[j - 1], mutations[j - 1], logs[j - 1 + 1]);
      assert mutations[j - 1][..0] == [];
      RecordGrows(logs[j - 1], mutations[j - 1], 0, p);
      ExtendsOn(LogOf(logs[i], p), LogOf(logs[j - 1], p), LogOf(logs[j], p));
    }
  }

  lemma {:induction false} ExtendsOn(a: PlotLog, b: PlotLog, c: PlotLog)
    requires Extends(a, b) && Extends(b, c)
    ensures Extends(a, c)
  {
    forall t: nat ensures At(a, t) <= At(c, t) { assert At(a, t) <= At(b, t) <= At(c, t); }
  }
}
