/**
  The checkers board: moving and jumping pieces with validation, and what every game keeps.

  A board is its 64 tiles row by row; (0, 0) is the top left corner.
 */
module Checkers {
  import opened Primitives

  datatype Player = Red | Black {
    function Other(): Player {
      if Red? then Black else Red
    }
  }

  datatype Direction = NW | NE | SE | SW {
    function Rows(): int {
      if NW? || NE? then -1 else 1
    }

    function Columns(): int {
      if NW? || SW? then -1 else 1
    }
  }

  datatype Event =
    | Start(p1: U160, p2: U160)
    | Join(player: U160)
    | Move(idx: nat, dir: Direction)
    | Jump(idx: nat, path: seq<Direction>)

  datatype Tile = Empty | RedMan | RedKing | BlackMan | BlackKing {
    function Upgrade(): Tile {
      match this
      case RedMan => RedKing
      case BlackMan => BlackKing
      case _ => this
    }

    predicate OwnedBy(player: Player) {
      if player.Red? then RedMan? || RedKing? else BlackMan? || BlackKing?
    }

    predicate MayMove(dir: Direction) {
      match this
      case RedMan => dir.NE? || dir.NW?
      case BlackMan => dir.SE? || dir.SW?
      case Empty => false
      case _ => true
    }
  }

  datatype PlayError = GameAlreadyStarted | InvalidPlay | WrongPlayer | MissingPiece | InvalidCoordinate

  type Tiles = s: seq<Tile> | |s| == 64 witness seq(64, _ => Empty)

  /** The unsigned reading of a coordinate: below zero it wraps far off the board. */
  function Unsigned(x: int): nat {
    if x < 0 then WrapU64(x) else x
  }

  /** What stands on the even columns of a row when a game begins. */
  function Evens(row: nat): Tile {
    if row == 0 || row == 2 then BlackMan else if row == 6 then RedMan else Empty
  }

  function Odds(row: nat): Tile {
    if row == 1 then BlackMan else if row == 5 || row == 7 then RedMan else Empty
  }

  /** The board a game begins with. */
  function Default(): Tiles {
    seq(64, i requires 0 <= i < 64 => if i % 2 == 0 then Evens(i / 8) else Odds(i / 8))
  }

  // ---------------------------------------------------------------------------------------------
  // Reference
  // ---------------------------------------------------------------------------------------------

  /** The moving piece part way along its path. */
  datatype Pos = Pos(tiles: Tiles, r: nat, c: nat) {
    predicate OnBoard() {
      r < 8 && c < 8
    }

    function Piece(): Tile
      requires OnBoard()
    {
      tiles[r * 8 + c]
    }
  }

  predicate OnTile(r: int, c: int) {
    0 <= r < 8 && 0 <= c < 8
  }

  function Square(r: int, c: int): int {
    r * 8 + c
  }

  /** A single step onto an empty tile. */
  predicate CanStep(q: Pos, dir: Direction)
    requires q.OnBoard()
  {
    && q.Piece().MayMove(dir) && OnTile(q.r + dir.Rows(), q.c + dir.Columns())
    && q.tiles[Square(q.r + dir.Rows(), q.c + dir.Columns())] == Empty
  }

  function Stepped(q: Pos, dir: Direction): Pos
    requires q.OnBoard() && CanStep(q, dir)
  {
    var r, c := q.r + dir.Rows(), q.c + dir.Columns();
    Pos(q.tiles[Square(r, c) := q.Piece()][Square(q.r, q.c) := Empty], r, c)
  }

  /** A jump over a piece of the other player onto an empty tile. */
  predicate CanJump(q: Pos, dir: Direction, player: Player)
    requires q.OnBoard()
  {
    && q.Piece().MayMove(dir) && OnTile(q.r + 2 * dir.Rows(), q.c + 2 * dir.Columns())
    && q.tiles[Square(q.r + 2 * dir.Rows(), q.c + 2 * dir.Columns())] == Empty
    && q.tiles[Square(q.r + dir.Rows(), q.c + dir.Columns())].OwnedBy(player.Other())
  }

  function Jumped(q: Pos, dir: Direction, player: Player): Pos
    requires q.OnBoard() && CanJump(q, dir, player)
  {
    var r, c := q.r + 2 * dir.Rows(), q.c + 2 * dir.Columns();
    var over := Square(q.r + dir.Rows(), q.c + dir.Columns());
    Pos(q.tiles[Square(r, c) := q.Piece()][over := Empty][Square(q.r, q.c) := Empty], r, c)
  }

  /** Where a path leads, if every jump of it is possible. */
  function Along(q: Pos, path: seq<Direction>, player: Player): (r: Option<Pos>)
    requires q.OnBoard()
    ensures r.Some? ==> r.value.OnBoard()
  {
    if path == [] then Some(q)
    else
      var before := Along(q, path[..|path| - 1], player);
      var dir := path[|path| - 1];
      if before.Some? && CanJump(before.value, dir, player) then Some(Jumped(before.value, dir, player)) else None
  }

  /** A piece that ends on the first or last row becomes a king. */
  function Crowned(q: Pos): Tiles
    requires q.OnBoard()
  {
    if q.r == 0 || q.r == 7 then q.tiles[Square(q.r, q.c) := q.Piece().Upgrade()] else q.tiles
  }

  datatype Outcome = Played(tiles: Tiles) | Refused(error: PlayError)

  function MovePiece(q: Pos, dir: Direction): Outcome
    requires q.OnBoard()
  {
    if CanStep(q, dir) then Played(Crowned(Stepped(q, dir))) else Refused(InvalidPlay)
  }

  function JumpPiece(q: Pos, path: seq<Direction>, player: Player): Outcome
    requires q.OnBoard()
  {
    var end := Along(q, path, player);
    if end.Some? then Played(Crowned(end.value)) else Refused(InvalidPlay)
  }

  /** The whole rule of play. */
  function Outcomes(tiles: Tiles, event: Event, player: Player): Outcome {
    if event.Start? || event.Join? then Refused(GameAlreadyStarted)
    else if event.idx > 63 then Refused(InvalidCoordinate)
    else if tiles[event.idx] == Empty then Refused(MissingPiece)
    else if !tiles[event.idx].OwnedBy(player) then Refused(WrongPlayer)
    else
      var q := Pos(tiles, event.idx / 8, event.idx % 8);
      if event.Move? then MovePiece(q, event.dir) else JumpPiece(q, event.path, player)
  }

  /** The unsigned range check is the two-sided one. */
  lemma {:induction false} UnsignedCheck(r: int, c: int)
    requires -2 <= r <= 9 && -2 <= c <= 9
    ensures Unsigned(r) <= 7 && Unsigned(c) <= 7 <==> OnTile(r, c)
    ensures OnTile(r, c) ==> Unsigned(r) == r && Unsigned(c) == c
  {
  }

  // ---------------------------------------------------------------------------------------------
  // The board
  // ---------------------------------------------------------------------------------------------

  class Board {
    const tiles: array<Tile>

    ghost predicate Valid()
      reads this
    {
      tiles.Length == 64
    }

    constructor ()
      ensures Valid() && fresh(tiles) && tiles[..] == Default()
    {
      var start := Default();
      tiles := new Tile[64](i requires 0 <= i < 64 => start[i]);
      new;
      assert tiles[..] == Default();
    }

    /** Puts a piece that reached the end of the board on its crowned side. */
    method Crown(r: nat, c: nat)
      requires Valid() && r < 8 && c < 8
      modifies tiles
      ensures tiles[..] == Crowned(Pos(old(tiles[..]), r, c))
    {
      if r == 0 || r == 7 { tiles[r * 8 + c] := tiles[r * 8 + c].Upgrade(); }
    }

    method MoveFrom(r: nat, c: nat, dir: Direction) returns (ok: bool)
      requires Valid() && r < 8 && c < 8
      modifies tiles
      ensures ok <==> CanStep(Pos(old(tiles[..]), r, c), dir)
      ensures tiles[..] == if ok then Crowned(Stepped(Pos(old(tiles[..]), r, c), dir)) else old(tiles[..])
    {
      UnsignedCheck(r + dir.Rows(), c + dir.Columns());
      if !tiles[r * 8 + c].MayMove(dir) { return false; }
      var nr, nc := Unsigned(r + dir.Rows()), Unsigned(c + dir.Columns());
      if nr > 7 || nc > 7 || tiles[nr * 8 + nc] != Empty { return false; }
      tiles[nr * 8 + nc] := tiles[r * 8 + c];
      tiles[r * 8 + c] := Empty;
      Crown(nr, nc);
      ok := true;
    }

    /** The tiles a jump passes over and lands on, if it is possible. */
    method FindJump(r: nat, c: nat, dir: Direction, player: Player) returns (ok: bool, pr: nat, pc: nat, nr: nat, nc: nat)
      requires Valid() && r < 8 && c < 8
      ensures ok <==> CanJump(Pos(tiles[..], r, c), dir, player)
      ensures ok ==> pr == r + dir.Rows() && pc == c + dir.Columns() && nr == r + 2 * dir.Rows() && nc == c + 2 * dir.Columns()
    {
      pr, pc := Unsigned(r + dir.Rows()), Unsigned(c + dir.Columns());
      nr, nc := Unsigned(r + 2 * dir.Rows()), Unsigned(c + 2 * dir.Columns());
      UnsignedCheck(r + dir.Rows(), c + dir.Columns());
      UnsignedCheck(r + 2 * dir.Rows(), c + 2 * dir.Columns());
      ok := tiles[r * 8 + c].MayMove(dir) && nr <= 7 && nc <= 7 && tiles[nr * 8 + nc] == Empty &&
        tiles[pr * 8 + pc].OwnedBy(player.Other());
    }

    /** One jump of a path, if it is possible. */
    method JumpOnce(r: nat, c: nat, dir: Direction, player: Player) returns (ok: bool, nr: nat, nc: nat)
      requires Valid() && r < 8 && c < 8
      modifies tiles
      ensures ok <==> CanJump(Pos(old(tiles[..]), r, c), dir, player)
      ensures ok ==> nr < 8 && nc < 8 && Pos(tiles[..], nr, nc) == Jumped(Pos(old(tiles[..]), r, c), dir, player)
    {
      var pr, pc;
      ok, pr, pc, nr, nc := FindJump(r, c, dir, player);
      if !ok { return; }
      tiles[nr * 8 + nc] := tiles[r * 8 + c];
      tiles[pr * 8 + pc] := Empty;
      tiles[r * 8 + c] := Empty;
    }

    method JumpFrom(r0: nat, c0: nat, path: seq<Direction>, player: Player) returns (ok: bool)
      requires Valid() && r0 < 8 && c0 < 8
      modifies tiles
      ensures ok <==> Along(Pos(old(tiles[..]), r0, c0), path, player).Some?
      ensures tiles[..] == if ok then Crowned(Along(Pos(old(tiles[..]), r0, c0), path, player).value) else old(tiles[..])
    {
      var before := tiles[..];
      ghost var q := Pos(before, r0, c0);
      var r, c := r0, c0;
      for i := 0 to |path|
        invariant r < 8 && c < 8 && Along(q, path[..i], player) == Some(Pos(tiles[..], r, c))
      {
        assert path[..i + 1][..i] == path[..i];
        var jumped, nr, nc := JumpOnce(r, c, path[i], player);
        if !jumped {
          AlongStops(q, path, i + 1, player);
          forall k | 0 <= k < 64 { tiles[k] := before[k]; }
          assert tiles[..] == before;
          return false;
        }
        r, c := nr, nc;
      }
      assert path[..|path|] == path;
      Crown(r, c);
      ok := true;
    }

    /** Plays an event for a player; a refused play leaves the board as it was. */
    method Play(event: Event, player: Player) returns (error: Option<PlayError>)
      requires Valid()
      modifies tiles
      ensures var outcome := Outcomes(old(tiles[..]), event, player);
              && (error.None? <==> outcome.Played?) && (error.None? ==> tiles[..] == outcome.tiles)
              && (error.Some? ==> outcome == Refused(error.value) && tiles[..] == old(tiles[..]))
    {
      if event.Start? || event.Join? { return Some(GameAlreadyStarted); }
      if event.idx > 63 { return Some(InvalidCoordinate); }
      if tiles[event.idx] == Empty { return Some(MissingPiece); }
      if !tiles[event.idx].OwnedBy(player) { return Some(WrongPlayer); }
      var r, c := event.idx / 8, event.idx % 8;
      var ok: bool;
      if event.Move? {
        ok := MoveFrom(r, c, event.dir);
      } else {
        ok := JumpFrom(r, c, event.path, player);
      }
      error := if ok then None else Some(InvalidPlay);
    }

    /** Tries plays one after another on a new board. */
    method PlayAll(turns: seq<Turn>)
      requires Valid() && tiles[..] == Default()
      modifies tiles
      ensures tiles[..] == Game(turns)
    {
      for i := 0 to |turns|
        invariant tiles[..] == Game(turns[..i])
      {
        assert turns[..i + 1][..i] == turns[..i];
        var _ := Play(turns[i].event, turns[i].player);
      }
      assert turns[..|turns|] == turns;
    }
  }

  lemma {:induction false} AlongStops(q: Pos, path: seq<Direction>, i: nat, player: Player)
    requires q.OnBoard() && i <= |path| && Along(q, path[..i], player).None?
    ensures Along(q, path, player).None?
    decreases |path|
  {
    if i == |path| {
      assert path[..i] == path;
    } else {
      var init := path[..|path| - 1];
      assert init[..i] == path[..i];
      AlongStops(q, init, i, player);
    }
  }

  // ---------------------------------------------------------------------------------------------
  // What a play keeps
  // ---------------------------------------------------------------------------------------------

  predicate Odd(n: int) {
    n == 1 || n == 3 || n == 5 || n == 7
  }

  /** Pieces stand on squares whose row and column add up to an even number. */
  predicate Even(r: int, c: int) {
    Odd(r) <==> Odd(c)
  }

  /** A man that should have been crowned. */
  predicate Uncrowned(tile: Tile, r: int) {
    (tile.RedMan? && r == 0) || (tile.BlackMan? && r == 7)
  }

  predicate Lawful(tiles: Tiles, r: int, c: int)
    requires OnTile(r, c)
  {
    var tile := tiles[Square(r, c)];
    tile == Empty || (Even(r, c) && !Uncrowned(tile, r))
  }

  ghost predicate Legal(tiles: Tiles) {
    forall r, c :: OnTile(r, c) ==> Lawful(tiles, r, c)
  }

  /** Legal but that the piece on one square may still have to be crowned. */
  ghost predicate LawfulBut(tiles: Tiles, at: int) {
    forall r, c :: OnTile(r, c) && Square(r, c) != at ==> Lawful(tiles, r, c)
  }

  ghost predicate Moving(q: Pos, player: Player) {
    && q.OnBoard() && q.Piece().OwnedBy(player) && Even(q.r, q.c)
    && LawfulBut(q.tiles, Square(q.r, q.c))
  }

  function Count(tiles: Tiles, player: Player): nat {
    if player.Red? then multiset(tiles)[RedMan] + multiset(tiles)[RedKing] else multiset(tiles)[BlackMan] + multiset(tiles)[BlackKing]
  }

  function One(tile: Tile, player: Player): nat {
    if tile.OwnedBy(player) then 1 else 0
  }

  lemma {:induction false} CountPut(tiles: Tiles, i: nat, tile: Tile, player: Player)
    requires i < 64
    ensures Count(tiles[i := tile], player) == Count(tiles, player) - One(tiles[i], player) + One(tile, player)
  {
  }

  lemma {:induction false} CountMoved(tiles: Tiles, from: nat, to: nat, player: Player)
    requires from < 64 && to < 64 && from != to && tiles[to] == Empty
    ensures Count(tiles[to := tiles[from]][from := Empty], player) == Count(tiles, player)
  {
    CountPut(tiles, to, tiles[from], player);
    CountPut(tiles[to := tiles[from]], from, Empty, player);
  }

  lemma {:induction false} CountJumped(tiles: Tiles, from: nat, over: nat, to: nat, player: Player)
    requires from < 64 && over < 64 && to < 64 && from != to && from != over && over != to && tiles[to] == Empty
    ensures Count(tiles[to := tiles[from]][over := Empty][from := Empty], player) == Count(tiles, player) - One(tiles[over], player)
  {
    CountMoved(tiles, from, to, player);
    CountPut(tiles[to := tiles[from]][from := Empty], over, Empty, player);
    assert tiles[to := tiles[from]][over := Empty][from := Empty] == tiles[to := tiles[from]][from := Empty][over := Empty];
  }

  lemma {:induction false} SquaresMeet(r: int, c: int, r': int, c': int)
    requires OnTile(r, c) && OnTile(r', c') && Square(r, c) == Square(r', c')
    ensures r == r' && c == c'
  {
  }

  lemma {:induction false} SquaresApart(r: int, c: int, r': int, c': int)
    requires OnTile(r, c) && OnTile(r', c') && r != r'
    ensures 0 <= Square(r, c) < 64 && 0 <= Square(r', c') < 64 && Square(r, c) != Square(r', c')
  {
  }

  /** The two squares of a step. */
  lemma {:induction false} StepSquares(q: Pos, dir: Direction) returns (from: nat, to: nat)
    requires q.OnBoard() && CanStep(q, dir)
    ensures from < 64 && to < 64 && from != to && q.tiles[to] == Empty
    ensures from == Square(q.r, q.c) && to == Square(Stepped(q, dir).r, Stepped(q, dir).c)
    ensures Stepped(q, dir).tiles == q.tiles[to := q.tiles[from]][from := Empty]
  {
    var r, c := q.r + dir.Rows(), q.c + dir.Columns();
    SquaresApart(q.r, q.c, r, c);
    from, to := Square(q.r, q.c), Square(r, c);
  }

  lemma {:induction false} SteppedMoving(q: Pos, dir: Direction, player: Player)
    requires Moving(q, player) && CanStep(q, dir)
    ensures Moving(Stepped(q, dir), player)
  {
    var from, to := StepSquares(q, dir);
    LawfulMoved(q.tiles, from, to);
  }

  lemma {:induction false} LawfulMoved(tiles: Tiles, from: nat, to: nat)
    requires from < 64 && to < 64 && LawfulBut(tiles, from)
    ensures LawfulBut(tiles[to := tiles[from]][from := Empty], to)
  {
    var moved := tiles[to := tiles[from]][from := Empty];
    forall r, c | OnTile(r, c) && Square(r, c) != to ensures Lawful(moved, r, c) {
      if Square(r, c) != from { assert Lawful(tiles, r, c); }
    }
  }

  lemma {:induction false} SteppedKeeps(q: Pos, dir: Direction, player: Player)
    requires Moving(q, player) && CanStep(q, dir)
    ensures Moving(Stepped(q, dir), player)
    ensures Count(Stepped(q, dir).tiles, player) == Count(q.tiles, player)
    ensures Count(Stepped(q, dir).tiles, player.Other()) == Count(q.tiles, player.Other())
  {
    var from, to := StepSquares(q, dir);
    CountMoved(q.tiles, from, to, player);
    CountMoved(q.tiles, from, to, player.Other());
    SteppedMoving(q, dir, player);
  }

  /** The three squares of a jump. */
  lemma {:induction false} JumpSquares(q: Pos, dir: Direction, player: Player) returns (from: nat, over: nat, to: nat)
    requires q.OnBoard() && CanJump(q, dir, player)
    ensures from < 64 && over < 64 && to < 64 && from != to && from != over && over != to
    ensures from == Square(q.r, q.c) && to == Square(Jumped(q, dir, player).r, Jumped(q, dir, player).c)
    ensures over == Square(q.r + dir.Rows(), q.c + dir.Columns())
    ensures q.tiles[to] == Empty && q.tiles[over].OwnedBy(player.Other())
    ensures Jumped(q, dir, player).tiles == q.tiles[to := q.tiles[from]][over := Empty][from := Empty]
  {
    var pr, pc, r, c := q.r + dir.Rows(), q.c + dir.Columns(), q.r + 2 * dir.Rows(), q.c + 2 * dir.Columns();
    SquaresApart(q.r, q.c, pr, pc);
    SquaresApart(q.r, q.c, r, c);
    SquaresApart(pr, pc, r, c);
    from, over, to := Square(q.r, q.c), Square(pr, pc), Square(r, c);
  }

  lemma {:induction false} JumpedMoving(q: Pos, dir: Direction, player: Player)
    requires Moving(q, player) && CanJump(q, dir, player)
    ensures Moving(Jumped(q, dir, player), player)
  {
    var from, over, to := JumpSquares(q, dir, player);
    LawfulMoved(q.tiles, from, to);
    var moved := q.tiles[to := q.tiles[from]][from := Empty];
    var jumped := moved[over := Empty];
    assert Jumped(q, dir, player).tiles == jumped;
    forall r, c | OnTile(r, c) && Square(r, c) != to ensures Lawful(jumped, r, c) { assert Lawful(moved, r, c); }
  }

  /** A jump takes exactly one piece of the other player and none of one's own. */
  lemma {:induction false} JumpedKeeps(q: Pos, dir: Direction, player: Player)
    requires Moving(q, player) && CanJump(q, dir, player)
    ensures Moving(Jumped(q, dir, player), player)
    ensures Count(Jumped(q, dir, player).tiles, player) == Count(q.tiles, player)
    ensures Count(Jumped(q, dir, player).tiles, player.Other()) == Count(q.tiles, player.Other()) - 1
  {
    var from, over, to := JumpSquares(q, dir, player);
    CountJumped(q.tiles, from, over, to, player);
    CountJumped(q.tiles, from, over, to, player.Other());
    JumpedMoving(q, dir, player);
  }

  lemma {:induction false} AlongKeeps(q: Pos, path: seq<Direction>, player: Player)
    requires Moving(q, player) && Along(q, path, player).Some?
    ensures var end := Along(q, path, player).value;
            && Moving(end, player) && Count(end.tiles, player) == Count(q.tiles, player)
            && Count(end.tiles, player.Other()) + |path| == Count(q.tiles, player.Other())
  {
    if path != [] {
      var n := |path| - 1;
      AlongKeeps(q, path[..n], player);
      JumpedKeeps(Along(q, path[..n], player).value, path[n], player);
    }
  }

  lemma {:induction false} CrownedKeeps(q: Pos, player: Player)
    requires Moving(q, player)
    ensures Legal(Crowned(q)) && forall p :: Count(Crowned(q), p) == Count(q.tiles, p)
  {
    var at := Square(q.r, q.c);
    forall r, c | OnTile(r, c) ensures Lawful(Crowned(q), r, c) {
      if Square(r, c) != at { assert Lawful(q.tiles, r, c); } else { SquaresMeet(r, c, q.r, q.c); }
    }
    forall p ensures Count(Crowned(q), p) == Count(q.tiles, p) { CountPut(q.tiles, at, q.Piece().Upgrade(), p); }
  }

  /** What a play takes from the other player. */
  function Captures(event: Event): nat {
    if event.Jump? then |event.path| else 0
  }

  /** Every successful play keeps the board legal, keeps one's own pieces, and takes as many of the
      other's as the path has jumps. */
  lemma {:induction false} PlayKeeps(tiles: Tiles, event: Event, player: Player)
    requires Legal(tiles) && Outcomes(tiles, event, player).Played?
    ensures var tiles' := Outcomes(tiles, event, player).tiles;
            && Legal(tiles') && Count(tiles', player) == Count(tiles, player)
            && Count(tiles', player.Other()) + Captures(event) == Count(tiles, player.Other())
  {
    var q := Pos(tiles, event.idx / 8, event.idx % 8);
    assert Square(q.r, q.c) == event.idx && Lawful(tiles, q.r, q.c);
    assert Moving(q, player);
    if event.Move? {
      SteppedKeeps(q, event.dir, player);
      CrownedKeeps(Stepped(q, event.dir), player);
    } else {
      AlongKeeps(q, event.path, player);
      CrownedKeeps(Along(q, event.path, player).value, player);
    }
  }

  // ---------------------------------------------------------------------------------------------
  // Whole games
  // ---------------------------------------------------------------------------------------------

  datatype Turn = Turn(event: Event, player: Player)

  function After(tiles: Tiles, turn: Turn): Tiles {
    var outcome := Outcomes(tiles, turn.event, turn.player);
    if outcome.Played? then outcome.tiles else tiles
  }

  /** The board after plays were tried one after another. */
  function Game(turns: seq<Turn>): Tiles {
    if turns == [] then Default() else After(Game(turns[..|turns| - 1]), turns[|turns| - 1])
  }

  /** All jumps a player has made. */
  function Captured(turns: seq<Turn>, player: Player): nat {
    if turns == [] then 0
    else
      var init, turn := turns[..|turns| - 1], turns[|turns| - 1];
      Captured(init, player) +
      if turn.player == player && Outcomes(Game(init), turn.event, player).Played? then Captures(turn.event) else 0
  }

  function Row(even: Tile, odd: Tile): seq<Tile> {
    [even, odd, even, odd, even, odd, even, odd]
  }

  /** How often a tile occurs in the first rows. */
  function Rows(row: nat, tile: Tile): nat {
    if row == 0 then 0
    else Rows(row - 1, tile) + (if tile == Evens(row - 1) then 4 else 0) + (if tile == Odds(row - 1) then 4 else 0)
  }

  lemma {:induction false} RowCount(even: Tile, odd: Tile, tile: Tile)
    ensures multiset(Row(even, odd))[tile] == (if tile == even then 4 else 0) + (if tile == odd then 4 else 0)
  {
  }

  lemma {:induction false} DefaultRow(row: nat)
    requires row < 8
    ensures Default()[..row * 8 + 8] == Default()[..row * 8] + Row(Evens(row), Odds(row))
  {
    var tiles, next := Default(), Row(Evens(row), Odds(row));
    forall k: nat | k < 8 ensures tiles[row * 8 + k] == next[k] {
      assert (row * 8 + k) / 8 == row && (row * 8 + k) % 2 == k % 2;
    }
  }

  lemma {:induction false} CountAppend(a: seq<Tile>, b: seq<Tile>, tile: Tile)
    ensures multiset(a + b)[tile] == multiset(a)[tile] + multiset(b)[tile]
  {
  }

  lemma {:induction false} DefaultNext(row: nat, tile: Tile)
    requires row < 8
    ensures multiset(Default()[..row * 8 + 8])[tile] == multiset(Default()[..row * 8])[tile] +
            (if tile == Evens(row) then 4 else 0) + (if tile == Odds(row) then 4 else 0)
  {
    DefaultRow(row);
    CountAppend(Default()[..row * 8], Row(Evens(row), Odds(row)), tile);
    RowCount(Evens(row), Odds(row), tile);
  }

  lemma {:induction false} DefaultRows(row: nat, tile: Tile)
    requires row <= 8
    ensures multiset(Default()[..row * 8])[tile] == Rows(row, tile)
  {
    if row > 0 {
      DefaultRows(row - 1, tile);
      DefaultNext(row - 1, tile);
    }
  }

  lemma {:induction false} DefaultLegal()
    ensures Legal(Default())
  {
    forall r, c | OnTile(r, c) ensures Lawful(Default(), r, c) {
      assert Square(r, c) / 8 == r && Square(r, c) % 2 == c % 2;
    }
  }

  lemma {:induction false} DefaultCounts()
    ensures Count(Default(), Red) == 12 && Count(Default(), Black) == 12
  {
    DefaultRows(8, RedMan);
    DefaultRows(8, RedKing);
    DefaultRows(8, BlackMan);
    DefaultRows(8, BlackKing);
    assert Default()[..64] == Default();
  }

  /** Every game, whatever is tried: the board stays legal, and a player's pieces and those the other
      has taken always make twelve, so nobody ever jumps more than twelve times. */
  lemma {:induction false} GameKeeps(turns: seq<Turn>, player: Player)
    ensures Legal(Game(turns)) && Count(Game(turns), player.Other()) + Captured(turns, player) == 12
  {
    if turns == [] {
      DefaultCounts();
      DefaultLegal();
    } else {
      var init, turn := turns[..|turns| - 1], turns[|turns| - 1];
      GameKeeps(init, player);
      if Outcomes(Game(init), turn.event, turn.player).Played? { PlayKeeps(Game(init), turn.event, turn.player); }
    }
  }

  /** The empty path: a man on its own first row is crowned without moving, and nothing else changes. */
  lemma {:induction false} EmptyPath(tiles: Tiles, idx: nat, player: Player)
    requires idx < 64 && tiles[idx].OwnedBy(player)
    ensures Outcomes(tiles, Jump(idx, []), player) ==
            Played(if idx / 8 == 0 || idx / 8 == 7 then tiles[idx := tiles[idx].Upgrade()] else tiles)
  {
  }
}
