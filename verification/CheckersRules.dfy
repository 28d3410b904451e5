/** The rules of checkers on the board as it stood before the play, square by square. */
module CheckersRules {
  import opened Primitives
  import opened Checkers

  // ---------------------------------------------------------------------------------------------
  // Squares
  // ---------------------------------------------------------------------------------------------

  /** The red or the black pieces. */
  predicate Owns(player: Player, tile: Tile) {
    if player == Red then tile == RedMan || tile == RedKing else tile == BlackMan || tile == BlackKing
  }

  /** Red men go up the board, to lower rows, and black men down. */
  predicate Forward(tile: Tile, dir: Direction) {
    (tile == RedMan ==> dir == NW || dir == NE) && (tile == BlackMan ==> dir == SW || dir == SE)
  }

  /** So many rows and columns away in a direction. */
  function Beyond(from: (int, int), dir: Direction, steps: int): (int, int) {
    match dir
    case NW => (from.0 - steps, from.1 - steps)
    case NE => (from.0 - steps, from.1 + steps)
    case SW => (from.0 + steps, from.1 - steps)
    case SE => (from.0 + steps, from.1 + steps)
  }

  predicate OnBoard(at: (int, int)) {
    0 <= at.0 < 8 && 0 <= at.1 < 8
  }

  /** What stands on a piece's square when it arrives at a row for good. */
  function Arrived(tile: Tile, row: int): Tile {
    if (row == 0 || row == 7) && tile == RedMan then RedKing
    else if (row == 0 || row == 7) && tile == BlackMan then BlackKing else tile
  }

  function On(tiles: Tiles, at: (int, int)): Tile
    requires OnBoard(at)
  {
    tiles[at.0 * 8 + at.1]
  }

  lemma {:induction false} SameSquare(a: (int, int), b: (int, int))
    requires OnBoard(a) && OnBoard(b)
    ensures a.0 * 8 + a.1 == b.0 * 8 + b.1 <==> a == b
  {
  }

  lemma {:induction false} RowAndColumn(r: nat, c: nat)
    requires r < 8 && c < 8
    ensures (r * 8 + c) / 8 == r && (r * 8 + c) % 8 == c
  {
  }

  // ---------------------------------------------------------------------------------------------
  // Moves
  // ---------------------------------------------------------------------------------------------

  lemma {:induction false} BeyondIs(r: int, c: int, dir: Direction)
    ensures Beyond((r, c), dir, 1) == (r + dir.Rows(), c + dir.Columns())
    ensures Beyond((r, c), dir, 2) == (r + 2 * dir.Rows(), c + 2 * dir.Columns())
  {
  }

  lemma {:induction false} OwnsIs(player: Player, tile: Tile, dir: Direction)
    ensures Owns(player, tile) <==> tile.OwnedBy(player)
    ensures Owns(if player == Red then Black else Red, tile) <==> tile.OwnedBy(player.Other())
    ensures Owns(player, tile) ==> (tile.MayMove(dir) <==> Forward(tile, dir))
  {
  }

  lemma {:induction false} CanStepIs(q: Pos, dir: Direction, player: Player)
    requires q.OnBoard() && Owns(player, q.Piece())
    ensures var to := Beyond((q.r, q.c), dir, 1);
            CanStep(q, dir) <==> Forward(q.Piece(), dir) && OnBoard(to) && On(q.tiles, to) == Empty
  {
    BeyondIs(q.r, q.c, dir);
    OwnsIs(player, q.Piece(), dir);
  }

  lemma {:induction false} SteppedTo(q: Pos, dir: Direction, to: (int, int))
    requires q.OnBoard() && CanStep(q, dir) && to == (q.r + dir.Rows(), q.c + dir.Columns())
    ensures OnBoard(to) && to != (q.r, q.c) && Stepped(q, dir).r == to.0 && Stepped(q, dir).c == to.1
    ensures Stepped(q, dir).tiles == q.tiles[to.0 * 8 + to.1 := q.Piece()][q.r * 8 + q.c := Empty]
  {
    var from, square := StepSquares(q, dir);
    assert square == to.0 * 8 + to.1 && from == q.r * 8 + q.c;
  }

  lemma {:induction false} SteppedIs(q: Pos, dir: Direction)
    requires q.OnBoard() && CanStep(q, dir)
    ensures var to := Beyond((q.r, q.c), dir, 1);
            && OnBoard(to) && to != (q.r, q.c) && (Stepped(q, dir).r, Stepped(q, dir).c) == to
            && Stepped(q, dir).tiles == q.tiles[to.0 * 8 + to.1 := q.Piece()][q.r * 8 + q.c := Empty]
  {
    BeyondIs(q.r, q.c, dir);
    SteppedTo(q, dir, Beyond((q.r, q.c), dir, 1));
  }

  lemma {:induction false} MoveOutcome(tiles: Tiles, r: nat, c: nat, dir: Direction, player: Player)
    requires r < 8 && c < 8
    ensures var q, outcome := Pos(tiles, r, c), Outcomes(tiles, Move(r * 8 + c, dir), player);
            if Owns(player, tiles[r * 8 + c]) && CanStep(q, dir) then outcome == Played(Crowned(Stepped(q, dir))) else outcome.Refused?
  {
    RowAndColumn(r, c);
  }

  lemma {:induction false} CrownedPut(q: Pos, square: nat, tile: Tile)
    requires q.OnBoard() && square == q.r * 8 + q.c && q.tiles[square] == tile
    ensures Crowned(q) == q.tiles[square := Arrived(tile, q.r)]
  {
    assert q.tiles[square := tile] == q.tiles;
  }

  lemma {:induction false} MoveResult(tiles: Tiles, r: nat, c: nat, dir: Direction, player: Player)
    requires r < 8 && c < 8 && Owns(player, tiles[r * 8 + c]) && CanStep(Pos(tiles, r, c), dir)
    ensures var to := Beyond((r, c), dir, 1);
            && OnBoard(to)
            && Crowned(Stepped(Pos(tiles, r, c), dir)) == tiles[r * 8 + c := Empty][to.0 * 8 + to.1 := Arrived(tiles[r * 8 + c], to.0)]
  {
    var q, to := Pos(tiles, r, c), Beyond((r, c), dir, 1);
    SteppedIs(q, dir);
    SameSquare((r, c), to);
    var from, square, tile := r * 8 + c, to.0 * 8 + to.1, tiles[r * 8 + c];
    var next := Stepped(q, dir);
    assert Crowned(next) == next.tiles[square := Arrived(tile, to.0)] by { CrownedPut(next, square, tile); }
    Exchanged(tiles, from, square, tile, Arrived(tile, to.0));
  }

  lemma {:induction false} MoveIs(tiles: Tiles, r: nat, c: nat, dir: Direction, player: Player)
    requires r < 8 && c < 8
    ensures var tile, to, outcome := tiles[r * 8 + c], Beyond((r, c), dir, 1), Outcomes(tiles, Move(r * 8 + c, dir), player);
            && (outcome.Played? <==> Owns(player, tile) && Forward(tile, dir) && OnBoard(to) && On(tiles, to) == Empty)
            && (outcome.Played? ==> outcome.tiles == tiles[r * 8 + c := Empty][to.0 * 8 + to.1 := Arrived(tile, to.0)])
  {
    var q := Pos(tiles, r, c);
    MoveOutcome(tiles, r, c, dir, player);
    if Owns(player, q.Piece()) {
      CanStepIs(q, dir, player);
      if CanStep(q, dir) { MoveResult(tiles, r, c, dir, player); }
    }
  }

  /** A move is played exactly when the piece is one's own, a man goes forward, and the next square that
      way is on the board and empty; the piece is then there, a man crowned on the last row. */
  lemma {:induction false} MoveMeans(tiles: Tiles, r: nat, c: nat, dir: Direction, player: Player, row: int, column: int)
    requires r < 8 && c < 8
    requires row == (if dir == NW || dir == NE then r - 1 else r + 1) && column == if dir == NW || dir == SW then c - 1 else c + 1
    ensures var tile, outcome := tiles[r * 8 + c], Outcomes(tiles, Move(r * 8 + c, dir), player);
            && (outcome.Played? <==>
                  && (if player == Red then tile == RedMan || tile == RedKing else tile == BlackMan || tile == BlackKing)
                  && (tile == RedMan ==> dir == NW || dir == NE) && (tile == BlackMan ==> dir == SW || dir == SE)
                  && 0 <= row < 8 && 0 <= column < 8 && tiles[row * 8 + column] == Empty)
            && (outcome.Played? ==>
                  outcome.tiles == tiles[r * 8 + c := Empty][row * 8 + column := if row == 0 && tile == RedMan then RedKing
                                                                                 else if row == 7 && tile == BlackMan then BlackKing
                                                                                 else tile])
  {
    MoveIs(tiles, r, c, dir, player);
    assert Beyond((r, c), dir, 1) == (row, column);
  }

  lemma {:induction false} Exchanged(tiles: Tiles, from: nat, to: nat, moved: Tile, crowned: Tile)
    requires from < 64 && to < 64 && from != to
    ensures tiles[to := moved][from := Empty] == tiles[from := Empty][to := moved]
    ensures tiles[to := moved][from := Empty][to := crowned] == tiles[from := Empty][to := crowned]
  {
  }

  /** Some move takes a piece of `player` from `(r, c)` to `(row, column)`. */
  predicate MovesOnto(tiles: Tiles, r: nat, c: nat, row: nat, column: nat, player: Player)
    requires r < 8 && c < 8 && row < 8 && column < 8
  {
    exists dir :: OneMove(tiles, r, c, dir, row, column, player)
  }

  predicate OneMove(tiles: Tiles, r: nat, c: nat, dir: Direction, row: nat, column: nat, player: Player)
    requires r < 8 && c < 8 && row < 8 && column < 8
  {
    var outcome := Outcomes(tiles, Move(r * 8 + c, dir), player);
    outcome.Played? && tiles[row * 8 + column] == Empty && outcome.tiles[row * 8 + column] != Empty
  }

  lemma {:induction false} OneMoveIs(tiles: Tiles, r: nat, c: nat, dir: Direction, row: nat, column: nat, player: Player)
    requires r < 8 && c < 8 && row < 8 && column < 8
    ensures OneMove(tiles, r, c, dir, row, column, player) <==>
            && Owns(player, tiles[r * 8 + c]) && Forward(tiles[r * 8 + c], dir) && tiles[row * 8 + column] == Empty
            && (row, column) == Beyond((r, c), dir, 1)
  {
    MoveIs(tiles, r, c, dir, player);
    var to := Beyond((r, c), dir, 1);
    if OnBoard(to) { SameSquare(to, (row, column)); }
    SameSquare((r, c), (row, column));
  }

  /** Where pieces can be moved to: men of red to the row above, men of black to the row below, kings to
      both; always to an empty square of a neighbouring column. */
  lemma {:induction false} MovesMean(tiles: Tiles, r: nat, c: nat, row: nat, column: nat, player: Player)
    requires r < 8 && c < 8 && row < 8 && column < 8
    ensures var tile := tiles[r * 8 + c];
            MovesOnto(tiles, r, c, row, column, player) <==>
              && (if player == Red then tile == RedMan || tile == RedKing else tile == BlackMan || tile == BlackKing)
              && tiles[row * 8 + column] == Empty && (column == c + 1 || column == c - 1)
              && ((row == r - 1 && tile != BlackMan) || (row == r + 1 && tile != RedMan))
  {
    var towards := if row < r then (if column < c then NW else NE) else (if column < c then SW else SE);
    OneMoveIs(tiles, r, c, towards, row, column, player);
    if MovesOnto(tiles, r, c, row, column, player) {
      var dir :| OneMove(tiles, r, c, dir, row, column, player);
      OneMoveIs(tiles, r, c, dir, row, column, player);
    }
  }

  // ---------------------------------------------------------------------------------------------
  // Jumps
  // ---------------------------------------------------------------------------------------------

  /** The square a path leads to. */
  function Landing(start: (int, int), path: seq<Direction>): (int, int) {
    if path == [] then start else Beyond(Landing(start, path[..|path| - 1]), path[|path| - 1], 2)
  }

  /** The square that jump `i` of a path passes over. */
  function Passed(start: (int, int), path: seq<Direction>, i: nat): (int, int)
    requires i < |path|
  {
    Beyond(Landing(start, path[..i]), path[i], 1)
  }

  /** Jump `i` of a path, judged on the board before the first: a man goes forward, it lands on an empty
      square or where the piece started, and passes over a piece of the other player that no earlier jump
      has taken. */
  predicate Hop(tiles: Tiles, start: (int, int), path: seq<Direction>, player: Player, i: nat)
    requires OnBoard(start) && i < |path|
  {
    var land, over := Landing(start, path[..i + 1]), Passed(start, path, i);
    && Forward(On(tiles, start), path[i])
    && OnBoard(land) && (On(tiles, land) == Empty || land == start)
    && OnBoard(over) && Owns(if player == Red then Black else Red, On(tiles, over))
    && !PassedOver(start, path, i, over)
  }

  /** One of the first `i` jumps has passed over the square. */
  predicate PassedOver(start: (int, int), path: seq<Direction>, i: nat, at: (int, int))
    requires i <= |path|
  {
    exists j :: 0 <= j < i && Passed(start, path, j) == at
  }

  /** After the first `i` jumps the piece stands where they lead, and the squares it left and passed over
      are empty. */
  predicate HoppedAt(tiles: Tiles, start: (int, int), path: seq<Direction>, i: nat, now: Tiles, at: (int, int))
    requires OnBoard(start) && OnBoard(at) && i <= |path|
  {
    On(now, at) == if at == Landing(start, path[..i]) then On(tiles, start)
                   else if at == start || PassedOver(start, path, i, at) then Empty
                   else On(tiles, at)
  }

  ghost predicate Hopped(tiles: Tiles, start: (int, int), path: seq<Direction>, i: nat, q: Pos)
    requires OnBoard(start) && i <= |path|
  {
    var land := Landing(start, path[..i]);
    && OnBoard(land) && (q.r, q.c) == land && (On(tiles, land) == Empty || land == start)
    && forall at {:trigger HoppedAt(tiles, start, path, i, q.tiles, at)} :: OnBoard(at) ==> HoppedAt(tiles, start, path, i, q.tiles, at)
  }

  lemma {:induction false} CanJumpIs(q: Pos, dir: Direction, player: Player)
    requires q.OnBoard() && Owns(player, q.Piece())
    ensures var over, to := Beyond((q.r, q.c), dir, 1), Beyond((q.r, q.c), dir, 2);
            && (OnBoard(to) ==> OnBoard(over))
            && (CanJump(q, dir, player) <==>
                  && Forward(q.Piece(), dir) && OnBoard(to) && On(q.tiles, to) == Empty
                  && Owns(if player == Red then Black else Red, On(q.tiles, over)))
  {
    var over, to := Beyond((q.r, q.c), dir, 1), Beyond((q.r, q.c), dir, 2);
    BeyondIs(q.r, q.c, dir);
    OwnsIs(player, q.Piece(), dir);
    JumpableIs(q, dir, player, over, to);
    if OnBoard(to) { OwnsIs(player, On(q.tiles, over), dir); }
  }

  lemma {:induction false} JumpableIs(q: Pos, dir: Direction, player: Player, over: (int, int), to: (int, int))
    requires q.OnBoard()
    requires over == (q.r + dir.Rows(), q.c + dir.Columns()) && to == (q.r + 2 * dir.Rows(), q.c + 2 * dir.Columns())
    ensures OnBoard(to) ==> OnBoard(over)
    ensures CanJump(q, dir, player) <==>
            q.Piece().MayMove(dir) && OnBoard(to) && On(q.tiles, to) == Empty && On(q.tiles, over).OwnedBy(player.Other())
  {
    assert OnTile(q.r + 2 * dir.Rows(), q.c + 2 * dir.Columns()) <==> OnBoard(to);
    if OnBoard(to) {
      assert Square(q.r + 2 * dir.Rows(), q.c + 2 * dir.Columns()) == to.0 * 8 + to.1;
      assert Square(q.r + dir.Rows(), q.c + dir.Columns()) == over.0 * 8 + over.1;
    }
  }

  lemma {:induction false} JumpedTo(q: Pos, dir: Direction, player: Player, over: (int, int), to: (int, int), at: (int, int))
    requires q.OnBoard() && CanJump(q, dir, player) && OnBoard(over) && OnBoard(to) && OnBoard(at)
    requires over == (q.r + dir.Rows(), q.c + dir.Columns()) && to == (q.r + 2 * dir.Rows(), q.c + 2 * dir.Columns())
    ensures var next := Jumped(q, dir, player);
            && next.r == to.0 && next.c == to.1
            && On(next.tiles, at) == if at == to then q.Piece() else if at == (q.r, q.c) || at == over then Empty else On(q.tiles, at)
  {
    var from, mid, square := JumpSquares(q, dir, player);
    assert mid == over.0 * 8 + over.1 && square == to.0 * 8 + to.1;
    SameSquare(at, (q.r, q.c));
    SameSquare(at, over);
    SameSquare(at, to);
    PutThree(q.tiles, from, mid, square, at.0 * 8 + at.1);
  }

  lemma {:induction false} PutThree(tiles: Tiles, from: nat, over: nat, to: nat, k: nat)
    requires from < 64 && over < 64 && to < 64 && k < 64 && from != to && over != to
    ensures tiles[to := tiles[from]][over := Empty][from := Empty][k] ==
            if k == to then tiles[from] else if k == from || k == over then Empty else tiles[k]
  {
  }

  lemma {:induction false} LandingNext(start: (int, int), path: seq<Direction>, i: nat)
    requires i < |path|
    ensures Landing(start, path[..i + 1]) == Beyond(Landing(start, path[..i]), path[i], 2)
  {
    assert path[..i + 1][..i] == path[..i];
  }

  /** Landings lie an even number of rows from the start. */
  lemma {:induction false} LandingEven(start: (int, int), path: seq<Direction>) returns (k: int)
    ensures Landing(start, path).0 == start.0 + 2 * k
  {
    k := 0;
    if path != [] {
      k := LandingEven(start, path[..|path| - 1]);
      var dir := path[|path| - 1];
      k := if dir == NW || dir == NE then k - 1 else k + 1;
    }
  }

  /** So no landing is a square passed over. */
  lemma {:induction false} NeverPassed(start: (int, int), path: seq<Direction>, i: nat, n: nat)
    requires i <= |path| && n <= |path|
    ensures !PassedOver(start, path, n, Landing(start, path[..i])) && !PassedOver(start, path, n, start)
  {
    var k := LandingEven(start, path[..i]);
    forall j | 0 <= j < n ensures Passed(start, path, j) != Landing(start, path[..i]) && Passed(start, path, j) != start {
      var m := LandingEven(start, path[..j]);
    }
  }

  lemma {:induction false} PassedNext(start: (int, int), path: seq<Direction>, i: nat, at: (int, int))
    requires i < |path|
    ensures PassedOver(start, path, i + 1, at) <==> PassedOver(start, path, i, at) || Passed(start, path, i) == at
  {
  }

  /** One jump is possible exactly when it is a hop on the board before. */
  lemma {:induction false} JumpIsHop(tiles: Tiles, start: (int, int), path: seq<Direction>, player: Player, i: nat, q: Pos)
    requires OnBoard(start) && i < |path| && Owns(player, On(tiles, start)) && Hopped(tiles, start, path, i, q)
    ensures q.OnBoard() && (CanJump(q, path[i], player) <==> Hop(tiles, start, path, player, i))
  {
    var here, land, over := Landing(start, path[..i]), Landing(start, path[..i + 1]), Passed(start, path, i);
    LandingNext(start, path, i);
    NeverPassed(start, path, i + 1, i);
    NeverPassed(start, path, i, i + 1);
    assert HoppedAt(tiles, start, path, i, q.tiles, here);
    CanJumpIs(q, path[i], player);
    if OnBoard(land) {
      assert HoppedAt(tiles, start, path, i, q.tiles, land) && HoppedAt(tiles, start, path, i, q.tiles, over);
      PassedNext(start, path, i, start);
    }
  }

  /** What one more jump makes of a square. */
  lemma {:induction false} HoppedNext(tiles: Tiles, start: (int, int), path: seq<Direction>, i: nat, now: Tiles, next: Tiles, at: (int, int))
    requires OnBoard(start) && OnBoard(at) && i < |path| && HoppedAt(tiles, start, path, i, now, at)
    requires var here, land := Landing(start, path[..i]), Landing(start, path[..i + 1]);
             && (OnBoard(here) ==> On(tiles, here) == Empty || here == start)
             && On(next, at) == if at == land then On(tiles, start) else if at == here || at == Passed(start, path, i) then Empty else On(now, at)
    ensures HoppedAt(tiles, start, path, i + 1, next, at)
  {
    PassedNext(start, path, i, at);
    NeverPassed(start, path, i, i + 1);
  }

  lemma {:induction false} JumpHopsAt(tiles: Tiles, start: (int, int), path: seq<Direction>, player: Player, i: nat, q: Pos, at: (int, int))
    requires OnBoard(start) && OnBoard(at) && i < |path| && Owns(player, On(tiles, start)) && Hopped(tiles, start, path, i, q)
    requires q.OnBoard() && CanJump(q, path[i], player)
    ensures var next, land := Jumped(q, path[i], player), Landing(start, path[..i + 1]);
            (next.r, next.c) == land && HoppedAt(tiles, start, path, i + 1, next.tiles, at)
  {
    var next, over, land := Jumped(q, path[i], player), Passed(start, path, i), Landing(start, path[..i + 1]);
    JumpIsHop(tiles, start, path, player, i, q);
    LandingNext(start, path, i);
    BeyondIs(q.r, q.c, path[i]);
    assert HoppedAt(tiles, start, path, i, q.tiles, (q.r, q.c)) && HoppedAt(tiles, start, path, i, q.tiles, at);
    JumpedTo(q, path[i], player, over, land, at);
    HoppedNext(tiles, start, path, i, q.tiles, next.tiles, at);
  }

  lemma {:induction false} JumpHops(tiles: Tiles, start: (int, int), path: seq<Direction>, player: Player, i: nat, q: Pos)
    requires OnBoard(start) && i < |path| && Owns(player, On(tiles, start)) && Hopped(tiles, start, path, i, q)
    requires q.OnBoard() && CanJump(q, path[i], player)
    ensures Hopped(tiles, start, path, i + 1, Jumped(q, path[i], player))
  {
    JumpIsHop(tiles, start, path, player, i, q);
    JumpHopsAt(tiles, start, path, player, i, q, start);
    var now := Jumped(q, path[i], player).tiles;
    forall at | OnBoard(at) ensures HoppedAt(tiles, start, path, i + 1, now, at) { JumpHopsAt(tiles, start, path, player, i, q, at); }
  }

  predicate AllHops(tiles: Tiles, start: (int, int), path: seq<Direction>, player: Player, i: nat)
    requires OnBoard(start) && i <= |path|
  {
    forall j :: 0 <= j < i ==> Hop(tiles, start, path, player, j)
  }

  /** What following the first `i` jumps comes to. */
  ghost predicate Followed(tiles: Tiles, start: (int, int), path: seq<Direction>, player: Player, i: nat, q: Option<Pos>)
    requires OnBoard(start) && i <= |path|
  {
    if q.Some? then AllHops(tiles, start, path, player, i) && q.value.OnBoard() && Hopped(tiles, start, path, i, q.value)
    else !AllHops(tiles, start, path, player, i)
  }

  lemma {:induction false} FollowedNext(tiles: Tiles, start: (int, int), path: seq<Direction>, player: Player, i: nat, q: Option<Pos>)
    requires OnBoard(start) && i < |path| && Owns(player, On(tiles, start)) && Followed(tiles, start, path, player, i, q)
    ensures Followed(tiles, start, path, player, i + 1,
                     if q.Some? && CanJump(q.value, path[i], player) then Some(Jumped(q.value, path[i], player)) else None)
  {
    if q.Some? {
      JumpIsHop(tiles, start, path, player, i, q.value);
      if CanJump(q.value, path[i], player) { JumpHops(tiles, start, path, player, i, q.value); }
    }
  }

  /** A path can be followed exactly when all its jumps are hops. */
  lemma {:induction false} PathIs(tiles: Tiles, r: nat, c: nat, path: seq<Direction>, player: Player, i: nat)
    requires r < 8 && c < 8 && i <= |path| && Owns(player, On(tiles, (r, c)))
    ensures Followed(tiles, (r, c), path, player, i, Along(Pos(tiles, r, c), path[..i], player))
    decreases i
  {
    if i == 0 {
      assert path[..0] == [];
      forall at | OnBoard(at) ensures HoppedAt(tiles, (r, c), path, 0, tiles, at) { }
    } else {
      PathIs(tiles, r, c, path, player, i - 1);
      assert path[..i][..i - 1] == path[..i - 1];
      FollowedNext(tiles, (r, c), path, player, i - 1, Along(Pos(tiles, r, c), path[..i - 1], player));
    }
  }

  lemma {:induction false} CrownedIs(q: Pos, at: (int, int))
    requires q.OnBoard() && OnBoard(at)
    ensures On(Crowned(q), at) == if at == (q.r, q.c) then Arrived(q.Piece(), q.r) else On(q.tiles, at)
  {
    SameSquare(at, (q.r, q.c));
  }

  lemma {:induction false} CrownedAt(tiles: Tiles, start: (int, int), path: seq<Direction>, end: Pos, at: (int, int))
    requires OnBoard(start) && OnBoard(at) && end.OnBoard() && Hopped(tiles, start, path, |path|, end)
    ensures var land := Landing(start, path);
            && OnBoard(land)
            && On(Crowned(end), at) == if at == land then Arrived(On(tiles, start), land.0)
                                       else if at == start || PassedOver(start, path, |path|, at) then Empty
                                       else On(tiles, at)
  {
    assert path[..|path|] == path;
    CrownedIs(end, at);
    assert HoppedAt(tiles, start, path, |path|, end.tiles, at) && HoppedAt(tiles, start, path, |path|, end.tiles, Landing(start, path));
  }

  lemma {:induction false} JumpOutcome(tiles: Tiles, r: nat, c: nat, path: seq<Direction>, player: Player)
    requires r < 8 && c < 8
    ensures var outcome := Outcomes(tiles, Jump(r * 8 + c, path), player);
            if Owns(player, On(tiles, (r, c))) then
              var end := Along(Pos(tiles, r, c), path, player);
              if end.Some? then outcome == Played(Crowned(end.value)) else outcome == Refused(InvalidPlay)
            else outcome.Refused?
  {
    RowAndColumn(r, c);
  }

  /** A jump is played exactly when the piece is one's own and every jump of its path is a hop on the
      board before. */
  lemma {:induction false} JumpAllowed(tiles: Tiles, r: nat, c: nat, path: seq<Direction>, player: Player)
    requires r < 8 && c < 8
    ensures Outcomes(tiles, Jump(r * 8 + c, path), player).Played? <==>
            Owns(player, On(tiles, (r, c))) && forall j :: 0 <= j < |path| ==> Hop(tiles, (r, c), path, player, j)
  {
    JumpOutcome(tiles, r, c, path, player);
    if Owns(player, On(tiles, (r, c))) {
      PathIs(tiles, r, c, path, player, |path|);
      assert path[..|path|] == path;
    }
  }

  /** Then the piece stands at the end of the path, a man crowned on the first or last row, the squares
      passed over and left are empty, and the others are as before. */
  lemma {:induction false} JumpMeans(tiles: Tiles, r: nat, c: nat, path: seq<Direction>, player: Player, at: (int, int))
    requires r < 8 && c < 8 && OnBoard(at) && Outcomes(tiles, Jump(r * 8 + c, path), player).Played?
    ensures var tile, tiles', land := On(tiles, (r, c)), Outcomes(tiles, Jump(r * 8 + c, path), player).tiles, Landing((r, c), path);
            && OnBoard(land)
            && On(tiles', at) == if at == land then Arrived(tile, land.0)
                                 else if at == (r, c) || PassedOver((r, c), path, |path|, at) then Empty
                                 else On(tiles, at)
  {
    JumpOutcome(tiles, r, c, path, player);
    PathIs(tiles, r, c, path, player, |path|);
    assert path[..|path|] == path;
    CrownedAt(tiles, (r, c), path, Along(Pos(tiles, r, c), path, player).value, at);
  }

  /** Each jump takes a red man two rows up and a black man two rows down. */
  lemma {:induction false} MenJump(tiles: Tiles, r: nat, c: nat, path: seq<Direction>, player: Player, i: nat)
    requires r < 8 && c < 8 && i <= |path| && Outcomes(tiles, Jump(r * 8 + c, path), player).Played?
    ensures tiles[r * 8 + c] == RedMan ==> Landing((r, c), path[..i]).0 == r - 2 * i
    ensures tiles[r * 8 + c] == BlackMan ==> Landing((r, c), path[..i]).0 == r + 2 * i
    decreases i
  {
    if i > 0 {
      MenJump(tiles, r, c, path, player, i - 1);
      JumpAllowed(tiles, r, c, path, player);
      LandingNext((r, c), path, i - 1);
      assert Hop(tiles, (r, c), path, player, i - 1);
    }
  }

  // ---------------------------------------------------------------------------------------------
  // Refusals and the first board
  // ---------------------------------------------------------------------------------------------

  /** Why a play is refused. */
  lemma {:induction false} RefusalMeans(tiles: Tiles, event: Event, player: Player)
    ensures var outcome := Outcomes(tiles, event, player);
            match event
            case Start(_, _) => outcome == Refused(GameAlreadyStarted)
            case Join(_) => outcome == Refused(GameAlreadyStarted)
            case _ =>
              && (outcome == Refused(InvalidCoordinate) <==> event.idx >= 64)
              && (outcome == Refused(MissingPiece) <==> event.idx < 64 && tiles[event.idx] == Empty)
              && (outcome == Refused(WrongPlayer) <==>
                    && event.idx < 64
                    && (if player == Red then tiles[event.idx] == BlackMan || tiles[event.idx] == BlackKing
                        else tiles[event.idx] == RedMan || tiles[event.idx] == RedKing))
              && (outcome.Played? || outcome == Refused(InvalidPlay) || outcome == Refused(InvalidCoordinate)
                  || outcome == Refused(MissingPiece) || outcome == Refused(WrongPlayer))
  {
  }

  /** At first men of black stand on the even squares of the three rows on top, men of red on those of the
      three rows at the bottom. */
  lemma {:induction false} DefaultMeans(r: nat, c: nat)
    requires r < 8 && c < 8
    ensures Default()[r * 8 + c] == if (r + c) % 2 == 1 || 3 <= r <= 4 then Empty else if r < 3 then BlackMan else RedMan
  {
    RowAndColumn(r, c);
    assert (r * 8 + c) % 2 == c % 2;
  }
}
