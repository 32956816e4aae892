/**
 * The parts of Match that draw colours: filling, reshuffling, and the tiles that come from above.  The
 * generator is an argument, `draws(k)` being its `k`th colour, and every operation says how many it used.
 */
module MatchDraws {
  import opened Match

  type Colour = v: int | 0 <= v < COLORS

  type Rand = nat -> Colour

  const CELLS := SIZE * SIZE
  const ATTEMPTS := 16
  const SHUFFLES := 64

  /** A board from its tiles, row by row. */
  function Rows(tiles: seq<int>): (b: Board)
    requires |tiles| == CELLS
    ensures Shape(b) && forall r, c :: OnBoard(r, c) ==> b[r][c] == tiles[SIZE * r + c]
  {
    seq(SIZE, r requires 0 <= r < SIZE => seq(SIZE, c requires 0 <= c < SIZE => tiles[SIZE * r + c]))
  }

  // ---------------------------------------------------------------- filling, as a function of the draws

  /** Behind these tiles, `v` completes no run of three to its left or above. */
  predicate Fits(tiles: seq<int>, v: int) {
    var n := |tiles|;
    && !(n % SIZE >= 2 && tiles[n - 1] == v && tiles[n - 2] == v)
    && !(n / SIZE >= 2 && tiles[n - SIZE] == v && tiles[n - 2 * SIZE] == v)
  }

  /** How many draws a tile takes that may take `left`: up to the first that fits, or all. */
  function Picks(tiles: seq<int>, draws: Rand, used: nat, left: nat): (k: nat)
    requires left > 0
    ensures 1 <= k <= left
    decreases left
  {
    if left == 1 || Fits(tiles, draws(used)) then 1 else 1 + Picks(tiles, draws, used + 1, left - 1)
  }

  datatype Filling = Filling(tiles: seq<Colour>, used: nat)

  /** The first `n` tiles of a filling, and how many draws they used. */
  function FillTo(draws: Rand, used: nat, n: nat): (f: Filling)
    ensures |f.tiles| == n
  {
    if n == 0 then Filling([], used)
    else
      var f := FillTo(draws, used, n - 1);
      var k := Picks(f.tiles, draws, f.used, ATTEMPTS);
      Filling(f.tiles + [draws(f.used + k - 1)], f.used + k)
  }

  function FilledBoard(draws: Rand, used: nat): (b: Board)
    ensures Shape(b)
  {
    Rows(FillTo(draws, used, CELLS).tiles)
  }

  predicate DrawFits(tiles: seq<int>, draws: Rand, k: nat) { Fits(tiles, draws(k)) }

  /** One of the draws from `used` on, `left` in number, fits. */
  predicate SomeFits(tiles: seq<int>, draws: Rand, used: nat, left: nat) {
    exists k :: used <= k < used + left && DrawFits(tiles, draws, k)
  }

  /** Among the sixteen draws that tile `n` may use there is a colour that fits. */
  predicate FindsColour(draws: Rand, used: nat, n: nat) {
    var f := FillTo(draws, used, n);
    SomeFits(f.tiles, draws, f.used, ATTEMPTS)
  }

  predicate EveryTileFinds(draws: Rand, used: nat) { forall n :: 0 <= n < CELLS ==> FindsColour(draws, used, n) }

  /** A tile ends up with a colour that fits exactly if one of its draws does. */
  lemma {:induction false} PicksFits(tiles: seq<int>, draws: Rand, used: nat, left: nat)
    requires left > 0
    ensures Fits(tiles, draws(used + Picks(tiles, draws, used, left) - 1)) <==> SomeFits(tiles, draws, used, left)
    decreases left
  {
    hide Fits;
    if DrawFits(tiles, draws, used) {
      assert Picks(tiles, draws, used, left) == 1;
    } else if left > 1 {
      PicksFits(tiles, draws, used + 1, left - 1);
    }
  }

  /** It is the first that fits, or the last it may use. */
  lemma {:induction false} PicksFirst(tiles: seq<int>, draws: Rand, used: nat, left: nat)
    requires left > 0
    ensures var k := Picks(tiles, draws, used, left);
            && (forall i :: used <= i < used + k - 1 ==> !DrawFits(tiles, draws, i))
            && (k < left ==> DrawFits(tiles, draws, used + k - 1))
    decreases left
  {
    hide Fits;
    assert DrawFits(tiles, draws, used) == Fits(tiles, draws(used));
    if left > 1 && !DrawFits(tiles, draws, used) { PicksFirst(tiles, draws, used + 1, left - 1); }
  }

  /** Later tiles leave the earlier ones alone. */
  lemma {:induction false} FillKeeps(draws: Rand, used: nat, n: nat, m: nat)
    requires n <= m
    ensures FillTo(draws, used, m).tiles[..n] == FillTo(draws, used, n).tiles
    decreases m
  {
    if n < m { FillKeeps(draws, used, n, m - 1); }
  }

  /** Up to cell `n` the board holds the tiles of a filling. */
  ghost predicate Holds(b: Board, tiles: seq<int>, n: nat)
    requires Shape(b)
  {
    |tiles| >= n && forall i, j :: OnBoard(i, j) && SIZE * i + j < n ==> b[i][j] == tiles[SIZE * i + j]
  }

  /** The test for a run, in terms of the tiles so far. */
  lemma FitsHere(b: Board, tiles: seq<int>, r: nat, c: nat, v: int)
    requires Shape(b) && OnBoard(r, c) && |tiles| == SIZE * r + c && Holds(b, tiles, |tiles|)
    ensures Fits(tiles, v) <==>
            !(c >= 2 && b[r][c - 1] == v && b[r][c - 2] == v) && !(r >= 2 && b[r - 1][c] == v && b[r - 2][c] == v)
  {
    CellOf(r, c);
    assert c >= 2 ==> OnBoard(r, c - 1) && OnBoard(r, c - 2);
    assert r >= 2 ==> OnBoard(r - 1, c) && OnBoard(r - 2, c);
  }

  lemma RowsHold(all: seq<int>, n: nat)
    requires n <= |all| == CELLS
    ensures Holds(Rows(all), all[..n], n)
  {}

  /** In a filled board a tile is clean exactly if it found a colour. */
  lemma CleanIffFound(draws: Rand, used: nat, r: nat, c: nat)
    requires OnBoard(r, c)
    ensures Clean(FilledBoard(draws, used), r, c) <==> FindsColour(draws, used, SIZE * r + c)
  {
    hide FillTo, Picks, Fits, SomeFits, Holds;
    CellOf(r, c);
    var n := SIZE * r + c;
    var f, all := FillTo(draws, used, n), FillTo(draws, used, CELLS).tiles;
    FillKeeps(draws, used, n, CELLS);
    FillKeeps(draws, used, n + 1, CELLS);
    FillStep(draws, used, n);
    PicksFits(f.tiles, draws, f.used, ATTEMPTS);
    assert all[n] == all[..n + 1][n];
    RowsHold(all, n);
    FitsHere(Rows(all), f.tiles, r, c, all[n]);
  }

  lemma CellOf(r: nat, c: nat)
    requires OnBoard(r, c)
    ensures (SIZE * r + c) / SIZE == r && (SIZE * r + c) % SIZE == c && SIZE * r + c < CELLS
  {}

  lemma {:induction false} FillStep(draws: Rand, used: nat, n: nat)
    ensures var f, g := FillTo(draws, used, n), FillTo(draws, used, n + 1);
            var k := Picks(f.tiles, draws, f.used, ATTEMPTS);
            g.tiles == f.tiles + [draws(f.used + k - 1)] && g.used == f.used + k
  {
    hide Picks;
  }

  lemma FilledIsFull(draws: Rand, used: nat)
    ensures Full(FilledBoard(draws, used))
  {
    hide FillTo;
  }

  /** On a full board a tile that is not clean ends a run of three. */
  lemma UncleanIsMatch(b: Board, r: int, c: int)
    requires Shape(b) && Full(b) && OnBoard(r, c) && !Clean(b, r, c)
    ensures HasMatch(b)
  {
    if c >= 2 && b[r][c - 1] == b[r][c] && b[r][c - 2] == b[r][c] {
      assert Window(b[r], c - 2);
      assert Marked(b, r, c);
    } else {
      assert Window(Column(b, c), r - 2);
      assert Marked(b, r, c);
    }
  }

  /** A filled board has a ready-made match exactly if some tile found no colour in its sixteen draws. */
  lemma FilledHasMatchIff(draws: Rand, used: nat)
    ensures HasMatch(FilledBoard(draws, used)) <==> !EveryTileFinds(draws, used)
  {
    hide HasMatch, FillTo, FindsColour, Clean;
    var b := FilledBoard(draws, used);
    FilledIsFull(draws, used);
    if HasMatch(b) {
      CleanHasNoMatch(b);
      var r, c :| OnBoard(r, c) && !Clean(b, r, c);
      CleanIffFound(draws, used, r, c);
      CellOf(r, c);
    }
    if n :| 0 <= n < CELLS && !FindsColour(draws, used, n) {
      var r, c := n / SIZE, n % SIZE;
      assert OnBoard(r, c) && n == SIZE * r + c;
      CleanIffFound(draws, used, r, c);
      UncleanIsMatch(b, r, c);
    }
  }

  // ---------------------------------------------------------------- reshuffling, as a function of the draws

  /** The board that the next 49 draws make. */
  function RolledBoard(draws: Rand, used: nat): (b: Board)
    ensures Shape(b)
  {
    Rows(seq(CELLS, n requires 0 <= n < CELLS => draws(used + n)))
  }

  ghost predicate Playable(b: Board)
    requires Shape(b)
  {
    !HasMatch(b) && HasMove(b)
  }

  /** `reshuffle` with `left` attempts to go: the first playable board, or the last. */
  ghost function Reshuffled(draws: Rand, used: nat, left: nat): (b: Board)
    requires left > 0
    ensures Shape(b)
    decreases left
  {
    var b := RolledBoard(draws, used);
    if left == 1 || Playable(b) then b else Reshuffled(draws, used + CELLS, left - 1)
  }

  lemma {:induction false} ReshuffledIsFull(draws: Rand, used: nat, left: nat)
    requires left > 0
    ensures Full(Reshuffled(draws, used, left))
    decreases left
  {
    hide Playable;
    if left > 1 { ReshuffledIsFull(draws, used + CELLS, left - 1); }
  }

  /** The `k`th board that a reshuffle may roll is playable. */
  ghost predicate RollPlays(draws: Rand, used: nat, k: nat) { Playable(RolledBoard(draws, used + CELLS * k)) }

  ghost predicate SomeRollPlays(draws: Rand, used: nat, rolls: nat) {
    exists k: nat :: k < rolls && RollPlays(draws, used, k)
  }

  /** A reshuffle ends on a playable board exactly if one of those it may roll is. */
  lemma {:induction false} ReshuffledIsPlayableIff(draws: Rand, used: nat, left: nat)
    requires left > 0
    ensures Playable(Reshuffled(draws, used, left)) <==> SomeRollPlays(draws, used, left)
    decreases left
  {
    hide Playable, RolledBoard;
    assert RollPlays(draws, used, 0) == Playable(RolledBoard(draws, used));
    if left > 1 && !Playable(RolledBoard(draws, used)) {
      var later := used + CELLS;
      ReshuffledIsPlayableIff(draws, later, left - 1);
      if k: nat :| k < left && RollPlays(draws, used, k) { assert RollPlays(draws, later, k - 1); }
      if k: nat :| k < left - 1 && RollPlays(draws, later, k) { assert RollPlays(draws, used, k + 1); }
    }
  }

  /** It ends on the first playable board, or else on the last. */
  lemma {:induction false} ReshuffledIsFirst(draws: Rand, used: nat, left: nat) returns (k: nat)
    requires left > 0
    ensures k < left && Reshuffled(draws, used, left) == RolledBoard(draws, used + CELLS * k)
    ensures (forall i: nat :: i < k ==> !RollPlays(draws, used, i)) && (k < left - 1 ==> RollPlays(draws, used, k))
    decreases left
  {
    hide Playable, RolledBoard;
    k := 0;
    if left > 1 && !RollPlays(draws, used, 0) {
      var j := ReshuffledIsFirst(draws, used + CELLS, left - 1);
      k := j + 1;
      assert RollPlays(draws, used + CELLS, j) == RollPlays(draws, used, k);
      forall i: nat | i < k ensures !RollPlays(draws, used, i) {
        if i > 0 { assert RollPlays(draws, used + CELLS, i - 1) == RollPlays(draws, used, i); }
      }
    }
  }

  // ---------------------------------------------------------------- the opening board

  ghost function Opening(draws: Rand, used: nat): (b: Board)
    ensures Shape(b)
  {
    if HasMove(FilledBoard(draws, used)) then FilledBoard(draws, used)
    else Reshuffled(draws, FillTo(draws, used, CELLS).used, SHUFFLES)
  }

  /**
   * The promise about the opening board, no match and a move, is kept exactly when the filling has a move and
   * each of its tiles found a colour, or has none and one of the 64 boards rolled instead is playable.
   */
  lemma OpeningIsPlayableIff(draws: Rand, used: nat)
    ensures var f := FillTo(draws, used, CELLS);
            Playable(Opening(draws, used)) <==>
            if HasMove(FilledBoard(draws, used)) then EveryTileFinds(draws, used)
            else SomeRollPlays(draws, f.used, SHUFFLES)
  {
    hide HasMatch, HasMove, EveryTileFinds, FilledBoard, SomeRollPlays;
    FilledHasMatchIff(draws, used);
    ReshuffledIsPlayableIff(draws, FillTo(draws, used, CELLS).used, SHUFFLES);
  }

  // ---------------------------------------------------------------- a generator without variety

  ghost predicate Constant(draws: Rand, v: Colour) { forall k :: draws(k) == v }

  lemma {:induction false} ConstantTiles(draws: Rand, v: Colour, used: nat, n: nat)
    requires Constant(draws, v)
    ensures forall i :: 0 <= i < n ==> FillTo(draws, used, n).tiles[i] == v
  {
    if n > 0 { ConstantTiles(draws, v, used, n - 1); }
  }

  lemma OneColour(b: Board, v: Colour)
    requires Shape(b) && forall r, c :: OnBoard(r, c) ==> b[r][c] == v
    ensures HasMatch(b) && HasMove(b)
  {
    assert OnBoard(0, 0) && OnBoard(0, 1) && OnBoard(0, 2);
    assert Window(b[0], 0);
    assert Marked(b, 0, 0);
    SwapIs(b, 0, 0, 0, 1);
    SameBoard(Swapped(b, 0, 0, 0, 1), b);
    assert Adjacent(0, 0, 0, 1);
  }

  /**
   * The promise broken: from a generator that has stopped producing variety, and from none at all, which
   * counts as one that draws 0, the game opens on a board of one colour, and sixty-four reshuffles would not
   * help it.
   */
  lemma ConstantBreaksPromise(draws: Rand, v: Colour, used: nat)
    requires Constant(draws, v)
    ensures HasMatch(Opening(draws, used)) && HasMatch(Reshuffled(draws, used, SHUFFLES))
    ensures forall r, c :: OnBoard(r, c) ==> Opening(draws, used)[r][c] == v
  {
    hide HasMatch, HasMove, FillTo, Reshuffled, RolledBoard;
    ConstantTiles(draws, v, used, CELLS);
    OneColour(FilledBoard(draws, used), v);
    ConstantShuffles(draws, v, used, SHUFFLES);
  }

  lemma {:induction false} ConstantShuffles(draws: Rand, v: Colour, used: nat, left: nat)
    requires Constant(draws, v) && left > 0
    ensures HasMatch(Reshuffled(draws, used, left))
    decreases left
  {
    hide HasMatch, HasMove;
    OneColour(RolledBoard(draws, used), v);
    if left > 1 { ConstantShuffles(draws, v, used + CELLS, left - 1); }
  }

  // ---------------------------------------------------------------- whole games

  /** What a swap or a pass of resolving makes of a board. */
  ghost predicate Turn(before: Board, after: Board)
    requires Shape(before) && Shape(after)
  {
    || after == before
    || (exists r1, c1, r2, c2 :: Adjacent(r1, c1, r2, c2) && after == Swapped(before, r1, c1, r2, c2))
    || Settled(before, after)
    || (exists draws: Rand, used: nat :: after == Reshuffled(draws, used, SHUFFLES))
  }

  ghost predicate Game(boards: seq<Board>) {
    && boards != [] && (forall i :: 0 <= i < |boards| ==> Shape(boards[i]))
    && (exists draws: Rand, used: nat :: boards[0] == Opening(draws, used))
    && (forall i :: 0 < i < |boards| ==> Turn(boards[i - 1], boards[i]))
  }

  lemma OpeningIsFull(draws: Rand, used: nat)
    ensures Full(Opening(draws, used))
  {
    hide HasMove, FillTo, Full, Reshuffled;
    FilledIsFull(draws, used);
    ReshuffledIsFull(draws, FillTo(draws, used, CELLS).used, SHUFFLES);
  }

  lemma TurnKeepsFull(before: Board, after: Board)
    requires Shape(before) && Shape(after) && Turn(before, after) && Full(before)
    ensures Full(after)
  {
    hide Full, Settled, Reshuffled, Swapped;
    if r1, c1, r2, c2 :| Adjacent(r1, c1, r2, c2) && after == Swapped(before, r1, c1, r2, c2) {
      SwappedIsFull(before, r1, c1, r2, c2);
    } else if Settled(before, after) {
      SettledIsFull(before, after);
    } else if draws: Rand, used: nat :| after == Reshuffled(draws, used, SHUFFLES) {
      ReshuffledIsFull(draws, used, SHUFFLES);
    }
  }

  /** No board of any game, however it is played and whatever is drawn, has a hole. */
  lemma {:induction false} GameStaysFull(boards: seq<Board>, n: nat)
    requires Game(boards) && n < |boards|
    ensures Shape(boards[n]) && Full(boards[n])
  {
    hide Full, Turn, Opening;
    if n == 0 {
      var draws: Rand, used: nat :| boards[0] == Opening(draws, used);
      OpeningIsFull(draws, used);
    } else {
      GameStaysFull(boards, n - 1);
      assert Turn(boards[n - 1], boards[n]);
      TurnKeepsFull(boards[n - 1], boards[n]);
    }
  }

  // ---------------------------------------------------------------- the program

  /** One column falls and is refilled. */
  method CollapseColumn(t: array2<int>, c: nat, draws: Rand, from: nat) returns (used: nat)
    requires Grid(t) && c < SIZE
    modifies t
    ensures Fallen(old(Column(BoardOf(t), c)), Column(BoardOf(t), c))
    ensures var before := old(Column(BoardOf(t), c));
            used == from + SIZE - |Solid(before)| && forall k :: 0 <= k < used - from ==> t[k, c] == draws(used - 1 - k)
    ensures forall i, j :: OnBoard(i, j) && j != c ==> t[i, j] == old(t[i, j])
  {
    hide Solid;
    ghost var kept := Solid(Column(BoardOf(t), c));
    var top := DropColumn(t, c);
    used := Refill(t, c, top, draws, from);
    ghost var after := Column(BoardOf(t), c);
    assert forall k :: 0 <= k < SIZE ==> OnBoard(k, c) && after[k] == t[k, c];
    assert after[top..] == kept;
  }

  /** New tiles above `top`, from below upwards. */
  method Refill(t: array2<int>, c: nat, top: nat, draws: Rand, from: nat) returns (used: nat)
    requires Grid(t) && c < SIZE && top <= SIZE
    modifies t
    ensures used == from + top && forall k :: 0 <= k < top ==> t[k, c] == draws(used - 1 - k)
    ensures forall i, j :: OnBoard(i, j) && !(j == c && i < top) ==> t[i, j] == old(t[i, j])
  {
    var write := top - 1;
    used := from;
    while write >= 0
      invariant -1 <= write < top && used == from + top - 1 - write
      invariant forall k :: write < k < top ==> t[k, c] == draws(from + top - 1 - k)
      invariant forall i, j :: OnBoard(i, j) && !(j == c && i < top) ==> t[i, j] == old(t[i, j])
    {
      t[write, c] := draws(used);
      used := used + 1;
      write := write - 1;
    }
  }

  method Collapse(t: array2<int>, draws: Rand, from: nat) returns (used: nat)
    requires Grid(t)
    modifies t
    ensures forall c :: 0 <= c < SIZE ==> Fallen(old(Column(BoardOf(t), c)), Column(BoardOf(t), c))
  {
    hide Fallen, Solid;
    ghost var b := BoardOf(t);
    used := from;
    var c := 0;
    while c < SIZE
      invariant c <= SIZE
      invariant forall j :: 0 <= j < c ==> Fallen(Column(b, j), Column(BoardOf(t), j))
      invariant forall i, j :: OnBoard(i, j) && c <= j ==> t[i, j] == b[i][j]
    {
      ghost var before := BoardOf(t);
      SameColumn(before, b, c);
      used := CollapseColumn(t, c, draws, used);
      forall j | 0 <= j < c ensures Column(BoardOf(t), j) == Column(before, j) {
        SameColumn(BoardOf(t), before, j);
      }
      c := c + 1;
    }
  }

  /** One board of a reshuffle. */
  method Roll(t: array2<int>, draws: Rand, from: nat) returns (used: nat)
    requires Grid(t)
    modifies t
    ensures BoardOf(t) == RolledBoard(draws, from) && used == from + CELLS
  {
    used := from;
    var r := 0;
    while r < SIZE
      invariant r <= SIZE && used == from + SIZE * r
      invariant forall i, j :: OnBoard(i, j) && i < r ==> t[i, j] == draws(from + SIZE * i + j)
    {
      var c := 0;
      while c < SIZE
        invariant c <= SIZE && used == from + SIZE * r + c
        invariant forall i, j :: OnBoard(i, j) && (i < r || (i == r && j < c)) ==> t[i, j] == draws(from + SIZE * i + j)
      {
        t[r, c] := draws(used);
        used := used + 1;
        c := c + 1;
      }
      r := r + 1;
    }
    SameBoard(BoardOf(t), RolledBoard(draws, from));
  }

  /** `reshuffle`. */
  method Reshuffle(t: array2<int>, draws: Rand, from: nat) returns (used: nat)
    requires Grid(t)
    modifies t
    ensures BoardOf(t) == Reshuffled(draws, from, SHUFFLES)
  {
    hide HasMatch, HasMove, RolledBoard;
    used := from;
    var attempt: nat := 0;
    while attempt < SHUFFLES
      invariant attempt <= SHUFFLES
      invariant attempt < SHUFFLES ==> Reshuffled(draws, from, SHUFFLES) == Reshuffled(draws, used, SHUFFLES - attempt)
      invariant attempt == SHUFFLES ==> BoardOf(t) == Reshuffled(draws, from, SHUFFLES)
    {
      used := Roll(t, draws, used);
      var ready := FindMatch(t);
      var move := false;
      if !ready { move := FindMove(t); }
      if move { return; }
      attempt := attempt + 1;
    }
  }

  method FillTile(t: array2<int>, r: nat, c: nat, draws: Rand, from: nat, ghost tiles: seq<int>) returns (used: nat)
    requires Grid(t) && OnBoard(r, c) && |tiles| == SIZE * r + c && Holds(BoardOf(t), tiles, |tiles|)
    modifies t
    ensures used == from + Picks(tiles, draws, from, ATTEMPTS)
    ensures Holds(BoardOf(t), tiles + [draws(used - 1)], |tiles| + 1)
  {
    hide Fits, Holds, Picks;
    used := from;
    var attempt: nat := 0;
    while attempt < ATTEMPTS
      invariant attempt <= ATTEMPTS && used == from + attempt
      invariant Holds(BoardOf(t), tiles, |tiles|)
      invariant attempt < ATTEMPTS ==>
                  Picks(tiles, draws, from, ATTEMPTS) == attempt + Picks(tiles, draws, used, ATTEMPTS - attempt)
      invariant attempt == ATTEMPTS ==> Picks(tiles, draws, from, ATTEMPTS) == ATTEMPTS && t[r, c] == draws(used - 1)
    {
      PicksStep(tiles, draws, used, ATTEMPTS - attempt);
      var fits := TryColour(t, r, c, draws(used), tiles);
      used := used + 1;
      attempt := attempt + 1;
      if fits { break; }
    }
    HoldsOneMore(BoardOf(t), tiles, r, c);
  }

  lemma PicksStep(tiles: seq<int>, draws: Rand, used: nat, left: nat)
    requires left > 0
    ensures Picks(tiles, draws, used, left) ==
            if left == 1 || Fits(tiles, draws(used)) then 1 else 1 + Picks(tiles, draws, used + 1, left - 1)
  {}

  /** One attempt: the test, and the tile set whatever it says. */
  method TryColour(t: array2<int>, r: nat, c: nat, v: int, ghost tiles: seq<int>) returns (fits: bool)
    requires Grid(t) && OnBoard(r, c) && |tiles| == SIZE * r + c && Holds(BoardOf(t), tiles, |tiles|)
    modifies t
    ensures fits == Fits(tiles, v) && t[r, c] == v && Holds(BoardOf(t), tiles, |tiles|)
  {
    hide Fits;
    FitsHere(BoardOf(t), tiles, r, c, v);
    var across := c >= 2 && t[r, c - 1] == v && t[r, c - 2] == v;
    var down := r >= 2 && t[r - 1, c] == v && t[r - 2, c] == v;
    fits := !across && !down;
    assert c >= 2 ==> OnBoard(r, c - 1) && OnBoard(r, c - 2);
    assert r >= 2 ==> OnBoard(r - 1, c) && OnBoard(r - 2, c);
    t[r, c] := v;
  }

  lemma HoldsOneMore(b: Board, tiles: seq<int>, r: nat, c: nat)
    requires Shape(b) && OnBoard(r, c) && |tiles| == SIZE * r + c && Holds(b, tiles, |tiles|)
    ensures Holds(b, tiles + [b[r][c]], |tiles| + 1)
  {
    var n, more := |tiles|, tiles + [b[r][c]];
    forall i, j | OnBoard(i, j) && SIZE * i + j < n + 1 ensures b[i][j] == more[SIZE * i + j] {
      assert (i == r && j == c) || SIZE * i + j < n;
    }
  }

  method FillTiles(t: array2<int>, draws: Rand, from: nat) returns (used: nat)
    requires Grid(t)
    modifies t
    ensures BoardOf(t) == FilledBoard(draws, from) && used == FillTo(draws, from, CELLS).used
  {
    hide FillTo, Picks, Holds;
    used := from;
    var r: nat := 0;
    NothingFilled(draws, from, BoardOf(t));
    while r < SIZE
      invariant r <= SIZE
      invariant var f := FillTo(draws, from, SIZE * r); used == f.used && Holds(BoardOf(t), f.tiles, SIZE * r)
    {
      var c: nat := 0;
      while c < SIZE
        invariant c <= SIZE
        invariant var f := FillTo(draws, from, SIZE * r + c); used == f.used && Holds(BoardOf(t), f.tiles, SIZE * r + c)
      {
        FillStep(draws, from, SIZE * r + c);
        used := FillTile(t, r, c, draws, used, FillTo(draws, from, SIZE * r + c).tiles);
        c := c + 1;
      }
      r := r + 1;
    }
    AllFilled(BoardOf(t), draws, from);
  }

  lemma NothingFilled(draws: Rand, from: nat, b: Board)
    requires Shape(b)
    ensures FillTo(draws, from, 0) == Filling([], from) && Holds(b, [], 0)
  {}

  lemma AllFilled(b: Board, draws: Rand, from: nat)
    requires Shape(b) && Holds(b, FillTo(draws, from, CELLS).tiles, CELLS)
    ensures b == FilledBoard(draws, from)
  {
    hide FillTo;
    forall i, j | OnBoard(i, j) ensures b[i][j] == FilledBoard(draws, from)[i][j] { CellOf(i, j); }
    SameBoard(b, FilledBoard(draws, from));
  }

  /** `match_core_fill`. */
  method Fill(t: array2<int>, draws: Rand, from: nat) returns (used: nat)
    requires Grid(t)
    modifies t
    ensures BoardOf(t) == Opening(draws, from)
  {
    hide HasMatch, HasMove, FillTo, FilledBoard, Reshuffled;
    used := FillTiles(t, draws, from);
    var move := FindMove(t);
    if !move { used := Reshuffle(t, draws, used); }
  }

  datatype Pass = Pass(cleared: nat, cascade: nat, more: bool, reshuffled: bool)

  /** The board after a pass: what stood or fell, or a reshuffle where that was dead. */
  ghost predicate Resolved(fell: Board, after: Board, reshuffled: bool)
    requires Shape(fell) && Shape(after)
  {
    && reshuffled == (!HasMatch(fell) && !HasMove(fell))
    && (if reshuffled then exists draws: Rand, used: nat :: after == Reshuffled(draws, used, SHUFFLES) else after == fell)
  }

  /** A pass after which nothing matches leaves a board to play on, unless none of the 64 it rolled is one. */
  lemma ResolvedIsPlayable(fell: Board, after: Board, reshuffled: bool)
    requires Shape(fell) && Shape(after) && Resolved(fell, after, reshuffled) && !HasMatch(fell)
    ensures reshuffled <==> !HasMove(fell)
    ensures Playable(after) || exists draws: Rand, used: nat :: after == Reshuffled(draws, used, 64) && !SomeRollPlays(draws, used, 64)
  {
    hide HasMatch, HasMove, Reshuffled, SomeRollPlays;
    if reshuffled {
      var draws: Rand, used: nat :| after == Reshuffled(draws, used, SHUFFLES);
      ReshuffledIsPlayableIff(draws, used, SHUFFLES);
    }
  }

  /**
   * `match_core_resolve`.  Without a match the board stands, unless it is dead.  With one, exactly the
   * matched tiles go and every column falls, and what fell stands, unless it is dead.
   */
  method Resolve(t: array2<int>, cascade: nat, draws: Rand, from: nat)
    returns (done: bool, out: Pass, mask: array2<bool>, used: nat)
    requires Grid(t)
    modifies t
    ensures fresh(mask) && Grid(mask) && forall r, c :: OnBoard(r, c) ==> mask[r, c] == Marked(old(BoardOf(t)), r, c)
    ensures out.cleared == |MarkedCells(old(BoardOf(t)))| && out.cascade == (if cascade == 0 then 1 else cascade)
    ensures done == HasMatch(old(BoardOf(t)))
    ensures !done ==> !out.more && Resolved(old(BoardOf(t)), BoardOf(t), out.reshuffled) && Turn(old(BoardOf(t)), BoardOf(t))
    ensures done ==> exists fell :: Settled(old(BoardOf(t)), fell) && Turn(fell, BoardOf(t))
                       && out.more == HasMatch(fell) && Resolved(fell, BoardOf(t), out.reshuffled)
  {
    hide HasMatch, HasMove, Settled, MarkedCells, Reshuffled;
    ghost var b := BoardOf(t);
    var count;
    mask, count := MarkMatches(t);
    MatchClearsThree(b);
    used := from;
    done := count > 0;
    out := Pass(count, if cascade == 0 then 1 else cascade, false, false);
    if count == 0 {
      used, out := Revive(t, out, draws, used);
      return;
    }
    ClearMarked(t, mask);
    used := Collapse(t, draws, used);
    SettledNow(b, BoardOf(t));
    var more := FindMatch(t);
    out := out.(more := more);
    if !more { used, out := Revive(t, out, draws, used); }
  }

  /** The end of both branches: a board without a match and without a move is reshuffled. */
  method Revive(t: array2<int>, pass: Pass, draws: Rand, from: nat) returns (used: nat, out: Pass)
    requires Grid(t) && !HasMatch(BoardOf(t)) && !pass.reshuffled
    modifies t
    ensures Turn(old(BoardOf(t)), BoardOf(t))
    ensures Resolved(old(BoardOf(t)), BoardOf(t), out.reshuffled) && out == pass.(reshuffled := out.reshuffled)
  {
    hide HasMatch, HasMove, Reshuffled, Swapped, Settled;
    used, out := from, pass;
    var move := FindMove(t);
    if !move {
      used := Reshuffle(t, draws, used);
      out := out.(reshuffled := true);
    }
  }
}
