/** The rules of Snake. */
module Snake {
  import opened Basics

  const GRID := 20
  const MAX_LEN := 72
  const START_LEN := 4
  const TURN_QUEUE := 2

  datatype Cell = Cell(x: int, y: int)
  datatype Dir = Dir(dx: int, dy: int)
  datatype Outcome = Moved | Ate | Died

  /** `body[0]` is the head; `queue` holds the turns that later steps will take. */
  datatype Game = Game(body: seq<Cell>, heading: Dir, queue: seq<Dir>, food: Cell, wrap: bool)

  predicate InGrid(c: Cell) { 0 <= c.x < GRID && 0 <= c.y < GRID }

  predicate Unit(d: Dir) { (d.dx == 0 && (d.dy == 1 || d.dy == -1)) || (d.dy == 0 && (d.dx == 1 || d.dx == -1)) }

  /** A turn as the controls give it: each component -1, 0 or 1. */
  predicate Swipe(d: Dir) { -1 <= d.dx <= 1 && -1 <= d.dy <= 1 }

  /** For unit directions: one is horizontal, the other vertical. */
  predicate Perpendicular(a: Dir, b: Dir) { a.dx == 0 <==> b.dy == 0 }

  function Ahead(c: Cell, d: Dir, wrap: bool): Cell {
    if wrap then Cell((c.x + d.dx + GRID) % GRID, (c.y + d.dy + GRID) % GRID) else Cell(c.x + d.dx, c.y + d.dy)
  }

  function Reset(wrap: bool): Game {
    Game(seq(START_LEN, i => Cell(GRID / 2 - i, GRID / 2)), Dir(1, 0), [], Cell(0, 0), wrap)
  }

  /** The direction a new turn will be taken from. */
  function LastTurn(g: Game): Dir { if g.queue == [] then g.heading else g.queue[|g.queue| - 1] }

  function Turn(g: Game, d: Dir): Game {
    var p := LastTurn(g);
    if (d.dx == 0 && d.dy == 0) || (d.dx != 0 && d.dy != 0) || |g.queue| >= TURN_QUEUE
       || d == Dir(-p.dx, -p.dy) || d == p then g
    else g.(queue := g.queue + [d])
  }

  datatype Stepped = Stepped(game: Game, outcome: Outcome)

  /** The turn that takes effect with this step. */
  function Turned(g: Game): Game {
    if g.queue == [] then g else g.(heading := g.queue[0], queue := g.queue[1..])
  }

  function Target(g: Game): Cell
    requires g.body != []
  {
    Ahead(g.body[0], Turned(g).heading, g.wrap)
  }

  predicate Grows(g: Game)
    requires g.body != []
  {
    Target(g) == g.food && |g.body| < MAX_LEN
  }

  /** The cells the head must not enter: the tail moves out of the way unless the snake grows. */
  function Obstacles(g: Game): seq<Cell>
    requires g.body != []
  {
    if Grows(g) then g.body else g.body[..|g.body| - 1]
  }

  function Step(g: Game): Stepped
    requires g.body != []
  {
    var t, n := Turned(g), Target(g);
    if !InGrid(n) || n in Obstacles(g) then Stepped(t, Died)
    else Stepped(t.(body := [n] + Obstacles(g)), if n == g.food then Ate else Moved)
  }

  /**
   * What a step comes to, cell by cell: the snake dies at the edge and on itself, but not on a tail that moves
   * away; otherwise the head enters the cell ahead, the rest follows, and food lengthens it by one segment.
   */
  lemma StepDecides(g: Game)
    requires g.body != []
    ensures var n, r, eats, longer := Target(g), Step(g), Target(g) == g.food, Target(g) == g.food && |g.body| < MAX_LEN;
            && (r.outcome == Died <==>
                  !InGrid(n) || exists i :: 0 <= i < |g.body| && g.body[i] == n && (longer || i < |g.body| - 1))
            && (r.outcome != Died ==>
                  && (r.outcome == Ate <==> eats)
                  && |r.game.body| == |g.body| + (if longer then 1 else 0)
                  && r.game.body[0] == n && forall i :: 1 <= i < |r.game.body| ==> r.game.body[i] == g.body[i - 1])
            && r.game.food == g.food && r.game.wrap == g.wrap
            && (if g.queue == [] then r.game.heading == g.heading && r.game.queue == []
                else [r.game.heading] + r.game.queue == g.queue)
  {
    var n := Target(g);
    if n in Obstacles(g) {
      var i :| 0 <= i < |Obstacles(g)| && Obstacles(g)[i] == n;
      assert g.body[i] == n;
    }
    if i :| 0 <= i < |g.body| && g.body[i] == n && (Grows(g) || i < |g.body| - 1) { assert Obstacles(g)[i] == n; }
  }

  /** The grid has four hundred cells, twenty to a row. */
  lemma GridIs(c: Cell)
    ensures InGrid(c) <==> exists n: nat :: n < 400 && c == Cell(n % 20, n / 20)
  {
    if InGrid(c) {
      var n: nat := 20 * c.y + c.x;
      assert n < 400 && c == Cell(n % 20, n / 20);
    }
  }

  /** A turn is taken exactly if it leads left or right of the direction it will be taken from and there is room for it. */
  lemma TurnTakenIff(g: Game, d: Dir)
    requires Swipe(d) && Unit(LastTurn(g))
    ensures Turn(g, d) == g.(queue := g.queue + [d]) <==> Unit(d) && Perpendicular(d, LastTurn(g)) && |g.queue| < 2
    ensures Turn(g, d) == g || Turn(g, d) == g.(queue := g.queue + [d])
  {
    assert g.queue + [d] != g.queue;
  }

  /** The cell ahead is one step in the heading, round the edge if the grid wraps. */
  lemma AheadIs(c: Cell, d: Dir, wrap: bool)
    requires InGrid(c) && Unit(d)
    ensures var n := Ahead(c, d, wrap);
            && (n.x - c.x - d.dx) % GRID == 0 && (n.y - c.y - d.dy) % GRID == 0
            && (if wrap then InGrid(n) else n == Cell(c.x + d.dx, c.y + d.dy))
  {}

  // ---------------------------------------------------------------- every run

  ghost predicate Inv(g: Game) {
    && START_LEN <= |g.body| <= MAX_LEN && |g.queue| <= TURN_QUEUE
    && (forall i :: 0 <= i < |g.body| ==> InGrid(g.body[i]))
    && (forall i, j :: 0 <= i < j < |g.body| ==> g.body[i] != g.body[j])
    && Joined(g.body, g.wrap)
    && Unit(g.heading) && g.body[0] == Ahead(g.body[1], g.heading, g.wrap)
    && (forall i :: 0 <= i < |g.queue| ==> Unit(g.queue[i]))
    && (g.queue != [] ==> Perpendicular(g.heading, g.queue[0]))
    && (|g.queue| == 2 ==> Perpendicular(g.queue[0], g.queue[1]))
  }

  ghost predicate Adjacent(a: Cell, b: Cell, wrap: bool) { exists d :: Unit(d) && a == Ahead(b, d, wrap) }

  /** Neighbouring segments touch. */
  ghost predicate Joined(body: seq<Cell>, wrap: bool) {
    forall i, j :: 0 <= i && j == i + 1 < |body| ==> Adjacent(body[i], body[j], wrap)
  }

  lemma ResetIsFine(wrap: bool)
    ensures Reset(wrap) == Game([Cell(10, 10), Cell(9, 10), Cell(8, 10), Cell(7, 10)], Dir(1, 0), [], Cell(0, 0), wrap)
    ensures Inv(Reset(wrap)) && Reset(wrap).food !in Reset(wrap).body
  {
    var g := Reset(wrap);
    assert g.body == [Cell(10, 10), Cell(9, 10), Cell(8, 10), Cell(7, 10)];
    forall i, j | 0 <= i && j == i + 1 < |g.body| ensures Adjacent(g.body[i], g.body[j], wrap) {
      assert Unit(Dir(1, 0)) && g.body[i] == Ahead(g.body[j], Dir(1, 0), wrap);
    }
  }

  lemma TurnKeeps(g: Game, d: Dir)
    requires Inv(g) && Swipe(d)
    ensures Inv(Turn(g, d))
  {
    hide Joined;
  }

  /** The heading in effect at the next step is never the reverse of the one before. */
  lemma NoReversal(g: Game)
    requires Inv(g)
    ensures Unit(Turned(g).heading) && Turned(g).heading != Dir(-g.heading.dx, -g.heading.dy)
  {
    hide Joined;
  }

  /** So a step never moves the head onto the neck. */
  lemma NeverOntoTheNeck(g: Game)
    requires Inv(g)
    ensures Target(g) != g.body[1]
  {
    hide Joined;
    NoReversal(g);
    Returns(g.body[1], g.heading, Turned(g).heading, g.wrap);
  }

  lemma Returns(c: Cell, d: Dir, e: Dir, wrap: bool)
    requires InGrid(c) && Unit(d) && Unit(e) && e != Dir(-d.dx, -d.dy)
    ensures Ahead(Ahead(c, d, wrap), e, wrap) != c
  {}

  lemma StepKeeps(g: Game)
    requires Inv(g)
    ensures Step(g).outcome != Died ==> Inv(Step(g).game)
  {
    hide Joined, Ahead, InGrid, Unit, Perpendicular;
    if Step(g).outcome != Died {
      var h, n, rest := Step(g).game, Target(g), Obstacles(g);
      NoReversal(g);
      QueueMovesUp(g);
      assert h.body[0] == n && h.body[1] == g.body[0];
      assert forall i :: 1 <= i < |h.body| ==> h.body[i] == rest[i - 1] == g.body[i - 1];
      forall i, j | 0 <= i < j < |h.body| ensures h.body[i] != h.body[j] {
        if i == 0 { assert rest[j - 1] in rest; }
      }
      assert rest == g.body[..|rest|];
      JoinedGrows(g.body, n, Turned(g).heading, g.wrap, |rest|);
    }
  }

  lemma QueueMovesUp(g: Game)
    requires Inv(g)
    ensures var t := Turned(g);
            && |t.queue| <= TURN_QUEUE
            && (forall i :: 0 <= i < |t.queue| ==> Unit(t.queue[i]))
            && (t.queue != [] ==> Perpendicular(t.heading, t.queue[0])) && |t.queue| < 2
  {
    hide Joined, Ahead, InGrid, Unit;
  }

  lemma JoinedGrows(body: seq<Cell>, n: Cell, d: Dir, wrap: bool, keep: nat)
    requires body != [] && keep <= |body| && Joined(body, wrap) && Unit(d) && n == Ahead(body[0], d, wrap)
    ensures Joined([n] + body[..keep], wrap)
  {
    hide Ahead, Unit;
    var all := [n] + body[..keep];
    forall i, j | 0 <= i && j == i + 1 < |all| ensures Adjacent(all[i], all[j], wrap) {
      if i == 0 {
        assert all[0] == n && all[1] == body[0];
      } else {
        assert all[i] == body[i - 1] && all[j] == body[j - 1] && Adjacent(body[i - 1], body[j - 1], wrap);
      }
    }
  }

  /** Food that lies free stays free until the head reaches it. */
  lemma FoodStaysFree(g: Game)
    requires Inv(g) && g.food !in g.body && Step(g).outcome == Moved
    ensures Step(g).game.food !in Step(g).game.body
  {
    hide Joined, Ahead;
  }

  /** A cell's colour on a chessboard, which wrapping round an even grid respects. */
  function Colour(c: Cell): int { (c.x + c.y) % 2 }

  lemma AheadChangesColour(c: Cell, d: Dir, wrap: bool)
    requires InGrid(c) && Unit(d)
    ensures Colour(Ahead(c, d, wrap)) != Colour(c)
  {
    if wrap {
      var u, v := c.x + d.dx + GRID, c.y + d.dy + GRID;
      assert u % GRID == u - GRID || u % GRID == u - 2 * GRID || u % GRID == u;
      assert v % GRID == v - GRID || v % GRID == v - 2 * GRID || v % GRID == v;
    }
  }

  lemma {:induction false} ColoursAlternate(g: Game, i: nat)
    requires Inv(g) && i < |g.body|
    ensures Colour(g.body[i]) == (Colour(g.body[0]) + i) % 2
  {
    hide Colour, Ahead, InGrid, Unit;
    ColourIsBit(g.body[i]);
    if i > 0 {
      ColoursAlternate(g, i - 1);
      assert Adjacent(g.body[i - 1], g.body[i], g.wrap);
      var d :| Unit(d) && g.body[i - 1] == Ahead(g.body[i], d, g.wrap);
      AheadChangesColour(g.body[i], d, g.wrap);
      ColourIsBit(g.body[i - 1]);
    } else {
      ColourIsBit(g.body[0]);
    }
  }

  lemma ColourIsBit(c: Cell)
    ensures Colour(c) == 0 || Colour(c) == 1
  {}

  /** Only every other segment can ever be hit, and none before the fourth. */
  lemma HitsOddSegments(g: Game, i: nat)
    requires Inv(g) && i < |g.body| && g.body[i] == Target(g)
    ensures i % 2 == 1 && i >= 3
  {
    hide Colour, Ahead, Joined, InGrid, Unit;
    NoReversal(g);
    NeverOntoTheNeck(g);
    ColoursAlternate(g, i);
    ColourIsBit(g.body[0]);
    ColourIsBit(Target(g));
    AheadChangesColour(g.body[0], Turned(g).heading, g.wrap);
  }

  datatype Event = Swiped(d: Dir) | Ticked | Fed(food: Cell)

  /** The game after some events; None once the snake has died. */
  function Play(wrap: bool, events: seq<Event>): Option<Game> {
    if events == [] then Some(Reset(wrap))
    else match Play(wrap, events[..|events| - 1])
      case None => None
      case Some(g) =>
        match events[|events| - 1]
        case Swiped(d) => Some(Turn(g, d))
        case Fed(c) => Some(g.(food := c))
        case Ticked => if g.body == [] || Step(g).outcome == Died then None else Some(Step(g).game)
  }

  /** As long as it lives, whatever the player does: in the grid, in one piece, never over itself. */
  lemma {:induction false} LifeKeeps(wrap: bool, events: seq<Event>)
    requires forall i :: 0 <= i < |events| && events[i].Swiped? ==> Swipe(events[i].d)
    ensures Play(wrap, events).Some? ==> Inv(Play(wrap, events).value)
  {
    hide Inv, Step, Turn, Reset;
    if events == [] {
      ResetIsFine(wrap);
    } else {
      var before := events[..|events| - 1];
      LifeKeeps(wrap, before);
      if Play(wrap, before).Some? {
        var g := Play(wrap, before).value;
        match events[|events| - 1]
        case Swiped(d) => TurnKeeps(g, d);
        case Fed(c) => FoodIsFree(g, c);
        case Ticked => if g.body != [] { StepKeeps(g); }
      }
    }
  }

  lemma FoodIsFree(g: Game, c: Cell)
    requires Inv(g)
    ensures Inv(g.(food := c))
  {}

  // ---------------------------------------------------------------- room for food

  function CellOf(k: nat): Cell { Cell(k % GRID, k / GRID) }

  lemma CellsDiffer(k: nat, m: nat)
    requires k != m
    ensures CellOf(k) != CellOf(m)
  {}

  /** Pigeonhole: a body that covers `n` cells has at least `n` segments. */
  lemma {:induction false} CoverNeedsSegments(body: seq<Cell>, n: nat)
    requires forall k :: 0 <= k < n ==> CellOf(k) in body
    ensures |body| >= n
    decreases n
  {
    hide CellOf;
    if n > 0 {
      var i :| 0 <= i < |body| && body[i] == CellOf(n - 1);
      var rest := body[..i] + body[i + 1..];
      forall k | 0 <= k < n - 1 ensures CellOf(k) in rest {
        var j :| 0 <= j < |body| && body[j] == CellOf(k);
        CellsDiffer(k, n - 1);
        assert j < i ==> rest[j] == body[j];
        assert j > i ==> rest[j - 1] == body[j];
      }
      CoverNeedsSegments(rest, n - 1);
    }
  }

  lemma SomeCellIsFree(body: seq<Cell>) returns (k: nat)
    requires |body| < GRID * GRID
    ensures k < GRID * GRID && CellOf(k) !in body && InGrid(CellOf(k))
  {
    if forall k :: 0 <= k < GRID * GRID ==> CellOf(k) in body { CoverNeedsSegments(body, GRID * GRID); }
    k :| 0 <= k < GRID * GRID && CellOf(k) !in body;
  }

  // ---------------------------------------------------------------- the program

  class SnakeCore {
    const x: array<int>
    const y: array<int>
    var len: nat
    var dx: int
    var dy: int
    const queueDx: array<int>
    const queueDy: array<int>
    var queued: nat
    var foodX: int
    var foodY: int
    var wrap: bool

    ghost predicate Valid()
      reads this
    {
      && x.Length == MAX_LEN && y.Length == MAX_LEN && queueDx.Length == TURN_QUEUE && queueDy.Length == TURN_QUEUE
      && x != y && x != queueDx && x != queueDy && y != queueDx && y != queueDy && queueDx != queueDy
      && 1 <= len <= MAX_LEN && queued <= TURN_QUEUE
    }

    ghost function Body(): (b: seq<Cell>)
      requires Valid()
      reads this, x, y
      ensures |b| == len && forall i :: 0 <= i < len ==> b[i] == Cell(x[i], y[i])
    {
      seq(len, i requires 0 <= i < len && Valid() reads this, x, y => Cell(x[i], y[i]))
    }

    ghost function Queue(): (q: seq<Dir>)
      requires Valid()
      reads this, queueDx, queueDy
      ensures |q| == queued && forall i :: 0 <= i < queued ==> q[i] == Dir(queueDx[i], queueDy[i])
    {
      seq(queued, i requires 0 <= i < queued && Valid() reads this, queueDx, queueDy => Dir(queueDx[i], queueDy[i]))
    }

    ghost function Abs(): Game
      requires Valid()
      reads this, x, y, queueDx, queueDy
    {
      Game(Body(), Dir(dx, dy), Queue(), Cell(foodX, foodY), wrap)
    }

    constructor (wrapped: bool)
      ensures Valid() && Abs() == Reset(wrapped)
    {
      x, y := new int[MAX_LEN], new int[MAX_LEN];
      queueDx, queueDy := new int[TURN_QUEUE], new int[TURN_QUEUE];
      len, dx, dy, queued, foodX, foodY, wrap := START_LEN, 1, 0, 0, 0, 0, wrapped;
      new;
      Restart(wrapped);
    }

    method Restart(wrapped: bool)
      requires Valid()
      modifies this, x, y
      ensures Valid() && Abs() == Reset(wrapped)
    {
      len := START_LEN;
      LayOut();
      dx, dy, queued, wrap, foodX, foodY := 1, 0, 0, wrapped, 0, 0;
      assert Body() == Reset(wrapped).body;
      assert Queue() == [];
    }

    /** The opening body, from the middle of the grid to the left. */
    method LayOut()
      requires Valid() && len == START_LEN
      modifies x, y
      ensures forall k :: 0 <= k < START_LEN ==> x[k] == GRID / 2 - k && y[k] == GRID / 2
    {
      var i := 0;
      while i < len
        invariant i <= len
        invariant forall k :: 0 <= k < i ==> x[k] == GRID / 2 - k && y[k] == GRID / 2
      {
        x[i] := GRID / 2 - i;
        y[i] := GRID / 2;
        i := i + 1;
      }
    }

    /** Whether one of the first `n` segments is at this cell. */
    method Hits(cx: int, cy: int, n: nat) returns (hit: bool)
      requires Valid() && n <= len
      ensures hit == (Cell(cx, cy) in Body()[..n])
    {
      var i := 0;
      while i < n
        invariant i <= n && Cell(cx, cy) !in Body()[..i]
      {
        assert Body()[..i + 1] == Body()[..i] + [Cell(x[i], y[i])];
        if x[i] == cx && y[i] == cy {
          assert Body()[..n][i] == Cell(cx, cy);
          return true;
        }
        i := i + 1;
      }
      hit := false;
    }

    /** `snake_core_turn`. */
    method TakeTurn(ndx: int, ndy: int)
      requires Valid()
      modifies this, queueDx, queueDy
      ensures Valid() && Abs() == Turn(old(Abs()), Dir(ndx, ndy))
    {
      if ndx == 0 && ndy == 0 { return; }
      if ndx != 0 && ndy != 0 { return; }
      if queued >= TURN_QUEUE { return; }
      var prevDx := if queued > 0 then queueDx[queued - 1] else dx;
      var prevDy := if queued > 0 then queueDy[queued - 1] else dy;
      if ndx == -prevDx && ndy == -prevDy { return; }
      if ndx == prevDx && ndy == prevDy { return; }
      queueDx[queued] := ndx;
      queueDy[queued] := ndy;
      queued := queued + 1;
      assert Queue() == old(Queue()) + [Dir(ndx, ndy)];
      assert Body() == old(Body());
    }

    /** The first queued turn takes effect and the others move up. */
    method ApplyTurn()
      requires Valid()
      modifies this, queueDx, queueDy
      ensures Valid() && Abs() == Turned(old(Abs())) && Body() == old(Body()) && len == old(len)
    {
      if queued > 0 {
        dx := queueDx[0];
        dy := queueDy[0];
        var i := 1;
        while i < queued
          invariant 1 <= i <= queued == old(queued) && Valid()
          invariant dx == old(queueDx[0]) && dy == old(queueDy[0])
          invariant foodX == old(foodX) && foodY == old(foodY) && wrap == old(wrap) && len == old(len)
          invariant forall k :: 1 <= k < i ==> queueDx[k - 1] == old(queueDx[k]) && queueDy[k - 1] == old(queueDy[k])
          invariant forall k :: i <= k < queued ==> queueDx[k] == old(queueDx[k]) && queueDy[k] == old(queueDy[k])
        {
          queueDx[i - 1] := queueDx[i];
          queueDy[i - 1] := queueDy[i];
          i := i + 1;
        }
        queued := queued - 1;
        assert Queue() == old(Queue())[1..];
      }
      assert Body() == old(Body());
    }

    /** The segments move up and the head enters its new cell. */
    method Advance(nx: int, ny: int)
      requires Valid()
      modifies x, y
      ensures Body() == [Cell(nx, ny)] + old(Body())[..len - 1]
    {
      ghost var ox, oy := x[..], y[..];
      var i := len - 1;
      while i > 0
        invariant 0 <= i < len && Valid()
        invariant forall k :: 0 <= k <= i ==> x[k] == ox[k] && y[k] == oy[k]
        invariant forall k :: i < k < len ==> x[k] == ox[k - 1] && y[k] == oy[k - 1]
      {
        x[i] := x[i - 1];
        y[i] := y[i - 1];
        i := i - 1;
      }
      x[0] := nx;
      y[0] := ny;
    }

    /** `snake_core_step`. */
    method TakeStep() returns (outcome: Outcome)
      requires Valid()
      modifies this, x, y, queueDx, queueDy
      ensures Valid() && Stepped(Abs(), outcome) == Step(old(Abs()))
    {
      ghost var g := Abs();
      ApplyTurn();
      ghost var t := Abs();
      var nx, ny := x[0] + dx, y[0] + dy;
      if wrap {
        nx := (nx + GRID) % GRID;
        ny := (ny + GRID) % GRID;
      } else if nx < 0 || ny < 0 || nx >= GRID || ny >= GRID {
        assert !InGrid(Target(g));
        return Died;
      }
      assert Target(g) == Cell(nx, ny);
      var ate := nx == foodX && ny == foodY;
      var checkLen := if ate && len < MAX_LEN then len else len - 1;
      assert Obstacles(g) == Body()[..checkLen];
      var hit := Hits(nx, ny, checkLen);
      if hit { return Died; }
      MoveOn(nx, ny, ate && len < MAX_LEN);
      outcome := if ate then Ate else Moved;
    }

    /** The head enters its new cell; the tail stays where it is if the snake grows. */
    method MoveOn(nx: int, ny: int, grows: bool)
      requires Valid() && (grows ==> len < MAX_LEN)
      modifies this`len, x, y
      ensures Valid()
      ensures var g := old(Abs());
              Abs() == g.(body := [Cell(nx, ny)] + g.body[..if grows then |g.body| else |g.body| - 1])
    {
      ghost var body, queue := Body(), Queue();
      if grows { len := len + 1; }
      assert Body()[..len - 1] == body[..len - 1];
      Advance(nx, ny);
      assert Queue() == queue;
    }

    /** `snake_core_spawn_food`, with draws that lie in the grid: it always finds a free cell. */
    method SpawnFood() returns (ok: bool)
      requires Valid()
      modifies this`foodX, this`foodY
      ensures Valid() && ok && InGrid(Cell(foodX, foodY))
      ensures Cell(foodX, foodY) !in Body() && Abs() == old(Abs()).(food := Cell(foodX, foodY))
    {
      assert Body()[..len] == Body();
      if len >= GRID * GRID { return false; }
      var guard := 0;
      while guard < 1000
        invariant Body() == old(Body())
      {
        var cx: nat, cy: nat :| cx < GRID && cy < GRID;
        var taken := Hits(cx, cy, len);
        if !taken {
          foodX, foodY := cx, cy;
          assert Queue() == old(Queue());
          return true;
        }
        guard := guard + 1;
      }
      ghost var free := SomeCellIsFree(Body());
      var cy := 0;
      while cy < GRID
        invariant 0 <= cy <= GRID
        invariant forall k :: 0 <= k < GRID * cy ==> CellOf(k) in Body()
      {
        var cx := 0;
        while cx < GRID
          invariant 0 <= cx <= GRID
          invariant forall k :: 0 <= k < GRID * cy + cx ==> CellOf(k) in Body()
        {
          assert CellOf(GRID * cy + cx) == Cell(cx, cy);
          var taken := Hits(cx, cy, len);
          if !taken {
            foodX, foodY := cx, cy;
            assert Queue() == old(Queue());
            return true;
          }
          cx := cx + 1;
        }
        cy := cy + 1;
      }
      assert false;
    }
  }
}
