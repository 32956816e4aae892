/** The rules of Match: runs of three, swaps that earn something, tiles that fall. */
module Match {
  const SIZE := 7
  const COLORS := 6
  const EMPTY := 0xFF
  const RUN := 3

  /** Rows of tiles. */
  type Board = seq<seq<int>>

  predicate Shape(b: Board) { |b| == SIZE && forall r :: 0 <= r < SIZE ==> |b[r]| == SIZE }

  predicate OnBoard(r: int, c: int) { 0 <= r < SIZE && 0 <= c < SIZE }

  function Column(b: Board, c: nat): (line: seq<int>)
    requires Shape(b) && c < SIZE
    ensures |line| == SIZE && forall r :: 0 <= r < SIZE ==> line[r] == b[r][c]
  {
    seq(SIZE, r requires 0 <= r < SIZE => b[r][c])
  }

  /** Three equal tiles in a row, from `s` on. */
  predicate Window(line: seq<int>, s: int) {
    0 <= s && s + 2 < |line| && line[s] == line[s + 1] == line[s + 2] && line[s] != EMPTY
  }

  ghost predicate InRun(line: seq<int>, k: int) { exists s :: Window(line, s) && s <= k <= s + 2 }

  ghost predicate Marked(b: Board, r: int, c: int)
    requires Shape(b)
  {
    OnBoard(r, c) && (InRun(b[r], c) || InRun(Column(b, c), r))
  }

  ghost predicate HasMatch(b: Board)
    requires Shape(b)
  {
    exists r, c :: Marked(b, r, c)
  }

  ghost function MarkedCells(b: Board): set<(int, int)>
    requires Shape(b)
  {
    set r, c | 0 <= r < SIZE && 0 <= c < SIZE && Marked(b, r, c) :: (r, c)
  }

  predicate Adjacent(r1: int, c1: int, r2: int, c2: int) {
    && OnBoard(r1, c1) && OnBoard(r2, c2)
    && ((r1 == r2 && (c1 - c2 == 1 || c1 - c2 == -1)) || (c1 == c2 && (r1 - r2 == 1 || r1 - r2 == -1)))
  }

  /** Cells of the seven by seven board that are one step apart, in either order. */
  lemma AdjacentIff(r1: int, c1: int, r2: int, c2: int)
    ensures Adjacent(r1, c1, r2, c2) <==>
            && 0 <= r1 < 7 && 0 <= c1 < 7 && 0 <= r2 < 7 && 0 <= c2 < 7
            && (if r1 < r2 then r2 - r1 else r1 - r2) + (if c1 < c2 then c2 - c1 else c1 - c2) == 1
  {}

  function Set(b: Board, r: int, c: int, v: int): (d: Board)
    requires Shape(b) && OnBoard(r, c)
    ensures Shape(d) && forall i, j :: OnBoard(i, j) ==> d[i][j] == if i == r && j == c then v else b[i][j]
  {
    b[r := b[r][c := v]]
  }

  function Swapped(b: Board, r1: int, c1: int, r2: int, c2: int): Board
    requires Shape(b) && OnBoard(r1, c1) && OnBoard(r2, c2)
  {
    Set(Set(b, r1, c1, b[r2][c2]), r2, c2, b[r1][c1])
  }

  ghost predicate HasMove(b: Board)
    requires Shape(b)
  {
    exists r1, c1, r2, c2 :: Adjacent(r1, c1, r2, c2) && HasMatch(Swapped(b, r1, c1, r2, c2))
  }

  lemma SameBoard(a: Board, b: Board)
    requires Shape(a) && Shape(b) && forall i, j :: OnBoard(i, j) ==> a[i][j] == b[i][j]
    ensures a == b
  {
    forall i | 0 <= i < SIZE ensures a[i] == b[i] {
      forall j | 0 <= j < SIZE ensures a[i][j] == b[i][j] { assert OnBoard(i, j); }
    }
  }

  lemma SwapTwice(b: Board, r1: int, c1: int, r2: int, c2: int)
    requires Shape(b) && OnBoard(r1, c1) && OnBoard(r2, c2)
    ensures Swapped(Swapped(b, r1, c1, r2, c2), r1, c1, r2, c2) == b
    ensures Swapped(b, r2, c2, r1, c1) == Swapped(b, r1, c1, r2, c2)
  {
    hide Set;
    SetIs(b, r1, c1, b[r2][c2]);
    var once := Swapped(b, r1, c1, r2, c2);
    SwapIs(b, r1, c1, r2, c2);
    SwapIs(b, r2, c2, r1, c1);
    SwapIs(once, r1, c1, r2, c2);
    SameBoard(Swapped(once, r1, c1, r2, c2), b);
    SameBoard(Swapped(b, r2, c2, r1, c1), once);
  }

  lemma SetIs(b: Board, r: int, c: int, v: int)
    requires Shape(b) && OnBoard(r, c)
    ensures Shape(Set(b, r, c, v))
  {}

  lemma SwapIs(b: Board, r1: int, c1: int, r2: int, c2: int)
    requires Shape(b) && OnBoard(r1, c1) && OnBoard(r2, c2)
    ensures var d := Swapped(b, r1, c1, r2, c2);
            Shape(d) && forall i, j :: OnBoard(i, j) ==>
              d[i][j] == if i == r2 && j == c2 then b[r1][c1] else if i == r1 && j == c1 then b[r2][c2] else b[i][j]
  {}

  // ---------------------------------------------------------------- runs in a line

  /** No run crosses the border in front of `c`. */
  predicate Breaks(line: seq<int>, c: nat)
    requires 0 < c < |line|
  {
    line[c - 1] != line[c] || line[c] == EMPTY
  }

  predicate IsRun(line: seq<int>, c: nat, run: nat) {
    && 0 < run && c + run <= |line| && (forall k :: c <= k < c + run ==> line[k] == line[c])
    && (run > 1 ==> line[c] != EMPTY)
  }

  /** A maximal run decides for all of its cells. */
  lemma RunDecides(line: seq<int>, c: nat, run: nat)
    requires IsRun(line, c, run) && (c > 0 ==> Breaks(line, c))
    requires c + run < |line| ==> line[c + run] != line[c] || line[c] == EMPTY
    ensures forall j :: c <= j < c + run ==> (InRun(line, j) <==> line[c] != EMPTY && run >= RUN)
    ensures c + run < |line| ==> Breaks(line, c + run)
  {
    forall j | c <= j < c + run ensures InRun(line, j) <==> line[c] != EMPTY && run >= RUN {
      if line[c] != EMPTY && run >= RUN {
        var s := if j - c >= 2 then j - 2 else c;
        assert line[s] == line[c] && line[s + 1] == line[c] && line[s + 2] == line[c];
        assert Window(line, s);
      }
      if s :| Window(line, s) && s <= j <= s + 2 {
        assert line[j] == line[c] && line[j] == line[s];
        assert s >= c by { if s < c { CrossesBreak(line, s, c); } }
        assert s + 2 < c + run by { if s + 2 >= c + run { CrossesBreak(line, s, c + run); } }
      }
    }
    if c + run < |line| { assert line[c + run - 1] == line[c]; }
  }

  /** A window on both sides of a border has equal tiles there. */
  lemma CrossesBreak(line: seq<int>, s: int, at: nat)
    requires Window(line, s) && s < at <= s + 2
    ensures line[at - 1] == line[at] != EMPTY
  {}

  // ---------------------------------------------------------------- three at least

  /** A match clears three tiles or more. */
  lemma MatchClearsThree(b: Board)
    requires Shape(b)
    ensures HasMatch(b) <==> |MarkedCells(b)| > 0
    ensures HasMatch(b) ==> |MarkedCells(b)| >= RUN
  {
    if HasMatch(b) {
      var r, c :| Marked(b, r, c);
      if InRun(b[r], c) {
        var s :| Window(b[r], s) && s <= c <= s + 2;
        assert InRun(b[r], s) && InRun(b[r], s + 1) && InRun(b[r], s + 2);
        assert OnBoard(r, s) && OnBoard(r, s + 1) && OnBoard(r, s + 2);
        ThreeOf(MarkedCells(b), (r, s), (r, s + 1), (r, s + 2));
      } else {
        var line := Column(b, c);
        var s :| Window(line, s) && s <= r <= s + 2;
        assert InRun(line, s) && InRun(line, s + 1) && InRun(line, s + 2);
        assert OnBoard(s, c) && OnBoard(s + 1, c) && OnBoard(s + 2, c);
        ThreeOf(MarkedCells(b), (s, c), (s + 1, c), (s + 2, c));
      }
    } else {
      assert MarkedCells(b) == {};
    }
  }

  lemma ThreeOf(cells: set<(int, int)>, x: (int, int), y: (int, int), z: (int, int))
    requires x in cells && y in cells && z in cells && x != y && y != z && x != z
    ensures |cells| >= 3
  {
    Subset({x, y, z}, cells);
    assert |{x, y, z}| == 3;
  }

  lemma {:induction false} Subset(a: set<(int, int)>, b: set<(int, int)>)
    requires a <= b
    ensures |a| <= |b|
  {
    if x :| x in a {
      Subset(a - {x}, b - {x});
      assert |a| == |a - {x}| + 1 && |b| == |b - {x}| + 1;
    }
  }

  // ---------------------------------------------------------------- falling

  /** The tiles that are there, in order. */
  function Solid(line: seq<int>): (s: seq<int>)
    ensures |s| <= |line|
  {
    if line == [] then []
    else (if line[0] != EMPTY then [line[0]] else []) + Solid(line[1..])
  }

  /** The tiles `tiles` come from the cells `ks` of a column: those that are not empty, from the top down. */
  ghost predicate Sources(line: seq<int>, ks: seq<nat>, tiles: seq<int>) {
    && |tiles| == |ks|
    && (forall i, j :: 0 <= i < j < |ks| ==> ks[i] < ks[j])
    && (forall i :: 0 <= i < |ks| ==> ks[i] < |line| && line[ks[i]] != EMPTY && tiles[i] == line[ks[i]])
    && (forall k: nat :: k < |line| && line[k] != EMPTY ==> k in ks)
  }

  lemma {:induction false} SolidFrom(line: seq<int>) returns (ks: seq<nat>)
    ensures Sources(line, ks, Solid(line))
    decreases |line|
  {
    hide Solid, Sources;
    ks := [];
    if line == [] {
      SolidOfNothing();
    } else {
      var n := |line| - 1;
      ks := SolidFrom(line[..n]);
      SolidSnoc(line);
      OneMoreSource(line, ks, Solid(line[..n]));
      if line[n] != EMPTY { ks := ks + [n]; } else { assert Solid(line[..n]) + [] == Solid(line[..n]); }
    }
  }

  lemma SolidOfNothing()
    ensures Solid([]) == [] && Sources([], [], [])
  {}

  lemma OneMoreSource(line: seq<int>, ks: seq<nat>, tiles: seq<int>)
    requires line != [] && Sources(line[..|line| - 1], ks, tiles)
    ensures var n: nat := |line| - 1;
            if line[n] != EMPTY then Sources(line, ks + [n], tiles + [line[n]]) else Sources(line, ks, tiles)
  {
    var n: nat := |line| - 1;
    assert forall k :: 0 <= k < n ==> line[..n][k] == line[k];
    assert forall k :: k in ks ==> k in ks + [n];
    assert (ks + [n])[|ks|] == n;
  }

  lemma {:induction false} SolidSnoc(line: seq<int>)
    requires line != []
    ensures var n := |line| - 1; Solid(line) == Solid(line[..n]) + (if line[n] != EMPTY then [line[n]] else [])
    decreases |line|
  {
    hide Solid;
    var n := |line| - 1;
    SolidHead(line);
    SolidOfNothing();
    if n == 0 {
      assert line[..0] == [] && line[1..] == [];
    } else {
      var tail := line[1..];
      assert line[..n][1..] == tail[..n - 1] && tail[n - 1] == line[n];
      SolidHead(line[..n]);
      SolidSnoc(tail);
    }
  }

  lemma SolidHead(line: seq<int>)
    requires line != []
    ensures Solid(line) == (if line[0] != EMPTY then [line[0]] else []) + Solid(line[1..])
  {}

  /** The column after falling: new tiles on top of the old ones, none missing. */
  ghost predicate Fallen(before: seq<int>, after: seq<int>) {
    var kept := Solid(before);
    && |after| == |before| && after[|after| - |kept|..] == kept
    && forall k :: 0 <= k < |after| - |kept| ==> 0 <= after[k] < COLORS
  }

  /** Every tile has a colour: there is no hole. */
  ghost predicate Full(b: Board)
    requires Shape(b)
  {
    forall r, c :: OnBoard(r, c) ==> 0 <= b[r][c] < COLORS
  }

  /** The board with the marked tiles removed. */
  ghost function Cleared(b: Board): (d: Board)
    requires Shape(b)
    ensures Shape(d) && forall r, c :: OnBoard(r, c) ==> d[r][c] == if Marked(b, r, c) then EMPTY else b[r][c]
  {
    seq(SIZE, r requires 0 <= r < SIZE => seq(SIZE, c requires 0 <= c < SIZE => if Marked(b, r, c) then EMPTY else b[r][c]))
  }

  ghost predicate Settled(before: Board, after: Board) {
    && Shape(before) && Shape(after)
    && forall c :: 0 <= c < SIZE ==> Fallen(Column(Cleared(before), c), Column(after, c))
  }

  lemma {:induction false} SolidColours(line: seq<int>)
    requires forall k :: 0 <= k < |line| ==> line[k] == EMPTY || 0 <= line[k] < COLORS
    ensures forall k :: 0 <= k < |Solid(line)| ==> 0 <= Solid(line)[k] < COLORS
  {
    if line != [] { SolidColours(line[1..]); }
  }

  /** A full board settles into a full board. */
  lemma SettledIsFull(before: Board, after: Board)
    requires Settled(before, after) && Full(before)
    ensures Full(after)
  {
    forall r, c | OnBoard(r, c) ensures 0 <= after[r][c] < COLORS {
      var line, col := Column(Cleared(before), c), Column(after, c);
      assert forall k :: 0 <= k < SIZE ==> OnBoard(k, c);
      SolidColours(line);
      var top := SIZE - |Solid(line)|;
      assert Fallen(line, col);
      if r >= top { assert col[top..][r - top] == col[r]; }
    }
  }

  /** Swapping keeps a full board full. */
  lemma SwappedIsFull(b: Board, r1: int, c1: int, r2: int, c2: int)
    requires Shape(b) && Full(b) && OnBoard(r1, c1) && OnBoard(r2, c2)
    ensures Full(Swapped(b, r1, c1, r2, c2))
  {
    SwapIs(b, r1, c1, r2, c2);
  }

  // ---------------------------------------------------------------- the program

  predicate Grid<T>(t: array2<T>) { t.Length0 == SIZE && t.Length1 == SIZE }

  ghost function BoardOf(t: array2<int>): (b: Board)
    requires Grid(t)
    reads t
    ensures Shape(b) && forall r, c :: OnBoard(r, c) ==> b[r][c] == t[r, c]
  {
    seq(SIZE, r requires 0 <= r < SIZE reads t => seq(SIZE, c requires 0 <= c < SIZE reads t => t[r, c]))
  }

  method Put(t: array2<int>, r: nat, c: nat, v: int)
    requires Grid(t) && OnBoard(r, c)
    modifies t
    ensures BoardOf(t) == Set(old(BoardOf(t)), r, c, v)
  {
    t[r, c] := v;
    SameBoard(BoardOf(t), Set(old(BoardOf(t)), r, c, v));
  }

  method RunInRow(t: array2<int>, r: nat, c: nat) returns (run: nat)
    requires Grid(t) && OnBoard(r, c)
    ensures var line := BoardOf(t)[r]; IsRun(line, c, run) && (c + run < SIZE ==> line[c + run] != line[c] || line[c] == EMPTY)
  {
    ghost var line := BoardOf(t)[r];
    assert forall k :: 0 <= k < SIZE ==> OnBoard(r, k) && line[k] == t[r, k];
    run := 1;
    while c + run < SIZE && t[r, c + run] == t[r, c] && t[r, c] != EMPTY
      invariant IsRun(line, c, run)
    {
      run := run + 1;
    }
  }

  method RunInColumn(t: array2<int>, r: nat, c: nat) returns (run: nat)
    requires Grid(t) && OnBoard(r, c)
    ensures var line := Column(BoardOf(t), c); IsRun(line, r, run) && (r + run < SIZE ==> line[r + run] != line[r] || line[r] == EMPTY)
  {
    ghost var line := Column(BoardOf(t), c);
    assert forall k :: 0 <= k < SIZE ==> OnBoard(k, c) && line[k] == t[k, c];
    run := 1;
    while r + run < SIZE && t[r + run, c] == t[r, c] && t[r, c] != EMPTY
      invariant IsRun(line, r, run)
    {
      run := run + 1;
    }
  }

  method MarkAcross(mask: array2<bool>, r: nat, c: nat, run: nat)
    requires Grid(mask) && r < SIZE && c + run <= SIZE
    modifies mask
    ensures forall i, j :: OnBoard(i, j) ==> mask[i, j] == (old(mask[i, j]) || (i == r && c <= j < c + run))
  {
    var k := 0;
    while k < run
      invariant k <= run
      invariant forall i, j :: OnBoard(i, j) ==> mask[i, j] == (old(mask[i, j]) || (i == r && c <= j < c + k))
    {
      mask[r, c + k] := true;
      k := k + 1;
    }
  }

  method MarkDown(mask: array2<bool>, r: nat, c: nat, run: nat)
    requires Grid(mask) && r + run <= SIZE && c < SIZE
    modifies mask
    ensures forall i, j :: OnBoard(i, j) ==> mask[i, j] == (old(mask[i, j]) || (j == c && r <= i < r + run))
  {
    var k := 0;
    while k < run
      invariant k <= run
      invariant forall i, j :: OnBoard(i, j) ==> mask[i, j] == (old(mask[i, j]) || (j == c && r <= i < r + k))
    {
      mask[r + k, c] := true;
      k := k + 1;
    }
  }

  lemma RunBounds(line: seq<int>, c: nat, run: nat)
    requires IsRun(line, c, run)
    ensures 0 < run && c + run <= |line|
  {}

  method MarkRow(t: array2<int>, r: nat, mask: array2<bool>)
    requires Grid(t) && Grid(mask) && r < SIZE
    modifies mask
    ensures forall i, j :: OnBoard(i, j) ==> mask[i, j] == (old(mask[i, j]) || (i == r && InRun(BoardOf(t)[r], j)))
  {
    hide InRun, IsRun, Breaks;
    ghost var line := BoardOf(t)[r];
    assert forall k :: 0 <= k < SIZE ==> OnBoard(r, k) && line[k] == t[r, k];
    var c := 0;
    while c < SIZE
      invariant c <= SIZE && (0 < c < SIZE ==> Breaks(line, c))
      invariant forall i, j :: OnBoard(i, j) ==> mask[i, j] == (old(mask[i, j]) || (i == r && j < c && InRun(line, j)))
    {
      var v := t[r, c];
      var run := RunInRow(t, r, c);
      RunBounds(line, c, run);
      RunDecides(line, c, run);
      if v != EMPTY && run >= RUN { MarkAcross(mask, r, c, run); }
      c := c + run;
    }
  }

  method MarkColumn(t: array2<int>, c: nat, mask: array2<bool>)
    requires Grid(t) && Grid(mask) && c < SIZE
    modifies mask
    ensures forall i, j :: OnBoard(i, j) ==> mask[i, j] == (old(mask[i, j]) || (j == c && InRun(Column(BoardOf(t), c), i)))
  {
    hide InRun, IsRun, Breaks;
    ghost var line := Column(BoardOf(t), c);
    assert forall k :: 0 <= k < SIZE ==> OnBoard(k, c) && line[k] == t[k, c];
    var r := 0;
    while r < SIZE
      invariant r <= SIZE && (0 < r < SIZE ==> Breaks(line, r))
      invariant forall i, j :: OnBoard(i, j) ==> mask[i, j] == (old(mask[i, j]) || (j == c && i < r && InRun(line, i)))
    {
      var v := t[r, c];
      var run := RunInColumn(t, r, c);
      RunBounds(line, r, run);
      RunDecides(line, r, run);
      if v != EMPTY && run >= RUN { MarkDown(mask, r, c, run); }
      r := r + run;
    }
  }

  /** `mark_matches`: exactly the tiles in some run of three, and their number. */
  method MarkMatches(t: array2<int>) returns (mask: array2<bool>, count: nat)
    requires Grid(t)
    ensures fresh(mask) && Grid(mask) && forall r, c :: OnBoard(r, c) ==> mask[r, c] == Marked(BoardOf(t), r, c)
    ensures count == |MarkedCells(BoardOf(t))|
  {
    hide InRun;
    ghost var b := BoardOf(t);
    mask := new bool[SIZE, SIZE]((i, j) => false);
    var r := 0;
    while r < SIZE
      invariant r <= SIZE
      invariant forall i, j :: OnBoard(i, j) ==> mask[i, j] == (i < r && InRun(b[i], j))
    {
      MarkRow(t, r, mask);
      r := r + 1;
    }
    var c := 0;
    while c < SIZE
      invariant c <= SIZE
      invariant forall i, j :: OnBoard(i, j) ==> mask[i, j] == (InRun(b[i], j) || (j < c && InRun(Column(b, j), i)))
    {
      MarkColumn(t, c, mask);
      c := c + 1;
    }
    count := CountMarks(b, mask);
  }

  method CountMarks(ghost b: Board, mask: array2<bool>) returns (count: nat)
    requires Shape(b) && Grid(mask) && forall r, c :: OnBoard(r, c) ==> mask[r, c] == Marked(b, r, c)
    ensures count == |MarkedCells(b)|
  {
    hide Marked;
    count := 0;
    ghost var seen: set<(int, int)> := {};
    var r := 0;
    while r < SIZE
      invariant r <= SIZE && count == |seen|
      invariant forall i, j :: (i, j) in seen <==> OnBoard(i, j) && mask[i, j] && i < r
    {
      var c := 0;
      while c < SIZE
        invariant c <= SIZE && count == |seen|
        invariant forall i, j :: (i, j) in seen <==> OnBoard(i, j) && mask[i, j] && (i < r || (i == r && j < c))
      {
        if mask[r, c] {
          assert (r, c) !in seen && OnBoard(r, c);
          seen := seen + {(r, c)};
          count := count + 1;
        }
        c := c + 1;
      }
      r := r + 1;
    }
    assert seen == MarkedCells(b) by {
      forall x: (int, int) ensures x in seen <==> x in MarkedCells(b) {
        assert x == (x.0, x.1);
        assert OnBoard(x.0, x.1) ==> mask[x.0, x.1] == Marked(b, x.0, x.1);
      }
    }
  }

  method FindMatch(t: array2<int>) returns (found: bool)
    requires Grid(t)
    ensures found == HasMatch(BoardOf(t))
  {
    var mask, count := MarkMatches(t);
    MatchClearsThree(BoardOf(t));
    found := count > 0;
  }

  method SwapCells(t: array2<int>, r1: nat, c1: nat, r2: nat, c2: nat)
    requires Grid(t) && OnBoard(r1, c1) && OnBoard(r2, c2)
    modifies t
    ensures BoardOf(t) == Swapped(old(BoardOf(t)), r1, c1, r2, c2)
  {
    var tile := t[r1, c1];
    Put(t, r1, c1, t[r2, c2]);
    Put(t, r2, c2, tile);
  }

  /** `match_core_swap`: taken exactly when it earns a match; refused, the board is as it was. */
  method Swap(t: array2<int>, r1: nat, c1: nat, r2: nat, c2: nat) returns (taken: bool)
    requires Grid(t)
    modifies t
    ensures taken <==> Adjacent(r1, c1, r2, c2) && HasMatch(Swapped(old(BoardOf(t)), r1, c1, r2, c2))
    ensures BoardOf(t) == if taken then Swapped(old(BoardOf(t)), r1, c1, r2, c2) else old(BoardOf(t))
  {
    hide HasMatch, Swapped;
    if !Adjacent(r1, c1, r2, c2) { return false; }
    SwapIs(BoardOf(t), r1, c1, r2, c2);
    SwapTwice(BoardOf(t), r1, c1, r2, c2);
    SwapCells(t, r1, c1, r2, c2);
    taken := FindMatch(t);
    if !taken { SwapCells(t, r1, c1, r2, c2); }
  }

  /** Swapping this cell with its right or lower neighbour earns nothing. */
  ghost predicate Tried(b: Board, r: int, c: int)
    requires Shape(b) && OnBoard(r, c)
  {
    && (c + 1 < SIZE ==> !HasMatch(Swapped(b, r, c, r, c + 1)))
    && (r + 1 < SIZE ==> !HasMatch(Swapped(b, r, c, r + 1, c)))
  }

  lemma AllTried(b: Board)
    requires Shape(b) && forall r, c :: OnBoard(r, c) ==> Tried(b, r, c)
    ensures !HasMove(b)
  {
    hide HasMatch, Swapped;
    forall r1, c1, r2, c2 | Adjacent(r1, c1, r2, c2)
      ensures Shape(Swapped(b, r1, c1, r2, c2)) && !HasMatch(Swapped(b, r1, c1, r2, c2))
    {
      SwapIs(b, r1, c1, r2, c2);
      SwapTwice(b, r1, c1, r2, c2);
      assert Tried(b, r1, c1) && Tried(b, r2, c2);
    }
  }

  /** `match_core_has_move`, on a copy of the board. */
  method FindMove(t: array2<int>) returns (found: bool)
    requires Grid(t)
    ensures found == HasMove(BoardOf(t))
  {
    hide HasMatch, Swapped, Tried;
    ghost var b := BoardOf(t);
    var probe := new int[SIZE, SIZE]((i, j) requires 0 <= i < SIZE && 0 <= j < SIZE && Grid(t) reads t => t[i, j]);
    SameBoard(BoardOf(probe), b);
    var r := 0;
    while r < SIZE
      invariant r <= SIZE && BoardOf(probe) == b
      invariant forall i, j :: OnBoard(i, j) && i < r ==> Tried(b, i, j)
    {
      var c := 0;
      while c < SIZE
        invariant c <= SIZE && BoardOf(probe) == b
        invariant forall i, j :: OnBoard(i, j) && (i < r || (i == r && j < c)) ==> Tried(b, i, j)
      {
        var across, down := false, false;
        if c + 1 < SIZE { across := Probe(probe, r, c, r, c + 1); }
        if across {
          assert Adjacent(r, c, r, c + 1);
          return true;
        }
        if r + 1 < SIZE { down := Probe(probe, r, c, r + 1, c); }
        if down {
          assert Adjacent(r, c, r + 1, c);
          return true;
        }
        NowTried(b, r, c);
        c := c + 1;
      }
      r := r + 1;
    }
    AllTried(b);
    found := false;
  }

  lemma NowTried(b: Board, r: int, c: int)
    requires Shape(b) && OnBoard(r, c)
    requires (c + 1 < SIZE ==> !HasMatch(Swapped(b, r, c, r, c + 1))) && (r + 1 < SIZE ==> !HasMatch(Swapped(b, r, c, r + 1, c)))
    ensures Tried(b, r, c)
  {}

  /** Swap, look, and swap back. */
  method Probe(t: array2<int>, r1: nat, c1: nat, r2: nat, c2: nat) returns (hit: bool)
    requires Grid(t) && OnBoard(r1, c1) && OnBoard(r2, c2)
    modifies t
    ensures BoardOf(t) == old(BoardOf(t)) && hit == HasMatch(Swapped(old(BoardOf(t)), r1, c1, r2, c2))
  {
    hide HasMatch, Swapped;
    SwapIs(BoardOf(t), r1, c1, r2, c2);
    SwapTwice(BoardOf(t), r1, c1, r2, c2);
    SwapCells(t, r1, c1, r2, c2);
    hit := FindMatch(t);
    SwapCells(t, r1, c1, r2, c2);
  }

  /** Halfway down: below `write` stand the tiles of the rows below `r`, and above nothing has moved. */
  ghost predicate Dropping(line: seq<int>, col: seq<int>, r: int, write: int) {
    && |col| == |line| && -1 <= r <= write < |line|
    && col[..r + 1] == line[..r + 1] && col[write + 1..] == Solid(line[r + 1..])
  }

  lemma DropStep(line: seq<int>, col: seq<int>, r: nat, write: nat)
    requires Dropping(line, col, r, write)
    ensures r <= write < |col| == |line| && col[r] == line[r]
    ensures if line[r] != EMPTY then Dropping(line, col[write := line[r]], r - 1, write - 1) else Dropping(line, col, r - 1, write)
  {
    hide Solid;
    SolidStep(line, r);
    assert col[..r + 1][r] == line[..r + 1][r];
    assert col[..r] == col[..r + 1][..r] && line[..r] == line[..r + 1][..r];
    if line[r] != EMPTY {
      var next := col[write := line[r]];
      assert next[write..] == [line[r]] + col[write + 1..];
      assert next[..r] == col[..r];
    }
  }

  /** The tiles of a column move down past the holes; above `top` the column is to be refilled. */
  method DropColumn(t: array2<int>, c: nat) returns (top: nat)
    requires Grid(t) && c < SIZE
    modifies t
    ensures var kept := Solid(old(Column(BoardOf(t), c)));
            |kept| + top == SIZE && forall k :: top <= k < SIZE ==> t[k, c] == kept[k - top]
    ensures forall i, j :: OnBoard(i, j) && j != c ==> t[i, j] == old(t[i, j])
  {
    hide Dropping;
    ghost var line := Column(BoardOf(t), c);
    assert forall k :: 0 <= k < SIZE ==> OnBoard(k, c) && line[k] == t[k, c];
    ghost var col := line;
    var write, r := SIZE - 1, SIZE - 1;
    DropStarts(line);
    while r >= 0
      invariant -1 <= r <= write < SIZE && |col| == SIZE && Dropping(line, col, r, write)
      invariant forall k :: 0 <= k < SIZE ==> t[k, c] == col[k]
      invariant forall i, j :: OnBoard(i, j) && j != c ==> t[i, j] == old(t[i, j])
    {
      DropStep(line, col, r, write);
      if t[r, c] != EMPTY {
        t[write, c] := t[r, c];
        col := col[write := line[r]];
        write := write - 1;
      }
      r := r - 1;
    }
    DropEnds(line, col, write);
    top := write + 1;
  }

  lemma DropStarts(line: seq<int>)
    requires line != []
    ensures Dropping(line, line, |line| - 1, |line| - 1)
  {
    assert line[|line|..] == [];
  }

  lemma DropEnds(line: seq<int>, col: seq<int>, write: int)
    requires Dropping(line, col, -1, write)
    ensures -1 <= write < |col| == |line| && col[write + 1..] == Solid(line)
  {
    assert line[0..] == line;
  }

  lemma SolidStep(line: seq<int>, r: nat)
    requires r < |line|
    ensures Solid(line[r..]) == (if line[r] != EMPTY then [line[r]] else []) + Solid(line[r + 1..])
  {
    assert line[r..][0] == line[r] && line[r..][1..] == line[r + 1..];
  }

  lemma SameColumn(a: Board, b: Board, c: nat)
    requires Shape(a) && Shape(b) && c < SIZE && forall r :: 0 <= r < SIZE ==> OnBoard(r, c) && a[r][c] == b[r][c]
    ensures Column(a, c) == Column(b, c)
  {}

  /** The tile completes no run of three with those to its left or above. */
  predicate Clean(b: Board, r: int, c: int)
    requires Shape(b) && OnBoard(r, c)
  {
    && !(c >= 2 && b[r][c - 1] == b[r][c] && b[r][c - 2] == b[r][c])
    && !(r >= 2 && b[r - 1][c] == b[r][c] && b[r - 2][c] == b[r][c])
  }

  /** Where there is a match, the last tile of a run is not clean. */
  lemma CleanHasNoMatch(b: Board)
    requires Shape(b)
    ensures HasMatch(b) ==> exists r, c :: OnBoard(r, c) && !Clean(b, r, c)
  {
    if r, c :| Marked(b, r, c) {
      if InRun(b[r], c) {
        var s :| Window(b[r], s) && s <= c <= s + 2;
        assert OnBoard(r, s + 2) && !Clean(b, r, s + 2);
      } else {
        var s :| Window(Column(b, c), s) && s <= r <= s + 2;
        assert OnBoard(s + 2, c) && !Clean(b, s + 2, c);
      }
    }
  }

  lemma SettledNow(before: Board, after: Board)
    requires Shape(before) && Shape(after)
    requires forall c :: 0 <= c < SIZE ==> Fallen(Column(Cleared(before), c), Column(after, c))
    ensures Settled(before, after)
  {}

  method ClearMarked(t: array2<int>, mask: array2<bool>)
    requires Grid(t) && Grid(mask) && forall r, c :: OnBoard(r, c) ==> mask[r, c] == Marked(BoardOf(t), r, c)
    modifies t
    ensures BoardOf(t) == Cleared(old(BoardOf(t)))
  {
    hide Marked;
    ghost var b := BoardOf(t);
    var r := 0;
    while r < SIZE
      invariant r <= SIZE
      invariant forall i, j :: OnBoard(i, j) ==> t[i, j] == if i < r && mask[i, j] then EMPTY else b[i][j]
    {
      var c := 0;
      while c < SIZE
        invariant c <= SIZE
        invariant forall i, j :: OnBoard(i, j) ==> t[i, j] == if (i < r || (i == r && j < c)) && mask[i, j] then EMPTY else b[i][j]
      {
        if mask[r, c] { t[r, c] := EMPTY; }
        c := c + 1;
      }
      r := r + 1;
    }
    SameBoard(BoardOf(t), Cleared(b));
  }
}
