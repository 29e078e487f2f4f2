/** The player entity of the game (game.py, lines 31-56): an id fixed at creation
    and a grid position that moves one cell at a time. */
module Players {

  type Coord = (int, int)

  /** The four direction names that move understands. */
  predicate IsDirection(direction: string) {
    direction == "up" || direction == "down" || direction == "left" || direction == "right"
  }

  /** Where a position ends up after one move in the named direction. Any other
      text leaves it where it is; no grid bound is applied. */
  function Step(c: Coord, direction: string): Coord {
    if direction == "up" then (c.0, c.1 + 1)
    else if direction == "down" then (c.0, c.1 - 1)
    else if direction == "left" then (c.0 - 1, c.1)
    else if direction == "right" then (c.0 + 1, c.1)
    else c
  }

  /** The direction that undoes a move; text that is not a direction is its own opposite. */
  function Opposite(direction: string): (r: string)
    ensures IsDirection(r) <==> IsDirection(direction)
    ensures r != direction <==> IsDirection(direction)
  {
    if direction == "up" then "down"
    else if direction == "down" then "up"
    else if direction == "left" then "right"
    else if direction == "right" then "left"
    else direction
  }

  /** Taking the opposite twice gives back the direction. */
  lemma OppositeInvolutive(direction: string)
    ensures Opposite(Opposite(direction)) == direction
  {
  }

  function Abs(n: int): nat {
    if n < 0 then -n else n
  }

  /** Grid distance between two positions. */
  function Distance(a: Coord, b: Coord): nat {
    Abs(a.0 - b.0) + Abs(a.1 - b.1)
  }

  /** A move covers one cell for a direction name and none otherwise, wherever it starts. */
  lemma StepDistance(c: Coord, direction: string)
    ensures Distance(c, Step(c, direction)) == if IsDirection(direction) then 1 else 0
  {
  }

  /** "up" and "down" change only the second coordinate, "left" and "right" only the first. */
  lemma StepAxis(c: Coord, direction: string)
    ensures direction == "up" || direction == "down" ==> Step(c, direction).0 == c.0
    ensures direction == "left" || direction == "right" ==> Step(c, direction).1 == c.1
    ensures direction == "up" ==> Step(c, direction).1 > c.1
    ensures direction == "down" ==> Step(c, direction).1 < c.1
    ensures direction == "right" ==> Step(c, direction).0 > c.0
    ensures direction == "left" ==> Step(c, direction).0 < c.0
  {
  }

  /** Opposite moves cancel. */
  lemma StepOpposite(c: Coord, direction: string)
    ensures Step(Step(c, direction), Opposite(direction)) == c
  {
  }

  /** Moves are translations, so two of them can be made in either order. */
  lemma StepCommutes(c: Coord, d1: string, d2: string)
    ensures Step(Step(c, d1), d2) == Step(Step(c, d2), d1)
  {
  }

  /** An illustration of what StepAxis and Move already state in full: nothing keeps
      a move inside a grid whose cells are numbered from 1, so a player on the left
      edge moving "left" lands on column 0. */
  lemma StepUnclamped(width: nat, row: int)
    requires width >= 1
    ensures Step((1, row), "left") == (0, row)
    ensures !(1 <= Step((1, row), "left").0 <= width)
  {
  }

  /** The position reached by a series of moves, made first to last. */
  function Walk(c: Coord, path: seq<string>): Coord
    decreases |path|
  {
    if path == [] then c else Walk(Step(c, path[0]), path[1..])
  }

  /** How many entries of the path are exactly the given direction. */
  function Count(path: seq<string>, direction: string): nat
    decreases |path|
  {
    if path == [] then 0 else (if path[0] == direction then 1 else 0) + Count(path[1..], direction)
  }

  /** The path that undoes another: its opposites, last move first. */
  function Retrace(path: seq<string>): (r: seq<string>)
    ensures |r| == |path|
    ensures forall i :: 0 <= i < |path| ==> r[i] == Opposite(path[|path| - 1 - i])
    decreases |path|
  {
    if path == [] then [] else Retrace(path[1..]) + [Opposite(path[0])]
  }

  /** Where a series of moves ends depends only on how many times each direction
      occurs: each "right" adds one column, each "left" takes one away, and so on. */
  lemma {:induction false} WalkDisplacement(c: Coord, path: seq<string>)
    ensures Walk(c, path) == (c.0 + Count(path, "right") - Count(path, "left"),
                              c.1 + Count(path, "up") - Count(path, "down"))
    decreases |path|
  {
    if path != [] {
      WalkDisplacement(Step(c, path[0]), path[1..]);
    }
  }

  lemma {:induction false} WalkAppend(c: Coord, p: seq<string>, q: seq<string>)
    ensures Walk(c, p + q) == Walk(Walk(c, p), q)
    decreases |p|
  {
    if p != [] {
      assert (p + q)[0] == p[0] && (p + q)[1..] == p[1..] + q;
      WalkAppend(Step(c, p[0]), p[1..], q);
    } else {
      assert p + q == q;
    }
  }

  /** Retracing a path brings a player back to where it started. */
  lemma {:induction false} WalkRetrace(c: Coord, path: seq<string>)
    ensures Walk(Walk(c, path), Retrace(path)) == c
    decreases |path|
  {
    if path != [] {
      var d, rest := path[0], path[1..];
      var mid := Step(c, d);
      calc {
        Walk(Walk(c, path), Retrace(path));
        Walk(Walk(mid, rest), Retrace(rest) + [Opposite(d)]);
        { WalkAppend(Walk(mid, rest), Retrace(rest), [Opposite(d)]); }
        Walk(Walk(Walk(mid, rest), Retrace(rest)), [Opposite(d)]);
        { WalkRetrace(mid, rest); }
        Walk(mid, [Opposite(d)]);
        { StepOpposite(c, d); }
        c;
      }
    }
  }

  /** One player: an id fixed at creation and a mutable position. No method
      writes the id, so it is a constant field here. */
  class Player {
    const playerId: int
    var x: int
    var y: int

    constructor (playerId: int, x: int, y: int)
      ensures this.playerId == playerId && this.x == x && this.y == y
    {
      this.playerId := playerId;
      this.x := x;
      this.y := y;
    }

    /** The position as a pair; nothing changes. */
    function Position(): Coord
      reads this
    {
      (x, y)
    }

    /** One step in the named direction; any other text changes nothing. */
    method Move(direction: string)
      modifies this`x, this`y
      ensures Position() == Step(old(Position()), direction)
      ensures direction == "up" ==> x == old(x) && y == old(y) + 1
      ensures direction == "down" ==> x == old(x) && y == old(y) - 1
      ensures direction == "left" ==> x == old(x) - 1 && y == old(y)
      ensures direction == "right" ==> x == old(x) + 1 && y == old(y)
      ensures !IsDirection(direction) ==> x == old(x) && y == old(y)
    {
      if direction == "up" {
        y := y + 1;
      } else if direction == "down" {
        y := y - 1;
      } else if direction == "left" {
        x := x - 1;
      } else if direction == "right" {
        x := x + 1;
      }
    }

    method GetCoords() returns (c: Coord)
      ensures c.0 == x && c.1 == y
    {
      c := (x, y);
    }

    method SetCoords(x: int, y: int)
      modifies this`x, this`y
      ensures this.x == x && this.y == y
    {
      this.x := x;
      this.y := y;
    }
  }

  /** Setting a position and reading it back returns exactly that position. */
  method SetThenGet(p: Player, a: int, b: int) returns (c: Coord)
    modifies p
    ensures c == (a, b) && p.Position() == (a, b)
  {
    p.SetCoords(a, b);
    c := p.GetCoords();
  }

  /** A move followed by the opposite move leaves the player where it was. */
  method MoveAndBack(p: Player, direction: string)
    modifies p
    ensures p.Position() == old(p.Position())
  {
    p.Move(direction);
    p.Move(Opposite(direction));
    StepOpposite(old(p.Position()), direction);
  }
}
