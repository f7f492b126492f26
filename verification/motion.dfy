/** Sub-pixel motion of the player (`Player.move_x` / `move_y`): a fractional
    velocity is collected in a real remainder, rounded with Python 3 `round`
    (half to even), and the rounded amount is walked as unit integer steps. */
module Motion {
  import opened Base
  import opened Helpers

  /** Python 3 `round(r)` with no digits argument: the nearest integer, and
      the even one of the two on an exact tie. */
  function RoundHalfEven(r: real): (n: int)
    ensures -0.5 <= r - n as real <= 0.5
    ensures (r - n as real == 0.5 || r - n as real == -0.5) ==> n % 2 == 0
  {
    var f := r.Floor;
    var d := r - f as real;
    if d < 0.5 then f
    else if d > 0.5 then f + 1
    else if f % 2 == 0 then f
    else f + 1
  }

  /** The two conditions above pin the rounding down: any integer within half
      a unit of `r`, and even on a tie, is `RoundHalfEven(r)`. */
  lemma RoundHalfEvenUnique(r: real, m: int)
    requires -0.5 <= r - m as real <= 0.5
    requires (r - m as real == 0.5 || r - m as real == -0.5) ==> m % 2 == 0
    ensures m == RoundHalfEven(r)
  {
  }

  /** One axis of an actor: its integer rect coordinate and the fractional
      distance still owed to it. */
  datatype Axis = Axis(position: int, remainder: real)

  /** Reference definition of one `move_x` call: the rounded part of the
      collected remainder goes to the position, the rest stays behind. */
  function Step(a: Axis, amount: real): (r: Axis)
    ensures r.position as real + r.remainder == a.position as real + a.remainder + amount
    ensures -0.5 <= r.remainder <= 0.5
  {
    var collected := a.remainder + amount;
    var move := RoundHalfEven(collected);
    if move == 0 then Axis(a.position, collected)
    else Axis(a.position + move, collected - move as real)
  }

  /** `move_x` / `move_y` on one axis, with the unit-step loop of the source.
      `steps` counts the iterations of the loop, the point where a collision
      test would be placed. */
  method MoveAxis(a: Axis, amount: real) returns (r: Axis, steps: nat)
    ensures r == Step(a, amount)
    ensures steps == Abs(RoundHalfEven(a.remainder + amount))
    ensures r.position == a.position + steps * Sign(RoundHalfEven(a.remainder + amount))
    ensures RoundHalfEven(a.remainder + amount) == 0 ==> r == Axis(a.position, a.remainder + amount)
  {
    var remainder := a.remainder + amount;
    var move := RoundHalfEven(remainder);
    ghost var total := move;
    if move == 0 {
      return Axis(a.position, remainder), 0;
    }
    remainder := remainder - move as real;
    var sign := Sign(move);
    var position := a.position;
    steps := 0;
    while move != 0
      invariant position + move == a.position + total
      invariant steps + Abs(move) == Abs(total)
      invariant move == 0 || Sign(move) == sign
      invariant sign == Sign(total)
      decreases Abs(move)
    {
      position := position + sign;
      move := move - sign;
      steps := steps + 1;
    }
    r := Axis(position, remainder);
  }

  /** The player's rect and its per-axis fractional remainders. */
  datatype Body = Body(rect: Rect, remainder: Vec2)

  /** `Player.move_x`: moves the rect horizontally; nothing vertical changes. */
  method MoveX(b: Body, amount: real) returns (r: Body, steps: nat)
    ensures r.rect == b.rect.(x := r.rect.x)
    ensures r.remainder.y == b.remainder.y
    ensures Axis(r.rect.x, r.remainder.x) == Step(Axis(b.rect.x, b.remainder.x), amount)
    ensures steps == Abs(RoundHalfEven(b.remainder.x + amount))
  {
    var axis;
    axis, steps := MoveAxis(Axis(b.rect.x, b.remainder.x), amount);
    r := Body(b.rect.(x := axis.position), b.remainder.(x := axis.remainder));
  }

  /** `Player.move_y`: moves the rect vertically; nothing horizontal changes. */
  method MoveY(b: Body, amount: real) returns (r: Body, steps: nat)
    ensures r.rect == b.rect.(y := r.rect.y)
    ensures r.remainder.x == b.remainder.x
    ensures Axis(r.rect.y, r.remainder.y) == Step(Axis(b.rect.y, b.remainder.y), amount)
    ensures steps == Abs(RoundHalfEven(b.remainder.y + amount))
  {
    var axis;
    axis, steps := MoveAxis(Axis(b.rect.y, b.remainder.y), amount);
    r := Body(b.rect.(y := axis.position), b.remainder.(y := axis.remainder));
  }

  /** Successive `move_x` calls with the given per-tick amounts. */
  function Run(a: Axis, amounts: seq<real>): Axis
    decreases |amounts|
  {
    if |amounts| == 0 then a else Run(Step(a, amounts[0]), amounts[1..])
  }

  function Sum(amounts: seq<real>): real
    decreases |amounts|
  {
    if |amounts| == 0 then 0.0 else amounts[0] + Sum(amounts[1..])
  }

  /** Conservation over any run: position plus remainder grows by exactly the
      sum of the amounts, and the remainder left over is at most half a unit. */
  lemma {:induction false} RunConserves(a: Axis, amounts: seq<real>)
    requires -0.5 <= a.remainder <= 0.5
    ensures Run(a, amounts).position as real + Run(a, amounts).remainder
            == a.position as real + a.remainder + Sum(amounts)
    ensures -0.5 <= Run(a, amounts).remainder <= 0.5
    decreases |amounts|
  {
    if |amounts| > 0 {
      RunConserves(Step(a, amounts[0]), amounts[1..]);
    }
  }

  /** No drift: starting from a zero remainder (as a fresh `Player` does), the
      integer displacement after any run is within half a unit of the exact
      distance, and within one unit of that distance rounded. */
  lemma NoDrift(a: Axis, amounts: seq<real>)
    requires a.remainder == 0.0
    ensures AbsReal((Run(a, amounts).position - a.position) as real - Sum(amounts)) <= 0.5
    ensures Abs(Run(a, amounts).position - a.position - RoundHalfEven(Sum(amounts))) <= 1
  {
    RunConserves(a, amounts);
  }
}
