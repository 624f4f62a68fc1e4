/** The objective the swarm minimises: a fixed quadratic bowl centred at (3, 2). */
module Objective {

  /** The square of a real, as Python's `t**2`. */
  function Square(t: real): (r: real)
    ensures r >= 0.0
  {
    t * t
  }

  /** The objective f(x, y) = (x-3)^2 + (y-2)^2; never negative. */
  function F(x: real, y: real): (v: real)
    ensures v >= 0.0
  {
    Square(x - 3.0) + Square(y - 2.0)
  }

  /** A product of a positive real with itself is positive. */
  lemma ProductPositive(t: real)
    requires t > 0.0
    ensures t * t > 0.0
  {
  }

  /** A square vanishes only at zero. */
  lemma SquareZero(t: real)
    ensures Square(t) == 0.0 <==> t == 0.0
  {
    if t > 0.0 {
      calc {
        0.0;
      < { ProductPositive(t); }
        t * t;
      ==
        Square(t);
      }
    } else if t < 0.0 {
      calc {
        0.0;
      < { ProductPositive(-t); }
        (-t) * (-t);
      ==
        t * t;
      ==
        Square(t);
      }
    }
  }

  /** The bowl's only zero, and hence its unique minimiser, is (3, 2). */
  lemma FZeroExactlyAtCentre(x: real, y: real)
    ensures F(x, y) == 0.0 <==> x == 3.0 && y == 2.0
    ensures F(3.0, 2.0) <= F(x, y)
  {
    SquareZero(x - 3.0);
    SquareZero(y - 2.0);
  }
}
