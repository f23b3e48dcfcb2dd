/** What several modules need: a value or none, and a little arithmetic. */
module Basics {

  datatype Option<+T> = None | Some(value: T)

  function Least(a: nat, b: nat): nat {
    if a <= b then a else b
  }

  function Power(base: nat, n: nat): nat {
    if n == 0 then 1 else base * Power(base, n - 1)
  }

  /** A product, as a function so that a proof does not multiply it out unless it asks. */
  function Times(a: nat, b: nat): nat {
    a * b
  }

  function Product(a: real, b: real): real {
    a * b
  }

  function Larger(x: real, y: real): (r: real)
    ensures r >= x && r >= y && (r == x || r == y)
  {
    if x >= y then x else y
  }

  function Lesser(x: real, y: real): (r: real)
    ensures r <= x && r <= y
  {
    if x <= y then x else y
  }

  /** How far from nought. */
  function Magnitude(x: real): (r: real)
    ensures r >= 0.0 && (r == x || r == 0.0 - x)
  {
    if x < 0.0 then 0.0 - x else x
  }
}
