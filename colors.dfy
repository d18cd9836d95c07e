/** RGB colours of src/colors.rs: plain channel-wise arithmetic over exact
    reals, with exact (epsilon-free) equality. */
module Colors {

  datatype Color = Color(r: real, g: real, b: real)

  /** `Color::black()`, whose definition is not part of this model; its
      value is taken to be all three channels 0. */
  const Black := Color(0.0, 0.0, 0.0)

  /** The three-channel sum of products. */
  function Dot(a: Color, c: Color): (d: real)
    ensures a == c ==> d >= 0.0
  {
    a.r * c.r + a.g * c.g + a.b * c.b
  }

  /** Channel-by-channel exact comparison, as `PartialEq` does. */
  function Equal(a: Color, c: Color): (eq: bool)
    ensures eq <==> a == c
  {
    a.r == c.r && a.g == c.g && a.b == c.b
  }

  function Add(a: Color, c: Color): (s: Color)
    ensures Sub(s, c) == a
  {
    Color(a.r + c.r, a.g + c.g, a.b + c.b)
  }

  function Sub(a: Color, c: Color): (d: Color)
    ensures d == Black <==> a == c
  {
    Color(a.r - c.r, a.g - c.g, a.b - c.b)
  }

  function Neg(a: Color): (n: Color)
    ensures Add(n, a) == Black
  {
    Color(-a.r, -a.g, -a.b)
  }

  /** `s * a` */
  function ScaleLeft(s: real, a: Color): (r: Color)
    ensures s != 0.0 ==> Div(r, s) == a
  {
    Color(s * a.r, s * a.g, s * a.b)
  }

  /** `a * s` */
  function ScaleRight(a: Color, s: real): (r: Color)
    ensures r == ScaleLeft(s, a)
  {
    Color(a.r * s, a.g * s, a.b * s)
  }

  /** `a / s`; division by zero (an infinity or NaN in floats) is excluded. */
  function Div(a: Color, s: real): (r: Color)
    requires s != 0.0
    ensures r.r * s == a.r && r.g * s == a.g && r.b * s == a.b
  {
    Color(a.r / s, a.g / s, a.b / s)
  }

  // ---- Properties ----

  /** Subtraction is the inverse of addition. */
  lemma SubUndoesAdd(a: Color, c: Color)
    ensures Sub(Add(a, c), c) == a
    ensures Add(Sub(a, c), c) == a
  {
  }

  /** a - a and -a + a are black. */
  lemma SelfCancels(a: Color)
    ensures Sub(a, a) == Black
    ensures Add(Neg(a), a) == Black
  {
  }

  /** Subtracting is adding the negation. */
  lemma SubIsAddNeg(a: Color, c: Color)
    ensures Sub(a, c) == Add(a, Neg(c))
  {
  }

  /** Scaling gives the same colour from either side. */
  lemma ScaleCommutes(s: real, a: Color)
    ensures ScaleLeft(s, a) == ScaleRight(a, s)
  {
  }

  /** Dividing by s undoes scaling by s. */
  lemma DivUndoesScale(a: Color, s: real)
    requires s != 0.0
    ensures Div(ScaleRight(a, s), s) == a
  {
  }

  /** The dot product is symmetric, and the dot of a colour with itself is its squared length. */
  lemma DotSymmetric(a: Color, c: Color)
    ensures Dot(a, c) == Dot(c, a)
    ensures Dot(a, a) >= 0.0
  {
  }

  lemma AddExample()
    ensures Add(Color(1.0, 2.0, 3.0), Color(2.0, 3.0, 5.0)) == Color(3.0, 5.0, 8.0)
  {
  }

  lemma SubExample()
    ensures Sub(Color(1.0, 2.0, 3.0), Color(2.0, 3.0, 5.0)) == Color(-1.0, -1.0, -2.0)
  {
  }

  lemma ScaleExample()
    ensures ScaleLeft(3.0, Color(1.0, 2.0, 3.0)) == Color(3.0, 6.0, 9.0)
  {
  }

  lemma DivExample()
    ensures Div(Color(3.0, 6.0, 9.0), 3.0) == Color(1.0, 2.0, 3.0)
  {
  }

  lemma DotExample()
    ensures Dot(Color(1.0, 2.0, 3.0), Color(2.0, 3.0, 4.0)) == 20.0
  {
  }
}
