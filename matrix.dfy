/** The matrix type of src/matrix.rs over exact reals.

    `M::new` is modelled as written (it checks only that there is a first
    row and that it is non-empty) and, beside it, as its comment says it
    should be (every row of the same length).

    Multiplication, transposition, the identity and the inverse are used by
    the transforms, the ray and the sphere but their code is not part of
    this model; they are defined here by the usual row-by-column rules, and
    the inverse is characterised by the predicate IsInverse. */
module Matrix {
  import opened Vectors

  datatype M = M(data: seq<seq<real>>, rows: nat, columns: nat)

  datatype Result<T> = Ok(value: T) | Err(message: string)

  const EmptyMatrix := "Cant have empty matrix!"

  /** A matrix whose recorded sizes describe its data: at least one row,
      at least one column, and every row as long as `columns`. */
  predicate Rectangular(m: M)
  {
    && m.rows == |m.data| && m.rows >= 1 && m.columns >= 1
    && forall i :: 0 <= i < |m.data| ==> |m.data[i]| == m.columns
  }

  predicate Is4x4(m: M)
  {
    Rectangular(m) && m.rows == 4 && m.columns == 4
  }

  /** `M::new` as written: an error when there is no row or when the first
      row is empty; otherwise the data is stored as given, with `rows` the
      number of rows and `columns` the length of the FIRST row. */
  function New(data: seq<seq<real>>): (r: Result<M>)
    ensures r.Err? <==> |data| == 0 || |data[0]| == 0
    ensures r.Err? ==> r.message == EmptyMatrix
    ensures r.Ok? ==> r.value.data == data && r.value.rows == |data| && r.value.columns == |data[0]|
    ensures r.Ok? ==> r.value.rows >= 1 && r.value.columns >= 1
  {
    var rows := |data|;
    if rows < 1 then Err(EmptyMatrix)
    else
      var columns := |data[0]|;
      if columns < 1 then Err(EmptyMatrix)
      else Ok(M(data, rows, columns))
  }

  /** `M::new` as its comment intends: it also rejects rows whose length
      differs from the first row's, so every matrix it builds is rectangular. */
  function NewChecked(data: seq<seq<real>>): (r: Result<M>)
    ensures r.Ok? <==> |data| >= 1 && |data[0]| >= 1 && forall i :: 0 <= i < |data| ==> |data[i]| == |data[0]|
    ensures r.Ok? ==> Rectangular(r.value) && r.value.data == data
  {
    match New(data)
    case Err(e) => Err(e)
    case Ok(m) =>
      if forall i :: 0 <= i < |data| ==> |data[i]| == m.columns then Ok(m)
      else Err("rows of different lengths")
  }

  /** The two constructors agree on rectangular data, so code that only ever
      passes rectangular data sees no difference. */
  lemma NewCheckedAgrees(data: seq<seq<real>>)
    requires |data| >= 1 && forall i :: 0 <= i < |data| ==> |data[i]| == |data[0]|
    ensures NewChecked(data) == New(data)
  {
  }

  /** As written, `M::new` accepts a ragged matrix and one larger than 4x4. */
  lemma NewAcceptsRagged()
    ensures New([[1.0, 2.0], [3.0]]).Ok?
    ensures NewChecked([[1.0, 2.0], [3.0]]).Err?
    ensures !Rectangular(New([[1.0, 2.0], [3.0]]).value)
  {
    var data := [[1.0, 2.0], [3.0]];
    assert |data[1]| != |data[0]|;
  }

  lemma NewAcceptsLarge()
    ensures New(seq(5, i => seq(5, j => 0.0))).Ok?
    ensures New(seq(5, i => seq(5, j => 0.0))).value.rows == 5
  {
  }

  // ---- Row-by-column arithmetic ----

  /** The sum of the products of corresponding entries. */
  function RowDot(u: seq<real>, v: seq<real>): real
    requires |u| == |v|
  {
    if |u| == 0 then 0.0 else u[0] * v[0] + RowDot(u[1..], v[1..])
  }

  function Column(m: M, j: nat): (c: seq<real>)
    requires Rectangular(m) && j < m.columns
    ensures |c| == m.rows && forall i :: 0 <= i < m.rows ==> c[i] == m.data[i][j]
  {
    seq(m.rows, i requires 0 <= i < m.rows => m.data[i][j])
  }

  function Identity(n: nat): (id: M)
    requires n >= 1
    ensures Rectangular(id) && id.rows == n && id.columns == n
  {
    M(seq(n, i => seq(n, j => if i == j then 1.0 else 0.0)), n, n)
  }

  /** Matrix product: entry (i, j) is row i of `a` against column j of `b`. */
  function Mul(a: M, b: M): (c: M)
    requires Rectangular(a) && Rectangular(b) && a.columns == b.rows
    ensures Rectangular(c) && c.rows == a.rows && c.columns == b.columns
  {
    M(seq(a.rows, i requires 0 <= i < a.rows =>
        seq(b.columns, j requires 0 <= j < b.columns => RowDot(a.data[i], Column(b, j)))),
      a.rows, b.columns)
  }

  function Transpose(m: M): (t: M)
    requires Rectangular(m)
    ensures Rectangular(t) && t.rows == m.columns && t.columns == m.rows
  {
    M(seq(m.columns, i requires 0 <= i < m.columns => Column(m, i)), m.columns, m.rows)
  }

  /** The tuple as a column of four entries. */
  function AsColumn(t: Tuple): seq<real>
  {
    [t.x, t.y, t.z, t.w]
  }

  /** Matrix times tuple: the tuple as a 4x1 column, multiplied and unpacked. */
  function MulTuple(m: M, t: Tuple): Tuple
    requires Is4x4(m)
  {
    Tuple(RowDot(m.data[0], AsColumn(t)), RowDot(m.data[1], AsColumn(t)),
          RowDot(m.data[2], AsColumn(t)), RowDot(m.data[3], AsColumn(t)))
  }

  /** A matrix whose last row is (0, 0, 0, 1), as every transform factory builds. */
  predicate Affine(m: M)
    requires Is4x4(m)
  {
    m.data[3] == [0.0, 0.0, 0.0, 1.0]
  }

  /** The inverse of the matrix library, characterised by what it is:
      both products with `m` are the 4x4 identity. */
  predicate IsInverse(m: M, inv: M)
  {
    Is4x4(m) && Is4x4(inv) && Mul(m, inv) == Identity(4) && Mul(inv, m) == Identity(4)
  }

  ghost predicate Invertible(m: M)
  {
    exists inv :: IsInverse(m, inv)
  }

  // ---- Properties ----

  lemma {:induction false} RowDot4(u: seq<real>, v: seq<real>)
    requires |u| == 4 && |v| == 4
    ensures RowDot(u, v) == u[0] * v[0] + u[1] * v[1] + u[2] * v[2] + u[3] * v[3]
  {
    assert u[1..][1..] == u[2..] && v[1..][1..] == v[2..];
    assert u[2..][1..] == u[3..] && v[2..][1..] == v[3..];
    assert u[3..][1..] == u[4..] && v[3..][1..] == v[4..];
    var d4 := RowDot(u[4..], v[4..]);
    var d3 := RowDot(u[3..], v[3..]);
    var d2 := RowDot(u[2..], v[2..]);
    var d1 := RowDot(u[1..], v[1..]);
    assert d4 == 0.0;
    assert d3 == u[3] * v[3] + d4;
    assert d2 == u[2] * v[2] + d3;
    assert d1 == u[1] * v[1] + d2;
    assert RowDot(u, v) == u[0] * v[0] + d1;
  }

  lemma {:induction false} RowDotSymmetric(u: seq<real>, v: seq<real>)
    requires |u| == |v|
    ensures RowDot(u, v) == RowDot(v, u)
  {
    if |u| > 0 {
      RowDotSymmetric(u[1..], v[1..]);
    }
  }

  /** Dotting with the j-th unit row picks entry j. */
  lemma {:induction false} RowDotUnit(u: seq<real>, e: seq<real>, j: nat)
    requires |u| == |e| && j < |u|
    requires forall k :: 0 <= k < |e| ==> e[k] == if k == j then 1.0 else 0.0
    ensures RowDot(u, e) == u[j]
  {
    if j == 0 {
      RowDotZero(u[1..], e[1..]);
    } else {
      RowDotUnit(u[1..], e[1..], j - 1);
    }
  }

  lemma {:induction false} RowDotZero(u: seq<real>, z: seq<real>)
    requires |u| == |z| && forall k :: 0 <= k < |z| ==> z[k] == 0.0
    ensures RowDot(u, z) == 0.0
  {
    if |u| > 0 {
      RowDotZero(u[1..], z[1..]);
    }
  }

  /** The identity is neutral on the right. */
  lemma MulIdentityRight(m: M)
    requires Rectangular(m)
    ensures Mul(m, Identity(m.columns)) == m
  {
    var p := Mul(m, Identity(m.columns));
    forall i, j | 0 <= i < m.rows && 0 <= j < m.columns
      ensures p.data[i][j] == m.data[i][j]
    {
      RowDotUnit(m.data[i], Column(Identity(m.columns), j), j);
    }
    EqualEntries(p, m);
  }

  /** Two rectangular matrices of the same shape with the same entries are equal. */
  lemma EqualEntries(a: M, b: M)
    requires Rectangular(a) && Rectangular(b) && a.rows == b.rows && a.columns == b.columns
    requires forall i, j :: 0 <= i < a.rows && 0 <= j < a.columns ==> a.data[i][j] == b.data[i][j]
    ensures a == b
  {
    forall i | 0 <= i < a.rows
      ensures a.data[i] == b.data[i]
    {
      assert forall j :: 0 <= j < a.columns ==> a.data[i][j] == b.data[i][j];
    }
  }

  /** Transposition turns a product around. */
  lemma TransposeOfProduct(a: M, b: M)
    requires Rectangular(a) && Rectangular(b) && a.columns == b.rows
    ensures Transpose(Mul(a, b)) == Mul(Transpose(b), Transpose(a))
  {
    var l, r := Transpose(Mul(a, b)), Mul(Transpose(b), Transpose(a));
    forall i, j | 0 <= i < l.rows && 0 <= j < l.columns
      ensures l.data[i][j] == r.data[i][j]
    {
      assert Transpose(b).data[i] == Column(b, i);
      assert Column(Transpose(a), j) == a.data[j];
      RowDotSymmetric(a.data[j], Column(b, i));
    }
    EqualEntries(l, r);
  }

  lemma TransposeIdentity(n: nat)
    requires n >= 1
    ensures Transpose(Identity(n)) == Identity(n)
  {
    EqualEntries(Transpose(Identity(n)), Identity(n));
  }

  /** Entry-wise form of the product of two 4x4 matrices. */
  lemma MulEntry4(a: M, b: M, i: nat, j: nat)
    requires Is4x4(a) && Is4x4(b) && i < 4 && j < 4
    ensures Mul(a, b).data[i][j]
         == a.data[i][0] * b.data[0][j] + a.data[i][1] * b.data[1][j]
          + a.data[i][2] * b.data[2][j] + a.data[i][3] * b.data[3][j]
  {
    RowDot4(a.data[i], Column(b, j));
  }

  /** Component-wise form of a matrix applied to a tuple. */
  lemma MulTupleEntries(m: M, t: Tuple)
    requires Is4x4(m)
    ensures MulTuple(m, t).x == m.data[0][0] * t.x + m.data[0][1] * t.y + m.data[0][2] * t.z + m.data[0][3] * t.w
    ensures MulTuple(m, t).y == m.data[1][0] * t.x + m.data[1][1] * t.y + m.data[1][2] * t.z + m.data[1][3] * t.w
    ensures MulTuple(m, t).z == m.data[2][0] * t.x + m.data[2][1] * t.y + m.data[2][2] * t.z + m.data[2][3] * t.w
    ensures MulTuple(m, t).w == m.data[3][0] * t.x + m.data[3][1] * t.y + m.data[3][2] * t.z + m.data[3][3] * t.w
  {
    RowDot4(m.data[0], AsColumn(t));
    RowDot4(m.data[1], AsColumn(t));
    RowDot4(m.data[2], AsColumn(t));
    RowDot4(m.data[3], AsColumn(t));
  }

  /** The tuple o + t d, component by component (w included). */
  function Combine(o: Tuple, d: Tuple, t: real): Tuple
  {
    Tuple(o.x + t * d.x, o.y + t * d.y, o.z + t * d.z, o.w + t * d.w)
  }

  lemma Distribute4(u0: real, u1: real, u2: real, u3: real,
                    a0: real, a1: real, a2: real, a3: real,
                    b0: real, b1: real, b2: real, b3: real, t: real)
    ensures u0 * (a0 + t * b0) + u1 * (a1 + t * b1) + u2 * (a2 + t * b2) + u3 * (a3 + t * b3)
         == (u0 * a0 + u1 * a1 + u2 * a2 + u3 * a3) + t * (u0 * b0 + u1 * b1 + u2 * b2 + u3 * b3)
  {
  }

  /** A row dotted with o + t d is the row dotted with o plus t times the
      row dotted with d. */
  lemma RowLinear(u: seq<real>, o: Tuple, d: Tuple, t: real)
    requires |u| == 4
    ensures RowDot(u, AsColumn(Combine(o, d, t))) == RowDot(u, AsColumn(o)) + t * RowDot(u, AsColumn(d))
  {
    RowDot4(u, AsColumn(Combine(o, d, t)));
    RowDot4(u, AsColumn(o));
    RowDot4(u, AsColumn(d));
    Distribute4(u[0], u[1], u[2], u[3], o.x, o.y, o.z, o.w, d.x, d.y, d.z, d.w, t);
  }

  /** Applying a matrix is linear: it carries o + t d to m o + t (m d). */
  lemma MulTupleLinear(m: M, o: Tuple, d: Tuple, t: real)
    requires Is4x4(m)
    ensures MulTuple(m, Combine(o, d, t)) == Combine(MulTuple(m, o), MulTuple(m, d), t)
  {
    var p, q, e := MulTuple(m, Combine(o, d, t)), MulTuple(m, o), MulTuple(m, d);
    assert p.x == q.x + t * e.x by { RowLinear(m.data[0], o, d, t); }
    assert p.y == q.y + t * e.y by { RowLinear(m.data[1], o, d, t); }
    assert p.z == q.z + t * e.z by { RowLinear(m.data[2], o, d, t); }
    assert p.w == q.w + t * e.w by { RowLinear(m.data[3], o, d, t); }
  }

  /** An affine matrix keeps a tuple's w, so it maps points to points and
      vectors to vectors. */
  lemma AffineKeepsW(m: M, t: Tuple)
    requires Is4x4(m) && Affine(m)
    ensures MulTuple(m, t).w == t.w
  {
    MulTupleEntries(m, t);
  }

  lemma MulTupleIdentity(t: Tuple)
    ensures MulTuple(Identity(4), t) == t
  {
    MulTupleEntries(Identity(4), t);
  }

  /** Summing a product over the column index first or over the row index
      first gives the same value (the scalar core of associativity). */
  lemma SumOrder(a0: real, a1: real, a2: real, a3: real,
                 b00: real, b01: real, b02: real, b03: real,
                 b10: real, b11: real, b12: real, b13: real,
                 b20: real, b21: real, b22: real, b23: real,
                 b30: real, b31: real, b32: real, b33: real,
                 t0: real, t1: real, t2: real, t3: real)
    ensures (a0 * b00 + a1 * b10 + a2 * b20 + a3 * b30) * t0
          + (a0 * b01 + a1 * b11 + a2 * b21 + a3 * b31) * t1
          + (a0 * b02 + a1 * b12 + a2 * b22 + a3 * b32) * t2
          + (a0 * b03 + a1 * b13 + a2 * b23 + a3 * b33) * t3
         == a0 * (b00 * t0 + b01 * t1 + b02 * t2 + b03 * t3)
          + a1 * (b10 * t0 + b11 * t1 + b12 * t2 + b13 * t3)
          + a2 * (b20 * t0 + b21 * t1 + b22 * t2 + b23 * t3)
          + a3 * (b30 * t0 + b31 * t1 + b32 * t2 + b33 * t3)
  {
  }

  /** Row i of a product applied to a tuple equals row i of the left factor
      applied to the right factor's image of the tuple. */
  lemma ComposeRow(a: M, b: M, t: Tuple, i: nat)
    requires Is4x4(a) && Is4x4(b) && i < 4
    ensures RowDot(Mul(a, b).data[i], AsColumn(t)) == RowDot(a.data[i], AsColumn(MulTuple(b, t)))
  {
    var ab, bt := Mul(a, b), MulTuple(b, t);
    RowDot4(ab.data[i], AsColumn(t));
    RowDot4(a.data[i], AsColumn(bt));
    MulTupleEntries(b, t);
    MulEntry4(a, b, i, 0);
    MulEntry4(a, b, i, 1);
    MulEntry4(a, b, i, 2);
    MulEntry4(a, b, i, 3);
    var r, B := a.data[i], b.data;
    SumOrder(r[0], r[1], r[2], r[3],
             B[0][0], B[0][1], B[0][2], B[0][3], B[1][0], B[1][1], B[1][2], B[1][3],
             B[2][0], B[2][1], B[2][2], B[2][3], B[3][0], B[3][1], B[3][2], B[3][3],
             t.x, t.y, t.z, t.w);
  }

  /** Applying a product is applying its factors one at a time, the
      right-hand factor first. */
  lemma MulTupleCompose(a: M, b: M, t: Tuple)
    requires Is4x4(a) && Is4x4(b)
    ensures MulTuple(Mul(a, b), t) == MulTuple(a, MulTuple(b, t))
  {
    ComposeRow(a, b, t, 0);
    ComposeRow(a, b, t, 1);
    ComposeRow(a, b, t, 2);
    ComposeRow(a, b, t, 3);
  }

  /** The inverse undoes the matrix on every tuple, from either side. */
  lemma InverseUndoes(m: M, inv: M, t: Tuple)
    requires IsInverse(m, inv)
    ensures MulTuple(inv, MulTuple(m, t)) == t
    ensures MulTuple(m, MulTuple(inv, t)) == t
  {
    MulTupleCompose(inv, m, t);
    MulTupleCompose(m, inv, t);
    MulTupleIdentity(t);
  }

  function Basis(j: nat): Tuple
    requires j < 4
  {
    Tuple(if j == 0 then 1.0 else 0.0, if j == 1 then 1.0 else 0.0,
          if j == 2 then 1.0 else 0.0, if j == 3 then 1.0 else 0.0)
  }

  /** Applying a matrix to the j-th basis tuple reads off its column j. */
  lemma MulTupleBasis(m: M, j: nat)
    requires Is4x4(m) && j < 4
    ensures MulTuple(m, Basis(j)) == Tuple(m.data[0][j], m.data[1][j], m.data[2][j], m.data[3][j])
  {
    MulTupleEntries(m, Basis(j));
  }

  /** The inverse of a matrix with last row (0, 0, 0, 1) has that last row too. */
  lemma AffineInverse(m: M, inv: M)
    requires IsInverse(m, inv) && Affine(m)
    ensures Affine(inv)
  {
    forall j | 0 <= j < 4
      ensures inv.data[3][j] == Basis(j).w
    {
      InverseUndoes(m, inv, Basis(j));
      MulTupleBasis(inv, j);
      AffineKeepsW(m, MulTuple(inv, Basis(j)));
    }
    assert inv.data[3] == [0.0, 0.0, 0.0, 1.0];
  }

  /** A matrix has at most one inverse, so IsInverse pins the inverse down. */
  lemma InverseUnique(m: M, a: M, b: M)
    requires IsInverse(m, a) && IsInverse(m, b)
    ensures a == b
  {
    forall i, j | 0 <= i < 4 && 0 <= j < 4
      ensures a.data[i][j] == b.data[i][j]
    {
      var e := Basis(j);
      InverseUndoes(m, a, MulTuple(b, e));
      MulTupleCompose(a, m, MulTuple(b, e));
      MulTupleCompose(m, b, e);
      MulTupleIdentity(e);
      assert MulTuple(a, e) == MulTuple(b, e) by {
        calc {
          MulTuple(a, e);
          MulTuple(a, MulTuple(Mul(m, b), e));
          MulTuple(a, MulTuple(m, MulTuple(b, e)));
          MulTuple(Mul(a, m), MulTuple(b, e));
          MulTuple(Identity(4), MulTuple(b, e));
        }
        MulTupleIdentity(MulTuple(b, e));
      }
      MulTupleBasis(a, j);
      MulTupleBasis(b, j);
    }
    EqualEntries(a, b);
  }

  /** A 4x4 matrix that fixes every basis tuple is the identity. */
  lemma ActsAsIdentity(p: M)
    requires Is4x4(p)
    requires forall j :: 0 <= j < 4 ==> MulTuple(p, Basis(j)) == Basis(j)
    ensures p == Identity(4)
  {
    forall i, j | 0 <= i < 4 && 0 <= j < 4
      ensures p.data[i][j] == Identity(4).data[i][j]
    {
      MulTupleBasis(p, j);
    }
    EqualEntries(p, Identity(4));
  }

  /** Two 4x4 matrices undo each other when each undoes the other on the basis. */
  lemma InverseByAction(m: M, inv: M)
    requires Is4x4(m) && Is4x4(inv)
    requires forall j :: 0 <= j < 4 ==> MulTuple(m, MulTuple(inv, Basis(j))) == Basis(j)
    requires forall j :: 0 <= j < 4 ==> MulTuple(inv, MulTuple(m, Basis(j))) == Basis(j)
    ensures IsInverse(m, inv)
  {
    forall j | 0 <= j < 4
      ensures MulTuple(Mul(m, inv), Basis(j)) == Basis(j)
      ensures MulTuple(Mul(inv, m), Basis(j)) == Basis(j)
    {
      MulTupleCompose(m, inv, Basis(j));
      MulTupleCompose(inv, m, Basis(j));
    }
    ActsAsIdentity(Mul(m, inv));
    ActsAsIdentity(Mul(inv, m));
  }

  /** The transpose of the inverse is the inverse of the transpose. */
  lemma InverseTranspose(m: M, inv: M)
    requires IsInverse(m, inv)
    ensures IsInverse(Transpose(m), Transpose(inv))
  {
    TransposeOfProduct(m, inv);
    TransposeOfProduct(inv, m);
    TransposeIdentity(4);
  }

  /** The identity is its own inverse. */
  lemma IdentityInverse()
    ensures IsInverse(Identity(4), Identity(4))
  {
    MulIdentityRight(Identity(4));
  }
}
