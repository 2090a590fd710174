/**
 Geometry of a mesh of routers numbered row by row: router `col + row * cols`
 (gem5/configs/topologies/Mesh_westfirst.py, and the x/y decoding in
 gem5/src/mem/ruby/network/garnet2.0/RoutingUnit.cc).

 Products, quotients and remainders by the number of columns are written as
 recursive functions, so that proofs about coordinates stay linear; `Arithmetic`
 says that they are the usual operators.
 */
module Grid {

  datatype Direction = East | West | North | South

  function Times(a: nat, b: nat): nat {
    if a == 0 then 0 else Times(a - 1, b) + b
  }

  function Quotient(r: nat, c: nat): nat
    requires c > 0
  {
    if r < c then 0 else 1 + Quotient(r - c, c)
  }

  function Remainder(r: nat, c: nat): nat
    requires c > 0
  {
    if r < c then r else Remainder(r - c, c)
  }

  lemma {:induction false} TimesIsProduct(a: nat, b: nat)
    ensures Times(a, b) == a * b
  {
    if a > 0 {
      TimesIsProduct(a - 1, b);
    }
  }

  lemma MulMono(a: int, b: int, c: nat)
    requires a <= b
    ensures a * c <= b * c
  {
    assert 0 <= (b - a) * c;
  }

  lemma EuclidUnique(q: int, x: int, q': int, x': int, c: nat)
    requires 0 <= x < c && 0 <= x' < c
    requires q * c + x == q' * c + x'
    ensures q == q' && x == x'
  {
    if q < q' {
      MulMono(q + 1, q', c);
    } else if q' < q {
      MulMono(q' + 1, q, c);
    }
  }

  lemma {:induction false} Euclid(r: nat, c: nat)
    requires c > 0
    ensures Remainder(r, c) < c && r == Remainder(r, c) + Times(Quotient(r, c), c)
  {
    if r >= c {
      Euclid(r - c, c);
    }
  }

  lemma Arithmetic(r: nat, c: nat)
    requires c > 0
    ensures Quotient(r, c) == r / c && Remainder(r, c) == r % c
  {
    Euclid(r, c);
    TimesIsProduct(Quotient(r, c), c);
    EuclidUnique(Quotient(r, c), Remainder(r, c), r / c, r % c, c);
  }

  lemma {:induction false} QuotientOf(q: nat, c: nat, x: nat)
    requires x < c
    ensures Quotient(x + Times(q, c), c) == q && Remainder(x + Times(q, c), c) == x
  {
    if q > 0 {
      QuotientOf(q - 1, c, x);
    }
  }

  lemma {:induction false} TimesMono(a: nat, b: nat, c: nat)
    requires a <= b
    ensures Times(a, c) <= Times(b, c)
  {
    if a < b {
      TimesMono(a, b - 1, c);
    }
  }

  datatype Mesh = Mesh(rows: nat, cols: nat) {
    predicate Valid() {
      rows > 0 && cols > 0
    }

    function Size(): nat {
      Times(rows, cols)
    }

    function Id(row: nat, col: nat): nat {
      col + Times(row, cols)
    }

    function Row(r: nat): nat
      requires Valid()
    {
      Quotient(r, cols)
    }

    function Col(r: nat): nat
      requires Valid()
    {
      Remainder(r, cols)
    }

    /** Router r has a neighbour in direction d. North is towards higher rows. */
    predicate Has(r: nat, d: Direction)
      requires Valid()
    {
      r < Size() &&
      match d
      case East => Col(r) + 1 < cols
      case West => Col(r) > 0
      case North => Row(r) + 1 < rows
      case South => Row(r) > 0
    }

    function Step(r: nat, d: Direction): int
      requires Valid()
    {
      match d
      case East => r + 1
      case West => r - 1
      case North => r + cols
      case South => r - cols
    }
  }

  /** The weights the mesh gives its links: West 1, every other direction 2. */
  function LinkWeight(d: Direction): nat {
    if d == West then 1 else 2
  }

  lemma Decode(m: Mesh, row: nat, col: nat)
    requires m.Valid() && row < m.rows && col < m.cols
    ensures m.Id(row, col) < m.Size()
    ensures m.Row(m.Id(row, col)) == row && m.Col(m.Id(row, col)) == col
  {
    QuotientOf(row, m.cols, col);
    TimesMono(row + 1, m.rows, m.cols);
  }

  lemma Encode(m: Mesh, r: nat)
    requires m.Valid() && r < m.Size()
    ensures m.Row(r) < m.rows && m.Col(r) < m.cols && m.Id(m.Row(r), m.Col(r)) == r
  {
    Euclid(r, m.cols);
    if m.rows <= m.Row(r) {
      TimesMono(m.rows, m.Row(r), m.cols);
    }
  }

  /** Ids are determined by coordinates. */
  lemma SameCoordinates(m: Mesh, a: nat, b: nat)
    requires m.Valid() && a < m.Size() && b < m.Size()
    requires m.Row(a) == m.Row(b) && m.Col(a) == m.Col(b)
    ensures a == b
  {
    Encode(m, a);
    Encode(m, b);
  }

  /** A step moves exactly one coordinate by one and stays on the mesh. */
  lemma StepCoordinates(m: Mesh, r: nat, d: Direction)
    requires m.Valid() && m.Has(r, d)
    ensures 0 <= m.Step(r, d) < m.Size()
    ensures m.Row(m.Step(r, d)) == m.Row(r) + (if d == North then 1 else if d == South then -1 else 0)
    ensures m.Col(m.Step(r, d)) == m.Col(r) + (if d == East then 1 else if d == West then -1 else 0)
  {
    Encode(m, r);
    var row, col := m.Row(r), m.Col(r);
    match d {
      case East => Decode(m, row, col + 1);
      case West => Decode(m, row, col - 1);
      case North => Decode(m, row + 1, col);
      case South => Decode(m, row - 1, col);
    }
  }

  /** Different directions lead to different neighbours. */
  lemma StepsDiffer(m: Mesh, r: nat, d: Direction, e: Direction)
    requires m.Valid() && m.Has(r, d) && m.Has(r, e) && d != e
    ensures m.Step(r, d) != m.Step(r, e)
  {
    StepCoordinates(m, r, d);
    StepCoordinates(m, r, e);
  }
}
