/**
 Rotations as quaternions and as direction cosine matrices, over the exact real
 numbers and with any function that computes square roots.
 */
module Quaternions {

  datatype Quaternion = Quaternion(w: real, x: real, y: real, z: real)
  {
    function Norm(): real {
      w * w + x * x + y * y + z * z
    }

    function Negated(): Quaternion {
      Quaternion(-w, -x, -y, -z)
    }
  }

  datatype Matrix = Matrix(
    m00: real, m01: real, m02: real, m10: real, m11: real, m12: real, m20: real, m21: real, m22: real)
  {
    function At(i: nat, j: nat): real
      requires i < 3 && j < 3
    {
      if i == 0 then if j == 0 then m00 else if j == 1 then m01 else m02
      else if i == 1 then if j == 0 then m10 else if j == 1 then m11 else m12
      else if j == 0 then m20 else if j == 1 then m21 else m22
    }
  }

  // Named, so that proofs about where numbers go need not multiply and divide.
  function Times(x: real, y: real): real {
    x * y
  }

  function HalfOver(s: real): real
    requires s != 0.0
  {
    0.5 / s
  }

  function Dcm(q: Quaternion): Matrix {
    var a, b, c, d := q.w, q.x, q.y, q.z;
    var aSq, bSq, cSq, dSq := Times(a, a), Times(b, b), Times(c, c), Times(d, d);
    Matrix(
      aSq + bSq - cSq - dSq, 2.0 * (Times(b, c) - Times(a, d)), 2.0 * (Times(a, c) + Times(b, d)),
      2.0 * (Times(b, c) + Times(a, d)), aSq - bSq + cSq - dSq, 2.0 * (Times(c, d) - Times(a, b)),
      2.0 * (Times(b, d) - Times(a, c)), 2.0 * (Times(a, b) + Times(c, d)), aSq - bSq - cSq + dSq)
  }

  ghost predicate Roots(sqrt: real -> real) {
    forall x :: x >= 0.0 ==> sqrt(x) >= 0.0 && sqrt(x) * sqrt(x) == x
  }

  function Trace(m: Matrix): real {
    m.m00 + m.m11 + m.m22
  }

  /** The first index of a largest element of the diagonal. */
  function Largest(m: Matrix): (i: nat)
    ensures i < 3 && m.At(i, i) >= m.At(0, 0) && m.At(i, i) >= m.At(1, 1) && m.At(i, i) >= m.At(2, 2)
  {
    var i := if m.m11 > m.m00 then 1 else 0;
    if m.m22 > m.At(i, i) then 2 else i
  }

  /** What is under the root when diagonal element `i` leads. */
  function Lead(m: Matrix, i: nat): real
    requires i < 3
  {
    m.At(i, i) - m.At((i + 1) % 3, (i + 1) % 3) - m.At((i + 2) % 3, (i + 2) % 3) + 1.0
  }

  /** Whether the conversion of a matrix divides by a root that is not zero. */
  predicate Convertible(m: Matrix, sqrt: real -> real) {
    if Trace(m) > 0.0 then sqrt(Trace(m) + 1.0) != 0.0 else sqrt(Lead(m, Largest(m))) != 0.0
  }

  function FromDcm(m: Matrix, sqrt: real -> real): Quaternion
    requires Convertible(m, sqrt)
  {
    if Trace(m) > 0.0 then
      var s := sqrt(Trace(m) + 1.0);
      var t := HalfOver(s);
      Quaternion(s * 0.5, Times(m.m21 - m.m12, t), Times(m.m02 - m.m20, t), Times(m.m10 - m.m01, t))
    else
      var i := Largest(m);
      var s := sqrt(Lead(m, i));
      var t := HalfOver(s);
      if i == 0 then
        Quaternion(Times(m.m21 - m.m12, t), s * 0.5, Times(m.m01 + m.m10, t), Times(m.m20 + m.m02, t))
      else if i == 1 then
        Quaternion(Times(m.m02 - m.m20, t), Times(m.m10 + m.m01, t), s * 0.5, Times(m.m12 + m.m21, t))
      else
        Quaternion(Times(m.m10 - m.m01, t), Times(m.m20 + m.m02, t), Times(m.m12 + m.m21, t), s * 0.5)
  }

  // ----- In place -----

  ghost function ViewQuaternion(q: array<real>): Quaternion
    requires q.Length == 4
    reads q
  {
    Quaternion(q[0], q[1], q[2], q[3])
  }

  ghost function ViewMatrix(m: array2<real>): Matrix
    requires m.Length0 == 3 && m.Length1 == 3
    reads m
  {
    Matrix(m[0, 0], m[0, 1], m[0, 2], m[1, 0], m[1, 1], m[1, 2], m[2, 0], m[2, 1], m[2, 2])
  }

  /** `mavlink_quaternion_to_dcm` */
  method QuaternionToDcm(quaternion: array<real>, dcm: array2<real>)
    requires quaternion.Length == 4 && dcm.Length0 == 3 && dcm.Length1 == 3
    modifies dcm
    ensures ViewMatrix(dcm) == Dcm(ViewQuaternion(quaternion))
  {
    hide Times;
    var a, b, c, d := quaternion[0], quaternion[1], quaternion[2], quaternion[3];
    var aSq, bSq, cSq, dSq := Times(a, a), Times(b, b), Times(c, c), Times(d, d);
    dcm[0, 0] := aSq + bSq - cSq - dSq;
    dcm[0, 1] := 2.0 * (Times(b, c) - Times(a, d));
    dcm[0, 2] := 2.0 * (Times(a, c) + Times(b, d));
    dcm[1, 0] := 2.0 * (Times(b, c) + Times(a, d));
    dcm[1, 1] := aSq - bSq + cSq - dSq;
    dcm[1, 2] := 2.0 * (Times(c, d) - Times(a, b));
    dcm[2, 0] := 2.0 * (Times(b, d) - Times(a, c));
    dcm[2, 1] := 2.0 * (Times(a, b) + Times(c, d));
    dcm[2, 2] := aSq - bSq - cSq + dSq;
  }

  /** The search for the largest element of the diagonal. */
  method FindLargest(dcm: array2<real>) returns (dcmI: nat)
    requires dcm.Length0 == 3 && dcm.Length1 == 3
    ensures dcmI == Largest(ViewMatrix(dcm))
  {
    dcmI := 0;
    for i := 1 to 3
      invariant dcmI < i
      invariant i == 2 ==> dcmI == if dcm[1, 1] > dcm[0, 0] then 1 else 0
      invariant i == 3 ==> dcmI == Largest(ViewMatrix(dcm))
    {
      if dcm[i, i] > dcm[dcmI, dcmI] {
        dcmI := i;
      }
    }
  }

  /** `mavlink_dcm_to_quaternion` */
  method DcmToQuaternion(dcm: array2<real>, quaternion: array<real>, sqrt: real -> real)
    requires quaternion.Length == 4 && dcm.Length0 == 3 && dcm.Length1 == 3
    requires Convertible(ViewMatrix(dcm), sqrt)
    modifies quaternion
    ensures ViewQuaternion(quaternion) == FromDcm(ViewMatrix(dcm), sqrt)
  {
    hide Times, HalfOver;
    ghost var m := ViewMatrix(dcm);
    var tr := dcm[0, 0] + dcm[1, 1] + dcm[2, 2];
    if tr > 0.0 {
      var s := sqrt(tr + 1.0);
      var t := HalfOver(s);
      quaternion[0] := s * 0.5;
      quaternion[1] := Times(dcm[2, 1] - dcm[1, 2], t);
      quaternion[2] := Times(dcm[0, 2] - dcm[2, 0], t);
      quaternion[3] := Times(dcm[1, 0] - dcm[0, 1], t);
    } else {
      var dcmI := FindLargest(dcm);
      var dcmJ, dcmK := (dcmI + 1) % 3, (dcmI + 2) % 3;
      var s := sqrt(dcm[dcmI, dcmI] - dcm[dcmJ, dcmJ] - dcm[dcmK, dcmK] + 1.0);
      var t := HalfOver(s);
      quaternion[dcmI + 1] := s * 0.5;
      quaternion[dcmJ + 1] := Times(dcm[dcmI, dcmJ] + dcm[dcmJ, dcmI], t);
      quaternion[dcmK + 1] := Times(dcm[dcmK, dcmI] + dcm[dcmI, dcmK], t);
      quaternion[0] := Times(dcm[dcmK, dcmJ] - dcm[dcmJ, dcmK], t);
    }
  }

  // ----- What the matrix does -----

  /** The product of quaternions, with i j = k. */
  function Product(p: Quaternion, q: Quaternion): Quaternion {
    Quaternion(
      Times(p.w, q.w) - Times(p.x, q.x) - Times(p.y, q.y) - Times(p.z, q.z),
      Times(p.w, q.x) + Times(p.x, q.w) + Times(p.y, q.z) - Times(p.z, q.y),
      Times(p.w, q.y) - Times(p.x, q.z) + Times(p.y, q.w) + Times(p.z, q.x),
      Times(p.w, q.z) + Times(p.x, q.y) - Times(p.y, q.x) + Times(p.z, q.w))
  }

  function Conjugate(q: Quaternion): Quaternion {
    Quaternion(q.w, -q.x, -q.y, -q.z)
  }

  /** A vector as a quaternion. */
  function Vector(x: real, y: real, z: real): Quaternion {
    Quaternion(0.0, x, y, z)
  }

  /** Where a quaternion turns a vector. */
  function Turned(q: Quaternion, v: Quaternion): Quaternion {
    Product(Product(q, v), Conjugate(q))
  }

  lemma Units(x: real)
    ensures Times(x, 0.0) == 0.0 && Times(x, 1.0) == x
  {
  }

  lemma Signs(x: real, y: real)
    ensures Times(-x, y) == -Times(x, y) && Times(x, -y) == -Times(x, y) && Times(-x, -y) == Times(x, y)
    ensures Times(-y, x) == -Times(x, y) && Times(y, -x) == -Times(x, y) && Times(-y, -x) == Times(x, y)
    ensures Times(y, x) == Times(x, y)
  {
  }

  lemma AxisProducts(q: Quaternion)
    ensures Product(q, Vector(1.0, 0.0, 0.0)) == Quaternion(-q.x, q.w, q.z, -q.y)
    ensures Product(q, Vector(0.0, 1.0, 0.0)) == Quaternion(-q.y, -q.z, q.w, q.x)
    ensures Product(q, Vector(0.0, 0.0, 1.0)) == Quaternion(-q.z, q.y, -q.x, q.w)
  {
    hide Times;
    Units(q.w);
    Units(q.x);
    Units(q.y);
    Units(q.z);
  }

  /** The columns of the matrix are where the quaternion turns the three axes. */
  lemma Columns(q: Quaternion)
    ensures var m := Dcm(q);
      && Turned(q, Vector(1.0, 0.0, 0.0)) == Vector(m.m00, m.m10, m.m20)
      && Turned(q, Vector(0.0, 1.0, 0.0)) == Vector(m.m01, m.m11, m.m21)
      && Turned(q, Vector(0.0, 0.0, 1.0)) == Vector(m.m02, m.m12, m.m22)
  {
    hide Times;
    AxisProducts(q);
    Signs(q.w, q.w);
    Signs(q.w, q.x);
    Signs(q.w, q.y);
    Signs(q.w, q.z);
    Signs(q.x, q.x);
    Signs(q.x, q.y);
    Signs(q.x, q.z);
    Signs(q.y, q.y);
    Signs(q.y, q.z);
    Signs(q.z, q.z);
  }

  // ----- Round trip -----

  function Signed(p: real, x: real): real {
    if p > 0.0 then x else -x
  }

  lemma SameSquare(s: real, t: real)
    requires s >= 0.0 && t >= 0.0 && s * s == t * t
    ensures s == t
  {
    if s != t {
      assert (s - t) * (s + t) == s * s - t * t;
      NoZeroProduct(s - t, s + t);
    }
  }

  lemma NoZeroProduct(x: real, y: real)
    requires x != 0.0 && y != 0.0
    ensures x * y != 0.0
  {
    assert (x * y) / y == x;
  }

  /** The root of four times a square, and what a product divided by it is. */
  lemma RootOfSquare(s: real, p: real)
    requires s >= 0.0 && s * s == 4.0 * Times(p, p) && p != 0.0
    ensures s == 2.0 * Signed(p, p) && s != 0.0 && s * 0.5 == Signed(p, p)
  {
    var t := 2.0 * Signed(p, p);
    assert t * t == 4.0 * Times(p, p);
    SameSquare(s, t);
  }

  lemma Quotient(s: real, p: real, x: real)
    requires p != 0.0 && s == 2.0 * Signed(p, p)
    ensures s != 0.0 && Times(4.0 * Times(p, x), HalfOver(s)) == Signed(p, x)
  {
    var h := HalfOver(s);
    assert s * h == 0.5;
    var e := Signed(p, 1.0);
    assert s == 2.0 * (e * p) && e * e == 1.0;
    assert p * h == 0.25 * e by {
      assert (2.0 * (e * p)) * h == 0.5;
      assert e * ((2.0 * (e * p)) * h) == 2.0 * ((e * e) * (p * h));
    }
    assert (4.0 * (p * x)) * h == 4.0 * x * (p * h);
    assert 4.0 * x * (p * h) == x * e;
  }

  lemma Commutes(x: real, y: real)
    ensures Times(x, y) == Times(y, x)
  {
  }

  lemma SquareNonnegative(x: real)
    ensures Times(x, x) >= 0.0 && (Times(x, x) > 0.0 ==> x != 0.0)
  {
  }

  /** What each root is taken of, in terms of the quaternion. */
  lemma UnderRoots(q: Quaternion)
    requires q.Norm() == 1.0
    ensures Trace(Dcm(q)) + 1.0 == 4.0 * Times(q.w, q.w)
    ensures Lead(Dcm(q), 0) == 4.0 * Times(q.x, q.x)
    ensures Lead(Dcm(q), 1) == 4.0 * Times(q.y, q.y)
    ensures Lead(Dcm(q), 2) == 4.0 * Times(q.z, q.z)
  {
    assert Times(q.w, q.w) + Times(q.x, q.x) + Times(q.y, q.y) + Times(q.z, q.z) == 1.0;
    hide Times;
  }

  /** The component that the conversion divides by is never zero. */
  lemma Divisors(q: Quaternion)
    requires q.Norm() == 1.0
    ensures Trace(Dcm(q)) > 0.0 ==> q.w != 0.0
    ensures Trace(Dcm(q)) <= 0.0 ==>
              var i := Largest(Dcm(q));
              (i == 0 ==> q.x != 0.0) && (i == 1 ==> q.y != 0.0) && (i == 2 ==> q.z != 0.0)
  {
    UnderRoots(q);
    SquareNonnegative(q.w);
    SquareNonnegative(q.x);
    SquareNonnegative(q.y);
    SquareNonnegative(q.z);
    assert Times(q.w, q.w) + Times(q.x, q.x) + Times(q.y, q.y) + Times(q.z, q.z) == 1.0;
    hide Times;
  }

  function Oriented(p: real, q: Quaternion): Quaternion {
    if p > 0.0 then q else q.Negated()
  }

  /** Converting the matrix of a unit quaternion back divides by no zero and gives the quaternion or its negative. */
  lemma RoundTrip(q: Quaternion, sqrt: real -> real)
    requires q.Norm() == 1.0 && Roots(sqrt)
    ensures Convertible(Dcm(q), sqrt)
    ensures FromDcm(Dcm(q), sqrt) == q || FromDcm(Dcm(q), sqrt) == q.Negated()
  {
    var m := Dcm(q);
    UnderRoots(q);
    Divisors(q);
    var i := Largest(m);
    if Trace(m) > 0.0 {
      BackByTrace(q, sqrt);
    } else if i == 0 {
      BackByX(q, sqrt);
    } else if i == 1 {
      BackByY(q, sqrt);
    } else {
      BackByZ(q, sqrt);
    }
  }

  lemma BackByTrace(q: Quaternion, sqrt: real -> real)
    requires q.Norm() == 1.0 && Roots(sqrt) && Trace(Dcm(q)) > 0.0
    ensures Convertible(Dcm(q), sqrt) && FromDcm(Dcm(q), sqrt) == Oriented(q.w, q)
  {
    UnderRoots(q);
    Divisors(q);
    var s := sqrt(Trace(Dcm(q)) + 1.0);
    RootOfSquare(s, q.w);
    Quotient(s, q.w, q.x);
    Quotient(s, q.w, q.y);
    Quotient(s, q.w, q.z);
    hide Times, HalfOver, Roots;
  }

  lemma BackByX(q: Quaternion, sqrt: real -> real)
    requires q.Norm() == 1.0 && Roots(sqrt) && Trace(Dcm(q)) <= 0.0 && Largest(Dcm(q)) == 0
    ensures Convertible(Dcm(q), sqrt) && FromDcm(Dcm(q), sqrt) == Oriented(q.x, q)
  {
    UnderRoots(q);
    Divisors(q);
    SquareNonnegative(q.x);
    var s := sqrt(Lead(Dcm(q), 0));
    RootOfSquare(s, q.x);
    Quotient(s, q.x, q.w);
    Quotient(s, q.x, q.y);
    Quotient(s, q.x, q.z);
    Commutes(q.x, q.w);
    hide Times, HalfOver, Roots;
  }

  lemma BackByY(q: Quaternion, sqrt: real -> real)
    requires q.Norm() == 1.0 && Roots(sqrt) && Trace(Dcm(q)) <= 0.0 && Largest(Dcm(q)) == 1
    ensures Convertible(Dcm(q), sqrt) && FromDcm(Dcm(q), sqrt) == Oriented(q.y, q)
  {
    UnderRoots(q);
    Divisors(q);
    SquareNonnegative(q.y);
    var s := sqrt(Lead(Dcm(q), 1));
    RootOfSquare(s, q.y);
    Quotient(s, q.y, q.w);
    Quotient(s, q.y, q.x);
    Quotient(s, q.y, q.z);
    Commutes(q.y, q.w);
    Commutes(q.y, q.x);
    hide Times, HalfOver, Roots;
  }

  lemma BackByZ(q: Quaternion, sqrt: real -> real)
    requires q.Norm() == 1.0 && Roots(sqrt) && Trace(Dcm(q)) <= 0.0 && Largest(Dcm(q)) == 2
    ensures Convertible(Dcm(q), sqrt) && FromDcm(Dcm(q), sqrt) == Oriented(q.z, q)
  {
    UnderRoots(q);
    Divisors(q);
    SquareNonnegative(q.z);
    var s := sqrt(Lead(Dcm(q), 2));
    RootOfSquare(s, q.z);
    Quotient(s, q.z, q.w);
    Quotient(s, q.z, q.x);
    Quotient(s, q.z, q.y);
    Commutes(q.z, q.w);
    Commutes(q.z, q.x);
    Commutes(q.z, q.y);
    hide Times, HalfOver, Roots;
  }

  /** A quaternion and its negative are the same rotation, so a rotation comes back unchanged. */
  lemma MatrixRoundTrip(q: Quaternion, sqrt: real -> real)
    requires q.Norm() == 1.0 && Roots(sqrt)
    ensures Convertible(Dcm(q), sqrt) && Dcm(FromDcm(Dcm(q), sqrt)) == Dcm(q)
  {
    RoundTrip(q, sqrt);
    NegatedSame(q);
  }

  lemma NegatedSame(q: Quaternion)
    ensures Dcm(q.Negated()) == Dcm(q)
  {
    forall x, y ensures Times(-x, -y) == Times(x, y) {}
    hide Times;
  }
}
