/** The `java.security.spec` types the parameter table is built from
    (`ECField`, `ECFieldFp`, `EllipticCurve`, `ECPoint`, `ECParameterSpec`),
    with `java.math.BigInteger` values as unbounded integers. */
module ECSpec {
  import opened Wrappers

  /** 2 to the power k. */
  function Pow2(k: nat): (r: nat)
    ensures r >= 1
  {
    if k == 0 then 1 else 2 * Pow2(k - 1)
  }

  lemma {:induction false} Pow2Add(i: nat, j: nat)
    ensures Pow2(i + j) == Pow2(i) * Pow2(j)
  {
    if i > 0 {
      Pow2Add(i - 1, j);
    }
  }

  /** `BigInteger.bitLength()` of a non-negative number: the number of bits of
      its shortest binary representation (0 for zero). */
  function BitLength(n: nat): (r: nat)
  {
    if n == 0 then 0 else 1 + BitLength(n / 2)
  }

  /** A number in [2^(k-1), 2^k) has bit length k. */
  lemma {:induction false} BitLengthBetween(n: nat, k: nat)
    requires 1 <= k
    requires Pow2(k - 1) <= n < Pow2(k)
    ensures BitLength(n) == k
  {
    if k > 1 {
      BitLengthBetween(n / 2, k - 1);
    }
  }

  /** Conversely, a positive number lies in [2^(b-1), 2^b) for its bit length b;
      with `BitLengthBetween`, bit length k holds exactly on that interval. */
  lemma {:induction false} BitLengthBounds(n: nat)
    requires n >= 1
    ensures BitLength(n) >= 1
    ensures Pow2(BitLength(n) - 1) <= n < Pow2(BitLength(n))
  {
    if n >= 2 {
      BitLengthBounds(n / 2);
    }
  }

  /** The field of an elliptic curve. `Fp` is `ECFieldFp`, a prime field given
      by its modulus. `OtherField` is any other `ECField` implementation
      (`ECFieldF2m` or a user class), seen only through the size it reports. */
  datatype Field = Fp(p: nat) | OtherField(size: int)

  /** `ECField.getFieldSize()`: for `ECFieldFp` the bit length of the prime,
      so a positive prime lies in [2^(r-1), 2^r); any other field reports its
      own size. */
  function FieldSize(f: Field): (r: int)
    ensures f.Fp? && f.p >= 1 ==> r >= 1 && Pow2(r - 1) <= f.p < Pow2(r)
    ensures f.OtherField? ==> r == f.size
  {
    match f
    case Fp(p) =>
      if p >= 1 then BitLengthBounds(p); BitLength(p) else BitLength(p)
    case OtherField(size) => size
  }

  /** `ECPoint`: an affine point, or `ECPoint.POINT_INFINITY`. */
  datatype Point = Affine(x: int, y: int) | Infinity

  /** `ECPoint.getAffineX()`: `null` for the point at infinity. */
  function AffineX(g: Point): (r: Option<int>)
  {
    match g
    case Affine(x, _) => Some(x)
    case Infinity => None
  }

  /** `ECPoint.getAffineY()`: `null` for the point at infinity. */
  function AffineY(g: Point): (r: Option<int>)
  {
    match g
    case Affine(_, y) => Some(y)
    case Infinity => None
  }

  /** `EllipticCurve`: y^2 = x^3 + a*x + b over `field`. */
  datatype EllipticCurve = EllipticCurve(field: Field, a: int, b: int)

  /** `ECParameterSpec`: a curve, a generator, the generator's order and the
      cofactor. */
  datatype ParameterSpec = ParameterSpec(curve: EllipticCurve, generator: Point, order: int, cofactor: int)
}
