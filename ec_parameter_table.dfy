/** The elliptic curve parameter table of the JOSE library: the domain
    parameters of the JWK curves P-256, P-384 and P-521 (NIST FIPS 186-4,
    appendix D.1.2.3 to D.1.2.5; secp256r1, secp384r1 and secp521r1 of SEC 2),
    with a forward lookup (curve to parameters) and a reverse lookup
    (parameters to curve). */
module ECParameterTable {
  import opened Wrappers
  import opened ECKey
  import opened ECSpec

  /** The parameter spec of P-256. */
  const P256Spec: ParameterSpec := ParameterSpec(
    EllipticCurve(
      Fp(115792089210356248762697446949407573530086143415290314195533631308867097853951),
      115792089210356248762697446949407573530086143415290314195533631308867097853948,
      41058363725152142129326129780047268409114441015993725554835256314039467401291),
    Affine(
      48439561293906451759052585252797914202762949526041747995844080717082404635286,
      36134250956749795798585127919587881956611106672985015071877198253568414405109),
    115792089210356248762697446949407573529996955224135760342422259061068512044369,
    1)

  /** The parameter spec of P-384. */
  const P384Spec: ParameterSpec := ParameterSpec(
    EllipticCurve(
      Fp(39402006196394479212279040100143613805079739270465446667948293404245721771496870329047266088258938001861606973112319),
      39402006196394479212279040100143613805079739270465446667948293404245721771496870329047266088258938001861606973112316,
      27580193559959705877849011840389048093056905856361568521428707301988689241309860865136260764883745107765439761230575),
    Affine(
      26247035095799689268623156744566981891852923491109213387815615900925518854738050089022388053975719786650872476732087,
      8325710961489029985546751289520108179287853048861315594709205902480503199884419224438643760392947333078086511627871),
    39402006196394479212279040100143613805079739270465446667946905279627659399113263569398956308152294913554433653942643,
    1)

  /** The parameter spec of P-521. */
  const P521Spec: ParameterSpec := ParameterSpec(
    EllipticCurve(
      Fp(6864797660130609714981900799081393217269435300143305409394463459185543183397656052122559640661454554977296311391480858037121987999716643812574028291115057151),
      6864797660130609714981900799081393217269435300143305409394463459185543183397656052122559640661454554977296311391480858037121987999716643812574028291115057148,
      1093849038073734274511112390766805569936207598951683748994586394495953116150735016013708737573759623248592132296706313309438452531591012912142327488478985984),
    Affine(
      2661740802050217063228768716723360960729859168756973147706671368418802944996427808491545080627771902352094241225065558662157113545570916814161637315895999846,
      3757180025770020463545507224491183603594455134769762486694567779615544477440556316691234405012945539562144444537289428522585666729196580810124344277578376784),
    6864797660130609714981900799081393217269435300143305409394463459185543183397655394245057746333217197532963996371363321113864768612440380340372808892707005449,
    1)

  /** The table in the order the reverse lookup tries it. */
  const Table: seq<(Curve, ParameterSpec)> := [(P256, P256Spec), (P384, P384Spec), (P521, P521Spec)]

  // ---------------------------------------------------------------------------
  // Forward lookup

  /** `get(ECKey.Curve)`: the parameter spec of a curve; `null` for a `null`
      curve or a curve without an entry. */
  function GetSpec(curve: Option<Curve>): (r: Option<ParameterSpec>)
    ensures curve.None? || curve.value.Other? ==> r.None?
    ensures curve.Some? && !curve.value.Other? ==> r.Some?
    ensures r.Some? ==> (curve.value, r.value) in Table
  {
    if curve.Some? && curve.value == P256 then Some(P256Spec)
    else if curve.Some? && curve.value == P384 then Some(P384Spec)
    else if curve.Some? && curve.value == P521 then Some(P521Spec)
    else None
  }

  // ---------------------------------------------------------------------------
  // Reverse lookup

  /** The field size, a and b of `spec` equal those of `entry`: the operands
      Java evaluates before it reaches the generator. */
  predicate SameCurve(spec: ParameterSpec, entry: ParameterSpec)
  {
    && FieldSize(spec.curve.field) == FieldSize(entry.curve.field)
    && spec.curve.a == entry.curve.a
    && spec.curve.b == entry.curve.b
  }

  /** The comparison of one candidate against a table entry: field size, a, b,
      generator x, generator y, order and cofactor must all be equal. The prime
      of a prime field is not compared, only its bit length. */
  predicate Matches(spec: ParameterSpec, entry: ParameterSpec)
  {
    && SameCurve(spec, entry)
    && AffineX(spec.generator) == AffineX(entry.generator)
    && AffineY(spec.generator) == AffineY(entry.generator)
    && spec.order == entry.order
    && spec.cofactor == entry.cofactor
  }

  /** `get(ECParameterSpec)`: the first curve, in the order P-256, P-384, P-521,
      whose entry matches the spec; `null` for a `null` spec or when no entry
      matches. A spec whose generator is the point at infinity matches nothing
      (see `GetCurveAsWritten` for what the Java code does with it). */
  function GetCurve(spec: Option<ParameterSpec>): (r: Option<Curve>)
    ensures spec.None? ==> r.None?
    ensures r.Some? ==> exists e :: (r.value, e) in Table && Matches(spec.value, e)
    ensures r.None? && spec.Some? ==> forall i :: 0 <= i < |Table| ==> !Matches(spec.value, Table[i].1)
  {
    if spec.None? then None
    else if Matches(spec.value, P256Spec) then Some(P256)
    else if Matches(spec.value, P384Spec) then Some(P384)
    else if Matches(spec.value, P521Spec) then Some(P521)
    else None
  }

  /** Reference definition of the reverse lookup: a scan of `table` that
      returns the curve of the first matching entry. */
  function FirstMatch(table: seq<(Curve, ParameterSpec)>, spec: ParameterSpec): (r: Option<Curve>)
  {
    if table == [] then None
    else if Matches(spec, table[0].1) then Some(table[0].0)
    else FirstMatch(table[1..], spec)
  }

  lemma GetCurveIsFirstMatch(spec: ParameterSpec)
    ensures GetCurve(Some(spec)) == FirstMatch(Table, spec)
  {
    var rest := [(P384, P384Spec), (P521, P521Spec)];
    var last := [(P521, P521Spec)];
    assert Table[1..] == rest && rest[1..] == last && last[1..] == [];
    assert FirstMatch(last, spec) == if Matches(spec, P521Spec) then Some(P521) else None;
    assert FirstMatch(rest, spec) == if Matches(spec, P384Spec) then Some(P384) else FirstMatch(last, spec);
  }

  // ---------------------------------------------------------------------------
  // Facts about the table

  /** Powers of two up to 2^256. */
  lemma PowersOfTwoUpTo256()
    ensures Pow2(32) == 4294967296
    ensures Pow2(64) == 18446744073709551616
    ensures Pow2(96) == 79228162514264337593543950336
    ensures Pow2(128) == 340282366920938463463374607431768211456
    ensures Pow2(192) == 6277101735386680763835789423207666416102355444464034512896
    ensures Pow2(224) == 26959946667150639794667015087019630673637144422540572481103610249216
    ensures Pow2(255) == 57896044618658097711785492504343953926634992332820282019728792003956564819968
    ensures Pow2(256) == 115792089237316195423570985008687907853269984665640564039457584007913129639936
  {
    assert Pow2(8) == 256;
    Pow2Add(8, 8);
    assert Pow2(16) == 65536;
    Pow2Add(16, 16);
    assert Pow2(32) == 4294967296;
    Pow2Add(32, 32);
    assert Pow2(64) == 18446744073709551616;
    Pow2Add(64, 32);
    Pow2Add(64, 64);
    assert Pow2(128) == 340282366920938463463374607431768211456;
    Pow2Add(128, 64);
    assert Pow2(192) == 6277101735386680763835789423207666416102355444464034512896;
    Pow2Add(192, 32);
    Pow2Add(128, 128);
    assert Pow2(256) == 2 * Pow2(255);
  }

  /** Powers of two from 2^383 to 2^521. */
  lemma PowersOfTwoAbove256()
    ensures Pow2(383) == 19701003098197239606139520050071806902539869635232723333974146702122860885748605305707133127442457820403313995153408
    ensures Pow2(384) == 39402006196394479212279040100143613805079739270465446667948293404245721771497210611414266254884915640806627990306816
    ensures Pow2(520) == 3432398830065304857490950399540696608634717650071652704697231729592771591698828026061279820330727277488648155695740429018560993999858321906287014145557528576
    ensures Pow2(521) == 6864797660130609714981900799081393217269435300143305409394463459185543183397656052122559640661454554977296311391480858037121987999716643812574028291115057152
  {
    PowersOfTwoUpTo256();
    Pow2Add(256, 128);
    assert Pow2(384) == 2 * Pow2(383);
    Pow2Add(384, 128);
    Pow2Add(512, 8);
    assert Pow2(8) == 256;
    assert Pow2(521) == 2 * Pow2(520);
  }

  /** The primes of the table have the special forms given in FIPS 186-4,
      appendix D.1.2: p256 = 2^256 - 2^224 + 2^192 + 2^96 - 1,
      p384 = 2^384 - 2^128 - 2^96 + 2^32 - 1 and p521 = 2^521 - 1. */
  lemma TablePrimes()
    ensures P256Spec.curve.field.Fp? && P384Spec.curve.field.Fp? && P521Spec.curve.field.Fp?
    ensures P256Spec.curve.field.p == Pow2(256) - Pow2(224) + Pow2(192) + Pow2(96) - 1
    ensures P384Spec.curve.field.p == Pow2(384) - Pow2(128) - Pow2(96) + Pow2(32) - 1
    ensures P521Spec.curve.field.p == Pow2(521) - 1
  {
    PowersOfTwoUpTo256();
    PowersOfTwoAbove256();
  }

  /** The field sizes the reverse lookup compares: 256, 384 and 521 bits. */
  lemma TableFieldSizes()
    ensures FieldSize(P256Spec.curve.field) == 256
    ensures FieldSize(P384Spec.curve.field) == 384
    ensures FieldSize(P521Spec.curve.field) == 521
  {
    PowersOfTwoUpTo256();
    PowersOfTwoAbove256();
    BitLengthBetween(P256Spec.curve.field.p, 256);
    BitLengthBetween(P384Spec.curve.field.p, 384);
    BitLengthBetween(P521Spec.curve.field.p, 521);
  }

  /** The shape every entry has: a prime field, coefficient a = p - 3, b and
      the generator's coordinates reduced modulo p, an order between 0 and p,
      and cofactor 1. */
  predicate StandardShape(e: ParameterSpec)
  {
    && e.curve.field.Fp?
    && e.curve.a == e.curve.field.p - 3
    && 0 <= e.curve.b < e.curve.field.p
    && e.generator.Affine?
    && 0 <= e.generator.x < e.curve.field.p
    && 0 <= e.generator.y < e.curve.field.p
    && 0 < e.order < e.curve.field.p
    && e.cofactor == 1
  }

  lemma TableEntriesHaveStandardShape(c: Curve, e: ParameterSpec)
    requires (c, e) in Table
    ensures StandardShape(e)
  {
  }

  /** Entries of different curves differ in every compared field except the
      cofactor, which is 1 for all three. */
  lemma TableEntriesDistinct(c1: Curve, e1: ParameterSpec, c2: Curve, e2: ParameterSpec)
    requires (c1, e1) in Table && (c2, e2) in Table && c1 != c2
    ensures FieldSize(e1.curve.field) != FieldSize(e2.curve.field)
    ensures e1.curve.a != e2.curve.a && e1.curve.b != e2.curve.b
    ensures AffineX(e1.generator) != AffineX(e2.generator)
    ensures AffineY(e1.generator) != AffineY(e2.generator)
    ensures e1.order != e2.order
    ensures e1.cofactor == e2.cofactor == 1
  {
    TableFieldSizes();
  }

  /** No table entry matches the entry of another curve. */
  lemma TableInjective(c1: Curve, e1: ParameterSpec, c2: Curve, e2: ParameterSpec)
    requires (c1, e1) in Table && (c2, e2) in Table
    requires Matches(e1, e2)
    ensures c1 == c2
  {
  }

  // ---------------------------------------------------------------------------
  // Properties of the two lookups

  /** Round trip: the reverse lookup of a curve's parameter spec is the curve. */
  lemma RoundTrip(c: Curve)
    requires !c.Other?
    ensures GetSpec(Some(c)).Some? && GetCurve(GetSpec(Some(c))) == Some(c)
  {
  }

  /** The reverse lookup finds curve c exactly when the spec matches c's entry
      in all seven compared fields; any single differing field rejects c. */
  lemma GetCurveFinds(spec: ParameterSpec, c: Curve, e: ParameterSpec)
    requires (c, e) in Table
    ensures GetCurve(Some(spec)) == Some(c) <==> Matches(spec, e)
  {
  }

  /** The reverse lookup finds nothing exactly when no entry matches. */
  lemma GetCurveNotFound(spec: ParameterSpec)
    ensures GetCurve(Some(spec)) == None <==> forall i :: 0 <= i < |Table| ==> !Matches(spec, Table[i].1)
  {
  }

  /** At most one entry matches any spec, so the order in which the reverse
      lookup tries the entries never decides its result. */
  lemma AtMostOneMatch(spec: ParameterSpec, c1: Curve, e1: ParameterSpec, c2: Curve, e2: ParameterSpec)
    requires (c1, e1) in Table && (c2, e2) in Table
    requires Matches(spec, e1) && Matches(spec, e2)
    ensures c1 == c2
  {
    GetCurveFinds(spec, c1, e1);
    GetCurveFinds(spec, c2, e2);
  }

  /** Only the size of the field is compared: replacing the field by any field
      of the same size, prime or not, does not change the result. */
  lemma FieldComparedBySize(spec: ParameterSpec, f: Field)
    requires FieldSize(f) == FieldSize(spec.curve.field)
    ensures GetCurve(Some(spec.(curve := spec.curve.(field := f)))) == GetCurve(Some(spec))
  {
  }

  /** A spec with P-256's coefficients, generator, order and cofactor over a
      different 256-bit prime modulus (p256 + 378, the next prime above p256)
      is reported as P-256. */
  lemma OtherPrimeOfSameSize()
    ensures GetCurve(Some(P256Spec.(curve := P256Spec.curve.(field := Fp(P256Spec.curve.field.p + 378)))))
         == Some(P256)
  {
    PowersOfTwoUpTo256();
    BitLengthBetween(P256Spec.curve.field.p + 378, 256);
    TableFieldSizes();
  }

  /** The seven fields the reverse lookup compares. */
  datatype Component = FieldSizeOf | CoefficientA | CoefficientB | GeneratorX | GeneratorY | Order | Cofactor

  /** `spec` and `entry` are equal in component k. */
  predicate Agrees(spec: ParameterSpec, entry: ParameterSpec, k: Component)
  {
    match k
    case FieldSizeOf => FieldSize(spec.curve.field) == FieldSize(entry.curve.field)
    case CoefficientA => spec.curve.a == entry.curve.a
    case CoefficientB => spec.curve.b == entry.curve.b
    case GeneratorX => AffineX(spec.generator) == AffineX(entry.generator)
    case GeneratorY => AffineY(spec.generator) == AffineY(entry.generator)
    case Order => spec.order == entry.order
    case Cofactor => spec.cofactor == entry.cofactor
  }

  /** The lookup's comparison is agreement in every one of the seven
      components. */
  lemma MatchesIffAllAgree(spec: ParameterSpec, entry: ParameterSpec)
    ensures Matches(spec, entry) <==> forall k :: Agrees(spec, entry, k)
  {
    if !Matches(spec, entry) {
      if !Agrees(spec, entry, FieldSizeOf) {
      } else if !Agrees(spec, entry, CoefficientA) {
      } else if !Agrees(spec, entry, CoefficientB) {
      } else if !Agrees(spec, entry, GeneratorX) {
      } else if !Agrees(spec, entry, GeneratorY) {
      } else if !Agrees(spec, entry, Order) {
      } else {
        assert !Agrees(spec, entry, Cofactor);
      }
    }
  }

  /** Perturbation: a spec that differs from a table entry in exactly one of
      the seven compared fields matches no entry at all, although the other six
      fields still equal those of a known curve. */
  lemma SingleFieldPerturbation(spec: ParameterSpec, c: Curve, e: ParameterSpec, k: Component)
    requires (c, e) in Table
    requires !Agrees(spec, e, k)
    requires forall j :: j != k ==> Agrees(spec, e, j)
    ensures GetCurve(Some(spec)) == None
  {
    TableFieldSizes();
    assert !Matches(spec, e) by {
      match k
      case FieldSizeOf =>
      case CoefficientA =>
      case CoefficientB =>
      case GeneratorX =>
      case GeneratorY =>
      case Order =>
      case Cofactor =>
    }
    if k == CoefficientA {
      assert Agrees(spec, e, FieldSizeOf);
    } else {
      assert Agrees(spec, e, CoefficientA);
    }
  }

  /** P-384's parameters with coefficient a off by one are not recognised. */
  lemma P384WithOtherA()
    ensures GetCurve(Some(P384Spec.(curve := P384Spec.curve.(a := P384Spec.curve.a + 1)))) == None
  {
    var spec := P384Spec.(curve := P384Spec.curve.(a := P384Spec.curve.a + 1));
    forall j | j != CoefficientA
      ensures Agrees(spec, P384Spec, j)
    {
    }
    SingleFieldPerturbation(spec, P384, P384Spec, CoefficientA);
  }

  // ---------------------------------------------------------------------------
  // The reverse lookup as the Java code evaluates it

  /** The comparison of one candidate as Java evaluates it: `&&` stops at the
      first false operand, and `getAffineX()` of the point at infinity is
      `null`, so calling `equals` on it throws. */
  function MatchesAsWritten(spec: ParameterSpec, entry: ParameterSpec): (r: Outcome<bool>)
    ensures r == NullPointerException <==> SameCurve(spec, entry) && spec.generator.Infinity?
    ensures r.Returned? ==> (r.value <==> Matches(spec, entry))
  {
    if !SameCurve(spec, entry) then Returned(false)
    else
      match spec.generator
      case Infinity => NullPointerException
      case Affine(x, y) =>
        Returned(
          && Some(x) == AffineX(entry.generator)
          && Some(y) == AffineY(entry.generator)
          && spec.order == entry.order
          && spec.cofactor == entry.cofactor)
  }

  /** `get(ECParameterSpec)` exactly as written, exception included. */
  function GetCurveAsWritten(spec: Option<ParameterSpec>): (r: Outcome<Option<Curve>>)
    ensures spec.None? ==> r == Returned(None)
    ensures r.Returned? ==> r.value == GetCurve(spec)
    ensures spec.None? || spec.value.generator.Affine? ==> r.Returned?
  {
    if spec.None? then Returned(None)
    else
      match MatchesAsWritten(spec.value, P256Spec)
      case NullPointerException => NullPointerException
      case Returned(true) => Returned(Some(P256))
      case Returned(false) =>
        match MatchesAsWritten(spec.value, P384Spec)
        case NullPointerException => NullPointerException
        case Returned(true) => Returned(Some(P384))
        case Returned(false) =>
          match MatchesAsWritten(spec.value, P521Spec)
          case NullPointerException => NullPointerException
          case Returned(true) => Returned(Some(P521))
          case Returned(false) => Returned(None)
  }

  /** The Java code throws exactly for a generator at infinity on a curve
      whose field size, a and b equal those of a table entry. */
  lemma AsWrittenThrowsIff(spec: ParameterSpec)
    ensures GetCurveAsWritten(Some(spec)) == NullPointerException
        <==> spec.generator.Infinity? && exists i :: 0 <= i < |Table| && SameCurve(spec, Table[i].1)
  {
    if spec.generator.Infinity? {
      if SameCurve(spec, P256Spec) {
        assert SameCurve(spec, Table[0].1);
      } else if SameCurve(spec, P384Spec) {
        assert SameCurve(spec, Table[1].1);
      } else if SameCurve(spec, P521Spec) {
        assert SameCurve(spec, Table[2].1);
      }
    }
  }

  /** P-256's curve with the point at infinity as generator: the Java code
      throws, where its documentation promises `null`. */
  lemma InfinityGeneratorThrows()
    ensures GetCurveAsWritten(Some(P256Spec.(generator := Infinity))) == NullPointerException
    ensures GetCurve(Some(P256Spec.(generator := Infinity))) == None
  {
  }
}
