# Elliptic curve parameter table

A model of the parameter table of the Nimbus JOSE+JWT library
(`ECParameterTable`). The table holds the domain parameters of the three JWK
elliptic curves registered in section 6.2.1.1 of RFC 7518: P-256, P-384 and
P-521. The values are those of NIST FIPS 186-4, appendix D.1.2.3 to D.1.2.5
(secp256r1, secp384r1 and secp521r1 in SEC 2). The table has two lookups:

- `GetSpec` (`get(ECKey.Curve)`) maps a curve to its parameter spec. A `null`
  curve or any other curve gives `null` (`None`).
- `GetCurve` (`get(ECParameterSpec)`) maps a parameter spec back to a curve.
  It compares seven fields: field size, a, b, generator x, generator y, order
  and cofactor. It tries P-256, then P-384, then P-521, and gives `None` when
  the spec is `null` or nothing matches.

Files:

- `wrappers.dfy`: `Option` stands for a nullable reference. `Outcome` stands
  for a value or a thrown `NullPointerException`.
- `ec_key.dfy`: `ECKey.Curve` has the three registered curves plus `Other`.
- `ec_spec.dfy`: the `java.security.spec` types as datatypes over unbounded
  integers (`BigInteger`). `ECField.getFieldSize()` of a prime field
  (`ECFieldFp`) is `BigInteger.bitLength()` of its prime.
- `ec_parameter_table.dfy`: the three constant specs, the two lookups, and
  the lemmas about them.

The reverse lookup compares the field's size, never the prime itself.
`FieldComparedBySize` and `OtherPrimeOfSameSize` state this. At most one
entry can match any spec (`AtMostOneMatch`, which follows from
`GetCurveFinds`). So the P-256, P-384, P-521 order never decides a result.

All three entries have cofactor 1, so they are not distinct in every field.
`TableEntriesDistinct` states exactly which fields differ. An unrecognised
spec does not always give `null`; see "## Findings".

Both lookups are Dafny functions, so repeated calls with equal inputs give
equal results by construction.

## Model

| member | source | states |
|---|---|---|
| `ECSpec.BitLengthBetween` | src/main/java/com/nimbusds/jose/jwk/ECParameterTable.java:149 | The field size of a prime field is the bit length of its prime. A p with 2^(k-1) <= p < 2^k has bit length k. |
| `ECSpec.BitLengthBounds` | src/main/java/com/nimbusds/jose/jwk/ECParameterTable.java:149 | The converse: a positive p lies in [2^(b-1), 2^b) for its bit length b. With `BitLengthBetween`, p has bit length k exactly when 2^(k-1) <= p < 2^k. |
| `ECSpec.FieldSize` | src/main/java/com/nimbusds/jose/jwk/ECParameterTable.java:149 | `getFieldSize()`: for a prime field with positive p, a size r with 2^(r-1) <= p < 2^r. Any other field gives the size it reports. |
| `ECParameterTable.GetSpec` | src/main/java/com/nimbusds/jose/jwk/ECParameterTable.java:120-131 | Forward lookup is total on P-256, P-384 and P-521 and gives each its own table entry. It gives `None` for a `null` curve or any other curve, and never throws. |
| `ECParameterTable.GetCurve` | src/main/java/com/nimbusds/jose/jwk/ECParameterTable.java:143-182 | A `null` spec gives `None`. A curve it returns has a table entry that matches the spec in all seven compared fields. `None` for a non-null spec means no entry matches. |
| `ECParameterTable.GetCurveIsFirstMatch` | src/main/java/com/nimbusds/jose/jwk/ECParameterTable.java:149-181 | The if/else chain equals a scan of the table in the order P-256, P-384, P-521 that returns the first matching entry. |
| `ECParameterTable.TablePrimes` | src/main/java/com/nimbusds/jose/jwk/ECParameterTable.java:77-108 | The three primes have the FIPS 186-4 forms: 2^256 - 2^224 + 2^192 + 2^96 - 1, then 2^384 - 2^128 - 2^96 + 2^32 - 1, then 2^521 - 1. |
| `ECParameterTable.TableFieldSizes` | src/main/java/com/nimbusds/jose/jwk/ECParameterTable.java:77-108 | The field sizes the reverse lookup compares are 256, 384 and 521 bits. |
| `ECParameterTable.TableEntriesHaveStandardShape` | src/main/java/com/nimbusds/jose/jwk/ECParameterTable.java:77-108 | Every entry has a prime field, a = p - 3, b and the generator coordinates in [0, p), 0 < order < p, and cofactor 1. |
| `ECParameterTable.TableEntriesDistinct` | src/main/java/com/nimbusds/jose/jwk/ECParameterTable.java:77-108 | Entries of different curves differ in field size, a, b, generator x, generator y and order. All have cofactor 1. |
| `ECParameterTable.TableInjective` | src/main/java/com/nimbusds/jose/jwk/ECParameterTable.java:149-181 | A table entry matches no entry of another curve under the lookup's own comparison. |
| `ECParameterTable.RoundTrip` | src/main/java/com/nimbusds/jose/jwk/ECParameterTable.java:120-182 | For each of the three curves, the reverse lookup of the forward lookup gives the curve back. |
| `ECParameterTable.GetCurveFinds` | src/main/java/com/nimbusds/jose/jwk/ECParameterTable.java:149-181 | The reverse lookup returns curve c if and only if the spec matches c's entry in all seven fields. One differing field rejects c. |
| `ECParameterTable.AtMostOneMatch` | src/main/java/com/nimbusds/jose/jwk/ECParameterTable.java:149-181 | Any spec matches at most one table entry, so at most one branch of the reverse lookup can succeed. |
| `ECParameterTable.GetCurveNotFound` | src/main/java/com/nimbusds/jose/jwk/ECParameterTable.java:149-181 | The reverse lookup returns `None` for a non-null spec if and only if no table entry matches it. |
| `ECParameterTable.FieldComparedBySize` | src/main/java/com/nimbusds/jose/jwk/ECParameterTable.java:149-175 | Replacing a spec's field by any field of the same size does not change the result. |
| `ECParameterTable.OtherPrimeOfSameSize` | src/main/java/com/nimbusds/jose/jwk/ECParameterTable.java:149-157 | A spec with P-256's other values over a different 256-bit prime (p + 378, the next prime above p) is reported as P-256. |
| `ECParameterTable.MatchesIffAllAgree` | src/main/java/com/nimbusds/jose/jwk/ECParameterTable.java:149-155 | A candidate matches exactly when it agrees with the entry in every one of the seven compared components. |
| `ECParameterTable.SingleFieldPerturbation` | src/main/java/com/nimbusds/jose/jwk/ECParameterTable.java:149-181 | A spec that differs from a table entry in exactly one compared field matches no entry at all. |
| `ECParameterTable.P384WithOtherA` | src/main/java/com/nimbusds/jose/jwk/ECParameterTable.java:159-181 | P-384's parameters with a off by one give `None`. |
| `ECParameterTable.MatchesAsWritten` | src/main/java/com/nimbusds/jose/jwk/ECParameterTable.java:149-155 | One candidate comparison as Java evaluates it, with short-circuit `&&`. It throws exactly when field size, a and b agree and the generator is at infinity. When it returns, it returns true exactly when all seven fields match. |
| `ECParameterTable.GetCurveAsWritten` | src/main/java/com/nimbusds/jose/jwk/ECParameterTable.java:143-182 | `get(ECParameterSpec)` as written. A `null` spec gives `null`. Wherever it returns, it returns what `GetCurve` does. It always returns when the spec is `null` or its generator is an affine point. |
| `ECParameterTable.AsWrittenThrowsIff` | src/main/java/com/nimbusds/jose/jwk/ECParameterTable.java:149-153 | The Java evaluation throws `NullPointerException` exactly when the generator is the point at infinity and the field size, a and b equal those of some entry. |
| `ECParameterTable.InfinityGeneratorThrows` | src/main/java/com/nimbusds/jose/jwk/ECParameterTable.java:149-153 | Take P-256's parameters with the point at infinity as generator. The Java evaluation throws, and `GetCurve` gives `None`. |

## Findings

| source | as written | input that shows it | evidently intended | confidence | as-written member | corrected member |
|---|---|---|---|---|---|---|
| src/main/java/com/nimbusds/jose/jwk/ECParameterTable.java:152 | Line 152 calls `equals` on `spec.getGenerator().getAffineX()`. For `ECPoint.POINT_INFINITY` that is `null`, so the call throws `NullPointerException`. | An `ECParameterSpec` with P-256's field, a and b, generator `ECPoint.POINT_INFINITY`, and a positive order and cofactor. | `null` ("cannot be determined"), as the method's documentation says. | medium, not executed | `ECParameterTable.InfinityGeneratorThrows` | `ECParameterTable.GetCurve` |

The Java evaluation is `ECParameterTable.GetCurveAsWritten`. The corrected
lookup is `ECParameterTable.GetCurve`, and the rest of the model uses it. It
compares generator coordinates as nullable values, so a generator at infinity
matches no entry. The contract of `GetCurveAsWritten` says the two agree
wherever the Java code returns. `AsWrittenThrowsIff` gives the exact set of
inputs on which the Java code throws.

## Left out

- `ECFieldImpl` (lines 47-71) is a holder of one size value that the table
  never uses. `OtherField(size)` covers any `ECField` known only by its size.
- The static initialiser's timing and thread safety during class loading are
  JVM concerns. The table is a set of Dafny constants.
- Only the identity of `ECKey.Curve` is modelled, as a closed enumeration
  with one `Other` case. Its name-based `equals` is not modelled: a curve
  object that the real class treats as equal to P-256 by name is `P256`
  here.
- The checks in the `java.security.spec` constructors are not modelled. Two
  examples: order and cofactor must be positive, and a and b must lie in the
  field. The lookups do not rely on them, so the model accepts every value.
- Elliptic-curve arithmetic and point-on-curve validation are not performed
  by this code and are not modelled.
