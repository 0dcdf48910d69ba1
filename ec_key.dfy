/** The curve identifiers of JSON Web Keys (the "crv" member of an EC JWK). */
module ECKey {

  /** A JWK elliptic curve. The three curves registered in section 6.2.1.1 of
      RFC 7518 are named; `Other` stands for every other curve value. */
  datatype Curve = P256 | P384 | P521 | Other
}
