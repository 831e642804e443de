/**
 * The token layer. Signing and verification belong to a library; they are
 * modelled as a pair of functions that a sound signer makes inverse to one
 * another. Only the strategy's mapping from payload to identity is the
 * application's own.
 */
module Jwt {
  import opened Types

  /** The claims the service signs: `{ email, sub, role }`. */
  datatype Payload = Payload(email: string, sub: int, role: Role)

  /**
   * A token signer: `sign` takes the claims and the issue time (the token
   * also records when it was issued); `verify` gives back the claims of a
   * token it accepts.
   */
  datatype Signer = Signer(sign: (Payload, int) -> string, verify: string -> Option<Payload>)

  /** Every token the signer issues verifies back to the claims it was issued for. */
  ghost predicate SoundSigner(signer: Signer)
  {
    forall p, issuedAt :: signer.verify(signer.sign(p, issuedAt)) == Some(p)
  }

  /** `JwtStrategy.validate`: the caller identity a verified payload stands for. */
  function Validate(payload: Payload): Identity
  {
    Identity(payload.sub, payload.email, payload.role)
  }
}
