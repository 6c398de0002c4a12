/** The token helpers wrap a JSON Web Token library; the model keeps the pair
    abstract. A signer `sign` and a verifier `verify` are parameters of every
    operation that uses them; `verify` is partial (`None` for a token that is
    malformed, forged or expired). */
module Jwt {
  import opened Wrappers

  /** The claims the backend signs: the user's id and e-mail. */
  datatype Payload = Payload(id: string, email: string)

  /** `verify` accepts what `sign` produced for `p` and returns its claims. */
  predicate Agree(sign: Payload -> string, verify: string -> Option<Payload>, p: Payload) {
    verify(sign(p)) == Some(p)
  }
}
