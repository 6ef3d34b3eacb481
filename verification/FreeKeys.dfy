/** Keys as terms of a free algebra, and what can be derived from a set of them. */
module FreeKeys {
  import opened Prelude
  import opened Primitives

  /** Keys as terms: random atoms, public halves, agreed secrets and derivations.
      No two different terms are equal except that agreement is symmetric. */
  datatype Term =
    | Atom(id: nat)
    | Public(of: Term)
    | Shared(between: set<Term>)
    | Derived(secret: Term, salt: Salt<Term>, info: string)

  const FREE: Suite<Term> := Suite(
    t => Public(t),
    (t: Term, u: Term) => if u.Public? then Some(Shared({t, u.of})) else None,
    (t, salt, info) => Derived(t, salt, info),
    (t, nonce, text, data) => text,
    (t, sealed, data) => Some(sealed))

  /** The laws assumed of the library are consistent: the free algebra meets them. */
  lemma FreeIsLawful()
    ensures Lawful(FREE)
  {
    forall a: Term, b: Term
      ensures FREE.dh(a, FREE.pub(b)) == FREE.dh(b, FREE.pub(a))
    {
      assert {a, b} == {b, a};
    }
  }

  /** What someone holding `known` can compute: derivations need the secret and a key
      salt, an agreement needs one private half, public halves are public. */
  ghost predicate Computable(known: set<Term>, t: Term) {
    t in known ||
    match t
    case Atom(_) => false
    case Public(_) => true
    case Shared(between) => exists u :: u in between && Computable(known, u)
    case Derived(secret, salt, _) =>
      Computable(known, secret) && (salt.KeySalt? ==> Computable(known, salt.key))
  }

  /** The atom is buried nowhere in the term. */
  ghost predicate Avoids(id: nat, t: Term) {
    match t
    case Atom(other) => other != id
    case Public(of) => Avoids(id, of)
    case Shared(between) => forall u :: u in between ==> Avoids(id, u)
    case Derived(secret, salt, _) => Avoids(id, secret) && (salt.KeySalt? ==> Avoids(id, salt.key))
  }
}
