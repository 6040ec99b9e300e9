/** `cache::Token` (src/cache.rs:167-188): the content identity a provider
    reports for an artifact, and its deliberately irreflexive equality. */
module Tokens {
  import opened Common

  /** `Sha1` and `Sha512` are the variants src/source/path.rs and
      src/source/modrinth.rs construct; the shown cache.rs declares only the
      other three. They follow the same rule as `Etag` and `ArtifactId`. */
  datatype Token =
    | Etag(etag: string)
    | ArtifactId(id: nat)
    | Sha1(digest: seq<byte>)
    | Sha512(hash: string)
    | Unknown

  /** `impl PartialEq for Token`: equal only within one variant and only when
      the payloads are equal; `Unknown` equals nothing, itself included. */
  predicate TokenEq(a: Token, b: Token)
  {
    match (a, b)
    case (Etag(l), Etag(r)) => l == r
    case (ArtifactId(l), ArtifactId(r)) => l == r
    case (Sha1(l), Sha1(r)) => l == r
    case (Sha512(l), Sha512(r)) => l == r
    case _ => false
  }

  /** Token equality is value equality restricted to known tokens. */
  lemma TokenEqIsKnownEquality(a: Token, b: Token)
    ensures TokenEq(a, b) <==> a == b && !a.Unknown?
  {
  }

  /** `Unknown` on either side never compares equal, so an artifact without
      identity is fetched again on every run. */
  lemma UnknownMatchesNothing(t: Token)
    ensures !TokenEq(Unknown, t) && !TokenEq(t, Unknown)
  {
  }

  /** Tokens of two different variants are never equal. */
  lemma DifferentVariantsDiffer(a: Token, b: Token)
    requires a.Etag? != b.Etag? || a.ArtifactId? != b.ArtifactId? || a.Sha1? != b.Sha1? || a.Sha512? != b.Sha512?
    ensures !TokenEq(a, b)
  {
  }

  /** The relation is symmetric and transitive, but not reflexive. */
  lemma TokenEqPartialEquivalence(a: Token, b: Token, c: Token)
    ensures TokenEq(a, b) ==> TokenEq(b, a)
    ensures TokenEq(a, b) && TokenEq(b, c) ==> TokenEq(a, c)
    ensures TokenEq(a, a) <==> !a.Unknown?
  {
  }
}
