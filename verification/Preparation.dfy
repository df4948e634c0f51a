/** What happens to a request body before anything is stored: strict parse, the reserved
    capability check, canonicalization and digest, and the validated variant. */
module Preparation {
  import opened Prelude
  import opened Ordering
  import opened Contracts
  import opened Canonical
  import opened Digests
  import opened Validation
  import opened ValidationOrder

  function PreparedOf(sha: Hash, c: Contract): Prepared {
    Prepared(Sorted(c), CanonicalText(c), DigestCanonical(sha, CanonicalText(c)))
  }

  /** The identity of a request body: it needs no resolver. */
  ghost function Identity(sha: Hash, body: string): Result<Prepared> {
    match Parse(body)
    case Err(code) => Err(code)
    case Ok(c) => if NoProfiles(c) then Ok(PreparedOf(sha, c)) else Err(UnsupportedCapability)
  }

  method RejectReservedCapabilities(c: Contract) returns (r: Option<Code>)
    ensures r == if NoProfiles(c) then None else Some(UnsupportedCapability)
  {
    for i := 0 to |c.nodes|
      invariant forall n :: n in c.nodes[..i] ==> n.toolProfile.None?
    {
      TakeNext(c.nodes, i);
      assert c.nodes[i] in c.nodes;
      if c.nodes[i].toolProfile.Some? { return Some(UnsupportedCapability); }
    }
    TakeAll(c.nodes);
    r := None;
  }

  /** The re-parse of the canonical form never fails. */
  method PrepareCanonical(sha: Hash, c: Contract) returns (r: Result<Prepared>)
    ensures r == Ok(PreparedOf(sha, c))
  {
    var canon := Canonicalize(c);
    var again := ParseBody(canon);
    CanonicalReadsBack(c);
    if again.Err? { return Err(InvalidContract); }
    r := Ok(Prepared(again.value, canon, DigestCanonical(sha, canon)));
  }

  method PrepareUnvalidated(sha: Hash, body: string) returns (r: Result<Prepared>)
    ensures r == Identity(sha, body)
  {
    var c := ParseBody(body);
    if c.Err? { return Err(c.code); }
    var reserved := RejectReservedCapabilities(c.value);
    if reserved.Some? { return Err(reserved.value); }
    r := PrepareCanonical(sha, c.value);
  }

  ghost predicate AcceptedBody(body: string, res: Resolvers) {
    Parse(body).Ok? && Acceptable(Parse(body).value, res)
  }

  /** With validation: succeeds exactly on acceptable bodies, and then prepares the same
      thing as without. */
  method Prepare(sha: Hash, body: string, res: Resolvers) returns (r: Result<Prepared>)
    ensures r.Ok? <==> AcceptedBody(body, res)
    ensures r.Ok? ==> r == Identity(sha, body)
    ensures r.Err? ==> Parse(body) == Err(r.code) || (Parse(body).Ok? && Reports(Parse(body).value, res, r.code))
  {
    var c := ParseBody(body);
    if c.Err? { return Err(c.code); }
    var fault := Validate(c.value, res);
    if fault.Some? { return Err(fault.value); }
    AcceptableHasNoProfile(c.value, res);
    r := PrepareCanonical(sha, c.value);
  }

  lemma AcceptableHasNoProfile(c: Contract, res: Resolvers)
    requires Acceptable(c, res)
    ensures NoProfiles(c)
  {
    forall n | n in c.nodes ensures n.toolProfile.None? { assert NodeOK(n, res); }
  }

  /** Two bodies with one identity are accepted alike. */
  lemma IdentityDecidesAcceptance(sha: Hash, a: string, b: string, res: Resolvers)
    requires HashLike(sha) && Identity(sha, a).Ok? && Identity(sha, b).Ok?
    requires Identity(sha, a).value.digest == Identity(sha, b).value.digest
    ensures AcceptedBody(a, res) <==> AcceptedBody(b, res)
  {
    var c, d := Parse(a).value, Parse(b).value;
    DigestInjective(sha, CanonicalText(c), CanonicalText(d));
    ValidationFactors(c, d, res);
  }
}
