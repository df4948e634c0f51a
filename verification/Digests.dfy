/** Digests over an abstract hash. The hash is a parameter, assumed injective where an
    identity rests on it, with a non-empty lower-case hex output. (No function with an output
    of fixed length is injective on every string, so the length is not assumed; what the
    program needs of the fixed form is only that a digest contains no NUL.) */
module Digests {
  import opened Contracts

  type Hash = string -> string

  predicate HexDigest(d: string) {
    d != "" && forall i :: 0 <= i < |d| ==> '0' <= d[i] <= '9' || 'a' <= d[i] <= 'f'
  }

  ghost predicate HashLike(sha: Hash) {
    && (forall x, y :: sha(x) == sha(y) ==> x == y)
    && (forall x :: HexDigest(sha(x)))
  }

  /** The domain-separation prefix of the contract digest. */
  const DigestTag := ContractVersionV1 + "\0"

  function DigestCanonical(sha: Hash, canon: string): string { sha(DigestTag + canon) }

  lemma DigestInjective(sha: Hash, a: string, b: string)
    requires HashLike(sha) && DigestCanonical(sha, a) == DigestCanonical(sha, b)
    ensures a == b
  {
    assert a == (DigestTag + a)[|DigestTag|..];
    assert b == (DigestTag + b)[|DigestTag|..];
  }

  /** What an operation is bound to: the pipeline and the digest, separated by NUL. */
  function RequestFingerprint(sha: Hash, pipelineID: string, digest: string): string {
    sha(pipelineID + "\0" + digest)
  }

  lemma LastNul(p: string, d: string)
    requires HexDigest(d)
    ensures var s := p + "\0" + d;
            s[|p|] == '\0' && s[..|p|] == p && s[|p|+1..] == d && forall k :: |p| < k < |s| ==> s[k] != '\0'
  {
  }

  /** A string that ends in NUL and a NUL-free suffix splits in one way only. */
  lemma SplitsAtNul(p: string, d: string, p': string, d': string)
    requires HexDigest(d) && HexDigest(d') && p + "\0" + d == p' + "\0" + d'
    ensures p == p' && d == d'
  {
    LastNul(p, d);
    LastNul(p', d');
    assert |p| == |p'|;
  }

  /** A fingerprint identifies the pipeline and the canonical text it was made from, even if
      pipeline ids themselves contain NUL. */
  lemma FingerprintIdentifies(sha: Hash, p: string, a: string, p': string, b: string)
    requires HashLike(sha)
    ensures RequestFingerprint(sha, p, DigestCanonical(sha, a)) == RequestFingerprint(sha, p', DigestCanonical(sha, b))
            <==> p == p' && a == b
  {
    var d, d' := DigestCanonical(sha, a), DigestCanonical(sha, b);
    if RequestFingerprint(sha, p, d) == RequestFingerprint(sha, p', d') {
      SplitsAtNul(p, d, p', d');
      DigestInjective(sha, a, b);
    }
  }

  // ---- The assumption on the hash can be met ------------------------------------------

  function Unary(n: nat): string { if n == 0 then "" else "a" + Unary(n - 1) }

  function Injection(s: string): string {
    if s == "" then "0" else Unary(s[0] as nat) + "1" + Injection(s[1..])
  }

  lemma UnaryStart(n: nat, x: string)
    ensures var s := Unary(n) + "1" + x; s != "" && s[0] == if n == 0 then '1' else 'a'
    ensures n > 0 ==> (Unary(n) + "1" + x)[1..] == Unary(n - 1) + "1" + x
    ensures n == 0 ==> (Unary(n) + "1" + x)[1..] == x
  {
  }

  lemma {:induction false} UnarySplits(n: nat, x: string, m: nat, y: string)
    requires Unary(n) + "1" + x == Unary(m) + "1" + y
    ensures n == m && x == y
  {
    UnaryStart(n, x);
    UnaryStart(m, y);
    if n > 0 && m > 0 { UnarySplits(n - 1, x, m - 1, y); }
  }

  lemma {:induction false} InjectionInjective(s: string, t: string)
    requires Injection(s) == Injection(t)
    ensures s == t
  {
    if s != "" { UnaryStart(s[0] as nat, Injection(s[1..])); }
    if t != "" { UnaryStart(t[0] as nat, Injection(t[1..])); }
    if s != "" && t != "" {
      UnarySplits(s[0] as nat, Injection(s[1..]), t[0] as nat, Injection(t[1..]));
      InjectionInjective(s[1..], t[1..]);
      assert s == [s[0]] + s[1..] && t == [t[0]] + t[1..];
    }
  }

  lemma {:induction false} UnaryHex(n: nat)
    ensures n > 0 ==> HexDigest(Unary(n))
  {
    if n > 1 { UnaryHex(n - 1); }
  }

  lemma {:induction false} InjectionHex(s: string)
    ensures HexDigest(Injection(s))
  {
    if s != "" {
      UnaryHex(s[0] as nat);
      InjectionHex(s[1..]);
    }
  }

  lemma HashLikePossible()
    ensures HashLike(Injection)
  {
    forall x, y | Injection(x) == Injection(y) ensures x == y { InjectionInjective(x, y); }
    forall x ensures HexDigest(Injection(x)) { InjectionHex(x); }
  }
}
