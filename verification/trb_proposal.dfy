/**
 * The value terminating reliable broadcast proposes to consensus: either the
 * sender's message or the claim that the sender failed. Proposals are
 * compared, checked for equality and hashed on the `failed` flag alone.
 */
module TRBProposal {
  import opened Common

  /** `m` is the proposed message (`None` for `null`). */
  datatype Proposal = Proposal(failed: bool, m: Option<Payload>)

  /** `new TRBProposal(m)`: not a failure claim. */
  function OfMessage(m: Option<Payload>): (p: Proposal)
    ensures !p.failed && p.m == m
  {
    Proposal(false, m)
  }

  /** `new TRBProposal(f)`: no message. */
  function OfFlag(f: bool): (p: Proposal)
    ensures p.failed == f && p.m.None?
  {
    Proposal(f, None)
  }

  /**
   * `compareTo(o)`; `o` is `None` for a proposal of another class, which
   * raises (result `None`). A message sorts before a failure claim.
   */
  function CompareTo(p: Proposal, o: Option<Proposal>): (r: Option<int>)
    ensures r.None? <==> o.None?
    ensures r.Some? ==> (r.value == 0 <==> p.failed == o.value.failed)
    ensures r.Some? ==> (r.value < 0 <==> o.value.failed && !p.failed)
  {
    match o
    case None => None
    case Some(q) => if q.failed == p.failed then Some(0) else if q.failed then Some(-1) else Some(1)
  }

  /** `equals(obj)`: another proposal that compares as 0; `None` stands for an object of another class. */
  function Equals(p: Proposal, o: Option<Proposal>): (r: bool)
    ensures r <==> o.Some? && p.failed == o.value.failed
  {
    o.Some? && CompareTo(p, o) == Some(0)
  }

  /** `hashCode()`: 0 for a failure claim, 1 otherwise. */
  function HashCode(p: Proposal): (h: int)
    ensures h == 0 <==> p.failed
  {
    if p.failed then 0 else 1
  }

  /**
   * Comparison is antisymmetric, and equality is exactly equal hash codes:
   * the message is ignored by all three.
   */
  lemma OrderAndHashAgree(p: Proposal, q: Proposal)
    ensures CompareTo(p, Some(q)).value == -CompareTo(q, Some(p)).value
    ensures Equals(p, Some(q)) <==> HashCode(p) == HashCode(q)
    ensures Equals(p, Some(q)) == Equals(q, Some(p))
  {
  }
}
