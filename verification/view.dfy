/**
 * A membership view: an identifier and the process set of its members. Views
 * are ordered newest first (higher identifier), then smaller membership
 * first; two views are equal when they have the same identifier, the same
 * size, and every member of the first is a member of the second. The hash is
 * the identifier plus the hashes of the member addresses.
 */
module MembershipView {
  import opened Common
  import PS = ProcessSet

  datatype View = View(id: int, memb: PS.ProcessSet)

  /**
   * `compareTo(o)`; `o` is `None` for a proposal of another class, which
   * raises (result `None`).
   */
  function CompareTo(a: View, o: Option<View>): (r: Option<int>)
    ensures r.None? <==> o.None?
    ensures r.Some? ==> -1 <= r.value <= 1
    ensures r.Some? ==> (r.value == 0 <==> a.id == o.value.id && PS.Size(a.memb) == PS.Size(o.value.memb))
    ensures r.Some? ==> (r.value < 0 <==>
      a.id > o.value.id || (a.id == o.value.id && PS.Size(a.memb) < PS.Size(o.value.memb)))
  {
    match o
    case None => None
    case Some(b) =>
      if a.id > b.id then Some(-1)
      else if a.id < b.id then Some(1)
      else if PS.Size(a.memb) < PS.Size(b.memb) then Some(-1)
      else if PS.Size(a.memb) > PS.Size(b.memb) then Some(1)
      else Some(0)
  }

  /** The check of `equals` from rank `i` on: `None` when an empty slot of `a` is reached first (the Java loop raises). */
  function MembersFoundFrom(a: PS.ProcessSet, b: PS.ProcessSet, i: nat): (r: Option<bool>)
    requires i <= PS.Size(a)
    ensures r == Some(true) <==>
      forall j :: i <= j < PS.Size(a) ==> a.procs[j].Some? && PS.GetRank(b, a.procs[j].value.addr) >= 0
    decreases PS.Size(a) - i
  {
    if i == |a.procs| then Some(true)
    else if a.procs[i].None? then None
    else if PS.GetRank(b, a.procs[i].value.addr) < 0 then Some(false)
    else MembersFoundFrom(a, b, i + 1)
  }

  /**
   * `equals(obj)`; `o` is `None` for an object of another class. The result
   * is `None` when the membership loop reaches an empty slot of `a`.
   */
  function Equals(a: View, o: Option<View>): (r: Option<bool>)
    ensures o.None? || o.value.id != a.id || PS.Size(o.value.memb) != PS.Size(a.memb) ==> r == Some(false)
    ensures r == Some(true) <==>
      && o.Some? && o.value.id == a.id && PS.Size(o.value.memb) == PS.Size(a.memb)
      && forall j :: 0 <= j < PS.Size(a.memb) ==>
           a.memb.procs[j].Some? && PS.GetRank(o.value.memb, a.memb.procs[j].value.addr) >= 0
  {
    match o
    case None => Some(false)
    case Some(b) =>
      if a.id != b.id || PS.Size(a.memb) != PS.Size(b.memb) then Some(false)
      else MembersFoundFrom(a.memb, b.memb, 0)
  }

  /** The addresses of the slots, in rank order; defined when every slot holds a process. */
  function Addrs(ps: PS.ProcessSet): (r: seq<Addr>)
    requires PS.Full(ps)
    ensures |r| == PS.Size(ps)
    ensures forall j :: 0 <= j < |r| ==> r[j] == ps.procs[j].value.addr
  {
    seq(|ps.procs|, j requires 0 <= j < |ps.procs| && PS.Full(ps) => ps.procs[j].value.addr)
  }

  /** The `hashCode` loop from accumulator `c` over the remaining addresses, in Java `int` arithmetic. */
  function HashFrom(c: int, addrs: seq<Addr>, addrHash: Addr -> int): int
    decreases |addrs|
  {
    if addrs == [] then c else HashFrom(Wrap32(c + addrHash(addrs[0])), addrs[1..], addrHash)
  }

  /** `hashCode()`: `None` when a slot is empty (the loop raises). */
  function HashCode(v: View, addrHash: Addr -> int): (r: Option<int>)
    ensures r.Some? <==> PS.Full(v.memb)
    ensures r.Some? && PS.Size(v.memb) > 0 ==> r.value == Wrap32(v.id + Sum(Addrs(v.memb), addrHash))
  {
    if PS.Full(v.memb) then
      HashWrapsOnce(v.id, Addrs(v.memb), addrHash);
      Some(HashFrom(v.id, Addrs(v.memb), addrHash))
    else None
  }

  /** The exact sum of the address hashes. */
  function Sum(addrs: seq<Addr>, addrHash: Addr -> int): int
    decreases |addrs|
  {
    if addrs == [] then 0 else addrHash(addrs[0]) + Sum(addrs[1..], addrHash)
  }

  /** Wrapping after every addition is wrapping the exact sum once. */
  lemma {:induction false} HashWrapsOnce(c: int, addrs: seq<Addr>, addrHash: Addr -> int)
    ensures HashFrom(c, addrs, addrHash) == if addrs == [] then c else Wrap32(c + Sum(addrs, addrHash))
    decreases |addrs|
  {
    if addrs != [] {
      var c1 := Wrap32(c + addrHash(addrs[0]));
      HashWrapsOnce(c1, addrs[1..], addrHash);
      if addrs[1..] != [] {
        Wrap32AddRight(Sum(addrs[1..], addrHash), c + addrHash(addrs[0]));
      }
    }
  }

  /** Removing one element from the sum. */
  lemma {:induction false} SumRemove(t: seq<Addr>, k: nat, addrHash: Addr -> int)
    requires k < |t|
    ensures Sum(t, addrHash) == addrHash(t[k]) + Sum(t[..k] + t[k + 1..], addrHash)
    decreases |t|
  {
    if k > 0 {
      SumRemove(t[1..], k - 1, addrHash);
      assert t[1..][..k - 1] + t[1..][k..] == (t[..k] + t[k + 1..])[1..];
    } else {
      assert t[..0] + t[1..] == t[1..];
    }
  }

  /** The sum depends only on the multiset of addresses. */
  lemma {:induction false} SumPermutation(s: seq<Addr>, t: seq<Addr>, addrHash: Addr -> int)
    requires multiset(s) == multiset(t)
    ensures Sum(s, addrHash) == Sum(t, addrHash)
    decreases |s|
  {
    if s != [] {
      assert s[0] in multiset(t);
      var k :| 0 <= k < |t| && t[k] == s[0];
      var t' := t[..k] + t[k + 1..];
      PermutationTails(s, t, k);
      SumRemove(t, k, addrHash);
      SumPermutation(s[1..], t', addrHash);
    } else {
      assert |t| == |multiset(t)| == 0;
    }
  }

  /** Cutting the first element of `s` and a matching element of its permutation `t` leaves permutations. */
  lemma PermutationTails(s: seq<Addr>, t: seq<Addr>, k: nat)
    requires multiset(s) == multiset(t) && s != [] && k < |t| && t[k] == s[0]
    ensures multiset(s[1..]) == multiset(t[..k] + t[k + 1..])
  {
    calc {
      multiset(s[1..]);
    == { assert s == [s[0]] + s[1..]; }
      multiset(s) - multiset{s[0]};
    ==
      multiset(t) - multiset{t[k]};
    == { RemoveAtMultiset(t, k); }
      multiset(t[..k] + t[k + 1..]);
    }
  }

  /** Cutting out the element at `k` removes one occurrence of it from the multiset. */
  lemma RemoveAtMultiset(t: seq<Addr>, k: nat)
    requires k < |t|
    ensures multiset(t[..k] + t[k + 1..]) == multiset(t) - multiset{t[k]}
  {
    assert t == t[..k] + [t[k]] + t[k + 1..];
  }

  /**
   * Equal views whose members have distinct addresses hash alike: the
   * other view lists the same addresses, possibly in another order.
   */
  lemma EqualViewsHashAlike(a: View, b: View, addrHash: Addr -> int)
    requires PS.Full(a.memb) && PS.Full(b.memb) && Distinct(Addrs(a.memb))
    requires Equals(a, Some(b)) == Some(true)
    ensures HashCode(a, addrHash) == HashCode(b, addrHash)
  {
    var s, t := Addrs(a.memb), Addrs(b.memb);
    forall x | x in s
      ensures x in t
    {
      var j :| 0 <= j < |s| && s[j] == x;
      var k := PS.GetRank(b.memb, x);
      assert t[k] == x;
    }
    PermutationOfDistinct(s, t);
    SumPermutation(s, t, addrHash);
  }

  /** Equality implies comparing as 0. */
  lemma EqualsComparesZero(a: View, b: View)
    requires Equals(a, Some(b)) == Some(true)
    ensures CompareTo(a, Some(b)) == Some(0)
  {
  }

  /** Comparison is antisymmetric. */
  lemma CompareAntisymmetric(a: View, b: View)
    ensures CompareTo(a, Some(b)).value == -CompareTo(b, Some(a)).value
  {
  }

  /**
   * Equality is not symmetric when a membership lists an address twice: the
   * first view below equals the second, not the other way round.
   */
  lemma EqualsNeedsDistinctMembers()
    ensures var p0 := PS.Process(0, 0, false, true);
      var p1 := PS.Process(1, 1, false, true);
      var a := View(1, PS.ProcessSet([Some(p0), Some(p0)], 0));
      var b := View(1, PS.ProcessSet([Some(p0), Some(p1)], 0));
      Equals(a, Some(b)) == Some(true) && Equals(b, Some(a)) == Some(false)
  {
    var p0 := PS.Process(0, 0, false, true);
    var p1 := PS.Process(1, 1, false, true);
    var a := PS.ProcessSet([Some(p0), Some(p0)], 0);
    assert PS.HoldsAddr(a.procs[0], 0);
    assert PS.GetRank(a, 1) == -1;
    assert PS.GetRank(PS.ProcessSet([Some(p0), Some(p1)], 0), 0) == 0;
  }
}
