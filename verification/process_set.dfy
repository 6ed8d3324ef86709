/**
 * The group membership every protocol consults: an array of processes indexed
 * by rank, some slots possibly empty, and the rank of the local process.
 */
module ProcessSet {
  import opened Common

  /** A member: its address, its process number, whether it is the local process, whether it is believed correct. */
  datatype Process = Process(addr: Addr, number: int, isSelf: bool, correct: bool)

  /** `procs[i]` is the process of rank `i` (`None` for an empty slot); `self` is the local rank. */
  datatype ProcessSet = ProcessSet(procs: seq<Option<Process>>, self: int)

  /** `new ProcessSet(n)`: `n` empty slots, local rank 0. */
  function New(n: nat): (ps: ProcessSet)
    ensures |ps.procs| == n && ps.self == 0
    ensures forall i :: 0 <= i < n ==> ps.procs[i].None?
  {
    ProcessSet(seq(n, _ => None), 0)
  }

  function Size(ps: ProcessSet): nat
  {
    |ps.procs|
  }

  predicate HoldsAddr(slot: Option<Process>, addr: Addr)
  {
    slot.Some? && slot.value.addr == addr
  }

  /** True when every slot holds a process. */
  predicate Full(ps: ProcessSet)
  {
    forall i :: 0 <= i < |ps.procs| ==> ps.procs[i].Some?
  }

  function RankFrom(procs: seq<Option<Process>>, addr: Addr, i: nat): (r: int)
    requires i <= |procs|
    ensures r == -1 || i <= r < |procs|
    ensures r >= 0 ==> HoldsAddr(procs[r], addr)
    ensures r >= 0 ==> forall j :: i <= j < r ==> !HoldsAddr(procs[j], addr)
    ensures r == -1 ==> forall j :: i <= j < |procs| ==> !HoldsAddr(procs[j], addr)
    decreases |procs| - i
  {
    if i == |procs| then -1
    else if HoldsAddr(procs[i], addr) then i
    else RankFrom(procs, addr, i + 1)
  }

  /** The lowest rank whose slot holds `addr`, or -1 when no slot does. */
  function GetRank(ps: ProcessSet, addr: Addr): (r: int)
    ensures -1 <= r < |ps.procs|
    ensures r >= 0 ==> HoldsAddr(ps.procs[r], addr)
    ensures r >= 0 ==> forall j :: 0 <= j < r ==> !HoldsAddr(ps.procs[j], addr)
    ensures r == -1 <==> forall j :: 0 <= j < |ps.procs| ==> !HoldsAddr(ps.procs[j], addr)
  {
    RankFrom(ps.procs, addr, 0)
  }

  /** The process holding `addr`, or `None` (Java `null`) when no slot holds it. */
  function GetProcessByAddr(ps: ProcessSet, addr: Addr): (r: Option<Process>)
    ensures r.Some? <==> exists j :: 0 <= j < |ps.procs| && HoldsAddr(ps.procs[j], addr)
    ensures r.Some? ==> r.value.addr == addr && Some(r.value) in ps.procs
  {
    var i := GetRank(ps, addr);
    if i == -1 then None else ps.procs[i]
  }

  function Sockets(procs: seq<Option<Process>>): (r: seq<Addr>)
    ensures |r| <= |procs|
    ensures forall a :: a in r <==> exists j :: 0 <= j < |procs| && HoldsAddr(procs[j], a)
  {
    if |procs| == 0 then []
    else
      var last := procs[|procs| - 1];
      Sockets(procs[..|procs| - 1]) + (if last.Some? then [last.value.addr] else [])
  }

  /** The occupied slots in rank order, as a membership listing hands them out. */
  function Members(procs: seq<Option<Process>>): (r: seq<Process>)
    ensures forall p :: p in r <==> Some(p) in procs
    ensures |Sockets(procs)| == |r|
    ensures forall i :: 0 <= i < |r| ==> Sockets(procs)[i] == r[i].addr
  {
    if |procs| == 0 then []
    else
      var last := procs[|procs| - 1];
      assert procs == procs[..|procs| - 1] + [last];
      Members(procs[..|procs| - 1]) + (if last.Some? then [last.value] else [])
  }

  /** The addresses of the occupied slots, in rank order: exactly the addresses that have a rank. */
  function GetAllSockets(ps: ProcessSet): (r: seq<Addr>)
    ensures |r| <= |ps.procs|
    ensures forall a :: a in r <==> GetRank(ps, a) != -1
  {
    Sockets(ps.procs)
  }

  /** When the slots below rank `k` are all filled, the listed addresses begin with theirs, in rank order. */
  lemma {:induction false} SocketsFullPrefix(procs: seq<Option<Process>>, k: nat)
    requires k <= |procs| && forall i :: 0 <= i < k ==> procs[i].Some?
    ensures k <= |Sockets(procs)|
    ensures forall i :: 0 <= i < k ==> Sockets(procs)[i] == procs[i].value.addr
    decreases |procs|
  {
    if |procs| > 0 {
      var init := procs[..|procs| - 1];
      assert forall i :: 0 <= i < |init| ==> init[i] == procs[i];
      if k == |procs| {
        SocketsFullPrefix(init, k - 1);
      } else {
        SocketsFullPrefix(init, k);
      }
    }
  }

  /** The outcome of `addProcess`: the new set, or the set left behind by an out-of-bounds write. */
  datatype AddOutcome = Added(ps: ProcessSet) | OutOfBounds(ps: ProcessSet)

  /**
   * `addProcess` as written: a rank at or past the end grows the array by ONE
   * slot, then the process is stored at its rank. A rank more than one past the
   * end therefore writes out of bounds after the array has grown.
   */
  function AddProcess(ps: ProcessSet, p: Process, pr: int): (r: AddOutcome)
    ensures r.Added? <==> 0 <= pr <= |ps.procs|
    ensures r.Added? ==> |r.ps.procs| == (if pr == |ps.procs| then pr + 1 else |ps.procs|)
    ensures r.Added? ==> r.ps.procs[pr] == Some(p)
    ensures r.Added? ==> forall j :: 0 <= j < |ps.procs| && j != pr ==> r.ps.procs[j] == ps.procs[j]
    ensures r.Added? ==> r.ps.self == if p.isSelf then pr else ps.self
    ensures pr > |ps.procs| ==> r == OutOfBounds(ps.(procs := ps.procs + [None]))
    ensures pr < 0 ==> r == OutOfBounds(ps)
  {
    var grown := if pr >= |ps.procs| then ps.procs + [None] else ps.procs;
    if 0 <= pr < |grown| then Added(ProcessSet(grown[pr := Some(p)], if p.isSelf then pr else ps.self))
    else OutOfBounds(ps.(procs := grown))
  }

  /** Adding rank 2 to an empty set fails although the rank is a valid process number. */
  lemma AddProcessPastEndFails(p: Process)
    ensures AddProcess(New(0), p, 2).OutOfBounds?
    ensures AddProcessGrowing(New(0), p, 2).procs[2] == Some(p)
  {
  }

  /**
   * `addProcess` as intended: the array grows to hold rank `pr`, the new slots
   * in between stay empty.
   */
  function AddProcessGrowing(ps: ProcessSet, p: Process, pr: nat): (r: ProcessSet)
    ensures |r.procs| == if pr < |ps.procs| then |ps.procs| else pr + 1
    ensures r.procs[pr] == Some(p)
    ensures forall j :: 0 <= j < |ps.procs| && j != pr ==> r.procs[j] == ps.procs[j]
    ensures forall j :: |ps.procs| <= j < |r.procs| && j != pr ==> r.procs[j].None?
    ensures r.self == if p.isSelf then pr else ps.self
  {
    var grown := if pr < |ps.procs| then ps.procs else ps.procs + seq(pr + 1 - |ps.procs|, _ => None);
    ProcessSet(grown[pr := Some(p)], if p.isSelf then pr else ps.self)
  }

  /** Where the written code does not fail, it agrees with the intended one. */
  lemma AddProcessAgrees(ps: ProcessSet, p: Process, pr: nat)
    requires pr <= |ps.procs|
    ensures AddProcess(ps, p, pr) == Added(AddProcessGrowing(ps, p, pr))
  {
    var r := AddProcessGrowing(ps, p, pr);
    var a := AddProcess(ps, p, pr).ps;
    assert |a.procs| == |r.procs|;
    forall j | 0 <= j < |r.procs|
      ensures a.procs[j] == r.procs[j]
    {
    }
  }

  /** `setCorrect`: marks the process of rank `rank`; the slot must hold a process. */
  function SetCorrect(ps: ProcessSet, rank: int, correct: bool): (r: ProcessSet)
    requires 0 <= rank < |ps.procs| && ps.procs[rank].Some?
    ensures |r.procs| == |ps.procs| && r.self == ps.self
    ensures r.procs[rank].Some? && r.procs[rank].value.correct == correct
    ensures r.procs[rank].value.(correct := true) == ps.procs[rank].value.(correct := true)
    ensures forall j :: 0 <= j < |ps.procs| && j != rank ==> r.procs[j] == ps.procs[j]
  {
    ps.(procs := ps.procs[rank := Some(ps.procs[rank].value.(correct := correct))])
  }

  /**
   * `getSelfProcess`: the slot of the local rank; `None` both for an empty slot
   * and for a local rank outside the array (where the Java lookup raises).
   */
  function GetSelfProcess(ps: ProcessSet): (r: Option<Process>)
    ensures r.Some? <==> 0 <= ps.self < |ps.procs| && ps.procs[ps.self].Some?
    ensures r.Some? ==> Some(r.value) in ps.procs && r == ps.procs[ps.self]
  {
    if 0 <= ps.self < |ps.procs| then ps.procs[ps.self] else None
  }

  /**
   * `getProcess(rank).getSocketAddress()`: the address of the process of rank
   * `rank`; `None` when the rank is outside the array or its slot is empty (the
   * Java lookup or the dereference raises).
   */
  function AddrOfRank(ps: ProcessSet, rank: int): (r: Option<Addr>)
    ensures r.Some? <==> 0 <= rank < |ps.procs| && ps.procs[rank].Some?
    ensures r.Some? ==> HoldsAddr(ps.procs[rank], r.value)
  {
    if 0 <= rank < |ps.procs| && ps.procs[rank].Some? then Some(ps.procs[rank].value.addr) else None
  }

  /**
   * `cloneProcessSet`: a set of the same size, each process re-added at its
   * rank, then the local rank copied. An empty slot makes `cloneProcess` raise.
   */
  method CloneProcessSet(ps: ProcessSet) returns (r: Option<ProcessSet>)
    ensures r.Some? <==> Full(ps)
    ensures r.Some? ==> r.value == ps
  {
    var clone := New(|ps.procs|);
    var i := 0;
    while i < |ps.procs|
      invariant 0 <= i <= |ps.procs|
      invariant |clone.procs| == |ps.procs|
      invariant clone.procs[..i] == ps.procs[..i]
      invariant forall j :: 0 <= j < i ==> ps.procs[j].Some?
    {
      if ps.procs[i].None? {
        return None;
      }
      var added := AddProcess(clone, ps.procs[i].value, i);
      clone := added.ps;
      i := i + 1;
    }
    assert clone.procs == clone.procs[..i];
    r := Some(clone.(self := ps.self));
  }

  /**
   * `setCorrect(rank, false)` after a Crash event: `None` when the rank is out
   * of range or its slot is empty (the Java call raises); otherwise only that
   * process's flag changes.
   */
  function MarkCrashed(ps: ProcessSet, rank: int): (r: Option<ProcessSet>)
    ensures r.Some? <==> 0 <= rank < |ps.procs| && ps.procs[rank].Some?
    ensures r.Some? ==> |r.value.procs| == |ps.procs| && r.value.self == ps.self
    ensures r.Some? ==> !IsCorrect(r.value, rank)
    ensures r.Some? ==> forall j :: 0 <= j < |ps.procs| ==>
      (IsCorrect(r.value, j) <==> IsCorrect(ps, j) && j != rank) && (r.value.procs[j].Some? <==> ps.procs[j].Some?)
    ensures r.Some? ==> forall j :: 0 <= j < |ps.procs| && ps.procs[j].Some? ==>
      r.value.procs[j].value.addr == ps.procs[j].value.addr && r.value.procs[j].value.number == ps.procs[j].value.number
  {
    if 0 <= rank < |ps.procs| && ps.procs[rank].Some? then Some(SetCorrect(ps, rank, false)) else None
  }

  /** The slot of rank `i` holds a process believed correct. */
  predicate IsCorrect(ps: ProcessSet, i: int)
  {
    0 <= i < |ps.procs| && ps.procs[i].Some? && ps.procs[i].value.correct
  }
  /** The number of slots that hold a process believed correct. */
  function CorrectCount(ps: ProcessSet): (n: nat)
    ensures n <= Size(ps)
  {
    CountIdx(|ps.procs|, i => IsCorrect(ps, i))
  }

  /** Every slot holds a correct process exactly when the count is the size. */
  lemma CorrectCountFull(ps: ProcessSet)
    ensures CorrectCount(ps) == Size(ps) <==> forall i :: 0 <= i < Size(ps) ==> IsCorrect(ps, i)
  {
    var n := |ps.procs|;
    if forall i :: 0 <= i < n ==> IsCorrect(ps, i) {
      CountIdxAll(n, i => IsCorrect(ps, i));
    } else {
      var k :| 0 <= k < n && !IsCorrect(ps, k);
      CountIdxMissing(n, i => IsCorrect(ps, i), k);
    }
  }

  /** A count that misses one index is below `n`. */
  lemma {:induction false} CountIdxMissing(n: nat, p: nat -> bool, k: nat)
    requires k < n && !p(k)
    ensures CountIdx(n, p) < n
  {
    if k < n - 1 {
      CountIdxMissing(n - 1, p, k);
    }
  }

  /** Reporting the crash of a process believed correct lowers the count by one; any other report leaves it. */
  lemma CrashLowersCorrectCount(ps: ProcessSet, rank: int)
    requires MarkCrashed(ps, rank).Some?
    ensures CorrectCount(MarkCrashed(ps, rank).value) == CorrectCount(ps) - (if IsCorrect(ps, rank) then 1 else 0)
  {
    var q := MarkCrashed(ps, rank).value;
    CountIdxDrop(|ps.procs|, i => IsCorrect(q, i), i => IsCorrect(ps, i), rank);
  }

  /** Two counts whose predicates differ only at `k`, where only the second holds. */
  lemma {:induction false} CountIdxDrop(n: nat, p: nat -> bool, q: nat -> bool, k: nat)
    requires k < n && !p(k)
    requires forall i :: 0 <= i < n && i != k ==> p(i) == q(i)
    ensures CountIdx(n, p) == CountIdx(n, q) - (if q(k) then 1 else 0)
  {
    if k == n - 1 {
      CountIdxExt(n - 1, p, q);
    } else {
      CountIdxDrop(n - 1, p, q, k);
    }
  }

  /** Three correct processes at addresses 0, 1, 2; the local one has rank 2. */
  function ThreeCorrect(): (ps: ProcessSet)
    ensures Full(ps) && Size(ps) == 3 && CorrectCount(ps) == 3
  {
    var ps := ProcessSet([Some(Process(0, 0, false, true)), Some(Process(1, 1, false, true)),
                          Some(Process(2, 2, true, true))], 2);
    assert IsCorrect(ps, 0) && IsCorrect(ps, 1) && IsCorrect(ps, 2);
    CountIdxAll(3, i => IsCorrect(ps, i));
    ps
  }
}
