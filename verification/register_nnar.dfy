/**
 * Read-impose write-consult-all (N,N) atomic registers: twenty registers,
 * any process may write. A value is tagged with a timestamp and the rank of
 * its writer; a tag is newer than another when its timestamp is higher, or
 * equal with a lower writer rank. A write consults the local timestamp and
 * sends the next one with the writer's rank; a read imposes the tagged
 * value it holds. A process adopts a received value only when its tag is
 * newer, and acks the request; the request returns once every process still
 * believed correct has acked it.
 */
module RegisterNNAR {
  import opened Common
  import PS = ProcessSet
  import opened Stack
  import opened SharedRegister

  /**
   * The per-register arrays, the local rank `i` (-1 until a ProcessInit),
   * and the list of write sets, which every ProcessInit extends by twenty.
   */
  datatype State = State(
    correct: Option<PS.ProcessSet>,
    i: int,
    writeSet: seq<set<int>>,
    reading: seq<bool>,
    reqid: seq<int>,
    readval: seq<Option<Payload>>,
    v: seq<Option<Payload>>,
    ts: seq<int>,
    mrank: seq<int>)

  predicate Valid(s: State)
  {
    |s.reading| == NUM_REGISTERS && |s.reqid| == NUM_REGISTERS && |s.readval| == NUM_REGISTERS &&
    |s.v| == NUM_REGISTERS && |s.ts| == NUM_REGISTERS && |s.mrank| == NUM_REGISTERS
  }

  datatype Event =
    | ChannelInit
    | ProcessInit(ps: PS.ProcessSet)
    | Crash(p: int)
    | SharedRead(reg: int)
    | SharedWrite(reg: int, value: Option<Payload>)
    | WriteEvent(source: Addr, m: Message)
    | AckEvent(source: Addr, m: Message)
    | Other

  datatype Step = Step(s: State, out: seq<Out>, raised: bool)

  /** Tag `(t1, j1)` is older than `(t2, j2)`: the adoption test of `handleWriteEvent`, read from the holder's side. */
  predicate Older(t1: int, j1: int, t2: int, j2: int)
  {
    t2 > t1 || (t2 == t1 && j2 < j1)
  }

  /** Tags are strictly ordered: never older than themselves, transitively older, and of two different tags one is older. */
  lemma OlderIsStrictTotalOrder(t1: int, j1: int, t2: int, j2: int, t3: int, j3: int)
    ensures !Older(t1, j1, t1, j1)
    ensures Older(t1, j1, t2, j2) && Older(t2, j2, t3, j3) ==> Older(t1, j1, t3, j3)
    ensures (t1, j1) != (t2, j2) <==> Older(t1, j1, t2, j2) || Older(t2, j2, t1, j1)
    ensures !(Older(t1, j1, t2, j2) && Older(t2, j2, t1, j1))
  {
  }

  /** Every register holds `null` with timestamp 0, writer rank -1, and no request. */
  function Reset(s: State): (r: State)
    ensures Valid(r) && r.writeSet == s.writeSet && r.correct == s.correct && r.i == s.i
    ensures forall k :: 0 <= k < NUM_REGISTERS ==>
      r.v[k].None? && r.ts[k] == 0 && r.mrank[k] == -1 && r.readval[k].None? && r.reqid[k] == 0 && !r.reading[k]
  {
    s.(reading := seq(NUM_REGISTERS, _ => false), reqid := seq(NUM_REGISTERS, _ => 0),
       readval := seq(NUM_REGISTERS, _ => None), v := seq(NUM_REGISTERS, _ => None),
       ts := seq(NUM_REGISTERS, _ => 0), mrank := seq(NUM_REGISTERS, _ => -1))
  }

  /**
   * The fields as constructed: the Java arrays start at 0, `false` and
   * `null` (so `mrank` starts at 0, not -1), no write sets, no process set.
   */
  function Init(): (s: State)
    ensures Valid(s) && s.writeSet == [] && s.correct.None? && s.i == -1
    ensures forall k :: 0 <= k < NUM_REGISTERS ==> s.ts[k] == 0 && s.mrank[k] == 0 && s.v[k].None?
  {
    State(None, -1, [], seq(NUM_REGISTERS, _ => false), seq(NUM_REGISTERS, _ => 0),
      seq(NUM_REGISTERS, _ => None), seq(NUM_REGISTERS, _ => None), seq(NUM_REGISTERS, _ => 0), seq(NUM_REGISTERS, _ => 0))
  }

  /** A WRITE: value, writer rank, timestamp, request identifier, register on top. */
  function WriteFrame(val: Option<Payload>, j: int, t: int, id: int, reg: int): Message
  {
    Push(Push(Push(Push(Push([], ValItem(val)), IntItem(j)), IntItem(t)), IntItem(id)), IntItem(reg))
  }

  datatype WriteMsg = WriteMsg(reg: int, id: int, t: int, j: int, val: Option<Payload>)

  /** The receiving side of a WRITE. */
  function ParseWrite(m: Message): (r: Option<WriteMsg>)
    ensures r.Some? ==>
      && |m| >= 5 && m[|m| - 1] == IntItem(r.value.reg) && m[|m| - 2] == IntItem(r.value.id)
      && m[|m| - 3] == IntItem(r.value.t) && m[|m| - 4] == IntItem(r.value.j) && m[|m| - 5] == ValItem(r.value.val)
  {
    match PopInt(m)
    case None => None
    case Some((reg, m1)) =>
      match PopInt(m1)
      case None => None
      case Some((id, m2)) =>
        match PopInt(m2)
        case None => None
        case Some((t, m3)) =>
          match PopInt(m3)
          case None => None
          case Some((j, m4)) =>
            match PopVal(m4)
            case None => None
            case Some((val, _)) => Some(WriteMsg(reg, id, t, j, val))
  }

  lemma WriteRoundTrip(val: Option<Payload>, j: int, t: int, id: int, reg: int)
    ensures ParseWrite(WriteFrame(val, j, t, id, reg)) == Some(WriteMsg(reg, id, t, j, val))
  {
    var m0 := Push([], ValItem(val));
    var m1 := Push(m0, IntItem(j));
    var m2 := Push(m1, IntItem(t));
    var m3 := Push(m2, IntItem(id));
    PopIntPush(m3, reg);
    PopIntPush(m2, id);
    PopIntPush(m1, t);
    PopIntPush(m0, j);
    PopPush([], ValItem(val));
  }

  function Swept(s: State, pre: seq<Out>): (r: Step)
    requires Valid(s) && s.correct.Some?
    ensures Valid(r.s) && r.s.(writeSet := s.writeSet, reading := s.reading) == s
    ensures |r.out| >= |pre| && r.out[..|pre|] == pre
  {
    var w := SweepAll(s.correct.value, s.writeSet, s.reading, s.readval);
    Step(s.(writeSet := w.ws, reading := w.reading), pre + w.out, w.raised)
  }

  /** `handleProcessInit`: keep the process set and its local rank, reset the registers, append twenty write sets. */
  function OnProcessInit(s: State, ps: PS.ProcessSet): (r: Step)
    ensures Valid(r.s) && !r.raised && r.out == [Pass] && r.s.correct == Some(ps) && r.s.i == ps.self
    ensures |r.s.writeSet| == |s.writeSet| + NUM_REGISTERS && r.s.writeSet[..|s.writeSet|] == s.writeSet
    ensures forall k :: |s.writeSet| <= k < |r.s.writeSet| ==> r.s.writeSet[k] == {}
    ensures forall k :: 0 <= k < NUM_REGISTERS ==> r.s.ts[k] == 0 && r.s.mrank[k] == -1 && r.s.v[k].None?
  {
    var s1 := Reset(s.(correct := Some(ps), i := ps.self));
    Step(s1.(writeSet := s.writeSet + seq(NUM_REGISTERS, _ => {})), [Pass], false)
  }

  /** `handleCrash`: mark the process crashed, pass the event on, then scan. */
  function OnCrash(s: State, p: int): (r: Step)
    requires Valid(s)
    ensures Valid(r.s) && r.s.ts == s.ts && r.s.mrank == s.mrank && r.s.v == s.v && r.s.reqid == s.reqid
    ensures s.correct.None? || PS.MarkCrashed(s.correct.value, p).None? ==> r == Step(s, [], true)
    ensures s.correct.Some? && PS.MarkCrashed(s.correct.value, p).Some? ==>
      r == Swept(s.(correct := PS.MarkCrashed(s.correct.value, p)), [Pass])
  {
    if s.correct.None? then Step(s, [], true)
    else
      match PS.MarkCrashed(s.correct.value, p)
      case None => Step(s, [], true)
      case Some(ps) => Swept(s.(correct := Some(ps)), [Pass])
  }

  /**
   * `handleSharedRead`: a fresh request with an empty write set that
   * imposes the tagged value held. Without a write set the clearing raises
   * after the request was counted and marked as a read.
   */
  function OnRead(s: State, reg: int): (r: Step)
    requires Valid(s)
    ensures Valid(r.s) && r.s.v == s.v && r.s.ts == s.ts && r.s.mrank == s.mrank
    ensures !(0 <= reg < NUM_REGISTERS) ==> r == Step(s, [], true)
    ensures 0 <= reg < NUM_REGISTERS ==> r.s.reqid == s.reqid[reg := s.reqid[reg] + 1] && r.s.reading[reg]
    ensures 0 <= reg < NUM_REGISTERS && reg >= |s.writeSet| ==> r.raised && r.out == []
    ensures 0 <= reg < NUM_REGISTERS && reg < |s.writeSet| ==>
      && !r.raised && r.s.writeSet == s.writeSet[reg := {}] && r.s.readval[reg] == s.v[reg]
      && r.out == [Write(WriteFrame(s.v[reg], s.mrank[reg], s.ts[reg], r.s.reqid[reg], reg))]
  {
    if !(0 <= reg < NUM_REGISTERS) then Step(s, [], true)
    else
      var id := s.reqid[reg] + 1;
      var s1 := s.(reqid := s.reqid[reg := id], reading := s.reading[reg := true]);
      if reg >= |s.writeSet| then Step(s1, [], true)
      else
        var s2 := s1.(writeSet := s.writeSet[reg := {}], readval := s.readval[reg := s.v[reg]]);
        Step(s2, [Write(WriteFrame(s.v[reg], s.mrank[reg], s.ts[reg], id, reg))], false)
  }

  /**
   * `handleSharedWrite`: a fresh request with an empty write set, sending
   * the value tagged with the next local timestamp and the local rank.
   */
  function OnWrite(s: State, reg: int, value: Option<Payload>): (r: Step)
    requires Valid(s)
    ensures Valid(r.s) && r.s.v == s.v && r.s.ts == s.ts && r.s.mrank == s.mrank && r.s.reading == s.reading
    ensures !(0 <= reg < NUM_REGISTERS) ==> r == Step(s, [], true)
    ensures 0 <= reg < NUM_REGISTERS ==> r.s.reqid == s.reqid[reg := s.reqid[reg] + 1]
    ensures 0 <= reg < NUM_REGISTERS && reg >= |s.writeSet| ==> r.raised && r.out == []
    ensures 0 <= reg < NUM_REGISTERS && reg < |s.writeSet| ==>
      && !r.raised && r.s.writeSet == s.writeSet[reg := {}]
      && r.out == [Write(WriteFrame(value, s.i, s.ts[reg] + 1, r.s.reqid[reg], reg))]
  {
    if !(0 <= reg < NUM_REGISTERS) then Step(s, [], true)
    else
      var id := s.reqid[reg] + 1;
      var s1 := s.(reqid := s.reqid[reg := id]);
      if reg >= |s.writeSet| then Step(s1, [], true)
      else Step(s1.(writeSet := s.writeSet[reg := {}]), [Write(WriteFrame(value, s.i, s.ts[reg] + 1, id, reg))], false)
  }

  /**
   * `handleWriteEvent`: adopt the value and its tag when the tag is newer
   * than the one held, and ack the request to its sender either way. The
   * tag held afterwards is the newer of the two.
   */
  function OnWriteEvent(s: State, source: Addr, m: Message): (r: Step)
    requires Valid(s)
    ensures Valid(r.s) && r.s.(v := s.v, ts := s.ts, mrank := s.mrank) == s
    ensures r.raised <==> ParseWrite(m).None? || !(0 <= ParseWrite(m).value.reg < NUM_REGISTERS)
    ensures r.raised ==> r == Step(s, [], true)
    ensures !r.raised ==>
      var w := ParseWrite(m).value;
      var k := w.reg;
      && r.out == [Ack(source, AckFrame(w.id, k))]
      && (forall q :: 0 <= q < NUM_REGISTERS && q != k ==> r.s.v[q] == s.v[q] && r.s.ts[q] == s.ts[q] && r.s.mrank[q] == s.mrank[q])
      && !Older(r.s.ts[k], r.s.mrank[k], w.t, w.j) && !Older(r.s.ts[k], r.s.mrank[k], s.ts[k], s.mrank[k])
      && (if Older(s.ts[k], s.mrank[k], w.t, w.j) then (r.s.ts[k], r.s.mrank[k], r.s.v[k]) == (w.t, w.j, w.val)
          else (r.s.ts[k], r.s.mrank[k], r.s.v[k]) == (s.ts[k], s.mrank[k], s.v[k]))
  {
    match ParseWrite(m)
    case None => Step(s, [], true)
    case Some(w) =>
      if !(0 <= w.reg < NUM_REGISTERS) then Step(s, [], true)
      else
        var k := w.reg;
        var s1 := if w.t > s.ts[k] || (w.t == s.ts[k] && w.j < s.mrank[k])
          then s.(v := s.v[k := w.val], ts := s.ts[k := w.t], mrank := s.mrank[k := w.j])
          else s;
        Step(s1, [Ack(source, AckFrame(w.id, k))], false)
  }

  /**
   * `handleAckEvent`: an ack of the current request of its register adds
   * its sender to the write set and triggers the scan; any other ack is
   * ignored.
   */
  function OnAckEvent(s: State, source: Addr, m: Message): (r: Step)
    requires Valid(s)
    ensures Valid(r.s) && r.s.ts == s.ts && r.s.mrank == s.mrank && r.s.v == s.v && r.s.reqid == s.reqid && r.s.readval == s.readval
    ensures s.correct.None? || ParseAck(m).None? || !(0 <= ParseAck(m).value.0 < NUM_REGISTERS) ==> r == Step(s, [], true)
    ensures s.correct.Some? && ParseAck(m).Some? && 0 <= ParseAck(m).value.0 < NUM_REGISTERS ==>
      var (reg, id) := ParseAck(m).value;
      && (id != s.reqid[reg] ==> r == Step(s, [], false))
      && (id == s.reqid[reg] && reg >= |s.writeSet| ==> r == Step(s, [], true))
      && (id == s.reqid[reg] && reg < |s.writeSet| ==>
           var rank := PS.GetRank(s.correct.value, source);
           r == Swept(s.(writeSet := s.writeSet[reg := s.writeSet[reg] + {rank}]), []))
  {
    if s.correct.None? then Step(s, [], true)
    else
      match ParseAck(m)
      case None => Step(s, [], true)
      case Some((reg, id)) =>
        if !(0 <= reg < NUM_REGISTERS) then Step(s, [], true)
        else if id != s.reqid[reg] then Step(s, [], false)
        else if reg >= |s.writeSet| then Step(s, [], true)
        else
          var rank := PS.GetRank(s.correct.value, source);
          Swept(s.(writeSet := s.writeSet[reg := s.writeSet[reg] + {rank}]), [])
  }

  /**
   * `handle`. Every event but ProcessInit leaves each register's tag as it
   * was or makes it newer, and only a WRITE changes a tag or a value.
   */
  function Handle(s: State, e: Event): (r: Step)
    requires Valid(s)
    ensures Valid(r.s)
    ensures !e.ProcessInit? ==> forall k :: 0 <= k < NUM_REGISTERS ==>
      (r.s.ts[k], r.s.mrank[k]) == (s.ts[k], s.mrank[k]) || Older(s.ts[k], s.mrank[k], r.s.ts[k], r.s.mrank[k])
    ensures !e.ProcessInit? ==> forall k :: 0 <= k < NUM_REGISTERS ==> r.s.ts[k] >= s.ts[k]
    ensures !e.ProcessInit? && !e.WriteEvent? ==> r.s.ts == s.ts && r.s.mrank == s.mrank && r.s.v == s.v
    ensures e.ChannelInit? || e.Other? ==> r == Step(s, [Pass], false)
  {
    match e
    case ChannelInit => Step(s, [Pass], false)
    case ProcessInit(ps) => OnProcessInit(s, ps)
    case Crash(p) => OnCrash(s, p)
    case SharedRead(reg) => OnRead(s, reg)
    case SharedWrite(reg, value) => OnWrite(s, reg, value)
    case WriteEvent(source, m) => OnWriteEvent(s, source, m)
    case AckEvent(source, m) => OnAckEvent(s, source, m)
    case Other => Step(s, [Pass], false)
  }

  /**
   * Write-consult: the tag a write sends is newer than the writer's own, so
   * every process that handles it ends with a tag newer than the writer
   * had, and holds the written value when its own tag was older than the
   * one sent.
   */
  lemma WriteSupersedes(s: State, reg: int, value: Option<Payload>, t: State, me: Addr)
    requires Valid(s) && Valid(t) && 0 <= reg < |s.writeSet| && reg < NUM_REGISTERS
    ensures var w := OnWrite(s, reg, value).out[0].m;
      var t1 := OnWriteEvent(t, me, w);
      && !t1.raised && Older(s.ts[reg], s.mrank[reg], t1.s.ts[reg], t1.s.mrank[reg])
      && (Older(t.ts[reg], t.mrank[reg], s.ts[reg] + 1, s.i) ==> t1.s.v[reg] == value)
  {
    WriteRoundTrip(value, s.i, s.ts[reg] + 1, s.reqid[reg] + 1, reg);
  }

  /**
   * Read-impose: every process that handles the WRITE a read sends ends
   * with a tag at least the reader's, and with the reader's value when its
   * own tag was older.
   */
  lemma ReadImposes(s: State, reg: int, t: State, me: Addr)
    requires Valid(s) && Valid(t) && 0 <= reg < |s.writeSet| && reg < NUM_REGISTERS
    ensures var w := OnRead(s, reg).out[0].m;
      var t1 := OnWriteEvent(t, me, w);
      && !t1.raised && !Older(t1.s.ts[reg], t1.s.mrank[reg], s.ts[reg], s.mrank[reg])
      && (Older(t.ts[reg], t.mrank[reg], s.ts[reg], s.mrank[reg]) ==>
           (t1.s.ts[reg], t1.s.mrank[reg], t1.s.v[reg]) == (s.ts[reg], s.mrank[reg], s.v[reg]))
  {
    WriteRoundTrip(s.v[reg], s.mrank[reg], s.ts[reg], s.reqid[reg] + 1, reg);
  }

  /**
   * WRITEs with different tags commute: handled in either order they leave
   * every register with the same tag and value, so concurrent writers
   * settle on the newest tag wherever the WRITEs arrive.
   */
  lemma WritesCommute(t: State, a: Addr, w1: Message, b: Addr, w2: Message)
    requires Valid(t) && !OnWriteEvent(t, a, w1).raised && !OnWriteEvent(t, b, w2).raised
    requires var x, y := ParseWrite(w1).value, ParseWrite(w2).value;
      x.reg == y.reg ==> (x.t, x.j) != (y.t, y.j)
    ensures var x := OnWriteEvent(OnWriteEvent(t, a, w1).s, b, w2).s;
      var y := OnWriteEvent(OnWriteEvent(t, b, w2).s, a, w1).s;
      x.v == y.v && x.ts == y.ts && x.mrank == y.mrank
  {
  }

  /** An ack of an older request of its register changes nothing and emits nothing. */
  lemma StaleAckIgnored(s: State, source: Addr, id: int, reg: int)
    requires Valid(s) && s.correct.Some? && 0 <= reg < NUM_REGISTERS && id != s.reqid[reg]
    ensures Handle(s, AckEvent(source, AckFrame(id, reg))) == Step(s, [], false)
  {
    AckRoundTrip(id, reg);
  }

  /**
   * A request starts from an empty write set, so it completes only once
   * every process believed correct has acked it: right after a read or a
   * write begins, its register is not complete while some process is
   * believed correct.
   */
  lemma FreshRequestIncomplete(s: State, e: Event)
    requires Valid(s) && (e.SharedRead? || e.SharedWrite?) && 0 <= e.reg < NUM_REGISTERS && e.reg < |s.writeSet|
    requires s.correct.Some? && exists j :: PS.IsCorrect(s.correct.value, j)
    ensures !Completes(s.correct.value, Handle(s, e).s.writeSet, e.reg)
  {
    var j :| PS.IsCorrect(s.correct.value, j);
    assert j !in Handle(s, e).s.writeSet[e.reg];
  }
}
