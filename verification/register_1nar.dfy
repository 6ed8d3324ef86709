/**
 * Read-impose write-all (1,N) atomic registers: twenty registers, one
 * writer each. A write sends its value with the next sequence number to
 * every process; a read sends the value it holds with its own sequence
 * number, imposing it on every process before returning it. A process
 * adopts a received value only when its sequence number is higher than the
 * one it holds, and acks the request; the request returns once every
 * process still believed correct has acked it.
 */
module Register1NAR {
  import opened Common
  import PS = ProcessSet
  import opened Stack
  import opened SharedRegister

  /**
   * The per-register arrays, indexed by register, and the list of write
   * sets, which `init` extends by twenty fresh sets on every ProcessInit
   * (the list only grows, so a second ProcessInit leaves the sets in use).
   */
  datatype State = State(
    v: seq<Option<Payload>>,
    sn: seq<int>,
    readval: seq<Option<Payload>>,
    rqid: seq<int>,
    reading: seq<bool>,
    writeSet: seq<set<int>>,
    correct: Option<PS.ProcessSet>)

  /** The arrays have their Java length. */
  predicate Valid(s: State)
  {
    |s.v| == NUM_REGISTERS && |s.sn| == NUM_REGISTERS && |s.readval| == NUM_REGISTERS &&
    |s.rqid| == NUM_REGISTERS && |s.reading| == NUM_REGISTERS
  }

  datatype Event =
    | ChannelInit
    | ProcessInit(ps: PS.ProcessSet)
    | Crash(p: int)
    | SharedRead(reg: int)
    | SharedWrite(reg: int, value: Option<Payload>)
    | WriteEvent(source: Addr, m: Message)
    | AckEvent(source: Addr, m: Message)
    | Other

  datatype Step = Step(s: State, out: seq<Out>, raised: bool)

  /** Every register holds `null` with sequence number 0 and no request. */
  function Reset(s: State): (r: State)
    ensures Valid(r) && r.writeSet == s.writeSet && r.correct == s.correct
    ensures forall k :: 0 <= k < NUM_REGISTERS ==>
      r.v[k].None? && r.sn[k] == 0 && r.readval[k].None? && r.rqid[k] == 0 && !r.reading[k]
  {
    s.(v := seq(NUM_REGISTERS, _ => None), sn := seq(NUM_REGISTERS, _ => 0),
       readval := seq(NUM_REGISTERS, _ => None), rqid := seq(NUM_REGISTERS, _ => 0),
       reading := seq(NUM_REGISTERS, _ => false))
  }

  /** The fields as constructed: no write sets and no process set yet. */
  function Init(): (s: State)
    ensures Valid(s) && s.writeSet == [] && s.correct.None?
    ensures forall k :: 0 <= k < NUM_REGISTERS ==> s.v[k].None? && s.sn[k] == 0 && s.rqid[k] == 0 && !s.reading[k]
  {
    Reset(State([], [], [], [], [], [], None))
  }

  /** A WRITE: value, sequence number, request identifier, register on top. */
  function WriteFrame(val: Option<Payload>, ts: int, id: int, reg: int): Message
  {
    Push(Push(Push(Push([], ValItem(val)), IntItem(ts)), IntItem(id)), IntItem(reg))
  }

  /** The receiving side of a WRITE: (register, identifier, sequence number, value). */
  function ParseWrite(m: Message): (r: Option<(int, int, int, Option<Payload>)>)
    ensures r.Some? ==>
      && |m| >= 4 && m[|m| - 1] == IntItem(r.value.0) && m[|m| - 2] == IntItem(r.value.1)
      && m[|m| - 3] == IntItem(r.value.2) && m[|m| - 4] == ValItem(r.value.3)
  {
    match PopInt(m)
    case None => None
    case Some((reg, m1)) =>
      match PopInt(m1)
      case None => None
      case Some((id, m2)) =>
        match PopInt(m2)
        case None => None
        case Some((ts, m3)) =>
          match PopVal(m3)
          case None => None
          case Some((val, _)) => Some((reg, id, ts, val))
  }

  lemma WriteRoundTrip(val: Option<Payload>, ts: int, id: int, reg: int)
    ensures ParseWrite(WriteFrame(val, ts, id, reg)) == Some((reg, id, ts, val))
  {
    var m0 := Push([], ValItem(val));
    var m1 := Push(m0, IntItem(ts));
    var m2 := Push(m1, IntItem(id));
    PopIntPush(m2, reg);
    PopIntPush(m1, id);
    PopIntPush(m0, ts);
    PopPush([], ValItem(val));
  }

  /** After the scan: the write sets and pending reads it updated, and its returns after `pre`. */
  function Swept(s: State, pre: seq<Out>): (r: Step)
    requires Valid(s) && s.correct.Some?
    ensures Valid(r.s) && r.s.(writeSet := s.writeSet, reading := s.reading) == s
    ensures |r.out| >= |pre| && r.out[..|pre|] == pre
  {
    var w := SweepAll(s.correct.value, s.writeSet, s.reading, s.readval);
    Step(s.(writeSet := w.ws, reading := w.reading), pre + w.out, w.raised)
  }

  /** `handleProcessInit`: keep the process set, reset the registers, append twenty write sets. */
  function OnProcessInit(s: State, ps: PS.ProcessSet): (r: Step)
    ensures Valid(r.s) && !r.raised && r.out == [Pass] && r.s.correct == Some(ps)
    ensures |r.s.writeSet| == |s.writeSet| + NUM_REGISTERS && r.s.writeSet[..|s.writeSet|] == s.writeSet
    ensures forall k :: |s.writeSet| <= k < |r.s.writeSet| ==> r.s.writeSet[k] == {}
    ensures forall k :: 0 <= k < NUM_REGISTERS ==> r.s.sn[k] == 0 && r.s.v[k].None? && !r.s.reading[k]
  {
    var s1 := Reset(s.(correct := Some(ps)));
    Step(s1.(writeSet := s.writeSet + seq(NUM_REGISTERS, _ => {})), [Pass], false)
  }

  /** `handleCrash`: mark the process crashed, pass the event on, then scan. */
  function OnCrash(s: State, p: int): (r: Step)
    requires Valid(s)
    ensures Valid(r.s) && r.s.sn == s.sn && r.s.v == s.v && r.s.rqid == s.rqid
    ensures s.correct.None? || PS.MarkCrashed(s.correct.value, p).None? ==> r == Step(s, [], true)
    ensures s.correct.Some? && PS.MarkCrashed(s.correct.value, p).Some? ==>
      r == Swept(s.(correct := PS.MarkCrashed(s.correct.value, p)), [Pass])
  {
    if s.correct.None? then Step(s, [], true)
    else
      match PS.MarkCrashed(s.correct.value, p)
      case None => Step(s, [], true)
      case Some(ps) => Swept(s.(correct := Some(ps)), [Pass])
  }

  /** `handleSharedRead`: a fresh request that imposes the value held, with its sequence number. */
  function OnRead(s: State, reg: int): (r: Step)
    requires Valid(s)
    ensures Valid(r.s)
    ensures !(0 <= reg < NUM_REGISTERS) ==> r == Step(s, [], true)
    ensures 0 <= reg < NUM_REGISTERS ==>
      && !r.raised && r.s.rqid[reg] == s.rqid[reg] + 1 && r.s.reading[reg] && r.s.readval[reg] == s.v[reg]
      && r.out == [Write(WriteFrame(s.v[reg], s.sn[reg], r.s.rqid[reg], reg))]
      && r.s.(rqid := s.rqid, reading := s.reading, readval := s.readval) == s
  {
    if !(0 <= reg < NUM_REGISTERS) then Step(s, [], true)
    else
      var id := s.rqid[reg] + 1;
      var s1 := s.(rqid := s.rqid[reg := id], reading := s.reading[reg := true], readval := s.readval[reg := s.v[reg]]);
      Step(s1, [Write(WriteFrame(s.v[reg], s.sn[reg], id, reg))], false)
  }

  /** `handleSharedWrite`: a fresh request with the next sequence number. */
  function OnWrite(s: State, reg: int, value: Option<Payload>): (r: Step)
    requires Valid(s)
    ensures Valid(r.s)
    ensures !(0 <= reg < NUM_REGISTERS) ==> r == Step(s, [], true)
    ensures 0 <= reg < NUM_REGISTERS ==>
      && !r.raised && r.s == s.(rqid := s.rqid[reg := s.rqid[reg] + 1])
      && r.out == [Write(WriteFrame(value, s.sn[reg] + 1, s.rqid[reg] + 1, reg))]
  {
    if !(0 <= reg < NUM_REGISTERS) then Step(s, [], true)
    else
      var id := s.rqid[reg] + 1;
      Step(s.(rqid := s.rqid[reg := id]), [Write(WriteFrame(value, s.sn[reg] + 1, id, reg))], false)
  }

  /**
   * `handleWriteEvent`: adopt the value when its sequence number is higher
   * than the one held, and ack the request to its sender either way.
   */
  function OnWriteEvent(s: State, source: Addr, m: Message): (r: Step)
    requires Valid(s)
    ensures Valid(r.s) && r.s.(v := s.v, sn := s.sn) == s
    ensures r.raised <==> ParseWrite(m).None? || !(0 <= ParseWrite(m).value.0 < NUM_REGISTERS)
    ensures r.raised ==> r == Step(s, [], true)
    ensures !r.raised ==>
      var (reg, id, ts, val) := ParseWrite(m).value;
      && r.out == [Ack(source, AckFrame(id, reg))]
      && r.s.sn == s.sn[reg := if ts > s.sn[reg] then ts else s.sn[reg]]
      && r.s.v == s.v[reg := if ts > s.sn[reg] then val else s.v[reg]]
  {
    match ParseWrite(m)
    case None => Step(s, [], true)
    case Some((reg, id, ts, val)) =>
      if !(0 <= reg < NUM_REGISTERS) then Step(s, [], true)
      else
        var s1 := if ts > s.sn[reg] then s.(v := s.v[reg := val], sn := s.sn[reg := ts]) else s;
        Step(s1, [Ack(source, AckFrame(id, reg))], false)
  }

  /**
   * `handleAckEvent`: an ack of the current request of its register adds
   * its sender to the write set and triggers the scan; any other ack is
   * ignored.
   */
  function OnAckEvent(s: State, source: Addr, m: Message): (r: Step)
    requires Valid(s)
    ensures Valid(r.s) && r.s.sn == s.sn && r.s.v == s.v && r.s.rqid == s.rqid && r.s.readval == s.readval
    ensures s.correct.None? || ParseAck(m).None? || !(0 <= ParseAck(m).value.0 < NUM_REGISTERS) ==> r == Step(s, [], true)
    ensures s.correct.Some? && ParseAck(m).Some? && 0 <= ParseAck(m).value.0 < NUM_REGISTERS ==>
      var (reg, id) := ParseAck(m).value;
      && (id != s.rqid[reg] ==> r == Step(s, [], false))
      && (id == s.rqid[reg] && reg >= |s.writeSet| ==> r == Step(s, [], true))
      && (id == s.rqid[reg] && reg < |s.writeSet| ==>
           var rank := PS.GetRank(s.correct.value, source);
           r == Swept(s.(writeSet := s.writeSet[reg := s.writeSet[reg] + {rank}]), []))
  {
    if s.correct.None? then Step(s, [], true)
    else
      match ParseAck(m)
      case None => Step(s, [], true)
      case Some((reg, id)) =>
        if !(0 <= reg < NUM_REGISTERS) then Step(s, [], true)
        else if id != s.rqid[reg] then Step(s, [], false)
        else if reg >= |s.writeSet| then Step(s, [], true)
        else
          var rank := PS.GetRank(s.correct.value, source);
          Swept(s.(writeSet := s.writeSet[reg := s.writeSet[reg] + {rank}]), [])
  }

  /**
   * `handle`. Every event but ProcessInit keeps each sequence number or
   * raises it, and only a WRITE changes a value or a sequence number.
   */
  function Handle(s: State, e: Event): (r: Step)
    requires Valid(s)
    ensures Valid(r.s)
    ensures !e.ProcessInit? ==> forall k :: 0 <= k < NUM_REGISTERS ==> r.s.sn[k] >= s.sn[k]
    ensures !e.ProcessInit? && !e.WriteEvent? ==> r.s.sn == s.sn && r.s.v == s.v
    ensures e.ChannelInit? || e.Other? ==> r == Step(s, [Pass], false)
  {
    match e
    case ChannelInit => Step(s, [Pass], false)
    case ProcessInit(ps) => OnProcessInit(s, ps)
    case Crash(p) => OnCrash(s, p)
    case SharedRead(reg) => OnRead(s, reg)
    case SharedWrite(reg, value) => OnWrite(s, reg, value)
    case WriteEvent(source, m) => OnWriteEvent(s, source, m)
    case AckEvent(source, m) => OnAckEvent(s, source, m)
    case Other => Step(s, [Pass], false)
  }

  /**
   * Read-impose: the WRITE a read sends makes every process that handles
   * it hold at least the reader's sequence number, and the value the
   * reader returns when the two sequence numbers meet.
   */
  lemma ReadImposes(s: State, reg: int, t: State, me: Addr)
    requires Valid(s) && Valid(t) && 0 <= reg < NUM_REGISTERS
    ensures var w := OnRead(s, reg).out[0].m;
      var t1 := OnWriteEvent(t, me, w);
      && !t1.raised
      && t1.s.sn[reg] >= s.sn[reg] && t1.s.sn[reg] >= t.sn[reg]
      && (t1.s.sn[reg] == s.sn[reg] && s.sn[reg] > t.sn[reg] ==> t1.s.v[reg] == s.v[reg])
  {
    WriteRoundTrip(s.v[reg], s.sn[reg], s.rqid[reg] + 1, reg);
  }

  /**
   * A write's sequence number is higher than the writer's: every process
   * that handles its WRITE ends with a higher sequence number than the
   * writer had, holding the written value unless it already held a higher
   * number.
   */
  lemma WriteSupersedes(s: State, reg: int, value: Option<Payload>, t: State, me: Addr)
    requires Valid(s) && Valid(t) && 0 <= reg < NUM_REGISTERS
    ensures var w := OnWrite(s, reg, value).out[0].m;
      var t1 := OnWriteEvent(t, me, w);
      && !t1.raised && t1.s.sn[reg] > s.sn[reg]
      && (t.sn[reg] <= s.sn[reg] ==> t1.s.v[reg] == value && t1.s.sn[reg] == s.sn[reg] + 1)
  {
    var ts := s.sn[reg] + 1;
    var w := WriteFrame(value, ts, s.rqid[reg] + 1, reg);
    assert OnWrite(s, reg, value).out[0].m == w;
    WriteRoundTrip(value, ts, s.rqid[reg] + 1, reg);
    WriteAdopted(t, me, w, reg, s.rqid[reg] + 1, ts, value);
  }

  /** A WRITE that parses is adopted exactly when its number is higher than the one held. */
  lemma WriteAdopted(t: State, me: Addr, w: Message, reg: int, id: int, ts: int, value: Option<Payload>)
    requires Valid(t) && 0 <= reg < NUM_REGISTERS && ParseWrite(w) == Some((reg, id, ts, value))
    ensures var t1 := OnWriteEvent(t, me, w);
      && !t1.raised && t1.s.sn[reg] == (if ts > t.sn[reg] then ts else t.sn[reg])
      && (ts > t.sn[reg] ==> t1.s.v[reg] == value)
  {
  }

  /**
   * The ack a process sends for a request is counted by the requester
   * while that request is still the current one of its register.
   */
  lemma OwnAckCounted(s: State, reg: int, t: State, me: Addr)
    requires Valid(s) && Valid(t) && 0 <= reg < NUM_REGISTERS
    ensures var rd := OnRead(s, reg);
      var a := OnWriteEvent(t, me, rd.out[0].m).out[0];
      a.Ack? && a.dest == me && ParseAck(a.m) == Some((reg, rd.s.rqid[reg]))
  {
    WriteRoundTrip(s.v[reg], s.sn[reg], s.rqid[reg] + 1, reg);
    AckRoundTrip(s.rqid[reg] + 1, reg);
  }

  /** An ack of an older request of its register changes nothing and emits nothing. */
  lemma StaleAckIgnored(s: State, source: Addr, id: int, reg: int)
    requires Valid(s) && s.correct.Some? && 0 <= reg < NUM_REGISTERS && id != s.rqid[reg]
    ensures Handle(s, AckEvent(source, AckFrame(id, reg))) == Step(s, [], false)
  {
    AckRoundTrip(id, reg);
  }

  /**
   * A read returns the value it captured: when an ack completes the
   * register of a pending read, the return carries the value the register
   * held when the read began, and the read is over.
   */
  lemma ReadReturnsCaptured(s: State, reg: int, source: Addr, m: Message)
    requires Valid(s) && 0 <= reg < NUM_REGISTERS
    requires var s1 := OnRead(s, reg).s;
      var a := OnAckEvent(s1, source, m);
      !a.raised && exists i :: 0 <= i < |a.out| && RegOf(a.out[i]) == reg
    ensures var s1 := OnRead(s, reg).s;
      var a := OnAckEvent(s1, source, m);
      ReadReturn(reg, s.v[reg]) in a.out && !a.s.reading[reg]
  {
    var s1 := OnRead(s, reg).s;
    var a := OnAckEvent(s1, source, m);
    var (r, id) := ParseAck(m).value;
    var s2 := s1.(writeSet := s1.writeSet[r := s1.writeSet[r] + {PS.GetRank(s1.correct.value, source)}]);
    assert a == Swept(s2, []);
    SweptReturn(s2, reg, a);
  }

  /** When the scan after an ACK returns on `reg`, that return is the pending read's, and the read is over. */
  lemma SweptReturn(s2: State, reg: int, a: Step)
    requires Valid(s2) && s2.correct.Some? && 0 <= reg < NUM_REGISTERS && s2.reading[reg]
    requires a == Swept(s2, []) && !a.raised
    requires exists i :: 0 <= i < |a.out| && RegOf(a.out[i]) == reg
    ensures ReadReturn(reg, s2.readval[reg]) in a.out && !a.s.reading[reg]
  {
    var ps := s2.correct.value;
    var w := SweepFrom(ps, s2.writeSet, s2.reading, s2.readval, 0);
    assert a.out == w.out && a.s.reading == w.reading && !w.raised;
    var i :| 0 <= i < |w.out| && RegOf(w.out[i]) == reg;
    SweepReturnsComplete(ps, s2.writeSet, s2.reading, s2.readval, 0);
    SweepCompletes(ps, s2.writeSet, s2.reading, s2.readval, 0);
    assert ReturnFits(ps, s2.writeSet, s2.reading, s2.readval, 0, w.out[i]);
  }

  /**
   * WRITEs with different sequence numbers commute: handled in either
   * order they leave every register with the same value and number, so
   * a process's register does not depend on the order of arrival.
   */
  lemma WritesCommute(t: State, a: Addr, w1: Message, b: Addr, w2: Message)
    requires Valid(t) && !OnWriteEvent(t, a, w1).raised && !OnWriteEvent(t, b, w2).raised
    requires ParseWrite(w1).value.0 == ParseWrite(w2).value.0 ==> ParseWrite(w1).value.2 != ParseWrite(w2).value.2
    ensures var x := OnWriteEvent(OnWriteEvent(t, a, w1).s, b, w2).s;
      var y := OnWriteEvent(OnWriteEvent(t, b, w2).s, a, w1).s;
      x.v == y.v && x.sn == y.sn
  {
  }
}
