/**
 * What the two shared-register sessions have in common: twenty registers,
 * the events they emit, the WRITE and ACK message layouts, and the scan that
 * runs after every counted ack and every crash. The scan returns each
 * register whose write set holds every process still believed correct,
 * emptying that write set and ending a pending read.
 *
 * A write set holds processes; as every process in it is the object the
 * process set hands out for the ack's sender, it is kept here as the rank of
 * that object (-1 for `null`, an unknown sender).
 */
module SharedRegister {
  import opened Common
  import PS = ProcessSet
  import opened Stack

  const NUM_REGISTERS: nat := 20

  /**
   * `Pass`: the handled event goes on; `Write(m)`: a WRITE to every process;
   * `Ack(dest, m)`: an ACK to one process; the two returns go up.
   */
  datatype Out =
    | Pass
    | Write(m: Message)
    | Ack(dest: Addr, m: Message)
    | ReadReturn(reg: int, value: Option<Payload>)
    | WriteReturn(reg: int)

  /** `popObject` of an application value: `None` when the top is not one. */
  function PopVal(m: Message): (r: Option<(Option<Payload>, Message)>)
    ensures r.Some? <==> m != [] && m[|m| - 1].ValItem?
    ensures r.Some? ==> Push(r.value.1, ValItem(r.value.0)) == m
  {
    match Pop(m)
    case Some((ValItem(v), rest)) => Some((v, rest))
    case _ => None
  }

  /** An ACK: the request identifier, then the register on top. */
  function AckFrame(id: int, reg: int): (m: Message)
  {
    Push(Push([], IntItem(id)), IntItem(reg))
  }

  /** The receiving side of an ACK: register, then request identifier. */
  function ParseAck(m: Message): (r: Option<(int, int)>)
    ensures r.Some? ==> |m| >= 2 && m[|m| - 1] == IntItem(r.value.0) && m[|m| - 2] == IntItem(r.value.1)
  {
    match PopInt(m)
    case None => None
    case Some((reg, m1)) =>
      match PopInt(m1)
      case None => None
      case Some((id, _)) => Some((reg, id))
  }

  lemma AckRoundTrip(id: int, reg: int)
    ensures ParseAck(AckFrame(id, reg)) == Some((reg, id))
  {
    PopIntPush(Push([], IntItem(id)), reg);
    PopIntPush([], id);
  }

  /**
   * `writeSet.get(reg)`: `None` when the list has no such entry yet (the
   * call raises).
   */
  function Entry(ws: seq<set<int>>, reg: int): (r: Option<set<int>>)
    ensures r.Some? <==> 0 <= reg < |ws|
  {
    if 0 <= reg < |ws| then Some(ws[reg]) else None
  }

  /**
   * The inner loop of the scan from rank `i` on: `Some(false)` at the first
   * correct process missing from the write set; `None` when it reaches an
   * empty slot (`isCorrect` on `null`) or needs a write set that does not
   * exist.
   */
  function AckedFrom(ps: PS.ProcessSet, acks: Option<set<int>>, i: nat): (r: Option<bool>)
    requires i <= |ps.procs|
    ensures r == Some(true) <==>
      forall j :: i <= j < |ps.procs| ==>
        ps.procs[j].Some? && (ps.procs[j].value.correct ==> acks.Some? && j in acks.value)
    decreases |ps.procs| - i
  {
    if i == |ps.procs| then Some(true)
    else if ps.procs[i].None? then None
    else if ps.procs[i].value.correct && acks.None? then None
    else if ps.procs[i].value.correct && i !in acks.value then Some(false)
    else AckedFrom(ps, acks, i + 1)
  }

  /** Register `reg` is complete: every process believed correct is in its write set. */
  predicate Completes(ps: PS.ProcessSet, ws: seq<set<int>>, reg: int)
  {
    AckedFrom(ps, Entry(ws, reg), 0) == Some(true)
  }

  /** The return a completed register emits. */
  function ReturnOf(reading: bool, reg: int, readval: Option<Payload>): Out
  {
    if reading then ReadReturn(reg, readval) else WriteReturn(reg)
  }

  function RegOf(o: Out): int
  {
    match o
    case ReadReturn(reg, _) => reg
    case WriteReturn(reg) => reg
    case _ => -1
  }

  datatype Sweep = Sweep(ws: seq<set<int>>, reading: seq<bool>, out: seq<Out>, raised: bool)

  /** The scan over registers `reg` to 19 (the outer loop of the scan). */
  function SweepFrom(ps: PS.ProcessSet, ws: seq<set<int>>, reading: seq<bool>, readval: seq<Option<Payload>>, reg: nat): (r: Sweep)
    requires reg <= NUM_REGISTERS && |reading| == NUM_REGISTERS && |readval| == NUM_REGISTERS
    ensures |r.ws| == |ws| && |r.reading| == NUM_REGISTERS
    decreases NUM_REGISTERS - reg
  {
    if reg == NUM_REGISTERS then Sweep(ws, reading, [], false)
    else
      match AckedFrom(ps, Entry(ws, reg), 0)
      case None => Sweep(ws, reading, [], true)
      case Some(false) => SweepFrom(ps, ws, reading, readval, reg + 1)
      case Some(true) =>
        if reg >= |ws| then Sweep(ws, reading, [], true)
        else
          var ret := ReturnOf(reading[reg], reg, readval[reg]);
          var rest := SweepFrom(ps, ws[reg := {}], reading[reg := false], readval, reg + 1);
          Sweep(rest.ws, rest.reading, [ret] + rest.out, rest.raised)
  }

  /** Registers below the start of the scan are left as they were. */
  lemma {:induction false} SweepFrame(ps: PS.ProcessSet, ws: seq<set<int>>, reading: seq<bool>, readval: seq<Option<Payload>>, reg: nat)
    requires reg <= NUM_REGISTERS && |reading| == NUM_REGISTERS && |readval| == NUM_REGISTERS
    ensures var r := SweepFrom(ps, ws, reading, readval, reg);
      forall k :: 0 <= k < reg ==> r.reading[k] == reading[k] && (k < |ws| ==> r.ws[k] == ws[k])
    decreases NUM_REGISTERS - reg
  {
    if reg < NUM_REGISTERS && AckedFrom(ps, Entry(ws, reg), 0).Some? {
      if Completes(ps, ws, reg) {
        if reg < |ws| {
          var rest := SweepFrom(ps, ws[reg := {}], reading[reg := false], readval, reg + 1);
          SweepFrame(ps, ws[reg := {}], reading[reg := false], readval, reg + 1);
          var r := SweepFrom(ps, ws, reading, readval, reg);
          assert r.ws == rest.ws && r.reading == rest.reading;
          forall k | 0 <= k < reg
            ensures r.reading[k] == reading[k] && (k < |ws| ==> r.ws[k] == ws[k])
          {
            assert rest.reading[k] == reading[reg := false][k];
            if k < |ws| {
              assert rest.ws[k] == ws[reg := {}][k];
            }
          }
        }
      } else {
        SweepFrame(ps, ws, reading, readval, reg + 1);
      }
    }
  }

  /**
   * `o` is the return of register `k`, at or past `reg`, that is complete,
   * with the value of its pending read or as a write.
   */
  predicate ReturnFits(ps: PS.ProcessSet, ws: seq<set<int>>, reading: seq<bool>, readval: seq<Option<Payload>>, reg: nat, o: Out)
  {
    var k := RegOf(o);
    reg <= k < NUM_REGISTERS && k < |reading| && k < |readval| &&
    Completes(ps, ws, k) && o == ReturnOf(reading[k], k, readval[k])
  }

  /** Returns in strictly increasing register order. */
  predicate Ascending(out: seq<Out>)
  {
    forall i, j :: 0 <= i < j < |out| ==> RegOf(out[i]) < RegOf(out[j])
  }

  /**
   * Every return the scan emits is that of a complete register at or past
   * the start, with the value of its pending read or as a write, and the
   * returns come in register order, so no register returns twice.
   */
  lemma {:induction false} SweepReturnsComplete(ps: PS.ProcessSet, ws: seq<set<int>>, reading: seq<bool>, readval: seq<Option<Payload>>, reg: nat)
    requires reg <= NUM_REGISTERS && |reading| == NUM_REGISTERS && |readval| == NUM_REGISTERS
    ensures var r := SweepFrom(ps, ws, reading, readval, reg);
      && (forall i :: 0 <= i < |r.out| ==> ReturnFits(ps, ws, reading, readval, reg, r.out[i]))
      && Ascending(r.out)
    decreases NUM_REGISTERS - reg
  {
    if reg < NUM_REGISTERS && AckedFrom(ps, Entry(ws, reg), 0).Some? {
      if Completes(ps, ws, reg) {
        if reg < |ws| {
          SweepReturnsComplete(ps, ws[reg := {}], reading[reg := false], readval, reg + 1);
          CompleteStepFits(ps, ws, reading, readval, reg);
        }
      } else {
        SweepReturnsComplete(ps, ws, reading, readval, reg + 1);
        var r := SweepFrom(ps, ws, reading, readval, reg);
        var rest := SweepFrom(ps, ws, reading, readval, reg + 1);
        assert r == rest;
        forall i | 0 <= i < |r.out|
          ensures ReturnFits(ps, ws, reading, readval, reg, r.out[i])
        {
          assert ReturnFits(ps, ws, reading, readval, reg + 1, rest.out[i]);
        }
      }
    }
  }

  /** The step of the scan at a complete register: its return, then those of the rest of the scan. */
  lemma CompleteStepFits(ps: PS.ProcessSet, ws: seq<set<int>>, reading: seq<bool>, readval: seq<Option<Payload>>, reg: nat)
    requires reg < NUM_REGISTERS && reg < |ws| && |reading| == NUM_REGISTERS && |readval| == NUM_REGISTERS
    requires AckedFrom(ps, Entry(ws, reg), 0) == Some(true)
    requires var rest := SweepFrom(ps, ws[reg := {}], reading[reg := false], readval, reg + 1);
      && (forall i :: 0 <= i < |rest.out| ==> ReturnFits(ps, ws[reg := {}], reading[reg := false], readval, reg + 1, rest.out[i]))
      && Ascending(rest.out)
    ensures var r := SweepFrom(ps, ws, reading, readval, reg);
      && (forall i :: 0 <= i < |r.out| ==> ReturnFits(ps, ws, reading, readval, reg, r.out[i]))
      && Ascending(r.out)
  {
    var r := SweepFrom(ps, ws, reading, readval, reg);
    var ws', reading' := ws[reg := {}], reading[reg := false];
    var rest := SweepFrom(ps, ws', reading', readval, reg + 1);
    var ret := ReturnOf(reading[reg], reg, readval[reg]);
    assert r.out == [ret] + rest.out;
    forall i | 0 <= i < |r.out|
      ensures ReturnFits(ps, ws, reading, readval, reg, r.out[i])
    {
      if i > 0 {
        var o := rest.out[i - 1];
        assert r.out[i] == o;
        assert ReturnFits(ps, ws', reading', readval, reg + 1, o);
        var k := RegOf(o);
        assert Entry(ws', k) == Entry(ws, k);
      }
    }
    forall i, j | 0 <= i < j < |r.out|
      ensures RegOf(r.out[i]) < RegOf(r.out[j])
    {
      assert r.out[j] == rest.out[j - 1];
      assert ReturnFits(ps, ws', reading', readval, reg + 1, rest.out[j - 1]);
      if i > 0 {
        assert r.out[i] == rest.out[i - 1];
      }
    }
  }

  /**
   * Without a raise, exactly the complete registers return: each of them
   * has its write set emptied and its read ended, every other register is
   * left as it was.
   */
  lemma {:induction false} SweepCompletes(ps: PS.ProcessSet, ws: seq<set<int>>, reading: seq<bool>, readval: seq<Option<Payload>>, reg: nat)
    requires reg <= NUM_REGISTERS && |reading| == NUM_REGISTERS && |readval| == NUM_REGISTERS
    requires !SweepFrom(ps, ws, reading, readval, reg).raised
    ensures var r := SweepFrom(ps, ws, reading, readval, reg);
      forall k :: reg <= k < NUM_REGISTERS ==>
        if Completes(ps, ws, k) then
          k < |ws| && r.ws[k] == {} && !r.reading[k] && ReturnOf(reading[k], k, readval[k]) in r.out
        else r.reading[k] == reading[k] && (k < |ws| ==> r.ws[k] == ws[k])
    decreases NUM_REGISTERS - reg
  {
    if reg < NUM_REGISTERS {
      if Completes(ps, ws, reg) {
        var ws', reading' := ws[reg := {}], reading[reg := false];
        SweepCompletes(ps, ws', reading', readval, reg + 1);
        SweepFrame(ps, ws', reading', readval, reg + 1);
        forall k | reg < k < NUM_REGISTERS
          ensures Completes(ps, ws', k) == Completes(ps, ws, k) && reading'[k] == reading[k]
        {
          assert Entry(ws', k) == Entry(ws, k);
        }
      } else {
        SweepCompletes(ps, ws, reading, readval, reg + 1);
        SweepFrame(ps, ws, reading, readval, reg + 1);
      }
    }
  }

  /** The whole scan. */
  function SweepAll(ps: PS.ProcessSet, ws: seq<set<int>>, reading: seq<bool>, readval: seq<Option<Payload>>): (r: Sweep)
    requires |reading| == NUM_REGISTERS && |readval| == NUM_REGISTERS
  {
    SweepFrom(ps, ws, reading, readval, 0)
  }

  /**
   * A request returns once: right after a register returned, the next scan
   * does not return it again while some process is still believed correct,
   * because its write set was emptied.
   */
  lemma ReturnsOnce(ps: PS.ProcessSet, ws: seq<set<int>>, reading: seq<bool>, readval: seq<Option<Payload>>, k: int)
    requires |reading| == NUM_REGISTERS && |readval| == NUM_REGISTERS
    requires !SweepAll(ps, ws, reading, readval).raised && 0 <= k < NUM_REGISTERS && Completes(ps, ws, k)
    requires exists j :: PS.IsCorrect(ps, j)
    ensures var r := SweepAll(ps, ws, reading, readval);
      forall o :: o in SweepAll(ps, r.ws, r.reading, readval).out ==> RegOf(o) != k
  {
    var r := SweepAll(ps, ws, reading, readval);
    SweepCompletes(ps, ws, reading, readval, 0);
    SweepReturnsComplete(ps, r.ws, r.reading, readval, 0);
    var j :| PS.IsCorrect(ps, j);
    assert !Completes(ps, r.ws, k) by {
      assert j !in r.ws[k];
    }
  }

  /**
   * With no process believed correct the scan is vacuous: every register
   * whose write set exists returns on every scan, pending request or not.
   */
  lemma NoCorrectReturnsAll(ps: PS.ProcessSet, ws: seq<set<int>>, reading: seq<bool>, readval: seq<Option<Payload>>)
    requires |reading| == NUM_REGISTERS && |readval| == NUM_REGISTERS && |ws| >= NUM_REGISTERS
    requires PS.Full(ps) && forall j :: 0 <= j < |ps.procs| ==> !ps.procs[j].value.correct
    ensures var r := SweepAll(ps, ws, reading, readval);
      !r.raised && forall k :: 0 <= k < NUM_REGISTERS ==> ReturnOf(reading[k], k, readval[k]) in r.out
  {
    var r := SweepAll(ps, ws, reading, readval);
    forall k | 0 <= k < NUM_REGISTERS
      ensures Completes(ps, ws, k)
    {
    }
    SweepNeverRaises(ps, ws, reading, readval, 0);
    SweepCompletes(ps, ws, reading, readval, 0);
  }

  /** A scan raises only on an empty slot or a missing write set. */
  lemma {:induction false} SweepNeverRaises(ps: PS.ProcessSet, ws: seq<set<int>>, reading: seq<bool>, readval: seq<Option<Payload>>, reg: nat)
    requires reg <= NUM_REGISTERS && |reading| == NUM_REGISTERS && |readval| == NUM_REGISTERS
    requires PS.Full(ps) && |ws| >= NUM_REGISTERS
    ensures !SweepFrom(ps, ws, reading, readval, reg).raised
    decreases NUM_REGISTERS - reg
  {
    if reg < NUM_REGISTERS {
      AckedFromSome(ps, Entry(ws, reg), 0);
      if Completes(ps, ws, reg) {
        SweepNeverRaises(ps, ws[reg := {}], reading[reg := false], readval, reg + 1);
      } else {
        SweepNeverRaises(ps, ws, reading, readval, reg + 1);
      }
    }
  }

  lemma {:induction false} AckedFromSome(ps: PS.ProcessSet, acks: Option<set<int>>, i: nat)
    requires i <= |ps.procs| && PS.Full(ps) && acks.Some?
    ensures AckedFrom(ps, acks, i).Some?
    decreases |ps.procs| - i
  {
    if i < |ps.procs| {
      AckedFromSome(ps, acks, i + 1);
    }
  }
}
