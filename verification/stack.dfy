/**
 * The message stack of the textbook protocols. A handler pushes header
 * fields onto the message of an event on the way down and the peer pops them
 * in reverse order on the way up. Objects pushed with `pushObject` are kept
 * here by kind: message identifiers, vector clocks, socket addresses, byte
 * arrays, class names and application values (which may be `null`).
 */
module Stack {
  import opened Common

  /** `MessageID`: the number of the process that broadcast a message and its sequence number there. */
  datatype MsgId = MsgId(process: int, seqNumber: int)

  datatype Item =
    | IntItem(i: int)
    | StrItem(s: string)
    | AddrItem(a: Addr)
    | BytesItem(b: Payload)
    | IdItem(id: MsgId)
    | ClockItem(vc: seq<int>)
    | ValItem(v: Option<Payload>)

  /** The top of the stack is the last element. */
  type Message = seq<Item>

  function Push(m: Message, x: Item): (r: Message)
    ensures |r| == |m| + 1 && r[|m|] == x && r[..|m|] == m
  {
    m + [x]
  }

  /** `pop`: the top item and the rest, or `None` when the stack is empty (the Java call raises). */
  function Pop(m: Message): (r: Option<(Item, Message)>)
    ensures r.None? <==> m == []
    ensures r.Some? ==> Push(r.value.1, r.value.0) == m
  {
    if m == [] then None else Some((m[|m| - 1], m[..|m| - 1]))
  }

  /** `popInt`: `None` when the stack is empty or its top is not an int. */
  function PopInt(m: Message): (r: Option<(int, Message)>)
    ensures r.Some? <==> m != [] && m[|m| - 1].IntItem?
    ensures r.Some? ==> Push(r.value.1, IntItem(r.value.0)) == m
  {
    match Pop(m)
    case Some((IntItem(i), rest)) => Some((i, rest))
    case _ => None
  }

  /** Popping undoes pushing. */
  lemma PopPush(m: Message, x: Item)
    ensures Pop(Push(m, x)) == Some((x, m))
  {
  }

  lemma PopIntPush(m: Message, i: int)
    ensures PopInt(Push(m, IntItem(i))) == Some((i, m))
  {
    PopPush(m, IntItem(i));
  }
}
