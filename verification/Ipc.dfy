// Mailboxes and blocked receivers (kernel/ipc.c).

module Ipc {
  import opened Bytes
  import opened Procs

  const BOXES := 32
  const MSG_SIZE := 28

  datatype Message = Message(src: int, dst: int, kind: U32, arg1: U32, arg2: U32, arg3: U32, arg4: U32) {
    /** Both pids are 32-bit signed integers. */
    predicate Ok() {
      -0x8000_0000 <= src < 0x8000_0000 && -0x8000_0000 <= dst < 0x8000_0000
    }
  }

  function Encode(m: Message): (b: seq<Byte>)
    ensures |b| == MSG_SIZE
  {
    EncodeWords([Wrap(m.src), Wrap(m.dst), m.kind, m.arg1, m.arg2, m.arg3, m.arg4])
  }

  function Decode(b: seq<Byte>): (m: Message)
    requires |b| == MSG_SIZE
    ensures m.Ok()
  {
    var w := DecodeWords(b);
    Message(Signed(w[0]), Signed(w[1]), w[2], w[3], w[4], w[5], w[6])
  }

  /** A message survives being laid out in user memory. */
  lemma MessageRoundTrip(m: Message)
    requires m.Ok()
    ensures Decode(Encode(m)) == m
  {
    hide EncodeWords, DecodeWords;
    WordsRoundTrip([Wrap(m.src), Wrap(m.dst), m.kind, m.arg1, m.arg2, m.arg3, m.arg4]);
    SignedWrap(m.src);
    SignedWrap(m.dst);
  }

  /** The seven words of `struct ipc_message`, in the order of its members. */
  lemma MessageLayout(m: Message)
    ensures var b := Encode(m);
            && b[0..4] == EncodeWord(Wrap(m.src)) && b[4..8] == EncodeWord(Wrap(m.dst)) && b[8..12] == EncodeWord(m.kind)
            && b[12..16] == EncodeWord(m.arg1) && b[16..20] == EncodeWord(m.arg2)
            && b[20..24] == EncodeWord(m.arg3) && b[24..28] == EncodeWord(m.arg4)
  {
    hide EncodeWord, EncodeWords;
    var ws := [Wrap(m.src), Wrap(m.dst), m.kind, m.arg1, m.arg2, m.arg3, m.arg4];
    WordAt(ws, 0);
    WordAt(ws, 1);
    WordAt(ws, 2);
    WordAt(ws, 3);
    WordAt(ws, 4);
    WordAt(ws, 5);
    WordAt(ws, 6);
  }

  const NO_MESSAGE := Message(0, 0, 0, 0, 0, 0, 0)

  datatype Mailbox = Mailbox(used: bool, pid: int, full: bool, msg: Message)
  datatype Waiter = Waiter(active: bool, pid: int, ptr: U32)

  const NO_WAITER := Waiter(false, -1, 0)

  datatype Boxes = Boxes(box: seq<Mailbox>, waiter: seq<Waiter>) {
    predicate Shape() {
      |box| == BOXES && |waiter| == BOXES
    }
  }

  function FindBox(i: Boxes, pid: int): (r: int)
    ensures r < |i.box|
  {
    FirstIndex(i.box, (x: Mailbox) => x.used && x.pid == pid)
  }

  function FreeBox(i: Boxes): (r: int)
    ensures r < |i.box|
  {
    FirstIndex(i.box, (x: Mailbox) => !x.used)
  }

  function FindWaiter(i: Boxes, pid: int): (r: int)
    ensures r < |i.waiter|
  {
    FirstIndex(i.waiter, (x: Waiter) => x.active && x.pid == pid)
  }

  function FreeWaiter(i: Boxes): (r: int)
    ensures r < |i.waiter|
  {
    FirstIndex(i.waiter, (x: Waiter) => !x.active)
  }

  function Init(): (i: Boxes)
    ensures i.Shape()
  {
    Boxes(seq(BOXES, k => Mailbox(false, -1, false, NO_MESSAGE)), seq(BOXES, k => NO_WAITER))
  }

  /** `ipc_block_recv`. */
  function BlockRecv(i: Boxes, p: Table, pid: int, ptr: U32): (r: (Boxes, bool))
    ensures i.Shape() ==> r.0.Shape()
  {
    if pid < 0 || StateOf(p, pid) == Unused then (i, false)
    else
      var w := if FindWaiter(i, pid) >= 0 then FindWaiter(i, pid) else FreeWaiter(i);
      if w < 0 then (i, false) else (i.(waiter := i.waiter[w := Waiter(true, pid, ptr)]), true)
  }

  function ClearWaiter(i: Boxes, w: int): (r: Boxes)
    requires 0 <= w < |i.waiter|
    ensures i.Shape() ==> r.Shape()
  {
    i.(waiter := i.waiter[w := NO_WAITER])
  }

  /** The mailbox half of `ipc_send`: the first message for `pid` claims a box, a full box refuses. */
  function Post(i: Boxes, pid: int, msg: Message): (r: (Boxes, bool))
    ensures i.Shape() ==> r.0.Shape()
  {
    var s := FindBox(i, pid);
    if s >= 0 then
      if i.box[s].full then (i, false)
      else (i.(box := i.box[s := i.box[s].(msg := msg, full := true)]), true)
    else
      var f := FreeBox(i);
      if f < 0 then (i, false)
      else (i.(box := i.box[f := Mailbox(true, pid, true, msg)]), true)
  }

  /** `ipc_recv`: the pending message, taken out of the box. */
  function Take(i: Boxes, pid: int): (r: (Boxes, seq<Message>))
    ensures i.Shape() ==> r.0.Shape()
  {
    var s := FindBox(i, pid);
    if pid < 0 || s < 0 || !i.box[s].full then (i, [])
    else (i.(box := i.box[s := i.box[s].(full := false, msg := NO_MESSAGE)]), [i.box[s].msg])
  }
}
