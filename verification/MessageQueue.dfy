/** message_queue.c: message bodies grow up from the start of one block of memory, the records
    that describe them grow down from its end. */
module MessageQueue {

  import opened Seqs

  datatype State = UNSENT | AWAITING_ACK | COMPLETE

  /** struct message_item; `start` is an offset from mem_start. */
  datatype Item = Item(start: nat, size: nat, state: State)

  /** Bytes a record takes up. */
  const ITEM: nat := 24

  /** A cell of the block: a byte of a body, or byte `k` of a record. */
  datatype Cell = Byte(b: byte) | Piece(item: Item, k: nat)

  /** A queued message, as its user sees it. */
  datatype Message = Message(body: seq<byte>, state: State)

  // ---------- the layout ----------

  function Cells(body: seq<byte>): (cs: seq<Cell>)
    ensures |cs| == |body|
  {
    seq(|body|, i requires 0 <= i < |body| => Byte(body[i]))
  }

  /** All bodies, one after the other. */
  function Flat(msgs: seq<Message>): seq<Cell> {
    if msgs == [] then [] else Cells(msgs[0].body) + Flat(msgs[1..])
  }

  /** Where body `i` starts. */
  function Start(msgs: seq<Message>, i: nat): nat
    requires i <= |msgs|
  {
    |Flat(msgs[..i])|
  }

  function Record(msgs: seq<Message>, i: nat): Item
    requires i < |msgs|
  {
    Item(Start(msgs, i), |msgs[i].body|, msgs[i].state)
  }

  /** A record at offset `at`. */
  ghost predicate Holds(mem: seq<Cell>, at: int, item: Item) {
    0 <= at && at + ITEM <= |mem| && forall k: nat :: k < ITEM ==> mem[at + k] == Piece(item, k)
  }

  /** mq_get */
  function Get(size: int, i: nat): int { size - ITEM * (i + 1) }

  ghost predicate RecordsHeld(mem: seq<Cell>, msgs: seq<Message>) {
    forall i: nat :: i < |msgs| ==> Holds(mem, Get(|mem|, i), Record(msgs, i))
  }

  /** Bodies from the start, in order and without gaps; records from the end; no overlap. */
  ghost predicate Layout(mem: seq<Cell>, msgs: seq<Message>) {
    && |Flat(msgs)| + ITEM * |msgs| <= |mem|
    && mem[..|Flat(msgs)|] == Flat(msgs)
    && RecordsHeld(mem, msgs)
  }

  lemma {:induction false} FlatSplit(msgs: seq<Message>, k: nat)
    requires k <= |msgs|
    ensures Flat(msgs) == Flat(msgs[..k]) + Flat(msgs[k..])
  {
    if k == 0 {
      assert msgs[..0] == [] && msgs[0..] == msgs;
    } else {
      FlatSplit(msgs[1..], k - 1);
      assert msgs[..k][1..] == msgs[1..][..k - 1] && msgs[1..][k - 1..] == msgs[k..];
      assert msgs[..k][0] == msgs[0];
    }
  }

  lemma FlatOne(m: Message)
    ensures Flat([m]) == Cells(m.body)
  {
    assert Flat([m][1..]) == [];
  }

  /** A record written in full. */
  function Written(mem: seq<Cell>, at: nat, item: Item): (after: seq<Cell>)
    requires at + ITEM <= |mem|
    ensures |after| == |mem|
  {
    mem[..at] + seq(ITEM, k requires 0 <= k < ITEM => Piece(item, k)) + mem[at + ITEM..]
  }

  lemma WrittenHolds(mem: seq<Cell>, at: nat, item: Item)
    requires at + ITEM <= |mem|
    ensures Holds(Written(mem, at, item), at, item)
    ensures forall p, i :: Holds(mem, p, i) && (p + ITEM <= at || at + ITEM <= p) ==> Holds(Written(mem, at, item), p, i)
    ensures Written(mem, at, item)[..at] == mem[..at]
  {
  }

  // ---------- registering ----------

  lemma StartAppend(msgs: seq<Message>, m: Message)
    ensures Flat(msgs + [m]) == Flat(msgs) + Cells(m.body)
    ensures forall i: nat :: i < |msgs| ==> Record(msgs + [m], i) == Record(msgs, i)
    ensures Record(msgs + [m], |msgs|) == Item(|Flat(msgs)|, |m.body|, m.state)
  {
    var after := msgs + [m];
    FlatSplit(after, |msgs|);
    assert after[..|msgs|] == msgs && after[|msgs|..] == [m];
    FlatOne(m);
    forall i: nat | i < |msgs| ensures Record(after, i) == Record(msgs, i) {
      assert after[..i] == msgs[..i];
    }
  }

  lemma Registered(mem: seq<Cell>, msgs: seq<Message>, body: seq<byte>)
    requires Layout(mem, msgs) && |Flat(msgs)| + |body| + ITEM * (|msgs| + 1) <= |mem|
    requires mem[|Flat(msgs)|..|Flat(msgs)| + |body|] == Cells(body)
    ensures var item := Item(|Flat(msgs)|, |body|, UNSENT);
            Layout(Written(mem, Get(|mem|, |msgs|), item), msgs + [Message(body, UNSENT)])
  {
    var m, item, at := Message(body, UNSENT), Item(|Flat(msgs)|, |body|, UNSENT), Get(|mem|, |msgs|);
    var after, c := Written(mem, at, item), |Flat(msgs)|;
    StartAppend(msgs, m);
    WrittenHolds(mem, at, item);
    hide Flat, Written, Holds, Cells;
    assert after[..c + |body|] == after[..at][..c + |body|] == mem[..at][..c + |body|];
    assert mem[..at][..c + |body|] == mem[..c] + mem[c..c + |body|];
    forall i: nat | i < |msgs| + 1 ensures Holds(after, Get(|mem|, i), Record(msgs + [m], i)) {
      assert i < |msgs| ==> Holds(mem, Get(|mem|, i), Record(msgs, i));
    }
  }

  // ---------- changing a state ----------

  lemma StateChanged(mem: seq<Cell>, msgs: seq<Message>, i: nat, state: State)
    requires Layout(mem, msgs) && i < |msgs|
    ensures var item := Item(Start(msgs, i), |msgs[i].body|, state);
            Layout(Written(mem, Get(|mem|, i), item), msgs[i := msgs[i].(state := state)])
  {
    var item, at := Item(Start(msgs, i), |msgs[i].body|, state), Get(|mem|, i);
    var after, changed := Written(mem, at, item), msgs[i := msgs[i].(state := state)];
    WrittenHolds(mem, at, item);
    forall j: nat | j <= |msgs| ensures Flat(changed[..j]) == Flat(msgs[..j]) { SameBodies(changed[..j], msgs[..j]); }
    assert changed[..|msgs|] == changed && msgs[..|msgs|] == msgs;
    hide Flat, Written, Holds;
    var c := |Flat(msgs)|;
    assert after[..c] == after[..at][..c] == mem[..at][..c] == mem[..c];
    forall j: nat | j < |changed| ensures Holds(after, Get(|mem|, j), Record(changed, j)) {
      assert Holds(mem, Get(|mem|, j), Record(msgs, j));
    }
  }

  lemma {:induction false} SameBodies(a: seq<Message>, b: seq<Message>)
    requires |a| == |b| && forall i :: 0 <= i < |a| ==> a[i].body == b[i].body
    ensures Flat(a) == Flat(b)
  {
    if a != [] {
      SameBodies(a[1..], b[1..]);
    }
  }

  // ---------- cleaning ----------

  /** What mq_clean leaves: everything from the first message that is not complete. */
  function Clean(msgs: seq<Message>): seq<Message> {
    if msgs != [] && msgs[0].state == COMPLETE then Clean(msgs[1..]) else msgs
  }

  /** The longest complete prefix goes, and nothing else. */
  lemma {:induction false} CleanMeaning(msgs: seq<Message>)
    ensures exists k: nat :: LongestComplete(msgs, k) && Clean(msgs) == msgs[k..]
  {
    var k := CompletePrefix(msgs);
    CleanAt(msgs, k);
  }

  predicate LongestComplete(msgs: seq<Message>, k: nat) {
    && k <= |msgs| && (forall i :: 0 <= i < k ==> msgs[i].state == COMPLETE)
    && (k < |msgs| ==> msgs[k].state != COMPLETE)
  }

  function CompletePrefix(msgs: seq<Message>): (k: nat)
    ensures LongestComplete(msgs, k)
  {
    if msgs != [] && msgs[0].state == COMPLETE then
      var k := CompletePrefix(msgs[1..]);
      assert forall i :: 0 < i < k + 1 ==> msgs[i] == msgs[1..][i - 1];
      k + 1
    else 0
  }

  lemma {:induction false} CleanAt(msgs: seq<Message>, k: nat)
    requires LongestComplete(msgs, k)
    ensures Clean(msgs) == msgs[k..]
  {
    if k > 0 {
      CleanAt(msgs[1..], k - 1);
    }
  }

  /** memmove within the block */
  function Moved(mem: seq<Cell>, to: nat, from: nat, n: nat): (after: seq<Cell>)
    requires to + n <= |mem| && from + n <= |mem|
    ensures |after| == |mem|
  {
    mem[..to] + mem[from..from + n] + mem[to + n..]
  }

  lemma MovedHolds(mem: seq<Cell>, to: nat, from: nat, n: nat)
    requires to + n <= |mem| && from + n <= |mem|
    ensures forall p, i :: Holds(mem, p, i) && from <= p && p + ITEM <= from + n ==> Holds(Moved(mem, to, from, n), p - from + to, i)
    ensures forall p, i :: Holds(mem, p, i) && (p + ITEM <= to || to + n <= p) ==> Holds(Moved(mem, to, from, n), p, i)
    ensures Moved(mem, to, from, n)[..to] == mem[..to]
    ensures Moved(mem, to, from, n)[to..to + n] == mem[from..from + n]
  {
    var after := Moved(mem, to, from, n);
    forall p, i | Holds(mem, p, i) && from <= p && p + ITEM <= from + n ensures Holds(after, p - from + to, i) {
      forall k: nat | k < ITEM ensures after[p - from + to + k] == Piece(i, k) {
        assert after[p - from + to + k] == mem[p + k];
      }
    }
  }

  lemma StartDrop(msgs: seq<Message>, k: nat)
    requires k <= |msgs|
    ensures Flat(msgs) == Flat(msgs[..k]) + Flat(msgs[k..])
    ensures forall i: nat :: i < |msgs| - k ==> Start(msgs, k + i) == Start(msgs, k) + Start(msgs[k..], i)
  {
    FlatSplit(msgs, k);
    hide Flat;
    forall i: nat | i < |msgs| - k ensures Start(msgs, k + i) == Start(msgs, k) + Start(msgs[k..], i) {
      StartSplit(msgs, k, i);
    }
  }

  lemma StartSplit(msgs: seq<Message>, k: nat, i: nat)
    requires k + i <= |msgs|
    ensures Start(msgs, k + i) == Start(msgs, k) + Start(msgs[k..], i)
  {
    FlatSplit(msgs[..k + i], k);
    hide Flat;
    assert msgs[..k + i][..k] == msgs[..k];
    assert msgs[..k + i][k..] == msgs[k..][..i];
  }

  /** `i` records have their new starts, the others still the old ones. */
  ghost predicate Bumped(mem: seq<Cell>, msgs: seq<Message>, removing: nat, i: nat) {
    && |Flat(msgs)| + ITEM * |msgs| <= |mem|
    && mem[..|Flat(msgs)|] == Flat(msgs)
    && forall j: nat :: j < |msgs| ==> Holds(mem, Get(|mem|, j), Shifted(msgs, j, if j < i then 0 else removing))
  }

  function Shifted(msgs: seq<Message>, j: nat, more: nat): Item
    requires j < |msgs|
  {
    Item(Start(msgs, j) + more, |msgs[j].body|, msgs[j].state)
  }

  lemma BodiesMoved(mem: seq<Cell>, msgs: seq<Message>, k: nat)
    requires Layout(mem, msgs) && k <= |msgs|
    ensures var s, rest := Start(msgs, k), |Flat(msgs[k..])|;
            && s + rest == |Flat(msgs)|
            && Moved(mem, 0, s, rest)[..rest] == Flat(msgs[k..])
            && RecordsHeld(Moved(mem, 0, s, rest), msgs)
  {
    var s, rest := Start(msgs, k), |Flat(msgs[k..])|;
    StartDrop(msgs, k);
    MovedHolds(mem, 0, s, rest);
    hide Flat, Moved, Holds;
    var after := Moved(mem, 0, s, rest);
    assert mem[s..s + rest] == mem[..s + rest][s..];
    forall i: nat | i < |msgs| ensures Holds(after, Get(|mem|, i), Record(msgs, i)) {
      assert Holds(mem, Get(|mem|, i), Record(msgs, i));
    }
  }

  lemma RecordsMoved(mem: seq<Cell>, msgs: seq<Message>, k: nat)
    requires k < |msgs| && |Flat(msgs)| + ITEM * |msgs| <= |mem| && RecordsHeld(mem, msgs)
    requires |Flat(msgs[k..])| <= |Flat(msgs)| && mem[..|Flat(msgs[k..])|] == Flat(msgs[k..])
    ensures var n := ITEM * (|msgs| - k);
            Bumped(Moved(mem, |mem| - n, |mem| - ITEM * |msgs|, n), msgs[k..], Start(msgs, k), 0)
  {
    var n, rest, c := ITEM * (|msgs| - k), msgs[k..], |Flat(msgs[k..])|;
    var to, from := |mem| - n, |mem| - ITEM * |msgs|;
    var after := Moved(mem, to, from, n);
    StartDrop(msgs, k);
    MovedHolds(mem, to, from, n);
    hide Flat, Moved, Holds, Start;
    assert after[..c] == after[..to][..c] == mem[..to][..c] == mem[..c];
    forall j: nat | j < |rest| ensures Holds(after, Get(|mem|, j), Shifted(rest, j, Start(msgs, k))) {
      RecordMoved(mem, msgs, k, j);
    }
  }

  lemma RecordMoved(mem: seq<Cell>, msgs: seq<Message>, k: nat, j: nat)
    requires k + j < |msgs| && ITEM * |msgs| <= |mem| && RecordsHeld(mem, msgs)
    ensures var n := ITEM * (|msgs| - k);
            Holds(Moved(mem, |mem| - n, |mem| - ITEM * |msgs|, n), Get(|mem|, j), Shifted(msgs[k..], j, Start(msgs, k)))
  {
    var n := ITEM * (|msgs| - k);
    var to, from := |mem| - n, |mem| - ITEM * |msgs|;
    StartDrop(msgs, k);
    MovedHolds(mem, to, from, n);
    hide Flat, Moved, Holds, Start;
    assert Record(msgs, k + j) == Shifted(msgs[k..], j, Start(msgs, k));
    assert Holds(mem, Get(|mem|, k + j), Record(msgs, k + j));
    assert Get(|mem|, k + j) - from + to == Get(|mem|, j);
  }

  lemma BumpOne(mem: seq<Cell>, msgs: seq<Message>, removing: nat, i: nat)
    requires Bumped(mem, msgs, removing, i) && i < |msgs|
    ensures Bumped(Written(mem, Get(|mem|, i), Record(msgs, i)), msgs, removing, i + 1)
  {
    var at, c := Get(|mem|, i), |Flat(msgs)|;
    var after := Written(mem, at, Record(msgs, i));
    WrittenHolds(mem, at, Record(msgs, i));
    hide Flat, Written, Holds;
    assert after[..c] == after[..at][..c] == mem[..at][..c] == mem[..c];
    forall j: nat | j < |msgs| ensures Holds(after, Get(|mem|, j), Shifted(msgs, j, if j < i + 1 then 0 else removing)) {
      assert Holds(mem, Get(|mem|, j), Shifted(msgs, j, if j < i then 0 else removing));
    }
  }

  lemma BumpDone(mem: seq<Cell>, msgs: seq<Message>, removing: nat)
    requires Bumped(mem, msgs, removing, |msgs|)
    ensures Layout(mem, msgs)
  {
    hide Flat, Holds;
  }

  // ---------- the queue ----------

  class MessageQueue {
    const mem: array<Cell>
    var curr: nat
    var currSz: nat
    /** The offset of the newest record; mem.Length when there is none. */
    var queueTail: int
    ghost var msgs: seq<Message>

    ghost predicate Valid()
      reads this, mem
    {
      && Layout(mem[..], msgs) && curr == |Flat(msgs)|
      && queueTail == mem.Length - ITEM * |msgs| && currSz == Room()
    }

    /** mq_currsz */
    function Room(): nat
      reads this
    {
      if curr >= queueTail - ITEM then 0 else queueTail - ITEM - curr
    }

    /** mq_init */
    constructor (buf: array<Cell>)
      ensures Valid() && msgs == [] && mem == buf && currSz == if mem.Length < ITEM then 0 else mem.Length - ITEM
    {
      mem, curr, queueTail, msgs := buf, 0, buf.Length, [];
      currSz := if 0 >= buf.Length - ITEM then 0 else buf.Length - ITEM;
    }

    /** What a packer does before mq_register: it fills the room at `curr`. */
    method Pack(body: seq<byte>)
      requires Valid() && |body| <= currSz
      modifies mem
      ensures Valid() && mem[curr..curr + |body|] == Cells(body)
    {
      ghost var before := mem[..];
      forall i | 0 <= i < |body| {
        mem[curr + i] := Byte(body[i]);
      }
      Packed(before, mem[..], msgs, body);
    }

    method PutItem(at: nat, item: Item)
      requires at + ITEM <= mem.Length
      modifies mem
      ensures mem[..] == Written(old(mem[..]), at, item)
    {
      var pieces := seq(ITEM, k requires 0 <= k < ITEM => Piece(item, k));
      forall k | 0 <= k < ITEM {
        mem[at + k] := pieces[k];
      }
    }

    method ReadItem(at: nat, ghost item: Item) returns (it: Item)
      requires Holds(mem[..], at, item)
      ensures it == item
    {
      var k: nat := 0;
      assert mem[..][at + k] == Piece(item, k);
      it := mem[at].item;
    }

    /** mq_register, of a body that was packed at `curr` and leaves room for its record: one of
        at most `currSz` bytes, if it has any. */
    method Register(ghost body: seq<byte>, nbytes: nat) returns (item: int)
      requires Valid() && curr + nbytes + ITEM <= queueTail && nbytes == |body|
      requires mem[curr..curr + nbytes] == Cells(body)
      modifies this, mem
      ensures Valid() && msgs == old(msgs) + [Message(body, UNSENT)] && item == Get(mem.Length, |old(msgs)|)
    {
      assert mem[..][curr..curr + nbytes] == mem[curr..curr + nbytes];
      Registered(mem[..], msgs, body);
      StartAppend(msgs, Message(body, UNSENT));
      hide Flat, Layout, Written, Cells, Record, Holds, RecordsHeld;
      queueTail := queueTail - ITEM;
      PutItem(queueTail, Item(curr, nbytes, UNSENT));
      msgs := msgs + [Message(body, UNSENT)];
      curr := curr + nbytes;
      currSz := Room();
      item := queueTail;
    }

    /** A user of the queue moving a message on. */
    method SetState(i: nat, state: State)
      requires Valid() && i < |msgs|
      modifies this, mem
      ensures Valid() && msgs == old(msgs)[i := old(msgs)[i].(state := state)]
    {
      StateChanged(mem[..], msgs, i, state);
      SameBodies(msgs, msgs[i := msgs[i].(state := state)]);
      ghost var record := Record(msgs, i);
      assert Holds(mem[..], Get(mem.Length, i), record);
      var at := Get(mem.Length, i);
      hide Flat, Written, Holds;
      var it := ReadItem(at, record);
      PutItem(at, it.(state := state));
      msgs := msgs[i := msgs[i].(state := state)];
    }

    /** mq_clean */
    method CleanUp()
      requires Valid()
      modifies this, mem
      ensures Valid() && msgs == Clean(old(msgs))
    {
      hide Flat, Holds;
      var n := (mem.Length - queueTail) / 24;
      assert n == |msgs|;
      assert msgs[0..] == msgs;
      var head: nat := 0;
      while head < n
        invariant head <= n == |msgs| && Valid() && msgs == old(msgs)
        invariant forall i :: 0 <= i < head ==> msgs[i].state == COMPLETE
      {
        assert Holds(mem[..], Get(mem.Length, head), Record(msgs, head));
        var it := ReadItem(Get(mem.Length, head), Record(msgs, head));
        if it.state != COMPLETE {
          break;
        }
        head := head + 1;
      }
      CleanAt(msgs, head);
      assert msgs[|msgs|..] == [];
      if head == n {
        Emptied(mem[..]);
        curr, queueTail, msgs := 0, mem.Length, [];
        currSz := Room();
        return;
      } else if head == 0 {
        return;
      }
      Compact(head, n);
    }

    /** One use of the queue. A body without room for it and its record is not packed. */
    method Perform(op: Op)
      requires Valid()
      modifies this, mem
      ensures Valid() && msgs == Step(old(msgs), op, mem.Length)
    {
      match op
      case Add(body) => {
        if curr + |body| + ITEM <= queueTail {
          Pack(body);
          var _ := Register(body, |body|);
        }
      }
      case Change(i, state) => {
        if i < (mem.Length - queueTail) / ITEM {
          SetState(i, state);
        }
      }
      case Sweep => {
        CleanUp();
      }
    }

    method Move(to: nat, from: nat, n: nat)
      requires to + n <= mem.Length && from + n <= mem.Length
      modifies mem
      ensures mem[..] == Moved(old(mem[..]), to, from, n)
    {
      var source := mem[from..from + n];
      forall i | 0 <= i < n {
        mem[to + i] := source[i];
      }
    }

    /** The second half of mq_clean: bodies and records are moved together and the starts
        adjusted. */
    method Compact(head: nat, n: nat)
      requires Valid() && 0 < head < n == |msgs|
      modifies this, mem
      ensures Valid() && msgs == old(msgs)[head..]
    {
      hide Flat, Holds, Moved;
      assert Holds(mem[..], Get(mem.Length, head), Record(msgs, head));
      var headItem := ReadItem(Get(mem.Length, head), Record(msgs, head));
      BodiesMoved(mem[..], msgs, head);
      var nbytes, removing := curr - headItem.start, headItem.start;
      Move(0, headItem.start, nbytes);
      var newTailIdx := (Get(mem.Length, head) - queueTail) / ITEM;
      RecordsMoved(mem[..], msgs, head);
      Move(Get(mem.Length, newTailIdx), queueTail, ITEM * (newTailIdx + 1));
      curr, queueTail, msgs := nbytes, Get(mem.Length, newTailIdx), msgs[head..];
      Bump(newTailIdx, removing);
      currSz := Room();
    }

    /** The loop that lowers the starts. */
    method Bump(newTailIdx: nat, removing: nat)
      requires newTailIdx + 1 == |msgs| && Bumped(mem[..], msgs, removing, 0)
      modifies mem
      ensures Layout(mem[..], msgs)
    {
      hide Flat, Holds;
      for i := 0 to newTailIdx + 1
        invariant Bumped(mem[..], msgs, removing, i)
      {
        ghost var record := Shifted(msgs, i, removing);
        assert Holds(mem[..], Get(mem.Length, i), record);
        var at := Get(mem.Length, i);
        BumpOne(mem[..], msgs, removing, i);
        var it := ReadItem(at, record);
        PutItem(at, it.(start := it.start - removing));
      }
      BumpDone(mem[..], msgs, removing);
    }
  }

  lemma Packed(mem: seq<Cell>, after: seq<Cell>, msgs: seq<Message>, body: seq<byte>)
    requires Layout(mem, msgs) && |after| == |mem|
    requires var c := |Flat(msgs)|;
             && c + |body| + ITEM * |msgs| <= |mem|
             && after[..c] == mem[..c] && after[c + |body|..] == mem[c + |body|..]
    ensures Layout(after, msgs)
  {
    var e := |Flat(msgs)| + |body|;
    hide Flat;
    forall i: nat | i < |msgs| ensures Holds(after, Get(|mem|, i), Record(msgs, i)) {
      var at := Get(|mem|, i);
      assert Holds(mem, at, Record(msgs, i));
      forall p | at <= p < at + ITEM ensures after[p] == mem[p] {
        assert after[e..][p - e] == mem[e..][p - e];
      }
    }
  }

  lemma Emptied(mem: seq<Cell>)
    ensures Layout(mem, []) && Flat([]) == []
  {
  }

  // ---------- runs ----------

  /** What happens to the queue: a message is registered, one changes state, or the queue is
      cleaned. */
  datatype Op = Add(body: seq<byte>) | Change(i: nat, state: State) | Sweep

  /** There is room for the body and one more record. */
  predicate Fits(msgs: seq<Message>, body: seq<byte>, capacity: nat) {
    |Flat(msgs)| + |body| + ITEM * (|msgs| + 1) <= capacity
  }

  function Step(msgs: seq<Message>, op: Op, capacity: nat): seq<Message> {
    match op
    case Add(body) => if Fits(msgs, body, capacity) then msgs + [Message(body, UNSENT)] else msgs
    case Change(i, state) => if i < |msgs| then msgs[i := msgs[i].(state := state)] else msgs
    case Sweep => Clean(msgs)
  }

  function Run(ops: seq<Op>, capacity: nat): seq<Message> {
    if ops == [] then [] else Step(Run(ops[..|ops| - 1], capacity), ops[|ops| - 1], capacity)
  }

  /** The bodies registered in a run. */
  function Sent(ops: seq<Op>, capacity: nat): seq<seq<byte>> {
    if ops == [] then []
    else
      var before, op := ops[..|ops| - 1], ops[|ops| - 1];
      Sent(before, capacity) + (if op.Add? && Fits(Run(before, capacity), op.body, capacity) then [op.body] else [])
  }

  function Bodies(msgs: seq<Message>): seq<seq<byte>> { seq(|msgs|, i requires 0 <= i < |msgs| => msgs[i].body) }

  /** Whatever the run, the queue holds the bodies last registered, in order: messages leave
      it from the front only. */
  lemma {:induction false} RunKeepsOrder(ops: seq<Op>, capacity: nat)
    ensures |Run(ops, capacity)| <= |Sent(ops, capacity)|
    ensures Bodies(Run(ops, capacity)) == Sent(ops, capacity)[|Sent(ops, capacity)| - |Run(ops, capacity)|..]
  {
    if ops != [] {
      var before := ops[..|ops| - 1];
      RunKeepsOrder(before, capacity);
      StepKeepsOrder(Run(before, capacity), ops[|ops| - 1], Sent(before, capacity), capacity);
    }
  }

  lemma StepKeepsOrder(msgs: seq<Message>, op: Op, sent: seq<seq<byte>>, capacity: nat)
    requires |msgs| <= |sent| && Bodies(msgs) == sent[|sent| - |msgs|..]
    ensures var sent' := sent + (if op.Add? && Fits(msgs, op.body, capacity) then [op.body] else []);
            var msgs' := Step(msgs, op, capacity);
            |msgs'| <= |sent'| && Bodies(msgs') == sent'[|sent'| - |msgs'|..]
  {
    hide Flat;
    var msgs' := Step(msgs, op, capacity);
    match op
    case Add(body) => {
      if Fits(msgs, body, capacity) {
        assert Bodies(msgs') == Bodies(msgs) + [body];
      }
    }
    case Change(i, state) => {
      assert Bodies(msgs') == Bodies(msgs);
    }
    case Sweep => {
      CleanMeaning(msgs);
      var k: nat :| LongestComplete(msgs, k) && Clean(msgs) == msgs[k..];
      assert Bodies(msgs[k..]) == Bodies(msgs)[k..];
    }
  }

  /** A queue driven through any run ends as the run says, laid out as `Layout` says. */
  method Drive(buf: array<Cell>, ops: seq<Op>) returns (queue: MessageQueue)
    modifies buf
    ensures fresh(queue) && queue.mem == buf && queue.Valid() && queue.msgs == Run(ops, buf.Length)
  {
    queue := new MessageQueue(buf);
    for k := 0 to |ops|
      invariant fresh(queue) && queue.mem == buf && queue.Valid() && queue.msgs == Run(ops[..k], buf.Length)
    {
      assert ops[..k + 1][..k] == ops[..k];
      queue.Perform(ops[k]);
    }
    assert ops[..|ops|] == ops;
  }
}
