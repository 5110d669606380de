/** The shared-memory ring with coalesced interrupts, as the interleaved steps of its producer, the
    event handler and the draining node. The steps are those of the egress ring; the punt rings use the
    same handshake with the two sides exchanged. */
module PuntRing {

  const MAX_BATCH: int := 256

  type Msg = int

  /** Where each party stands: the shared access it performs next. */
  datatype Producer = Ready | HasRoom(msg: Msg) | Wrote(msg: Msg) | Published | Signalling
  datatype Handler = Waiting | Cleared
  datatype Node = Asleep | Woken | Draining(snapshot: nat, count: nat) | Publishing | Clearing | Rechecking

  /** The ring, the coalescing flag, the event counter, the node's pending interrupt, the node's own
      tail, and what was published and consumed so far. */
  datatype Ring = Ring(slots: seq<Msg>, head: nat, tail: nat, flag: bool)
  datatype Log = Log(published: seq<Msg>, consumed: seq<Msg>, sent: seq<Msg>)
  datatype State = State(ring: Ring, event: bool, irq: bool, localTail: nat, producer: Producer, handler: Handler,
      node: Node, log: Log)

  /** What the node finds about the next entry: its interface is gone and it is skipped, no buffer can be
      had for it, or it goes out. */
  datatype Luck = Skip | NoBuffer | Goes

  datatype Turn = Produce(msg: Msg) | ProducerTurn | HandlerTurn | NodeTurn(luck: Luck)

  /** One entry read at the node's tail. */
  function Read(st: State): Msg
    requires |st.ring.slots| >= 1
  {
    st.ring.slots[st.localTail % |st.ring.slots|]
  }

  function Step(st: State, turn: Turn): (st': State)
    requires |st.ring.slots| >= 1
    ensures |st'.ring.slots| == |st.ring.slots|
  {
    var r := st.ring;
    match turn
    case Produce(msg) =>
      if st.producer.Ready? && r.head - r.tail < |r.slots| then st.(producer := HasRoom(msg)) else st
    case ProducerTurn =>
      (match st.producer
       case Ready => st
       case HasRoom(msg) => st.(ring := r.(slots := r.slots[r.head % |r.slots| := msg]), producer := Wrote(msg))
       case Wrote(msg) => st.(ring := r.(head := r.head + 1), producer := Published,
           log := st.log.(published := st.log.published + [msg]))
       case Published => st.(ring := r.(flag := true), producer := if r.flag then Ready else Signalling)
       case Signalling => st.(event := true, producer := Ready))
    case HandlerTurn =>
      (match st.handler
       case Waiting => if st.event then st.(event := false, handler := Cleared) else st
       case Cleared => st.(irq := true, handler := Waiting))
    case NodeTurn(luck) =>
      (match st.node
       case Asleep => if st.irq then st.(irq := false, node := Woken) else st
       case Woken => st.(node := Draining(r.head, 0))
       case Draining(h, n) =>
         if st.localTail == h || n >= MAX_BATCH || luck.NoBuffer? then st.(node := Publishing)
         else st.(localTail := st.localTail + 1, node := Draining(h, if luck.Skip? then n else n + 1),
                  log := Log(st.log.published, st.log.consumed + [Read(st)], if luck.Skip? then st.log.sent
                      else st.log.sent + [Read(st)]))
       case Publishing => st.(ring := r.(tail := st.localTail), node := Clearing)
       case Clearing => st.(ring := r.(flag := false), node := Rechecking)
       case Rechecking => st.(irq := st.irq || r.head != st.localTail, node := Asleep))
  }

  // ---------------------------------------------------------------- invariants

  /** Every entry between the ends is the one published there; the consumer has read exactly the oldest
      ones, in order; the producer's slot is never one still to be read. */
  ghost predicate EntriesOk(st: State) {
    var r := st.ring;
    && |r.slots| >= 1
    && r.tail <= st.localTail <= r.head <= r.tail + |r.slots|
    && |st.log.published| == r.head && |st.log.consumed| == st.localTail
    && st.log.consumed == st.log.published[..st.localTail]
    && (forall k :: st.localTail <= k < r.head ==> r.slots[k % |r.slots|] == st.log.published[k])
    && (st.producer.HasRoom? || st.producer.Wrote? ==> r.head - r.tail < |r.slots|)
    && (st.producer.Wrote? ==> r.slots[r.head % |r.slots|] == st.producer.msg)
    && (st.node.Draining? ==> st.localTail <= st.node.snapshot <= r.head && st.node.count <= MAX_BATCH)
    && (st.node.Rechecking? || st.node.Clearing? || st.node.Asleep? || st.node.Woken? ==> r.tail == st.localTail)
  }

  /** Something is on its way that will run the node. */
  ghost predicate WakeupComing(st: State) {
    st.irq || st.event || st.producer.Published? || st.producer.Signalling? || st.handler.Cleared? || !st.node.Asleep?
  }

  /** A raised flag means a signal is on its way, or the node has yet to lower it. */
  ghost predicate FlagBacked(st: State) {
    st.ring.flag ==>
      st.irq || st.event || st.producer.Signalling? || st.handler.Cleared? || !(st.node.Asleep? || st.node.Rechecking?)
  }

  ghost predicate Inv(st: State) {
    && EntriesOk(st) && FlagBacked(st)
    && (st.ring.head != st.localTail ==> WakeupComing(st))
  }

  const START: Log := Log([], [], [])

  ghost predicate Initial(st: State) {
    && |st.ring.slots| >= 1 && st.ring.head == st.ring.tail == st.localTail == 0 && !st.ring.flag
    && !st.event && !st.irq && st.producer.Ready? && st.handler.Waiting? && st.node.Asleep? && st.log == START
  }

  lemma Congruent(k: nat, head: nat, size: nat)
    requires size >= 1 && k < head < k + size
    ensures k % size != head % size
  {
    var d := head - k;
    assert head == size * (head / size) + head % size;
    assert k == size * (k / size) + k % size;
    if k % size == head % size {
      var q := head / size - k / size;
      assert d == size * q;
      if q >= 1 { Grows(size, q); } else { Shrinks(size, q); }
      assert false;
    }
  }

  lemma Grows(size: nat, q: int)
    requires q >= 1
    ensures size * q >= size
  {
  }

  lemma Shrinks(size: nat, q: int)
    requires q <= 0
    ensures size * q <= 0
  {
  }

  lemma ProducerKeeps(st: State, turn: Turn)
    requires EntriesOk(st) && (turn.Produce? || turn.ProducerTurn?)
    ensures EntriesOk(Step(st, turn))
  {
    var r := st.ring;
    if turn.ProducerTurn? && st.producer.HasRoom? {
      forall k | st.localTail <= k < r.head
        ensures k % |r.slots| != r.head % |r.slots|
      {
        Congruent(k, r.head, |r.slots|);
      }
    }
  }

  /** The entry read is the one published there. */
  lemma DrainKeeps(st: State, luck: Luck)
    requires EntriesOk(st) && st.node.Draining? && st.localTail != st.node.snapshot && st.node.count < MAX_BATCH
        && !luck.NoBuffer?
    ensures EntriesOk(Step(st, NodeTurn(luck))) && Read(st) == st.log.published[st.localTail]
  {
    var st' := Step(st, NodeTurn(luck));
    var k := st.localTail;
    assert Read(st) == st.log.published[k];
    assert st'.log.consumed == st.log.published[..k] + [st.log.published[k]] == st.log.published[..k + 1];
  }

  lemma NodeKeeps(st: State, turn: Turn)
    requires EntriesOk(st) && (turn.NodeTurn? || turn.HandlerTurn?)
    ensures EntriesOk(Step(st, turn))
  {
    if turn.NodeTurn? && st.node.Draining? && st.localTail != st.node.snapshot && st.node.count < MAX_BATCH
        && !turn.luck.NoBuffer? {
      DrainKeeps(st, turn.luck);
    } else {
      var st' := Step(st, turn);
      assert st'.log == st.log && st'.ring.slots == st.ring.slots && st'.ring.head == st.ring.head
          && st'.localTail == st.localTail;
    }
  }

  /** No wakeup is lost: whatever the interleaving, one step keeps the invariant. */
  lemma StepKeepsInv(st: State, turn: Turn)
    requires Inv(st)
    ensures Inv(Step(st, turn))
  {
    if turn.Produce? || turn.ProducerTurn? { ProducerKeeps(st, turn); } else { NodeKeeps(st, turn); }
  }

  function Run(st: State, turns: seq<Turn>): (end: State)
    requires |st.ring.slots| >= 1
    ensures |end.ring.slots| == |st.ring.slots|
  {
    if turns == [] then st else Step(Run(st, turns[..|turns| - 1]), turns[|turns| - 1])
  }

  lemma {:induction false} RunKeepsInv(st: State, turns: seq<Turn>)
    requires Inv(st)
    ensures Inv(Run(st, turns))
  {
    if turns != [] {
      RunKeepsInv(st, turns[..|turns| - 1]);
      StepKeepsInv(Run(st, turns[..|turns| - 1]), turns[|turns| - 1]);
    }
  }

  /** On every run: a non-empty ring always has a wakeup coming, and what was consumed is exactly the
      oldest part of what was published, in order, once each, with never more than a ring unread. */
  lemma NoLostWakeup(st: State, turns: seq<Turn>)
    requires Initial(st)
    ensures var end := Run(st, turns);
            && (end.ring.head != end.localTail ==> WakeupComing(end))
            && end.log.consumed <= end.log.published
            && |end.log.published| == end.ring.head && |end.log.consumed| == end.localTail
            && 0 <= end.ring.head - end.ring.tail <= |end.ring.slots|
  {
    RunKeepsInv(st, turns);
  }

  /** Nothing left to do: no party can move but by producing afresh. */
  ghost predicate Quiet(st: State)
    requires |st.ring.slots| >= 1
  {
    && Step(st, ProducerTurn) == st && Step(st, HandlerTurn) == st && Step(st, NodeTurn(Goes)) == st
  }

  /** The system comes to rest only when the ring is empty. */
  lemma RestIsEmpty(st: State)
    requires Inv(st) && Quiet(st)
    ensures st.ring.head == st.localTail == st.ring.tail && st.log.consumed == st.log.published
  {
    if st.producer.HasRoom? || st.producer.Wrote? || st.producer.Published? || st.producer.Signalling? {
      ProducerMoves(st);
      assert false;
    }
    if !st.node.Asleep? {
      NodeMoves(st);
      assert false;
    }
  }

  lemma ProducerMoves(st: State)
    requires |st.ring.slots| >= 1 && !st.producer.Ready?
    ensures Step(st, ProducerTurn) != st
  {
  }

  lemma NodeMoves(st: State)
    requires |st.ring.slots| >= 1 && !st.node.Asleep?
    ensures Step(st, NodeTurn(Goes)) != st
  {
  }

  // ---------------------------------------------------------------- the drain loop

  lemma DrainStep(st: State, luck: Luck)
    requires |st.ring.slots| >= 1 && st.node.Draining?
    ensures var st' := Step(st, NodeTurn(luck));
            if st.localTail == st.node.snapshot || st.node.count >= MAX_BATCH
                || luck.NoBuffer? then st'.node.Publishing?
            else
              && st'.localTail == st.localTail + 1 && st'.ring == st.ring
              && st'.node == Draining(st.node.snapshot, if luck.Skip? then st.node.count else st.node.count + 1)
              && st'.log.sent == (if luck.Skip? then st.log.sent else st.log.sent + [Read(st)])
              && |st'.log.consumed| == |st.log.consumed| + 1
  {
  }

  /** The node's loop as written, from its load of head on: it is a run of the node's steps, stops after
      256 frames sent or when no buffer can be had, and hands over what it read in ring order. */
  method Drain(slots: array<Msg>, head: nat, start: nat, luck: nat -> Luck, ghost st: State)
    returns (tail: nat, sent: seq<Msg>, ghost turns: seq<Turn>)
    requires slots.Length >= 1 && st.ring.slots == slots[..] && st.node == Draining(head, 0) && st.localTail == start
        && start <= head
    ensures start <= tail <= head && |sent| <= MAX_BATCH
    ensures tail == head || |sent| == MAX_BATCH || luck(tail).NoBuffer?
    ensures var end := Run(st, turns);
            && end.localTail == tail && end.ring == st.ring && end.node.Draining?
            && end.log.sent == st.log.sent + sent && Step(end, NodeTurn(luck(tail))).node.Publishing?
            && |end.log.consumed| == |st.log.consumed| + tail - start
  {
    hide Step;
    tail, sent, turns := start, [], [];
    while tail != head && |sent| < MAX_BATCH
      invariant start <= tail <= head && |sent| <= MAX_BATCH
      invariant Run(st, turns).localTail == tail && Run(st, turns).ring == st.ring
          && Run(st, turns).node == Draining(head, |sent|)
      invariant Run(st, turns).log.sent == st.log.sent + sent
      invariant |Run(st, turns).log.consumed| == |st.log.consumed| + tail - start
      decreases head - tail
    {
      DrainStep(Run(st, turns), luck(tail));
      if luck(tail).NoBuffer? { break; }
      ghost var before := turns;
      turns := turns + [NodeTurn(luck(tail))];
      assert turns[..|turns| - 1] == before;
      if !luck(tail).Skip? { sent := sent + [slots[tail % slots.Length]]; }
      tail := tail + 1;
    }
    DrainStep(Run(st, turns), luck(tail));
  }
}
