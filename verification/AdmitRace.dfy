/** Buffer admission under contention. Any number of workers charge packets to the tiers of their chains
    and release them, one shared access at a time: the overload filter's load, the fetch-add, the
    fetch-sub that takes a refused addition back, and the fetch-subs of an unwind or a release. */
module AdmitRace {
  import opened Sums

  const U32: int := 0x1_0000_0000

  /** The tiers a packet is charged to: none, one port, or an S-VLAN and its port. */
  datatype Chain = Nobody | One(own: int) | Two(own: int, port: int)

  datatype Packet = Packet(len: nat, chain: Chain)

  /** Where a worker stands with its packet: the access it performs next, at the packet's own tier or,
      Up, at the port above it. */
  datatype Pc =
    | Idle
    | Filter(p: Packet) | Add(p: Packet) | TakeBack(p: Packet)
    | FilterUp(p: Packet) | AddUp(p: Packet) | TakeBackUp(p: Packet) | Unwind(p: Packet)
    | Release(p: Packet) | ReleaseUp(p: Packet)

  /** Each tier's register and limit, the packets admitted and queued, and the workers. */
  datatype State = State(usage: map<int, int>, limit: map<int, int>, queue: map<int, Packet>, workers: map<int, Pc>)

  /** What the outside decides at a step: whether an idle worker takes up an arriving packet or the queued
      one at place id, and at which free place id an admitted packet is queued. */
  datatype Choice = Choice(arrives: bool, packet: Packet, id: int)

  predicate Tier(st: State, a: int) { a in st.usage && a in st.limit }

  predicate PacketOk(st: State, p: Packet, maxLen: nat) {
    && p.len <= maxLen
    && (!p.chain.Nobody? ==> Tier(st, p.chain.own))
    && (p.chain.Two? ==> Tier(st, p.chain.port) && p.chain.own != p.chain.port)
  }

  predicate PcOk(st: State, pc: Pc, maxLen: nat) {
    pc.Idle? || (PacketOk(st, pc.p, maxLen) && !pc.p.chain.Nobody? && (Up(pc) ==> pc.p.chain.Two?))
  }

  predicate Up(pc: Pc) { pc.FilterUp? || pc.AddUp? || pc.TakeBackUp? || pc.Unwind? || pc.ReleaseUp? }

  function Wrap(x: int): int { x % U32 }

  lemma WrapIs(x: int)
    requires 0 <= x < U32
    ensures Wrap(x) == x
  {
  }

  /** The register after a fetch-add or fetch-sub on 32 bits. */
  function Moved(usage: map<int, int>, a: int, x: int): map<int, int>
    requires a in usage
  {
    usage[a := Wrap(usage[a] + x)]
  }

  function Go(st: State, i: int, pc: Pc): State { st.(workers := st.workers[i := pc]) }

  /** Worker i changes tier a's register by x and goes on. */
  function Access(st: State, i: int, a: int, x: int, pc: Pc): State
    requires a in st.usage
  {
    State(Moved(st.usage, a, x), st.limit, st.queue, st.workers[i := pc])
  }

  /** The packet of worker i is admitted. */
  function Queue(st: State, id: int, p: Packet): State { st.(queue := st.queue[id := p]) }

  /** One shared access by worker i: cake_agg_admit_chain for an arriving packet, cake_agg_discharge for
      one that leaves. A packet of a scheduler attached nowhere is charged to nobody. */
  function Step(st: State, i: int, ch: Choice, maxLen: nat): State
    requires i in st.workers && PcOk(st, st.workers[i], maxLen)
  {
    match st.workers[i]
    case Idle =>
      if ch.arrives then
        if !PacketOk(st, ch.packet, maxLen) then st
        else if ch.packet.chain.Nobody? then Queue(st, ch.id, ch.packet)
        else Go(st, i, Filter(ch.packet))
      else if ch.id !in st.queue then st
      else if st.queue[ch.id].chain.Nobody? then st.(queue := st.queue - {ch.id})
      else Go(st, i, Release(st.queue[ch.id])).(queue := st.queue - {ch.id})
    case Filter(p) =>
      Go(st, i, if st.usage[p.chain.own] > st.limit[p.chain.own] then Idle else Add(p))
    case Add(p) =>
      var a := p.chain.own;
      if Wrap(st.usage[a] + p.len) > st.limit[a] then Access(st, i, a, p.len, TakeBack(p))
      else if p.chain.Two? then Access(st, i, a, p.len, FilterUp(p))
      else Queue(Access(st, i, a, p.len, Idle), ch.id, p)
    case TakeBack(p) => Access(st, i, p.chain.own, 0 - p.len, Idle)
    case FilterUp(p) =>
      Go(st, i, if st.usage[p.chain.port] > st.limit[p.chain.port] then Unwind(p) else AddUp(p))
    case AddUp(p) =>
      var a := p.chain.port;
      if Wrap(st.usage[a] + p.len) > st.limit[a] then Access(st, i, a, p.len, TakeBackUp(p))
      else Queue(Access(st, i, a, p.len, Idle), ch.id, p)
    case TakeBackUp(p) => Access(st, i, p.chain.port, 0 - p.len, Unwind(p))
    case Unwind(p) => Access(st, i, p.chain.own, 0 - p.len, Idle)
    case Release(p) => Access(st, i, p.chain.own, 0 - p.len, if p.chain.Two? then ReleaseUp(p) else Idle)
    case ReleaseUp(p) => Access(st, i, p.chain.port, 0 - p.len, Idle)
  }

  // ---------------------------------------------------------------- what a tier's register is made of

  /** A packet's bytes at tier a, once it is charged everywhere. */
  function Part(p: Packet, a: int): (r: int)
    ensures 0 <= r <= p.len
  {
    if (!p.chain.Nobody? && p.chain.own == a) || (p.chain.Two? && p.chain.port == a) then p.len else 0
  }

  /** What a worker holds at a tier for good: verified additions not yet taken back or released. */
  function Hold(pc: Pc, a: int): (r: int)
    ensures r >= 0
  {
    match pc
    case Idle => 0
    case Filter(_) => 0
    case Add(_) => 0
    case TakeBack(_) => 0
    case Release(p) => Part(p, a)
    case ReleaseUp(p) => if p.chain.Two? && p.chain.port == a then p.len else 0
    case _ => if pc.p.chain.Two? && pc.p.chain.own == a then pc.p.len else 0
  }

  /** A refused addition still to be taken back. */
  function Overhang(pc: Pc, a: int): (r: int)
    ensures 0 <= r && (r > 0 ==> (pc.TakeBack? || pc.TakeBackUp?) && r == pc.p.len)
  {
    if pc.TakeBack? && !pc.p.chain.Nobody? && pc.p.chain.own == a then pc.p.len
    else if pc.TakeBackUp? && pc.p.chain.Two? && pc.p.chain.port == a then pc.p.len
    else 0
  }

  ghost function HoldAt(ws: map<int, Pc>, i: int, a: int): int { if i in ws then Hold(ws[i], a) else 0 }

  ghost function Holds(ws: map<int, Pc>, a: int): int -> int { i => HoldAt(ws, i, a) }

  ghost function OverhangAt(ws: map<int, Pc>, i: int, a: int): int { if i in ws then Overhang(ws[i], a) else 0 }

  ghost function Overhangs(ws: map<int, Pc>, a: int): int -> int { i => OverhangAt(ws, i, a) }

  ghost function PartAt(queue: map<int, Packet>, id: int, a: int): int { if id in queue then Part(queue[id], a) else 0 }

  ghost function Parts(queue: map<int, Packet>, a: int): int -> int { id => PartAt(queue, id, a) }

  /** Bytes queued beneath a tier, bytes in the hands of workers, and refused additions pending. */
  ghost function Queued(queue: map<int, Packet>, a: int): int { Sum(queue.Keys, Parts(queue, a)) }

  ghost function Held(ws: map<int, Pc>, a: int): int { Sum(ws.Keys, Holds(ws, a)) }

  ghost function Pending(ws: map<int, Pc>, a: int): int { Sum(ws.Keys, Overhangs(ws, a)) }

  /** Bytes admitted to a tier. */
  ghost function Admitted(st: State, a: int): int { Queued(st.queue, a) + Held(st.workers, a) }

  ghost predicate TierOk(st: State, a: int, top: int, maxLen: nat)
    requires Tier(st, a)
  {
    && st.usage[a] == Admitted(st, a) + Pending(st.workers, a)
    && Admitted(st, a) <= top && st.limit[a] <= top && top + |st.workers| * maxLen < U32
  }

  ghost predicate ShapesOk(st: State, top: map<int, int>, maxLen: nat) {
    && top.Keys == st.usage.Keys == st.limit.Keys
    && (forall i :: i in st.workers ==> PcOk(st, st.workers[i], maxLen))
    && (forall id :: id in st.queue ==> PacketOk(st, st.queue[id], maxLen))
  }

  /** Every tier's register is what was admitted plus what is pending, and what was admitted stays within
      top: the limit, or what was there before. */
  ghost predicate Inv(st: State, top: map<int, int>, maxLen: nat) {
    ShapesOk(st, top, maxLen) && forall a :: a in st.usage ==> TierOk(st, a, top[a], maxLen)
  }

  // ---------------------------------------------------------------- sums, one worker at a time

  lemma HeldAt(ws: map<int, Pc>, i: int, pc: Pc, a: int)
    requires i in ws
    ensures Held(ws[i := pc], a) == Held(ws, a) - Hold(ws[i], a) + Hold(pc, a)
    ensures Pending(ws[i := pc], a) == Pending(ws, a) - Overhang(ws[i], a) + Overhang(pc, a)
    ensures |ws[i := pc]| == |ws|
  {
    hide Hold, Overhang;
    var ws' := ws[i := pc];
    assert ws'.Keys == ws.Keys;
    Change(ws.Keys, Holds(ws, a), Holds(ws', a), i);
    Change(ws.Keys, Overhangs(ws, a), Overhangs(ws', a), i);
  }

  lemma Bounds(ws: map<int, Pc>, a: int, i: int)
    requires i in ws
    ensures 0 <= Hold(ws[i], a) <= Held(ws, a) && 0 <= Overhang(ws[i], a) <= Pending(ws, a)
  {
    hide Hold, Overhang;
    NonNegative(ws.Keys, Holds(ws, a));
    NonNegative(ws.Keys, Overhangs(ws, a));
    assert Holds(ws, a)(i) == Hold(ws[i], a) && Overhangs(ws, a)(i) == Overhang(ws[i], a);
  }

  lemma OverhangsSmall(st: State, maxLen: nat, a: int)
    requires forall j :: j in st.workers ==> PcOk(st, st.workers[j], maxLen)
    ensures forall j :: j in st.workers ==> Overhangs(st.workers, a)(j) <= maxLen
  {
    forall j | j in st.workers
      ensures Overhangs(st.workers, a)(j) <= maxLen
    {
      assert PcOk(st, st.workers[j], maxLen);
    }
  }

  /** What is pending is at most a packet for each worker, leaving out any worker with nothing pending. */
  lemma PendingBound(st: State, maxLen: nat, a: int, i: int)
    requires i in st.workers && forall j :: j in st.workers ==> PcOk(st, st.workers[j], maxLen)
    ensures 0 <= Pending(st.workers, a) <= |st.workers| * maxLen
    ensures Overhang(st.workers[i], a) == 0 ==> Pending(st.workers, a) + maxLen <= |st.workers| * maxLen
  {
    OverhangsSmall(st, maxLen, a);
    hide PcOk, Overhang;
    var ws := st.workers;
    NonNegative(ws.Keys, Overhangs(ws, a));
    AtMostEach(ws.Keys, Overhangs(ws, a), maxLen);
    AtMostOthers(ws.Keys, Overhangs(ws, a), maxLen, i);
    assert |ws.Keys| == |ws| && Overhangs(ws, a)(i) == Overhang(ws[i], a);
  }

  lemma Enqueued(queue: map<int, Packet>, id: int, p: Packet, a: int)
    requires id !in queue
    ensures Queued(queue[id := p], a) == Queued(queue, a) + Part(p, a)
  {
    hide Part;
    var q := queue[id := p];
    Sums.Add(queue.Keys, Parts(q, a), id);
    Same(queue.Keys, Parts(queue, a), Parts(q, a));
    assert q.Keys == queue.Keys + {id};
  }

  lemma Dequeued(queue: map<int, Packet>, id: int, a: int)
    requires id in queue
    ensures Queued(queue - {id}, a) == Queued(queue, a) - Part(queue[id], a)
  {
    hide Part;
    Pick(queue.Keys, Parts(queue, a), id);
    assert (queue - {id}).Keys == queue.Keys - {id};
    Same(queue.Keys - {id}, Parts(queue, a), Parts(queue - {id}, a));
  }

  // ---------------------------------------------------------------- one step

  /** A packet is queued at a free place. */
  predicate Room(st: State, i: int, ch: Choice)
    requires i in st.workers
  {
    st.workers[i].Add? || st.workers[i].AddUp? || (st.workers[i].Idle? && ch.arrives) ==> ch.id !in st.queue
  }

  /** How a step of worker i moves the parts of tier a's register. */
  ghost predicate Moves(st: State, st': State, i: int, a: int)
    requires i in st.workers && Tier(st, a)
  {
    && i in st'.workers && st'.workers == st.workers[i := st'.workers[i]] && st'.limit == st.limit && a in st'.usage
    && var held := Queued(st'.queue, a) - Queued(st.queue, a) + Hold(st'.workers[i], a) - Hold(st.workers[i], a);
       && (held <= 0 || st'.usage[a] <= st.limit[a])
       && st'.usage[a] == st.usage[a] + held + Overhang(st'.workers[i], a) - Overhang(st.workers[i], a)
  }

  lemma MovesKeepTier(st: State, st': State, i: int, a: int, top: int, maxLen: nat)
    requires i in st.workers && Tier(st, a) && TierOk(st, a, top, maxLen) && Moves(st, st', i, a)
    ensures Tier(st', a) && TierOk(st', a, top, maxLen)
  {
    hide Hold, Overhang, Queued;
    HeldAt(st.workers, i, st'.workers[i], a);
    Bounds(st'.workers, a, i);
    hide Held, Pending;
  }

  lemma StepMoves(st: State, i: int, ch: Choice, maxLen: nat, a: int)
    requires i in st.workers && PcOk(st, st.workers[i], maxLen) && Tier(st, a) && Room(st, i, ch)
    requires Hold(st.workers[i], a) + Overhang(st.workers[i], a) <= st.usage[a] < U32
    requires Overhang(st.workers[i], a) == 0 ==> st.usage[a] + maxLen < U32
    ensures Moves(st, Step(st, i, ch, maxLen), i, a)
  {
    match st.workers[i]
    case Idle => IdleMoves(st, i, ch, maxLen, a);
    case Add(_) => AddMoves(st, i, ch, maxLen, a);
    case AddUp(_) => AddUpMoves(st, i, ch, maxLen, a);
    case _ => BackMoves(st, i, ch, maxLen, a);
  }

  lemma IdleMoves(st: State, i: int, ch: Choice, maxLen: nat, a: int)
    requires i in st.workers && st.workers[i].Idle? && Tier(st, a) && Room(st, i, ch)
    ensures Moves(st, Step(st, i, ch, maxLen), i, a)
  {
    if ch.arrives {
      if ch.packet.chain.Nobody? { Enqueued(st.queue, ch.id, ch.packet, a); }
    } else if ch.id in st.queue {
      Dequeued(st.queue, ch.id, a);
    }
    hide Queued, PacketOk;
    assert st.workers[i := st.workers[i]] == st.workers;
  }

  /** A fetch-add at tier b, seen from tier a: elsewhere nothing moves, and at b the addition is held or
      queued if it was verified, or hangs over. */
  lemma AccessMoves(st: State, i: int, b: int, len: nat, pc: Pc, queue: map<int, Packet>, a: int)
    requires i in st.workers && Tier(st, a) && Tier(st, b) && (a == b ==> Wrap(st.usage[a] + len) == st.usage[a] + len)
    requires var held := Queued(queue, a) - Queued(st.queue, a) + Hold(pc, a) - Hold(st.workers[i], a);
             && held + Overhang(pc, a) - Overhang(st.workers[i], a) == (if a == b then len else 0)
             && (held <= 0 || (a == b && st.usage[a] + len <= st.limit[a]))
    ensures Moves(st, State(Moved(st.usage, b, len), st.limit, queue, st.workers[i := pc]), i, a)
  {
    hide Queued, Hold, Overhang, Wrap;
  }

  lemma AddMoves(st: State, i: int, ch: Choice, maxLen: nat, a: int)
    requires i in st.workers && st.workers[i].Add? && PcOk(st, st.workers[i], maxLen) && Tier(st, a) && Room(st, i, ch)
    requires 0 <= st.usage[a] && st.usage[a] + maxLen < U32
    ensures Moves(st, Step(st, i, ch, maxLen), i, a)
  {
    var p := st.workers[i].p;
    Enqueued(st.queue, ch.id, p, a);
    WrapIs(st.usage[a] + p.len);
    var st' := Step(st, i, ch, maxLen);
    assert st' == State(Moved(st.usage, p.chain.own, p.len), st.limit, st'.queue, st.workers[i := st'.workers[i]]);
    hide Queued, Wrap, Moves, Moved;
    AccessMoves(st, i, p.chain.own, p.len, st'.workers[i], st'.queue, a);
  }

  lemma AddUpMoves(st: State, i: int, ch: Choice, maxLen: nat, a: int)
    requires i in st.workers && st.workers[i].AddUp? && PcOk(st, st.workers[i], maxLen) && Tier(st, a)
        && Room(st, i, ch)
    requires 0 <= st.usage[a] && st.usage[a] + maxLen < U32
    ensures Moves(st, Step(st, i, ch, maxLen), i, a)
  {
    var p := st.workers[i].p;
    Enqueued(st.queue, ch.id, p, a);
    WrapIs(st.usage[a] + p.len);
    var st' := Step(st, i, ch, maxLen);
    assert st' == State(Moved(st.usage, p.chain.port, p.len), st.limit, st'.queue, st.workers[i := st'.workers[i]]);
    hide Queued, Wrap, Moves, Moved;
    AccessMoves(st, i, p.chain.port, p.len, st'.workers[i], st'.queue, a);
  }

  /** A filter moves nothing; a tier gives back what the worker held, or what hung over. */
  lemma BackMoves(st: State, i: int, ch: Choice, maxLen: nat, a: int)
    requires i in st.workers && PcOk(st, st.workers[i], maxLen) && Tier(st, a)
    requires !st.workers[i].Idle? && !st.workers[i].Add? && !st.workers[i].AddUp?
    requires Hold(st.workers[i], a) + Overhang(st.workers[i], a) <= st.usage[a] < U32
    ensures Moves(st, Step(st, i, ch, maxLen), i, a)
  {
    var p := st.workers[i].p;
    if st.usage[a] >= p.len { WrapIs(st.usage[a] - p.len); }
    hide Queued, Wrap;
  }

  lemma StepKeepsShapes(st: State, i: int, ch: Choice, maxLen: nat, top: map<int, int>)
    requires ShapesOk(st, top, maxLen) && i in st.workers && PcOk(st, st.workers[i], maxLen)
    ensures ShapesOk(Step(st, i, ch, maxLen), top, maxLen)
  {
    var st', pc := Step(st, i, ch, maxLen), st.workers[i];
    assert st'.usage.Keys == st.usage.Keys && st'.limit == st.limit;
    forall p: Packet
      ensures PacketOk(st', p, maxLen) <==> PacketOk(st, p, maxLen)
    {
    }
    forall j | j in st'.workers
      ensures PcOk(st', st'.workers[j], maxLen)
    {
      if j != i { assert PcOk(st, st.workers[j], maxLen); }
      if pc.Idle? && !ch.arrives && ch.id in st.queue { assert PacketOk(st, st.queue[ch.id], maxLen); }
    }
  }

  /** Every shared access keeps every tier's register exact, with what is pending counted in. */
  lemma StepKeepsInv(st: State, i: int, ch: Choice, maxLen: nat, top: map<int, int>)
    requires Inv(st, top, maxLen) && i in st.workers && PcOk(st, st.workers[i], maxLen) && Room(st, i, ch)
    ensures Inv(Step(st, i, ch, maxLen), top, maxLen)
  {
    var st' := Step(st, i, ch, maxLen);
    StepKeepsShapes(st, i, ch, maxLen, top);
    hide Step, PcOk, PacketOk, Moves;
    forall a | a in st'.usage
      ensures TierOk(st', a, top[a], maxLen)
    {
      assert Tier(st, a) && TierOk(st, a, top[a], maxLen);
      PendingBound(st, maxLen, a, i);
      Bounds(st.workers, a, i);
      QueuedBound(st.queue, a);
      hide Queued, Held, Pending, Hold, Overhang;
      StepMoves(st, i, ch, maxLen, a);
      MovesKeepTier(st, st', i, a, top[a], maxLen);
    }
  }

  lemma QueuedBound(queue: map<int, Packet>, a: int)
    ensures Queued(queue, a) >= 0
  {
    NonNegative(queue.Keys, Parts(queue, a));
  }

  // ---------------------------------------------------------------- every run

  /** A schedule: whose turn it is, and what the outside decides then. */
  type Schedule = seq<(int, Choice)>

  ghost predicate Fair(st: State, sched: Schedule, maxLen: nat)
    decreases |sched|
  {
    sched == [] ||
    (var (i, ch) := sched[0];
     && i in st.workers && PcOk(st, st.workers[i], maxLen) && Room(st, i, ch)
     && Fair(Step(st, i, ch, maxLen), sched[1..], maxLen))
  }

  ghost function Run(st: State, sched: Schedule, maxLen: nat): State
    requires Fair(st, sched, maxLen)
    decreases |sched|
  {
    if sched == [] then st else Run(Step(st, sched[0].0, sched[0].1, maxLen), sched[1..], maxLen)
  }

  lemma {:induction false} RunKeepsInv(st: State, sched: Schedule, maxLen: nat, top: map<int, int>)
    requires Inv(st, top, maxLen) && Fair(st, sched, maxLen)
    ensures Inv(Run(st, sched, maxLen), top, maxLen)
    decreases |sched|
  {
    hide Inv, Step;
    if sched != [] {
      StepKeepsInv(st, sched[0].0, sched[0].1, maxLen, top);
      RunKeepsInv(Step(st, sched[0].0, sched[0].1, maxLen), sched[1..], maxLen, top);
    }
  }

  /** Over-admission is bounded by the packets in flight: in every interleaving what was admitted to a
      tier stays within its limit, or within what it held when the race began, and its register exceeds
      that by no more than the refused additions still to be taken back, one packet a worker. With
      nobody in flight the register is exactly what is queued beneath the tier. */
  lemma OvershootBound(st: State, sched: Schedule, maxLen: nat, top: map<int, int>, a: int)
    requires Inv(st, top, maxLen) && Fair(st, sched, maxLen) && a in st.usage && a in top
    ensures var end := Run(st, sched, maxLen);
            && a in end.usage
            && end.usage[a] == Admitted(end, a) + Pending(end.workers, a)
            && Admitted(end, a) <= top[a] && 0 <= Pending(end.workers, a) <= |end.workers| * maxLen
            && ((forall i :: i in end.workers ==> end.workers[i].Idle?) ==> end.usage[a] == Queued(end.queue, a))
  {
    hide Inv, Run, Fair;
    RunKeepsInv(st, sched, maxLen, top);
    RunKeepsTiers(st, sched, maxLen);
    InvBounds(Run(st, sched, maxLen), top, maxLen, a);
  }

  lemma InvBounds(st: State, top: map<int, int>, maxLen: nat, a: int)
    requires Inv(st, top, maxLen) && a in st.usage
    ensures a in top && st.usage[a] == Admitted(st, a) + Pending(st.workers, a)
    ensures Admitted(st, a) <= top[a] && 0 <= Pending(st.workers, a) <= |st.workers| * maxLen
    ensures (forall i :: i in st.workers ==> st.workers[i].Idle?) ==> st.usage[a] == Queued(st.queue, a)
  {
    assert TierOk(st, a, top[a], maxLen);
    PendingRange(st, maxLen, a);
    if forall i :: i in st.workers ==> st.workers[i].Idle? { Rest(st, a); }
  }

  lemma PendingRange(st: State, maxLen: nat, a: int)
    requires forall j :: j in st.workers ==> PcOk(st, st.workers[j], maxLen)
    ensures 0 <= Pending(st.workers, a) <= |st.workers| * maxLen
  {
    OverhangsSmall(st, maxLen, a);
    hide PcOk;
    NonNegative(st.workers.Keys, Overhangs(st.workers, a));
    AtMostEach(st.workers.Keys, Overhangs(st.workers, a), maxLen);
    assert |st.workers.Keys| == |st.workers|;
  }

  lemma Rest(st: State, a: int)
    requires forall i :: i in st.workers ==> st.workers[i].Idle?
    ensures Admitted(st, a) == Queued(st.queue, a) && Pending(st.workers, a) == 0
  {
    AllZero(st.workers.Keys, Holds(st.workers, a));
    AllZero(st.workers.Keys, Overhangs(st.workers, a));
  }

  lemma {:induction false} RunKeepsTiers(st: State, sched: Schedule, maxLen: nat)
    requires Fair(st, sched, maxLen)
    ensures Run(st, sched, maxLen).usage.Keys == st.usage.Keys
    decreases |sched|
  {
    if sched != [] { RunKeepsTiers(Step(st, sched[0].0, sched[0].1, maxLen), sched[1..], maxLen); }
  }

  /** Alone, a packet with room at its tiers is queued, and each of them is charged its length. */
  lemma RoomAdmits(st: State, i: int, ch: Choice, maxLen: nat) returns (run: seq<State>)
    requires i in st.workers && st.workers[i].Idle? && ch.arrives && PacketOk(st, ch.packet, maxLen)
    requires ch.id !in st.queue
    requires var p := ch.packet;
             && (!p.chain.Nobody? ==>
                   && 0 <= st.usage[p.chain.own] && st.limit[p.chain.own] < U32
                   && st.usage[p.chain.own] + p.len <= st.limit[p.chain.own])
             && (p.chain.Two? ==>
                   && 0 <= st.usage[p.chain.port] && st.limit[p.chain.port] < U32
                   && st.usage[p.chain.port] + p.len <= st.limit[p.chain.port])
    ensures |run| == (if ch.packet.chain.Nobody? then 2 else if ch.packet.chain.One? then 4 else 6) && run[0] == st
    ensures forall k :: 0 <= k < |run| - 1 ==>
              && i in run[k].workers && PcOk(run[k], run[k].workers[i], maxLen)
              && run[k + 1] == Step(run[k], i, ch, maxLen)
    ensures var p, end := ch.packet, run[|run| - 1];
            && end.queue == st.queue[ch.id := p] && end.limit == st.limit
            && i in end.workers && end.workers[i].Idle?
            && end.usage == (match p.chain
                             case Nobody => st.usage
                             case One(a) => st.usage[a := st.usage[a] + p.len]
                             case Two(a, b) => st.usage[a := st.usage[a] + p.len][b := st.usage[b] + p.len])
  {
    var s1 := Step(st, i, ch, maxLen);
    if ch.packet.chain.Nobody? {
      assert s1.workers == st.workers;
      return [st, s1];
    }
    var s2 := Step(s1, i, ch, maxLen);
    var s3 := Step(s2, i, ch, maxLen);
    if ch.packet.chain.One? { return [st, s1, s2, s3]; }
    var s4 := Step(s3, i, ch, maxLen);
    var s5 := Step(s4, i, ch, maxLen);
    run := [st, s1, s2, s3, s4, s5];
  }

  /** A race may begin at any registers that agree with what is queued, with nobody in flight. */
  lemma StartIsInv(st: State, top: map<int, int>, maxLen: nat)
    requires ShapesOk(st, top, maxLen) && forall i :: i in st.workers ==> st.workers[i].Idle?
    requires forall a :: a in st.usage ==> st.usage[a] == Queued(st.queue, a) <= top[a] && st.limit[a] <= top[a]
    requires forall a :: a in st.usage ==> top[a] + |st.workers| * maxLen < U32
    ensures Inv(st, top, maxLen)
  {
    forall a | a in st.usage
      ensures TierOk(st, a, top[a], maxLen)
    {
      Rest(st, a);
    }
  }
}
