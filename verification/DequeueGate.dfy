/** The two-tier dequeue gate under contention. Any number of workers pass packets of one S-VLAN
    through three shared words: the S-VLAN's virtual time, its packed round-and-deficit word as a
    child of the port, and the port's virtual time. Each compare-and-swap loop is split into its load
    and its exchange, so the steps of different workers interleave everywhere the hardware lets them. */
module DequeueGate {
  import opened Sums
  import opened Rate
  import Drr

  type u32 = x: int | 0 <= x < 0x1_0000_0000

  const U32: int := 0x1_0000_0000
  const BIAS: int := 0x8000_0000

  // ---------------------------------------------------------------- virtual time

  /** The time a take at now writes over seen: idle credit is cut to the burst first. */
  function NextTime(seen: nat, cost: nat, now: nat, burst: nat): nat
    requires seen <= now
  {
    (if now - seen > burst then now - burst else seen) + cost
  }

  /** What a gate's word tells about the net cost taken since clocks were at t0: nothing yet, or at
      least that cost past t0 - burst, and never beyond the latest clock by more than one packet. */
  ghost predicate GateInv(time: int, taken: bool, net: int, t0: nat, t1: nat, burst: nat, maxCost: nat) {
    && time >= 0
    && (if taken then net <= time && t0 - burst + net <= time <= t1 + maxCost else net == 0)
  }

  lemma TakeKeepsGate(time: nat, taken: bool, net: int, cost: nat, now: nat, t0: nat, t1: nat, burst: nat, maxCost: nat)
    requires GateInv(time, taken, net, t0, t1, burst, maxCost)
    requires time <= now && t0 <= now <= t1 && cost <= maxCost
    ensures GateInv(NextTime(time, cost, now, burst), true, net + cost, t0, t1, burst, maxCost)
  {
  }

  /** An unwind's subtraction neither wraps nor breaks the bound, whatever clamps came in between. */
  lemma RefundKeepsGate(time: nat, taken: bool, net: int, cost: nat, t0: nat, t1: nat, burst: nat, maxCost: nat)
    requires GateInv(time, taken, net, t0, t1, burst, maxCost)
    requires 0 <= cost <= net
    ensures taken || cost == 0
    ensures time - cost >= 0 && GateInv(time - cost, taken, net - cost, t0, t1, burst, maxCost)
  {
  }

  // ---------------------------------------------------------------- the shared child's word

  /** The packed word: a round tag over a biased deficit. */
  datatype Word = Word(tag: u32, low: u32)

  /** u32 difference, as the charge computes it. */
  function Sub32(a: u32, b: nat): u32 { if a >= b then a - b else (a - b) % U32 }

  /** fetch-add on the whole 64-bit word: a full low half carries into the tag. */
  function AddWord(w: Word, d: nat): Word {
    if w.low + d < U32 then Word(w.tag, w.low + d)
    else Word((w.tag + (w.low + d) / U32) % U32, (w.low + d) % U32)
  }

  function Deficit(w: Word): int { w.low - BIAS }

  datatype Verdict = Verdict(refilled: bool, admitted: bool, next: Word)

  /** A refill in biased form, truncated to the half it is packed into. */
  function ToppedUp(low: u32, quantum: nat): u32 {
    var topped := low + quantum;
    var ceiling := BIAS + Drr.Cap(quantum);
    (if topped < ceiling then topped else ceiling) % U32
  }

  lemma ToppedUpDeficit(low: u32, quantum: nat)
    requires Drr.Cap(quantum) < BIAS
    ensures ToppedUp(low, quantum) - BIAS == Drr.Refilled(low - BIAS, quantum)
  {
  }

  /** What one pass of the reserve loop computes from the word it loaded. */
  function Decide(w: Word, tag: u32, quantum: nat, parentTime: nat, now: nat, len: nat): Verdict {
    var refilled := Drr.RefillDue(tag, w.tag);
    var low: u32 := if refilled then ToppedUp(w.low, quantum) else w.low;
    var admitted := low > BIAS || Drr.EscapeOpen(low - BIAS, parentTime, now);
    Verdict(refilled, admitted, Word(if refilled then tag else w.tag, if admitted then Sub32(low, len) else low))
  }

  /** The deficit half stays far from both of its ends. */
  ghost predicate Roomy(deficit: int, maxLen: nat, top: nat) {
    -Drr.MAX_PKT - maxLen < deficit <= top
  }

  /** One decision, in deficits: no wrap in the low half, and the credit it may add is one quantum. */
  lemma DecideDeficit(w: Word, tag: u32, quantum: nat, parentTime: nat, now: nat, len: nat, maxLen: nat, top: nat,
          roundBytes: nat)
    requires Roomy(Deficit(w), maxLen, top) && len <= maxLen && quantum <= roundBytes
    requires Drr.Cap(roundBytes) <= top && top + maxLen + Drr.MAX_PKT < BIAS
    ensures var v := Decide(w, tag, quantum, parentTime, now, len);
            var d := if v.refilled then Drr.Refilled(Deficit(w), quantum) else Deficit(w);
            && Deficit(v.next) == (if v.admitted then d - len else d)
            && (v.admitted <==> d > 0 || (d > -2048 && parentTime + 1_000_000 <= now))
            && v.next.tag == (if v.refilled then tag else w.tag)
            && (v.refilled <==> Drr.RefillDue(tag, w.tag))
            && Roomy(Deficit(v.next), maxLen, top)
            && d <= Deficit(w) + (if v.refilled then quantum else 0) && (v.refilled ==> d <= Drr.Cap(roundBytes))
  {
    ToppedUpDeficit(w.low, quantum);
    hide ToppedUp;
  }

  // ---------------------------------------------------------------- the machine

  /** Where a worker stands in cake_agg_dequeue_gate: the shared access it performs next. Loaded
      values are the registers its loop holds until the exchange. */
  datatype Pc =
    | Idle
    | LoadA | CasA(seenTime: nat)
    | LoadD | CasD(seen: Word, activeWeight: nat, parentTime: nat, seenRound: int)
    | LoadP | CasP(seenTime: nat)
    | Refund
    | Unwind

  /** A worker of this S-VLAN, or one that passes only the port's gate: a scheduler attached to the port
      itself, or a member of another S-VLAN whose own words are elsewhere. */
  datatype Worker = Worker(pc: Pc, len: nat, now: nat, direct: bool)

  /** The configuration, fixed while workers run, and the window their clocks are sampled in. */
  datatype Conf = Conf(scaledA: nat, scaledP: nat, burstA: nat, burstP: nat,
                       roundBytes: nat, weight: nat, maxLen: nat, t0: nat, t1: nat)

  /** The three shared words, the workers, and the history the bounds speak of: the unbounded round
      behind the tag, the latest round any worker sampled, what passed, and, for each refill that was
      published, the parent's weight it was sized by. */
  datatype Paid = Paid(costA: int, costP: int, bytes: int)

  datatype Gate = Gate(time: nat, taken: bool)

  datatype Issue = Issue(word: Word, round: int, drawn: seq<nat>)

  datatype State = State(a: Gate, p: Gate, d: Issue, clock: int, paid: Paid, workers: map<int, Worker>)

  /** What the outside decides at a step: a new packet and its clock sample, what the loads of the
      parent's weight and time return, and whether a weak exchange fails for no reason. */
  datatype Choice = Choice(len: nat, now: nat, direct: bool, activeWeight: nat, parentTime: nat, spurious: bool)

  function RoundNow(w: Worker): int { Drr.RoundOf(w.now) }

  /** The quantum of this child for one reading of its parent's weight. */
  function Share(c: Conf, activeWeight: nat): nat
    requires c.weight >= 1
  {
    Drr.Quantum(c.roundBytes, c.weight, activeWeight)
  }

  /** The greatest whole number of bytes within the child's part, by weight, of the round. */
  lemma ShareIs(c: Conf, activeWeight: nat)
    requires c.weight >= 1
    ensures var q, d := Share(c, activeWeight), if activeWeight < c.weight then c.weight else activeWeight;
            q * d <= c.roundBytes * c.weight < q * d + d
  {
    Drr.QuantumIs(c.roundBytes, c.weight, activeWeight);
  }

  /** All the credit issued, one quantum for each published refill. */
  function Issued(c: Conf, drawn: seq<nat>): nat
    requires c.weight >= 1
  {
    if drawn == [] then 0 else Issued(c, drawn[..|drawn| - 1]) + Share(c, drawn[|drawn| - 1])
  }

  function Decision(c: Conf, w: Worker): Verdict
    requires w.pc.CasD? && c.weight >= 1
  {
    Decide(w.pc.seen, Drr.Tag(RoundNow(w)), Share(c, w.pc.activeWeight), w.pc.parentTime, w.now, w.len)
  }

  function Move(st: State, i: int, pc: Pc): State
    requires i in st.workers
  {
    st.(workers := st.workers[i := st.workers[i].(pc := pc)])
  }

  /** u64 subtraction on a virtual time. */
  function Sub64(a: nat, b: nat): nat { if a >= b then a - b else (a - b) % 0x1_0000_0000_0000_0000 }

  /** One shared access by worker i. */
  function Step(c: Conf, st: State, i: int, ch: Choice): State
    requires i in st.workers && c.weight >= 1
  {
    var w := st.workers[i];
    match w.pc
    case Idle =>
      st.(workers := st.workers[i := Worker(if ch.direct then LoadP else LoadA, ch.len, ch.now, ch.direct)],
          clock := if Drr.RoundOf(ch.now) > st.clock then Drr.RoundOf(ch.now) else st.clock)
    case LoadA =>
      Move(st, i, if st.a.time > w.now then Idle else CasA(st.a.time))
    case CasA(seen) =>
      if ch.spurious || st.a.time != seen || seen > w.now then Move(st, i, LoadA)
      else Move(st, i, LoadD).(a := Gate(NextTime(seen, CostNs(w.len, c.scaledA), w.now, c.burstA), true))
    case LoadD =>
      var v := Decide(st.d.word, Drr.Tag(RoundNow(w)), Share(c, ch.activeWeight), ch.parentTime, w.now, w.len);
      Move(st, i, if !v.admitted && !v.refilled then Unwind
          else CasD(st.d.word, ch.activeWeight, ch.parentTime, st.d.round))
    case CasD(seen, activeWeight, parentTime, seenRound) =>
      var v := Decision(c, w);
      if ch.spurious || st.d.word != seen then Move(st, i, LoadD)
      else Move(st, i, if v.admitted then LoadP else Unwind).(
             d := if v.refilled then Issue(v.next, RoundNow(w), st.d.drawn + [activeWeight])
                  else Issue(v.next, st.d.round, st.d.drawn))
    case LoadP =>
      Move(st, i, if st.p.time > w.now then (if w.direct then Idle else Refund) else CasP(st.p.time))
    case CasP(seen) =>
      if ch.spurious || st.p.time != seen || seen > w.now then Move(st, i, LoadP)
      else Move(st, i, Idle).(
             p := Gate(NextTime(seen, CostNs(w.len, c.scaledP), w.now, c.burstP), true),
             paid := Paid(st.paid.costA + (if w.direct then 0 else CostNs(w.len, c.scaledA)),
                 st.paid.costP + CostNs(w.len, c.scaledP),
                          st.paid.bytes + (if w.direct then 0 else w.len)))
    case Refund =>
      Move(st, i, Unwind).(d := st.d.(word := AddWord(st.d.word, w.len)))
    case Unwind =>
      Move(st, i, Idle).(a := Gate(Sub64(st.a.time, CostNs(w.len, c.scaledA)), st.a.taken))
  }

  // ---------------------------------------------------------------- what is in flight

  function HoldsGate(pc: Pc): bool { pc.LoadD? || pc.CasD? || pc.LoadP? || pc.CasP? || pc.Refund? || pc.Unwind? }

  function HoldsBytes(pc: Pc): bool { pc.LoadP? || pc.CasP? || pc.Refund? }

  ghost function GateHold(c: Conf, st: State, i: int): int {
    if i in st.workers && HoldsGate(st.workers[i].pc) && !st.workers[i].direct
        then CostNs(st.workers[i].len, c.scaledA) else 0
  }

  ghost function GateHolds(c: Conf, st: State): int -> int { i => GateHold(c, st, i) }

  ghost function ByteHold(st: State, i: int): int {
    if i in st.workers && HoldsBytes(st.workers[i].pc) && !st.workers[i].direct then st.workers[i].len else 0
  }

  ghost function ByteHolds(st: State): int -> int { i => ByteHold(st, i) }

  /** Net cost the S-VLAN's gate has let through: what passed, and what may yet be unwound. */
  ghost function NetA(c: Conf, st: State): int { st.paid.costA + Sum(st.workers.Keys, GateHolds(c, st)) }

  /** Net bytes reserved on the shared child. */
  ghost function NetBytes(st: State): int { st.paid.bytes + Sum(st.workers.Keys, ByteHolds(st)) }

  /** The most credit between refunds: the cap, or what there was to begin with, which a refund after a
      refill or a lowered rate may have left above it. */
  ghost function Peak(c: Conf, deficit0: int): int {
    if deficit0 > Drr.Cap(c.roundBytes) then deficit0 else Drr.Cap(c.roundBytes)
  }

  /** The top of the deficit: the most credit, plus every worker refunding a packet on top of it. */
  ghost function Top(c: Conf, st: State, deficit0: int): int { Peak(c, deficit0) + |st.workers| * c.maxLen }

  // ---------------------------------------------------------------- invariants

  ghost predicate ConfOk(c: Conf) { c.weight >= 1 && c.t0 <= c.t1 }

  /** All of it fits into the low half of the word. */
  ghost predicate Headroom(c: Conf, st: State, deficit0: int) {
    Top(c, st, deficit0) + c.maxLen + Drr.MAX_PKT < BIAS
  }

  /** The clocks of the workers inside the gate differ by less than 2^20 rounds, and the child has
      not been left untouched for the 49.7 days after which its tag is ambiguous. */
  ghost predicate Skew(st: State) {
    && (forall i :: i in st.workers && !st.workers[i].pc.Idle? ==> RoundNow(st.workers[i]) >= st.clock - Drr.STALE_LEAD)
    && st.clock - st.d.round < U32 - Drr.STALE_LEAD
  }

  ghost predicate WorkerOk(c: Conf, st: State, w: Worker) {
    w.pc.Idle? ||
    (&& w.len <= c.maxLen && c.t0 <= w.now <= c.t1 && RoundNow(w) <= st.clock
     && (w.direct ==> w.pc.LoadP? || w.pc.CasP?)
     && (w.pc.CasA? || w.pc.CasP? ==> w.pc.seenTime <= w.now)
     && (w.pc.CasD? ==>
           && Drr.Tag(w.pc.seenRound) == w.pc.seen.tag
           && w.pc.seenRound <= st.d.round
           && -Drr.STALE_LEAD <= RoundNow(w) - w.pc.seenRound < U32 - Drr.STALE_LEAD))
  }

  ghost predicate WorkersOk(c: Conf, st: State) {
    forall i :: i in st.workers ==> WorkerOk(c, st, st.workers[i])
  }

  ghost predicate GatesOk(c: Conf, st: State) {
    && GateInv(st.a.time, st.a.taken, NetA(c, st), c.t0, c.t1, c.burstA, CostNs(c.maxLen, c.scaledA))
    && GateInv(st.p.time, st.p.taken, st.paid.costP, c.t0, c.t1, c.burstP, CostNs(c.maxLen, c.scaledP))
    && st.paid.costA >= 0
  }

  ghost predicate WordOk(c: Conf, st: State, round0: int, deficit0: int) {
    && c.weight >= 1 && Headroom(c, st, deficit0)
    && Drr.Tag(st.d.round) == st.d.word.tag && st.d.round <= st.clock
    && -Drr.MAX_PKT - c.maxLen < Deficit(st.d.word)
    && Deficit(st.d.word) + Sum(st.workers.Keys, ByteHolds(st)) <= Top(c, st, deficit0)
    && Deficit(st.d.word) + NetBytes(st) <= deficit0 + Issued(c, st.d.drawn)
    && |st.d.drawn| <= st.d.round - round0
  }

  ghost predicate Inv(c: Conf, st: State, round0: int, deficit0: int) {
    ConfOk(c) && WorkersOk(c, st) && GatesOk(c, st) && WordOk(c, st, round0, deficit0)
  }

  // ---------------------------------------------------------------- holds, one worker at a time

  lemma HoldsChange(c: Conf, st: State, st': State, i: int)
    requires st.workers.Keys == st'.workers.Keys && i in st.workers
    requires forall j :: j in st.workers && j != i ==> st'.workers[j] == st.workers[j]
    ensures Sum(st'.workers.Keys, GateHolds(c, st')) == Sum(st.workers.Keys, GateHolds(c, st)) - GateHold(c, st, i)
        + GateHold(c, st', i)
    ensures Sum(st'.workers.Keys, ByteHolds(st')) == Sum(st.workers.Keys, ByteHolds(st)) - ByteHold(st, i)
        + ByteHold(st', i)
  {
    Change(st.workers.Keys, GateHolds(c, st), GateHolds(c, st'), i);
    Change(st.workers.Keys, ByteHolds(st), ByteHolds(st'), i);
  }

  lemma HoldsBounded(c: Conf, st: State, i: int)
    requires WorkersOk(c, st) && i in st.workers
    ensures 0 <= GateHold(c, st, i) <= Sum(st.workers.Keys, GateHolds(c, st))
    ensures 0 <= ByteHold(st, i) <= Sum(st.workers.Keys, ByteHolds(st))
    ensures Sum(st.workers.Keys, ByteHolds(st)) <= |st.workers| * c.maxLen
  {
    NonNegativeAt(st.workers.Keys, GateHolds(c, st), i);
    NonNegativeAt(st.workers.Keys, ByteHolds(st), i);
    AtMostEach(st.workers.Keys, ByteHolds(st), c.maxLen);
  }

  /** A successful exchange on the packed word really saw the round it decided on: a full wrap of the
      tag in between would put the worker's clock 2^20 rounds behind. */
  lemma NoWrapUnderneath(c: Conf, st: State, i: int)
    requires WorkersOk(c, st) && Skew(st) && i in st.workers && st.workers[i].pc.CasD?
    requires Drr.Tag(st.d.round) == st.d.word.tag && st.d.round <= st.clock && st.d.word == st.workers[i].pc.seen
    ensures st.d.round == st.workers[i].pc.seenRound
  {
    var w := st.workers[i];
    var d := st.d.round - w.pc.seenRound;
    Drr.DiffMod(st.d.round, w.pc.seenRound);
    assert d % U32 == 0;
    assert d < U32;
  }

  // ---------------------------------------------------------------- one step

  lemma StepFrame(c: Conf, st: State, i: int, ch: Choice)
    requires i in st.workers && c.weight >= 1
    ensures var st' := Step(c, st, i, ch);
            && st'.workers.Keys == st.workers.Keys
            && (forall j :: j in st.workers && j != i ==> st'.workers[j] == st.workers[j])
            && st'.clock >= st.clock
  {
  }

  lemma RoundNeverFalls(c: Conf, st: State, i: int, ch: Choice, round0: int, deficit0: int)
    requires Inv(c, st, round0, deficit0) && Skew(st) && i in st.workers
    ensures Step(c, st, i, ch).d.round >= st.d.round
    ensures Step(c, st, i, ch).d.drawn != st.d.drawn ==>
              Step(c, st, i, ch).d.round > st.d.round && |Step(c, st, i, ch).d.drawn| == |st.d.drawn| + 1
    ensures Step(c, st, i, ch).d.round != st.d.round ==> Step(c, st, i, ch).d.round == RoundNow(st.workers[i])
  {
    var w := st.workers[i];
    if w.pc.CasD? && st.d.word == w.pc.seen {
      NoWrapUnderneath(c, st, i);
      Drr.RefillDueAgrees(RoundNow(w), w.pc.seenRound);
    }
  }

  lemma StepWorkers(c: Conf, st: State, i: int, ch: Choice, round0: int, deficit0: int)
    requires Inv(c, st, round0, deficit0) && Skew(st) && i in st.workers
    requires ch.len <= c.maxLen && c.t0 <= ch.now <= c.t1
    ensures WorkersOk(c, Step(c, st, i, ch))
  {
    var st' := Step(c, st, i, ch);
    StepFrame(c, st, i, ch);
    RoundNeverFalls(c, st, i, ch, round0, deficit0);
    MoverOk(c, st, i, ch, round0, deficit0);
    forall j | j in st'.workers
      ensures WorkerOk(c, st', st'.workers[j])
    {
      if j != i { assert WorkerOk(c, st, st.workers[j]); }
    }
  }

  lemma MoverOk(c: Conf, st: State, i: int, ch: Choice, round0: int, deficit0: int)
    requires Inv(c, st, round0, deficit0) && Skew(st) && i in st.workers
    requires ch.len <= c.maxLen && c.t0 <= ch.now <= c.t1
    ensures var st' := Step(c, st, i, ch); i in st'.workers && WorkerOk(c, st', st'.workers[i])
  {
    assert WorkerOk(c, st, st.workers[i]);
  }

  /** A step that moves no gate cost leaves both gates' books alone. */
  lemma GatesQuiet(c: Conf, st: State, st': State, i: int)
    requires GatesOk(c, st) && i in st.workers && st'.workers.Keys == st.workers.Keys
    requires forall j :: j in st.workers && j != i ==> st'.workers[j] == st.workers[j]
    requires st'.a == st.a && st'.p == st.p && st'.paid == st.paid && GateHold(c, st', i) == GateHold(c, st, i)
    ensures GatesOk(c, st')
  {
    HoldsChange(c, st, st', i);
  }

  lemma GatesTakeA(c: Conf, st: State, i: int, ch: Choice)
    requires ConfOk(c) && WorkersOk(c, st) && GatesOk(c, st) && i in st.workers && st.workers[i].pc.CasA?
    ensures GatesOk(c, Step(c, st, i, ch))
  {
    var st', w := Step(c, st, i, ch), st.workers[i];
    StepFrame(c, st, i, ch);
    HoldsChange(c, st, st', i);
    CostMono(w.len, c.maxLen, c.scaledA);
  }

  lemma GatesTakeP(c: Conf, st: State, i: int, ch: Choice)
    requires ConfOk(c) && WorkersOk(c, st) && GatesOk(c, st) && i in st.workers && st.workers[i].pc.CasP?
    ensures GatesOk(c, Step(c, st, i, ch))
  {
    var st', w := Step(c, st, i, ch), st.workers[i];
    StepFrame(c, st, i, ch);
    HoldsChange(c, st, st', i);
    CostMono(w.len, c.maxLen, c.scaledP);
  }

  lemma GatesUnwind(c: Conf, st: State, i: int, ch: Choice)
    requires ConfOk(c) && WorkersOk(c, st) && GatesOk(c, st) && i in st.workers
        && st.workers[i].pc.Unwind?
    ensures GatesOk(c, Step(c, st, i, ch))
    ensures st.a.time >= CostNs(st.workers[i].len, c.scaledA)
  {
    var st', w := Step(c, st, i, ch), st.workers[i];
    StepFrame(c, st, i, ch);
    HoldsChange(c, st, st', i);
    HoldsBounded(c, st, i);
    RefundKeepsGate(st.a.time, st.a.taken, NetA(c, st), CostNs(w.len, c.scaledA), c.t0, c.t1, c.burstA,
        CostNs(c.maxLen, c.scaledA));
  }

  lemma StepGates(c: Conf, st: State, i: int, ch: Choice)
    requires ConfOk(c) && WorkersOk(c, st) && GatesOk(c, st) && i in st.workers
    ensures GatesOk(c, Step(c, st, i, ch))
  {
    match st.workers[i].pc
    case CasA(_) => GatesTakeA(c, st, i, ch);
    case CasP(_) => GatesTakeP(c, st, i, ch);
    case Unwind => GatesUnwind(c, st, i, ch);
    case _ =>
      StepFrame(c, st, i, ch);
      GatesQuiet(c, st, Step(c, st, i, ch), i);
  }

  lemma WordQuiet(c: Conf, st: State, st': State, i: int, round0: int, deficit0: int)
    requires WordOk(c, st, round0, deficit0) && i in st.workers && st'.workers.Keys == st.workers.Keys
    requires forall j :: j in st.workers && j != i ==> st'.workers[j] == st.workers[j]
    requires st'.d == st.d && st'.clock >= st.clock
    requires st'.paid.bytes - st.paid.bytes == ByteHold(st, i) - ByteHold(st', i) >= 0
    ensures WordOk(c, st', round0, deficit0)
  {
    HoldsChange(c, st, st', i);
    assert |st'.workers.Keys| == |st.workers.Keys|;
  }

  /** What a successful exchange does to the word: the credit it leaves, with the packet it now holds
      added back, is what was there plus at most one quantum for each refill. */
  lemma DecideAt(c: Conf, st: State, i: int, ch: Choice, round0: int, deficit0: int)
    requires Inv(c, st, round0, deficit0) && Skew(st) && i in st.workers && st.workers[i].pc.CasD?
    requires !ch.spurious && st.d.word == st.workers[i].pc.seen
    ensures var st' := Step(c, st, i, ch);
            var left := Deficit(st'.d.word) + ByteHold(st', i);
            && ByteHold(st, i) == 0 && ByteHold(st', i) >= 0
            && -Drr.MAX_PKT - c.maxLen < Deficit(st'.d.word)
            && (left <= Deficit(st.d.word) || left <= Drr.Cap(c.roundBytes))
            && left - Deficit(st.d.word) <= Issued(c, st'.d.drawn) - Issued(c, st.d.drawn)
            && Drr.Tag(st'.d.round) == st'.d.word.tag
            && st'.d.round <= st'.clock && st'.paid == st.paid
  {
    var w := st.workers[i];
    HoldsBounded(c, st, i);
    assert (st.d.drawn + [w.pc.activeWeight])[..|st.d.drawn|] == st.d.drawn;
    DecideDeficit(st.d.word, Drr.Tag(RoundNow(w)), Share(c, w.pc.activeWeight), w.pc.parentTime, w.now, w.len,
        c.maxLen, Top(c, st, deficit0), c.roundBytes);
  }

  lemma WordDecide(c: Conf, st: State, i: int, ch: Choice, round0: int, deficit0: int)
    requires Inv(c, st, round0, deficit0) && Skew(st) && i in st.workers && st.workers[i].pc.CasD?
    requires !ch.spurious && st.d.word == st.workers[i].pc.seen
    ensures WordOk(c, Step(c, st, i, ch), round0, deficit0)
  {
    DecideAt(c, st, i, ch, round0, deficit0);
    RoundNeverFalls(c, st, i, ch, round0, deficit0);
    HoldsBounded(c, st, i);
    WordBooks(c, st, Step(c, st, i, ch), i, round0, deficit0);
  }

  /** The same step seen from the books of the whole word. */
  lemma WordBooks(c: Conf, st: State, st': State, i: int, round0: int, deficit0: int)
    requires WordOk(c, st, round0, deficit0) && i in st.workers && st'.workers.Keys == st.workers.Keys
    requires forall j :: j in st.workers && j != i ==> st'.workers[j] == st.workers[j]
    requires ByteHold(st, i) == 0 && st'.paid == st.paid
    requires Sum(st.workers.Keys, ByteHolds(st)) <= |st.workers| * c.maxLen
    requires -Drr.MAX_PKT - c.maxLen < Deficit(st'.d.word)
    requires Drr.Tag(st'.d.round) == st'.d.word.tag && st'.d.round <= st'.clock
    requires var left := Deficit(st'.d.word) + ByteHold(st', i);
             && (left <= Deficit(st.d.word) || left <= Drr.Cap(c.roundBytes))
             && left - Deficit(st.d.word) <= Issued(c, st'.d.drawn) - Issued(c, st.d.drawn)
    requires st'.d.round >= st.d.round
    requires st'.d.drawn != st.d.drawn ==> st'.d.round > st.d.round && |st'.d.drawn| == |st.d.drawn| + 1
    ensures WordOk(c, st', round0, deficit0)
  {
    HoldsChange(c, st, st', i);
    assert |st'.workers.Keys| == |st.workers.Keys|;
  }

  /** A refund lands in the low half and never carries into the round. */
  lemma WordRefund(c: Conf, st: State, i: int, ch: Choice, round0: int, deficit0: int)
    requires Inv(c, st, round0, deficit0) && i in st.workers && st.workers[i].pc.Refund?
    ensures WordOk(c, Step(c, st, i, ch), round0, deficit0)
    ensures Step(c, st, i, ch).d.word.tag == st.d.word.tag
  {
    var st' := Step(c, st, i, ch);
    StepFrame(c, st, i, ch);
    HoldsChange(c, st, st', i);
    HoldsBounded(c, st, i);
    assert |st'.workers.Keys| == |st.workers.Keys|;
  }

  /** Every other access leaves the word alone and pays for exactly the bytes it stops holding. */
  lemma StepQuiet(c: Conf, st: State, i: int, ch: Choice)
    requires i in st.workers && c.weight >= 1 && !st.workers[i].pc.Refund?
    requires st.workers[i].pc.CasD? ==> ch.spurious || st.d.word != st.workers[i].pc.seen
    ensures var st' := Step(c, st, i, ch);
            && st'.d == st.d
            && st'.paid.bytes - st.paid.bytes == ByteHold(st, i) - ByteHold(st', i) >= 0
  {
    hide Decide, Decision, NextTime, CostNs, Sub64;
  }

  lemma StepWord(c: Conf, st: State, i: int, ch: Choice, round0: int, deficit0: int)
    requires Inv(c, st, round0, deficit0) && Skew(st) && i in st.workers
    ensures WordOk(c, Step(c, st, i, ch), round0, deficit0)
  {
    hide Step, ByteHold, WordOk, WorkersOk, GatesOk;
    var w := st.workers[i];
    if w.pc.CasD? && !ch.spurious && st.d.word == w.pc.seen {
      WordDecide(c, st, i, ch, round0, deficit0);
    } else if w.pc.Refund? {
      WordRefund(c, st, i, ch, round0, deficit0);
    } else {
      StepFrame(c, st, i, ch);
      StepQuiet(c, st, i, ch);
      WordQuiet(c, st, Step(c, st, i, ch), i, round0, deficit0);
    }
  }

  lemma StepKeepsInv(c: Conf, st: State, i: int, ch: Choice, round0: int, deficit0: int)
    requires Inv(c, st, round0, deficit0) && Skew(st) && i in st.workers
    requires ch.len <= c.maxLen && c.t0 <= ch.now <= c.t1
    ensures Inv(c, Step(c, st, i, ch), round0, deficit0)
  {
    StepFrame(c, st, i, ch);
    assert |Step(c, st, i, ch).workers.Keys| == |st.workers.Keys|;
    StepWorkers(c, st, i, ch, round0, deficit0);
    StepGates(c, st, i, ch);
    StepWord(c, st, i, ch, round0, deficit0);
  }

  // ---------------------------------------------------------------- work conservation

  /** A child is turned away at the port only in debt, and under a parent a round behind the clock only
      while it owes 2048 bytes or more, whatever the others do: whether at the load, when nothing is
      refilled, or at the exchange that publishes the refill. */
  lemma OnlyDebtIsRefused(c: Conf, st: State, i: int, ch: Choice, round0: int, deficit0: int)
    requires Inv(c, st, round0, deficit0) && Skew(st) && i in st.workers
    requires st.workers[i].pc.LoadD? || st.workers[i].pc.CasD?
    requires Step(c, st, i, ch).workers[i].pc.Unwind?
    ensures Deficit(Step(c, st, i, ch).d.word) <= 0
    ensures var parentTime := if st.workers[i].pc.CasD? then st.workers[i].pc.parentTime else ch.parentTime;
            parentTime + 1_000_000 <= st.workers[i].now ==> Deficit(Step(c, st, i, ch).d.word) <= -2048
  {
    var w := st.workers[i];
    HoldsBounded(c, st, i);
    NonNegative(st.workers.Keys, ByteHolds(st));
    if w.pc.CasD? {
      DecideDeficit(st.d.word, Drr.Tag(RoundNow(w)), Share(c, w.pc.activeWeight), w.pc.parentTime, w.now, w.len,
          c.maxLen, Top(c, st, deficit0), c.roundBytes);
    } else {
      DecideDeficit(st.d.word, Drr.Tag(RoundNow(w)), Share(c, ch.activeWeight), ch.parentTime, w.now, w.len,
          c.maxLen, Top(c, st, deficit0), c.roundBytes);
    }
    hide Decide, CostNs, NextTime, AddWord, Sub64;
  }

  /** Alone, a worker with an open S-VLAN gate takes it in three accesses. */
  lemma TakeAlone(c: Conf, st: State, i: int, ch: Choice) returns (s1: State, s2: State, s3: State)
    requires c.weight >= 1 && i in st.workers && st.workers[i].pc.Idle?
    requires !ch.direct && !ch.spurious && st.a.time <= ch.now
    ensures s1 == Step(c, st, i, ch) && i in s1.workers && s2 == Step(c, s1, i, ch)
    ensures i in s2.workers && s3 == Step(c, s2, i, ch)
    ensures s3.workers == st.workers[i := Worker(LoadD, ch.len, ch.now, false)]
    ensures s3.a.time ==
            (if st.a.time + c.burstA < ch.now then ch.now - c.burstA else st.a.time) + CostNs(ch.len, c.scaledA)
    ensures s3.d == st.d && s3.p == st.p && s3.paid == st.paid
  {
    hide Decide, CostNs, AddWord, Sub64;
    s1 := Step(c, st, i, ch);
    s2 := Step(c, s1, i, ch);
    s3 := Step(c, s2, i, ch);
    assert s1.workers[i].pc.LoadA? && s2.workers[i].pc.CasA?;
  }

  /** Alone, it reserves its share in two. */
  lemma ReserveAlone(c: Conf, st: State, i: int, ch: Choice) returns (s1: State, s2: State)
    requires c.weight >= 1 && i in st.workers && st.workers[i].pc.LoadD? && !ch.spurious
    requires var w := st.workers[i];
             Decide(st.d.word, Drr.Tag(RoundNow(w)), Share(c, ch.activeWeight), ch.parentTime, w.now, w.len).admitted
    ensures s1 == Step(c, st, i, ch) && i in s1.workers && s2 == Step(c, s1, i, ch)
    ensures s2.workers == st.workers[i := st.workers[i].(pc := LoadP)]
    ensures s2.a == st.a && s2.p == st.p && s2.paid == st.paid
  {
    hide Decide, CostNs, AddWord, Sub64, NextTime;
    s1 := Step(c, st, i, ch);
    s2 := Step(c, s1, i, ch);
    assert s1.workers[i].pc.CasD?;
  }

  /** Alone, it passes an open port gate in two. */
  lemma PassAlone(c: Conf, st: State, i: int, ch: Choice) returns (s1: State, s2: State)
    requires c.weight >= 1 && i in st.workers && st.workers[i].pc.LoadP? && !st.workers[i].direct
    requires !ch.spurious && st.p.time <= st.workers[i].now
    ensures s1 == Step(c, st, i, ch) && i in s1.workers && s2 == Step(c, s1, i, ch)
    ensures s2.workers == st.workers[i := st.workers[i].(pc := Idle)] && s2.a == st.a
    ensures var w := st.workers[i];
            && s2.p.time ==
               (if st.p.time + c.burstP < w.now then w.now - c.burstP else st.p.time) + CostNs(w.len, c.scaledP)
            && s2.paid == Paid(st.paid.costA + CostNs(w.len, c.scaledA), st.paid.costP + CostNs(w.len, c.scaledP),
                               st.paid.bytes + w.len)
  {
    hide Decide, CostNs, AddWord, Sub64;
    s1 := Step(c, st, i, ch);
    s2 := Step(c, s1, i, ch);
    assert s1.workers[i].pc.CasP?;
  }

  lemma CreditAdmits(c: Conf, st: State, i: int, ch: Choice, round0: int, deficit0: int)
    requires Inv(c, st, round0, deficit0) && i in st.workers && ch.len <= c.maxLen
    requires var due := Drr.RefillDue(Drr.Tag(Drr.RoundOf(ch.now)), st.d.word.tag);
             var d := if due then Drr.Refilled(Deficit(st.d.word), Share(c, ch.activeWeight)) else Deficit(st.d.word);
             d > 0 || (d > -2048 && ch.parentTime + 1_000_000 <= ch.now)
    ensures Decide(st.d.word, Drr.Tag(Drr.RoundOf(ch.now)), Share(c, ch.activeWeight), ch.parentTime, ch.now,
                   ch.len).admitted
  {
    HoldsBounded(c, st, i);
    NonNegative(st.workers.Keys, ByteHolds(st));
    DecideDeficit(st.d.word, Drr.Tag(Drr.RoundOf(ch.now)), Share(c, ch.activeWeight), ch.parentTime, ch.now, ch.len,
        c.maxLen, Top(c, st, deficit0), c.roundBytes);
    hide Decide;
  }

  /** A packet whose gates are open passes them in seven accesses when its S-VLAN is in credit, or owes
      less than 2048 bytes to a port a round behind the clock: both tiers are charged, each after its idle
      credit was cut to the burst, and the child for its bytes. */
  lemma OpenGatesPass(c: Conf, st: State, i: int, ch: Choice, round0: int, deficit0: int) returns (run: seq<State>)
    requires Inv(c, st, round0, deficit0) && c.weight >= 1 && i in st.workers && st.workers[i].pc.Idle?
    requires ch.len <= c.maxLen && !ch.direct && !ch.spurious && st.a.time <= ch.now && st.p.time <= ch.now
    requires var due := Drr.RefillDue(Drr.Tag(Drr.RoundOf(ch.now)), st.d.word.tag);
             var d := if due then Drr.Refilled(Deficit(st.d.word), Share(c, ch.activeWeight)) else Deficit(st.d.word);
             d > 0 || (d > -2048 && ch.parentTime + 1_000_000 <= ch.now)
    ensures |run| == 8 && run[0] == st
    ensures forall k :: 0 <= k < 7 ==> i in run[k].workers && run[k + 1] == Step(c, run[k], i, ch)
    ensures var end := run[7];
            var costA, costP := CostNs(ch.len, c.scaledA), CostNs(ch.len, c.scaledP);
            && i in end.workers && end.workers[i].pc.Idle?
            && end.paid == Paid(st.paid.costA + costA, st.paid.costP + costP, st.paid.bytes + ch.len)
            && end.a.time == (if st.a.time + c.burstA < ch.now then ch.now - c.burstA else st.a.time) + costA
            && end.p.time == (if st.p.time + c.burstP < ch.now then ch.now - c.burstP else st.p.time) + costP
  {
    hide Step, Decide, CostNs, Inv;
    CreditAdmits(c, st, i, ch, round0, deficit0);
    var s1, s2, s3 := TakeAlone(c, st, i, ch);
    var s4, s5 := ReserveAlone(c, s3, i, ch);
    var s6, s7 := PassAlone(c, s5, i, ch);
    run := [st, s1, s2, s3, s4, s5, s6, s7];
  }

  // ---------------------------------------------------------------- every run

  /** Nothing in flight, nothing taken yet, any virtual times, any bounded debt, any credit with headroom:
      every state the machine is found in with nobody inside, whatever rates were set before. */
  ghost predicate Start(c: Conf, st: State) {
    && ConfOk(c)
    && (forall i :: i in st.workers ==> st.workers[i].pc.Idle?)
    && !st.a.taken && !st.p.taken && st.paid == Paid(0, 0, 0) && st.d.drawn == []
    && Drr.Tag(st.d.round) == st.d.word.tag && st.d.round <= st.clock
    && -Drr.MAX_PKT - c.maxLen < Deficit(st.d.word) && Headroom(c, st, Deficit(st.d.word))
  }

  /** A schedule: whose turn it is, and what the outside decides then. */
  type Schedule = seq<(int, Choice)>

  /** Every packet and clock sample of the schedule is in range, and the clocks stay close. */
  ghost predicate Fair(c: Conf, st: State, sched: Schedule)
    requires c.weight >= 1
    decreases |sched|
  {
    Skew(st) &&
    (sched == [] ||
     (var (i, ch) := sched[0];
      && i in st.workers && ch.len <= c.maxLen && c.t0 <= ch.now <= c.t1
      && Fair(c, Step(c, st, i, ch), sched[1..])))
  }

  function Run(c: Conf, st: State, sched: Schedule): State
    requires c.weight >= 1 && Fair(c, st, sched)
    decreases |sched|
  {
    if sched == [] then st else Run(c, Step(c, st, sched[0].0, sched[0].1), sched[1..])
  }

  lemma {:induction false} RunKeepsInv(c: Conf, st: State, sched: Schedule, round0: int, deficit0: int)
    requires Inv(c, st, round0, deficit0) && Fair(c, st, sched)
    ensures Inv(c, Run(c, st, sched), round0, deficit0)
    decreases |sched|
  {
    if sched != [] {
      StepKeepsInv(c, st, sched[0].0, sched[0].1, round0, deficit0);
      RunKeepsInv(c, Step(c, st, sched[0].0, sched[0].1), sched[1..], round0, deficit0);
    }
  }

  lemma StartIsInv(c: Conf, st: State)
    requires Start(c, st)
    ensures Inv(c, st, st.d.round, Deficit(st.d.word))
  {
    AllZero(st.workers.Keys, GateHolds(c, st));
    AllZero(st.workers.Keys, ByteHolds(st));
    Drr.MulLe(0, |st.workers|, c.maxLen);
  }

  /** The gate's rate bound: in every interleaving of takes and unwinds, whatever the order of the
      clock samples, the cost each tier lets through in [t0, t1], unwound packets excluded, is at most
      the window plus the burst plus one packet. */
  lemma GateRateBound(c: Conf, st: State, sched: Schedule)
    requires Start(c, st) && Fair(c, st, sched)
    ensures var end := Run(c, st, sched);
            && NetA(c, end) <= (c.t1 - c.t0) + c.burstA + CostNs(c.maxLen, c.scaledA)
            && end.paid.costP <= (c.t1 - c.t0) + c.burstP + CostNs(c.maxLen, c.scaledP)
            && end.a.time >= Sum(end.workers.Keys, GateHolds(c, end))
  {
    StartIsInv(c, st);
    RunKeepsInv(c, st, sched, st.d.round, Deficit(st.d.word));
  }

  lemma HoldsNonNegative(c: Conf, st: State)
    requires WorkersOk(c, st)
    ensures Sum(st.workers.Keys, ByteHolds(st)) >= 0
  {
    NonNegative(st.workers.Keys, ByteHolds(st));
  }

  lemma InvBoundsBytes(c: Conf, st: State, round0: int, deficit0: int)
    requires WordOk(c, st, round0, deficit0) && ConfOk(c) && Sum(st.workers.Keys, ByteHolds(st)) >= 0
    ensures NetBytes(st) <= deficit0 + Issued(c, st.d.drawn) + (Drr.MAX_PKT - 1) + c.maxLen
    ensures |st.d.drawn| <= st.d.round - round0
    ensures BIAS - Drr.MAX_PKT - c.maxLen < st.d.word.low < U32 - c.maxLen
  {
  }

  /** The shared child's byte bound: whatever the interleaving, the bytes reserved and not refunded,
      escapes included, never exceed the credit it started with, the quanta it was issued, and one
      packet past the escape floor. A quantum is this child's share of the round for the weight that
      refill read, and there is at most one for each advance of the round. The two halves of the word
      never touch. */
  lemma SharedBytesBound(c: Conf, st: State, sched: Schedule)
    requires Start(c, st) && Fair(c, st, sched)
    ensures var end := Run(c, st, sched);
            && NetBytes(end) <= Deficit(st.d.word) + Issued(c, end.d.drawn) + (Drr.MAX_PKT - 1) + c.maxLen
            && |end.d.drawn| <= end.d.round - st.d.round
            && end.d.word.tag == Drr.Tag(end.d.round)
            && BIAS - Drr.MAX_PKT - c.maxLen < end.d.word.low < U32 - c.maxLen
  {
    StartIsInv(c, st);
    RunKeepsInv(c, st, sched, st.d.round, Deficit(st.d.word));
    var end := Run(c, st, sched);
    HoldsNonNegative(c, end);
    InvBoundsBytes(c, end, st.d.round, Deficit(st.d.word));
  }

  // ---------------------------------------------------------------- the share of the round

  /** Every weight a refill was sized by, or is about to be, is at least w. */
  ghost predicate DrawnAtLeast(st: State, w: nat) {
    && (forall k :: 0 <= k < |st.d.drawn| ==> st.d.drawn[k] >= w)
    && (forall i :: i in st.workers && st.workers[i].pc.CasD? ==> st.workers[i].pc.activeWeight >= w)
  }

  lemma {:induction false} RunDrawnAtLeast(c: Conf, st: State, sched: Schedule, w: nat)
    requires c.weight >= 1 && Fair(c, st, sched) && DrawnAtLeast(st, w)
    requires forall k :: 0 <= k < |sched| ==> sched[k].1.activeWeight >= w
    ensures DrawnAtLeast(Run(c, st, sched), w)
    decreases |sched|
  {
    if sched != [] {
      var (i, ch) := sched[0];
      assert DrawnAtLeast(Step(c, st, i, ch), w) by {
        hide Decide, NextTime, CostNs, Sub64, AddWord;
      }
      RunDrawnAtLeast(c, Step(c, st, i, ch), sched[1..], w);
    }
  }

  lemma {:induction false} IssuedAtMost(c: Conf, drawn: seq<nat>, w: nat)
    requires c.weight >= 1 && forall k :: 0 <= k < |drawn| ==> drawn[k] >= w
    ensures Issued(c, drawn) <= |drawn| * Share(c, w)
  {
    hide Share;
    if drawn != [] {
      var n := |drawn| - 1;
      IssuedAtMost(c, drawn[..n], w);
      ShareFalls(c, w, drawn[n]);
      assert |drawn| * Share(c, w) == n * Share(c, w) + Share(c, w);
    }
  }

  lemma ShareFalls(c: Conf, few: nat, many: nat)
    requires c.weight >= 1 && few <= many
    ensures Share(c, many) <= Share(c, few)
  {
    Drr.QuantumFalls(c.roundBytes, c.weight, few, many);
  }

  /** While the parent's weight is never read below w, the child gets at most its share against w for
      each advance of the round. */
  lemma SharedShareBound(c: Conf, st: State, sched: Schedule, w: nat)
    requires Start(c, st) && Fair(c, st, sched)
    requires forall k :: 0 <= k < |sched| ==> sched[k].1.activeWeight >= w
    ensures var end := Run(c, st, sched);
            NetBytes(end) <= Deficit(st.d.word) + (end.d.round - st.d.round) * Share(c, w)
                             + (Drr.MAX_PKT - 1) + c.maxLen
  {
    hide Start, Fair, Run, Share, Inv, WordOk;
    SharedBytesBound(c, st, sched);
    StartDrawnAtLeast(c, st, w);
    RunDrawnAtLeast(c, st, sched, w);
    var end := Run(c, st, sched);
    IssuedAtMost(c, end.d.drawn, w);
    Drr.MulLe(|end.d.drawn|, end.d.round - st.d.round, Share(c, w));
  }

  lemma StartDrawnAtLeast(c: Conf, st: State, w: nat)
    requires Start(c, st)
    ensures DrawnAtLeast(st, w) && c.weight >= 1
  {
  }

  /** Every refusal unwinds exactly what it had taken: once nobody is inside the gate, the S-VLAN has
      been charged for the packets that passed the port, and for nothing else. */
  lemma NothingLeftTaken(c: Conf, st: State, sched: Schedule)
    requires Start(c, st) && Fair(c, st, sched)
    requires forall i :: i in Run(c, st, sched).workers ==> Run(c, st, sched).workers[i].pc.Idle?
    ensures NetA(c, Run(c, st, sched)) == Run(c, st, sched).paid.costA
    ensures NetBytes(Run(c, st, sched)) == Run(c, st, sched).paid.bytes
  {
    var end := Run(c, st, sched);
    AllZero(end.workers.Keys, GateHolds(c, end));
    AllZero(end.workers.Keys, ByteHolds(end));
  }

  /** The same words with the history cleared, for a window that begins here. */
  function Afresh(st: State): State {
    State(Gate(st.a.time, false), Gate(st.p.time, false), st.d.(drawn := []), st.clock, Paid(0, 0, 0), st.workers)
  }

  /** Windows follow one another: wherever a run leaves nobody inside, the next may begin, with the credit
      and the virtual times as they are and with any new rates, as long as there is headroom. */
  lemma EndIsStart(c: Conf, st: State, sched: Schedule, next: Conf)
    requires Start(c, st) && Fair(c, st, sched)
    requires forall i :: i in Run(c, st, sched).workers ==> Run(c, st, sched).workers[i].pc.Idle?
    requires ConfOk(next) && next.maxLen >= c.maxLen
    ensures var end := Run(c, st, sched);
            Start(next, Afresh(end)) <==> Headroom(next, end, Deficit(end.d.word))
  {
    StartIsInv(c, st);
    RunKeepsInv(c, st, sched, st.d.round, Deficit(st.d.word));
    hide Run, Fair, Top, Peak, GatesOk;
  }
}
