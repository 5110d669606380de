/** The deficit round robin core: rounds taken from the wall clock, the quantum a child draws in a
    round, and the owner-local child that refuses itself when its credit is spent. */
module Drr {

  const PERIOD_NS: int := 1_000_000
  const MAX_PKT: int := 2048
  const STALE_LEAD: int := 0x10_0000
  const U32: int := 0x1_0000_0000

  type u32 = x: int | 0 <= x < 0x1_0000_0000

  // ---------------------------------------------------------------- rounds

  /** The round tag of an unbounded round number. */
  function Tag(round: int): u32 { round % U32 }

  /** The unbounded round a clock reading falls in; the register keeps its Tag. */
  function RoundOf(now: nat): (r: nat)
    ensures r * 1_000_000 <= now < r * 1_000_000 + 1_000_000
  {
    now / PERIOD_NS
  }

  /** (i32) (a - b) for two tags. */
  function SignedLead(a: u32, b: u32): (d: int)
    ensures -0x8000_0000 <= d < 0x8000_0000
  {
    var d := if a >= b then a - b else a - b + U32;
    if d < 0x8000_0000 then d else d - U32
  }

  predicate Advanced(round: u32, current: u32) { SignedLead(round, current) > 0 }

  predicate Stale(round: u32, current: u32) { SignedLead(round, current) < -STALE_LEAD }

  predicate RefillDue(round: u32, current: u32) { Advanced(round, current) || Stale(round, current) }

  /** The wrapping test reads a lead modulo 2^32 as lying in [-2^20, 2^32 - 2^20). */
  lemma RefillDueExactly(round: int, current: int)
    ensures RefillDue(Tag(round), Tag(current)) <==> (round - current + STALE_LEAD) % U32 > STALE_LEAD
  {
    var lead := round - current;
    var m := lead % U32;
    DiffMod(round, current);
    var s := SignedLead(Tag(round), Tag(current));
    assert s == if m < 0x8000_0000 then m else m - U32;
    assert lead == (lead / U32) * U32 + m;
    if m + STALE_LEAD < U32 {
      ModIs(lead + STALE_LEAD, lead / U32, m + STALE_LEAD);
    } else {
      ModIs(lead + STALE_LEAD, lead / U32 + 1, m + STALE_LEAD - U32);
    }
  }

  lemma ModIs(x: int, q: int, r: int)
    requires 0 <= r < U32 && x == q * U32 + r
    ensures x % U32 == r
  {
  }

  lemma DiffMod(a: int, b: int)
    ensures (a - b) % U32 == if Tag(a) >= Tag(b) then Tag(a) - Tag(b) else Tag(a) - Tag(b) + U32
  {
    var q := a / U32 - b / U32;
    if Tag(a) >= Tag(b) {
      ModIs(a - b, q, Tag(a) - Tag(b));
    } else {
      ModIs(a - b, q - 1, Tag(a) - Tag(b) + U32);
    }
  }

  /** So it agrees with the unbounded comparison for every true lead in that range: a laggard by up
      to 2^20 rounds, a leader by up to 2^32 - 2^20. */
  lemma RefillDueAgrees(round: int, current: int)
    requires -STALE_LEAD <= round - current < U32 - STALE_LEAD
    ensures RefillDue(Tag(round), Tag(current)) <==> round > current
  {
    RefillDueExactly(round, current);
    ModIs(round - current + STALE_LEAD, 0, round - current + STALE_LEAD);
  }

  // ---------------------------------------------------------------- the quantum

  /** round_bytes * weight / W, with W never read below the child's own weight. */
  function Quantum(roundBytes: nat, weight: nat, activeWeight: nat): (q: nat)
    requires weight >= 1
    ensures q <= roundBytes
  {
    var w := if activeWeight < weight then weight else activeWeight;
    QuantumBound(roundBytes, weight, w);
    roundBytes * weight / w
  }

  /** The largest number of whole bytes that is no more than the child's part of the round. */
  lemma QuantumIs(r: nat, w: nat, activeWeight: nat)
    requires w >= 1
    ensures var q, d := Quantum(r, w, activeWeight), if activeWeight < w then w else activeWeight;
            q * d <= r * w < q * d + d
  {
  }

  lemma QuantumBound(r: nat, w: nat, d: nat)
    requires 1 <= w <= d
    ensures 0 <= r * w / d <= r
  {
    MulLe(w, d, r);
    DivLe(r * w, r, d);
  }

  /** The more weight a child shares its round with, the smaller its quantum. */
  lemma QuantumFalls(r: nat, w: nat, few: nat, many: nat)
    requires w >= 1 && few <= many
    ensures Quantum(r, w, many) <= Quantum(r, w, few)
  {
    DivFalls(r * w, if few < w then w else few, if many < w then w else many);
  }

  lemma DivFalls(x: nat, a: nat, b: nat)
    requires 1 <= a <= b
    ensures x / b <= x / a
  {
    var f, g := x / a, x / b;
    assert x < f * a + a && g * b <= x;
    if g > f {
      MulLe(a, b, f + 1);
      MulLe(f + 1, g, b);
    }
  }

  lemma MulLe(a: int, b: int, c: int)
    requires a <= b && 0 <= c
    ensures c * a <= c * b
  {
    assert c * (b - a) >= 0;
  }

  lemma MulGap(a: int, b: int, d: int)
    requires d > 0 && a > b
    ensures a * d >= b * d + d
  {
    MulLe(b + 1, a, d);
    assert d * (b + 1) == d * b + d;
  }

  /** floor(x / d) <= q whenever x <= q * d. */
  lemma DivLe(x: nat, q: nat, d: nat)
    requires d > 0 && x <= q * d
    ensures 0 <= x / d <= q
  {
    var f, m := x / d, x % d;
    assert x == f * d + m;
    if f > q { MulGap(f, q, d); }
    if f < 0 { MulGap(0, f, d); }
  }

  function Cap(quantum: nat): int { if 2 * quantum < MAX_PKT then MAX_PKT else 2 * quantum }

  /** Refilling accumulates, up to the cap. */
  function Refilled(deficit: int, quantum: nat): int {
    if deficit + quantum < Cap(quantum) then deficit + quantum else Cap(quantum)
  }

  /** The work-conserving escape: the parent is a whole round behind the clock, and the child is
      less than a packet in debt. */
  predicate EscapeOpen(deficit: int, parentTime: nat, now: nat) {
    deficit > -MAX_PKT && parentTime + PERIOD_NS <= now
  }

  datatype Admit = Blocked | Admitted

  // ---------------------------------------------------------------- the owner-local child

  /** Debt is bounded by one packet past the escape floor, credit by two rounds of the parent. */
  ghost predicate Bounded(deficit: int, maxLen: nat, roundBytes: nat) {
    -MAX_PKT - maxLen < deficit <= Cap(roundBytes)
  }

  /** One visit of the dequeue walk: what its loads return, and its clock sample. */
  datatype Visit = Visit(roundBytes: nat, activeWeight: nat, parentTime: nat, now: nat)

  /** The part of a child that a visit moves. */
  datatype Credit = Credit(deficit: int, round: u32)

  predicate Due(c: Credit, v: Visit) { RefillDue(Tag(RoundOf(v.now)), c.round) }

  function Visited(c: Credit, weight: nat, v: Visit): Credit
    requires weight >= 1
  {
    if Due(c, v) then Credit(Refilled(c.deficit, Quantum(v.roundBytes, weight, v.activeWeight)), Tag(RoundOf(v.now)))
    else c
  }

  /** What a visit answers once it has refilled. */
  predicate Passes(c: Credit, v: Visit) { c.deficit > 0 || EscapeOpen(c.deficit, v.parentTime, v.now) }

  class Child {
    var effWeight: nat
    var deficit: int
    var round: u32
    var active: bool

    ghost predicate Valid(maxLen: nat, roundBytes: nat)
      reads this
    {
      effWeight >= 1 && Bounded(deficit, maxLen, roundBytes)
    }

    constructor (weight: nat, now: nat)
      requires weight >= 1
      ensures effWeight == weight && deficit == 0 && round == Tag(RoundOf(now)) && !active
      ensures forall maxLen: nat, roundBytes: nat {:trigger Valid(maxLen, roundBytes)} :: Valid(maxLen, roundBytes)
    {
      effWeight, deficit, round, active := weight, 0, Tag(RoundOf(now)), false;
    }

    /** cake_drr_refill: debt is repaid, never forgiven. */
    method Refill(roundBytes: nat, activeWeight: nat, tag: u32)
      requires effWeight >= 1
      modifies this`deficit, this`round
      ensures round == tag
      // All of the quantum, unless that would be more than two of them and more than a packet.
      ensures var q := Quantum(roundBytes, effWeight, activeWeight);
              && (deficit == old(deficit) + q <==> old(deficit) + q <= 2 * q || old(deficit) + q <= 2048)
              && (deficit != old(deficit) + q ==> deficit == 2 * q >= 2048 || deficit == 2048 >= 2 * q)
      ensures deficit == Refilled(old(deficit), Quantum(roundBytes, effWeight, activeWeight))
      ensures old(deficit) <= Cap(Quantum(roundBytes, effWeight, activeWeight)) ==> deficit >= old(deficit)
    {
      var quantum := Quantum(roundBytes, effWeight, activeWeight);
      var cap := 2 * quantum;
      if cap < MAX_PKT {
        cap := MAX_PKT;
      }
      var refilled := deficit + quantum;
      deficit := if refilled < cap then refilled else cap;
      round := tag;
    }

    /** cake_drr_local_admit: refill when the round moved, then admit on positivity or escape.
        maxRound bounds the parent's round over the child's life. */
    method LocalAdmit(roundBytes: nat, activeWeight: nat, parentTime: nat, now: nat,
                      ghost maxLen: nat, ghost maxRound: nat) returns (r: Admit)
      requires Valid(maxLen, maxRound) && roundBytes <= maxRound
      modifies this`deficit, this`round
      ensures Valid(maxLen, maxRound)
      ensures Credit(deficit, round) ==
              Visited(Credit(old(deficit), old(round)), effWeight, Visit(roundBytes, activeWeight, parentTime, now))
      ensures r == Admitted <==> Passes(Credit(deficit, round), Visit(roundBytes, activeWeight, parentTime, now))
      // In credit, or less than 2048 bytes in debt under a parent a millisecond behind the clock.
      ensures r == Admitted <==> deficit > 0 || (deficit > -2048 && parentTime + 1_000_000 <= now)
      // What an admission is worth: one packet can be charged and the debt stays bounded.
      ensures r == Admitted ==> deficit > -MAX_PKT && Bounded(deficit - maxLen, maxLen, maxRound)
    {
      var tag := Tag(RoundOf(now));
      if RefillDue(tag, round) {
        Refill(roundBytes, activeWeight, tag);
      }
      if deficit > 0 {
        return Admitted;
      }
      if EscapeOpen(deficit, parentTime, now) {
        return Admitted;
      }
      return Blocked;
    }

    /** cake_sched_drr_admit, for a child with a parent: the round bytes are resolved only when the round
        number differs from the child's, and the later of the times of the parent and the tier above
        decides the escape. The visit is the one that resolves them always: resolving them late loses nothing. */
    method SchedAdmit(effective: nat, activeWeight: nat, parentTime: nat, aboveTime: nat, now: nat,
                      ghost maxLen: nat, ghost maxRound: nat) returns (r: Admit)
      requires Valid(maxLen, maxRound) && effective <= maxRound
      modifies this`deficit, this`round
      ensures Valid(maxLen, maxRound)
      ensures var v := Visit(effective, activeWeight, if aboveTime > parentTime then aboveTime else parentTime, now);
              && Credit(deficit, round) == Visited(Credit(old(deficit), old(round)), effWeight, v)
              && (r == Admitted <==> Passes(Credit(deficit, round), v))
      ensures r == Admitted <==>
                deficit > 0 || (deficit > -2048 && parentTime + 1_000_000 <= now && aboveTime + 1_000_000 <= now)
      // Work conservation: with both tiers a round behind the clock, only a whole packet of debt is refused.
      ensures parentTime + 1_000_000 <= now && aboveTime + 1_000_000 <= now ==> (r == Blocked <==> deficit <= -2048)
      ensures r == Admitted ==> deficit > -MAX_PKT && Bounded(deficit - maxLen, maxLen, maxRound)
    {
      var roundBytes := 0;
      if round != Tag(RoundOf(now)) { roundBytes := effective; }
      var idleTime := if aboveTime > parentTime then aboveTime else parentTime;
      r := LocalAdmit(roundBytes, activeWeight, idleTime, now, maxLen, maxRound);
    }

    /** cake_drr_local_charge, after a send that an Admitted verdict allowed. */
    method LocalCharge(len: nat, ghost maxLen: nat, ghost maxRound: nat)
      requires Valid(maxLen, maxRound) && len <= maxLen && deficit > -MAX_PKT
      modifies this`deficit
      ensures Valid(maxLen, maxRound) && deficit == old(deficit) - len
    {
      deficit := deficit - len;
    }

    /** cake_drr_child_activate: going idle earned nothing and forgave nothing. */
    method Activate(ghost maxLen: nat, ghost maxRound: nat) returns (changed: bool)
      requires Valid(maxLen, maxRound)
      modifies this`deficit, this`active
      ensures Valid(maxLen, maxRound) && active
      ensures Moved(old(active), true) == if changed then 1 else 0
      ensures deficit == if !old(active) && old(deficit) > 0 then 0 else old(deficit)
    {
      if active {
        return false;
      }
      if deficit > 0 {
        deficit := 0;
      }
      active := true;
      return true;
    }

    /** cake_drr_child_deactivate. */
    method Deactivate() returns (changed: bool)
      modifies this`active
      ensures !active && Moved(old(active), false) == if changed then -1 else 0
    {
      if !active {
        return false;
      }
      active := false;
      return true;
    }
  }

  // ---------------------------------------------------------------- transitions

  /** How often a call to activate (up) or deactivate moves the child's weight: into its parent, out
      of it, or not at all. */
  function Moved(active: bool, up: bool): int { if active == up then 0 else if up then 1 else -1 }

  function MovedBy(active: bool, calls: seq<bool>): int
    decreases |calls|
  {
    if calls == [] then 0 else Moved(active, calls[0]) + MovedBy(calls[0], calls[1..])
  }

  /** However often a child is activated and deactivated, in whatever order, the parent holds its weight
      once while it is active and not at all while it is not. */
  lemma {:induction false} WeightMovesOnce(active: bool, calls: seq<bool>)
    ensures var end := if calls == [] then active else calls[|calls| - 1];
            (if active then 1 else 0) + MovedBy(active, calls) == if end then 1 else 0
    decreases |calls|
  {
    if calls != [] { WeightMovesOnce(calls[0], calls[1..]); }
  }

  // ---------------------------------------------------------------- no starvation

  /** The child after visits none of which sent. */
  function AfterVisits(c: Credit, weight: nat, visits: seq<Visit>): Credit
    requires weight >= 1
    decreases |visits|
  {
    if visits == [] then c else Visited(AfterVisits(c, weight, visits[..|visits| - 1]), weight, visits[|visits| - 1])
  }

  /** How many of the visits refill. */
  function Refills(c: Credit, weight: nat, visits: seq<Visit>): nat
    requires weight >= 1
    decreases |visits|
  {
    if visits == [] then 0
    else
      var n := |visits| - 1;
      Refills(c, weight, visits[..n]) + (if Due(AfterVisits(c, weight, visits[..n]), visits[n]) then 1 else 0)
  }

  /** The visit at k is answered with an admission, given that none before it sent. */
  predicate AdmittedAt(c: Credit, weight: nat, visits: seq<Visit>, k: nat)
    requires weight >= 1 && k < |visits|
  {
    Passes(AfterVisits(c, weight, visits[..k + 1]), visits[k])
  }

  /** Every visit that refills issues a quantum of at least q. */
  ghost predicate Issues(c: Credit, weight: nat, visits: seq<Visit>, q: nat)
    requires weight >= 1
  {
    forall k :: 0 <= k < |visits| && Due(AfterVisits(c, weight, visits[..k]), visits[k]) ==>
        Quantum(visits[k].roundBytes, weight, visits[k].activeWeight) >= q
  }

  /** However deep the bounded debt, a child whose refills issue at least q is admitted once visits worth
      2048 + maxLen bytes have refilled it: within ceil((2048 + maxLen) / q) refilling visits, with any
      number of visits inside a round in between, for which the caller resolves no round bytes, whatever
      the parent's weight and time read. */
  lemma NoStarvation(c: Credit, weight: nat, visits: seq<Visit>, q: nat, maxLen: nat)
    requires weight >= 1 && -MAX_PKT - maxLen < c.deficit
    requires q >= 1 && Issues(c, weight, visits, q)
    requires Refills(c, weight, visits) * q >= MAX_PKT + maxLen
    ensures exists k :: 0 <= k < |visits| && AdmittedAt(c, weight, visits, k)
  {
    RepaysAtLeast(c, weight, visits, q);
    assert visits[..|visits|] == visits;
    assert AdmittedAt(c, weight, visits, |visits| - 1);
  }

  lemma IssuesBefore(c: Credit, weight: nat, visits: seq<Visit>, q: nat)
    requires weight >= 1 && visits != [] && Issues(c, weight, visits, q)
    ensures var n := |visits| - 1;
            && Issues(c, weight, visits[..n], q)
            && (Due(AfterVisits(c, weight, visits[..n]), visits[n]) ==>
                  Quantum(visits[n].roundBytes, weight, visits[n].activeWeight) >= q)
  {
    hide Quantum, Due;
    var n := |visits| - 1;
    forall k | 0 <= k < n && Due(AfterVisits(c, weight, visits[..n][..k]), visits[..n][k])
      ensures Quantum(visits[k].roundBytes, weight, visits[k].activeWeight) >= q
    {
      assert visits[..n][..k] == visits[..k];
    }
  }

  /** Each refill repays q, until the cap, which is itself credit. */
  lemma {:induction false} RepaysAtLeast(c: Credit, weight: nat, visits: seq<Visit>, q: nat)
    requires weight >= 1 && q >= 1 && Issues(c, weight, visits, q)
    ensures var d := AfterVisits(c, weight, visits).deficit;
            d >= c.deficit + Refills(c, weight, visits) * q || d > 0
    ensures c.deficit > 0 ==> AfterVisits(c, weight, visits).deficit > 0
    decreases |visits|
  {
    hide Quantum, Due, Issues;
    if visits != [] {
      var n := |visits| - 1;
      IssuesBefore(c, weight, visits, q);
      RepaysAtLeast(c, weight, visits[..n], q);
      assert (Refills(c, weight, visits[..n]) + 1) * q == Refills(c, weight, visits[..n]) * q + q;
    }
  }

  function RoundBefore(last: nat, visits: seq<Visit>, k: nat): nat
    requires k <= |visits|
  {
    if k == 0 then last else RoundOf(visits[k - 1].now)
  }

  predicate Apart(last: nat, visits: seq<Visit>, k: nat)
    requires k < |visits|
  {
    RoundBefore(last, visits, k) < RoundOf(visits[k].now) < RoundBefore(last, visits, k) + U32 - STALE_LEAD
  }

  /** Visits in successive rounds all refill, as long as the child is not left untouched for the time
      after which its tag is ambiguous. */
  lemma {:induction false} EveryRoundRefills(c: Credit, weight: nat, visits: seq<Visit>, last: nat)
    requires weight >= 1 && c.round == Tag(last)
    requires forall k {:trigger Apart(last, visits, k)} :: 0 <= k < |visits| ==> Apart(last, visits, k)
    ensures Refills(c, weight, visits) == |visits|
    ensures AfterVisits(c, weight, visits).round == Tag(RoundBefore(last, visits, |visits|))
    decreases |visits|
  {
    if visits != [] {
      var n := |visits| - 1;
      forall k | 0 <= k < n
        ensures Apart(last, visits[..n], k)
      {
        assert Apart(last, visits, k);
      }
      hide RefillDue, Refilled, Quantum;
      assert Apart(last, visits, n);
      EveryRoundRefills(c, weight, visits[..n], last);
      RefillDueAgrees(RoundOf(visits[n].now), RoundBefore(last, visits, n));
    }
  }
}
