/** The aggregate tree and the schedulers' queues together: the charge the tree keeps for a scheduler is
    what that scheduler's tins hold, packet by packet. */
module QosPlugin {
  import opened Sums
  import opened AggTree
  import opened FlowQueue
  import opened FlowLists
  import opened TinState
  import Hqos
  import Tins
  import Scheduler

  /** The bytes of every packet queued in a tin. */
  ghost function FlowBytes(fs: seq<Flow>): int -> int {
    i => if 0 <= i < |fs| && QueueOk(fs[i].q) then Bytes(Contents(fs[i].q)) else 0
  }

  ghost function TinBytes(tin: Tins.Tin): (r: int)
    reads tin, tin.flows
    ensures r >= 0
  {
    NonNegative(Ids(tin.flows.Length), FlowBytes(tin.flows[..]));
    Sum(Ids(tin.flows.Length), FlowBytes(tin.flows[..]))
  }

  /** The bytes of every packet queued in the first n tins of a scheduler. */
  ghost function BytesIn(u: Scheduler.Sched, n: nat): (r: int)
    reads u, u.repr
    ensures r >= 0
    requires n <= |u.tins| && forall k :: 0 <= k < |u.tins| ==> u.tins[k] in u.repr && u.tins[k].flows in u.repr
  {
    if n == 0 then 0 else BytesIn(u, n - 1) + TinBytes(u.tins[n - 1])
  }

  ghost predicate Owned(u: Scheduler.Sched)
    reads u
  {
    forall k :: 0 <= k < |u.tins| ==> u.tins[k] in u.repr && u.tins[k].flows in u.repr
  }

  ghost function QueuedBytes(u: Scheduler.Sched): (r: int)
    reads u, u.repr
    ensures r >= 0
  {
    if Owned(u) then BytesIn(u, |u.tins|) else 0
  }

  lemma TinBytesAre(tin: Tins.Tin)
    requires tin.Valid()
    ensures TinBytes(tin) == Backlog(tin.flows[..])
  {
    var fs := tin.flows[..];
    assert forall i :: 0 <= i < |fs| ==> FlowOk(fs[i], tin.tags[..][i], true);
    Same(Ids(|fs|), FlowBytes(fs), Backlogs(fs));
  }

  lemma {:induction false} BytesAre(u: Scheduler.Sched, n: nat)
    requires u.TinsOk() && n <= |u.tins| && Owned(u)
    ensures BytesIn(u, n) == Scheduler.Total(u.books[..n], (b: Scheduler.Book) => b.backlog)
  {
    hide Tins.Tin.ValidBut, Scheduler.Snapshot, TinBytes;
    if n > 0 {
      BytesAre(u, n - 1);
      BookIs(u, n - 1);
      TinBytesAre(u.tins[n - 1]);
      assert u.books[..n][..n - 1] == u.books[..n - 1];
    }
  }

  lemma BookIs(u: Scheduler.Sched, t: nat)
    requires u.TinsOk() && t < |u.tins|
    ensures |u.books| == |u.tins| && u.tins[t].Valid() && u.books[t].backlog == Backlog(u.tins[t].flows[..])
  {
    hide Tins.Tin.ValidBut;
  }

  /** A scheduler's byte counter is the bytes queued in its tins. */
  lemma UsageIsQueued(u: Scheduler.Sched)
    requires u.Valid()
    ensures u.usage == QueuedBytes(u)
  {
    BytesAre(u, |u.tins|);
    assert u.books[..|u.tins|] == u.books;
  }

  /** The tree after a scheduler released bytes of its queues and, if drained, left its parent. */
  function Released(aggs: Aggs, me: AggTree.Sched, freed: int, drained: bool): Aggs {
    var aggs1 := Hqos.ChargeChain(aggs, me.attach, -freed);
    if drained && me.active then WeightSub(aggs1, me.attach, me.effWeight) else aggs1
  }

  /** The tree after a scheduler took a packet, which activates it. */
  function Taken(aggs: Aggs, me: AggTree.Sched, len: nat, taken: bool): Aggs {
    if !taken then aggs
    else
      var aggs1 := Hqos.ChargeChain(aggs, me.attach, len);
      if me.active then aggs1 else WeightAdd(aggs1, me.attach, me.effWeight)
  }

  class Plugin {
    const tree: Hqos.Hqos
    var units: map<int, Scheduler.Sched>

    constructor ()
      ensures Valid() && units == map[] && fresh(tree)
    {
      var h := new Hqos.Hqos();
      tree, units := h, map[];
    }

    /** No two schedulers share storage, with each other, the tree or this. */
    ghost predicate Apart()
      reads this, units.Values
    {
      && (forall s :: s in units ==> this !in units[s].repr && tree !in units[s].repr)
      && (forall s, t :: s in units && t in units && s != t ==>
            units[s] != units[t] && units[s].repr !! units[t].repr && units[s] !in units[t].repr)
    }

    /** The tree knows each scheduler's byte counter and activity. */
    ghost predicate Linked()
      reads this, tree, units.Values
    {
      && units.Keys == tree.scheds.Keys
      && forall s :: s in units ==> units[s].usage == tree.scheds[s].usage && units[s].active == tree.scheds[s].active
    }

    ghost predicate UnitsOk()
      reads this, units.Values, set s, o | s in units && o in units[s].repr :: o
    {
      forall s :: s in units ==> units[s].Valid()
    }

    ghost predicate Valid()
      reads this, tree, units.Values, set s, o | s in units && o in units[s].repr :: o
    {
      tree.Valid() && Apart() && Linked() && UnitsOk()
    }

    /** The bytes queued in each scheduler's tins. */
    ghost function Bytes(): Ledger
      reads this, units.Values, set s, o | s in units && o in units[s].repr :: o
    {
      map s | s in units :: QueuedBytes(units[s])
    }

    /** With everything in step, a tier's usage is the bytes of the packets queued in the tins of the
        schedulers beneath it. */
    lemma TierHoldsQueuedBytes(a: int)
      requires Valid() && a in tree.aggs
      ensures tree.aggs[a].usage == Charge(tree.aggs, tree.scheds, Bytes(), a)
    {
      hide Scheduler.Sched.Valid, Scheduler.Sched.TinsOk, QueuedBytes;
      forall s | s in units
        ensures units[s].usage == QueuedBytes(units[s])
      {
        UsageIsQueued(units[s]);
      }
      assert forall s :: s in units ==> tree.ledger[s] == Bytes()[s];
      assert tree.ledger == Bytes();
    }

    /** The tree gives back what a scheduler no longer holds. */
    method Release(si: int)
      requires tree.Valid() && si in units && units.Keys == tree.scheds.Keys
      requires 0 <= units[si].usage <= tree.scheds[si].usage
      modifies tree`aggs, tree`scheds, tree`ledger
      ensures tree.Valid()
      ensures tree.scheds == old(tree.scheds)[si := old(tree.scheds)[si].(usage := units[si].usage)]
      ensures tree.aggs == Hqos.ChargeChain(old(tree.aggs), old(tree.scheds)[si].attach,
                                            units[si].usage - old(tree.scheds)[si].usage)
    {
      tree.ReleasePacket(si, tree.scheds[si].usage - units[si].usage);
    }

    lemma UsageIsCounted(u: Scheduler.Sched)
      requires u.Valid()
      ensures u.usage >= 0
    {
      hide Tins.Tin.ValidBut, Scheduler.Snapshot;
      u.SaneBooks();
      Scheduler.SaneTotals(u.books);
    }

    /** What the tree does leaves the schedulers as they are, and what one scheduler does the others. */
    method RoomAlone(si: int, t: int, tag: int) returns (slot: int)
      requires Apart() && UnitsOk() && si in units && 0 <= t < |units[si].tins| && 0 < tag < FlowQueue.U32
      modifies units[si], units[si].repr
      ensures units[si].tins[t].tags.Length == units[si].tins[t].flows.Length == QUEUES
      ensures UnitsOk() && 0 <= slot < QUEUES && 0 <= units[si].usage <= old(units[si].usage)
          && units[si].active == old(units[si].active)
      ensures var tin := units[si].tins[t];
              && tin.flows.Length == tin.tags.Length == QUEUES && tin.tags[slot] == tag && QueueOk(tin.flows[slot].q)
              && tin.arrived == old(tin.arrived)
      ensures var u, tin, crowded := units[si], units[si].tins[t], Tins.Crowded(old(units[si].tins[t].tags[..]), tag);
              && u.usage == old(u.usage) - (if crowded then old(tin.flows[slot].backlog) else 0)
              && Len(tin.flows[slot].q) == (if crowded then 0 else old(Len(tin.flows[slot].q)))
    {
      hide Tins.Tin.ValidBut, Scheduler.Snapshot, Scheduler.Sched.BooksOk, Tins.Crowded;
      var u := units[si];
      assert u.Valid();
      u.Alone(t, u.tins[t]);
      slot := u.Room(t, u.tins[t], tag);
      UsageIsCounted(u);
      hide Scheduler.Sched.Valid;
      forall s | s in units
        ensures units[s].Valid()
      {
        if s != si { assert old(units[s].Valid()); }
      }
    }

    /** The first half of an arrival: a slot for the packet, and what an eviction dropped is released. */
    method RoomIn(si: int, t: int, tag: int) returns (slot: int)
      requires Valid() && si in units && 0 <= t < |units[si].tins| && 0 < tag < FlowQueue.U32
      modifies tree`aggs, tree`scheds, tree`ledger, units[si], units[si].repr
      ensures Valid() && 0 <= slot < QUEUES
      ensures var tin := units[si].tins[t];
              && tin.flows.Length == tin.tags.Length == QUEUES && tin.tags[slot] == tag && QueueOk(tin.flows[slot].q)
              && tin.arrived == old(tin.arrived) && units[si].active == old(units[si].active)
      ensures var u, tin, crowded := units[si], units[si].tins[t], Tins.Crowded(old(units[si].tins[t].tags[..]), tag);
              && u.usage == old(u.usage) - (if crowded then old(tin.flows[slot].backlog) else 0)
              && Len(tin.flows[slot].q) == (if crowded then 0 else old(Len(tin.flows[slot].q)))
      ensures old(si in tree.scheds)
      ensures tree.aggs ==
              Released(old(tree.aggs), old(tree.scheds[si]), old(units[si].usage) - units[si].usage, false)
      ensures tree.scheds == old(tree.scheds)[si := old(tree.scheds[si]).(usage := units[si].usage)]
    {
      hide UnitsOk, Scheduler.Sched.Valid, Hqos.Hqos.Valid, Hqos.Hqos.Core, Tins.Crowded;
      slot := RoomAlone(si, t, tag);
      Leave(si, false);
    }

    method PlaceAlone(si: int, t: int, slot: int, p: Packet, hash: nat, junk: seq<Packet>, admitted: bool)
      returns (verdict: Scheduler.Verdict)
      requires Apart() && UnitsOk() && si in units && 0 <= t < |units[si].tins|
          && Placeable(units[si], t, slot, p, junk)
      modifies units[si], units[si].repr
      ensures UnitsOk()
      ensures var u := units[si];
              && verdict == Scheduler.Judged(old(u.usage) + p.len > u.limit, admitted,
                 old(Len(u.tins[t].flows[slot].q)) >= RING_SIZE)
              && u.usage == old(u.usage) + (if verdict.Taken? then p.len else 0)
              && u.active == (verdict.Taken? || old(u.active))
              && u.tins[t].arrived == old(u.tins[t].arrived) + (if verdict.Taken? then [p] else [])
    {
      hide Tins.Tin.ValidBut, Scheduler.Snapshot, Scheduler.Sched.BooksOk;
      var u := units[si];
      assert u.Valid();
      u.Alone(t, u.tins[t]);
      verdict := u.Place(t, u.tins[t], slot, p, hash, junk, admitted);
      hide Scheduler.Sched.Valid;
      forall s | s in units
        ensures units[s].Valid()
      {
        if s != si { assert old(units[s].Valid()); }
      }
    }

    /** A slot holds the packet's tag and a sound queue. */
    ghost predicate Placeable(u: Scheduler.Sched, t: int, slot: int, p: Packet, junk: seq<Packet>)
      requires 0 <= t < |u.tins|
      reads u, u.tins[t], u.tins[t].flows, u.tins[t].tags
    {
      var tin := u.tins[t];
      && tin.flows.Length == tin.tags.Length == QUEUES && 0 <= slot < QUEUES && tin.tags[slot] == p.tag != 0
      && QueueOk(tin.flows[slot].q) && p.len <= u.maxLen && |junk| == RING_SIZE
    }

    /** The second half: the chain is charged or refuses, a full ring gives the charge back, and a taken
        packet activates the scheduler. */
    method PlaceIn(si: int, t: int, slot: int, p: Packet, hash: nat, junk: seq<Packet>)
      returns (verdict: Scheduler.Verdict)
      requires Valid() && si in units && 0 <= t < |units[si].tins| && Placeable(units[si], t, slot, p, junk)
      modifies tree`aggs, tree`scheds, tree`ledger, units[si], units[si].repr
      ensures Valid()
      ensures old(si in tree.scheds)
      ensures var u := units[si];
              && verdict == Scheduler.Judged(old(u.usage) + p.len > u.limit,
                                             Hqos.ChainAdmits(old(tree.aggs), old(tree.scheds[si].attach), p.len),
                                             old(Len(u.tins[t].flows[slot].q)) >= RING_SIZE)
              && (verdict.OverLimit? <==> old(u.usage) + p.len > u.limit)
              && (verdict.NotAdmitted? <==>
                    old(u.usage) + p.len <= u.limit &&
                    !Hqos.ChainAdmits(old(tree.aggs), old(tree.scheds[si].attach), p.len))
              && (verdict.Taken? ==> old(Len(u.tins[t].flows[slot].q)) < 128)
              && u.usage == old(u.usage) + (if verdict.Taken? then p.len else 0)
              && u.active == (verdict.Taken? || old(u.active))
              && tree.aggs == Taken(old(tree.aggs), old(tree.scheds[si]), p.len, verdict.Taken?)
              && tree.scheds == old(tree.scheds)[si := old(tree.scheds[si]).(usage := u.usage, active := u.active)]
              && u.tins[t].arrived == old(u.tins[t].arrived) + (if verdict.Taken? then [p] else [])
    {
      hide UnitsOk, Scheduler.Sched.Valid, Hqos.Hqos.Valid, Hqos.Hqos.Core;
      var u := units[si];
      var admits := Hqos.ChainAdmits(tree.aggs, tree.scheds[si].attach, p.len);
      var over, full := u.usage + p.len > u.limit, Len(u.tins[t].flows[slot].q) >= RING_SIZE;
      verdict := PlaceAlone(si, t, slot, p, hash, junk, admits);
      Account(si, p.len, over, full);
    }

    /** All schedulers but one are in step with the tree. */
    ghost predicate LinkedBut(si: int)
      reads this, tree, units.Values
    {
      && si in units && units.Keys == tree.scheds.Keys
      && forall s :: s in units && s != si ==>
         units[s].usage == tree.scheds[s].usage && units[s].active == tree.scheds[s].active
    }

    /** The tree's part of an arrival, of which the scheduler's part is done. */
    method Account(si: int, len: nat, over: bool, full: bool)
      requires tree.Valid() && Apart() && UnitsOk() && LinkedBut(si)
      requires var taken := !over && Hqos.ChainAdmits(tree.aggs, tree.scheds[si].attach, len) && !full;
               && units[si].usage == tree.scheds[si].usage + (if taken then len else 0)
               && units[si].active == (taken || tree.scheds[si].active)
      modifies tree`aggs, tree`scheds, tree`ledger
      ensures Valid() && old(si in tree.scheds)
      ensures var me := old(tree.scheds[si]);
              var taken := !over && Hqos.ChainAdmits(old(tree.aggs), me.attach, len) && !full;
              && tree.aggs == Taken(old(tree.aggs), me, len, taken)
              && tree.scheds ==
                 old(tree.scheds)[si := me.(usage := units[si].usage, active := units[si].active)]
    {
      hide UnitsOk, Hqos.Hqos.Valid;
      if !over {
        var queued := tree.ChargePacket(si, len, full);
        if queued { tree.Activate(si); }
      }
    }

    /** A packet arrives at a scheduler. The flow in its way, if its set is crowded, goes first and is
        released; what the chain then answers decides the packet's fate, and a taken packet alone is charged. */
    method Enqueue(si: int, tinOf: nat, p: Packet, hash: nat, junk: seq<Packet>)
      returns (verdict: Scheduler.Verdict, slot: int)
      requires Valid() && si in units && 0 < p.tag < FlowQueue.U32 && p.len <= units[si].maxLen && |junk| == RING_SIZE
      requires 1 <= |units[si].tins|
      modifies tree`aggs, tree`scheds, tree`ledger, units[si], units[si].repr
      ensures Valid() && 0 <= slot < QUEUES && old(si in tree.scheds)
      ensures var tin := units[si].tins[units[si].TinOf(tinOf)]; tin.tags.Length == tin.flows.Length == QUEUES
      ensures var u, me := units[si], old(tree.scheds[si]);
              var tin := u.tins[u.TinOf(tinOf)];
              var crowded := Tins.Crowded(old(tin.tags[..]), p.tag);
              var freed := if crowded then old(tin.flows[slot].backlog) else 0;
              var aggs1 := Released(old(tree.aggs), me, freed, false);
              && verdict == Scheduler.Judged(old(u.usage) - freed + p.len > u.limit,
                                             Hqos.ChainAdmits(aggs1, me.attach, p.len),
                                             !crowded && old(Len(tin.flows[slot].q)) >= RING_SIZE)
              && (verdict.OverLimit? <==> old(u.usage) - freed + p.len > u.limit)
              && (verdict.NotAdmitted? <==>
                    old(u.usage) - freed + p.len <= u.limit &&
                    !Hqos.ChainAdmits(aggs1, me.attach, p.len))
              && (verdict.Taken? ==> crowded || old(Len(tin.flows[slot].q)) < 128)
              && u.usage == old(u.usage) - freed + (if verdict.Taken? then p.len else 0)
              && u.active == (verdict.Taken? || old(u.active))
              && tree.aggs == Taken(aggs1, me, p.len, verdict.Taken?)
              && tree.scheds == old(tree.scheds)[si := me.(usage := u.usage, active := u.active)]
              && tin.arrived == old(tin.arrived) + (if verdict.Taken? then [p] else [])
    {
      hide UnitsOk, Linked, Hqos.Hqos.Valid, Tins.Crowded, Released;
      var t := units[si].TinOf(tinOf);
      slot := RoomIn(si, t, p.tag);
      verdict := PlaceIn(si, t, slot, p, hash, junk);
    }

    lemma EndTells(fates: nat -> Tins.Fate, now: nat, budget: nat, sent: nat, gone: int, left: int, shaperTime: nat,
                   why: Scheduler.Stop)
      requires Scheduler.Ended(fates, now, budget, sent, gone, left, shaperTime, why)
      ensures gone >= 0
      ensures forall k: nat :: k < gone ==> fates(k).drrAdmits && (fates(k).aqmDrops || fates(k).gate.Open?)
      ensures sent == |set k: nat | k < gone && fates(k).drrAdmits && !fates(k).aqmDrops && fates(k).gate.Open? :: k|
      ensures why.Drained? ==> left == 0
      ensures why.Budget? ==> sent == budget
      ensures why.Shaped? ==> now < shaperTime
      ensures why.Refused? ==>
          && why.at == gone && left > 0 && shaperTime <= now
          && (!fates(gone).drrAdmits || (!fates(gone).aqmDrops && !fates(gone).gate.Open?))
    {
      Scheduler.AnswersTell(fates, gone, sent);
    }

    method WalkAlone(si: int, now: nat, budget: nat, fates: nat -> Tins.Fate)
      returns (out: seq<Packet>, why: Scheduler.Stop, ghost from: seq<int>)
      requires Apart() && UnitsOk() && si in units
      modifies units[si], units[si].repr
      ensures UnitsOk() && |out| <= budget && 0 <= units[si].usage <= old(units[si].usage)
      ensures if why.Drained? then !units[si].active else units[si].active == old(units[si].active)
      ensures var u := units[si];
              && u.dequeued == old(u.dequeued) + |out|
              && Scheduler.Ended(fates, now, budget, |out|, old(u.queuedBuffers) - u.queuedBuffers, u.queuedBuffers,
                                 u.shaperTime, why)
              && u.Open(old(u.shaperTime), now, out) && u.shaperTime == u.Clock(old(u.shaperTime), now, out)
      ensures var u := units[si]; Scheduler.AllDeparted(old(u.Lefts()), u.Lefts(), old(u.Drops()), u.Drops(), out, from)
    {
      hide Tins.Tin.ValidBut, Scheduler.Snapshot, Scheduler.Sched.BooksOk, Scheduler.AllDeparted, Scheduler.Ended;
      hide Scheduler.Sched.Open, Scheduler.Sched.Clock;
      var u := units[si];
      assert u.Valid();
      out, why, from := u.Walk(now, budget, fates);
      UsageIsCounted(u);
      hide Scheduler.Sched.Valid;
      forall s | s in units
        ensures units[s].Valid()
      {
        if s != si { assert old(units[s].Valid()); }
      }
    }

    /** One dispatch of a scheduler, which ends for the reasons its walk ends: what it sent and dropped is
        released from its chain, and a scheduler leaves its parent exactly when it is drained. */
    method Dispatch(si: int, now: nat, budget: nat, fates: nat -> Tins.Fate)
      returns (out: seq<Packet>, why: Scheduler.Stop, ghost from: seq<int>)
      requires Valid() && si in units
      modifies tree`aggs, tree`scheds, tree`ledger, units[si], units[si].repr
      ensures Valid() && |out| <= budget && old(si in tree.scheds)
      ensures if why.Drained? then !units[si].active else units[si].active == old(units[si].active)
      ensures var u := units[si];
              && u.dequeued == old(u.dequeued) + |out|
              && Scheduler.Ended(fates, now, budget, |out|, old(u.queuedBuffers) - u.queuedBuffers, u.queuedBuffers,
                                 u.shaperTime, why)
              && u.Open(old(u.shaperTime), now, out) && u.shaperTime == u.Clock(old(u.shaperTime), now, out)
      ensures var u := units[si]; Scheduler.AllDeparted(old(u.Lefts()), u.Lefts(), old(u.Drops()), u.Drops(), out, from)
      ensures var gone := old(units[si].queuedBuffers) - units[si].queuedBuffers;
              && gone >= 0
              && (forall k: nat :: k < gone ==> fates(k).drrAdmits && (fates(k).aqmDrops || fates(k).gate.Open?))
              && |out| ==
                 |set k: nat | k < gone && fates(k).drrAdmits && !fates(k).aqmDrops && fates(k).gate.Open? :: k|
              && (why.Refused? ==>
                    why.at == gone && (!fates(gone).drrAdmits || (!fates(gone).aqmDrops && !fates(gone).gate.Open?)))
      ensures why.Drained? ==> units[si].queuedBuffers == 0 && !units[si].active
      ensures why.Budget? ==> |out| == budget
      ensures why.Shaped? ==> now < units[si].shaperTime
      ensures why.Refused? ==> units[si].queuedBuffers > 0 && units[si].shaperTime <= now
      ensures var u, me := units[si], old(tree.scheds[si]);
              && tree.aggs == Released(old(tree.aggs), me, old(u.usage) - u.usage, why.Drained?)
              && tree.scheds == old(tree.scheds)[si := me.(usage := u.usage, active := u.active)]
    {
      hide UnitsOk, Scheduler.Sched.Valid, Hqos.Hqos.Valid, Hqos.Hqos.Core, Scheduler.AllDeparted;
      hide Scheduler.Ended, Scheduler.Sched.Open, Scheduler.Sched.Clock, Released;
      out, why, from := WalkAlone(si, now, budget, fates);
      EndTells(fates, now, budget, |out|, old(units[si].queuedBuffers) - units[si].queuedBuffers,
               units[si].queuedBuffers, units[si].shaperTime, why);
      Leave(si, why.Drained?);
    }

    /** The tree's part of a dispatch. */
    method Leave(si: int, drained: bool)
      requires tree.Valid() && Apart() && UnitsOk() && LinkedBut(si)
      requires 0 <= units[si].usage <= tree.scheds[si].usage && units[si].active == (tree.scheds[si].active && !drained)
      modifies tree`aggs, tree`scheds, tree`ledger
      ensures Valid() && old(si in tree.scheds)
      ensures var me := old(tree.scheds[si]);
              && tree.aggs == Released(old(tree.aggs), me, me.usage - units[si].usage, drained)
              && tree.scheds == old(tree.scheds)[si := me.(usage := units[si].usage, active := units[si].active)]
    {
      hide UnitsOk, Hqos.Hqos.Valid;
      Release(si);
      if drained { tree.Deactivate(si); }
    }

    /** A scheduler is enabled with empty queues of its own. */
    method Enable(ifValid: bool, swIf: int, rate: nat, weight: nat, slot: int, topo: Hqos.Topology,
            unit: Scheduler.Sched) returns (rv: Hqos.Rv)
      requires Valid() && slot !in units && unit.Valid() && unit.usage == 0 && !unit.active
      requires this !in unit.repr && tree !in unit.repr
      requires forall s :: s in units ==>
          units[s] != unit && units[s].repr !! unit.repr && units[s] !in unit.repr && unit !in units[s].repr
      modifies this`units, tree`scheds, tree`schedBySw, tree`ledger
      ensures Valid()
      ensures rv == if !ifValid then Hqos.InvalidSwIfIndex
                    else if Hqos.BadWeight(weight) then Hqos.InvalidValue
                    else if swIf in old(tree.schedBySw) then Hqos.AlreadyExists else Hqos.Done
      ensures units == if rv == Hqos.Done then old(units)[slot := unit] else old(units)
      ensures tree.schedBySw == if rv == Hqos.Done then old(tree.schedBySw)[swIf := slot] else old(tree.schedBySw)
      ensures tree.scheds == if rv != Hqos.Done then old(tree.scheds)
                             else old(tree.scheds)[slot := AggTree.Sched(swIf,
                                Hqos.Resolve(tree.aggs, tree.aggBySw, topo(swIf)),
                                Hqos.EffectiveWeight(rate, weight), false, 0)]
    {
      hide Scheduler.Sched.Valid, Hqos.Hqos.Valid, Hqos.Hqos.Core, Hqos.Resolve, Hqos.EffectiveWeight, Hqos.BadWeight;
      rv := tree.SchedEnable(ifValid, swIf, rate, weight, slot, topo);
      if rv == Hqos.Done { units := units[slot := unit]; }
    }

    method TearDownAlone(si: int)
      requires Apart() && UnitsOk() && si in units
      modifies units[si], units[si].repr
      ensures forall s :: s in units && s != si ==> units[s].Valid()
    {
      hide Tins.Tin.ValidBut, Scheduler.Snapshot, Scheduler.Sched.BooksOk;
      var u := units[si];
      assert u.Valid();
      u.TearDown();
      hide Scheduler.Sched.Valid;
      forall s | s in units && s != si
        ensures units[s].Valid()
      {
        assert old(units[s].Valid());
      }
    }

    lemma NamedIsLive(swIf: int)
      requires Valid() && swIf in tree.schedBySw
      ensures tree.schedBySw[swIf] in units
    {
    }

    /** A scheduler is disabled: its tins are drained, everything it held is released, and it goes. */
    method Disable(swIf: int) returns (rv: Hqos.Rv)
      requires Valid()
      modifies this`units, tree`aggs, tree`scheds, tree`schedBySw, tree`ledger
      modifies units.Values, set s, o | s in units && o in units[s].repr :: o
      ensures Valid() && rv == (if swIf in old(tree.schedBySw) then Hqos.Done else Hqos.NoSuchEntry)
      ensures units == old(units) - old(tree.SchedOn(swIf)) && tree.scheds == old(tree.scheds) - old(tree.SchedOn(swIf))
      ensures tree.schedBySw == old(tree.schedBySw) - {swIf} && Hqos.SameConf(old(tree.aggs), tree.aggs)
    {
      hide UnitsOk, Hqos.Hqos.Valid;
      if swIf !in tree.schedBySw { return Hqos.NoSuchEntry; }
      var si: int := tree.schedBySw[swIf];
      NamedIsLive(swIf);
      TearDownAlone(si);
      Drop(swIf, si);
      rv := Hqos.Done;
    }

    /** The tree releases what it still has charged for the drained scheduler, and forgets it. */
    method Drop(swIf: int, si: int)
      requires tree.Valid() && Apart() && units.Keys == tree.scheds.Keys && swIf in tree.schedBySw
          && tree.schedBySw[swIf] == si && si in units
      requires forall s :: s in units && s != si ==>
                 units[s].Valid() && units[s].usage == tree.scheds[s].usage && units[s].active == tree.scheds[s].active
      modifies this`units, tree`aggs, tree`scheds, tree`schedBySw, tree`ledger
      ensures Valid() && units == old(units) - {si} && tree.scheds == old(tree.scheds) - {si}
      ensures tree.schedBySw == old(tree.schedBySw) - {swIf} && Hqos.SameConf(old(tree.aggs), tree.aggs)
    {
      hide Scheduler.Sched.Valid, Hqos.Hqos.Valid;
      var rv := tree.SchedDisable(swIf, [tree.scheds[si].usage]);
      units := units - {si};
    }

    // ------------------------------------------------------------ configuration, under the barrier

    /** A change of configuration moves schedulers between tiers with what they hold. */
    method CreatePort(ifValid: bool, swIf: int, rate: nat, weight: nat, burst: nat, limit: nat, slot: int,
            topo: Hqos.Topology) returns (rv: Hqos.Rv)
      requires Valid() && slot !in tree.aggs
      modifies tree`aggs, tree`scheds, tree`aggBySw
      ensures Valid()
      ensures rv == if !ifValid then Hqos.InvalidSwIfIndex
                    else if Hqos.BadWeight(weight) || Hqos.BadBurst(burst) then Hqos.InvalidValue
                    else if swIf in old(tree.aggBySw) then Hqos.AlreadyExists else Hqos.Done
      ensures rv != Hqos.Done ==> unchanged(tree)
      ensures rv == Hqos.Done ==>
                && tree.aggBySw == old(tree.aggBySw)[swIf := slot]
                && Hqos.SameConf(old(tree.aggs)[slot := Hqos.NewAgg(swIf, Unset, 0, 0, rate, weight,
                                                                   Hqos.BurstOf(burst), limit)], tree.aggs)
                && tree.OnlyReattached(old(tree.scheds), topo)
    {
      hide UnitsOk, Hqos.Hqos.Valid, Hqos.SameConf;
      rv := tree.AggregateCreate(ifValid, swIf, rate, weight, burst, limit, slot, topo);
    }

    method DeletePort(swIf: int, topo: Hqos.Topology) returns (rv: Hqos.Rv)
      requires Valid()
      modifies tree`aggs, tree`scheds, tree`aggBySw
      ensures Valid()
      ensures rv == if swIf !in old(tree.aggBySw) then Hqos.NoSuchEntry
                    else if exists c :: c in old(tree.aggs) && old(tree.aggs)[c].parent == At(old(tree.aggBySw)[swIf])
                    then Hqos.InUse else Hqos.Done
      ensures rv != Hqos.Done ==> unchanged(tree)
      ensures rv == Hqos.Done ==>
                && tree.aggBySw == old(tree.aggBySw) - {swIf}
                && Hqos.SameConf(old(tree.aggs) - {old(tree.aggBySw)[swIf]}, tree.aggs)
                && tree.OnlyReattached(old(tree.scheds), topo)
    {
      hide UnitsOk, Hqos.Hqos.Valid, Hqos.SameConf;
      rv := tree.AggregateDelete(swIf, topo);
    }

    lemma PortIsLive(swIf: int)
      requires tree.Valid()
      ensures swIf in tree.aggBySw ==> tree.aggBySw[swIf] in tree.aggs
    {
    }

    method CreateTier(swIf: int, lo: nat, hi: nat, rate: nat, weight: nat, burst: nat, limit: nat, slot: int,
            topo: Hqos.Topology) returns (rv: Hqos.Rv)
      requires Valid() && slot !in tree.aggs
      modifies tree`aggs, tree`scheds
      ensures Valid() && (swIf in tree.aggBySw ==> tree.aggBySw[swIf] in old(tree.aggs))
      ensures rv == if hi < lo || hi >= SVLAN_MAX || Hqos.BadWeight(weight) || Hqos.BadBurst(burst)
                    then Hqos.InvalidValue
                    else if swIf !in tree.aggBySw then Hqos.NoSuchEntry
                    else
                      var port := old(tree.aggs)[tree.aggBySw[swIf]];
                      if rate > port.conf.rate then Hqos.InvalidValue
                      else if exists t :: lo <= t <= hi && t in port.svlanMap then Hqos.AlreadyExists
                      else Hqos.Done
      ensures rv != Hqos.Done ==> unchanged(tree)
      ensures rv == Hqos.Done ==>
                var p := tree.aggBySw[swIf];
                var g := Hqos.NewAgg(swIf, At(p), lo, hi, rate, weight, Hqos.BurstOf(burst), limit);
                && Hqos.SameConf(Hqos.GiveTags(old(tree.aggs)[slot := g], p, lo, hi, slot), tree.aggs)
                && tree.OnlyReattached(old(tree.scheds), topo)
      ensures rv == Hqos.Done ==>
                forall s, k, j :: s in tree.scheds && Hqos.Leads(tree.aggBySw, topo(tree.scheds[s].swIf), k, j) ==>
                  var path := topo(tree.scheds[s].swIf);
                  (tree.scheds[s].attach == At(slot) <==>
                     path[k].swIf == swIf && j >= 0 && lo <= path[j].tag.i <= hi)
    {
      hide UnitsOk, Hqos.Hqos.Valid, Hqos.SameConf;
      PortIsLive(swIf);
      rv := tree.SvlanCreate(swIf, lo, hi, rate, weight, burst, limit, slot, topo);
    }

    method DeleteTier(swIf: int, tag: nat, topo: Hqos.Topology) returns (rv: Hqos.Rv)
      requires Valid()
      modifies tree`aggs, tree`scheds
      ensures Valid() && (swIf in tree.aggBySw ==> tree.aggBySw[swIf] in old(tree.aggs))
      ensures rv == if tag >= SVLAN_MAX then Hqos.InvalidValue
                    else if swIf !in tree.aggBySw then Hqos.NoSuchEntry
                    else if tag !in old(tree.aggs)[tree.aggBySw[swIf]].svlanMap then Hqos.NoSuchEntry else Hqos.Done
      ensures rv != Hqos.Done ==> unchanged(tree)
      ensures rv == Hqos.Done ==>
                var p := tree.aggBySw[swIf];
                var a := old(tree.aggs)[p].svlanMap[tag];
                && a in old(tree.aggs)
                && Hqos.SameConf(Hqos.TakeTags(old(tree.aggs), p, old(tree.aggs)[a].conf.svlanId,
                                               old(tree.aggs)[a].conf.svlanIdEnd, a) - {a}, tree.aggs)
                && tree.OnlyReattached(old(tree.scheds), topo)
    {
      hide UnitsOk, Hqos.Hqos.Valid, Hqos.SameConf;
      PortIsLive(swIf);
      rv := tree.SvlanDelete(swIf, tag, topo);
    }

    method UpdateTier(swIf: int, tag: Ref, rate: nat, weight: nat, burst: nat, limit: nat) returns (rv: Hqos.Rv)
      requires Valid()
      modifies tree`aggs
      ensures Valid()
      ensures old(tree.Target(swIf, tag)).At? ==> old(tree.Target(swIf, tag)).i in old(tree.aggs)
      ensures rv == if Hqos.BadWeight(weight) || Hqos.BadBurst(burst) || (tag.At? && tag.i >= SVLAN_MAX)
                    then Hqos.InvalidValue
                    else if old(tree.Target(swIf, tag)).Unset? then Hqos.NoSuchEntry
                    else if rate > 0 && old(tree.RateClashes(tree.Target(swIf, tag).i, rate)) then Hqos.InvalidValue
                    else Hqos.Done
      ensures rv != Hqos.Done ==> unchanged(tree)
      ensures rv == Hqos.Done ==>
                var a := old(tree.Target(swIf, tag)).i;
                var conf := tree.UpdatedConf(old(tree.aggs)[a].conf, rate, weight, burst, limit);
                tree.aggs == Hqos.Reconfigured(old(tree.aggs), a, conf, Hqos.EffectiveWeight(conf.rate, conf.weight))
    {
      hide UnitsOk, Hqos.Hqos.Valid;
      rv := tree.AggregateUpdate(swIf, tag, rate, weight, burst, limit);
    }

    /** An interface goes: its scheduler, its S-VLANs and its port, and nothing else. The other schedulers
        keep all but a new resolution, the other tiers stand as configured. */
    method InterfaceDeleted(swIf: int, topo: Hqos.Topology)
      requires Valid()
      modifies this`units, tree, units.Values, set s, o | s in units && o in units[s].repr :: o
      ensures Valid() && units == old(units) - old(tree.SchedOn(swIf))
      ensures tree.schedBySw == old(tree.schedBySw) - {swIf} && tree.aggBySw == old(tree.aggBySw) - {swIf}
      ensures Hqos.SameConf(old(tree.aggs) - old(tree.TreeOn(swIf)), tree.aggs)
      ensures if swIf in old(tree.aggBySw)
              then tree.OnlyReattached(old(tree.scheds) - old(tree.SchedOn(swIf)), topo)
              else tree.scheds == old(tree.scheds) - old(tree.SchedOn(swIf))
    {
      hide UnitsOk, Linked, Hqos.Hqos.Valid;
      var rv := Disable(swIf);
      Hqos.ChildrenFramed(old(tree.aggs), tree.aggs);
      DeleteTree(swIf, topo);
    }

    method DeleteTree(swIf: int, topo: Hqos.Topology)
      requires Valid()
      modifies tree`aggs, tree`scheds, tree`aggBySw
      ensures Valid() && tree.aggBySw == old(tree.aggBySw) - {swIf}
      ensures Hqos.SameConf(old(tree.aggs) - old(tree.TreeOn(swIf)), tree.aggs)
      ensures if swIf in old(tree.aggBySw) then tree.OnlyReattached(old(tree.scheds), topo)
              else tree.scheds == old(tree.scheds)
    {
      hide UnitsOk, Hqos.Hqos.Valid;
      if swIf in tree.aggBySw { tree.DeleteTree(swIf, topo); }
    }
  }
}
