/** One tin of a scheduler: 1024 flows in 128 sets of 8 ways, the three flow lists, the host table, and
    the steps the enqueue and dequeue paths take on them. */
module Tins {
  import opened Sums
  import opened FlowQueue
  import opened FlowLists
  import opened TinState

  // ---------------------------------------------------------------- pure helpers

  /** cake_quantum_div: entry 0 is all ones. */
  function QuantumDiv(load: nat): nat { if load == 0 then 0xFFFF else 65535 / load }

  /** cake_quantum_for_flow, given the bulk counter of the flow's destination host. */
  function QuantumFor(quantum: nat, bulk: int): (r: nat)
    ensures r >= 1
  {
    var load := if bulk > QUEUES then QUEUES else if bulk > 1 then bulk else 1;
    var q := (quantum * QuantumDiv(load)) % U32 / 0x1_0000;
    if q == 0 then 1 else q
  }

  /** The bulk flows of one host together get no more than the tin's quantum, unless that is fewer
      bytes than they are flows, and all of it but two bytes for each; a flow with no bulk flow of its
      host counts as one. */
  lemma HostShare(quantum: nat, bulk: nat)
    requires 1 <= bulk <= QUEUES && quantum <= 0xFFFF
    ensures bulk * QuantumFor(quantum, bulk) <= quantum || QuantumFor(quantum, bulk) == 1
    ensures quantum <= bulk * QuantumFor(quantum, bulk) + 2 * bulk
    ensures QuantumFor(quantum, 0) == QuantumFor(quantum, 1)
  {
    var d := QuantumDiv(bulk);
    assert bulk * d <= 65535 < bulk * d + bulk;
    ScaleBoth(quantum, bulk, d);
    ScaleBelow(quantum, bulk, d);
  }

  lemma ScaleBelow(quantum: nat, bulk: nat, d: nat)
    requires 65535 < bulk * d + bulk && quantum <= 0xFFFF
    ensures quantum <= bulk * (quantum * d / 0x1_0000) + 2 * bulk
  {
    var n := quantum * d;
    var k := n / 0x1_0000;
    assert n < k * 0x1_0000 + 0x1_0000;
    Products(n, bulk, k * 0x1_0000 + 0x1_0000, bulk);
    assert n * bulk == quantum * (bulk * d);
    Products(quantum, 0x1_0000, quantum, bulk * d + bulk);
    assert quantum * (bulk * d + bulk) == quantum * (bulk * d) + quantum * bulk;
    Products(quantum, bulk, 0x1_0000, bulk);
    assert (k * 0x1_0000 + 0x1_0000) * bulk == 0x1_0000 * (bulk * k + bulk);
  }

  lemma ScaleBoth(quantum: nat, bulk: nat, d: nat)
    requires bulk * d <= 65535 && d <= 65535 && quantum <= 0xFFFF
    ensures 0 <= quantum * d < U32
    ensures bulk * (quantum * d / 0x1_0000) <= quantum
  {
    var n := quantum * d;
    Products(quantum, d, 0xFFFF, 65535);
    var k := n / 0x1_0000;
    assert k * 0x1_0000 <= n;
    Products(k * 0x1_0000, bulk, n, bulk);
    assert bulk * k * 0x1_0000 == k * 0x1_0000 * bulk;
    assert n * bulk == quantum * (bulk * d);
    Products(quantum, bulk * d, quantum, 65535);
  }

  lemma Products(a: nat, b: nat, c: nat, d: nat)
    requires a <= c && b <= d
    ensures 0 <= a * b <= c * d
  {
  }

  /** The link-layer adjustments a scheduler is configured with. */
  datatype Framing = Framing(overhead: int, mpu: nat, atm: bool)

  /** cake_overhead_adjust. */
  function Adjust(f: Framing, len: nat): (r: nat)
    ensures r >= f.mpu && r >= len + f.overhead
    ensures !f.atm ==> r == len + f.overhead || r == f.mpu
    ensures f.atm ==> r % 53 == 0 && r / 53 * 48 >= len + f.overhead
    ensures f.atm ==> r / 53 * 48 < len + f.overhead + 48 || r / 53 * 48 < f.mpu + 48
  {
    var a := if len + f.overhead < f.mpu then f.mpu else len + f.overhead;
    if f.atm then (a + 47) / 48 * 53 else a
  }

  /** The bulk counter of a flow's destination host. */
  function HostLoad(hosts: seq<Host>, host: nat): int { if host < |hosts| then hosts[host].bulk else 1 }

  /** What everything outside the queue decides about a head packet: the local DRR test, the AQM, and
      the parent's gate. Any answer may come at any visit. */
  datatype Gate = Open | Closed | ShareSpent

  datatype Fate = Fate(drrAdmits: bool, aqmDrops: bool, gate: Gate)

  /** The order in which a visit's checks are made. */
  function Visit(len: int, fate: Fate): Outcome {
    if len == 0 then Empty
    else if !fate.drrAdmits then Blocked
    else if fate.aqmDrops then Dropped
    else match fate.gate case Open => Sent case Closed => Shut case ShareSpent => Blocked
  }

  datatype Outcome = Empty | Blocked | Shut | Dropped | Sent

  // ---------------------------------------------------------------- probing

  function Probe(hash: nat, j: nat): nat { (hash + j) % HOSTS }

  /** The first k probes met other hosts' slots. */
  ghost predicate Passed(hosts: seq<Host>, hash: nat, k: nat)
    requires |hosts| == HOSTS
  {
    forall j: nat :: j < k ==> hosts[Probe(hash, j)].hash != hash && hosts[Probe(hash, j)].hash != 0
  }

  /** cake_host_lookup: the first of four probes that is this host's or unused, or else the first
      probe, taken over with its counter reset. No counter is ever raised. */
  method HostLookup(hosts: array<Host>, hash: nat) returns (slot: nat, ghost probes: nat)
    requires hosts.Length == HOSTS
    modifies hosts
    ensures slot < HOSTS && hosts[..] == old(hosts[..])[slot := hosts[slot]] && hosts[slot].hash == hash
    ensures probes <= 4 && Passed(old(hosts[..]), hash, probes)
    ensures probes < 4 ==>
        slot == Probe(hash, probes) && old(hosts[slot]).hash in {hash, 0} && hosts[slot].bulk == old(hosts[slot]).bulk
    ensures probes == 4 ==> slot == Probe(hash, 0) && hosts[slot].bulk == 0
    ensures slot == (if probes == 4 then hash else hash + probes) % HOSTS
  {
    for i := 0 to 4
      invariant hosts[..] == old(hosts[..])
      invariant Passed(old(hosts[..]), hash, i)
    {
      slot := Probe(hash, i);
      probes := i;
      if hosts[slot].hash == hash { return; }
      if hosts[slot].hash == 0 {
        hosts[slot] := hosts[slot].(hash := hash);
        return;
      }
    }
    probes := 4;
    slot := Probe(hash, 0);
    hosts[slot] := Host(hash, 0);
  }

  /** Every way of the tag's set is taken by another tag. */
  predicate Crowded(tags: seq<int>, tag: int)
    requires |tags| == QUEUES
  {
    forall k :: 0 <= k < QUEUES && k / WAYS == tag % SETS ==> tags[k] != 0 && tags[k] != tag
  }

  /** cake_flow_lookup. Either the tag's own slot, or the first empty way, which takes the tag, or no
      slot and the way with the least backlog as the one to evict. */
  method FlowLookup(tags: array<int>, flows: array<Flow>, tag: int, base: nat) returns (slot: int, victim: int)
    requires tags.Length == flows.Length == QUEUES && base + WAYS <= QUEUES && 0 < tag < U32
    requires forall k :: base <= k < base + WAYS ==> 0 <= flows[k].backlog < NIL
    modifies tags
    ensures slot == NIL || base <= slot < base + WAYS
    ensures slot != NIL ==> tags[..] == old(tags[..])[slot := tag]
    ensures slot != NIL && old(tags[slot]) != tag ==>
              && (forall k :: base <= k < base + WAYS ==> old(tags[k]) != tag)
              && old(tags[slot]) == 0 && forall k :: base <= k < slot ==> old(tags[k]) != 0
    ensures slot == NIL ==>
              && tags[..] == old(tags[..]) && base <= victim < base + WAYS
              && (forall k :: base <= k < base + WAYS ==> tags[k] != 0 && tags[k] != tag)
              && (forall k :: base <= k < base + WAYS ==> flows[victim].backlog <= flows[k].backlog)
              && (forall k :: base <= k < victim ==> flows[victim].backlog < flows[k].backlog)
  {
    var empty := NIL;
    victim := NIL;
    var least := NIL;
    for i := 0 to WAYS
      invariant tags[..] == old(tags[..])
      invariant forall k :: base <= k < base + i ==> tags[k] != tag
      invariant empty == NIL ==> forall k :: base <= k < base + i ==> tags[k] != 0
      invariant empty == NIL || (base <= empty < base + i && tags[empty] == 0 && forall k :: base <= k < empty ==>
          tags[k] != 0)
      invariant empty == NIL && i > 0 ==>
                  && base <= victim < base + i && least == flows[victim].backlog
                  && (forall k :: base <= k < base + i ==> least <= flows[k].backlog)
                  && (forall k :: base <= k < victim ==> least < flows[k].backlog)
      invariant i == 0 ==> least == NIL
    {
      var at := base + i;
      slot := at;
      if tags[at] == tag {
        assert tags[..] == old(tags[..])[slot := tag];
        return;
      }
      if tags[at] == 0 && empty == NIL { empty := at; }
      if tags[at] != 0 && empty == NIL && flows[at].backlog < least {
        least := flows[at].backlog;
        victim := at;
      }
    }
    if empty != NIL {
      victim := NIL;
      tags[empty] := tag;
      slot := empty;
    } else {
      slot := NIL;
    }
  }

  // ---------------------------------------------------------------- the tin

  class Tin {
    const flows: array<Flow>
    const links: array<Link>
    const tags: array<int>
    const hosts: array<Host>
    const quantum: nat

    var newList: Ends
    var oldList: Ends
    var decayingList: Ends
    var flowCount: int
    var sparseCount: int
    var bulkCount: int
    var packets: nat
    var bytes: nat
    var drops: nat

    /** The lists as sequences, and every packet that joined or left a queue, in order. */
    ghost var order: Order
    ghost var arrived: seq<Packet>
    ghost var left: seq<Packet>

    /** Three well-formed lists and counters that are their sizes. */
    ghost predicate Threaded()
      reads `newList, `oldList, `decayingList, `order, `sparseCount, `bulkCount, links
    {
      && links.Length == QUEUES
      && Three(links[..], newList, order.sparse, oldList, order.bulk, decayingList, order.decaying)
      && sparseCount == |order.sparse| && bulkCount == |order.bulk|
    }

    /** The invariant; a flow being worked on may be away from the queue length its state promises. */
    ghost predicate ValidBut(hole: int)
      reads this, flows, links, tags, hosts
    {
      && flows.Length == QUEUES && tags.Length == QUEUES && hosts.Length == HOSTS
      && Threaded() && flowCount == Listed(order)
      && Sound(flows[..], tags[..], hosts[..], order, arrived, left, hole)
    }

    ghost predicate Valid()
      reads this, flows, links, tags, hosts
    {
      ValidBut(-1)
    }

    /** Sparse flows hold one packet, decaying and unused ones none; a bulk flow being worked on is settled. */
    lemma Settled(i: int)
      requires Valid() && 0 <= i < QUEUES
      ensures flows.Length == QUEUES && QueueOk(flows[i].q)
      ensures flows[i].state.Sparse? ==> Len(flows[i].q) == 1
      ensures flows[i].state.Decaying? || flows[i].state.None? ==> Len(flows[i].q) == 0
    {
    }

    lemma BulkIsSettled(i: int)
      requires 0 <= i < QUEUES && ValidBut(i) && flows[i].state.Bulk?
      ensures Valid()
    {
    }

    lemma Bounds()
      requires Valid()
      ensures Queued(flows[..]) >= 0 && Backlog(flows[..]) >= 0 && Owed(flows[..]) >= 0 && flowCount >= 0
          && bulkCount >= 0
      ensures forall i :: 0 <= i < QUEUES ==> 0 <= flows[i].backlog <= Backlog(flows[..])
      ensures order == Order([], [], []) ==> Queued(flows[..]) == 0
    {
      TotalsBounds(flows[..], tags[..], -1);
      if order == Order([], [], []) { IdleIsEmpty(flows[..], tags[..], order); }
    }

    /** What the lists, the states, the queue lengths and the counters say about one another. */
    lemma ListsAreExact(i: int)
      requires Valid() && 0 <= i < QUEUES
      ensures i in order.sparse <==> flows[i].state.Sparse?
      ensures i in order.bulk <==> flows[i].state.Bulk?
      ensures i in order.decaying <==> flows[i].state.Decaying?
      ensures flows[i].state.Sparse? ==> Len(flows[i].q) == 1
      ensures flows[i].state.Decaying? || flows[i].state.None? ==> Len(flows[i].q) == 0
      ensures sparseCount == |order.sparse| && bulkCount == |order.bulk| && flowCount == Listed(order)
      ensures Disjoint(order.sparse, order.bulk) && Disjoint(order.sparse, order.decaying)
          && Disjoint(order.bulk, order.decaying)
      ensures flows[i].dstHost < HOSTS ==> hosts[flows[i].dstHost].bulk <= BulkOf(flows[..], flows[i].dstHost)
    {
      Settled(i);
      assert flows[..][i] == flows[i];
    }

    /** Flow by flow, what has left is the oldest part of what arrived, in order; the rest is queued. */
    lemma DeliveredInOrder(g: int)
      requires Valid()
      ensures Of(left, g) <= Of(arrived, g)
      ensures forall i :: 0 <= i < QUEUES && tags[i] == g != 0 ==>
          QueueOk(flows[i].q) && Of(arrived, g) == Of(left, g) + Contents(flows[i].q)
      ensures g !in tags[..] ==> Of(arrived, g) == Of(left, g)
    {
      if g != 0 && g in tags[..] {
        var i :| 0 <= i < QUEUES && tags[i] == g;
        assert tags[..][i] == g && flows[..][i] == flows[i];
      }
      forall i | 0 <= i < QUEUES && tags[i] == g != 0
        ensures QueueOk(flows[i].q) && Of(arrived, g) == Of(left, g) + Contents(flows[i].q)
      {
        Settled(i);
        assert tags[..][i] == g && flows[..][i] == flows[i];
      }
    }

    /** What a stretch of service sent of a flow comes from the packets that arrived for it next, in the
        order of their arrival; what is missing of them was dropped. */
    lemma SentInOrder(before: seq<Packet>, dropsBefore: int, sent: seq<Packet>, g: int) returns (at: seq<nat>)
      requires Valid() && Departed(before, left, dropsBefore, drops, sent)
      ensures |Of(before, g)| <= |Of(left, g)| <= |Of(arrived, g)|
      ensures |at| == |Of(sent, g)|
      ensures forall k :: 0 <= k < |at| ==>
                |Of(before, g)| <= at[k] < |Of(left, g)| && Of(arrived, g)[at[k]] == Of(sent, g)[k]
      ensures forall j, k :: 0 <= j < k < |at| ==> at[j] < at[k]
    {
      DeliveredInOrder(g);
      hide ValidBut, Departed;
      DepartedOf(before, left, dropsBefore, drops, sent, g);
      assert Of(arrived, g)[|Of(before, g)|..|Of(left, g)|] == Of(left, g)[|Of(before, g)|..];
      var places := SubPlaces(Of(sent, g), Of(left, g)[|Of(before, g)|..]);
      at := seq(|places|, k requires 0 <= k < |places| => places[k] + |Of(before, g)|);
      assert Of(left, g) == Of(arrived, g)[..|Of(left, g)|];
    }

    /** cake_tin_init. */
    constructor (quantum: nat)
      ensures Valid() && this.quantum == quantum
      ensures order == Order([], [], []) && drops == 0 && arrived == left == []
      ensures Queued(flows[..]) == Backlog(flows[..]) == Owed(flows[..]) == flowCount == bulkCount == 0
      ensures forall i :: 0 <= i < QUEUES ==> flows[i] == FREE && tags[i] == 0
      ensures fresh(flows) && fresh(links) && fresh(tags) && fresh(hosts)
    {
      flows := new Flow[QUEUES](_ => FREE);
      links := new Link[QUEUES](_ => LOOSE);
      tags := new int[QUEUES](_ => 0);
      hosts := new Host[HOSTS](_ => Host(0, 0));
      this.quantum := quantum;
      newList, oldList, decayingList := Ends(NIL, NIL), Ends(NIL, NIL), Ends(NIL, NIL);
      flowCount, sparseCount, bulkCount := 0, 0, 0;
      packets, bytes, drops := 0, 0, 0;
      order, arrived, left := Order([], [], []), [], [];
      new;
      BlankIsSound(flows[..], tags[..], hosts[..]);
      hide Sound, Queued, Backlog, Owed;
    }

    /** Whether the tin has any flow to serve, as the dispatch walk tests it. */
    predicate Busy()
      reads this
    {
      sparseCount + bulkCount > 0 || decayingList.head != NIL
    }

    lemma BusyIsListed()
      requires Valid()
      ensures Busy() <==> order != Order([], [], [])
    {
    }

    /** cake_select_flow: new flows first, then bulk ones, then decaying ones. */
    method SelectFlow() returns (i: int)
      requires Valid()
      ensures order == Order([], [], []) <==> i == NIL
      ensures i != NIL ==> 0 <= i < QUEUES && !flows[i].state.None?
      ensures i != NIL && flows[i].state.Bulk? ==> order.sparse == [] && order.bulk != [] && i == order.bulk[0]
      ensures order.sparse != [] ==> i == order.sparse[0]
      ensures order.sparse == [] && order.bulk != [] ==> i == order.bulk[0]
      ensures order.sparse == [] && order.bulk == [] && order.decaying != [] ==> i == order.decaying[0]
    {
      if newList.head != NIL {
        i := newList.head;
        assert order.sparse[0] in order.sparse && flows[..][i] == flows[i];
      } else if oldList.head != NIL {
        i := oldList.head;
        assert order.bulk[0] in order.bulk && flows[..][i] == flows[i];
      } else {
        i := decayingList.head;
        assert order.decaying != [] ==> order.decaying[0] in order.decaying && flows[..][i] == flows[i];
      }
    }

    /** The list half of a flow's transitions: into the new list, to the back of another, and out. */
    method EnterNew(i: int)
      requires Threaded() && 0 <= i < QUEUES && InOnly(order, i, None)
      modifies this`newList, this`sparseCount, this`order, links
      ensures Threaded() && order == old(order).(sparse := [i] + old(order.sparse))
    {
      assert i !in ListOf(order, Sparse) && i !in ListOf(order, Bulk) && i !in ListOf(order, Decaying);
      newList := PutFirst(links, newList, i, order.sparse, oldList, order.bulk, decayingList, order.decaying);
      sparseCount := sparseCount + 1;
      order := order.(sparse := [i] + order.sparse);
    }

    method JoinOld(i: int)
      requires Threaded() && 0 <= i < QUEUES && InOnly(order, i, None)
      modifies this`oldList, this`bulkCount, this`order, links
      ensures Threaded() && order == old(order).(bulk := old(order.bulk) + [i])
    {
      assert i !in ListOf(order, Sparse) && i !in ListOf(order, Bulk) && i !in ListOf(order, Decaying);
      oldList := PutLast(links, oldList, i, order.bulk, newList, order.sparse, decayingList, order.decaying);
      bulkCount := bulkCount + 1;
      order := order.(bulk := order.bulk + [i]);
    }

    method JoinDecaying(i: int)
      requires Threaded() && 0 <= i < QUEUES && InOnly(order, i, None)
      modifies this`decayingList, this`order, links
      ensures Threaded() && order == old(order).(decaying := old(order.decaying) + [i])
    {
      assert i !in ListOf(order, Sparse) && i !in ListOf(order, Bulk) && i !in ListOf(order, Decaying);
      decayingList := PutLast(links, decayingList, i, order.decaying, newList, order.sparse, oldList, order.bulk);
      order := order.(decaying := order.decaying + [i]);
    }

    method LeaveNew(i: int)
      requires Threaded() && i in order.sparse
      modifies this`newList, this`sparseCount, this`order, links
      ensures Threaded() && order == Leaving(old(order), i, Sparse)
    {
      newList := TakeOut(links, newList, i, order.sparse, oldList, order.bulk, decayingList, order.decaying);
      sparseCount := sparseCount - 1;
      order := Leaving(order, i, Sparse);
    }

    method LeaveOld(i: int)
      requires Threaded() && i in order.bulk
      modifies this`oldList, this`bulkCount, this`order, links
      ensures Threaded() && order == Leaving(old(order), i, Bulk)
    {
      oldList := TakeOut(links, oldList, i, order.bulk, newList, order.sparse, decayingList, order.decaying);
      bulkCount := bulkCount - 1;
      order := Leaving(order, i, Bulk);
    }

    method LeaveDecaying(i: int)
      requires Threaded() && i in order.decaying
      modifies this`decayingList, this`order, links
      ensures Threaded() && order == Leaving(old(order), i, Decaying)
    {
      decayingList := TakeOut(links, decayingList, i, order.decaying, newList, order.sparse, oldList, order.bulk);
      order := Leaving(order, i, Decaying);
    }

    method Leave(i: int, s: FlowState)
      requires Threaded() && InOnly(order, i, s)
      modifies this`newList, this`oldList, this`decayingList, this`sparseCount, this`bulkCount, this`order, links
      ensures Threaded() && (!s.None? ==> i in ListOf(old(order), s)) && order == Leaving(old(order), i, s)
      ensures Refiled(old(order), order, i, None) && InOnly(order, i, None)
    {
      LeavingRefiles(order, i, s, QUEUES);
      hide Threaded, Refiled;
      match s
      case None =>
      case Sparse => LeaveNew(i);
      case Bulk => LeaveOld(i);
      case Decaying => LeaveDecaying(i);
    }

    /** A fresh flow takes a ring and joins the head of the new list, with one quantum of credit. */
    method Open(i: int, hash: nat, junk: seq<Packet>)
      requires Valid() && 0 <= i < QUEUES && flows[i].state.None? && tags[i] != 0 && |junk| == RING_SIZE
      modifies this`newList, this`flowCount, this`sparseCount, this`order, flows, links, hosts
      ensures ValidBut(i)
      ensures exists host: nat :: flows[..] == old(flows[..])[i := Opened(old(flows[i]), junk, host,
          QuantumFor(quantum, HostLoad(hosts[..], host)))]
      ensures flows[i].state.Sparse? && Len(flows[i].q) == 0 && QueueOk(flows[i].q)
          && flows[i].backlog == old(flows[i]).backlog && flows[..] == old(flows[..])[i := flows[i]]
      ensures hosts.Length == HOSTS && flows[i].dstHost < HOSTS && hosts[flows[i].dstHost].hash == hash
      ensures flows[i].deficit == QuantumFor(quantum, hosts[flows[i].dstHost].bulk)
      ensures order == old(order).(sparse := [i] + old(order.sparse))
      ensures old(Len(flows[i].q)) == 0 && old(flows[i].backlog) == 0
    {
      ghost var fs := flows[..];
      var host: nat, _ := HostLookup(hosts, hash);
      var deficit := QuantumFor(quantum, HostLoad(hosts[..], host));
      OpenKeeps(fs, tags[..], old(hosts[..]), hosts[..], order, arrived, left, i, junk, host, deficit);
      EnterNew(i);
      flows[i] := Opened(flows[i], junk, host, deficit);
      flowCount := flowCount + 1;
      assert flows[..] == fs[i := Opened(fs[i], junk, host, deficit)];
    }

    /** A packet joins a flow's ring. */
    method Push(i: int, p: Packet)
      requires 0 <= i < QUEUES && ValidBut(i) && !flows[i].state.None? && Len(flows[i].q) < RING_SIZE
          && p.tag == tags[i]
      modifies this`packets, this`bytes, this`arrived, flows
      ensures ValidBut(i)
      ensures old(QueueOk(flows[i].q) && |flows[i].q.ring| != 0)
          && flows[..] == old(flows[..])[i := Pushed(old(flows[i]), p)]
      ensures Len(flows[i].q) == old(Len(flows[i].q)) + 1
      ensures arrived == old(arrived) + [p] && packets == old(packets) + 1 && bytes == old(bytes) + p.len
    {
      ghost var fs := flows[..];
      PushKeeps(fs, tags[..], hosts[..], order, arrived, left, i, p);
      flows[i] := Pushed(flows[i], p);
      packets := packets + 1;
      bytes := bytes + p.len;
      arrived := arrived + [p];
      assert flows[..] == fs[i := Pushed(fs[i], p)];
    }

    method CountBulk(host: nat)
      requires hosts.Length == HOSTS
      modifies hosts
      ensures hosts[..] == Counted(old(hosts[..]), host)
    {
      if host < HOSTS { hosts[host] := hosts[host].(bulk := hosts[host].bulk + 1); }
    }

    method UncountBulk(host: nat)
      requires hosts.Length == HOSTS
      modifies hosts
      ensures hosts[..] == Uncounted(old(hosts[..]), host)
    {
      if host < HOSTS && hosts[host].bulk > 0 { hosts[host] := hosts[host].(bulk := hosts[host].bulk - 1); }
    }

    method UncountIfBulk(f: Flow)
      requires hosts.Length == HOSTS
      modifies hosts
      ensures hosts[..] == if f.state.Bulk? then Uncounted(old(hosts[..]), f.dstHost) else old(hosts[..])
    {
      if f.state.Bulk? { UncountBulk(f.dstHost); }
    }

    method MoveToOld(i: int, s: FlowState)
      requires Threaded() && 0 <= i < QUEUES && InOnly(order, i, s) && !s.None?
      modifies this`newList, this`oldList, this`decayingList, this`sparseCount, this`bulkCount, this`order, links
      ensures i in ListOf(old(order), s) && Threaded() && Listed(order) == old(Listed(order))
      ensures var gone := Leaving(old(order), i, s);
              order == gone.(bulk := gone.bulk + [i]) && Refiled(old(order), gone, i, None)
    {
      LeavingRefiles(order, i, s, QUEUES);
      Leave(i, s);
      JoinOld(i);
    }

    method MoveToDecaying(i: int, s: FlowState)
      requires Threaded() && 0 <= i < QUEUES && InOnly(order, i, s) && !s.None?
      modifies this`newList, this`oldList, this`decayingList, this`sparseCount, this`bulkCount, this`order, links
      ensures i in ListOf(old(order), s) && Threaded() && Listed(order) == old(Listed(order))
      ensures var gone := Leaving(old(order), i, s);
              order == gone.(decaying := gone.decaying + [i]) && Refiled(old(order), gone, i, None)
    {
      LeavingRefiles(order, i, s, QUEUES);
      Leave(i, s);
      JoinDecaying(i);
    }

    /** A sparse or decaying flow becomes bulk and joins the back of the old list. */
    method TurnBulk(i: int)
      requires 0 <= i < QUEUES && ValidBut(i) && (flows[i].state.Sparse? || flows[i].state.Decaying?)
      modifies this`newList, this`oldList, this`decayingList, this`sparseCount, this`bulkCount, this`order, flows,
          links, hosts
      ensures Valid()
      ensures flows[..] == old(flows[..])[i := old(flows[i]).(state := Bulk)]
      ensures i in ListOf(old(order), old(flows[i]).state)
      ensures order == Leaving(old(order), i, old(flows[i]).state).(bulk := old(order.bulk) + [i])
      // The flow's host, and no other, has one bulk flow more.
      ensures hosts.Length == HOSTS && forall h :: 0 <= h < HOSTS ==>
          hosts[h] == old(hosts[..])[h].(bulk := old(hosts[..])[h].bulk + if h == flows[i].dstHost then 1 else 0)
    {
      ghost var fs, o := flows[..], order;
      FiledAt(fs, o, i);
      MoveToOld(i, flows[i].state);
      TurnBulkKeeps(fs, tags[..], hosts[..], o, Leaving(o, i, fs[i].state), arrived, left, i);
      CountBulk(flows[i].dstHost);
      flows[i] := flows[i].(state := Bulk);
      assert flows[..] == fs[i := fs[i].(state := Bulk)];
    }

    /** After a push: a second packet turns a sparse flow bulk, any packet turns a decaying one bulk. */
    method Promote(i: int)
      requires 0 <= i < QUEUES && ValidBut(i) && !flows[i].state.None? && Len(flows[i].q) >= 1
      modifies this`newList, this`oldList, this`decayingList, this`sparseCount, this`bulkCount, this`order, flows,
          links, hosts
      ensures Valid()
      ensures flows[..] == old(flows[..])[i := old(flows[i]).(state := if old(flows[i]).state.Sparse?
          && old(Len(flows[i].q)) == 1 then Sparse else Bulk)]
      ensures hosts.Length == HOSTS && forall h :: 0 <= h < HOSTS ==>
          hosts[h] == old(hosts[..])[h].(bulk := old(hosts[..])[h].bulk +
              if flows[i].state.Bulk? && !old(flows[i]).state.Bulk? && h == flows[i].dstHost then 1 else 0)
    {
      ghost var fs := flows[..];
      if (flows[i].state.Sparse? && Len(flows[i].q) > 1) || flows[i].state.Decaying? {
        TurnBulk(i);
      } else {
        assert FlowOk(fs[i], tags[..][i], true);
        assert flows[..] == fs[i := fs[i].(state := fs[i].state)];
      }
    }

    /** The head packet is gone for good: account for it. */
    method Settle(i: int, ghost f: Flow, p: Packet, charge: int, dropped: bool)
      requires 0 <= i < QUEUES && flows.Length == tags.Length == QUEUES && hosts.Length == HOSTS && Threaded()
          && flowCount == Listed(order)
      requires Sound(flows[..][i := Popped(f, p.len, charge)], tags[..], hosts[..], order, arrived, left + [p], i)
      requires flows[i] == f.(q := Pop(f.q))
      modifies this`drops, this`left, flows
      ensures ValidBut(i) && left == old(left) + [p] && drops == old(drops) + (if dropped then 1 else 0)
      ensures flows[..] == old(flows[..])[i := Popped(f, p.len, charge)]
    {
      hide Sound, Threaded;
      ghost var fs := flows[..];
      flows[i] := flows[i].(backlog := flows[i].backlog - p.len, deficit := flows[i].deficit - charge);
      if dropped { drops := drops + 1; }
      left := left + [p];
      assert flows[..] == fs[i := Popped(f, p.len, charge)];
    }

    /** One visit to the head packet: every check in order, the head moved before the AQM is asked, and
        moved back when the parent refuses. */
    method Dequeue(i: int, fate: Fate, framing: Framing) returns (r: Outcome, p: Packet)
      requires 0 <= i < QUEUES && Valid() && QueueOk(flows[i].q)
      modifies this`drops, this`left, flows
      ensures ValidBut(i) && r == Visit(old(Len(flows[i].q)), fate)
      // The order of the checks: the local share is asked before the AQM, and the AQM before the gates.
      ensures r.Empty? <==> old(Len(flows[i].q)) == 0
      ensures r.Dropped? <==> old(Len(flows[i].q)) > 0 && fate.drrAdmits && fate.aqmDrops
      ensures r.Sent? <==> old(Len(flows[i].q)) > 0 && fate.drrAdmits && !fate.aqmDrops && fate.gate.Open?
      ensures r.Shut? <==> old(Len(flows[i].q)) > 0 && fate.drrAdmits && !fate.aqmDrops && fate.gate.Closed?
      ensures r.Blocked? <==>
          old(Len(flows[i].q)) > 0 && (!fate.drrAdmits || (!fate.aqmDrops && fate.gate.ShareSpent?))
      ensures r.Empty? || r.Blocked? || r.Shut? ==>
          Valid() && flows[..] == old(flows[..]) && left == old(left) && drops == old(drops)
      ensures r.Dropped? || r.Sent? ==>
                && p == Front(old(flows[i].q)) && left == old(left) + [p]
                   && drops == old(drops) + (if r.Dropped? then 1 else 0)
                && flows[..] == old(flows[..])[i := Popped(old(flows[i]), p.len, if r.Sent?
                   then Adjust(framing, p.len) else 0)]
      // The flow pays for what is sent, and for nothing that is dropped.
      ensures r.Dropped? || r.Sent? ==>
                && flows[i].deficit == old(flows[i].deficit) - (if r.Sent? then Adjust(framing, p.len) else 0)
                && flows[i].backlog == old(flows[i].backlog) - p.len
                && flows[i].state == old(flows[i].state) && flows[i].dstHost == old(flows[i].dstHost)
    {
      hide Sound, Threaded;
      SoundBut(flows[..], tags[..], hosts[..], order, arrived, left, i);
      ghost var fs, f := flows[..], flows[i];
      if Len(flows[i].q) == 0 {
        p := Packet(0, 0, 0);
        return Empty, p;
      }
      p := Front(flows[i].q);
      if !fate.drrAdmits { return Blocked, p; }
      flows[i] := flows[i].(q := Pop(flows[i].q));
      if fate.aqmDrops {
        PopKeeps(fs, tags[..], hosts[..], order, arrived, left, i, 0);
        assert flows[..][i := Popped(f, p.len, 0)] == fs[i := Popped(f, p.len, 0)];
        Settle(i, f, p, 0, true);
        return Dropped, p;
      }
      if !fate.gate.Open? {
        PopTakesOldest(f.q);
        flows[i] := flows[i].(q := PutBack(flows[i].q));
        assert flows[..] == old(flows[..]);
        return if fate.gate.ShareSpent? then Blocked else Shut, p;
      }
      PopKeeps(fs, tags[..], hosts[..], order, arrived, left, i, Adjust(framing, p.len));
      assert flows[..][i := Popped(f, p.len, Adjust(framing, p.len))] ==
          fs[i := Popped(f, p.len, Adjust(framing, p.len))];
      Settle(i, f, p, Adjust(framing, p.len), false);
      r := Sent;
    }

    /** A drained bulk flow with credit left moves to the back of the decaying list. */
    method Decay(i: int)
      requires 0 <= i < QUEUES && ValidBut(i) && flows[i].state.Bulk? && Len(flows[i].q) == 0
      modifies this`newList, this`oldList, this`decayingList, this`sparseCount, this`bulkCount, this`order, flows,
          links, hosts
      ensures Valid() && bulkCount == old(bulkCount) - 1 && flowCount == Listed(order)
      ensures flows[..] == old(flows[..])[i := old(flows[i]).(state := Decaying)]
      // The flow's host has one bulk flow less, if any was counted.
      ensures hosts.Length == HOSTS && forall h :: 0 <= h < HOSTS ==>
          hosts[h] == old(hosts[..])[h].(bulk := old(hosts[..])[h].bulk -
              if h == flows[i].dstHost && old(hosts[..])[h].bulk > 0 then 1 else 0)
    {
      ghost var fs, o := flows[..], order;
      UncountBulk(flows[i].dstHost);
      flows[i] := flows[i].(state := Decaying);
      FiledAt(fs, o, i);
      MoveToDecaying(i, Bulk);
      DecayKeeps(fs, tags[..], old(hosts[..]), o, Leaving(o, i, Bulk), arrived, left, i);
      assert flows[..] == fs[i := fs[i].(state := Decaying)];
    }

    /** A bulk flow that spent its credit goes to the back of the old list with a clean slate. */
    method Rotate(i: int)
      requires 0 <= i < QUEUES && ValidBut(i) && flows[i].state.Bulk?
      modifies this`newList, this`oldList, this`decayingList, this`sparseCount, this`bulkCount, this`order, flows, links
      ensures Valid() && bulkCount == old(bulkCount)
      ensures flows[..] == old(flows[..])[i := old(flows[i]).(deficit := 0)]
      ensures old(order.bulk) != [] && (i == old(order.bulk[0]) ==>
          order == old(order).(bulk := old(order.bulk)[1..] + [i]))
    {
      ghost var fs, o := flows[..], order;
      FiledAt(fs, o, i);
      assert i in ListOf(o, Bulk);
      if i == order.bulk[0] { WithoutFirst(o.bulk, QUEUES); }
      MoveToOld(i, Bulk);
      flows[i] := flows[i].(deficit := 0);
      RestateKeeps(fs, tags[..], hosts[..], hosts[..], o, order, arrived, left, i, fs[i].(deficit := 0));
      assert flows[..] == fs[i := fs[i].(deficit := 0)];
    }

    /** A flow without credit earns one quantum. */
    method TopUp(i: int)
      requires 0 <= i < QUEUES && Valid() && !flows[i].state.None?
      modifies flows
      ensures Valid()
      ensures flows[..] == old(flows[..])[i := flows[i]]
      ensures flows[i] == old(flows[i]).(deficit := flows[i].deficit)
      ensures flows[i].deficit == old(flows[i]).deficit + (if old(flows[i]).deficit <= 0
          then QuantumFor(quantum, HostLoad(hosts[..], old(flows[i]).dstHost)) else 0)
      ensures hosts.Length == HOSTS
      // In the counters' terms: the quantum for the bulk flows of the flow's own host.
      ensures old(flows[i]).deficit <= 0 && flows[i].dstHost < HOSTS ==>
          flows[i].deficit == old(flows[i]).deficit + QuantumFor(quantum, hosts[flows[i].dstHost].bulk)
    {
      ghost var fs := flows[..];
      if flows[i].deficit <= 0 {
        flows[i] := flows[i].(deficit := flows[i].deficit + QuantumFor(quantum, HostLoad(hosts[..], flows[i].dstHost)));
      }
      assert flows[..] == fs[i := flows[i]];
      FiledAt(fs, order, i);
      RestateKeeps(fs, tags[..], hosts[..], hosts[..], order, order, arrived, left, i, flows[i]);
    }

    /** A flow leaves whatever list it is in, and is no longer counted. */
    method Unfile(i: int, s: FlowState)
      requires Threaded() && InOnly(order, i, s) && flowCount == Listed(order)
      modifies this`newList, this`oldList, this`decayingList, this`flowCount, this`sparseCount, this`bulkCount,
          this`order, links
      ensures Threaded() && flowCount == Listed(order) == old(flowCount) - (if s.None? then 0 else 1)
      ensures bulkCount == old(bulkCount) - (if s.Bulk? then 1 else 0)
      ensures Refiled(old(order), order, i, None)
    {
      LeavingRefiles(order, i, s, QUEUES);
      Leave(i, s);
      if !s.None? { flowCount := flowCount - 1; }
    }

    /** cake_flow_reclaim: a drained sparse or decaying flow gives up its place, its ring and its tag. */
    method Reclaim(i: int)
      requires 0 <= i < QUEUES && ValidBut(i) && (flows[i].state.Sparse? || flows[i].state.Decaying?)
          && Len(flows[i].q) == 0
      modifies this`newList, this`oldList, this`decayingList, this`flowCount, this`sparseCount, this`bulkCount,
          this`order, flows, links, tags
      ensures Valid() && flowCount == old(flowCount) - 1 && bulkCount == old(bulkCount)
      ensures flows[..] == old(flows[..])[i := FREE] && tags[..] == old(tags[..])[i := 0]
    {
      ghost var fs, o := flows[..], order;
      FiledAt(fs, o, i);
      Unfile(i, flows[i].state);
      ReclaimKeeps(fs, tags[..], hosts[..], o, order, arrived, left, i);
      tags[i] := 0;
      flows[i] := FREE;
      assert flows[..] == fs[i := FREE];
      assert tags[..] == old(tags[..])[i := 0];
    }

    /** cake_flow_discard: drop what a flow still holds and free its ring. */
    method Discard(i: int) returns (n: int, freed: int)
      requires 0 <= i < flows.Length == QUEUES
      modifies this`drops, flows
      requires QueueOk(flows[i].q)
      ensures n == old(Len(flows[i].q)) && freed == (if n == 0 then 0 else old(flows[i].backlog))
          && drops == old(drops) + n
      ensures flows[..] == old(flows[..])[i := old(flows[i]).(q := NO_RING, backlog := old(flows[i].backlog) - freed)]
    {
      n, freed := Len(flows[i].q), 0;
      if n != 0 {
        freed := flows[i].backlog;
        drops := drops + n;
        flows[i] := flows[i].(backlog := 0);
      }
      flows[i] := flows[i].(q := NO_RING);
    }

    /** The rest of an eviction: the flow f that slot i held leaves its list and the slot is zeroed. */
    method Erase(i: int, ghost f: Flow)
      requires 0 <= i < QUEUES && flows.Length == tags.Length == QUEUES && hosts.Length == HOSTS && Threaded()
          && flowCount == Listed(order)
      requires Sound(flows[..][i := f], tags[..], hosts[..], order, arrived, left, -1) && QueueOk(f.q)
      requires flows[i].state == f.state && flows[i].dstHost == f.dstHost
      modifies this`newList, this`oldList, this`decayingList, this`flowCount, this`sparseCount, this`bulkCount,
          this`order, this`left, flows, links, hosts
      ensures Valid() && flows[..] == old(flows[..])[i := FREE] && left == old(left) + Contents(f.q)
      ensures hosts[..] ==
          if old(flows[i]).state.Bulk? then Uncounted(old(hosts[..]), old(flows[i]).dstHost) else old(hosts[..])
    {
      ghost var fs, o := flows[..][i := f], order;
      FiledAt(fs, o, i);
      assert InOnly(o, i, flows[i].state);
      hide Threaded, Sound, Refiled, InOnly;
      Unfile(i, flows[i].state);
      EvictKeeps(fs, tags[..], hosts[..], o, order, arrived, left, i);
      assert flows[..][i := FREE] == fs[i := FREE];
      Blank(i, f);
    }

    /** The slot is zeroed, its host's counter goes down, and what it held has left. */
    method Blank(i: int, ghost f: Flow)
      requires 0 <= i < QUEUES && flows.Length == tags.Length == QUEUES && hosts.Length == HOSTS && Threaded()
          && flowCount == Listed(order) && QueueOk(f.q)
      requires Sound(flows[..][i := FREE], tags[..],
                     if flows[i].state.Bulk? then Uncounted(hosts[..], flows[i].dstHost) else hosts[..],
                     order, arrived, left + Contents(f.q), -1)
      modifies this`left, flows, hosts
      ensures Valid() && flows[..] == old(flows[..])[i := FREE] && left == old(left) + Contents(f.q)
      ensures hosts[..] ==
          if old(flows[i]).state.Bulk? then Uncounted(old(hosts[..]), old(flows[i]).dstHost) else old(hosts[..])
    {
      hide Threaded, Sound, Uncounted;
      ghost var fs := flows[..];
      UncountIfBulk(flows[i]);
      left := left + Contents(f.q);
      flows[i] := FREE;
      assert flows[..] == fs[i := FREE];
    }

    /** cake_flow_evict: whatever the flow still holds is dropped, and the slot is zeroed. */
    method Evict(i: int) returns (n: int, freed: int)
      requires 0 <= i < QUEUES && Valid() && QueueOk(flows[i].q)
      modifies this`newList, this`oldList, this`decayingList, this`flowCount, this`sparseCount, this`bulkCount,
          this`order, this`drops, this`left, flows, links, hosts
      ensures Valid() && flows[..] == old(flows[..])[i := FREE]
      ensures n == old(Len(flows[i].q)) && freed == old(flows[i].backlog) && drops == old(drops) + n
      ensures left == old(left) + old(Contents(flows[i].q))
      // An evicted bulk flow's host has one bulk flow less, if any was counted.
      ensures var was, now := old(hosts[..]), hosts[..];
              && |was| == |now| == HOSTS
              && forall h :: 0 <= h < HOSTS ==>
                   now[h] == was[h].(bulk := was[h].bulk -
                       if old(flows[i]).state.Bulk? && h == old(flows[i]).dstHost && was[h].bulk > 0 then 1 else 0)
    {
      ghost var f := flows[i];
      EvictedEmpty(flows[..], tags[..], i);
      UncountedAt(hosts[..], f.dstHost);
      hide Sound, Threaded, Uncounted;
      n, freed := Discard(i);
      assert flows[..][i := f] == old(flows[..]);
      Erase(i, f);
    }

    /** A victim makes way for a new tag. */
    method Replace(i: int, tag: int) returns (n: int, freed: int)
      requires Valid() && 0 < tag < U32 && tag % SETS * WAYS <= i < tag % SETS * WAYS + WAYS && QueueOk(flows[i].q)
      requires forall k :: tag % SETS * WAYS <= k < tag % SETS * WAYS + WAYS ==> tags[k] != tag
      modifies this`newList, this`oldList, this`decayingList, this`flowCount, this`sparseCount, this`bulkCount,
          this`order, this`drops, this`left, flows, links, hosts, tags
      ensures Valid() && tags[..] == old(tags[..])[i := tag] && flows[..] == old(flows[..])[i := FREE]
      ensures n == old(Len(flows[i].q)) && freed == old(flows[i].backlog) && drops == old(drops) + n
    {
      n, freed := Evict(i);
      ClaimKeeps(flows[..], tags[..], hosts[..], order, arrived, left, i, tag);
      tags[i] := tag;
      assert tags[..] == old(tags[..])[i := tag];
    }

    /** Find, claim or make room for a packet's flow: a new tag goes to the first empty way of its set,
        or replaces the way with the least backlog. Returns what the eviction dropped. */
    method Admit(tag: int) returns (slot: int, evicted: bool, n: int, freed: int)
      requires Valid() && 0 < tag < U32 && forall k :: 0 <= k < QUEUES ==> 0 <= flows[k].backlog < NIL
      modifies this`newList, this`oldList, this`decayingList, this`flowCount, this`sparseCount, this`bulkCount,
          this`order, this`drops, this`left, flows, links, hosts, tags
      ensures Valid() && 0 <= slot < QUEUES && tags[..] == old(tags[..])[slot := tag]
      ensures evicted ==>
          QueueOk(old(flows[slot].q)) && flows[..] == old(flows[..])[slot := FREE] && n == old(Len(flows[slot].q))
          && freed == old(flows[slot].backlog)
      ensures !evicted ==> flows[..] == old(flows[..]) && n == 0 && freed == 0
      ensures drops == old(drops) + n && (!evicted ==> left == old(left))
      ensures evicted <==> Crowded(old(tags[..]), tag)
    {
      hide Threaded, HostsOk, HistoryOk, Filed;
      var base := tag % SETS * WAYS;
      ghost var ts := tags[..];
      var victim: int;
      evicted, n, freed := false, 0, 0;
      slot, victim := FlowLookup(tags, flows, tag, base);
      if slot == NIL {
        EvictedEmpty(flows[..], ts, victim);
        n, freed := Replace(victim, tag);
        slot := victim;
        evicted := true;
      } else if ts[slot] != tag {
        assert FlowOk(flows[..][slot], ts[slot], true);
        ClaimKeeps(flows[..], ts, hosts[..], order, arrived, left, slot, tag);
      } else {
        assert tags[..] == ts;
      }
    }

    /** A packet was refused before it reached a queue. */
    method Refuse()
      requires Valid()
      modifies this`drops
      ensures Valid() && drops == old(drops) + 1
    {
      hide Sound;
      drops := drops + 1;
    }

    /** A packet joins a flow in use, which takes the list its new length calls for. */
    method Enter(i: int, p: Packet)
      requires 0 <= i < QUEUES && ValidBut(i) && !flows[i].state.None? && Len(flows[i].q) < RING_SIZE
          && p.tag == tags[i]
      requires QueueOk(flows[i].q)
      modifies this`newList, this`oldList, this`decayingList, this`sparseCount, this`bulkCount, this`order,
          this`packets, this`bytes, this`arrived, flows, links, hosts
      ensures Valid() && arrived == old(arrived) + [p] && packets == old(packets) + 1 && bytes == old(bytes) + p.len
      ensures Queued(flows[..]) == old(Queued(flows[..])) + 1 && Backlog(flows[..]) == old(Backlog(flows[..])) + p.len
      ensures flows[i].state == (if old(flows[i]).state.Sparse? && old(Len(flows[i].q)) == 0 then Sparse else Bulk)
      ensures flows[..] == old(flows[..])[i := flows[i]]
    {
      hide Sound, Threaded;
      ghost var fs := flows[..];
      Push(i, p);
      Promote(i);
      assert flows[..] == fs[i := flows[i]];
      TotalsAt(fs, i, flows[i]);
    }

    /** An unused flow is opened; nothing joins or leaves a queue. */
    method OpenIfUnused(i: int, hash: nat, junk: seq<Packet>)
      requires 0 <= i < QUEUES && Valid() && tags[i] != 0 && |junk| == RING_SIZE && QueueOk(flows[i].q)
      modifies this`newList, this`flowCount, this`sparseCount, this`order, flows, links, hosts
      ensures ValidBut(i) && !flows[i].state.None? && QueueOk(flows[i].q)
      ensures Len(flows[i].q) == old(Len(flows[i].q))
      ensures Queued(flows[..]) == old(Queued(flows[..])) && Backlog(flows[..]) == old(Backlog(flows[..]))
      ensures flows[i].state == (if old(flows[i]).state.None? then Sparse else old(flows[i]).state)
      ensures flows[..] == old(flows[..])[i := flows[i]]
    {
      SoundBut(flows[..], tags[..], hosts[..], order, arrived, left, i);
      hide Sound, Threaded;
      ghost var fs := flows[..];
      if flows[i].state.None? {
        Open(i, hash, junk);
        TotalsAt(fs, i, flows[i]);
      }
      assert flows[..] == fs[i := flows[i]];
    }

    /** The packet joins its flow, which is opened first if it was unused. */
    method Accept(i: int, p: Packet, hash: nat, junk: seq<Packet>)
      requires 0 <= i < QUEUES && Valid() && tags[i] == p.tag != 0 && |junk| == RING_SIZE
      requires QueueOk(flows[i].q) && Len(flows[i].q) < RING_SIZE
      modifies this`newList, this`oldList, this`decayingList, this`flowCount, this`sparseCount, this`bulkCount,
          this`order, this`packets, this`bytes, this`arrived, flows, links, hosts
      ensures Valid() && arrived == old(arrived) + [p] && packets == old(packets) + 1 && bytes == old(bytes) + p.len
      ensures Queued(flows[..]) == old(Queued(flows[..])) + 1 && Backlog(flows[..]) == old(Backlog(flows[..])) + p.len
      ensures flows[i].state == (if old(flows[i]).state.None? then Sparse else Bulk)
    {
      Settled(i);
      hide ValidBut, Queued, Backlog;
      OpenIfUnused(i, hash, junk);
      Enter(i, p);
    }

    method ResetCounters()
      requires Valid()
      modifies this`packets, this`bytes, this`drops
      ensures Valid() && packets == bytes == drops == 0
    {
      hide Sound;
      packets, bytes, drops := 0, 0, 0;
    }

    method DiscardCounted(i: int) returns (n: int, freed: int)
      requires 0 <= i < flows.Length == QUEUES && QueueOk(flows[i].q)
          && (Len(flows[i].q) == 0 ==> flows[i].backlog == 0)
      modifies this`drops, flows
      ensures drops == old(drops) + n && n + Queued(flows[..]) == old(Queued(flows[..]))
          && freed + Backlog(flows[..]) == old(Backlog(flows[..]))
      ensures flows[i].q == NO_RING && flows[i].backlog == 0
      ensures forall k :: 0 <= k < QUEUES && k != i ==> flows[k] == old(flows[k])
    {
      ghost var before := flows[..];
      n, freed := Discard(i);
      assert flows[..] == before[i := flows[i]];
      TotalsAt(before, i, flows[i]);
    }

    /** cake_tin_drain: every flow's queue is discarded. The tin is not used again. */
    method Drain() returns (n: int, freed: int)
      requires Valid()
      modifies this`drops, flows
      ensures n == old(Queued(flows[..])) && freed == old(Backlog(flows[..])) && drops == old(drops) + n && n >= 0
          && freed >= 0
      ensures Queued(flows[..]) == 0 && Backlog(flows[..]) == 0
      ensures forall i :: 0 <= i < QUEUES ==> |flows[i].q.ring| == 0
    {
      Bounds();
      ghost var fs, ts := flows[..], tags[..];
      AllEmptyWhenIdle(fs, ts);
      hide Sound, Threaded, Queued, Backlog;
      n, freed := 0, 0;
      for i := 0 to QUEUES
        invariant flows.Length == QUEUES && forall k :: i <= k < QUEUES ==> flows[k] == fs[k]
        invariant forall k :: 0 <= k < i ==> flows[k].q == NO_RING && flows[k].backlog == 0
        invariant n + Queued(flows[..]) == Queued(fs) && freed + Backlog(flows[..]) == Backlog(fs)
        invariant drops == old(drops) + n
      {
        var m, gone := DiscardCounted(i);
        n, freed := n + m, freed + gone;
      }
      DrainedTotals(flows[..]);
    }
  }
}
