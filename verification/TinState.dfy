/** What a tin's arrays must satisfy, one concern at a time, and how each concern survives the change
    of a single flow. */
module TinState {
  import opened Sums
  import opened FlowQueue
  import opened FlowLists

  const QUEUES: int := 1024
  const WAYS: int := 8
  const SETS: int := 128
  const HOSTS: int := 256

  datatype FlowState = None | Sparse | Bulk | Decaying

  datatype Flow = Flow(q: Queue, deficit: int, backlog: int, state: FlowState, dstHost: nat)

  /** A zeroed flow. */
  const FREE := Flow(NO_RING, 0, 0, None, 0)

  datatype Host = Host(hash: int, bulk: int)

  /** The flows of each list, in list order. */
  datatype Order = Order(sparse: seq<int>, bulk: seq<int>, decaying: seq<int>)

  // ---------------------------------------------------------------- the invariants

  /** A flow's backlog is its queue's bytes, its packets all carry its slot's tag, and it owns a ring
      exactly when it is in use. A settled flow also has the queue length its state promises. */
  ghost predicate FlowOk(f: Flow, tag: int, settled: bool) {
    && QueueOk(f.q) && f.backlog == Bytes(Contents(f.q))
    && (f.state.None? <==> |f.q.ring| == 0)
    && (!f.state.None? ==> tag != 0)
    && (forall p :: p in Contents(f.q) ==> p.tag == tag)
    && (settled ==> (f.state.Sparse? ==> Len(f.q) == 1) && (f.state.Decaying? ==> Len(f.q) == 0))
  }

  /** Every flow is sound, and every flow but the one being worked on is settled. */
  ghost predicate QueuesOk(fs: seq<Flow>, tags: seq<int>, hole: int) {
    |fs| == QUEUES && |tags| == QUEUES && forall i :: 0 <= i < QUEUES ==> FlowOk(fs[i], tags[i], i != hole)
  }

  /** A tag sits in its own set, and nowhere twice. */
  ghost predicate TagsOk(tags: seq<int>) {
    && (forall i :: 0 <= i < |tags| && tags[i] != 0 ==> tags[i] % SETS == i / WAYS)
    && (forall i, j :: 0 <= i < j < |tags| && tags[i] != 0 ==> tags[i] != tags[j])
  }

  /** A flow is in the new, old or decaying list exactly when it is sparse, bulk or decaying. */
  ghost predicate Filed(fs: seq<Flow>, order: Order) {
    forall i {:trigger fs[i]} :: 0 <= i < |fs| ==>
      && (i in order.sparse <==> fs[i].state.Sparse?)
      && (i in order.bulk <==> fs[i].state.Bulk?)
      && (i in order.decaying <==> fs[i].state.Decaying?)
  }

  predicate Below(i: int, n: int) { 0 <= i < n }

  /** The indices of n flows. */
  ghost function Ids(n: nat): (ks: set<int>)
    ensures forall i :: i in ks <==> 0 <= i < n
  {
    set i | 0 <= i < n && Below(i, n)
  }

  lemma {:induction false} IdsCount(n: nat)
    ensures |Ids(n)| == n
  {
    if n > 0 {
      IdsCount(n - 1);
      assert Ids(n) == Ids(n - 1) + {n - 1};
    }
  }

  function InHost(f: Flow, h: int): int { if f.state.Bulk? && f.dstHost == h then 1 else 0 }

  ghost function InHosts(fs: seq<Flow>, h: int): int -> int { i => if 0 <= i < |fs| then InHost(fs[i], h) else 0 }

  /** How many bulk flows really send to a host. */
  ghost function BulkOf(fs: seq<Flow>, h: int): int { Sum(Ids(|fs|), InHosts(fs, h)) }

  /** A host's counter never exceeds its number of bulk flows. */
  ghost predicate HostsOk(fs: seq<Flow>, hosts: seq<Host>) {
    |hosts| == HOSTS && forall h :: 0 <= h < HOSTS ==> 0 <= hosts[h].bulk <= BulkOf(fs, h)
  }

  /** Flow by flow, what has arrived is what has left followed by what is queued: nothing is lost,
      repeated or reordered. */
  ghost predicate HistoryOk(fs: seq<Flow>, tags: seq<int>, arrived: seq<Packet>, left: seq<Packet>)
    requires |fs| == |tags| && forall i :: 0 <= i < |fs| ==> QueueOk(fs[i].q)
  {
    && (forall i :: 0 <= i < |tags| && tags[i] != 0 ==> Of(arrived, tags[i]) == Of(left, tags[i]) + Contents(fs[i].q))
    && (forall g {:trigger Of(arrived, g)} {:trigger Of(left, g)} :: g == 0 || g !in tags ==>
       Of(arrived, g) == Of(left, g))
  }

  // ---------------------------------------------------------------- totals

  function Debt(f: Flow): int { if f.deficit < 0 then -f.deficit else 0 }

  ghost function Lens(fs: seq<Flow>): int -> int { i => if 0 <= i < |fs| then Len(fs[i].q) else 0 }

  ghost function Backlogs(fs: seq<Flow>): int -> int { i => if 0 <= i < |fs| then fs[i].backlog else 0 }

  ghost function Debts(fs: seq<Flow>): int -> int { i => if 0 <= i < |fs| then Debt(fs[i]) else 0 }

  ghost function Queued(fs: seq<Flow>): int { Sum(Ids(|fs|), Lens(fs)) }

  ghost function Backlog(fs: seq<Flow>): int { Sum(Ids(|fs|), Backlogs(fs)) }

  ghost function Owed(fs: seq<Flow>): int { Sum(Ids(|fs|), Debts(fs)) }

  /** Replacing one flow moves each total by that flow's difference. */
  lemma TotalsAt(fs: seq<Flow>, i: int, f: Flow)
    requires 0 <= i < |fs|
    ensures Queued(fs[i := f]) == Queued(fs) - Len(fs[i].q) + Len(f.q)
    ensures Backlog(fs[i := f]) == Backlog(fs) - fs[i].backlog + f.backlog
    ensures Owed(fs[i := f]) == Owed(fs) - Debt(fs[i]) + Debt(f)
  {
    Change(Ids(|fs|), Lens(fs), Lens(fs[i := f]), i);
    Change(Ids(|fs|), Backlogs(fs), Backlogs(fs[i := f]), i);
    Change(Ids(|fs|), Debts(fs), Debts(fs[i := f]), i);
  }

  /** Popping a packet takes it, and its bytes, off the totals. */
  lemma PopTotals(fs: seq<Flow>, i: int, len: nat, charge: int)
    requires 0 <= i < |fs| && QueueOk(fs[i].q) && Len(fs[i].q) > 0
    ensures Queued(fs[i := Popped(fs[i], len, charge)]) == Queued(fs) - 1
    ensures Backlog(fs[i := Popped(fs[i], len, charge)]) == Backlog(fs) - len
  {
    PopTakesOldest(fs[i].q);
    TotalsAt(fs, i, Popped(fs[i], len, charge));
  }

  lemma TotalsBounds(fs: seq<Flow>, tags: seq<int>, hole: int)
    requires QueuesOk(fs, tags, hole)
    ensures Queued(fs) >= 0 && Backlog(fs) >= 0 && Owed(fs) >= 0
    ensures forall i :: 0 <= i < QUEUES ==> 0 <= Len(fs[i].q) <= Queued(fs) && 0 <= fs[i].backlog <= Backlog(fs)
  {
    assert forall i :: i in Ids(|fs|) ==> FlowOk(fs[i], tags[i], i != hole);
    NonNegative(Ids(|fs|), Lens(fs));
    NonNegative(Ids(|fs|), Backlogs(fs));
    NonNegative(Ids(|fs|), Debts(fs));
    forall i | 0 <= i < QUEUES
      ensures 0 <= Len(fs[i].q) <= Queued(fs) && 0 <= fs[i].backlog <= Backlog(fs)
    {
      assert i in Ids(|fs|);
      assert Lens(fs)(i) == Len(fs[i].q) && Backlogs(fs)(i) == fs[i].backlog;
    }
  }

  lemma DrainedTotals(fs: seq<Flow>)
    requires forall i :: 0 <= i < |fs| ==> fs[i].q == NO_RING && fs[i].backlog == 0
    ensures Queued(fs) == 0 && Backlog(fs) == 0
    ensures (forall i :: 0 <= i < |fs| ==> fs[i].deficit == 0) ==> Owed(fs) == 0
  {
    AllZero(Ids(|fs|), Lens(fs));
    AllZero(Ids(|fs|), Backlogs(fs));
    if forall i :: 0 <= i < |fs| ==> fs[i].deficit == 0 { AllZero(Ids(|fs|), Debts(fs)); }
  }

  /** With nothing listed, nothing is queued. */
  lemma IdleIsEmpty(fs: seq<Flow>, tags: seq<int>, order: Order)
    requires QueuesOk(fs, tags, -1) && Filed(fs, order)
    requires order == Order([], [], [])
    ensures Queued(fs) == 0 && Backlog(fs) == 0
  {
    forall i | i in Ids(|fs|)
      ensures Lens(fs)(i) == 0 && Backlogs(fs)(i) == 0
    {
      assert FlowOk(fs[i], tags[i], true);
      assert i !in order.sparse && i !in order.bulk && i !in order.decaying;
      assert Contents(fs[i].q) == [];
    }
    AllZero(Ids(|fs|), Lens(fs));
    AllZero(Ids(|fs|), Backlogs(fs));
  }

  // ---------------------------------------------------------------- one flow changes

  lemma BulkAt(fs: seq<Flow>, i: int, f: Flow, h: int)
    requires 0 <= i < |fs|
    ensures BulkOf(fs[i := f], h) == BulkOf(fs, h) - InHost(fs[i], h) + InHost(f, h)
  {
    Change(Ids(|fs|), InHosts(fs, h), InHosts(fs[i := f], h), i);
  }

  lemma BulkBounds(fs: seq<Flow>, i: int, h: int)
    requires 0 <= i < |fs|
    ensures InHost(fs[i], h) <= BulkOf(fs, h) <= |fs|
  {
    NonNegative(Ids(|fs|), InHosts(fs, h));
    assert i in Ids(|fs|) && InHosts(fs, h)(i) == InHost(fs[i], h);
    AtMostEach(Ids(|fs|), InHosts(fs, h), 1);
    IdsCount(|fs|);
  }

  /** The counters may go down freely, and up by one exactly where a flow turned bulk. */
  lemma HostsAt(fs: seq<Flow>, hosts: seq<Host>, hosts': seq<Host>, i: int, f: Flow)
    requires HostsOk(fs, hosts) && 0 <= i < |fs| && |hosts'| == HOSTS
    requires forall h :: 0 <= h < HOSTS ==> 0 <= hosts'[h].bulk
    requires forall h :: 0 <= h < HOSTS ==>
               || hosts'[h].bulk <= hosts[h].bulk - InHost(fs[i], h) + InHost(f, h)
               || hosts'[h].bulk == 0
    ensures HostsOk(fs[i := f], hosts')
  {
    forall h | 0 <= h < HOSTS
      ensures 0 <= hosts'[h].bulk <= BulkOf(fs[i := f], h)
    {
      BulkAt(fs, i, f, h);
      BulkBounds(fs[i := f], i, h);
    }
  }

  /** A uniform tail shows up in its own tag's stream only. */
  lemma OfTail(s: seq<Packet>, tail: seq<Packet>, g: int, tag: int)
    requires forall k :: 0 <= k < |tail| ==> tail[k].tag == tag
    ensures Of(s + tail, g) == if g == tag then Of(s, g) + tail else Of(s, g)
  {
    OfTwo(s, tail, g);
    OfUniform(tail, g, tag);
    assert Of(s, g) + [] == Of(s, g);
  }

  lemma Regroup(a: seq<Packet>, b: seq<Packet>, c: seq<Packet>)
    ensures a + (b + c) == (a + b) + c
  {
  }

  /** A packet joins the end of flow i. */
  lemma HistoryPush(fs: seq<Flow>, tags: seq<int>, arrived: seq<Packet>, left: seq<Packet>, i: int, f: Flow, p: Packet)
    requires |fs| == |tags| && (forall k :: 0 <= k < |fs| ==> QueueOk(fs[k].q)) && HistoryOk(fs, tags, arrived, left)
    requires TagsOk(tags) && 0 <= i < |fs| && tags[i] == p.tag != 0
    requires QueueOk(f.q) && Contents(f.q) == Contents(fs[i].q) + [p]
    ensures HistoryOk(fs[i := f], tags, arrived + [p], left)
  {
    var fs' := fs[i := f];
    forall k | 0 <= k < |tags| && tags[k] != 0
      ensures Of(arrived + [p], tags[k]) == Of(left, tags[k]) + Contents(fs'[k].q)
    {
      OfTail(arrived, [p], tags[k], p.tag);
      if k == i {
        Regroup(Of(left, tags[i]), Contents(fs[i].q), [p]);
      }
    }
    forall g | g == 0 || g !in tags
      ensures Of(arrived + [p], g) == Of(left, g)
    {
      OfTail(arrived, [p], g, p.tag);
      assert tags[i] in tags;
    }
  }

  /** The oldest packets of flow i leave, in order. */
  lemma HistoryLeave(fs: seq<Flow>, tags: seq<int>, arrived: seq<Packet>, left: seq<Packet>, i: int, f: Flow,
          gone: seq<Packet>)
    requires |fs| == |tags| && (forall k :: 0 <= k < |fs| ==> QueueOk(fs[k].q)) && HistoryOk(fs, tags, arrived, left)
    requires TagsOk(tags) && 0 <= i < |fs| && (tags[i] != 0 || gone == [])
    requires QueueOk(f.q) && Contents(fs[i].q) == gone + Contents(f.q)
    requires forall k :: 0 <= k < |gone| ==> gone[k].tag == tags[i]
    ensures HistoryOk(fs[i := f], tags, arrived, left + gone)
  {
    var fs' := fs[i := f];
    if gone == [] { assert left + gone == left && Contents(fs[i].q) == Contents(f.q); }
    forall k | 0 <= k < |tags| && tags[k] != 0
      ensures Of(arrived, tags[k]) == Of(left + gone, tags[k]) + Contents(fs'[k].q)
    {
      OfTail(left, gone, tags[k], tags[i]);
      if k == i {
        Regroup(Of(left, tags[i]), gone, Contents(f.q));
      }
    }
    forall g | g == 0 || g !in tags
      ensures Of(arrived, g) == Of(left + gone, g)
    {
      OfTail(left, gone, g, tags[i]);
      assert tags[i] in tags;
    }
  }

  /** An empty slot changes its tag. */
  lemma HistoryRetag(fs: seq<Flow>, tags: seq<int>, arrived: seq<Packet>, left: seq<Packet>, i: int, g: int)
    requires |fs| == |tags| && (forall k :: 0 <= k < |fs| ==> QueueOk(fs[k].q)) && HistoryOk(fs, tags, arrived, left)
    requires TagsOk(tags) && 0 <= i < |fs| && Contents(fs[i].q) == []
    requires g == 0 || g !in tags
    ensures HistoryOk(fs, tags[i := g], arrived, left)
  {
  }

  // ---------------------------------------------------------------- a flow changes lists

  ghost function Listed(order: Order): nat { |order.sparse| + |order.bulk| + |order.decaying| }

  ghost function ListOf(order: Order, s: FlowState): seq<int> {
    match s
    case None => []
    case Sparse => order.sparse
    case Bulk => order.bulk
    case Decaying => order.decaying
  }

  /** Flow i is in the list of state s, and in no other. */
  ghost predicate InOnly(order: Order, i: int, s: FlowState) {
    forall t :: i in ListOf(order, t) <==> t == s && !s.None?
  }

  ghost function SetList(order: Order, s: FlowState, l: seq<int>): Order {
    match s
    case None => order
    case Sparse => order.(sparse := l)
    case Bulk => order.(bulk := l)
    case Decaying => order.(decaying := l)
  }

  /** The lists once flow i has left the one its state names. */
  ghost function Leaving(order: Order, i: int, s: FlowState): Order
    requires !s.None? ==> i in ListOf(order, s)
  {
    if s.None? then order else SetList(order, s, Without(ListOf(order, s), i))
  }

  /** Flow i is in no list but the one its new state names, and nobody else moves. */
  ghost predicate Refiled(order: Order, order': Order, i: int, s: FlowState) {
    && (forall x :: x in order'.sparse <==> if x == i then s.Sparse? else x in order.sparse)
    && (forall x :: x in order'.bulk <==> if x == i then s.Bulk? else x in order.bulk)
    && (forall x :: x in order'.decaying <==> if x == i then s.Decaying? else x in order.decaying)
  }

  lemma LeavingRefiles(order: Order, i: int, s: FlowState, n: int)
    requires Distinct(order.sparse, n) && Distinct(order.bulk, n) && Distinct(order.decaying, n)
    requires InOnly(order, i, s)
    ensures (!s.None? ==> i in ListOf(order, s)) && Refiled(order, Leaving(order, i, s), i, None)
        && InOnly(Leaving(order, i, s), i, None)
    ensures !s.None? ==> |ListOf(Leaving(order, i, s), s)| == |ListOf(order, s)| - 1
  {
    assert i in order.sparse <==> i in ListOf(order, Sparse);
    assert i in order.bulk <==> i in ListOf(order, Bulk);
    assert i in order.decaying <==> i in ListOf(order, Decaying);
    if !s.None? { WithoutMembers(ListOf(order, s), i, n); }
    var o := Leaving(order, i, s);
    forall t
      ensures i !in ListOf(o, t)
    {
      match t
      case None =>
      case Sparse =>
      case Bulk =>
      case Decaying =>
    }
  }

  /** Membership in each list, read off the flow's state. */
  lemma FiledAt(fs: seq<Flow>, order: Order, i: int)
    requires Filed(fs, order) && 0 <= i < |fs|
    ensures InOnly(order, i, fs[i].state)
  {
  }

  lemma FiledIn(fs: seq<Flow>, order: Order, i: int, f: Flow, order': Order)
    requires Filed(fs, order) && 0 <= i < |fs| && Refiled(order, order', i, f.state)
    ensures Filed(fs[i := f], order')
  {
  }

  // ---------------------------------------------------------------- all concerns together

  /** Everything a tin's arrays satisfy, links aside. */
  ghost predicate Sound(fs: seq<Flow>, tags: seq<int>, hosts: seq<Host>, order: Order, arrived: seq<Packet>,
          left: seq<Packet>, hole: int) {
    && QueuesOk(fs, tags, hole) && Filed(fs, order) && TagsOk(tags) && HostsOk(fs, hosts)
    && HistoryOk(fs, tags, arrived, left)
  }

  /** Nothing arrived, nothing queued. */
  lemma BlankIsSound(fs: seq<Flow>, tags: seq<int>, hosts: seq<Host>)
    requires |fs| == |tags| == QUEUES && |hosts| == HOSTS
    requires (forall i :: 0 <= i < QUEUES ==> fs[i] == FREE && tags[i] == 0) && forall h :: 0 <= h < HOSTS ==>
        hosts[h].bulk == 0
    ensures Sound(fs, tags, hosts, Order([], [], []), [], [], -1)
    ensures Queued(fs) == Backlog(fs) == Owed(fs) == 0
  {
    forall h | 0 <= h < HOSTS
      ensures BulkOf(fs, h) == 0
    {
      AllZero(Ids(QUEUES), InHosts(fs, h));
    }
    DrainedTotals(fs);
  }

  /** A sound tin is sound whatever flow is about to be worked on. */
  lemma SoundBut(fs: seq<Flow>, tags: seq<int>, hosts: seq<Host>, order: Order, arrived: seq<Packet>,
          left: seq<Packet>, hole: int)
    requires Sound(fs, tags, hosts, order, arrived, left, -1)
    ensures Sound(fs, tags, hosts, order, arrived, left, hole)
    ensures forall i :: 0 <= i < QUEUES ==> QueueOk(fs[i].q)
  {
  }

  /** Sparse flows hold one packet and decaying ones none; a bulk flow may hold any number. */
  lemma SettledLens(fs: seq<Flow>, tags: seq<int>, hosts: seq<Host>, order: Order, arrived: seq<Packet>,
          left: seq<Packet>, i: int)
    requires Sound(fs, tags, hosts, order, arrived, left, -1) && 0 <= i < QUEUES
    ensures QueueOk(fs[i].q) && fs[i].backlog >= 0
    ensures fs[i].state.Sparse? ==> Len(fs[i].q) == 1
    ensures fs[i].state.Decaying? || fs[i].state.None? ==> Len(fs[i].q) == 0
    ensures Len(fs[i].q) == 0 ==> fs[i].backlog == 0
  {
  }

  lemma DrainedIsZero(fs: seq<Flow>, tags: seq<int>, hosts: seq<Host>, order: Order, arrived: seq<Packet>,
          left: seq<Packet>, i: int)
    requires Sound(fs, tags, hosts, order, arrived, left, i) && 0 <= i < QUEUES && QueueOk(fs[i].q) && Len(fs[i].q) == 0
    ensures fs[i].backlog == 0
  {
  }

  function Opened(f: Flow, junk: seq<Packet>, host: nat, deficit: int): Flow {
    f.(q := Alloc(junk), state := Sparse, dstHost := host, deficit := deficit)
  }

  lemma OpenKeeps(fs: seq<Flow>, tags: seq<int>, hosts: seq<Host>, hosts': seq<Host>, order: Order,
          arrived: seq<Packet>, left: seq<Packet>,
                  i: int, junk: seq<Packet>, host: nat, deficit: int)
    requires Sound(fs, tags, hosts, order, arrived, left, -1)
    requires 0 <= i < QUEUES && fs[i].state.None? && tags[i] != 0 && |junk| == RING_SIZE
    requires host < HOSTS && |hosts'| == HOSTS && hosts' == hosts[host := hosts'[host]]
    requires hosts'[host].bulk == hosts[host].bulk || hosts'[host].bulk == 0
    ensures Sound(fs[i := Opened(fs[i], junk, host, deficit)], tags, hosts', order.(sparse := [i] + order.sparse),
        arrived, left, i)
    ensures InOnly(order, i, None)
    ensures Len(fs[i].q) == 0 && fs[i].backlog == 0
  {
    var f := Opened(fs[i], junk, host, deficit);
    assert FlowOk(fs[i], tags[i], true);
    assert Contents(fs[i].q) == [] && Contents(f.q) == [];
    FiledAt(fs, order, i);
    FiledIn(fs, order, i, f, order.(sparse := [i] + order.sparse));
    HostsAt(fs, hosts, hosts', i, f);
    HistoryLeave(fs, tags, arrived, left, i, f, []);
    assert left + [] == left;
  }

  function Pushed(f: Flow, p: Packet): Flow
    requires QueueOk(f.q) && |f.q.ring| != 0
  {
    f.(q := Push(f.q, p), backlog := f.backlog + p.len)
  }

  lemma PushKeeps(fs: seq<Flow>, tags: seq<int>, hosts: seq<Host>, order: Order, arrived: seq<Packet>,
          left: seq<Packet>, i: int, p: Packet)
    requires 0 <= i < QUEUES && Sound(fs, tags, hosts, order, arrived, left, i)
    requires !fs[i].state.None? && Len(fs[i].q) < RING_SIZE && p.tag == tags[i]
    ensures QueueOk(fs[i].q) && |fs[i].q.ring| != 0
    ensures Sound(fs[i := Pushed(fs[i], p)], tags, hosts, order, arrived + [p], left, i)
    ensures Len(Pushed(fs[i], p).q) == Len(fs[i].q) + 1
  {
    assert FlowOk(fs[i], tags[i], false);
    PushAppends(fs[i].q, p);
    BytesOfTwo(Contents(fs[i].q), [p]);
    assert Bytes([p]) == p.len by { assert [p][..0] == []; }
    FiledIn(fs, order, i, Pushed(fs[i], p), order);
    HostsAt(fs, hosts, hosts, i, Pushed(fs[i], p));
    HistoryPush(fs, tags, arrived, left, i, Pushed(fs[i], p), p);
  }

  function Popped(f: Flow, len: nat, charge: int): Flow {
    f.(q := Pop(f.q), backlog := f.backlog - len, deficit := f.deficit - charge)
  }

  lemma PopKeeps(fs: seq<Flow>, tags: seq<int>, hosts: seq<Host>, order: Order, arrived: seq<Packet>,
          left: seq<Packet>, i: int, charge: int)
    requires 0 <= i < QUEUES && Sound(fs, tags, hosts, order, arrived, left, -1) && QueueOk(fs[i].q) && Len(fs[i].q) > 0
    ensures var p := Front(fs[i].q);
            Sound(fs[i := Popped(fs[i], p.len, charge)], tags, hosts, order, arrived, left + [p], i)
    ensures PutBack(Pop(fs[i].q)) == fs[i].q && Len(Pop(fs[i].q)) == Len(fs[i].q) - 1
    ensures !fs[i].state.None? && Front(fs[i].q).tag == tags[i] && fs[i].backlog >= Front(fs[i].q).len
  {
    var p := Front(fs[i].q);
    var f := Popped(fs[i], p.len, charge);
    assert FlowOk(fs[i], tags[i], true);
    PopTakesOldest(fs[i].q);
    assert p == Contents(fs[i].q)[0];
    BytesOfTwo([p], Contents(f.q));
    assert Bytes([p]) == p.len by { assert [p][..0] == []; }
    FiledIn(fs, order, i, f, order);
    HostsAt(fs, hosts, hosts, i, f);
    HistoryLeave(fs, tags, arrived, left, i, f, [p]);
  }

  /** A flow changes state and list, with its queue as it is; the counters follow, or stay below. */
  lemma RestateKeeps(fs: seq<Flow>, tags: seq<int>, hosts: seq<Host>, hosts': seq<Host>, order: Order, order': Order,
          arrived: seq<Packet>, left: seq<Packet>,
                     i: int, f: Flow)
    requires 0 <= i < QUEUES && Sound(fs, tags, hosts, order, arrived, left, i) && |hosts'| == HOSTS
    requires !fs[i].state.None? && !f.state.None? && f == fs[i].(state := f.state, deficit := f.deficit)
    requires Refiled(order, order', i, f.state)
    requires f.state.Sparse? ==> Len(f.q) == 1
    requires f.state.Decaying? ==> Len(f.q) == 0
    requires forall h :: 0 <= h < HOSTS ==> 0 <= hosts'[h].bulk
    requires forall h :: 0 <= h < HOSTS ==>
               || hosts'[h].bulk <= hosts[h].bulk - InHost(fs[i], h) + InHost(f, h)
               || hosts'[h].bulk == 0
    ensures Sound(fs[i := f], tags, hosts', order', arrived, left, -1)
  {
    assert FlowOk(fs[i], tags[i], false);
    FiledIn(fs, order, i, f, order');
    HostsAt(fs, hosts, hosts', i, f);
    HistoryLeave(fs, tags, arrived, left, i, f, []);
    assert left + [] == left;
  }

  /** The host table after one more bulk flow for a host, or one fewer if any was counted. */
  function Counted(hosts: seq<Host>, host: nat): seq<Host> {
    if host < HOSTS && |hosts| == HOSTS then hosts[host := hosts[host].(bulk := hosts[host].bulk + 1)] else hosts
  }

  function Uncounted(hosts: seq<Host>, host: nat): seq<Host> {
    if host < HOSTS && |hosts| == HOSTS && hosts[host].bulk > 0
        then hosts[host := hosts[host].(bulk := hosts[host].bulk - 1)] else hosts
  }

  lemma UncountedAt(hosts: seq<Host>, host: nat)
    requires |hosts| == HOSTS
    ensures |Uncounted(hosts, host)| == HOSTS
    ensures forall h :: 0 <= h < HOSTS ==>
              Uncounted(hosts, host)[h] ==
              hosts[h].(bulk := hosts[h].bulk - if h == host && hosts[h].bulk > 0 then 1 else 0)
  {
  }

  lemma TurnBulkKeeps(fs: seq<Flow>, tags: seq<int>, hosts: seq<Host>, order: Order, order1: Order,
          arrived: seq<Packet>, left: seq<Packet>, i: int)
    requires 0 <= i < QUEUES && Sound(fs, tags, hosts, order, arrived, left, i)
    requires fs[i].state.Sparse? || fs[i].state.Decaying?
    requires Refiled(order, order1, i, None)
    ensures Sound(fs[i := fs[i].(state := Bulk)], tags, Counted(hosts, fs[i].dstHost),
        order1.(bulk := order1.bulk + [i]), arrived, left, -1)
  {
    RestateKeeps(fs, tags, hosts, Counted(hosts, fs[i].dstHost), order, order1.(bulk := order1.bulk + [i]), arrived,
        left, i, fs[i].(state := Bulk));
  }

  lemma DecayKeeps(fs: seq<Flow>, tags: seq<int>, hosts: seq<Host>, order: Order, order1: Order, arrived: seq<Packet>,
          left: seq<Packet>, i: int)
    requires 0 <= i < QUEUES && Sound(fs, tags, hosts, order, arrived, left, i)
    requires fs[i].state.Bulk? && Len(fs[i].q) == 0
    requires Refiled(order, order1, i, None)
    ensures Sound(fs[i := fs[i].(state := Decaying)], tags, Uncounted(hosts, fs[i].dstHost),
        order1.(decaying := order1.decaying + [i]), arrived, left, -1)
  {
    RestateKeeps(fs, tags, hosts, Uncounted(hosts, fs[i].dstHost), order, order1.(decaying := order1.decaying + [i]),
        arrived, left, i, fs[i].(state := Decaying));
  }

  /** A flow is zeroed; whatever it still held leaves, oldest first. */
  lemma ZeroKeeps(fs: seq<Flow>, tags: seq<int>, hosts: seq<Host>, hosts': seq<Host>, order: Order, order': Order,
          arrived: seq<Packet>, left: seq<Packet>, i: int)
    requires 0 <= i < QUEUES && Sound(fs, tags, hosts, order, arrived, left, i) && |hosts'| == HOSTS
    requires Refiled(order, order', i, None)
    requires forall h :: 0 <= h < HOSTS ==> 0 <= hosts'[h].bulk
    requires forall h :: 0 <= h < HOSTS ==> hosts'[h].bulk <= hosts[h].bulk - InHost(fs[i], h) || hosts'[h].bulk == 0
    ensures QueueOk(fs[i].q)
    ensures Sound(fs[i := FREE], tags, hosts', order', arrived, left + Contents(fs[i].q), -1)
  {
    assert FlowOk(fs[i], tags[i], false);
    FiledIn(fs, order, i, FREE, order');
    HostsAt(fs, hosts, hosts', i, FREE);
    assert Contents(FREE.q) == [];
    assert Contents(fs[i].q) == Contents(fs[i].q) + Contents(FREE.q);
    HistoryLeave(fs, tags, arrived, left, i, FREE, Contents(fs[i].q));
  }

  /** An unused slot takes or loses a tag. */
  lemma RetagKeeps(fs: seq<Flow>, tags: seq<int>, hosts: seq<Host>, order: Order, arrived: seq<Packet>,
          left: seq<Packet>, i: int, g: int)
    requires 0 <= i < QUEUES && Sound(fs, tags, hosts, order, arrived, left, -1) && fs[i].state.None?
    requires g == 0 || (g % SETS == i / WAYS && forall k :: 0 <= k < QUEUES && k / WAYS == i / WAYS ==> tags[k] != g)
    ensures Sound(fs, tags[i := g], hosts, order, arrived, left, -1)
  {
    assert FlowOk(fs[i], tags[i], true);
    assert Contents(fs[i].q) == [];
    assert g == 0 || g !in tags;
    HistoryRetag(fs, tags, arrived, left, i, g);
  }

  lemma EvictedEmpty(fs: seq<Flow>, tags: seq<int>, i: int)
    requires 0 <= i < QUEUES && QueuesOk(fs, tags, -1)
    ensures QueueOk(fs[i].q) && (Len(fs[i].q) == 0 ==> fs[i].backlog == 0)
  {
  }

  lemma AllEmptyWhenIdle(fs: seq<Flow>, tags: seq<int>)
    requires QueuesOk(fs, tags, -1)
    ensures forall i :: 0 <= i < QUEUES ==> QueueOk(fs[i].q) && (Len(fs[i].q) == 0 ==> fs[i].backlog == 0)
  {
  }

  lemma ReclaimKeeps(fs: seq<Flow>, tags: seq<int>, hosts: seq<Host>, order: Order, order': Order,
          arrived: seq<Packet>, left: seq<Packet>, i: int)
    requires 0 <= i < QUEUES && Sound(fs, tags, hosts, order, arrived, left, i) && Refiled(order, order', i, None)
    requires (fs[i].state.Sparse? || fs[i].state.Decaying?) && Len(fs[i].q) == 0
    ensures Sound(fs[i := FREE], tags[i := 0], hosts, order', arrived, left, -1)
  {
    ZeroKeeps(fs, tags, hosts, hosts, order, order', arrived, left, i);
    assert left + Contents(fs[i].q) == left;
    RetagKeeps(fs[i := FREE], tags, hosts, order', arrived, left, i, 0);
  }

  lemma EvictKeeps(fs: seq<Flow>, tags: seq<int>, hosts: seq<Host>, order: Order, order': Order, arrived: seq<Packet>,
          left: seq<Packet>, i: int)
    requires 0 <= i < QUEUES && Sound(fs, tags, hosts, order, arrived, left, -1) && Refiled(order, order', i, None)
        && QueueOk(fs[i].q)
    ensures Sound(fs[i := FREE], tags, if fs[i].state.Bulk? then Uncounted(hosts, fs[i].dstHost) else hosts, order',
        arrived, left + Contents(fs[i].q), -1)
  {
    ZeroKeeps(fs, tags, hosts, if fs[i].state.Bulk? then Uncounted(hosts, fs[i].dstHost) else hosts, order, order',
        arrived, left, i);
  }

  /** A tag nobody in its set carries goes to an unused way of that set. */
  lemma ClaimKeeps(fs: seq<Flow>, tags: seq<int>, hosts: seq<Host>, order: Order, arrived: seq<Packet>,
          left: seq<Packet>, i: int, tag: int)
    requires 0 <= i < QUEUES && Sound(fs, tags, hosts, order, arrived, left, -1) && 0 < tag < U32
    requires fs[i].state.None? && tag % SETS * WAYS <= i < tag % SETS * WAYS + WAYS
    requires forall k :: tag % SETS * WAYS <= k < tag % SETS * WAYS + WAYS ==> tags[k] != tag
    ensures Sound(fs, tags[i := tag], hosts, order, arrived, left, -1)
  {
    RetagKeeps(fs, tags, hosts, order, arrived, left, i, tag);
  }
}
