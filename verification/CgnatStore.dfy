/** The CGNAT session store: the shared session pool, its two lookup tables, each mapping's intrusive
    session list, the port blocks, and every way a session or a mapping comes to an end. */
module CgnatStore {
  import opened FlowLists
  import opened SessionList
  import Checksum
  import Sums

  type u32 = x: int | 0 <= x < 0x1_0000_0000
  type u16 = Checksum.u16

  const MAX_SESSIONS: int := 0x8_0000
  const COOLDOWN: real := 120.0
  const TCP: u16 := 6
  const UDP: u16 := 17
  const ICMP: u16 := 1

  /** One direction's match: addresses, ports, protocol and the full fib index. */
  datatype Tuple = Tuple(saddr: u32, daddr: u32, sport: u16, dport: u16, proto: u16, fib: int)

  /** The 16-byte key a tuple is looked up by; only the low half of the fib index fits. */
  datatype Key = Key(saddr: u32, daddr: u32, sport: u16, dport: u16, proto: u16, fibLo: int)

  function MakeKey(t: Tuple): Key { Key(t.saddr, t.daddr, t.sport, t.dport, t.proto, t.fib % 0x1_0000) }

  datatype Session = Session(i2o: Tuple, o2i: Tuple, outsidePort: u16, mapping: int, pool: int, lastActive: real,
      timeout: real)

  datatype Mapping = Mapping(insideIp: u32, outsideIp: u32, fib: int, blockStart: int, blockEnd: int, pool: int,
      sw: int,
                             nextPort: int, count: int, head: int, reuse: seq<real>)

  datatype Pool = Pool(maxSessions: nat, fibValid: bool, outFib: int)

  datatype Inside = Inside(ip: u32, fib: int)

  function InsideKey(m: Mapping): Inside { Inside(m.insideIp, m.fib) }

  predicate PortBearing(proto: u16) { proto == TCP || proto == UDP || proto == ICMP }

  /** ICMP echo has no destination port: the identifier stands in both slots of both tuples. */
  function I2o(m: Mapping, remote: u32, remotePort: u16, proto: u16, insidePort: u16): Tuple {
    Tuple(m.insideIp, remote, insidePort, if proto == ICMP then insidePort else remotePort, proto, m.fib)
  }

  function O2i(m: Mapping, p: Pool, remote: u32, remotePort: u16, proto: u16, outsidePort: u16): Tuple {
    Tuple(m.outsideIp, remote, outsidePort, if proto == ICMP then outsidePort else remotePort, proto,
          if p.fibValid then p.outFib else 0)
  }

  // ---------------------------------------------------------------- the invariants

  /** Live sessions and inside entries match one to one; an outside entry always leads to a live session
      with that very key. */
  ghost predicate IndexOk(ss: map<int, Session>, in2out: map<Key, int>, out2in: map<Key, int>) {
    && (forall si :: si in ss ==> MakeKey(ss[si].i2o) in in2out && in2out[MakeKey(ss[si].i2o)] == si)
    && (forall k :: k in in2out ==> in2out[k] in ss && MakeKey(ss[in2out[k]].i2o) == k)
    && (forall k :: k in out2in ==> out2in[k] in ss && MakeKey(ss[out2in[k]].o2i) == k)
  }

  ghost predicate OwnersOk(ss: map<int, Session>, ms: map<int, Mapping>) {
    forall si :: si in ss ==> ss[si].mapping in ms && ss[si].pool == ms[ss[si].mapping].pool
  }

  /** A mapping's list is exactly its live sessions, and its counter is the list's length. */
  ghost predicate ListOk(ss: map<int, Session>, links: map<int, Link>, m: int, mapping: Mapping, l: seq<int>) {
    && Chain(links, mapping.head, l) && mapping.count == |l|
    && (forall si :: si in l <==> si in ss && ss[si].mapping == m)
  }

  ghost predicate ListsOk(ss: map<int, Session>, links: map<int, Link>, ms: map<int, Mapping>,
                          lists: map<int, seq<int>>) {
    && links.Keys == ss.Keys && lists.Keys == ms.Keys
    && (forall si :: si in ss ==> 0 <= si < MAX_SESSIONS)
    && (forall m :: m in ms ==> ListOk(ss, links, m, ms[m], lists[m]))
  }

  /** A subscriber has at most one mapping, and is looked up by address and fib. */
  ghost predicate InsideOk(ms: map<int, Mapping>, inside: map<Inside, int>) {
    && (forall m :: m in ms ==> InsideKey(ms[m]) in inside && inside[InsideKey(ms[m])] == m)
    && (forall k :: k in inside ==> inside[k] in ms && InsideKey(ms[inside[k]]) == k)
  }

  /** The port cursor never leaves the block, and each port of the block has its release time. */
  predicate BlockOk(m: Mapping) {
    && 0 <= m.blockStart <= m.nextPort <= m.blockEnd <= 0xFFFF
    && |m.reuse| == m.blockEnd - m.blockStart + 1
  }

  ghost predicate BlocksOk(ms: map<int, Mapping>, pools: map<int, Pool>) {
    forall m :: m in ms ==> BlockOk(ms[m]) && ms[m].pool in pools
  }

  /** What a session cached of its pool's outside fib is still true. */
  ghost predicate FibsOk(ss: map<int, Session>, pools: map<int, Pool>) {
    forall si :: si in ss ==>
        ss[si].pool in pools && pools[ss[si].pool].fibValid && ss[si].o2i.fib == pools[ss[si].pool].outFib
  }

  // ---------------------------------------------------------------- creation and deletion, concern by concern

  lemma CreateIndex(ss: map<int, Session>, in2out: map<Key, int>, out2in: map<Key, int>, si: int, s: Session)
    requires IndexOk(ss, in2out, out2in) && si !in ss && MakeKey(s.i2o) !in in2out
    ensures IndexOk(ss[si := s], in2out[MakeKey(s.i2o) := si], out2in[MakeKey(s.o2i) := si])
  {
  }

  lemma DeleteIndex(ss: map<int, Session>, in2out: map<Key, int>, out2in: map<Key, int>, si: int)
    requires IndexOk(ss, in2out, out2in) && si in ss
    ensures IndexOk(ss - {si}, in2out - {MakeKey(ss[si].i2o)}, out2in - {MakeKey(ss[si].o2i)})
  {
  }

  lemma CreateLists(ss: map<int, Session>, links: map<int, Link>, ms: map<int, Mapping>, lists: map<int, seq<int>>,
          si: int, s: Session)
    requires ListsOk(ss, links, ms, lists) && OwnersOk(ss, ms) && si !in ss && 0 <= si < MAX_SESSIONS && s.mapping in ms
    ensures var m := s.mapping;
            ListsOk(ss[si := s], Inserted(links, ms[m].head, si),
                ms[m := ms[m].(count := ms[m].count + 1, head := si)], lists[m := [si] + lists[m]])
  {
    var m := s.mapping;
    var head := ms[m].head;
    var ss', links' := ss[si := s], Inserted(links, head, si);
    assert ListOk(ss, links, m, ms[m], lists[m]);
    assert head != NIL ==> head in lists[m] && head in ss && ss[head].mapping == m;
    assert links'.Keys == ss'.Keys;
    forall n | n in ms
      ensures n == m ==> ListOk(ss', links', m, ms[m].(count := ms[m].count + 1, head := si), [si] + lists[m])
      ensures n != m ==> ListOk(ss', links', n, ms[n], lists[n])
    {
      assert ListOk(ss, links, n, ms[n], lists[n]);
      if n == m {
        InsertOk(links, head, lists[m], si);
      } else {
        InsertElsewhere(links, head, si, ms[n].head, lists[n]);
      }
    }
  }

  lemma DeleteLists(ss: map<int, Session>, links: map<int, Link>, ms: map<int, Mapping>, lists: map<int, seq<int>>,
          si: int, mapping': Mapping)
    requires ListsOk(ss, links, ms, lists) && OwnersOk(ss, ms) && si in ss
    requires mapping'.head == HeadAfter(links, ms[ss[si].mapping].head, si)
        && mapping'.count == ms[ss[si].mapping].count - 1
    ensures var m := ss[si].mapping;
            && si in lists[m]
            && ListsOk(ss - {si}, Unlinked(links, si), ms[m := mapping'], lists[m := Without(lists[m], si)])
  {
    var m := ss[si].mapping;
    var ss', links' := ss - {si}, Unlinked(links, si);
    assert ListOk(ss, links, m, ms[m], lists[m]);
    NeighboursOf(links, ms[m].head, lists[m], si);
    assert links'.Keys == ss'.Keys by {
      assert links[si].prev == NIL || links[si].prev in lists[m];
      assert links[si].next == NIL || links[si].next in lists[m];
    }
    forall n | n in ms
      ensures n == m ==> ListOk(ss', links', m, mapping', Without(lists[m], si))
      ensures n != m ==> ListOk(ss', links', n, ms[n], lists[n])
    {
      assert ListOk(ss, links, n, ms[n], lists[n]);
      if n == m {
        UnlinkOk(links, ms[m].head, lists[m], si);
        WithoutMembers(lists[m], si, NIL);
      } else {
        OtherLists(ss, links, ms, lists, m, n, si);
        UnlinkElsewhere(links, si, ms[n].head, lists[n]);
      }
    }
  }

  lemma OtherLists(ss: map<int, Session>, links: map<int, Link>, ms: map<int, Mapping>, lists: map<int, seq<int>>,
          m: int, n: int, si: int)
    requires ListsOk(ss, links, ms, lists) && m in ms && n in ms && n != m && si in ss && ss[si].mapping == m
    requires (links[si].prev == NIL || links[si].prev in lists[m])
        && (links[si].next == NIL || links[si].next in lists[m])
    ensures si !in lists[n] && links[si].prev !in lists[n] && links[si].next !in lists[n]
  {
  }

  /** The two tuples of a session share the remote end and the protocol, and the outside one carries the
      session's port. */
  predicate Twin(s: Session) {
    && s.o2i.daddr == s.i2o.daddr && s.o2i.proto == s.i2o.proto && s.o2i.sport == s.outsidePort
    && (if s.i2o.proto == ICMP then s.i2o.dport == s.i2o.sport
       && s.o2i.dport == s.o2i.sport else s.o2i.dport == s.i2o.dport)
  }

  /** A session's near ends are its mapping's: the inside address and fib, and the outside address. */
  ghost predicate SidesOk(ss: map<int, Session>, ms: map<int, Mapping>) {
    forall si :: si in ss ==>
      && ss[si].mapping in ms
      && ss[si].i2o.saddr == ms[ss[si].mapping].insideIp && ss[si].i2o.fib == ms[ss[si].mapping].fib
      && ss[si].o2i.saddr == ms[ss[si].mapping].outsideIp
  }

  ghost predicate TwinsOk(ss: map<int, Session>) { forall si :: si in ss ==> Twin(ss[si]) }

  /** The whole store. */
  ghost predicate Consistent(ss: map<int, Session>, links: map<int, Link>, in2out: map<Key, int>,
                             out2in: map<Key, int>, ms: map<int, Mapping>,
                             inside: map<Inside, int>, pools: map<int, Pool>, lists: map<int, seq<int>>) {
    && IndexOk(ss, in2out, out2in) && OwnersOk(ss, ms) && ListsOk(ss, links, ms, lists)
    && InsideOk(ms, inside) && BlocksOk(ms, pools) && FibsOk(ss, pools) && TwinsOk(ss) && SidesOk(ss, ms)
  }

  function NewSession(ms: map<int, Mapping>, pools: map<int, Pool>, m: int, remote: u32, remotePort: u16, proto: u16,
          outsidePort: u16, insidePort: u16,
                      now: real, timeout: real): Session
    requires m in ms && ms[m].pool in pools
  {
    Session(I2o(ms[m], remote, remotePort, proto, insidePort),
        O2i(ms[m], pools[ms[m].pool], remote, remotePort, proto, outsidePort),
            outsidePort, m, ms[m].pool, now, timeout)
  }

  lemma CreateKeeps(ss: map<int, Session>, links: map<int, Link>, in2out: map<Key, int>, out2in: map<Key, int>,
                    ms: map<int, Mapping>, inside: map<Inside, int>, pools: map<int, Pool>,
                    lists: map<int, seq<int>>, si: int, s: Session)
    requires Consistent(ss, links, in2out, out2in, ms, inside, pools, lists)
    requires si !in ss && 0 <= si < MAX_SESSIONS && MakeKey(s.i2o) !in in2out && s.mapping in ms
    requires s.pool == ms[s.mapping].pool && s.pool in pools && pools[s.pool].fibValid
        && s.o2i.fib == pools[s.pool].outFib && Twin(s)
    requires var o := ms[s.mapping]; s.i2o.saddr == o.insideIp && s.i2o.fib == o.fib && s.o2i.saddr == o.outsideIp
    ensures var m := s.mapping;
            && m in lists
            && Consistent(ss[si := s], Inserted(links, ms[m].head, si), in2out[MakeKey(s.i2o) := si],
               out2in[MakeKey(s.o2i) := si],
                          ms[m := ms[m].(count := ms[m].count + 1, head := si)], inside, pools,
                              lists[m := [si] + lists[m]])
  {
    CreateIndex(ss, in2out, out2in, si, s);
    CreateLists(ss, links, ms, lists, si, s);
  }

  /** What a deletion leaves of the session's mapping: its head and count move on, and the port starts
      its rest. */
  function Bereft(ss: map<int, Session>, links: map<int, Link>, ms: map<int, Mapping>, si: int, now: real): Mapping
    requires si in ss && si in links && ss[si].mapping in ms && BlockOk(ms[ss[si].mapping])
  {
    var s, o := ss[si], ms[ss[si].mapping];
    var rested := if PortBearing(s.i2o.proto) then Rested(o, s.outsidePort, now) else o;
    rested.(count := if o.count > 0 then o.count - 1 else o.count, head := HeadAfter(links, o.head, si))
  }

  /** A released port of the block starts its rest. */
  function Rested(o: Mapping, port: int, now: real): Mapping
    requires BlockOk(o)
  {
    if o.blockStart <= port <= o.blockEnd then o.(reuse := o.reuse[port - o.blockStart := now]) else o
  }

  lemma DeleteKeeps(ss: map<int, Session>, links: map<int, Link>, in2out: map<Key, int>, out2in: map<Key, int>,
                    ms: map<int, Mapping>, inside: map<Inside, int>, pools: map<int, Pool>,
                    lists: map<int, seq<int>>, si: int, now: real)
    requires Consistent(ss, links, in2out, out2in, ms, inside, pools, lists) && si in ss
    ensures var m := ss[si].mapping;
            && si in links && m in ms && BlockOk(ms[m]) && m in lists && si in lists[m]
            && Consistent(ss - {si}, Unlinked(links, si), in2out - {MakeKey(ss[si].i2o)},
               out2in - {MakeKey(ss[si].o2i)},
                          ms[m := Bereft(ss, links, ms, si, now)], inside, pools, lists[m := Without(lists[m], si)])
  {
    var m := ss[si].mapping;
    assert ListOk(ss, links, m, ms[m], lists[m]);
    assert si in lists[m];
    DeleteIndex(ss, in2out, out2in, si);
    DeleteLists(ss, links, ms, lists, si, Bereft(ss, links, ms, si, now));
    DeleteRest(ss, ms, inside, pools, si, Bereft(ss, links, ms, si, now));
    hide IndexOk, ListsOk, ListOk, OwnersOk, InsideOk, BlocksOk, FibsOk, SidesOk;
  }

  lemma DeleteRest(ss: map<int, Session>, ms: map<int, Mapping>, inside: map<Inside, int>, pools: map<int, Pool>,
          si: int, o: Mapping)
    requires OwnersOk(ss, ms) && InsideOk(ms, inside) && BlocksOk(ms, pools) && FibsOk(ss, pools) && si in ss
    requires SidesOk(ss, ms)
    requires o == ms[ss[si].mapping].(reuse := o.reuse, count := o.count, head := o.head) && BlockOk(o)
    ensures var m := ss[si].mapping;
            OwnersOk(ss - {si}, ms[m := o]) && InsideOk(ms[m := o], inside) && BlocksOk(ms[m := o], pools)
                && FibsOk(ss - {si}, pools) && SidesOk(ss - {si}, ms[m := o])
  {
  }

  lemma AddKeeps(ss: map<int, Session>, links: map<int, Link>, in2out: map<Key, int>, out2in: map<Key, int>,
                 ms: map<int, Mapping>, inside: map<Inside, int>, pools: map<int, Pool>,
                 lists: map<int, seq<int>>, k: Inside, m: int, o: Mapping)
    requires Consistent(ss, links, in2out, out2in, ms, inside, pools, lists)
    requires m !in ms && k !in inside && InsideKey(o) == k && BlockOk(o) && o.count == 0 && o.head == NIL
        && o.pool in pools
    ensures m !in lists && Consistent(ss, links, in2out, out2in, ms[m := o], inside[k := m], pools, lists[m := []])
  {
  }

  lemma KeysOfLists(ss: map<int, Session>, links: map<int, Link>, in2out: map<Key, int>, out2in: map<Key, int>,
                    ms: map<int, Mapping>, inside: map<Inside, int>, pools: map<int, Pool>, lists: map<int, seq<int>>)
    requires Consistent(ss, links, in2out, out2in, ms, inside, pools, lists)
    ensures lists.Keys == ms.Keys
  {
  }

  lemma NobodyIn(l: seq<int>)
    requires forall x :: x !in l
    ensures l == []
  {
    if l != [] {
      var x := FirstIn(l);
      assert false;
    }
  }

  lemma FirstIn(l: seq<int>) returns (x: int)
    requires l != []
    ensures x in l
  {
    x := l[0];
  }

  lemma Undo<K, V>(m: map<K, V>, k: K, v: V)
    requires k !in m
    ensures m[k := v] - {k} == m
  {
  }

  /** The same mappings, for the same subscribers, of the same pools. */
  ghost predicate SameMappings(before: map<int, Mapping>, after: map<int, Mapping>) {
    && after.Keys == before.Keys
    && forall m :: m in after ==>
        InsideKey(after[m]) == InsideKey(before[m]) && after[m].pool == before[m].pool
  }

  // ---------------------------------------------------------------- reachability from outside

  /** The outside table leads to the session. */
  predicate Reached(ss: map<int, Session>, out2in: map<Key, int>, si: int)
    requires si in ss
  {
    MakeKey(ss[si].o2i) in out2in && out2in[MakeKey(ss[si].o2i)] == si
  }

  predicate AllReached(ss: map<int, Session>, out2in: map<Key, int>) {
    forall si :: si in ss ==> Reached(ss, out2in, si)
  }

  /** A creation leaves every session reachable exactly when every one was and none of them has the new
      session's outside key. */
  lemma CreateReaches(ss: map<int, Session>, out2in: map<Key, int>, si: int, s: Session)
    requires si !in ss
    ensures var ss', out2in' := ss[si := s], out2in[MakeKey(s.o2i) := si];
            && Reached(ss', out2in', si)
            && (forall sj :: sj in ss ==>
                  (Reached(ss', out2in', sj) <==> Reached(ss, out2in, sj) && MakeKey(ss[sj].o2i) != MakeKey(s.o2i)))
            && (AllReached(ss', out2in') <==>
                AllReached(ss, out2in) && forall sj :: sj in ss ==> MakeKey(ss[sj].o2i) != MakeKey(s.o2i))
  {
    var ss', out2in' := ss[si := s], out2in[MakeKey(s.o2i) := si];
    forall sj | sj in ss
      ensures Reached(ss', out2in', sj) <==> Reached(ss, out2in, sj) && MakeKey(ss[sj].o2i) != MakeKey(s.o2i)
    {
    }
    if AllReached(ss', out2in') {
      assert forall sj :: sj in ss ==> sj in ss' && Reached(ss', out2in', sj);
    }
  }

  /** A deletion removes the outside entry of its key, whoever it leads to: another session stays
      reachable exactly when it was and has a key of its own. */
  lemma DeleteReaches(ss: map<int, Session>, out2in: map<Key, int>, si: int, sj: int)
    requires si in ss && sj in ss && sj != si
    ensures Reached(ss - {si}, out2in - {MakeKey(ss[si].o2i)}, sj) <==>
            Reached(ss, out2in, sj) && MakeKey(ss[sj].o2i) != MakeKey(ss[si].o2i)
  {
  }

  // ---------------------------------------------------------------- ports of a block

  function BlockSize(m: Mapping): int { m.blockEnd - m.blockStart + 1 }

  /** The j-th port tried, counting from the cursor and wrapping at the end of the block. */
  function Probe(m: Mapping, j: int): int
    requires BlockOk(m) && 0 <= j <= BlockSize(m)
  {
    if m.nextPort + j <= m.blockEnd then m.nextPort + j else m.nextPort + j - BlockSize(m)
  }

  /** A released port rests for 120 seconds; one never released has no time. */
  predicate Cooling(m: Mapping, port: int, now: real)
    requires BlockOk(m) && m.blockStart <= port <= m.blockEnd
  {
    m.reuse[port - m.blockStart] > 0.0 && now - m.reuse[port - m.blockStart] < COOLDOWN
  }

  /** Every port of the block is tried once. */
  function Turn(m: Mapping, port: int): (j: int)
    requires BlockOk(m) && m.blockStart <= port <= m.blockEnd
    ensures 0 <= j < BlockSize(m) && Probe(m, j) == port
    ensures forall i :: 0 <= i < BlockSize(m) && Probe(m, i) == port ==> i == j
  {
    if port >= m.nextPort then port - m.nextPort else port - m.nextPort + BlockSize(m)
  }

  /** How many ports are passed over, from the j-th on, before one that is not resting. */
  function Tries(m: Mapping, now: real, j: int): (t: int)
    requires BlockOk(m) && 0 <= j <= BlockSize(m)
    ensures j <= t <= BlockSize(m)
    ensures forall i :: j <= i < t ==> Cooling(m, Probe(m, i), now)
    ensures t < BlockSize(m) ==> !Cooling(m, Probe(m, t), now)
    decreases BlockSize(m) - j
  {
    if j < BlockSize(m) && Cooling(m, Probe(m, j), now) then Tries(m, now, j + 1) else j
  }

  predicate AllRest(m: Mapping, now: real)
    requires BlockOk(m)
  {
    forall port :: m.blockStart <= port <= m.blockEnd ==> Cooling(m, port, now)
  }

  /** The first port that is not resting, and 0 when all are. */
  function Granted(m: Mapping, now: real): u16
    requires BlockOk(m)
  {
    var t := Tries(m, now, 0);
    if t == BlockSize(m) then 0 else Probe(m, t)
  }

  /** port is not resting and every port tried before it is. */
  predicate First(m: Mapping, port: int, now: real)
    requires BlockOk(m)
  {
    && m.blockStart <= port <= m.blockEnd && !Cooling(m, port, now)
    && forall j :: 0 <= j < Turn(m, port) ==> Cooling(m, Probe(m, j), now)
  }

  lemma GrantedIsFirst(m: Mapping, now: real)
    requires BlockOk(m)
    ensures AllRest(m, now) <==> Tries(m, now, 0) == BlockSize(m)
    ensures AllRest(m, now) ==> Granted(m, now) == 0
    ensures !AllRest(m, now) ==> First(m, Granted(m, now), now)
    ensures forall port :: First(m, port, now) ==> !AllRest(m, now) && port == Granted(m, now)
  {
    var t := Tries(m, now, 0);
    if t == BlockSize(m) {
      forall port | m.blockStart <= port <= m.blockEnd
        ensures Cooling(m, port, now)
      {
        assert Probe(m, Turn(m, port)) == port;
      }
    } else {
      assert Turn(m, Probe(m, t)) == t;
    }
    forall port | First(m, port, now)
      ensures !AllRest(m, now) && port == Granted(m, now)
    {
      assert Probe(m, Turn(m, port)) == port;
    }
  }

  /** A live session of the mapping holds the port. */
  predicate Held(ss: map<int, Session>, m: int, port: int) {
    exists si :: si in ss && ss[si].mapping == m && PortBearing(ss[si].i2o.proto) && ss[si].outsidePort == port
  }

  /** The allocator looks at release times only: it hands out a port that is in use exactly when a live
      session holds the first port that is not resting. */
  lemma GrantsHeldIff(ss: map<int, Session>, m: int, o: Mapping, now: real)
    requires BlockOk(o)
    ensures (!AllRest(o, now) && Held(ss, m, Granted(o, now))) <==>
            exists si :: si in ss && ss[si].mapping == m && PortBearing(ss[si].i2o.proto)
                && First(o, ss[si].outsidePort, now)
  {
    GrantedIsFirst(o, now);
  }

  /** A mapping after it granted a port: the cursor stands behind it. */
  function Advanced(o: Mapping, now: real): Mapping
    requires BlockOk(o)
  {
    var t := Tries(o, now, 0);
    o.(nextPort := if t == BlockSize(o) then o.nextPort else Probe(o, t + 1))
  }

  /** A grant in release times. */
  lemma GrantIs(o: Mapping, now: real)
    requires BlockOk(o)
    ensures var port, o' := Granted(o, now), Advanced(o, now);
            && (port != 0 ==>
                  && o.blockStart <= port <= o.blockEnd
                  && (o.reuse[port - o.blockStart] <= 0.0 || now - o.reuse[port - o.blockStart] >= 120.0)
                  && o'.nextPort == (if port == o.blockEnd then o.blockStart else port + 1))
            && (port != 0 ==>
                  var c, g := o.nextPort - o.blockStart, port - o.blockStart;
                  forall i :: 0 <= i < |o.reuse| && (if g >= c then c <= i < g else i < g || c <= i) ==>
                                o.reuse[i] > 0.0 && now - o.reuse[i] < 120.0)
            && (port == 0 && o.blockStart > 0 ==>
                  forall i :: 0 <= i < |o.reuse| ==> o.reuse[i] > 0.0 && now - o.reuse[i] < 120.0)
  {
    GrantedIsFirst(o, now);
    var port := Granted(o, now);
    if port != 0 {
      var c, g := o.nextPort - o.blockStart, port - o.blockStart;
      forall i | 0 <= i < |o.reuse| && (if g >= c then c <= i < g else i < g || c <= i)
        ensures o.reuse[i] > 0.0 && now - o.reuse[i] < 120.0
      {
        var q := o.blockStart + i;
        assert Turn(o, q) < Turn(o, port);
        assert Probe(o, Turn(o, q)) == q && Cooling(o, q, now);
      }
    } else if o.blockStart > 0 {
      forall i | 0 <= i < |o.reuse|
        ensures o.reuse[i] > 0.0 && now - o.reuse[i] < 120.0
      {
        assert Cooling(o, o.blockStart + i, now);
      }
    }
  }

  /** A port granted again while its session lives: a later allocation from the same release times comes
      back to it exactly when every other port of the block is resting. */
  lemma GrantedAgainIff(o: Mapping, o': Mapping, t1: real, t2: real)
    requires BlockOk(o) && BlockOk(o') && t1 <= t2 && !AllRest(o, t1)
    requires o'.blockStart == o.blockStart && o'.blockEnd == o.blockEnd && o'.reuse == o.reuse
        && o'.nextPort == Advanced(o, t1).nextPort
    ensures var p := Granted(o, t1);
            && !AllRest(o', t2) && o.blockStart <= p <= o.blockEnd
            && (Granted(o', t2) == p <==> forall q :: o.blockStart <= q <= o.blockEnd && q != p ==> Cooling(o, q, t2))
  {
    GrantedIsFirst(o, t1);
    GrantedIsFirst(o', t2);
    var p := Granted(o, t1);
    assert !Cooling(o', p, t2);
    assert Turn(o', p) == BlockSize(o) - 1;
    if First(o', p, t2) {
      forall q | o.blockStart <= q <= o.blockEnd && q != p
        ensures Cooling(o, q, t2)
      {
        assert Probe(o', Turn(o', q)) == q;
      }
    }
    if forall q :: o.blockStart <= q <= o.blockEnd && q != p ==> Cooling(o, q, t2) {
      forall j | 0 <= j < BlockSize(o) - 1
        ensures Cooling(o', Probe(o', j), t2)
      {
        assert o.blockStart <= Probe(o', j) <= o.blockEnd && Probe(o', j) != p;
        assert Cooling(o, Probe(o', j), t2);
      }
      assert First(o', p, t2);
    }
  }

  datatype Verdict = NoMapping | NoPool | Existing | PortExhausted | SessionLimit | CreatedNew

  datatype AddResult = Added | Unchanged | NeedsRefresh | NoSuchPool | NoSuchTable | RolledBack

  datatype DeleteResult = Gone | MissingPool | MissingTable

  datatype FibResult = FibSet | InUse | NoPoolToSet | NoSuchFib

  class Store {
    var sessions: map<int, Session>
    var links: map<int, Link>
    var in2out: map<Key, int>
    var out2in: map<Key, int>
    var mappings: map<int, Mapping>
    var inside: map<Inside, int>
    var pools: map<int, Pool>

    /** Each mapping's sessions, in list order. */
    ghost var lists: map<int, seq<int>>

    ghost predicate Valid()
      reads this
    {
      Consistent(sessions, links, in2out, out2in, mappings, inside, pools, lists)
    }

    lemma MappingFacts(m: int)
      requires Valid() && m in mappings
      ensures mappings[m].pool in pools && BlockOk(mappings[m]) && m in lists
      ensures ListOk(sessions, links, m, mappings[m], lists[m])
      ensures InsideKey(mappings[m]) in inside && inside[InsideKey(mappings[m])] == m
    {
    }

    constructor ()
      ensures Valid() && sessions == map[] && mappings == map[] && pools == map[]
    {
      sessions, links, in2out, out2in, mappings, inside, pools, lists := map[], map[], map[], map[], map[], map[],
          map[], map[];
    }

    /** cgnat_session_lookup_in2out. */
    method LookupIn2out(t: Tuple) returns (si: int)
      requires Valid()
      ensures si != -1 ==> si in sessions && MakeKey(sessions[si].i2o) == MakeKey(t)
      ensures if MakeKey(t) in in2out then si == in2out[MakeKey(t)] >= 0 else si == -1
      ensures si == -1 ==> forall x :: x in sessions ==> MakeKey(sessions[x].i2o) != MakeKey(t)
    {
      if MakeKey(t) in in2out {
        si := in2out[MakeKey(t)];
        assert si in sessions && 0 <= si;
      } else {
        si := -1;
      }
    }

    /** cgnat_session_lookup_out2in. */
    method LookupOut2in(t: Tuple) returns (si: int)
      requires Valid()
      ensures si != -1 ==> si in sessions && MakeKey(sessions[si].o2i) == MakeKey(t)
      ensures if MakeKey(t) in out2in then si == out2in[MakeKey(t)] >= 0 else si == -1
    {
      if MakeKey(t) in out2in {
        si := out2in[MakeKey(t)];
        assert si in sessions && 0 <= si;
      } else {
        si := -1;
      }
    }

    /** cgnat_port_alloc: the first port from the cursor on that is not resting, and 0 if there is none.
        A block that starts at port 0 can also yield 0, which callers take for exhaustion. */
    method PortAlloc(m: int, now: real) returns (port: u16)
      requires Valid() && m in mappings
      modifies `mappings
      ensures Valid() && mappings.Keys == old(mappings.Keys)
      ensures BlockOk(old(mappings[m])) && mappings == old(mappings)[m := Advanced(old(mappings[m]), now)]
      ensures if AllRest(old(mappings[m]), now) then port == 0 else First(old(mappings[m]), port, now)
      ensures port == Granted(old(mappings[m]), now)
      // In times: a port released less than 120 seconds ago rests. Every port from the cursor up to the one
      // granted rests, that one does not, and the cursor moves behind it; without one, all rest.
      ensures var o := old(mappings[m]);
              && |o.reuse| == o.blockEnd - o.blockStart + 1
              && (port != 0 ==>
                    && o.blockStart <= port <= o.blockEnd
                    && (o.reuse[port - o.blockStart] <= 0.0 || now - o.reuse[port - o.blockStart] >= 120.0)
                    && mappings[m].nextPort == (if port == o.blockEnd then o.blockStart else port + 1))
              && (port != 0 ==>
                    var c, g := o.nextPort - o.blockStart, port - o.blockStart;
                    forall i :: 0 <= i < |o.reuse| && (if g >= c then c <= i < g else i < g || c <= i) ==>
                                  o.reuse[i] > 0.0 && now - o.reuse[i] < 120.0)
              && (port == 0 && o.blockStart > 0 ==>
                    forall i :: 0 <= i < |o.reuse| ==> o.reuse[i] > 0.0 && now - o.reuse[i] < 120.0)
    {
      GrantIs(mappings[m], now);
      GrantedIsFirst(mappings[m], now);
      hide Granted, First, AllRest, Tries, Probe;
      var o := mappings[m];
      var cursor;
      port, cursor := NextPort(o, now);
      mappings := mappings[m := o.(nextPort := cursor)];
      KeptFrame(old(mappings), mappings, m);
    }

    /** The allocator's loop: from the cursor on, the first port that does not rest, and the cursor behind it. */
    method NextPort(o: Mapping, now: real) returns (port: u16, cursor: int)
      requires BlockOk(o)
      ensures port == Granted(o, now) && cursor == Advanced(o, now).nextPort
    {
      ghost var tries := 0;
      port := 0;
      cursor := o.nextPort;
      var left := BlockSize(o);
      while left > 0
        invariant 0 <= left <= BlockSize(o) && tries == BlockSize(o) - left && port == 0
        invariant cursor == Probe(o, tries) && Tries(o, now, 0) == Tries(o, now, tries)
      {
        var p := cursor;
        cursor := if cursor + 1 > o.blockEnd then o.blockStart else cursor + 1;
        if !Cooling(o, p, now) {
          port := p;
          break;
        }
        left, tries := left - 1, tries + 1;
      }
    }

    /** A change to a mapping's cursor or release times disturbs nothing else. */
    lemma KeptFrame(before: map<int, Mapping>, after: map<int, Mapping>, m: int)
      requires m in before && m in after && after == before[m := after[m]] && BlockOk(after[m])
      requires after[m] == before[m].(nextPort := after[m].nextPort, reuse := after[m].reuse)
      requires OwnersOk(sessions, before) && ListsOk(sessions, links, before, lists) && InsideOk(before, inside)
          && BlocksOk(before, pools)
      ensures OwnersOk(sessions, after) && ListsOk(sessions, links, after, lists) && InsideOk(after, inside)
          && BlocksOk(after, pools)
    {
      forall n | n in after
        ensures ListOk(sessions, links, n, after[n], lists[n])
      {
        assert ListOk(sessions, links, n, before[n], lists[n]);
      }
    }

    /** cgnat_port_free. */
    method PortFree(m: int, port: int, now: real)
      requires Valid() && m in mappings
      modifies `mappings
      ensures Valid() && mappings == old(mappings)[m := Rested(old(mappings[m]), port, now)]
      ensures var o := old(mappings[m]);
              && |o.reuse| == o.blockEnd - o.blockStart + 1
              && mappings[m] == if o.blockStart <= port <= o.blockEnd
                                then o.(reuse := o.reuse[port - o.blockStart := now]) else o
    {
      mappings := mappings[m := Rested(mappings[m], port, now)];
      KeptFrame(old(mappings), mappings, m);
    }

    /** Every session carries its mapping's ends and its pool's fib, whatever happened since it was made. */
    lemma EndsAreMappings(si: int)
      requires Valid() && si in sessions
      ensures var s := sessions[si];
              && s.mapping in mappings && s.pool == mappings[s.mapping].pool && s.pool in pools
              && s.i2o.saddr == mappings[s.mapping].insideIp && s.i2o.fib == mappings[s.mapping].fib
              && s.o2i.saddr == mappings[s.mapping].outsideIp && s.o2i.fib == pools[s.pool].outFib
              && s.o2i.daddr == s.i2o.daddr && s.o2i.proto == s.i2o.proto && s.o2i.sport == s.outsidePort
    {
    }

    /** cgnat_session_create. The pool allocator's choice of slot is its own; the caller has looked the
        inside key up and found nothing. */
    method Create(m: int, remote: u32, remotePort: u16, proto: u16, outsidePort: u16, insidePort: u16, now: real,
            timeout: real, slot: int) returns (ok: bool)
      requires Valid() && m in mappings && pools[mappings[m].pool].fibValid
      requires |sessions| < MAX_SESSIONS ==> 0 <= slot < MAX_SESSIONS && slot !in sessions
      requires MakeKey(I2o(mappings[m], remote, remotePort, proto, insidePort)) !in in2out
      modifies `sessions, `links, `in2out, `out2in, `mappings, `lists
      ensures Valid() && m in old(lists)
      ensures ok <==>
          old(mappings[m].count) < pools[old(mappings[m].pool)].maxSessions && |old(sessions)| < MAX_SESSIONS
      ensures var s := NewSession(old(mappings), pools, m, remote, remotePort, proto, outsidePort, insidePort, now,
          timeout);
              if ok then
                && sessions == old(sessions)[slot := s] && in2out == old(in2out)[MakeKey(s.i2o) := slot]
                   && out2in == old(out2in)[MakeKey(s.o2i) := slot]
                && mappings == old(mappings)[m := old(mappings[m]).(count := old(mappings[m]).count + 1, head := slot)]
                && lists == old(lists)[m := [slot] + old(lists[m])]
              else
                && sessions == old(sessions) && in2out == old(in2out) && out2in == old(out2in)
                   && mappings == old(mappings) && lists == old(lists)
      // The two tuples written out: the source is translated, and replies to the outside end lead back.
      ensures ok ==>
                var o, fib := old(mappings[m]), pools[old(mappings[m]).pool].outFib;
                var far: u16, farOut: u16 := if proto == 1 then insidePort else remotePort,
                                             if proto == 1 then outsidePort else remotePort;
                && slot in sessions && sessions[slot].mapping == m && sessions[slot].outsidePort == outsidePort
                && sessions[slot].pool == o.pool
                && sessions[slot].lastActive == now && sessions[slot].timeout == timeout
                && sessions[slot].i2o == Tuple(o.insideIp, remote, insidePort, far, proto, o.fib)
                && sessions[slot].o2i == Tuple(o.outsideIp, remote, outsidePort, farOut, proto, fib)
                && Key(o.insideIp, remote, insidePort, far, proto, o.fib % 0x1_0000) in in2out
                && in2out[Key(o.insideIp, remote, insidePort, far, proto, o.fib % 0x1_0000)] == slot
                && Key(o.outsideIp, remote, outsidePort, farOut, proto, fib % 0x1_0000) in out2in
                && out2in[Key(o.outsideIp, remote, outsidePort, farOut, proto, fib % 0x1_0000)] == slot
    {
      hide Consistent;
      MappingFacts(m);
      var o := mappings[m];
      var p := pools[o.pool];
      var s := NewSession(mappings, pools, m, remote, remotePort, proto, outsidePort, insidePort, now, timeout);
      if o.count >= p.maxSessions { return false; }
      mappings := mappings[m := o.(count := o.count + 1)];
      if |sessions| >= MAX_SESSIONS {
        mappings := mappings[m := o];
        assert mappings == old(mappings);
        return false;
      }
      assert mappings[m := o] == old(mappings);
      Install(m, o, s, slot);
      ok := true;
    }

    /** The installation, with the subscriber's slot reserved: both tables, the pool, and the head of the
        mapping's list. */
    method Install(m: int, ghost o: Mapping, s: Session, slot: int)
      requires m in mappings && mappings[m] == o.(count := o.count + 1)
      requires Consistent(sessions, links, in2out, out2in, mappings[m := o], inside, pools, lists)
      requires s.mapping == m && slot !in sessions && 0 <= slot < MAX_SESSIONS && MakeKey(s.i2o) !in in2out
      requires s.pool == o.pool && s.pool in pools && pools[s.pool].fibValid && s.o2i.fib == pools[s.pool].outFib
          && Twin(s)
      requires s.i2o.saddr == o.insideIp && s.i2o.fib == o.fib && s.o2i.saddr == o.outsideIp
      modifies `sessions, `links, `in2out, `out2in, `mappings, `lists
      ensures Valid() && m in old(lists)
      ensures sessions == old(sessions)[slot := s] && in2out == old(in2out)[MakeKey(s.i2o) := slot]
          && out2in == old(out2in)[MakeKey(s.o2i) := slot]
      ensures mappings == old(mappings)[m := old(mappings[m]).(head := slot)]
      ensures lists == old(lists)[m := [slot] + old(lists[m])]
    {
      hide Consistent;
      CreateKeeps(sessions, links, in2out, out2in, mappings[m := o], inside, pools, lists, slot, s);
      assert mappings[m := o][m := o.(count := o.count + 1, head := slot)] == mappings[m := mappings[m].(head := slot)];
      sessions := sessions[slot := s];
      in2out := in2out[MakeKey(s.i2o) := slot];
      out2in := out2in[MakeKey(s.o2i) := slot];
      links := Inserted(links, mappings[m].head, slot);
      mappings := mappings[m := mappings[m].(head := slot)];
      lists := lists[m := [slot] + lists[m]];
    }

    lemma Counted(si: int)
      requires Valid() && si in sessions
      ensures sessions[si].mapping in mappings && mappings[sessions[si].mapping].count >= 1
    {
      var m := sessions[si].mapping;
      assert ListOk(sessions, links, m, mappings[m], lists[m]);
      assert si in lists[m];
    }

    /** cgnat_session_delete. */
    method Delete(si: int, now: real)
      requires Valid() && si in sessions
      modifies `sessions, `links, `in2out, `out2in, `mappings, `lists
      ensures Valid() && sessions == old(sessions) - {si}
      ensures in2out == old(in2out) - {MakeKey(old(sessions[si]).i2o)}
          && out2in == old(out2in) - {MakeKey(old(sessions[si]).o2i)}
      ensures var m := old(sessions[si]).mapping;
              && old(si in links && m in mappings && BlockOk(mappings[m]))
                 && mappings == old(mappings)[m := Bereft(old(sessions), old(links), old(mappings), si, now)]
              && m in old(lists) && si in old(lists[m]) && lists == old(lists)[m := Without(old(lists[m]), si)]
      ensures SameMappings(old(mappings), mappings)
      // The subscriber has one session less, and a port of its block starts its rest.
      ensures var s, o := old(sessions[si]), old(mappings)[old(sessions[si]).mapping];
              && |o.reuse| == o.blockEnd - o.blockStart + 1 && s.mapping in mappings
              && mappings[s.mapping].count == o.count - 1
              && mappings[s.mapping].reuse ==
                 if (s.i2o.proto == 6 || s.i2o.proto == 17 || s.i2o.proto == 1)
                     && o.blockStart <= s.outsidePort <= o.blockEnd
                 then o.reuse[s.outsidePort - o.blockStart := now] else o.reuse
    {
      hide Consistent;
      Counted(si);
      var s := sessions[si];
      var m := s.mapping;
      DeleteKeeps(sessions, links, in2out, out2in, mappings, inside, pools, lists, si, now);
      in2out := in2out - {MakeKey(s.i2o)};
      out2in := out2in - {MakeKey(s.o2i)};
      var o := mappings[m];
      if PortBearing(s.i2o.proto) { o := Rested(o, s.outsidePort, now); }
      if o.count > 0 { o := o.(count := o.count - 1); }
      o := o.(head := HeadAfter(links, o.head, si));
      mappings := mappings[m := o];
      links := Unlinked(links, si);
      sessions := sessions - {si};
      lists := lists[m := Without(lists[m], si)];
    }

    /** The slow path for a subscriber's packet: find the session, or make one, or say why not. A
        refused creation returns its port. */
    method SlowPath(ip: u32, fib: int, remote: u32, remotePort: u16, proto: u16, insidePort: u16, now: real,
            timeout: real, slot: int)
      returns (v: Verdict, si: int)
      requires Valid() && (|sessions| < MAX_SESSIONS ==> 0 <= slot < MAX_SESSIONS && slot !in sessions)
      requires proto == ICMP ==> remotePort == insidePort
      modifies `sessions, `links, `in2out, `out2in, `mappings, `lists
      ensures Valid()
      ensures old(Inside(ip, fib) in inside ==>
          inside[Inside(ip, fib)] in mappings && mappings[inside[Inside(ip, fib)]].pool in pools
                                                && BlockOk(mappings[inside[Inside(ip, fib)]]))
      ensures v == if Inside(ip, fib) !in inside then NoMapping
                   else
                     var o := old(mappings)[inside[Inside(ip, fib)]];
                     if !pools[o.pool].fibValid then NoPool
                     else if MakeKey(Tuple(ip, remote, insidePort, remotePort, proto, fib)) in old(in2out) then Existing
                     else if PortBearing(proto) && Granted(o, now) == 0 then PortExhausted
                     else if o.count >= pools[o.pool].maxSessions || |old(sessions)| >= MAX_SESSIONS then SessionLimit
                     else CreatedNew
      ensures v.Existing? ==>
          si in sessions && sessions == old(sessions) && MakeKey(sessions[si].i2o) ==
          MakeKey(Tuple(ip, remote, insidePort, remotePort, proto, fib))
      ensures v.CreatedNew? ==>
                && si == slot && slot in sessions && sessions == old(sessions)[slot := sessions[slot]]
                && sessions[slot].i2o == Tuple(ip, remote, insidePort, remotePort, proto, fib)
                && MakeKey(sessions[slot].i2o) !in old(in2out)
                && (PortBearing(proto) ==>
                   sessions[slot].outsidePort == Granted(old(mappings)[inside[Inside(ip, fib)]], now) != 0)
                && (AllReached(sessions, out2in) <==>
                    AllReached(old(sessions), old(out2in)) &&
                    forall sj :: sj in old(sessions) ==> MakeKey(old(sessions)[sj].o2i) != MakeKey(sessions[slot].o2i))
      // A reply to the outside end, written out, is led to the new session.
      ensures v.CreatedNew? ==>
                var o := old(mappings)[inside[Inside(ip, fib)]];
                var port: u16 := if proto == 6 || proto == 17 || proto == 1 then Granted(o, now) else 0;
                var far: u16 := if proto == 1 then port else remotePort;
                var outFib := pools[o.pool].outFib;
                && slot in sessions && sessions[slot].o2i == Tuple(o.outsideIp, remote, port, far, proto, outFib)
                && Key(o.outsideIp, remote, port, far, proto, outFib % 0x1_0000) in out2in
                && out2in[Key(o.outsideIp, remote, port, far, proto, outFib % 0x1_0000)] == slot
      ensures !v.Existing? && !v.CreatedNew? ==>
          sessions == old(sessions) && in2out == old(in2out) && out2in == old(out2in) && lists == old(lists)
    {
      hide Consistent;
      si := -1;
      if Inside(ip, fib) !in inside { return NoMapping, si; }
      var m := inside[Inside(ip, fib)];
      InsideFacts(Inside(ip, fib));
      MappingFacts(m);
      if !pools[mappings[m].pool].fibValid { return NoPool, si; }
      var key := Tuple(ip, remote, insidePort, remotePort, proto, fib);
      si := LookupIn2out(key);
      if si != -1 { return Existing, si; }
      var port: u16 := 0;
      if PortBearing(proto) {
        port := PortAlloc(m, now);
        if port == 0 { return PortExhausted, si; }
      }
      MappingFacts(m);
      var ok := Create(m, remote, remotePort, proto, port, insidePort, now, timeout, slot);
      if ok {
        CreateReaches(old(sessions), old(out2in), slot, sessions[slot]);
        return CreatedNew, slot;
      }
      if PortBearing(proto) { PortFree(m, port, now); }
      v := SessionLimit;
    }

    lemma InsideFacts(k: Inside)
      requires Valid() && k in inside
      ensures inside[k] in mappings && InsideKey(mappings[inside[k]]) == k
    {
    }

    /** A new flow: a port, and a session on it. */
    method OpenFlow(m: int, remote: u32, remotePort: u16, proto: u16, insidePort: u16, now: real, timeout: real,
            slot: int) returns (port: u16)
      requires Valid() && m in mappings && mappings[m].pool in pools && BlockOk(mappings[m])
      requires pools[mappings[m].pool].fibValid && mappings[m].count < pools[mappings[m].pool].maxSessions
      requires |sessions| < MAX_SESSIONS && slot !in sessions && 0 <= slot < MAX_SESSIONS
      requires MakeKey(I2o(mappings[m], remote, remotePort, proto, insidePort)) !in in2out
      modifies `sessions, `links, `in2out, `out2in, `mappings, `lists
      ensures Valid() && port == Granted(old(mappings[m]), now)
      ensures var s := NewSession(old(mappings), pools, m, remote, remotePort, proto, port, insidePort, now, timeout);
              && sessions == old(sessions)[slot := s] && in2out == old(in2out)[MakeKey(s.i2o) := slot]
                 && out2in == old(out2in)[MakeKey(s.o2i) := slot]
      ensures var o := old(mappings[m]);
              m in mappings && mappings[m] == Advanced(o, now).(count := o.count + 1, head := slot)
      ensures var o, fib := old(mappings[m]), pools[old(mappings[m]).pool].outFib;
              var farOut: u16 := if proto == 1 then port else remotePort;
              && sessions[slot].o2i == Tuple(o.outsideIp, remote, port, farOut, proto, fib)
              && Key(o.outsideIp, remote, port, farOut, proto, fib % 0x1_0000) in out2in
              && out2in[Key(o.outsideIp, remote, port, farOut, proto, fib % 0x1_0000)] == slot
    {
      hide Consistent, Tries;
      MappingFacts(m);
      port := PortAlloc(m, now);
      MappingFacts(m);
      var ok := Create(m, remote, remotePort, proto, port, insidePort, now, timeout, slot);
    }

    /** What a port granted twice costs, as a run: two flows of a subscriber to one remote endpoint, then
        the later one ends. The second allocation comes back to the first port exactly when every other
        port of the block is resting; then the later session takes the outside entry over and takes it
        along when it goes, and the earlier one, still alive, is found from outside no more. */
    method ReusedPort(m: int, remote: u32, remotePort: u16, proto: u16, first: u16, second: u16, t1: real, t2: real,
                      t3: real, timeout: real, slot1: int, slot2: int)
      returns (p1: u16, p2: u16, heir: int, left: int)
      requires Valid() && m in mappings && mappings[m].pool in pools && BlockOk(mappings[m]) && PortBearing(proto)
          && t1 <= t2
      requires pools[mappings[m].pool].fibValid && mappings[m].count + 2 <= pools[mappings[m].pool].maxSessions
      requires |sessions| + 2 <= MAX_SESSIONS && slot1 !in sessions && slot2 !in sessions && slot1 != slot2
      requires 0 <= slot1 < MAX_SESSIONS && 0 <= slot2 < MAX_SESSIONS && first != second && !AllRest(mappings[m], t1)
      requires MakeKey(I2o(mappings[m], remote, remotePort, proto, first)) !in in2out
      requires MakeKey(I2o(mappings[m], remote, remotePort, proto, second)) !in in2out
      modifies `sessions, `links, `in2out, `out2in, `mappings, `lists
      ensures Valid() && slot1 in sessions && sessions[slot1].outsidePort == p1 && slot2 !in sessions
      ensures var o := old(mappings[m]);
              p1 == p2 <==> forall q :: o.blockStart <= q <= o.blockEnd && q != p1 ==> Cooling(o, q, t2)
      ensures p1 == p2 ==> heir == slot2 && left == -1
      ensures p1 != p2 ==> heir == slot1 && left == slot1
    {
      hide Consistent, Tries, Granted, AllRest, Bereft, Without;
      ghost var o := mappings[m];
      p1 := OpenFlow(m, remote, remotePort, proto, first, t1, timeout, slot1);
      MappingFacts(m);
      GrantedAgainIff(o, mappings[m], t1, t2);
      p2 := OpenFlow(m, remote, remotePort, proto, second, t2, timeout, slot2);
      var key := sessions[slot1].o2i;
      heir := LookupOut2in(key);
      Delete(slot2, t3);
      left := LookupOut2in(key);
    }

    // -------------------------------------------------------------- ends of sessions and mappings

    predicate Idle(s: Session, now: real) { now - s.lastActive > s.timeout }

    /** None of the listed sessions is the mapping's. */
    ghost predicate Spared(ss: map<int, Session>, kill: seq<int>, m: int) {
      forall si :: si in kill && si in ss ==> ss[si].mapping != m
    }

    /** Delete every listed session that is still there. */
    method ReapAll(kill: seq<int>, now: real)
      requires Valid()
      modifies `sessions, `links, `in2out, `out2in, `mappings, `lists
      ensures Valid()
      ensures forall si :: si in sessions <==> si in old(sessions) && si !in kill
      ensures forall si :: si in sessions ==> sessions[si] == old(sessions)[si]
      ensures SameMappings(old(mappings), mappings)
      ensures forall m :: m in mappings && Spared(old(sessions), kill, m) ==> mappings[m] == old(mappings)[m]
    {
      hide Consistent, Bereft;
      for i := 0 to |kill|
        invariant Valid()
        invariant forall si :: si in sessions <==> si in old(sessions) && si !in kill[..i]
        invariant forall si :: si in sessions ==> sessions[si] == old(sessions)[si]
        invariant SameMappings(old(mappings), mappings)
        invariant forall m :: m in mappings && Spared(old(sessions), kill, m) ==> mappings[m] == old(mappings)[m]
      {
        assert kill[..i + 1] == kill[..i] + [kill[i]];
        if kill[i] in sessions { Delete(kill[i], now); }
      }
      assert kill[..|kill|] == kill;
    }

    /** cgnat_session_expire_walk: the in2out table is walked for sessions idle beyond their timeout, and
        exactly those are reaped. */
    method ExpireWalk(now: real)
      requires Valid()
      modifies `sessions, `links, `in2out, `out2in, `mappings, `lists
      ensures Valid()
      ensures forall si :: si in sessions <==>
                si in old(sessions) && now - old(sessions)[si].lastActive <= old(sessions)[si].timeout
      ensures forall si :: si in sessions ==> sessions[si] == old(sessions)[si]
    {
      hide Consistent;
      var expired := Expired(now);
      ReapAll(expired, now);
    }

    /** The walk's first half: the idle sessions, each found through its table entry. */
    method Expired(now: real) returns (found: seq<int>)
      requires Valid()
      ensures forall si :: si in found <==> si in sessions && now - sessions[si].lastActive > sessions[si].timeout
    {
      found := [];
      var keys := in2out.Keys;
      while keys != {}
        invariant keys <= in2out.Keys
        invariant forall si :: si in found ==> si in sessions && Idle(sessions[si], now)
        invariant forall k :: k in in2out && k !in keys && Idle(sessions[in2out[k]], now) ==> in2out[k] in found
        decreases keys
      {
        var k := Sums.AnyOf(keys);
        var si := in2out[k];
        if Idle(sessions[si], now) { found := found + [si]; }
        keys := keys - {k};
      }
      forall si | si in sessions && Idle(sessions[si], now)
        ensures si in found
      {
        assert in2out[MakeKey(sessions[si].i2o)] == si;
      }
    }

    /** The delete half of cgnat_add_del_subscriber_mapping: the mapping's sessions are reaped through its
        own list, head by head, and then the mapping goes. The pool named must exist, and may be another
        than the mapping's; a mapping that is not there is as good as deleted. */
    method MappingDelete(k: Inside, pool: int, fibFound: bool, now: real) returns (r: DeleteResult)
      requires Valid()
      modifies `sessions, `links, `in2out, `out2in, `mappings, `lists, `inside
      ensures Valid() && (r.Gone? ==> k !in inside)
      ensures r == if pool !in pools then MissingPool else if !fibFound then MissingTable else Gone
      ensures !r.Gone? || k !in old(inside) ==>
                && sessions == old(sessions) && mappings == old(mappings) && inside == old(inside)
                && in2out == old(in2out) && out2in == old(out2in)
      ensures r.Gone? && k in old(inside) ==>
                var m := old(inside)[k];
                && m in old(mappings) && mappings == old(mappings) - {m} && inside == old(inside) - {k}
                && (forall si :: si in sessions <==> si in old(sessions) && old(sessions)[si].mapping != m)
                && (forall si :: si in sessions ==> sessions[si] == old(sessions)[si])
    {
      if pool !in pools { return MissingPool; }
      if !fibFound { return MissingTable; }
      r := Gone;
      if k !in inside { return; }
      var m := inside[k];
      InsideFacts(k);
      ReapList(m, now);
      DropMapping(k, m);
    }

    /** Each deletion advances the head, so the list is the measure. */
    method ReapList(m: int, now: real)
      requires Valid() && m in mappings
      modifies `sessions, `links, `in2out, `out2in, `mappings, `lists
      ensures Valid() && m in mappings && m in lists && lists[m] == []
      ensures mappings.Keys == old(mappings.Keys) && mappings == old(mappings)[m := mappings[m]]
      ensures InsideKey(mappings[m]) == InsideKey(old(mappings)[m])
      ensures forall si :: si in sessions <==> si in old(sessions) && old(sessions)[si].mapping != m
      ensures forall si :: si in sessions ==> sessions[si] == old(sessions)[si]
    {
      MappingFacts(m);
      while mappings[m].head != NIL
        invariant Valid() && m in mappings && m in lists && ListOk(sessions, links, m, mappings[m], lists[m])
        invariant mappings == old(mappings)[m := mappings[m]] && InsideKey(mappings[m]) == InsideKey(old(mappings)[m])
        invariant forall si :: si in sessions ==> si in old(sessions) && sessions[si] == old(sessions)[si]
        invariant forall si :: si in old(sessions) && old(sessions)[si].mapping != m ==> si in sessions
        decreases |lists[m]|
      {
        hide Consistent, ListOk;
        var head := mappings[m].head;
        HeadOfList(m);
        WithoutFirst(lists[m], NIL);
        Delete(head, now);
        MappingFacts(m);
      }
    }

    lemma HeadOfList(m: int)
      requires m in mappings && m in lists && ListOk(sessions, links, m, mappings[m], lists[m])
          && mappings[m].head != NIL
      ensures lists[m] != [] && lists[m][0] == mappings[m].head && Distinct(lists[m], NIL)
      ensures mappings[m].head in sessions && sessions[mappings[m].head].mapping == m
    {
    }

    /** With its list empty, a mapping can go. */
    method DropMapping(k: Inside, m: int)
      requires Valid() && m in mappings && m in lists && lists[m] == [] && k in inside && inside[k] == m
      modifies `mappings, `lists, `inside
      ensures Valid() && mappings == old(mappings) - {m} && inside == old(inside) - {k} && lists == old(lists) - {m}
    {
      assert ListOk(sessions, links, m, mappings[m], lists[m]);
      assert forall si :: si in sessions ==> sessions[si].mapping != m;
      inside := inside - {k};
      mappings := mappings - {m};
      lists := lists - {m};
      forall n | n in mappings
        ensures ListOk(sessions, links, n, mappings[n], lists[n])
      {
        assert ListOk(sessions, links, n, old(mappings)[n], old(lists)[n]);
      }
    }

    /** The add half: at most one mapping a subscriber. A duplicate that agrees is a no-op, one that
        differs is reported, and a failed feature enable rolls the addition back. */
    method MappingAdd(k: Inside, outsideIp: u32, start: int, end: int, pool: int, sw: int, slot: int,
                      fibFound: bool, enableFails: bool) returns (r: AddResult)
      requires Valid() && 0 <= start <= end <= 0xFFFF && slot !in mappings
      modifies `mappings, `inside, `lists
      ensures Valid()
      ensures k in old(inside) ==> old(inside)[k] in old(mappings)
      ensures r == if pool !in pools then NoSuchPool
                   else if !fibFound then NoSuchTable
                   else if k in old(inside) then
                     var e := old(mappings)[old(inside)[k]];
                     if e.outsideIp == outsideIp && e.blockStart == start && e.blockEnd == end && e.pool == pool
                         && e.sw == sw
                     then Unchanged else NeedsRefresh
                   else if enableFails then RolledBack else Added
      ensures r.Added? ==>
                var m := Mapping(k.ip, outsideIp, k.fib, start, end, pool, sw, start, 0, NIL,
                    seq(end - start + 1, _ => 0.0));
                k !in old(inside) && mappings == old(mappings)[slot := m] && inside == old(inside)[k := slot]
      ensures !r.Added? ==> mappings == old(mappings) && inside == old(inside) && lists == old(lists)
    {
      if pool !in pools { return NoSuchPool; }
      if !fibFound { return NoSuchTable; }
      if k in inside {
        var e := mappings[inside[k]];
        return if e.outsideIp == outsideIp && e.blockStart == start && e.blockEnd == end && e.pool == pool
            && e.sw == sw then Unchanged else NeedsRefresh;
      }
      var m := Mapping(k.ip, outsideIp, k.fib, start, end, pool, sw, start, 0, NIL, seq(end - start + 1, _ => 0.0));
      AddKeeps(sessions, links, in2out, out2in, mappings, inside, pools, lists, k, slot, m);
      hide Consistent;
      mappings := mappings[slot := m];
      inside := inside[k := slot];
      lists := lists[slot := []];
      if enableFails {
        Undo(old(mappings), slot, m);
        Undo(old(inside), k, slot);
        assert slot !in old(lists) by {
          KeysOfLists(sessions, links, in2out, out2in, old(mappings), old(inside), pools, old(lists));
        }
        Undo(old(lists), slot, []);
        mappings := mappings - {slot};
        inside := inside - {k};
        lists := lists - {slot};
        return RolledBack;
      }
      r := Added;
    }

    // -------------------------------------------------------------- pools

    /** cgnat_pool_cascade_delete: the pool's sessions, then its mappings; nothing of the pool remains,
        and nothing of another pool is touched. */
    method CascadeDelete(p: int, now: real)
      requires Valid()
      modifies `sessions, `links, `in2out, `out2in, `mappings, `lists, `inside
      ensures Valid()
      ensures forall si :: si in sessions <==> si in old(sessions) && old(sessions)[si].pool != p
      ensures forall si :: si in sessions ==> sessions[si] == old(sessions)[si]
      ensures forall m :: m in mappings <==> m in old(mappings) && old(mappings)[m].pool != p
      ensures forall m :: m in mappings ==> mappings[m] == old(mappings)[m]
    {
      var kill := SessionsOf(p);
      OthersSpared(p, kill);
      ReapAll(kill, now);
      NothingLeft(p);
      DropPool(p);
    }

    method SessionsOf(p: int) returns (kill: seq<int>)
      ensures forall si :: si in kill <==> si in sessions && sessions[si].pool == p
    {
      kill := [];
      var todo := sessions.Keys;
      while todo != {}
        invariant todo <= sessions.Keys
        invariant forall si :: si in kill <==> si in sessions && si !in todo && sessions[si].pool == p
        decreases todo
      {
        var si := Sums.AnyOf(todo);
        if sessions[si].pool == p { kill := kill + [si]; }
        todo := todo - {si};
      }
    }

    lemma OthersSpared(p: int, kill: seq<int>)
      requires Valid() && forall si :: si in kill ==> si in sessions && sessions[si].pool == p
      ensures forall m :: m in mappings && mappings[m].pool != p ==> Spared(sessions, kill, m)
    {
    }

    lemma NothingLeft(p: int)
      requires Valid() && forall si :: si in sessions ==> sessions[si].pool != p
      ensures forall m :: m in mappings && mappings[m].pool == p ==> m in lists && lists[m] == []
    {
      forall m | m in mappings && mappings[m].pool == p
        ensures m in lists && lists[m] == []
      {
        assert ListOk(sessions, links, m, mappings[m], lists[m]);
        NobodyIn(lists[m]);
      }
    }

    method DropPool(p: int)
      requires Valid() && forall m :: m in mappings && mappings[m].pool == p ==> m in lists && lists[m] == []
      modifies `mappings, `lists, `inside
      ensures Valid()
      ensures forall m :: m in mappings <==> m in old(mappings) && old(mappings)[m].pool != p
      ensures forall m :: m in mappings ==> mappings[m] == old(mappings)[m]
    {
      hide Consistent;
      var todo := mappings.Keys;
      while todo != {}
        invariant Valid() && todo <= mappings.Keys
        invariant forall m :: m in mappings && mappings[m].pool == p ==> m in lists && lists[m] == []
        invariant forall m :: m in mappings <==> m in old(mappings) && (m in todo || old(mappings)[m].pool != p)
        invariant forall m :: m in mappings ==> mappings[m] == old(mappings)[m]
        decreases todo
      {
        var m := Sums.AnyOf(todo);
        todo := todo - {m};
        if mappings[m].pool == p {
          MappingFacts(m);
          DropMapping(InsideKey(mappings[m]), m);
        }
      }
    }

    /** Deleting a pool cascades first, so nothing is left that names it. */
    method PoolDelete(p: int, now: real)
      requires Valid()
      modifies this
      ensures Valid() && pools == old(pools) - {p}
      ensures forall si :: si in sessions <==> si in old(sessions) && old(sessions)[si].pool != p
      ensures forall m :: m in mappings ==> mappings[m].pool != p
    {
      CascadeDelete(p, now);
      pools := pools - {p};
    }

    method PoolAdd(p: int, maxSessions: nat)
      requires Valid() && p !in pools
      modifies `pools
      ensures Valid() && pools == old(pools)[p := Pool(maxSessions, false, NIL)]
    {
      pools := pools[p := Pool(maxSessions, false, NIL)];
    }

    /** cgnat_set_outside_fib: refused while any session is live, unless the pool has no outside fib yet.
        No session is ever left with a stale one. */
    method SetOutsideFib(p: int, fib: int, fibFound: bool) returns (r: FibResult)
      requires Valid()
      modifies `pools
      ensures Valid()
      ensures r == if p !in old(pools) then NoPoolToSet
                   else if !fibFound then NoSuchFib
                   else if old(pools)[p].fibValid && sessions != map[] then InUse
                   else FibSet
      ensures r.FibSet? ==> p in old(pools) && pools == old(pools)[p := old(pools)[p].(outFib := fib, fibValid := true)]
      ensures !r.FibSet? ==> pools == old(pools)
    {
      if p !in pools { return NoPoolToSet; }
      if !fibFound { return NoSuchFib; }
      if pools[p].fibValid && |sessions| > 0 { return InUse; }
      pools := pools[p := pools[p].(outFib := fib, fibValid := true)];
      r := FibSet;
    }
  }
}
