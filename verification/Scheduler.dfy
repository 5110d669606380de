/** A subscriber's scheduler: its tins, its counters and the charge it holds on its aggregates, with the
    packet enqueue path and the dispatch walk. */
module Scheduler {
  import opened FlowQueue
  import opened FlowLists
  import opened TinState
  import opened Tins
  import Rate

  const MAX_TINS: int := 8
  const SHAPER_SLACK: int := 150_000_000

  /** What one tin holds: packets, bytes, drops so far, credit its flows owe, flows listed, bulk flows. */
  datatype Book = Book(queued: int, backlog: int, drops: int, owed: int, listed: int, bulk: int)

  ghost function Total(bs: seq<Book>, f: Book -> int): int {
    if bs == [] then 0 else Total(bs[..|bs| - 1], f) + f(bs[|bs| - 1])
  }

  lemma {:induction false} TotalAt(bs: seq<Book>, t: int, b: Book, f: Book -> int)
    requires 0 <= t < |bs|
    ensures Total(bs[t := b], f) == Total(bs, f) - f(bs[t]) + f(b)
  {
    var n := |bs| - 1;
    if t == n {
      assert bs[t := b][..n] == bs[..n];
    } else {
      assert bs[t := b][..n] == bs[..n][t := b];
      TotalAt(bs[..n], t, b, f);
    }
  }

  lemma {:induction false} TotalNonNegative(bs: seq<Book>, f: Book -> int)
    requires forall t :: 0 <= t < |bs| ==> f(bs[t]) >= 0
    ensures Total(bs, f) >= 0
    ensures forall t :: 0 <= t < |bs| ==> f(bs[t]) <= Total(bs, f)
  {
    if bs != [] { TotalNonNegative(bs[..|bs| - 1], f); }
  }

  ghost function QueuedIn(bs: seq<Book>): int { Total(bs, (b: Book) => b.queued) }
  ghost function BacklogIn(bs: seq<Book>): int { Total(bs, (b: Book) => b.backlog) }
  ghost function DropsIn(bs: seq<Book>): int { Total(bs, (b: Book) => b.drops) }
  ghost function OwedIn(bs: seq<Book>): int { Total(bs, (b: Book) => b.owed) }
  ghost function ListedIn(bs: seq<Book>): int { Total(bs, (b: Book) => b.listed) }
  ghost function BulkIn(bs: seq<Book>): int { Total(bs, (b: Book) => b.bulk) }

  lemma BookAt(bs: seq<Book>, t: int, b: Book)
    requires 0 <= t < |bs|
    ensures QueuedIn(bs[t := b]) == QueuedIn(bs) - bs[t].queued + b.queued
    ensures BacklogIn(bs[t := b]) == BacklogIn(bs) - bs[t].backlog + b.backlog
    ensures DropsIn(bs[t := b]) == DropsIn(bs) - bs[t].drops + b.drops
    ensures OwedIn(bs[t := b]) == OwedIn(bs) - bs[t].owed + b.owed
    ensures ListedIn(bs[t := b]) == ListedIn(bs) - bs[t].listed + b.listed
    ensures BulkIn(bs[t := b]) == BulkIn(bs) - bs[t].bulk + b.bulk
  {
    TotalAt(bs, t, b, (b: Book) => b.queued);
    TotalAt(bs, t, b, (b: Book) => b.backlog);
    TotalAt(bs, t, b, (b: Book) => b.drops);
    TotalAt(bs, t, b, (b: Book) => b.owed);
    TotalAt(bs, t, b, (b: Book) => b.listed);
    TotalAt(bs, t, b, (b: Book) => b.bulk);
  }

  /** Only tin t's book may have changed. */
  ghost predicate OnlyAt(after: seq<Book>, before: seq<Book>, t: int) {
    0 <= t < |before| == |after| && after == before[t := after[t]]
  }

  ghost predicate Sane(b: Book) { b.queued >= 0 && b.backlog >= 0 && b.owed >= 0 && b.listed >= 0 && b.bulk >= 0 }

  /** The dispatch walk's measure: packets queued, then credit owed, then flows listed, then bulk flows. */
  ghost predicate Fewer(after: seq<Book>, before: seq<Book>) {
    || QueuedIn(after) < QueuedIn(before)
    || (QueuedIn(after) == QueuedIn(before) &&
        (|| OwedIn(after) < OwedIn(before)
         || (OwedIn(after) == OwedIn(before) &&
             (|| ListedIn(after) < ListedIn(before)
              || (ListedIn(after) == ListedIn(before) && BulkIn(after) < BulkIn(before))))))
  }

  /** The same order on one tin's book. */
  ghost predicate Lower(after: Book, before: Book) {
    || after.queued < before.queued
    || (after.queued == before.queued &&
        (|| after.owed < before.owed
         || (after.owed == before.owed &&
             (after.listed < before.listed || (after.listed == before.listed && after.bulk < before.bulk)))))
  }

  lemma SaneTotals(bs: seq<Book>)
    requires forall t :: 0 <= t < |bs| ==> Sane(bs[t])
    ensures QueuedIn(bs) >= 0 && BacklogIn(bs) >= 0 && OwedIn(bs) >= 0 && ListedIn(bs) >= 0 && BulkIn(bs) >= 0
    ensures forall t :: 0 <= t < |bs| ==> bs[t].backlog <= BacklogIn(bs)
  {
    assert forall t :: 0 <= t < |bs| ==> Sane(bs[t]);
    TotalNonNegative(bs, (b: Book) => b.queued);
    TotalNonNegative(bs, (b: Book) => b.backlog);
    TotalNonNegative(bs, (b: Book) => b.owed);
    TotalNonNegative(bs, (b: Book) => b.listed);
    TotalNonNegative(bs, (b: Book) => b.bulk);
  }

  lemma LowerIsFewer(bs: seq<Book>, bs': seq<Book>, t: int)
    requires OnlyAt(bs', bs, t) && Lower(bs'[t], bs[t])
    ensures Fewer(bs', bs)
  {
    BookAt(bs, t, bs'[t]);
  }

  lemma {:induction false} TotalZero(bs: seq<Book>, f: Book -> int)
    requires forall t :: 0 <= t < |bs| ==> f(bs[t]) == 0
    ensures Total(bs, f) == 0
  {
    if bs != [] { TotalZero(bs[..|bs| - 1], f); }
  }

  /** The packets of a dispatch that came from tin t. */
  ghost function Picked(out: seq<Packet>, from: seq<int>, t: int): seq<Packet>
    requires |from| == |out|
  {
    if out == [] then []
    else
      var n := |out| - 1;
      Picked(out[..n], from[..n], t) + (if from[n] == t then [out[n]] else [])
  }

  ghost function Repeat(t: int, n: nat): (r: seq<int>)
    ensures |r| == n && forall k :: 0 <= k < n ==> r[k] == t
  {
    seq(n, _ => t)
  }

  lemma {:induction false} PickedTwo(out: seq<Packet>, from: seq<int>, sent: seq<Packet>, t: int, u: int)
    requires |from| == |out|
    ensures Picked(out + sent, from + Repeat(t, |sent|), u) == if u == t then Picked(out, from, u) + sent
        else Picked(out, from, u)
    decreases |sent|
  {
    if sent == [] {
      assert out + sent == out && from + Repeat(t, 0) == from;
    } else {
      var n := |sent| - 1;
      PickedTwo(out, from, sent[..n], t, u);
      assert (out + sent)[..|out| + n] == out + sent[..n];
      assert (from + Repeat(t, n + 1))[..|out| + n] == from + Repeat(t, n);
      assert sent == sent[..n] + [sent[n]];
    }
  }

  /** Tin by tin, what was sent is what left, but for the packets dropped, in order. */
  ghost predicate AllDeparted(lefts: seq<seq<Packet>>, lefts': seq<seq<Packet>>, drops: seq<int>, drops': seq<int>,
                              out: seq<Packet>, from: seq<int>) {
    && |from| == |out| && |lefts| == |lefts'| == |drops| == |drops'|
    && forall u :: 0 <= u < |lefts| ==> Departed(lefts[u], lefts'[u], drops[u], drops'[u], Picked(out, from, u))
  }

  lemma AllDepartedNone(lefts: seq<seq<Packet>>, drops: seq<int>)
    requires |lefts| == |drops|
    ensures AllDeparted(lefts, lefts, drops, drops, [], [])
  {
    forall u | 0 <= u < |lefts|
      ensures Departed(lefts[u], lefts[u], drops[u], drops[u], Picked([], [], u))
    {
      DepartedNone(lefts[u], drops[u]);
    }
  }

  /** One tin sends more. */
  lemma AllDepartedMore(l0: seq<seq<Packet>>, l1: seq<seq<Packet>>, d0: seq<int>, d1: seq<int>, out: seq<Packet>,
          from: seq<int>,
                        t: int, left: seq<Packet>, drops: int, sent: seq<Packet>)
    requires AllDeparted(l0, l1, d0, d1, out, from) && 0 <= t < |l1| && Departed(l1[t], left, d1[t], drops, sent)
    ensures AllDeparted(l0, l1[t := left], d0, d1[t := drops], out + sent, from + Repeat(t, |sent|))
  {
    var l2, d2 := l1[t := left], d1[t := drops];
    forall u | 0 <= u < |l0|
      ensures Departed(l0[u], l2[u], d0[u], d2[u], Picked(out + sent, from + Repeat(t, |sent|), u))
    {
      PickedTwo(out, from, sent, t, u);
      if u == t {
        DepartedTwo(l0[u], l1[u], left, d0[u], d1[u], drops, Picked(out, from, u), sent);
      }
    }
  }

  /** Why a dispatch ended; a refusal names the visit that was refused. */
  datatype Stop = Drained | Budget | Shaped | Refused(at: nat)

  /** How many of the first n answers send their packet. */
  ghost function Sents(fates: nat -> Fate, n: nat): nat {
    if n == 0 then 0 else Sents(fates, n - 1) + (if Visit(1, fates(n - 1)).Sent? then 1 else 0)
  }

  /** The answers from lo up to hi were asked one after the other, and each had its packet sent or dropped. */
  ghost predicate Answered(fates: nat -> Fate, lo: nat, hi: nat, sent: nat) {
    && lo <= hi && (forall k :: lo <= k < hi ==> Visit(1, fates(k)) in {Sent, Dropped})
    && Sents(fates, hi) == Sents(fates, lo) + sent
  }

  lemma AnsweredTwo(fates: nat -> Fate, m: nat, n: nat, sent: nat, more: nat)
    requires Answered(fates, 0, m, sent) && Answered(fates, m, n, more)
    ensures Answered(fates, 0, n, sent + more)
  {
  }

  predicate Refuses(fates: nat -> Fate, n: nat) { Visit(1, fates(n)) in {Blocked, Shut} }

  lemma AnsweredOne(fates: nat -> Fate, lo: nat, n: nat, sent: nat, len: nat)
    requires Answered(fates, lo, n, sent) && len > 0 && Visit(len, fates(n)) in {Sent, Dropped}
    ensures Answered(fates, lo, n + 1, sent + if Visit(len, fates(n)).Sent? then 1 else 0)
  {
  }

  /** A walk may end here: it sent so many packets, took gone off the queues and left so many, and each
      answer before the one that refuses, if any, took one packet, sent or dropped as it says. */
  ghost predicate Ended(fates: nat -> Fate, now: nat, budget: nat, sent: nat, gone: int, left: int, shaperTime: nat,
                        why: Stop) {
    && 0 <= gone && Answered(fates, 0, gone, sent)
    && match why
       case Drained => left == 0
       case Budget => sent == budget
       case Shaped => now < shaperTime
       case Refused(at) => at == gone && Refuses(fates, at) && left > 0 && shaperTime <= now
  }

  /** What the answers say of a walk that took n packets off the queues: each of them passed the local
      share and was dropped by the AQM or found the gates open; those that were not dropped were sent. */
  lemma {:induction false} SentsAre(fates: nat -> Fate, n: nat)
    ensures Sents(fates, n) ==
            |set k: nat | k < n && fates(k).drrAdmits && !fates(k).aqmDrops && fates(k).gate.Open? :: k|
  {
    if n > 0 {
      SentsAre(fates, n - 1);
      var f := fates(n - 1);
      var before := set k: nat | k < n - 1 && fates(k).drrAdmits && !fates(k).aqmDrops && fates(k).gate.Open? :: k;
      var all := set k: nat | k < n && fates(k).drrAdmits && !fates(k).aqmDrops && fates(k).gate.Open? :: k;
      assert all == if f.drrAdmits && !f.aqmDrops && f.gate.Open? then before + {n - 1} else before;
    }
  }

  lemma AnswersTell(fates: nat -> Fate, n: nat, sent: nat)
    requires Answered(fates, 0, n, sent)
    ensures forall k: nat :: k < n ==> fates(k).drrAdmits && (fates(k).aqmDrops || fates(k).gate.Open?)
    ensures sent == |set k: nat | k < n && fates(k).drrAdmits && !fates(k).aqmDrops && fates(k).gate.Open? :: k|
    ensures forall k: nat :: Refuses(fates, k) <==>
              !fates(k).drrAdmits || (!fates(k).aqmDrops && !fates(k).gate.Open?)
  {
    SentsAre(fates, n);
    assert forall k: nat :: k < n ==> Visit(1, fates(k)) in {Sent, Dropped};
  }

  /** What became of an arriving packet. */
  datatype Verdict = Taken | OverLimit | NotAdmitted | RingFull

  /** What becomes of a packet: its scheduler's limit first, then the tiers above, then its ring. */
  function Judged(over: bool, admitted: bool, full: bool): Verdict {
    if over then OverLimit else if !admitted then NotAdmitted else if full then RingFull else Taken
  }

  ghost function Snapshot(tin: Tin): Book
    reads tin, tin.flows
  {
    Book(Queued(tin.flows[..]), Backlog(tin.flows[..]), tin.drops, Owed(tin.flows[..]), tin.flowCount, tin.bulkCount)
  }

  class Sched {
    const tins: seq<Tin>
    ghost const repr: set<object>
    const limit: nat
    const framing: Framing
    const scaledRate: nat
    const maxLen: nat

    var usage: int
    var queuedBuffers: int
    var enqueued: nat
    var enqueuedBytes: nat
    var dequeued: nat
    var dequeuedBytes: nat
    var dropped: int
    var shaperTime: nat
    var active: bool
    var inBitmap: bool

    /** The books of each tin; the charge held on the aggregates above; packets refused before any
        queue; and what was queued when the counters were last reset. */
    ghost var books: seq<Book>
    ghost var charged: int
    ghost var refused: nat
    ghost var carried: int

    /** No two tins share storage. */
    ghost predicate Apart() {
      forall s, t :: 0 <= s < t < |tins| ==>
        && tins[s] != tins[t] && tins[s].flows != tins[t].flows && tins[s].links != tins[t].links
        && tins[s].tags != tins[t].tags && tins[s].hosts != tins[t].hosts
    }

    /** Every tin is sound and entered in the books. */
    ghost predicate TinsOk()
      reads this, repr
    {
      && this !in repr && 1 <= |tins| <= MAX_TINS && Apart() && |books| == |tins|
      && (forall u :: 0 <= u < |tins| ==>
         tins[u] in repr && tins[u].flows in repr && tins[u].links in repr && tins[u].tags in repr
         && tins[u].hosts in repr)
      && forall u :: 0 <= u < |tins| ==> tins[u].Valid() && books[u] == Snapshot(tins[u])
    }

    /** The counters are exactly what the tins hold: bytes in use, packets queued, the charge on the
        aggregates, packets in against packets out, and drops. */
    ghost predicate BooksOk()
      reads this
    {
      && usage == BacklogIn(books) == charged
      && queuedBuffers == QueuedIn(books)
      && enqueued + refused + carried == dequeued + dropped + queuedBuffers
      && dropped == DropsIn(books)
      && usage <= limit && limit + maxLen < NIL
      && (queuedBuffers > 0 ==> active && inBitmap)
    }

    ghost predicate Valid()
      reads this, repr
    {
      TinsOk() && BooksOk()
    }

    /** One tin of many: in the books, sound, and sharing nothing with the others. */
    lemma Alone(t: int, tin: Tin)
      requires TinsOk() && 0 <= t < |tins| && tin == tins[t]
      ensures |books| == |tins| && books[t] == Snapshot(tin) && tin.Valid() && tin.flows.Length == QUEUES
      ensures {tin, tin.flows, tin.links, tin.tags, tin.hosts} <= repr
      ensures forall u :: 0 <= u < |tins| && u != t ==>
                && tins[u] != tin && tins[u].flows != tin.flows && tins[u].links != tin.links
                   && tins[u].tags != tin.tags && tins[u].hosts != tin.hosts
    {
    }

    /** Tin t is entered in the books, which are in order. */
    ghost predicate At(t: int, tin: Tin)
      reads this, tin, tin.flows
    {
      0 <= t < |books| && books[t] == Snapshot(tin) && BooksOk() && tin.flows.Length == QUEUES
    }

    /** A tin's book changed in ways the counters do not show. */
    ghost method Rebook(t: int, b: Book)
      requires 0 <= t < |books| && BooksOk()
      requires b.queued == books[t].queued && b.backlog == books[t].backlog && b.drops == books[t].drops
      modifies this`books
      ensures BooksOk() && books == old(books)[t := b]
    {
      BookAt(books, t, b);
      books := books[t := b];
    }

    /** The counters after a packet left a queue, dropped or sent. */
    method Leaves(t: int, ghost b: Book, len: nat, drop: bool)
      requires 0 <= t < |books| && BooksOk()
      requires b.queued == books[t].queued - 1 && b.backlog == books[t].backlog - len
          && b.drops == books[t].drops + (if drop then 1 else 0)
      modifies this`usage, this`queuedBuffers, this`dropped, this`dequeued, this`dequeuedBytes, this`charged, this`books
      ensures BooksOk() && books == old(books)[t := b] && dequeued == old(dequeued) + (if drop then 0 else 1)
          && usage == old(usage) - len && queuedBuffers == old(queuedBuffers) - 1
    {
      BookAt(books, t, b);
      books := books[t := b];
      usage := usage - len;
      queuedBuffers := queuedBuffers - 1;
      charged := charged - len;
      if drop {
        dropped := dropped + 1;
      } else {
        dequeued := dequeued + 1;
        dequeuedBytes := dequeuedBytes + len;
      }
    }

    function Costs(out: seq<Packet>): nat {
      if out == [] then 0 else Costs(out[..|out| - 1]) + Rate.CostNs(Adjust(framing, out[|out| - 1].len), scaledRate)
    }

    /** The shaper clock after packets were sent, held at the slack. */
    function Clock(time: nat, now: nat, out: seq<Packet>): nat {
      if out == [] then time
      else
        var t := Clock(time, now, out[..|out| - 1]) + Rate.CostNs(Adjust(framing, out[|out| - 1].len), scaledRate);
        if t > now + SHAPER_SLACK then now + SHAPER_SLACK else t
    }

    /** Each packet was sent with the shaper open. */
    predicate Open(time: nat, now: nat, out: seq<Packet>) {
      out == [] || (Open(time, now, out[..|out| - 1]) && Clock(time, now, out[..|out| - 1]) <= now)
    }

    lemma NothingYet(fates: nat -> Fate, n: nat, time: nat, now: nat)
      ensures Answered(fates, n, n, 0) && Open(time, now, []) && Clock(time, now, []) == time
    {
    }

    lemma OpenOne(time: nat, now: nat, out: seq<Packet>, p: Packet)
      requires Open(time, now, out) && Clock(time, now, out) <= now
      ensures Open(time, now, out + [p]) && Clock(time, now, out + [p]) == Clock(Clock(time, now, out), now, [p])
    {
      assert (out + [p])[..|out|] == out;
    }

    lemma {:induction false} OpenTwo(time: nat, now: nat, out: seq<Packet>, more: seq<Packet>)
      requires Open(time, now, out) && Open(Clock(time, now, out), now, more)
      ensures Open(time, now, out + more) && Clock(time, now, out + more) == Clock(Clock(time, now, out), now, more)
      decreases |more|
    {
      if more == [] {
        assert out + more == out;
      } else {
        var n := |more| - 1;
        OpenTwo(time, now, out, more[..n]);
        assert (out + more)[..|out| + n] == out + more[..n];
      }
    }

    /** What a dispatch sends, all but its last packet, was earned since the shaper's time; and the clock
        moves by the cost of all of it, up to the slack. */
    lemma {:induction false} SentIsEarned(time: nat, now: nat, out: seq<Packet>)
      requires Open(time, now, out)
      ensures out != [] ==> time + Costs(out[..|out| - 1]) <= now
      ensures out != [] ==>
          Clock(time, now, out) == if time + Costs(out) > now + SHAPER_SLACK then now + SHAPER_SLACK
                                   else time + Costs(out)
      decreases |out|
    {
      if out != [] { SentIsEarned(time, now, out[..|out| - 1]); }
    }

    /** The scheduler's own shaper clock advances by at most the packet's cost, by all of it unless it would
        run ahead of the present by more than the slack, and never back unless it was further ahead. */
    method Charge(now: nat, len: nat)
      modifies this`shaperTime
      ensures shaperTime <= now + SHAPER_SLACK
      ensures shaperTime <= old(shaperTime) + Rate.CostNs(Adjust(framing, len), scaledRate)
      ensures shaperTime < now + SHAPER_SLACK ==>
          shaperTime == old(shaperTime) + Rate.CostNs(Adjust(framing, len), scaledRate)
      ensures old(shaperTime) <= now + SHAPER_SLACK ==> shaperTime >= old(shaperTime)
    {
      shaperTime := shaperTime + Rate.CostNs(Adjust(framing, len), scaledRate);
      if shaperTime > now + SHAPER_SLACK { shaperTime := now + SHAPER_SLACK; }
    }

    /** The visit, told in totals. */
    method VisitHead(tin: Tin, i: int, fate: Fate) returns (r: Outcome, p: Packet)
      requires tin.Valid() && 0 <= i < QUEUES && QueueOk(tin.flows[i].q)
      modifies tin`drops, tin`left, tin.flows
      ensures tin.ValidBut(i) && r == Visit(old(Len(tin.flows[i].q)), fate)
      // The order of the checks: the local share is asked before the AQM, and the AQM before the gates.
      ensures r.Empty? <==> old(Len(tin.flows[i].q)) == 0
      ensures r.Dropped? <==> old(Len(tin.flows[i].q)) > 0 && fate.drrAdmits && fate.aqmDrops
      ensures r.Sent? <==> old(Len(tin.flows[i].q)) > 0 && fate.drrAdmits && !fate.aqmDrops && fate.gate.Open?
      ensures r.Shut? <==> old(Len(tin.flows[i].q)) > 0 && fate.drrAdmits && !fate.aqmDrops && fate.gate.Closed?
      ensures r.Blocked? <==>
          old(Len(tin.flows[i].q)) > 0 && (!fate.drrAdmits || (!fate.aqmDrops && fate.gate.ShareSpent?))
      ensures Departed(old(tin.left), tin.left, old(tin.drops), tin.drops, if r.Sent? then [p] else [])
      ensures var b, b' := old(Snapshot(tin)), Snapshot(tin);
              if r.Dropped? || r.Sent? then
                && b' == b.(queued := b.queued - 1, backlog := b.backlog - p.len,
                   drops := b.drops + (if r.Dropped? then 1 else 0), owed := b'.owed)
                && tin.flows[i] == Popped(old(tin.flows[i]), p.len, if r.Sent? then Adjust(framing, p.len) else 0)
                && p == Front(old(tin.flows[i].q)) && QueueOk(tin.flows[i].q)
                   && Len(tin.flows[i].q) == old(Len(tin.flows[i].q)) - 1
              else b' == b && tin.Valid() && tin.flows[..] == old(tin.flows[..])
    {
      hide Sound;
      ghost var fs := tin.flows[..];
      DepartedNone(tin.left, tin.drops);
      r, p := tin.Dequeue(i, fate, framing);
      DepartedOne(old(tin.left), old(tin.drops), p);
      if r.Dropped? || r.Sent? {
        PopTotals(fs, i, p.len, if r.Sent? then Adjust(framing, p.len) else 0);
        PopTakesOldest(fs[i].q);
      }
    }

    /** One visit to a flow's head packet, with the scheduler's accounting. */
    method DequeueOne(t: int, tin: Tin, i: int, now: nat, fate: Fate) returns (r: Outcome, p: Packet)
      requires At(t, tin) && tin.Valid() && 0 <= i < QUEUES && QueueOk(tin.flows[i].q)
      modifies this`usage, this`queuedBuffers, this`dropped, this`dequeued, this`dequeuedBytes, this`charged,
          this`books, this`shaperTime, tin`drops, tin`left, tin.flows
      ensures At(t, tin) && tin.ValidBut(i) && r == Visit(old(Len(tin.flows[i].q)), fate)
      // The order of the checks: the local share is asked before the AQM, and the AQM before the gates.
      ensures r.Empty? <==> old(Len(tin.flows[i].q)) == 0
      ensures r.Dropped? <==> old(Len(tin.flows[i].q)) > 0 && fate.drrAdmits && fate.aqmDrops
      ensures r.Sent? <==> old(Len(tin.flows[i].q)) > 0 && fate.drrAdmits && !fate.aqmDrops && fate.gate.Open?
      ensures r.Shut? <==> old(Len(tin.flows[i].q)) > 0 && fate.drrAdmits && !fate.aqmDrops && fate.gate.Closed?
      ensures r.Blocked? <==>
          old(Len(tin.flows[i].q)) > 0 && (!fate.drrAdmits || (!fate.aqmDrops && fate.gate.ShareSpent?))
      ensures Departed(old(tin.left), tin.left, old(tin.drops), tin.drops, if r.Sent? then [p] else [])
          && usage <= old(usage)
      ensures OnlyAt(books, old(books), t) && dequeued == old(dequeued) + (if r.Sent? then 1 else 0)
      ensures queuedBuffers == old(queuedBuffers) - (if r.Dropped? || r.Sent? then 1 else 0)
          && shaperTime == (if r.Sent? then Clock(old(shaperTime), now, [p]) else old(shaperTime))
      ensures if r.Dropped? || r.Sent? then
                && books[t] == old(books[t]).(queued := old(books[t]).queued - 1, backlog := books[t].backlog,
                   drops := books[t].drops, owed := books[t].owed)
                && tin.flows[i] == Popped(old(tin.flows[i]), p.len, if r.Sent? then Adjust(framing, p.len) else 0)
                && p == Front(old(tin.flows[i].q)) && QueueOk(tin.flows[i].q)
                   && Len(tin.flows[i].q) == old(Len(tin.flows[i].q)) - 1
              else books == old(books) && tin.Valid() && tin.flows[..] == old(tin.flows[..])
    {
      hide Tin.ValidBut;
      r, p := VisitHead(tin, i, fate);
      if r.Dropped? || r.Sent? {
        Leaves(t, Snapshot(tin), p.len, r.Dropped?);
        if r.Sent? {
          assert [p][..0] == [];
          Charge(now, p.len);
        }
      }
    }

    // -------------------------------------------------------------- list moves, told in totals

    method ReclaimFlow(t: int, tin: Tin, i: int)
      requires At(t, tin) && 0 <= i < QUEUES && tin.ValidBut(i)
      requires (tin.flows[i].state.Sparse? || tin.flows[i].state.Decaying?) && Len(tin.flows[i].q) == 0
          && QueueOk(tin.flows[i].q)
      modifies this`books, tin, tin.flows, tin.links, tin.tags
      ensures At(t, tin) && tin.Valid() && |books| == |old(books)|
      ensures books == old(books)[t := old(books[t]).(listed := old(books[t]).listed - 1,
          owed := old(books[t]).owed - old(Debt(tin.flows[i])))]
      ensures tin.flows[i] == FREE && tin.left == old(tin.left) && tin.drops == old(tin.drops)
    {
      hide Sound, Tin.Threaded;
      DrainedIsZero(tin.flows[..], tin.tags[..], tin.hosts[..], tin.order, tin.arrived, tin.left, i);
      TotalsAt(tin.flows[..], i, FREE);
      tin.Reclaim(i);
      Rebook(t, Snapshot(tin));
    }

    method DecayFlow(t: int, tin: Tin, i: int)
      requires At(t, tin) && 0 <= i < QUEUES && tin.Valid() && tin.flows[i].state.Bulk? && Len(tin.flows[i].q) == 0
      modifies this`books, tin, tin.flows, tin.links, tin.hosts
      ensures At(t, tin) && tin.Valid() && |books| == |old(books)|
      ensures books == old(books)[t := old(books[t]).(bulk := old(books[t]).bulk - 1)]
      ensures tin.flows[i] == old(tin.flows[i]).(state := Decaying) && tin.left == old(tin.left)
          && tin.drops == old(tin.drops)
    {
      hide Sound, Tin.Threaded;
      SoundBut(tin.flows[..], tin.tags[..], tin.hosts[..], tin.order, tin.arrived, tin.left, i);
      TotalsAt(tin.flows[..], i, tin.flows[i].(state := Decaying));
      tin.Decay(i);
      Rebook(t, Snapshot(tin));
    }

    method RotateFlow(t: int, tin: Tin, i: int)
      requires At(t, tin) && 0 <= i < QUEUES && tin.Valid() && tin.flows[i].state.Bulk?
      modifies this`books, tin, tin.flows, tin.links
      ensures At(t, tin) && tin.Valid() && |books| == |old(books)|
      ensures books == old(books)[t := old(books[t]).(owed := old(books[t]).owed - old(Debt(tin.flows[i])))]
      ensures tin.flows[i] == old(tin.flows[i]).(deficit := 0) && tin.left == old(tin.left)
          && tin.drops == old(tin.drops)
      ensures old(tin.order.bulk) != [] && (i == old(tin.order.bulk[0]) ==>
          tin.order == old(tin.order).(bulk := old(tin.order.bulk)[1..] + [i]))
    {
      hide Sound, Tin.Threaded;
      SoundBut(tin.flows[..], tin.tags[..], tin.hosts[..], tin.order, tin.arrived, tin.left, i);
      TotalsAt(tin.flows[..], i, tin.flows[i].(deficit := 0));
      tin.Rotate(i);
      Rebook(t, Snapshot(tin));
    }

    method TopUpFlow(t: int, tin: Tin, i: int)
      requires At(t, tin) && 0 <= i < QUEUES && tin.Valid() && !tin.flows[i].state.None?
      modifies this`books, tin.flows
      ensures At(t, tin) && tin.Valid() && |books| == |old(books)|
      ensures tin.flows[i] == old(tin.flows[i]).(deficit := tin.flows[i].deficit)
      ensures old(tin.flows[i]).deficit > 0 ==> tin.flows[i] == old(tin.flows[i])
      ensures old(tin.flows[i]).deficit <= 0 ==> tin.flows[i].deficit >= old(tin.flows[i]).deficit + 1
      ensures books == old(books)[t := old(books[t]).(owed := old(books[t]).owed - old(Debt(tin.flows[i]))
          + Debt(tin.flows[i]))]
    {
      hide Sound, Tin.Threaded;
      ghost var fs := tin.flows[..];
      tin.TopUp(i);
      TotalsAt(fs, i, tin.flows[i]);
      Rebook(t, Snapshot(tin));
    }

    // -------------------------------------------------------------- the dispatch walk

    /** A packet in a flow is a packet in the tin's book. */
    lemma HeadCounts(t: int, tin: Tin, i: int)
      requires At(t, tin) && tin.Valid() && 0 <= i < QUEUES && Len(tin.flows[i].q) > 0
      ensures books[t].queued > 0
    {
      TotalsBounds(tin.flows[..], tin.tags[..], -1);
    }

    /** A sparse flow is visited once, and given up as soon as its one packet is gone. */
    method ServeSparse(t: int, tin: Tin, i: int, now: nat, fate: Fate) returns (r: Outcome, p: Packet)
      requires At(t, tin) && tin.Valid() && 0 <= i < QUEUES && tin.flows[i].state.Sparse? && shaperTime <= now
      modifies this`usage, this`queuedBuffers, this`dropped, this`dequeued, this`dequeuedBytes, this`charged,
          this`books, this`shaperTime, tin, tin.flows, tin.links, tin.tags
      ensures At(t, tin) && tin.Valid() && OnlyAt(books, old(books), t)
      ensures r == Visit(1, fate) && dequeued == old(dequeued) + (if r.Sent? then 1 else 0)
      ensures Departed(old(tin.left), tin.left, old(tin.drops), tin.drops, if r.Sent? then [p] else [])
          && usage <= old(usage)
      ensures r.Dropped? || r.Sent? ==> books[t].queued == old(books[t]).queued - 1
      ensures queuedBuffers == old(queuedBuffers) - (if r.Dropped? || r.Sent? then 1 else 0)
      ensures shaperTime == Clock(old(shaperTime), now, if r.Sent? then [p] else [])
      ensures r.Blocked? || r.Shut? ==> books == old(books) && books[t].queued > 0
    {
      hide Sound, Tin.Threaded, BooksOk, Departed, Visit;
      SettledLens(tin.flows[..], tin.tags[..], tin.hosts[..], tin.order, tin.arrived, tin.left, i);
      HeadCounts(t, tin, i);
      r, p := DequeueOne(t, tin, i, now, fate);
      if Len(tin.flows[i].q) == 0 { ReclaimFlow(t, tin, i); }
    }

    /** A drained flow moves from the old list to the decaying one, or from that one out. */
    method GiveUp(t: int, tin: Tin, i: int)
      requires At(t, tin) && tin.Valid() && 0 <= i < QUEUES
          && (tin.flows[i].state.Bulk? || tin.flows[i].state.Decaying?)
      requires tin.flows[i].deficit > 0 && QueueOk(tin.flows[i].q) && Len(tin.flows[i].q) == 0
      modifies this`books, tin, tin.flows, tin.links, tin.tags, tin.hosts
      ensures At(t, tin) && tin.Valid() && OnlyAt(books, old(books), t)
      ensures books[t].queued == old(books[t]).queued && Lower(books[t], old(books[t]))
      ensures tin.flows[i].state == (if old(tin.flows[i]).state.Bulk? then Decaying else None)
      ensures tin.left == old(tin.left) && tin.drops == old(tin.drops)
    {
      hide Sound, Tin.Threaded;
      SoundBut(tin.flows[..], tin.tags[..], tin.hosts[..], tin.order, tin.arrived, tin.left, i);
      if tin.flows[i].state.Bulk? { DecayFlow(t, tin, i); } else { ReclaimFlow(t, tin, i); }
    }

    /** Packets while credit lasts. A drained flow moves to the next list, or out. */
    method SpendCredit(t: int, tin: Tin, i: int, now: nat, budget: nat, fates: nat -> Fate, n0: nat)
      returns (out: seq<Packet>, n: nat, stop: bool)
      requires At(t, tin) && tin.Valid() && 0 <= i < QUEUES
          && (tin.flows[i].state.Bulk? || tin.flows[i].state.Decaying?) && budget > 0
      requires tin.flows[i].deficit > 0 && shaperTime <= now
      modifies this`usage, this`queuedBuffers, this`dropped, this`dequeued, this`dequeuedBytes, this`charged,
          this`books, this`shaperTime, tin, tin.flows, tin.links, tin.tags, tin.hosts
      ensures At(t, tin) && tin.Valid() && OnlyAt(books, old(books), t)
      ensures |out| <= budget && dequeued == old(dequeued) + |out|
      ensures Answered(fates, n0, n, |out|) && old(queuedBuffers) - queuedBuffers == n - n0
      ensures Open(old(shaperTime), now, out) && shaperTime == Clock(old(shaperTime), now, out)
      ensures Departed(old(tin.left), tin.left, old(tin.drops), tin.drops, out) && usage <= old(usage)
      ensures !stop ==> shaperTime <= now
      ensures stop && shaperTime <= now ==> Refuses(fates, n) && books[t].queued > 0
      ensures !stop ==> Lower(books[t], old(books[t]))
      ensures !stop && tin.flows[i].state.Bulk? ==>
          old(tin.flows[i]).state.Bulk? && tin.order == old(tin.order) && (tin.flows[i].deficit <= 0 || |out| == budget)
    {
      hide Tin.ValidBut, BooksOk, Snapshot, Departed, Answered, Open, Clock;
      tin.Settled(i);
      NothingYet(fates, n0, shaperTime, now);
      out, n, stop := [], n0, false;
      DepartedNone(tin.left, tin.drops);
      while tin.flows[i].deficit > 0 && |out| < budget
        invariant At(t, tin) && tin.Valid() && OnlyAt(books, old(books), t)
        invariant tin.flows[i].state == old(tin.flows[i]).state
        invariant QueueOk(tin.flows[i].q) && (tin.flows[i].state.Bulk?
            || (tin.flows[i].state.Decaying? && Len(tin.flows[i].q) == 0))
        invariant |out| <= budget && dequeued == old(dequeued) + |out| && tin.order == old(tin.order)
        invariant Answered(fates, n0, n, |out|) && old(queuedBuffers) - queuedBuffers == n - n0 && shaperTime <= now
        invariant Open(old(shaperTime), now, out) && shaperTime == Clock(old(shaperTime), now, out)
        invariant Departed(old(tin.left), tin.left, old(tin.drops), tin.drops, out) && usage <= old(usage)
        invariant books[t].queued < old(books[t]).queued || (books[t] == old(books[t]) && out == []
            && tin.flows[i].deficit > 0)
        decreases Len(tin.flows[i].q)
      {
        if Len(tin.flows[i].q) == 0 {
          GiveUp(t, tin, i);
          return;
        }
        ghost var left, drops, sent := tin.left, tin.drops, out;
        HeadCounts(t, tin, i);
        var r, p := DequeueOne(t, tin, i, now, fates(n));
        DepartedTwo(old(tin.left), left, tin.left, old(tin.drops), drops, tin.drops, sent, if r.Sent? then [p] else []);
        assert sent + [] == sent;
        tin.BulkIsSettled(i);
        if r.Shut? || r.Blocked? { return out, n, true; }
        if r.Sent? {
          OpenOne(old(shaperTime), now, out, p);
          out := out + [p];
        }
        AnsweredOne(fates, n0, n, |sent|, 1);
        n := n + 1;
        if now < shaperTime { return out, n, true; }
      }
    }

    /** A flow of the old or decaying list: credit if it has none, then packets while credit lasts, and
        to the back of its list when the credit is spent first. Unless something stopped the walk, the
        measure has gone down. */
    method ServeFlow(t: int, tin: Tin, i: int, now: nat, budget: nat, fates: nat -> Fate, n0: nat)
      returns (out: seq<Packet>, n: nat, stop: bool)
      requires At(t, tin) && tin.Valid() && 0 <= i < QUEUES
          && (tin.flows[i].state.Bulk? || tin.flows[i].state.Decaying?) && budget > 0
      requires shaperTime <= now && (tin.flows[i].state.Bulk? ==> tin.order.bulk != [] && i == tin.order.bulk[0])
      modifies this`usage, this`queuedBuffers, this`dropped, this`dequeued, this`dequeuedBytes, this`charged,
          this`books, this`shaperTime, tin, tin.flows, tin.links, tin.tags, tin.hosts
      ensures At(t, tin) && tin.Valid() && OnlyAt(books, old(books), t)
      ensures |out| <= budget && dequeued == old(dequeued) + |out|
      ensures Answered(fates, n0, n, |out|) && old(queuedBuffers) - queuedBuffers == n - n0
      ensures Open(old(shaperTime), now, out) && shaperTime == Clock(old(shaperTime), now, out)
      ensures Departed(old(tin.left), tin.left, old(tin.drops), tin.drops, out) && usage <= old(usage)
      ensures !stop ==> shaperTime <= now
      ensures stop && shaperTime <= now ==> Refuses(fates, n) && books[t].queued > 0
      ensures !stop ==> Lower(books[t], old(books[t]))
      ensures !stop && |out| < budget && tin.flows[i].state.Bulk? && Len(tin.flows[i].q) > 0 ==>
                tin.flows[i].deficit == 0 && old(tin.order.bulk) != []
                    && tin.order == old(tin.order).(bulk := old(tin.order.bulk)[1..] + [i])
    {
      hide Tin.ValidBut, BooksOk, Snapshot;
      TopUpFlow(t, tin, i);
      ghost var top := books[t];
      out, n, stop := [], n0, false;
      DepartedNone(tin.left, tin.drops);
      if tin.flows[i].deficit > 0 {
        out, n, stop := SpendCredit(t, tin, i, now, budget, fates, n0);
      }
      if !stop && tin.flows[i].deficit <= 0 && tin.flows[i].state.Bulk? {
        tin.Settled(i);
        if Len(tin.flows[i].q) > 0 { RotateFlow(t, tin, i); }
      }
    }

    /** Tins are served in strict priority: the highest busy one. */
    method PickTin() returns (t: int)
      requires TinsOk()
      ensures -1 <= t < |tins| && (t >= 0 ==> tins[t].Busy())
      ensures forall u :: t < u < |tins| ==> !tins[u].Busy()
    {
      hide Tin.ValidBut;
      t := |tins| - 1;
      while t >= 0
        invariant -1 <= t < |tins|
        invariant forall u :: t < u < |tins| ==> !tins[u].Busy()
      {
        if tins[t].Busy() { return; }
        t := t - 1;
      }
    }

    /** With no tin busy, no packet is queued. */
    lemma IdleIsDrained()
      requires Valid() && forall u :: 0 <= u < |tins| ==> !tins[u].Busy()
      ensures queuedBuffers == 0
    {
      hide Tin.ValidBut, Snapshot;
      forall u | 0 <= u < |tins|
        ensures books[u].queued == 0
      {
        IdleBook(u);
      }
      TotalZero(books, (b: Book) => b.queued);
    }

    lemma IdleBook(u: int)
      requires TinsOk() && 0 <= u < |tins| && !tins[u].Busy()
      ensures books[u].queued == 0
    {
      hide Tin.ValidBut;
      tins[u].BusyIsListed();
      tins[u].Bounds();
    }

    lemma SaneBooks()
      requires TinsOk()
      ensures forall u :: 0 <= u < |books| ==> Sane(books[u])
    {
      hide Tin.ValidBut;
      forall u | 0 <= u < |books|
        ensures Sane(books[u])
      {
        tins[u].Bounds();
      }
    }

    /** What has left each tin so far, and how much of it was dropped. */
    ghost function Lefts(): (ls: seq<seq<Packet>>)
      reads set u | 0 <= u < |tins| :: tins[u]
      ensures |ls| == |tins| && forall u :: 0 <= u < |tins| ==> ls[u] == tins[u].left
    {
      seq(|tins|, u requires 0 <= u < |tins| reads if 0 <= u < |tins| then {tins[u]} else {} => tins[u].left)
    }

    ghost function Drops(): (ds: seq<int>)
      reads set u | 0 <= u < |tins| :: tins[u]
      ensures |ds| == |tins| && forall u :: 0 <= u < |tins| ==> ds[u] == tins[u].drops
    {
      seq(|tins|, u requires 0 <= u < |tins| reads if 0 <= u < |tins| then {tins[u]} else {} => tins[u].drops)
    }

    /** Nothing is queued: the scheduler is deactivated and no longer polled. */
    method GoIdle()
      requires Valid() && forall u :: 0 <= u < |tins| ==> !tins[u].Busy()
      modifies this`active, this`inBitmap
      ensures Valid() && queuedBuffers == 0 && !active
    {
      hide Tin.ValidBut, Snapshot;
      IdleIsDrained();
      active, inBitmap := false, false;
    }

    /** The walk itself. */
    method WalkOn(now: nat, budget: nat, fates: nat -> Fate) returns (out: seq<Packet>, why: Stop, ghost from: seq<int>)
      requires Valid()
      modifies this`usage, this`queuedBuffers, this`dropped, this`dequeued, this`dequeuedBytes, this`charged, this`books
      modifies this`shaperTime, this`active, this`inBitmap, repr
      ensures Valid() && |out| <= budget && dequeued == old(dequeued) + |out|
      ensures AllDeparted(old(Lefts()), Lefts(), old(Drops()), Drops(), out, from)
      ensures usage <= old(usage) && (why.Drained? || active == old(active))
      ensures why.Drained? ==> !active
      ensures Ended(fates, now, budget, |out|, old(queuedBuffers) - queuedBuffers, queuedBuffers, shaperTime, why)
      ensures old(queuedBuffers) - queuedBuffers == |out| + dropped - old(dropped)
      ensures Open(old(shaperTime), now, out) && shaperTime == Clock(old(shaperTime), now, out)
    {
      hide Open, Clock;
      hide TinsOk, BooksOk, AllDeparted, Departed, Fewer, Answered, QueuedIn, OwedIn, ListedIn, BulkIn, Visit;
      out, why, from := [], Budget, [];
      AllDepartedNone(Lefts(), Drops());
      NothingYet(fates, 0, shaperTime, now);
      if now < shaperTime { return out, Shaped, from; }
      var n := 0;
      while |out| < budget
        invariant Valid() && |out| <= budget && dequeued == old(dequeued) + |out|
        invariant AllDeparted(old(Lefts()), Lefts(), old(Drops()), Drops(), out, from)
        invariant usage <= old(usage) && active == old(active) && shaperTime <= now
        invariant Answered(fates, 0, n, |out|)
        invariant old(queuedBuffers) - queuedBuffers == n == |out| + dropped - old(dropped)
        invariant Open(old(shaperTime), now, out) && shaperTime == Clock(old(shaperTime), now, out)
        decreases QueuedIn(books), OwedIn(books), ListedIn(books), BulkIn(books)
      {
        ghost var before, lefts, drops := books, Lefts(), Drops();
        Bounded();
        var sent, m, r, t := Pass(now, budget - |out|, fates, n);
        AnsweredTwo(fates, n, m, |out|, |sent|);
        OpenTwo(old(shaperTime), now, out, sent);
        if r.Drained? {
          assert out + sent == out;
          return out, r, from;
        }
        AllDepartedMore(old(Lefts()), lefts, old(Drops()), drops, out, from, t, Lefts()[t], Drops()[t], sent);
        out, n, from := out + sent, m, from + Repeat(t, |sent|);
        if !r.Budget? { return out, r, from; }
        Descends(before, books);
      }
    }

    /** One dispatch of this scheduler. It ends for every queue state and every sequence of answers from
        the AQM and the gates, and only for a reason: nothing is queued any more, the budget is used up,
        the scheduler's own shaper holds it, or something above refused. Each answer is asked once, in turn,
        and takes one packet off the queues, sent or dropped as it says, up to the one that refuses. What it
        sends comes from the tins: tin by tin, named by from, it is what left the tin during the walk, in
        that order, but for the packets the AQM dropped. */
    method Walk(now: nat, budget: nat, fates: nat -> Fate) returns (out: seq<Packet>, why: Stop, ghost from: seq<int>)
      requires Valid()
      modifies this`usage, this`queuedBuffers, this`dropped, this`dequeued, this`dequeuedBytes, this`charged, this`books
      modifies this`shaperTime, this`active, this`inBitmap, repr
      ensures Valid() && |out| <= budget && dequeued == old(dequeued) + |out|
      ensures AllDeparted(old(Lefts()), Lefts(), old(Drops()), Drops(), out, from)
      ensures usage <= old(usage) && (why.Drained? || active == old(active))
      ensures why.Drained? ==> !active
      ensures Ended(fates, now, budget, |out|, old(queuedBuffers) - queuedBuffers, queuedBuffers, shaperTime, why)
      ensures old(queuedBuffers) - queuedBuffers == |out| + dropped - old(dropped)
      ensures Open(old(shaperTime), now, out) && shaperTime == Clock(old(shaperTime), now, out)
      // The end of it, in the answers' own terms: the local share is asked first, then the AQM, then the gates.
      ensures var gone := old(queuedBuffers) - queuedBuffers;
              && gone >= 0
              && (forall k: nat :: k < gone ==> fates(k).drrAdmits && (fates(k).aqmDrops || fates(k).gate.Open?))
              && |out| ==
                 |set k: nat | k < gone && fates(k).drrAdmits && !fates(k).aqmDrops && fates(k).gate.Open? :: k|
              && (why.Refused? ==>
                    why.at == gone && (!fates(gone).drrAdmits || (!fates(gone).aqmDrops && !fates(gone).gate.Open?)))
      ensures why.Drained? ==> queuedBuffers == 0 && !active
      ensures why.Budget? ==> |out| == budget
      ensures why.Shaped? ==> now < shaperTime
      ensures why.Refused? ==> queuedBuffers > 0 && shaperTime <= now
    {
      hide TinsOk, BooksOk, AllDeparted, Departed, Answered, Refuses, Open, Clock;
      out, why, from := WalkOn(now, budget, fates);
      AnswersTell(fates, old(queuedBuffers) - queuedBuffers, |out|);
    }

    /** Packets in against packets out. */
    lemma Balance()
      requires BooksOk()
      ensures enqueued + refused + carried == dequeued + dropped + queuedBuffers
    {
    }

    lemma Bounded()
      requires TinsOk()
      ensures QueuedIn(books) >= 0 && OwedIn(books) >= 0 && ListedIn(books) >= 0 && BulkIn(books) >= 0
    {
      hide Tin.ValidBut, Snapshot;
      SaneBooks();
      SaneTotals(books);
    }

    /** The measure, spelt out for the loop. */
    lemma Descends(before: seq<Book>, after: seq<Book>)
      requires Fewer(after, before)
      ensures QueuedIn(after) <= QueuedIn(before)
      ensures QueuedIn(after) == QueuedIn(before) ==> OwedIn(after) <= OwedIn(before)
      ensures QueuedIn(after) == QueuedIn(before) && OwedIn(after) == OwedIn(before) ==>
          ListedIn(after) <= ListedIn(before)
      ensures (&& QueuedIn(after) == QueuedIn(before) && OwedIn(after) == OwedIn(before)
               && ListedIn(after) == ListedIn(before)) ==>
                BulkIn(after) < BulkIn(before)
    {
    }

    /** One pass: the highest busy tin is served once, or none is busy. */
    method Pass(now: nat, budget: nat, fates: nat -> Fate, n0: nat)
      returns (sent: seq<Packet>, n: nat, why: Stop, ghost t: int)
      requires Valid() && budget > 0 && shaperTime <= now
      modifies this`usage, this`queuedBuffers, this`dropped, this`dequeued, this`dequeuedBytes, this`charged, this`books
      modifies this`shaperTime, this`active, this`inBitmap, repr
      ensures Valid() && |sent| <= budget && dequeued == old(dequeued) + |sent| && usage <= old(usage)
      ensures Answered(fates, n0, n, |sent|)
      ensures Open(old(shaperTime), now, sent) && shaperTime == Clock(old(shaperTime), now, sent)
      ensures old(queuedBuffers) - queuedBuffers == n - n0 == |sent| + dropped - old(dropped)
      ensures why.Drained? ==>
          sent == [] && queuedBuffers == 0 && !active && Lefts() == old(Lefts()) && Drops() == old(Drops())
      ensures !why.Drained? ==>
                && active == old(active) && 0 <= t < |tins|
                && Departed(old(Lefts())[t], Lefts()[t], old(Drops())[t], Drops()[t], sent)
                && Lefts() == old(Lefts())[t := Lefts()[t]] && Drops() == old(Drops())[t := Drops()[t]]
      ensures why.Shaped? <==> now < shaperTime
      ensures why.Refused? ==> why.at == n && Refuses(fates, n) && queuedBuffers > 0
      ensures why.Budget? ==> Fewer(books, old(books))
    {
      hide Tin.ValidBut, Snapshot, Departed, BooksOk, Fewer;
      Balance();
      sent, n, why := [], n0, Drained;
      var u := PickTin();
      t := u;
      if u < 0 {
        GoIdle();
        return;
      }
      ghost var before := books;
      sent, n, why := Serve(u, tins[u], now, budget, fates, n0);
      if why.Budget? { LowerIsFewer(before, books, t); }
      if why.Refused? { QueuedSomewhere(u); }
      Balance();
    }

    lemma QueuedSomewhere(u: int)
      requires TinsOk() && BooksOk() && 0 <= u < |tins| && books[u].queued > 0
      ensures queuedBuffers > 0
    {
      hide Tin.ValidBut;
      SaneBooks();
      TotalNonNegative(books, (b: Book) => b.queued);
    }

    /** Serve the flow at the front of one busy tin. Budget is the answer when the walk may go on. */
    method ServeFront(t: int, tin: Tin, now: nat, budget: nat, fates: nat -> Fate, n0: nat)
      returns (out: seq<Packet>, n: nat, why: Stop)
      requires At(t, tin) && tin.Valid() && tin.Busy() && budget > 0 && shaperTime <= now
      modifies this`usage, this`queuedBuffers, this`dropped, this`dequeued, this`dequeuedBytes, this`charged,
          this`books, this`shaperTime, tin, tin.flows, tin.links, tin.tags, tin.hosts
      ensures At(t, tin) && tin.Valid() && OnlyAt(books, old(books), t)
      ensures |out| <= budget && dequeued == old(dequeued) + |out| && !why.Drained?
      ensures Answered(fates, n0, n, |out|) && old(queuedBuffers) - queuedBuffers == n - n0
      ensures Open(old(shaperTime), now, out) && shaperTime == Clock(old(shaperTime), now, out)
      ensures Departed(old(tin.left), tin.left, old(tin.drops), tin.drops, out) && usage <= old(usage)
      ensures why.Shaped? <==> now < shaperTime
      ensures why.Refused? ==> why.at == n && Refuses(fates, n) && books[t].queued > 0
      ensures why.Budget? ==> Lower(books[t], old(books[t]))
    {
      hide Tin.ValidBut, BooksOk, Snapshot;
      tin.BusyIsListed();
      var i := tin.SelectFlow();
      out, n, why := [], n0, Budget;
      DepartedNone(tin.left, tin.drops);
      if tin.flows[i].state.Sparse? {
        var r, p := ServeSparse(t, tin, i, now, fates(n));
        if r.Sent? {
          assert [p][..0] == [];
          out := [p];
        }
        if r.Shut? || r.Blocked? {
          why := Refused(n);
        } else {
          AnsweredOne(fates, n0, n, 0, 1);
          n := n + 1;
          if now < shaperTime { why := Shaped; }
        }
      } else {
        var stop;
        out, n, stop := ServeFlow(t, tin, i, now, budget, fates, n0);
        if stop { why := if now < shaperTime then Shaped else Refused(n); }
      }
    }

    method Serve(t: int, tin: Tin, now: nat, budget: nat, fates: nat -> Fate, n0: nat)
      returns (out: seq<Packet>, n: nat, why: Stop)
      requires TinsOk() && BooksOk() && 0 <= t < |tins| && tin == tins[t] && tin.Busy() && budget > 0
          && shaperTime <= now
      modifies this`usage, this`queuedBuffers, this`dropped, this`dequeued, this`dequeuedBytes, this`charged,
          this`books, this`shaperTime, tin, tin.flows, tin.links, tin.tags, tin.hosts
      ensures TinsOk() && BooksOk() && |out| <= budget && dequeued == old(dequeued) + |out| && !why.Drained?
      ensures Answered(fates, n0, n, |out|) && old(queuedBuffers) - queuedBuffers == n - n0
      ensures Open(old(shaperTime), now, out) && shaperTime == Clock(old(shaperTime), now, out)
      ensures Departed(old(tin.left), tin.left, old(tin.drops), tin.drops, out) && usage <= old(usage)
      ensures Lefts() == old(Lefts())[t := tin.left] && Drops() == old(Drops())[t := tin.drops]
      ensures why.Shaped? <==> now < shaperTime
      ensures why.Refused? ==> why.at == n && Refuses(fates, n) && books[t].queued > 0
      ensures OnlyAt(books, old(books), t) && (why.Budget? ==> Lower(books[t], old(books[t])))
    {
      hide Tin.ValidBut, BooksOk, Snapshot, Lower;
      Alone(t, tin);
      out, n, why := ServeFront(t, tin, now, budget, fates, n0);
      forall u | 0 <= u < |tins|
        ensures tins[u].Valid() && books[u] == Snapshot(tins[u])
      {
        if u != t { assert old(tins[u].Valid() && books[u] == Snapshot(tins[u])); }
      }
    }

    // -------------------------------------------------------------- the enqueue path

    /** Find the packet's slot, dropping whatever an evicted flow still held. */
    method MakeRoom(t: int, tin: Tin, tag: int) returns (slot: int)
      requires At(t, tin) && tin.Valid() && 0 < tag < U32
      requires forall k :: 0 <= k < QUEUES ==> 0 <= tin.flows[k].backlog < NIL
      modifies this`usage, this`queuedBuffers, this`dropped, this`charged, this`books, tin, tin.flows, tin.links,
          tin.tags, tin.hosts
      ensures At(t, tin) && tin.Valid() && OnlyAt(books, old(books), t) && 0 <= slot < QUEUES
      ensures tin.tags.Length == QUEUES && tin.tags[slot] == tag && QueueOk(tin.flows[slot].q)
      ensures usage <= old(usage) && tin.arrived == old(tin.arrived)
      ensures usage == old(usage) - (if Crowded(old(tin.tags[..]), tag) then old(tin.flows[slot].backlog) else 0)
      ensures Len(tin.flows[slot].q) == if Crowded(old(tin.tags[..]), tag) then 0 else old(Len(tin.flows[slot].q))
    {
      hide Sound, Tin.Threaded;
      ghost var fs := tin.flows[..];
      var evicted, n, freed;
      SoundBut(fs, tin.tags[..], tin.hosts[..], tin.order, tin.arrived, tin.left, -1);
      slot, evicted, n, freed := tin.Admit(tag);
      if evicted {
        TotalsAt(fs, slot, FREE);
      }
      Evicts(t, Snapshot(tin), n, freed);
      tin.Settled(slot);
    }

    /** The counters after an eviction dropped n packets of so many bytes. */
    method Evicts(t: int, ghost b: Book, n: int, freed: int)
      requires 0 <= t < |books| && BooksOk() && n >= 0 && freed >= 0
      requires b.queued == books[t].queued - n && b.backlog == books[t].backlog - freed && b.drops == books[t].drops + n
      modifies this`usage, this`queuedBuffers, this`dropped, this`charged, this`books
      ensures BooksOk() && books == old(books)[t := b] && usage == old(usage) - freed
    {
      BookAt(books, t, b);
      books := books[t := b];
      usage := usage - freed;
      queuedBuffers := queuedBuffers - n;
      dropped := dropped + n;
      charged := charged - freed;
    }

    /** The packet goes no further: it is counted as dropped by its tin and by the scheduler. */
    method Refuse(t: int, tin: Tin)
      requires At(t, tin) && tin.Valid()
      modifies this`dropped, this`refused, this`books, tin`drops
      ensures At(t, tin) && tin.Valid() && OnlyAt(books, old(books), t) && refused == old(refused) + 1
    {
      hide Tin.ValidBut;
      tin.Refuse();
      BookAt(books, t, Snapshot(tin));
      books := books[t := Snapshot(tin)];
      dropped := dropped + 1;
      refused := refused + 1;
    }

    /** The packet, already charged to the aggregates, takes its place: the scheduler is active and
        polled from now on. */
    method TakeIn(t: int, tin: Tin, slot: int, p: Packet, hash: nat, junk: seq<Packet>)
      requires 0 <= t < |books| && books[t] == Snapshot(tin) && tin.Valid() && 0 <= slot < QUEUES
      requires tin.tags[slot] == p.tag != 0 && |junk| == RING_SIZE && Len(tin.flows[slot].q) < RING_SIZE
      requires BooksOkBut(p.len) && usage + p.len <= limit
      modifies this`usage, this`queuedBuffers, this`enqueued, this`enqueuedBytes, this`active, this`inBitmap,
          this`books, tin, tin.flows, tin.links, tin.hosts
      ensures At(t, tin) && tin.Valid() && OnlyAt(books, old(books), t)
      ensures tin.arrived == old(tin.arrived) + [p] && active && inBitmap
      ensures usage == old(usage) + p.len && queuedBuffers == old(queuedBuffers) + 1 && enqueued == old(enqueued) + 1
    {
      hide Tin.ValidBut, BooksOkBut, BooksOk, Snapshot;
      AcceptInto(tin, slot, p, hash, junk);
      Joins(t, Snapshot(tin), p.len);
    }

    /** The acceptance, told in totals. */
    method AcceptInto(tin: Tin, slot: int, p: Packet, hash: nat, junk: seq<Packet>)
      requires tin.Valid() && 0 <= slot < QUEUES && tin.tags[slot] == p.tag != 0 && |junk| == RING_SIZE
          && Len(tin.flows[slot].q) < RING_SIZE
      modifies tin, tin.flows, tin.links, tin.hosts
      ensures tin.Valid() && tin.flows.Length == QUEUES && tin.arrived == old(tin.arrived) + [p]
      ensures var b, b' := old(Snapshot(tin)), Snapshot(tin);
              b'.queued == b.queued + 1 && b'.backlog == b.backlog + p.len && b'.drops == b.drops
    {
      tin.Settled(slot);
      hide Tin.ValidBut;
      tin.Accept(slot, p, hash, junk);
    }

    /** The books while a packet is charged to the aggregates but not yet queued. */
    ghost predicate BooksOkBut(len: nat)
      reads this
    {
      && usage == BacklogIn(books) == charged - len
      && queuedBuffers == QueuedIn(books)
      && enqueued + refused + carried == dequeued + dropped + queuedBuffers
      && dropped == DropsIn(books)
      && usage <= limit && limit + maxLen < NIL
      && (queuedBuffers > 0 ==> active && inBitmap)
    }

    method Joins(t: int, ghost b: Book, len: nat)
      requires 0 <= t < |books| && BooksOkBut(len) && usage + len <= limit
      requires b.queued == books[t].queued + 1 && b.backlog == books[t].backlog + len && b.drops == books[t].drops
      modifies this`usage, this`queuedBuffers, this`enqueued, this`enqueuedBytes, this`active, this`inBitmap, this`books
      ensures BooksOk() && books == old(books)[t := b] && active && inBitmap
      ensures usage == old(usage) + len && queuedBuffers == old(queuedBuffers) + 1 && enqueued == old(enqueued) + 1
    {
      BookAt(books, t, b);
      books := books[t := b];
      usage := usage + len;
      queuedBuffers := queuedBuffers + 1;
      enqueued := enqueued + 1;
      enqueuedBytes := enqueuedBytes + len;
      active, inBitmap := true, true;
    }

    /** The packet, its slot found, is over the limit, refused above, too much for its ring, or taken. The
        aggregates may admit it or not; a full ring gives back what they charged. */
    method PlaceIn(t: int, tin: Tin, slot: int, p: Packet, hash: nat, junk: seq<Packet>, admitted: bool)
      returns (verdict: Verdict)
      requires At(t, tin) && tin.Valid() && p.len <= maxLen && |junk| == RING_SIZE && 0 <= slot < QUEUES
      requires tin.tags.Length == QUEUES && tin.tags[slot] == p.tag != 0 && QueueOk(tin.flows[slot].q)
      modifies this`usage, this`queuedBuffers, this`dropped, this`refused, this`charged, this`enqueued,
          this`enqueuedBytes
      modifies this`active, this`inBitmap, this`books, tin, tin.flows, tin.links, tin.hosts
      ensures At(t, tin) && tin.Valid() && OnlyAt(books, old(books), t)
      ensures verdict ==
              Judged(old(usage) + p.len > limit, admitted, old(Len(tin.flows[slot].q)) >= RING_SIZE)
      // One after the other: the scheduler's limit, the tiers above, the ring.
      ensures verdict.OverLimit? <==> old(usage) + p.len > limit
      ensures verdict.NotAdmitted? <==> old(usage) + p.len <= limit && !admitted
      ensures verdict.RingFull? <==> old(usage) + p.len <= limit && admitted && old(Len(tin.flows[slot].q)) >= 128
      ensures verdict.Taken? ==>
          active && inBitmap && tin.arrived == old(tin.arrived) + [p] && enqueued == old(enqueued) + 1
          && usage == old(usage) + p.len
      ensures !verdict.Taken? ==>
          tin.arrived == old(tin.arrived) && enqueued == old(enqueued) && refused == old(refused) + 1
          && usage == old(usage) && active == old(active)
    {
      hide Tin.ValidBut, Snapshot;
      if usage + p.len > limit {
        Refuse(t, tin);
        return OverLimit;
      }
      if !admitted {
        Refuse(t, tin);
        return NotAdmitted;
      }
      charged := charged + p.len;
      if Len(tin.flows[slot].q) >= RING_SIZE {
        charged := charged - p.len;
        Refuse(t, tin);
        return RingFull;
      }
      TakeIn(t, tin, slot, p, hash, junk);
      verdict := Taken;
    }

    /** The tin an arriving packet's DSCP leads to. */
    function TinOf(tinOf: nat): nat { if tinOf >= |tins| then 0 else tinOf }

    lemma TinOfIsTin(tinOf: nat)
      requires Valid()
      ensures TinOf(tinOf) < |tins| && (tinOf < |tins| ==> TinOf(tinOf) == tinOf)
      ensures tinOf >= |tins| ==> TinOf(tinOf) == 0
    {
    }

    /** A slot for the packet, in a scheduler of many tins. */
    method Room(t: int, tin: Tin, tag: int) returns (slot: int)
      requires Valid() && 0 <= t < |tins| && tin == tins[t] && 0 < tag < U32
      modifies this`usage, this`queuedBuffers, this`dropped, this`charged, this`books, tin, tin.flows, tin.links,
          tin.tags, tin.hosts
      ensures Valid() && 0 <= slot < QUEUES && tin.arrived == old(tin.arrived) && usage <= old(usage)
      ensures tin.flows.Length == tin.tags.Length == QUEUES && tin.tags[slot] == tag && QueueOk(tin.flows[slot].q)
      ensures usage == old(usage) - (if Crowded(old(tin.tags[..]), tag) then old(tin.flows[slot].backlog) else 0)
      ensures Len(tin.flows[slot].q) == if Crowded(old(tin.tags[..]), tag) then 0 else old(Len(tin.flows[slot].q))
    {
      hide Tin.ValidBut, BooksOk, Snapshot;
      BacklogBounds(t);
      slot := RoomAt(t, tin, tag);
    }

    method RoomAt(t: int, tin: Tin, tag: int) returns (slot: int)
      requires TinsOk() && BooksOk() && 0 <= t < |tins| && tin == tins[t] && 0 < tag < U32
      requires forall k :: 0 <= k < QUEUES ==> 0 <= tin.flows[k].backlog < NIL
      modifies this`usage, this`queuedBuffers, this`dropped, this`charged, this`books, tin, tin.flows, tin.links,
          tin.tags, tin.hosts
      ensures TinsOk() && BooksOk() && 0 <= slot < QUEUES && tin.arrived == old(tin.arrived) && usage <= old(usage)
      ensures tin.flows.Length == tin.tags.Length == QUEUES && tin.tags[slot] == tag && QueueOk(tin.flows[slot].q)
      ensures usage == old(usage) - (if Crowded(old(tin.tags[..]), tag) then old(tin.flows[slot].backlog) else 0)
      ensures Len(tin.flows[slot].q) == if Crowded(old(tin.tags[..]), tag) then 0 else old(Len(tin.flows[slot].q))
    {
      hide Tin.ValidBut, BooksOk, Snapshot;
      Alone(t, tin);
      slot := MakeRoom(t, tin, tag);
      forall u | 0 <= u < |tins|
        ensures tins[u].Valid() && books[u] == Snapshot(tins[u])
      {
        if u != t { assert old(tins[u].Valid() && books[u] == Snapshot(tins[u])); }
      }
    }

    /** The packet's fate at its slot, in a scheduler of many tins. */
    method Place(t: int, tin: Tin, slot: int, p: Packet, hash: nat, junk: seq<Packet>, admitted: bool)
      returns (verdict: Verdict)
      requires Valid() && 0 <= t < |tins| && tin == tins[t] && p.len <= maxLen && |junk| == RING_SIZE
          && 0 <= slot < QUEUES
      requires tin.flows.Length == tin.tags.Length == QUEUES && tin.tags[slot] == p.tag != 0
          && QueueOk(tin.flows[slot].q)
      modifies this`usage, this`queuedBuffers, this`dropped, this`refused, this`charged, this`enqueued,
          this`enqueuedBytes
      modifies this`active, this`inBitmap, this`books, tin, tin.flows, tin.links, tin.hosts
      ensures Valid()
      ensures verdict ==
              Judged(old(usage) + p.len > limit, admitted, old(Len(tin.flows[slot].q)) >= RING_SIZE)
      // One after the other: the scheduler's limit, the tiers above, the ring.
      ensures verdict.OverLimit? <==> old(usage) + p.len > limit
      ensures verdict.NotAdmitted? <==> old(usage) + p.len <= limit && !admitted
      ensures verdict.RingFull? <==> old(usage) + p.len <= limit && admitted && old(Len(tin.flows[slot].q)) >= 128
      ensures verdict.Taken? ==>
          active && inBitmap && tin.arrived == old(tin.arrived) + [p] && enqueued == old(enqueued) + 1
          && usage == old(usage) + p.len
      ensures !verdict.Taken? ==>
          tin.arrived == old(tin.arrived) && enqueued == old(enqueued) && refused == old(refused) + 1
          && usage == old(usage) && active == old(active)
    {
      hide Tin.ValidBut, BooksOk, Snapshot;
      Alone(t, tin);
      verdict := PlaceIn(t, tin, slot, p, hash, junk, admitted);
      forall u | 0 <= u < |tins|
        ensures tins[u].Valid() && books[u] == Snapshot(tins[u])
      {
        if u != t { assert old(tins[u].Valid() && books[u] == Snapshot(tins[u])); }
      }
    }

    /** A packet arrives at a tin. The flow in the way, if the packet's set is crowded, goes first, with
        its bytes; what is left decides the packet's fate. */
    method EnqueueTo(t: int, tin: Tin, p: Packet, hash: nat, junk: seq<Packet>, admitted: bool)
      returns (verdict: Verdict, slot: int)
      requires Valid() && 0 <= t < |tins| && tin == tins[t]
      requires 0 < p.tag < U32 && p.len <= maxLen && |junk| == RING_SIZE
      modifies this`usage, this`queuedBuffers, this`dropped, this`refused, this`charged, this`enqueued,
          this`enqueuedBytes
      modifies this`active, this`inBitmap, this`books, tin, tin.flows, tin.links, tin.tags, tin.hosts
      ensures Valid() && 0 <= slot < QUEUES && tin.tags.Length == tin.flows.Length == QUEUES
      ensures var crowded := Crowded(old(tin.tags[..]), p.tag);
              var held := old(usage) - (if crowded then old(tin.flows[slot].backlog) else 0);
              && verdict == Judged(held + p.len > limit, admitted,
                                   !crowded && old(Len(tin.flows[slot].q)) >= RING_SIZE)
              && usage == held + (if verdict.Taken? then p.len else 0)
              && (verdict.OverLimit? <==> held + p.len > limit)
              && (verdict.NotAdmitted? <==> held + p.len <= limit && !admitted)
              && (verdict.RingFull? <==>
                    held + p.len <= limit && admitted && !crowded && old(Len(tin.flows[slot].q)) >= 128)
      ensures tin.arrived == old(tin.arrived) + (if verdict.Taken? then [p] else [])
      ensures verdict.Taken? ==> active && inBitmap && enqueued == old(enqueued) + 1
      ensures !verdict.Taken? ==> enqueued == old(enqueued) && refused == old(refused) + 1 && active == old(active)
    {
      hide Valid, Crowded, QueueOk, Judged, Len;
      Slots(t, tin);
      slot := Room(t, tin, p.tag);
      verdict := Place(t, tin, slot, p, hash, junk, admitted);
    }

    lemma Slots(t: int, tin: Tin)
      requires Valid() && 0 <= t < |tins| && tin == tins[t]
      ensures tin.tags.Length == tin.flows.Length == QUEUES
      ensures {tin, tin.flows, tin.links, tin.tags, tin.hosts} <= repr
    {
    }

    /** A packet arrives at the owner thread, its tin given by its DSCP. */
    method Enqueue(tinOf: nat, p: Packet, hash: nat, junk: seq<Packet>, admitted: bool)
      returns (verdict: Verdict, slot: int)
      requires Valid() && 0 < p.tag < U32 && p.len <= maxLen && |junk| == RING_SIZE
      modifies this`usage, this`queuedBuffers, this`dropped, this`refused, this`charged, this`enqueued,
          this`enqueuedBytes
      modifies this`active, this`inBitmap, this`books, repr
      ensures Valid() && 0 <= slot < QUEUES
      ensures tins[TinOf(tinOf)].tags.Length == tins[TinOf(tinOf)].flows.Length == QUEUES
      ensures var tin := tins[TinOf(tinOf)];
              var crowded := Crowded(old(tin.tags[..]), p.tag);
              var held := old(usage) - (if crowded then old(tin.flows[slot].backlog) else 0);
              && verdict == Judged(held + p.len > limit, admitted,
                                   !crowded && old(Len(tin.flows[slot].q)) >= RING_SIZE)
              && usage == held + (if verdict.Taken? then p.len else 0)
              && tin.arrived == old(tin.arrived) + (if verdict.Taken? then [p] else [])
              && (verdict.OverLimit? <==> held + p.len > limit)
              && (verdict.NotAdmitted? <==> held + p.len <= limit && !admitted)
              && (verdict.RingFull? <==>
                    held + p.len <= limit && admitted && !crowded && old(Len(tin.flows[slot].q)) >= 128)
      ensures verdict.Taken? ==> active && inBitmap && enqueued == old(enqueued) + 1
      ensures !verdict.Taken? ==> enqueued == old(enqueued) && refused == old(refused) + 1 && active == old(active)
    {
      hide Valid, Crowded, QueueOk, Judged, Len;
      var t := TinOf(tinOf);
      TinOfIsTin(tinOf);
      Slots(t, tins[t]);
      verdict, slot := EnqueueTo(t, tins[t], p, hash, junk, admitted);
    }

    lemma BacklogBounds(t: int)
      requires Valid() && 0 <= t < |tins|
      ensures forall k :: 0 <= k < QUEUES ==> 0 <= tins[t].flows[k].backlog < NIL
    {
      hide Tin.ValidBut;
      SaneBooks();
      SaneTotals(books);
      tins[t].Bounds();
    }

    method ResetTin(t: int, tin: Tin)
      requires TinsOk() && 0 <= t < |tins| && tin == tins[t]
      modifies this`books, tin`packets, tin`bytes, tin`drops
      ensures TinsOk() && books == old(books)[t := old(books[t]).(drops := 0)]
    {
      hide Tin.ValidBut;
      tin.ResetCounters();
      books := books[t := books[t].(drops := 0)];
      forall u | 0 <= u < |tins|
        ensures tins[u].Valid() && books[u] == Snapshot(tins[u])
      {
        if u != t { assert old(tins[u].Valid() && books[u] == Snapshot(tins[u])); }
      }
    }

    method ResetTins()
      requires TinsOk()
      modifies this`books, repr
      ensures TinsOk() && QueuedIn(books) == old(QueuedIn(books)) && BacklogIn(books) == old(BacklogIn(books))
          && DropsIn(books) == 0
      ensures unchanged(`usage, `queuedBuffers, `charged, `enqueued, `dequeued, `dropped, `refused, `carried, `active,
          `inBitmap)
    {
      hide Tin.ValidBut, Snapshot;
      var t := 0;
      while t < |tins|
        invariant 0 <= t <= |tins| && TinsOk()
        invariant QueuedIn(books) == old(QueuedIn(books)) && BacklogIn(books) == old(BacklogIn(books))
        invariant forall u :: 0 <= u < t ==> books[u].drops == 0
      {
        BookAt(books, t, books[t].(drops := 0));
        ResetTin(t, tins[t]);
        t := t + 1;
      }
      TotalZero(books, (b: Book) => b.drops);
    }

    /** cake_sched_reset_stats: the counters start over, and what is queued is carried into the new
        balance. */
    method ResetStats()
      requires Valid()
      modifies this`enqueued, this`enqueuedBytes, this`dequeued, this`dequeuedBytes, this`dropped, this`refused,
          this`carried, this`books, repr
      ensures Valid() && enqueued == dequeued == dropped == refused == 0 && carried == queuedBuffers
    {
      hide TinsOk;
      ZeroCounters();
      ResetTins();
    }

    method ZeroCounters()
      requires TinsOk()
      modifies this`enqueued, this`enqueuedBytes, this`dequeued, this`dequeuedBytes, this`dropped, this`refused,
          this`carried
      ensures TinsOk() && enqueued == dequeued == dropped == refused == 0 && carried == queuedBuffers
    {
      hide Tin.ValidBut, Snapshot;
      enqueued, enqueuedBytes, dequeued, dequeuedBytes, dropped := 0, 0, 0, 0, 0;
      refused, carried := 0, queuedBuffers;
    }

    // -------------------------------------------------------------- life cycle

    /** A scheduler starts idle, owing nothing and owed nothing. */
    constructor (tins: seq<Tin>, limit: nat, framing: Framing, scaledRate: nat, maxLen: nat, ghost repr: set<object>)
      requires 1 <= |tins| <= MAX_TINS && limit + maxLen < NIL
      requires forall u :: 0 <= u < |tins| ==> tins[u].Valid() && Snapshot(tins[u]) == Book(0, 0, 0, 0, 0, 0)
      requires forall u :: 0 <= u < |tins| ==>
          tins[u] in repr && tins[u].flows in repr && tins[u].links in repr && tins[u].tags in repr
          && tins[u].hosts in repr
      requires forall s, t :: 0 <= s < t < |tins| ==>
                 && tins[s] != tins[t] && tins[s].flows != tins[t].flows && tins[s].links != tins[t].links
                 && tins[s].tags != tins[t].tags && tins[s].hosts != tins[t].hosts
      ensures Valid() && charged == 0 && queuedBuffers == 0 && !active
    {
      this.tins, this.limit, this.framing, this.scaledRate, this.maxLen, this.repr := tins, limit, framing,
          scaledRate, maxLen, repr;
      usage, queuedBuffers, enqueued, enqueuedBytes, dequeued, dequeuedBytes, dropped, shaperTime := 0, 0, 0, 0, 0, 0,
          0, 0;
      active, inBitmap := false, false;
      books := seq(|tins|, _ => Book(0, 0, 0, 0, 0, 0));
      charged, refused, carried := 0, 0, 0;
      new;
      hide Tin.ValidBut, Snapshot;
      BlankBooks();
      hide BooksOk;
    }

    lemma BlankBooks()
      requires forall u :: 0 <= u < |books| ==> books[u] == Book(0, 0, 0, 0, 0, 0)
      requires usage == queuedBuffers == enqueued == dequeued == dropped == charged == refused == carried == 0
          && limit + maxLen < NIL
      ensures BooksOk()
    {
      TotalZero(books, (b: Book) => b.queued);
      TotalZero(books, (b: Book) => b.backlog);
      TotalZero(books, (b: Book) => b.drops);
    }

    /** The tins from t on are sound; those before it are drained. */
    ghost predicate DrainedBelow(t: int)
      reads this, repr
    {
      && this !in repr && Apart() && 0 <= t <= |tins| == |books|
      && (forall u :: 0 <= u < |tins| ==>
         tins[u] in repr && tins[u].flows in repr && tins[u].links in repr && tins[u].tags in repr
         && tins[u].hosts in repr)
      && (forall u :: 0 <= u < t ==> books[u].queued == 0 && books[u].backlog == 0)
      && forall u :: t <= u < |tins| ==> tins[u].Valid() && books[u] == Snapshot(tins[u])
    }

    method DrainTin(t: int, tin: Tin)
      requires DrainedBelow(t) && BooksOk() && t < |tins| && tin == tins[t]
      modifies this`usage, this`queuedBuffers, this`dropped, this`charged, this`books, tin`drops, tin.flows
      ensures DrainedBelow(t + 1) && BooksOk()
    {
      hide Tin.ValidBut, BooksOk;
      var n, freed := tin.Drain();
      Evicts(t, Snapshot(tin), n, freed);
      forall u | t < u < |tins|
        ensures tins[u].Valid() && books[u] == Snapshot(tins[u])
      {
        assert old(tins[u].Valid() && books[u] == Snapshot(tins[u]));
      }
    }

    /** Tearing a scheduler down returns every byte it had charged: nothing is left on the aggregates. */
    method TearDown()
      requires Valid()
      modifies this`usage, this`queuedBuffers, this`dropped, this`charged, this`books, repr
      ensures charged == 0 && usage == 0 && queuedBuffers == 0
      ensures enqueued + refused + carried == dequeued + dropped
    {
      hide Tin.ValidBut, Snapshot;
      var t := 0;
      while t < |tins|
        invariant 0 <= t <= |tins| && DrainedBelow(t) && BooksOk()
      {
        DrainTin(t, tins[t]);
        t := t + 1;
      }
      TotalZero(books, (b: Book) => b.queued);
      TotalZero(books, (b: Book) => b.backlog);
    }
  }
}
