/** The two-tier aggregate tree of the HQoS scheduler: ports, the S-VLAN aggregates beneath them,
    and the subscriber schedulers attached to either.

    Two books are kept per aggregate. `usage` is the buffer charge of everything queued beneath it;
    `activeWeight` and `nActive` are the sum and the number of its active children, where an S-VLAN
    counts as a child of its port exactly while it has an active child of its own. The source keeps
    them in u32 and u64 registers moved by fetch-add and fetch-sub. Here they are integers, of which
    the register holds the residue (see Reg32); what is proved is that each one equals a sum of
    non-negative terms, so no subtraction ever takes a register below zero. */
module AggTree {
  import opened Sums

  const U32: int := 0x1_0000_0000
  const SVLAN_MAX: int := 4096
  const MAX_DEPTH: nat := 4

  /** A u32 pool index, ~0 when unset. */
  datatype Ref = Unset | At(i: int)

  /** A weight is never zero: see Hqos.EffectiveWeight. */
  type Pos = x: int | x >= 1 witness 1

  /** The configured part of an aggregate. */
  datatype AggConf = AggConf(
    swIf: int, svlanId: int, svlanIdEnd: int, rate: nat, weight: nat, burstNs: nat,
    bufferLimit: nat, roundBytes: nat)

  /** An aggregate: a port when it has no parent, an S-VLAN tier when it has one. */
  datatype Agg = Agg(
    conf: AggConf, parent: Ref, effWeight: Pos, svlanMap: map<int, int>,
    usage: int, activeWeight: int, nActive: int)

  /** A subscriber scheduler, as the tree sees it. usage is the bytes in its own queues. */
  datatype Sched = Sched(swIf: int, attach: Ref, effWeight: Pos, active: bool, usage: nat)

  type Aggs = map<int, Agg>
  type Scheds = map<int, Sched>

  /** What a u32 register holds of an integer. */
  function Reg32(x: int): (r: int)
    ensures 0 <= r < U32
    ensures 0 <= x < U32 ==> r == x
  {
    x % U32
  }

  // ---------------------------------------------------------------- the tree

  ghost predicate TreeOk(aggs: Aggs) {
    forall c, p {:trigger aggs[c], p in aggs} ::
      c in aggs && aggs[c].parent == At(p) ==> p in aggs && aggs[p].parent.Unset?
  }

  ghost predicate AttachOk(aggs: Aggs, scheds: Scheds) {
    forall s, a {:trigger scheds[s], a in aggs} ::
      s in scheds && scheds[s].attach == At(a) ==> a in aggs
  }

  /** The aggregates from idx to the root, cut at MAX_DEPTH as the walk is. */
  function Chain(aggs: Aggs, idx: Ref, depth: nat): (r: seq<int>)
    ensures forall a :: a in r ==> a in aggs
    decreases depth
  {
    if depth == 0 || idx.Unset? || idx.i !in aggs then []
    else [idx.i] + Chain(aggs, aggs[idx.i].parent, depth - 1)
  }

  /** Whether a is idx or the tier above it. */
  predicate OnChain(aggs: Aggs, idx: Ref, a: int) {
    idx.At? && (idx.i == a || (idx.i in aggs && aggs[idx.i].parent == At(a)))
  }

  /** In a tree of ports and S-VLANs the bounded walk misses nothing and repeats nothing. */
  lemma ChainIsOnChain(aggs: Aggs, idx: Ref)
    requires TreeOk(aggs) && (idx.At? ==> idx.i in aggs)
    ensures forall a :: a in Chain(aggs, idx, MAX_DEPTH) <==> OnChain(aggs, idx, a)
    ensures var c := Chain(aggs, idx, MAX_DEPTH);
            forall i, j :: 0 <= i < j < |c| ==> c[i] != c[j]
  {
    if idx.At? {
      var up := aggs[idx.i].parent;
      assert Chain(aggs, idx, 4) == [idx.i] + Chain(aggs, up, 3);
      if up.At? {
        assert Chain(aggs, up, 3) == [up.i] + Chain(aggs, aggs[up.i].parent, 2);
        assert Chain(aggs, idx, 4) == [idx.i, up.i];
      } else {
        assert Chain(aggs, idx, 4) == [idx.i];
      }
    }
  }

  /** Same keys and same parents. */
  ghost predicate SameShape(aggs: Aggs, aggs': Aggs) {
    aggs.Keys == aggs'.Keys && forall a :: a in aggs ==> aggs'[a].parent == aggs[a].parent
  }

  // ---------------------------------------------------------------- buffer charge

  type Ledger = map<int, nat>

  /** Bytes scheduler s has charged to aggregate a. */
  ghost function Share(aggs: Aggs, scheds: Scheds, ledger: Ledger, a: int, s: int): int {
    if s in scheds && s in ledger && OnChain(aggs, scheds[s].attach, a) then ledger[s] else 0
  }

  ghost function Shares(aggs: Aggs, scheds: Scheds, ledger: Ledger, a: int): int -> int {
    s => Share(aggs, scheds, ledger, a, s)
  }

  /** The bytes charged by every scheduler attached at or beneath a. */
  ghost function Charge(aggs: Aggs, scheds: Scheds, ledger: Ledger, a: int): int {
    Sum(scheds.Keys, Shares(aggs, scheds, ledger, a))
  }

  ghost predicate ChargeOk(aggs: Aggs, scheds: Scheds, ledger: Ledger) {
    && scheds.Keys == ledger.Keys
    && forall a {:trigger Charge(aggs, scheds, ledger, a)} ::
         a in aggs ==> aggs[a].usage == Charge(aggs, scheds, ledger, a)
  }

  /** Moving one scheduler, or its charge, moves every total by that scheduler's share alone. */
  lemma ChargeChange(aggs: Aggs, scheds: Scheds, ledger: Ledger,
                     aggs': Aggs, scheds': Scheds, ledger': Ledger, s: int, a: int)
    requires SameShape(aggs, aggs')
    requires scheds.Keys == scheds'.Keys == ledger.Keys == ledger'.Keys && s in scheds
    requires forall x :: x in scheds && x != s ==>
                           scheds'[x].attach == scheds[x].attach && ledger'[x] == ledger[x]
    ensures Charge(aggs', scheds', ledger', a) ==
            Charge(aggs, scheds, ledger, a)
            - Share(aggs, scheds, ledger, a, s) + Share(aggs', scheds', ledger', a, s)
  {
    Change(scheds.Keys, Shares(aggs, scheds, ledger, a), Shares(aggs', scheds', ledger', a), s);
  }

  /** Every aggregate's charge is non-negative and at least any one share of it. */
  lemma ChargeCovers(aggs: Aggs, scheds: Scheds, ledger: Ledger, a: int, s: int)
    ensures Charge(aggs, scheds, ledger, a) >= 0
    ensures s in scheds ==> Share(aggs, scheds, ledger, a, s) <= Charge(aggs, scheds, ledger, a)
  {
    NonNegativeAt(scheds.Keys, Shares(aggs, scheds, ledger, a), s);
  }

  function ChainSet(aggs: Aggs, idx: Ref): set<int> {
    set a | a in aggs && OnChain(aggs, idx, a)
  }

  /** Charge x to the tiers of plus and release it from the tiers of minus; a tier on both is
      charged and discharged once and so not touched. */
  function Transfer(aggs: Aggs, plus: set<int>, minus: set<int>, x: int): Aggs {
    map a | a in aggs ::
      if a in plus && a !in minus then aggs[a].(usage := aggs[a].usage + x)
      else if a in minus && a !in plus then aggs[a].(usage := aggs[a].usage - x)
      else aggs[a]
  }

  /** Charges stay balanced when every tier moves by the change in one scheduler's share. */
  lemma ChargeBalances(aggs: Aggs, scheds: Scheds, ledger: Ledger,
                       aggs': Aggs, scheds': Scheds, ledger': Ledger, s: int)
    requires ChargeOk(aggs, scheds, ledger) && SameShape(aggs, aggs')
    requires scheds.Keys == scheds'.Keys == ledger'.Keys && s in scheds
    requires forall x :: x in scheds && x != s ==>
                           scheds'[x].attach == scheds[x].attach && ledger'[x] == ledger[x]
    requires forall a :: a in aggs ==>
                           aggs'[a].usage - aggs[a].usage ==
                           Share(aggs', scheds', ledger', a, s) - Share(aggs, scheds, ledger, a, s)
    ensures ChargeOk(aggs', scheds', ledger')
  {
    forall a | a in aggs'
      ensures aggs'[a].usage == Charge(aggs', scheds', ledger', a)
    {
      ChargeChange(aggs, scheds, ledger, aggs', scheds', ledger', s, a);
      assert aggs[a].usage == Charge(aggs, scheds, ledger, a);
    }
  }

  // ---------------------------------------------------------------- active weight

  ghost function SchedWeight(scheds: Scheds, a: int, s: int): int {
    if s in scheds && scheds[s].active && scheds[s].attach == At(a) then scheds[s].effWeight else 0
  }

  ghost function SchedWeights(scheds: Scheds, a: int): int -> int { s => SchedWeight(scheds, a, s) }

  ghost function SchedCount(scheds: Scheds, a: int, s: int): int {
    if s in scheds && scheds[s].active && scheds[s].attach == At(a) then 1 else 0
  }

  ghost function SchedCounts(scheds: Scheds, a: int): int -> int { s => SchedCount(scheds, a, s) }

  ghost function TierWeight(aggs: Aggs, a: int, c: int): int {
    if c in aggs && aggs[c].parent == At(a) && aggs[c].nActive > 0 then aggs[c].effWeight else 0
  }

  ghost function TierWeights(aggs: Aggs, a: int): int -> int { c => TierWeight(aggs, a, c) }

  ghost function TierCount(aggs: Aggs, a: int, c: int): int {
    if c in aggs && aggs[c].parent == At(a) && aggs[c].nActive > 0 then 1 else 0
  }

  ghost function TierCounts(aggs: Aggs, a: int): int -> int { c => TierCount(aggs, a, c) }

  /** The weight of a's active schedulers plus that of its child tiers with an active child. */
  ghost function ActiveWeight(aggs: Aggs, scheds: Scheds, a: int): int {
    Sum(scheds.Keys, SchedWeights(scheds, a)) + Sum(aggs.Keys, TierWeights(aggs, a))
  }

  ghost function ActiveCount(aggs: Aggs, scheds: Scheds, a: int): int {
    Sum(scheds.Keys, SchedCounts(scheds, a)) + Sum(aggs.Keys, TierCounts(aggs, a))
  }

  ghost predicate WeightOk(aggs: Aggs, scheds: Scheds) {
    forall a {:trigger ActiveWeight(aggs, scheds, a)} {:trigger ActiveCount(aggs, scheds, a)} ::
      a in aggs ==>
        && aggs[a].activeWeight == ActiveWeight(aggs, scheds, a)
        && aggs[a].nActive == ActiveCount(aggs, scheds, a)
  }

  /** cake_drr_parent_join and cake_drr_parent_leave on one aggregate. */
  function JoinOne(g: Agg, w: nat): Agg {
    g.(activeWeight := g.activeWeight + w, nActive := g.nActive + 1)
  }

  function LeaveOne(g: Agg, w: nat): Agg {
    g.(activeWeight := g.activeWeight - w, nActive := g.nActive - 1)
  }

  /** cake_agg_weight_add: join idx, and carry the transition up when it was the first child. */
  function WeightAdd(aggs: Aggs, idx: Ref, w: nat): Aggs {
    if idx.Unset? || idx.i !in aggs then aggs
    else
      var g := aggs[idx.i];
      var aggs1 := aggs[idx.i := JoinOne(g, w)];
      if g.nActive == 0 && g.parent.At? && g.parent.i in aggs1 then
        aggs1[g.parent.i := JoinOne(aggs1[g.parent.i], g.effWeight)]
      else aggs1
  }

  /** cake_agg_weight_sub: leave idx, and carry the transition up when it was the last child. */
  function WeightSub(aggs: Aggs, idx: Ref, w: nat): Aggs {
    if idx.Unset? || idx.i !in aggs then aggs
    else
      var g := aggs[idx.i];
      var aggs1 := aggs[idx.i := LeaveOne(g, w)];
      if g.nActive == 1 && g.parent.At? && g.parent.i in aggs1 then
        aggs1[g.parent.i := LeaveOne(aggs1[g.parent.i], g.effWeight)]
      else aggs1
  }

  /** Only the two weight books differ. */
  ghost predicate BooksOnly(aggs: Aggs, aggs': Aggs) {
    && aggs.Keys == aggs'.Keys
    && forall x :: x in aggs ==>
         aggs'[x] == aggs[x].(activeWeight := aggs'[x].activeWeight, nActive := aggs'[x].nActive)
  }

  lemma SchedSumsChange(scheds: Scheds, scheds': Scheds, s: int, a: int)
    requires scheds.Keys == scheds'.Keys && s in scheds
    requires forall x :: x in scheds && x != s ==> scheds'[x] == scheds[x]
    ensures Sum(scheds'.Keys, SchedWeights(scheds', a)) ==
            Sum(scheds.Keys, SchedWeights(scheds, a)) - SchedWeight(scheds, a, s) + SchedWeight(scheds', a, s)
    ensures Sum(scheds'.Keys, SchedCounts(scheds', a)) ==
            Sum(scheds.Keys, SchedCounts(scheds, a)) - SchedCount(scheds, a, s) + SchedCount(scheds', a, s)
  {
    Change(scheds.Keys, SchedWeights(scheds, a), SchedWeights(scheds', a), s);
    Change(scheds.Keys, SchedCounts(scheds, a), SchedCounts(scheds', a), s);
  }

  /** What a tier's child sums read of the aggregates, apart from tier c. */
  ghost predicate SameTiersBut(aggs: Aggs, aggs': Aggs, c: int) {
    && aggs.Keys == aggs'.Keys
    && forall x :: x in aggs && x != c ==>
         && aggs'[x].parent == aggs[x].parent
         && aggs'[x].effWeight == aggs[x].effWeight
         && (aggs[x].parent.At? ==> (aggs'[x].nActive > 0 <==> aggs[x].nActive > 0))
  }

  lemma TierSumsChange(aggs: Aggs, aggs': Aggs, c: int, a: int)
    requires SameTiersBut(aggs, aggs', c) && c in aggs
    ensures Sum(aggs'.Keys, TierWeights(aggs', a)) ==
            Sum(aggs.Keys, TierWeights(aggs, a)) - TierWeight(aggs, a, c) + TierWeight(aggs', a, c)
    ensures Sum(aggs'.Keys, TierCounts(aggs', a)) ==
            Sum(aggs.Keys, TierCounts(aggs, a)) - TierCount(aggs, a, c) + TierCount(aggs', a, c)
  {
    Change(aggs.Keys, TierWeights(aggs, a), TierWeights(aggs', a), c);
    Change(aggs.Keys, TierCounts(aggs, a), TierCounts(aggs', a), c);
  }

  /** The sums at a, before and after, once the four terms that moved are known. */
  lemma Balance(aggs: Aggs, scheds: Scheds, aggs': Aggs, scheds': Scheds, s: int, c: int, a: int, dw: int, dn: int)
    requires scheds.Keys == scheds'.Keys && s in scheds
    requires forall x :: x in scheds && x != s ==> scheds'[x] == scheds[x]
    requires SameTiersBut(aggs, aggs', c) && c in aggs
    requires SchedWeight(scheds', a, s) - SchedWeight(scheds, a, s)
        + TierWeight(aggs', a, c) - TierWeight(aggs, a, c) == dw
    requires SchedCount(scheds', a, s) - SchedCount(scheds, a, s) + TierCount(aggs', a, c) - TierCount(aggs, a, c) == dn
    ensures ActiveWeight(aggs', scheds', a) == ActiveWeight(aggs, scheds, a) + dw
    ensures ActiveCount(aggs', scheds', a) == ActiveCount(aggs, scheds, a) + dn
  {
    SchedSumsChange(scheds, scheds', s, a);
    TierSumsChange(aggs, aggs', c, a);
  }

  lemma WeightAddShape(aggs: Aggs, idx: Ref, w: nat)
    requires TreeOk(aggs) && idx.At? && idx.i in aggs
    requires aggs[idx.i].nActive >= 0
    ensures BooksOnly(aggs, WeightAdd(aggs, idx, w))
    ensures forall p :: p in aggs && aggs[idx.i].parent == At(p) && aggs[p].nActive >= 0 ==>
                          SameTiersBut(aggs, WeightAdd(aggs, idx, w), idx.i)
    ensures aggs[idx.i].parent.Unset? ==> SameTiersBut(aggs, WeightAdd(aggs, idx, w), idx.i)
  {
  }

  lemma WeightSubShape(aggs: Aggs, idx: Ref, w: nat)
    requires TreeOk(aggs) && idx.At? && idx.i in aggs
    ensures BooksOnly(aggs, WeightSub(aggs, idx, w))
    ensures SameTiersBut(aggs, WeightSub(aggs, idx, w), idx.i)
  {
  }

  lemma SchedTermsBounded(scheds: Scheds, a: int, s: int)
    ensures Sum(scheds.Keys, SchedWeights(scheds, a)) >= 0 && Sum(scheds.Keys, SchedCounts(scheds, a)) >= 0
    ensures s in scheds ==>
              && SchedWeight(scheds, a, s) <= Sum(scheds.Keys, SchedWeights(scheds, a))
              && SchedCount(scheds, a, s) <= Sum(scheds.Keys, SchedCounts(scheds, a))
  {
    NonNegativeAt(scheds.Keys, SchedWeights(scheds, a), s);
    NonNegativeAt(scheds.Keys, SchedCounts(scheds, a), s);
  }

  lemma TierTermsBounded(aggs: Aggs, a: int, c: int)
    ensures Sum(aggs.Keys, TierWeights(aggs, a)) >= 0 && Sum(aggs.Keys, TierCounts(aggs, a)) >= 0
    ensures c in aggs ==>
              && TierWeight(aggs, a, c) <= Sum(aggs.Keys, TierWeights(aggs, a))
              && TierCount(aggs, a, c) <= Sum(aggs.Keys, TierCounts(aggs, a))
  {
    NonNegativeAt(aggs.Keys, TierWeights(aggs, a), c);
    NonNegativeAt(aggs.Keys, TierCounts(aggs, a), c);
  }

  /** Both books are sums of non-negative terms, each at least any one child's term. */
  lemma BooksCover(aggs: Aggs, scheds: Scheds, a: int, s: int, c: int)
    requires WeightOk(aggs, scheds) && a in aggs
    ensures aggs[a].nActive >= 0 && aggs[a].activeWeight >= 0
    ensures s in scheds ==>
        SchedWeight(scheds, a, s) <= aggs[a].activeWeight && SchedCount(scheds, a, s) <= aggs[a].nActive
    ensures c in aggs ==> TierWeight(aggs, a, c) <= aggs[a].activeWeight && TierCount(aggs, a, c) <= aggs[a].nActive
  {
    SchedTermsBounded(scheds, a, s);
    TierTermsBounded(aggs, a, c);
    assert aggs[a].activeWeight == ActiveWeight(aggs, scheds, a);
  }

  /** Activating an attached scheduler: the books balance again after cake_agg_weight_add. */
  lemma JoinBalances(aggs: Aggs, scheds: Scheds, s: int)
    requires TreeOk(aggs) && AttachOk(aggs, scheds) && WeightOk(aggs, scheds)
    requires s in scheds && !scheds[s].active && scheds[s].attach.At?
    ensures var aggs' := WeightAdd(aggs, scheds[s].attach, scheds[s].effWeight);
            var scheds' := scheds[s := scheds[s].(active := true)];
            WeightOk(aggs', scheds') && BooksOnly(aggs, aggs')
  {
    var me := scheds[s];
    var c := me.attach.i;
    var aggs' := WeightAdd(aggs, me.attach, me.effWeight);
    var scheds' := scheds[s := me.(active := true)];
    BooksCover(aggs, scheds, c, s, c);
    if aggs[c].parent.At? {
      BooksCover(aggs, scheds, aggs[c].parent.i, s, c);
    }
    WeightAddShape(aggs, me.attach, me.effWeight);
    forall a | a in aggs
      ensures aggs'[a].activeWeight == ActiveWeight(aggs', scheds', a)
      ensures aggs'[a].nActive == ActiveCount(aggs', scheds', a)
    {
      Balance(aggs, scheds, aggs', scheds', s, c, a,
              aggs'[a].activeWeight - aggs[a].activeWeight, aggs'[a].nActive - aggs[a].nActive);
      assert aggs[a].activeWeight == ActiveWeight(aggs, scheds, a);
    }
  }

  /** Deactivating one: the books balance again after cake_agg_weight_sub. */
  lemma LeaveBalances(aggs: Aggs, scheds: Scheds, s: int)
    requires TreeOk(aggs) && AttachOk(aggs, scheds) && WeightOk(aggs, scheds)
    requires s in scheds && scheds[s].active && scheds[s].attach.At?
    ensures var aggs' := WeightSub(aggs, scheds[s].attach, scheds[s].effWeight);
            var scheds' := scheds[s := scheds[s].(active := false)];
            WeightOk(aggs', scheds') && BooksOnly(aggs, aggs')
  {
    var me := scheds[s];
    var c := me.attach.i;
    var aggs' := WeightSub(aggs, me.attach, me.effWeight);
    var scheds' := scheds[s := me.(active := false)];
    BooksCover(aggs, scheds, c, s, c);
    assert SchedCount(scheds, c, s) == 1;
    WeightSubShape(aggs, me.attach, me.effWeight);
    forall a | a in aggs
      ensures aggs'[a].activeWeight == ActiveWeight(aggs', scheds', a)
      ensures aggs'[a].nActive == ActiveCount(aggs', scheds', a)
    {
      Balance(aggs, scheds, aggs', scheds', s, c, a,
              aggs'[a].activeWeight - aggs[a].activeWeight, aggs'[a].nActive - aggs[a].nActive);
      assert aggs[a].activeWeight == ActiveWeight(aggs, scheds, a);
    }
  }

  // ---------------------------------------------------------------- framing the two books

  /** Only the buffer charge differs. */
  ghost predicate UsageOnly(aggs: Aggs, aggs': Aggs) {
    && aggs.Keys == aggs'.Keys
    && forall x :: x in aggs ==> aggs'[x] == aggs[x].(usage := aggs'[x].usage)
  }

  lemma SchedSumsSame(scheds: Scheds, scheds': Scheds, a: int)
    requires scheds.Keys == scheds'.Keys
    requires forall s :: s in scheds ==> scheds'[s] == scheds[s].(usage := scheds'[s].usage)
    ensures Sum(scheds'.Keys, SchedWeights(scheds', a)) == Sum(scheds.Keys, SchedWeights(scheds, a))
    ensures Sum(scheds'.Keys, SchedCounts(scheds', a)) == Sum(scheds.Keys, SchedCounts(scheds, a))
  {
    Same(scheds.Keys, SchedWeights(scheds, a), SchedWeights(scheds', a));
    Same(scheds.Keys, SchedCounts(scheds, a), SchedCounts(scheds', a));
  }

  lemma TierSumsSame(aggs: Aggs, aggs': Aggs, a: int)
    requires UsageOnly(aggs, aggs')
    ensures Sum(aggs'.Keys, TierWeights(aggs', a)) == Sum(aggs.Keys, TierWeights(aggs, a))
    ensures Sum(aggs'.Keys, TierCounts(aggs', a)) == Sum(aggs.Keys, TierCounts(aggs, a))
  {
    Same(aggs.Keys, TierWeights(aggs, a), TierWeights(aggs', a));
    Same(aggs.Keys, TierCounts(aggs, a), TierCounts(aggs', a));
  }

  lemma UsageKeepsWeight(aggs: Aggs, aggs': Aggs, scheds: Scheds, scheds': Scheds)
    requires UsageOnly(aggs, aggs') && WeightOk(aggs, scheds)
    requires scheds.Keys == scheds'.Keys
    requires forall s :: s in scheds ==> scheds'[s] == scheds[s].(usage := scheds'[s].usage)
    ensures WeightOk(aggs', scheds')
  {
    forall a | a in aggs'
      ensures aggs'[a].activeWeight == ActiveWeight(aggs', scheds', a)
      ensures aggs'[a].nActive == ActiveCount(aggs', scheds', a)
    {
      SchedSumsSame(scheds, scheds', a);
      TierSumsSame(aggs, aggs', a);
      assert aggs[a].activeWeight == ActiveWeight(aggs, scheds, a);
    }
  }

  lemma ShapeKeepsCharge(aggs: Aggs, aggs': Aggs, scheds: Scheds, scheds': Scheds, ledger: Ledger)
    requires SameShape(aggs, aggs') && ChargeOk(aggs, scheds, ledger)
    requires forall x :: x in aggs ==> aggs'[x].usage == aggs[x].usage
    requires scheds.Keys == scheds'.Keys
    requires forall s :: s in scheds ==> scheds'[s].attach == scheds[s].attach
    ensures ChargeOk(aggs', scheds', ledger)
  {
    forall a | a in aggs'
      ensures aggs'[a].usage == Charge(aggs', scheds', ledger, a)
    {
      Same(scheds.Keys, Shares(aggs, scheds, ledger, a), Shares(aggs', scheds', ledger, a));
      assert aggs[a].usage == Charge(aggs, scheds, ledger, a);
    }
  }

  /** An inactive scheduler weighs nothing, wherever it hangs. */
  lemma MoveInactive(aggs: Aggs, scheds: Scheds, s: int, attach: Ref)
    requires WeightOk(aggs, scheds) && s in scheds && !scheds[s].active
    ensures WeightOk(aggs, scheds[s := scheds[s].(attach := attach)])
  {
    var scheds' := scheds[s := scheds[s].(attach := attach)];
    forall a | a in aggs
      ensures aggs[a].activeWeight == ActiveWeight(aggs, scheds', a)
      ensures aggs[a].nActive == ActiveCount(aggs, scheds', a)
    {
      SchedSumsChange(scheds, scheds', s, a);
      assert aggs[a].activeWeight == ActiveWeight(aggs, scheds, a);
    }
  }

  // ---------------------------------------------------------------- growing and shrinking the pools

  /** A new scheduler is idle and empty, so every total already includes it. */
  lemma AddSched(aggs: Aggs, scheds: Scheds, ledger: Ledger, s: int, me: Sched)
    requires ChargeOk(aggs, scheds, ledger) && WeightOk(aggs, scheds)
    requires s !in scheds && !me.active
    ensures ChargeOk(aggs, scheds[s := me], ledger[s := 0]) && WeightOk(aggs, scheds[s := me])
  {
    var scheds', ledger' := scheds[s := me], ledger[s := 0];
    forall a | a in aggs
      ensures aggs[a].usage == Charge(aggs, scheds', ledger', a)
    {
      Grow(scheds.Keys, scheds'.Keys, Shares(aggs, scheds, ledger, a), Shares(aggs, scheds', ledger', a), s);
      assert aggs[a].usage == Charge(aggs, scheds, ledger, a);
    }
    SchedPoolKeepsWeight(aggs, scheds, scheds', s);
  }

  /** A drained, idle scheduler leaves every total as it was. */
  lemma RemoveSched(aggs: Aggs, scheds: Scheds, ledger: Ledger, s: int)
    requires ChargeOk(aggs, scheds, ledger) && WeightOk(aggs, scheds)
    requires s in scheds && !scheds[s].active && ledger[s] == 0
    ensures ChargeOk(aggs, scheds - {s}, ledger - {s}) && WeightOk(aggs, scheds - {s})
  {
    var scheds', ledger' := scheds - {s}, ledger - {s};
    forall a | a in aggs
      ensures aggs[a].usage == Charge(aggs, scheds', ledger', a)
    {
      assert scheds.Keys == scheds'.Keys + {s};
      Grow(scheds'.Keys, scheds.Keys, Shares(aggs, scheds', ledger', a), Shares(aggs, scheds, ledger, a), s);
      assert aggs[a].usage == Charge(aggs, scheds, ledger, a);
    }
    SchedPoolKeepsWeight(aggs, scheds', scheds, s);
  }

  lemma SchedPoolSums(small: Scheds, big: Scheds, s: int, a: int)
    requires s !in small && big.Keys == small.Keys + {s} && !big[s].active
    requires forall x :: x in small ==> big[x] == small[x]
    ensures Sum(small.Keys, SchedWeights(small, a)) == Sum(big.Keys, SchedWeights(big, a))
    ensures Sum(small.Keys, SchedCounts(small, a)) == Sum(big.Keys, SchedCounts(big, a))
  {
    SchedPoolWeights(small, big, s, a);
    SchedPoolCounts(small, big, s, a);
  }

  lemma SchedPoolWeights(small: Scheds, big: Scheds, s: int, a: int)
    requires s !in small && big.Keys == small.Keys + {s} && !big[s].active
    requires forall x :: x in small ==> big[x] == small[x]
    ensures Sum(small.Keys, SchedWeights(small, a)) == Sum(big.Keys, SchedWeights(big, a))
  {
    Grow(small.Keys, big.Keys, SchedWeights(small, a), SchedWeights(big, a), s);
  }

  lemma SchedPoolCounts(small: Scheds, big: Scheds, s: int, a: int)
    requires s !in small && big.Keys == small.Keys + {s} && !big[s].active
    requires forall x :: x in small ==> big[x] == small[x]
    ensures Sum(small.Keys, SchedCounts(small, a)) == Sum(big.Keys, SchedCounts(big, a))
  {
    Grow(small.Keys, big.Keys, SchedCounts(small, a), SchedCounts(big, a), s);
  }

  lemma SchedPoolKeepsWeight(aggs: Aggs, small: Scheds, big: Scheds, s: int)
    requires s !in small && big.Keys == small.Keys + {s} && !big[s].active
    requires forall x :: x in small ==> big[x] == small[x]
    ensures WeightOk(aggs, small) <==> WeightOk(aggs, big)
  {
    forall a | a in aggs
      ensures ActiveWeight(aggs, small, a) == ActiveWeight(aggs, big, a)
      ensures ActiveCount(aggs, small, a) == ActiveCount(aggs, big, a)
    {
      SchedPoolSums(small, big, s, a);
    }
  }

  /** Nothing hangs off aggregate n. */
  ghost predicate Childless(aggs: Aggs, scheds: Scheds, n: int) {
    && (forall s :: s in scheds ==> scheds[s].attach != At(n))
    && (forall c :: c in aggs ==> aggs[c].parent != At(n))
  }

  ghost predicate PoolOf(small: Aggs, big: Aggs, n: int) {
    && n !in small && n in big && small.Keys + {n} == big.Keys
    && forall x :: x in small ==> big[x] == small[x]
  }

  lemma TierPoolWeights(small: Aggs, big: Aggs, n: int, a: int)
    requires PoolOf(small, big, n) && big[n].nActive == 0
    ensures Sum(big.Keys, TierWeights(big, a)) == Sum(small.Keys, TierWeights(small, a))
  {
    Grow(small.Keys, big.Keys, TierWeights(small, a), TierWeights(big, a), n);
  }

  lemma TierPoolCounts(small: Aggs, big: Aggs, n: int, a: int)
    requires PoolOf(small, big, n) && big[n].nActive == 0
    ensures Sum(big.Keys, TierCounts(big, a)) == Sum(small.Keys, TierCounts(small, a))
  {
    Grow(small.Keys, big.Keys, TierCounts(small, a), TierCounts(big, a), n);
  }

  lemma AggPoolSums(small: Aggs, big: Aggs, scheds: Scheds, n: int, a: int)
    requires PoolOf(small, big, n) && big[n].nActive == 0
    ensures ActiveWeight(small, scheds, a) == ActiveWeight(big, scheds, a)
    ensures ActiveCount(small, scheds, a) == ActiveCount(big, scheds, a)
  {
    TierPoolWeights(small, big, n, a);
    TierPoolCounts(small, big, n, a);
  }

  lemma AggPoolCharge(small: Aggs, big: Aggs, scheds: Scheds, ledger: Ledger, n: int, a: int)
    requires PoolOf(small, big, n) && Childless(big, scheds, n) && a != n
    ensures Charge(small, scheds, ledger, a) == Charge(big, scheds, ledger, a)
  {
    Same(scheds.Keys, Shares(small, scheds, ledger, a), Shares(big, scheds, ledger, a));
  }

  lemma ChildlessIsZero(aggs: Aggs, scheds: Scheds, ledger: Ledger, n: int)
    requires Childless(aggs, scheds, n)
    ensures Charge(aggs, scheds, ledger, n) == 0
    ensures ActiveWeight(aggs, scheds, n) == 0 && ActiveCount(aggs, scheds, n) == 0
  {
    var sw, sc, tw, tc := SchedWeights(scheds, n), SchedCounts(scheds, n), TierWeights(aggs, n), TierCounts(aggs, n);
    AllZero(scheds.Keys, sw);
    AllZero(scheds.Keys, sc);
    AllZero(aggs.Keys, tw);
    AllZero(aggs.Keys, tc);
    forall s | s in scheds
      ensures Share(aggs, scheds, ledger, n, s) == 0
    {
      assert scheds[s].attach.At? && scheds[s].attach.i in aggs ==> aggs[scheds[s].attach.i].parent != At(n);
    }
    AllZero(scheds.Keys, Shares(aggs, scheds, ledger, n));
  }

  lemma PoolGrows(small: Aggs, big: Aggs, scheds: Scheds, ledger: Ledger, n: int)
    requires PoolOf(small, big, n) && Childless(big, scheds, n)
    requires big[n].usage == 0 && big[n].activeWeight == 0 && big[n].nActive == 0
    requires WeightOk(small, scheds) && ChargeOk(small, scheds, ledger)
    ensures WeightOk(big, scheds) && ChargeOk(big, scheds, ledger)
  {
    hide ActiveWeight, ActiveCount, Charge;
    ChildlessIsZero(big, scheds, ledger, n);
    forall a | a in big
      ensures big[a].activeWeight == ActiveWeight(big, scheds, a) && big[a].nActive == ActiveCount(big, scheds, a)
      ensures big[a].usage == Charge(big, scheds, ledger, a)
    {
      if a != n {
        AggPoolSums(small, big, scheds, n, a);
        AggPoolCharge(small, big, scheds, ledger, n, a);
      }
    }
  }

  lemma PoolShrinks(small: Aggs, big: Aggs, scheds: Scheds, ledger: Ledger, n: int)
    requires PoolOf(small, big, n) && Childless(big, scheds, n) && big[n].nActive == 0
    requires WeightOk(big, scheds) && ChargeOk(big, scheds, ledger)
    ensures WeightOk(small, scheds) && ChargeOk(small, scheds, ledger)
  {
    forall a | a in small
      ensures small[a].activeWeight == ActiveWeight(small, scheds, a)
          && small[a].nActive == ActiveCount(small, scheds, a)
      ensures small[a].usage == Charge(small, scheds, ledger, a)
    {
      AggPoolSums(small, big, scheds, n, a);
      AggPoolCharge(small, big, scheds, ledger, n, a);
    }
  }

  /** A fresh aggregate starts with empty books, and changes nobody else's. */
  lemma AddAgg(aggs: Aggs, scheds: Scheds, ledger: Ledger, n: int, g: Agg)
    requires TreeOk(aggs) && AttachOk(aggs, scheds) && ChargeOk(aggs, scheds, ledger) && WeightOk(aggs, scheds)
    requires n !in aggs && g.usage == 0 && g.activeWeight == 0 && g.nActive == 0 && g.parent != At(n)
    requires g.parent.At? ==> g.parent.i in aggs && aggs[g.parent.i].parent.Unset?
    ensures var aggs' := aggs[n := g];
            TreeOk(aggs') && AttachOk(aggs', scheds) && ChargeOk(aggs', scheds, ledger) && WeightOk(aggs', scheds)
  {
    var aggs' := aggs[n := g];
    assert Childless(aggs', scheds, n) by {
      assert forall s :: s in scheds && scheds[s].attach == At(n) ==> n in aggs;
      assert forall c :: c in aggs && aggs[c].parent == At(n) ==> n in aggs;
    }
    PoolGrows(aggs, aggs', scheds, ledger, n);
  }

  /** An aggregate nothing hangs off can go: its books are empty and nobody counted it. */
  lemma RemoveAgg(aggs: Aggs, scheds: Scheds, ledger: Ledger, n: int)
    requires TreeOk(aggs) && AttachOk(aggs, scheds) && ChargeOk(aggs, scheds, ledger) && WeightOk(aggs, scheds)
    requires n in aggs && Childless(aggs, scheds, n)
    ensures var aggs' := aggs - {n};
            TreeOk(aggs') && AttachOk(aggs', scheds) && ChargeOk(aggs', scheds, ledger) && WeightOk(aggs', scheds)
    ensures aggs[n].usage == 0 && aggs[n].activeWeight == 0 && aggs[n].nActive == 0
  {
    ChildlessIsZero(aggs, scheds, ledger, n);
    assert aggs[n].usage == Charge(aggs, scheds, ledger, n);
    assert aggs[n].activeWeight == ActiveWeight(aggs, scheds, n);
    PoolShrinks(aggs - {n}, aggs, scheds, ledger, n);
  }
}
