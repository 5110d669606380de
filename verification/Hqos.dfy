/** The aggregate tree as the plugin mutates it: packet-path charges, activation, and the
    configuration operations that run under the worker barrier and move weight and outstanding
    charge between tiers while packets stay queued. */
module Hqos {
  import opened Sums
  import opened AggTree

  /** One hop of the walk from a scheduler's interface towards the physical port: the interface,
      and its 802.1Q tag when it is a single-tagged sub-interface. */
  datatype Hop = Hop(swIf: int, tag: Ref)

  /** The interface layer: for each interface, the hops from it to its outermost parent. It
      changes outside this module's control, so every operation that walks it takes it afresh. */
  type Topology = int -> seq<Hop>

  /** The port the walk reaches, and the outermost tag seen on the way. */
  function FindPort(bySw: map<int, int>, path: seq<Hop>, tag: Ref): (Ref, Ref)
    decreases |path|
  {
    if path == [] then (Unset, tag)
    else
      var tag1 := if path[0].tag.At? then path[0].tag else tag;
      if |path| == 1 then (Unset, tag1)
      else if path[1].swIf in bySw then (At(bySw[path[1].swIf]), tag1)
      else FindPort(bySw, path[1..], tag1)
  }

  /** The immediate parent of a scheduler whose walk is path: the port's S-VLAN tier when the tag
      is mapped, else the port, else nothing. */
  function Resolve(aggs: Aggs, bySw: map<int, int>, path: seq<Hop>): Ref {
    var (port, tag) := FindPort(bySw, path, Unset);
    if port.Unset? || port.i !in aggs then Unset
    else if tag.Unset? || tag.i >= SVLAN_MAX || tag.i !in aggs[port.i].svlanMap then port
    else At(aggs[port.i].svlanMap[tag.i])
  }

  /** What the walk finds: the k-th hop is the first after the scheduler's own interface that has a port, and
      the j-th is the last before it that carries a tag; j is -1 when none does. */
  ghost predicate Leads(bySw: map<int, int>, path: seq<Hop>, k: int, j: int) {
    && 1 <= k < |path| && path[k].swIf in bySw && (forall i :: 1 <= i < k ==> path[i].swIf !in bySw)
    && -1 <= j < k && (j >= 0 ==> path[j].tag.At?) && (forall i :: j < i < k ==> path[i].tag.Unset?)
  }

  lemma {:induction false} FindPortIs(bySw: map<int, int>, path: seq<Hop>, tag: Ref, k: int, j: int)
    requires Leads(bySw, path, k, j)
    ensures FindPort(bySw, path, tag) == (At(bySw[path[k].swIf]), if j >= 0 then path[j].tag else tag)
    decreases |path|
  {
    if k > 1 {
      var tag1 := if path[0].tag.At? then path[0].tag else tag;
      assert forall i :: 0 <= i < |path| - 1 ==> path[1..][i] == path[i + 1];
      FindPortIs(bySw, path[1..], tag1, k - 1, if j >= 0 then j - 1 else -1);
    }
  }

  lemma {:induction false} FindPortNone(bySw: map<int, int>, path: seq<Hop>, tag: Ref)
    requires forall i :: 1 <= i < |path| ==> path[i].swIf !in bySw
    ensures FindPort(bySw, path, tag).0 == Unset
    decreases |path|
  {
    if |path| > 1 {
      FindPortNone(bySw, path[1..], if path[0].tag.At? then path[0].tag else tag);
    }
  }

  /** A scheduler hangs under the S-VLAN its outermost tag names on the nearest port, under that port when
      the tag is out of range or not mapped or there is none, and under nothing when no port is reached. */
  lemma ResolveIs(aggs: Aggs, bySw: map<int, int>, path: seq<Hop>)
    requires forall w :: w in bySw ==> bySw[w] in aggs
    ensures (forall i :: 1 <= i < |path| ==> path[i].swIf !in bySw) ==> Resolve(aggs, bySw, path) == Unset
    ensures forall k, j :: Leads(bySw, path, k, j) ==>
              && bySw[path[k].swIf] in aggs
              && var p := bySw[path[k].swIf];
                 Resolve(aggs, bySw, path) ==
                 if j >= 0 && path[j].tag.i < 4096 && path[j].tag.i in aggs[p].svlanMap
                 then At(aggs[p].svlanMap[path[j].tag.i]) else At(p)
  {
    if forall i :: 1 <= i < |path| ==> path[i].swIf !in bySw { FindPortNone(bySw, path, Unset); }
    forall k, j | Leads(bySw, path, k, j)
      ensures FindPort(bySw, path, Unset) == (At(bySw[path[k].swIf]), if j >= 0 then path[j].tag else Unset)
    {
      FindPortIs(bySw, path, Unset, k, j);
    }
  }

  /** Every path leads to a port in one way, or to none. */
  lemma {:induction false} LeadsSomewhere(bySw: map<int, int>, path: seq<Hop>, n: nat) returns (k: int, j: int)
    requires n <= |path| && forall i :: 1 <= i < n ==> path[i].swIf !in bySw
    ensures k == -1 ==> forall i :: 1 <= i < |path| ==> path[i].swIf !in bySw
    ensures k != -1 ==> Leads(bySw, path, k, j)
    decreases |path| - n
  {
    if n == |path| {
      k, j := -1, -1;
    } else if n >= 1 && path[n].swIf in bySw {
      k, j := n, n - 1;
      while j >= 0 && path[j].tag.Unset?
        invariant -1 <= j < k && forall i :: j < i < k ==> path[i].tag.Unset?
      {
        j := j - 1;
      }
    } else {
      k, j := LeadsSomewhere(bySw, path, n + 1);
    }
  }

  /** Interface and S-VLAN maps name live aggregates of the right kind, owner and range. */
  ghost predicate IndexOk(aggs: Aggs, bySw: map<int, int>) {
    && (forall w :: w in bySw ==>
          bySw[w] in aggs && aggs[bySw[w]].parent.Unset? && aggs[bySw[w]].conf.swIf == w)
    && (forall p, t {:trigger t in aggs[p].svlanMap} :: p in aggs && t in aggs[p].svlanMap ==>
          var c := aggs[p].svlanMap[t];
          c in aggs && aggs[c].parent == At(p) && aggs[c].conf.svlanId <= t <= aggs[c].conf.svlanIdEnd)
  }

  /** Tier a owns tag t of its port. */
  predicate Owns(aggs: Aggs, a: int, t: int) {
    a in aggs && aggs[a].parent.At? && aggs[a].conf.svlanId <= t <= aggs[a].conf.svlanIdEnd
  }

  /** And they name every live aggregate but those in gone, at every tag it owns. */
  ghost predicate IndexFullBut(aggs: Aggs, bySw: map<int, int>, gone: set<int>) {
    && (forall a :: a in aggs && a !in gone && aggs[a].parent.Unset? ==>
          aggs[a].conf.swIf in bySw && bySw[aggs[a].conf.swIf] == a)
    && (forall a :: a in aggs && a !in gone && aggs[a].parent.At? ==>
          0 <= aggs[a].conf.svlanId <= aggs[a].conf.svlanIdEnd < SVLAN_MAX)
    && (forall a, t {:trigger Owns(aggs, a, t)} :: Owns(aggs, a, t) && a !in gone ==>
          var p := aggs[a].parent.i;
          p in aggs && t in aggs[p].svlanMap && aggs[p].svlanMap[t] == a)
  }

  ghost predicate IndexFull(aggs: Aggs, bySw: map<int, int>) {
    IndexFullBut(aggs, bySw, {})
  }

  /** Everything a packet-path step keeps. */
  ghost predicate Balanced(aggs: Aggs, scheds: Scheds, bySw: map<int, int>, ledger: Ledger) {
    && TreeOk(aggs) && AttachOk(aggs, scheds) && IndexOk(aggs, bySw)
    && ChargeOk(aggs, scheds, ledger) && WeightOk(aggs, scheds)
  }

  lemma TreeIsOk(aggs: Aggs, scheds: Scheds, bySw: map<int, int>, ledger: Ledger, si: int)
    requires Balanced(aggs, scheds, bySw, ledger) && si in scheds
    ensures TreeOk(aggs) && (scheds[si].attach.At? ==> scheds[si].attach.i in aggs)
  {
  }

  /** With the books balanced, a tier's usage is the bytes of the schedulers beneath it, covers any one
      of them, and is what its 32-bit register holds as long as those bytes fit. */
  lemma UsageIsExact(aggs: Aggs, scheds: Scheds, bySw: map<int, int>, ledger: Ledger, a: int, s: int)
    requires Balanced(aggs, scheds, bySw, ledger) && a in aggs && s in scheds
    ensures aggs[a].usage == Charge(aggs, scheds, ledger, a) >= 0
    ensures OnChain(aggs, scheds[s].attach, a) ==> ledger[s] <= aggs[a].usage
    ensures Charge(aggs, scheds, ledger, a) < U32 ==> Reg32(aggs[a].usage) == Charge(aggs, scheds, ledger, a)
  {
    ChargeCovers(aggs, scheds, ledger, a, s);
  }

  lemma AddBalances(aggs: Aggs, scheds: Scheds, bySw: map<int, int>, ledger: Ledger, s: int, me: Sched)
    requires Balanced(aggs, scheds, bySw, ledger) && s !in scheds && !me.active
    requires me.attach.At? ==> me.attach.i in aggs
    ensures Balanced(aggs, scheds[s := me], bySw, ledger[s := 0])
  {
    AddSched(aggs, scheds, ledger, s, me);
  }

  lemma RemoveBalances(aggs: Aggs, scheds: Scheds, bySw: map<int, int>, ledger: Ledger, s: int)
    requires Balanced(aggs, scheds, bySw, ledger) && s in scheds && s in ledger && !scheds[s].active && ledger[s] == 0
    ensures Balanced(aggs, scheds - {s}, bySw, ledger - {s})
  {
    RemoveSched(aggs, scheds, ledger, s);
  }

  lemma ResolveIsLive(aggs: Aggs, bySw: map<int, int>, path: seq<Hop>)
    requires IndexOk(aggs, bySw)
    ensures Resolve(aggs, bySw, path).At? ==> Resolve(aggs, bySw, path).i in aggs
  {
  }

  // ---------------------------------------------------------------- what each step computes

  /** One tier's verdict: the overload filter, then the exact add-and-verify. */
  predicate TierAdmits(g: Agg, len: nat) {
    && Reg32(g.usage) <= g.conf.bufferLimit
    && Reg32(Reg32(g.usage) + len) <= g.conf.bufferLimit
  }

  /** The immediate tier admits len bytes, and so does the tier above it where there is one. */
  predicate ChainAdmits(aggs: Aggs, idx: Ref, len: nat) {
    idx.At? && idx.i in aggs ==>
      && TierAdmits(aggs[idx.i], len)
      && (aggs[idx.i].parent.At? && aggs[idx.i].parent.i in aggs ==> TierAdmits(aggs[aggs[idx.i].parent.i], len))
  }

  /** A chain admits a packet when at each of its tiers the register is within the limit, and still is with
      the packet added; a scheduler that hangs nowhere is admitted always. */
  lemma ChainAdmitsIs(aggs: Aggs, a: int, len: nat)
    requires a in aggs && (aggs[a].parent.At? ==> aggs[a].parent.i in aggs)
    ensures ChainAdmits(aggs, Unset, len)
    ensures ChainAdmits(aggs, At(a), len) <==>
              && aggs[a].usage % 0x1_0000_0000 <= aggs[a].conf.bufferLimit
              && (aggs[a].usage + len) % 0x1_0000_0000 <= aggs[a].conf.bufferLimit
              && (aggs[a].parent.At? ==>
                    var port := aggs[aggs[a].parent.i];
                    && port.usage % 0x1_0000_0000 <= port.conf.bufferLimit
                    && (port.usage + len) % 0x1_0000_0000 <= port.conf.bufferLimit)
  {
    RegOfSum(aggs[a].usage, len);
    if aggs[a].parent.At? { RegOfSum(aggs[aggs[a].parent.i].usage, len); }
  }

  lemma RegOfSum(usage: int, len: int)
    ensures Reg32(usage) == usage % 0x1_0000_0000
    ensures Reg32(Reg32(usage) + len) == (usage + len) % 0x1_0000_0000
  {
    var q := usage / 0x1_0000_0000;
    assert usage == q * 0x1_0000_0000 + usage % 0x1_0000_0000;
    ModShift(usage % 0x1_0000_0000 + len, q);
  }

  lemma ModShift(x: int, q: int)
    ensures (x + q * 0x1_0000_0000) % 0x1_0000_0000 == x % 0x1_0000_0000
  {
    var y := x + q * 0x1_0000_0000;
    var d := y / 0x1_0000_0000 - q;
    assert x == d * 0x1_0000_0000 + y % 0x1_0000_0000;
  }

  function AddTo(aggs: Aggs, a: int, x: int): Aggs
    requires a in aggs
  {
    aggs[a := aggs[a].(usage := aggs[a].usage + x)]
  }

  /** Adding x to the charge of every tier from idx up. */
  function ChargeChain(aggs: Aggs, idx: Ref, x: int): Aggs {
    if idx.Unset? || idx.i !in aggs then aggs
    else
      var aggs1 := AddTo(aggs, idx.i, x);
      if aggs[idx.i].parent.At? && aggs[idx.i].parent.i in aggs1 then AddTo(aggs1, aggs[idx.i].parent.i, x) else aggs1
  }

  /** What the move of one scheduler to a new parent does to the tree. */
  function Reparented(aggs: Aggs, me: Sched, to: Ref): Aggs {
    if to == me.attach then aggs
    else
      var aggs1 := if me.active then WeightAdd(WeightSub(aggs, me.attach, me.effWeight), to, me.effWeight) else aggs;
      if me.usage == 0 then aggs1
      else Transfer(aggs1, ChainSet(aggs1, to), ChainSet(aggs1, me.attach), me.usage)
  }

  // ---------------------------------------------------------------- balance, step by step

  lemma IndexFramed(aggs: Aggs, aggs': Aggs, bySw: map<int, int>)
    requires IndexOk(aggs, bySw) && aggs.Keys == aggs'.Keys
    requires forall a :: a in aggs ==>
               aggs'[a].parent == aggs[a].parent && aggs'[a].svlanMap == aggs[a].svlanMap
                   && aggs'[a].conf == aggs[a].conf
    ensures IndexOk(aggs', bySw)
  {
    forall w | w in bySw
      ensures bySw[w] in aggs' && aggs'[bySw[w]].parent.Unset? && aggs'[bySw[w]].conf.swIf == w
    {
      var a: int := bySw[w];
      assert a in aggs && aggs'[a].parent == aggs[a].parent && aggs'[a].conf == aggs[a].conf;
    }
    forall p, t | p in aggs' && t in aggs'[p].svlanMap
      ensures var c := aggs'[p].svlanMap[t];
              c in aggs' && aggs'[c].parent == At(p) && aggs'[c].conf.svlanId <= t <= aggs'[c].conf.svlanIdEnd
    {
      assert t in aggs[p].svlanMap;
    }
  }

  lemma ChargeChainBalances(aggs: Aggs, scheds: Scheds, bySw: map<int, int>, ledger: Ledger, s: int, x: int)
    requires Balanced(aggs, scheds, bySw, ledger) && s in scheds && ledger[s] + x >= 0
    ensures Balanced(ChargeChain(aggs, scheds[s].attach, x), scheds, bySw, ledger[s := ledger[s] + x])
  {
    var aggs' := ChargeChain(aggs, scheds[s].attach, x);
    UsageKeepsWeight(aggs, aggs', scheds, scheds);
    IndexFramed(aggs, aggs', bySw);
    ChargeBalances(aggs, scheds, ledger, aggs', scheds, ledger[s := ledger[s] + x], s);
  }

  lemma ActivateBalances(aggs: Aggs, scheds: Scheds, bySw: map<int, int>, ledger: Ledger, s: int)
    requires Balanced(aggs, scheds, bySw, ledger) && s in scheds && !scheds[s].active
    ensures Balanced(WeightAdd(aggs, scheds[s].attach, scheds[s].effWeight), scheds[s := scheds[s].(active := true)],
        bySw, ledger)
  {
    var aggs' := WeightAdd(aggs, scheds[s].attach, scheds[s].effWeight);
    var scheds' := scheds[s := scheds[s].(active := true)];
    if scheds[s].attach.At? {
      JoinBalances(aggs, scheds, s);
    } else {
      DetachedWeighsNothing(aggs, scheds, s, true);
    }
    IndexFramed(aggs, aggs', bySw);
    ShapeKeepsCharge(aggs, aggs', scheds, scheds', ledger);
  }

  lemma DeactivateBalances(aggs: Aggs, scheds: Scheds, bySw: map<int, int>, ledger: Ledger, s: int)
    requires Balanced(aggs, scheds, bySw, ledger) && s in scheds && scheds[s].active
    ensures Balanced(WeightSub(aggs, scheds[s].attach, scheds[s].effWeight), scheds[s := scheds[s].(active := false)],
        bySw, ledger)
  {
    var aggs' := WeightSub(aggs, scheds[s].attach, scheds[s].effWeight);
    var scheds' := scheds[s := scheds[s].(active := false)];
    if scheds[s].attach.At? {
      LeaveBalances(aggs, scheds, s);
    } else {
      DetachedWeighsNothing(aggs, scheds, s, false);
    }
    IndexFramed(aggs, aggs', bySw);
    ShapeKeepsCharge(aggs, aggs', scheds, scheds', ledger);
  }

  lemma DetachedWeighsNothing(aggs: Aggs, scheds: Scheds, s: int, active: bool)
    requires WeightOk(aggs, scheds) && s in scheds && scheds[s].attach.Unset?
    ensures WeightOk(aggs, scheds[s := scheds[s].(active := active)])
  {
    var scheds' := scheds[s := scheds[s].(active := active)];
    forall a | a in aggs
      ensures aggs[a].activeWeight == ActiveWeight(aggs, scheds', a)
      ensures aggs[a].nActive == ActiveCount(aggs, scheds', a)
    {
      SchedSumsChange(scheds, scheds', s, a);
      assert aggs[a].activeWeight == ActiveWeight(aggs, scheds, a);
    }
  }

  /** The weight half of a reparent: leave the old chain, hang elsewhere, join the new one. */
  lemma WeightMoves(aggs: Aggs, scheds: Scheds, bySw: map<int, int>, ledger: Ledger, s: int, to: Ref)
    requires Balanced(aggs, scheds, bySw, ledger) && s in scheds && (to.At? ==> to.i in aggs)
    ensures var me := scheds[s];
            var aggs1 := if me.active then WeightAdd(WeightSub(aggs, me.attach, me.effWeight), to, me.effWeight)
                else aggs;
            && WeightOk(aggs1, scheds[s := me.(attach := to)])
            && BooksOnly(aggs, aggs1)
  {
    var me := scheds[s];
    if me.active {
      DeactivateBalances(aggs, scheds, bySw, ledger, s);
      var aggs0 := WeightSub(aggs, me.attach, me.effWeight);
      var idle := scheds[s := me.(active := false)];
      assert BooksOnly(aggs, aggs0) by {
        if me.attach.At? { WeightSubShape(aggs, me.attach, me.effWeight); }
      }
      MoveInactive(aggs0, idle, s, to);
      var moved := idle[s := idle[s].(attach := to)];
      if to.At? {
        JoinBalances(aggs0, moved, s);
      } else {
        DetachedWeighsNothing(aggs0, moved, s, true);
      }
      assert moved[s := moved[s].(active := true)] == scheds[s := me.(attach := to)];
    } else {
      MoveInactive(aggs, scheds, s, to);
    }
  }

  lemma ShareMoves(aggs: Aggs, aggs1: Aggs, aggs2: Aggs, scheds: Scheds, scheds': Scheds, ledger: Ledger, s: int,
          to: Ref)
    requires s in scheds && s in ledger && ledger[s] == scheds[s].usage
    requires scheds' == scheds[s := scheds[s].(attach := to)]
    requires BooksOnly(aggs, aggs1)
    requires aggs2 == if scheds[s].usage == 0 then aggs1
                      else Transfer(aggs1, ChainSet(aggs1, to), ChainSet(aggs1, scheds[s].attach), scheds[s].usage)
    ensures SameShape(aggs, aggs2)
    ensures forall a :: a in aggs ==>
              aggs2[a].usage - aggs[a].usage == Share(aggs2, scheds', ledger, a, s) - Share(aggs, scheds, ledger, a, s)
  {
  }

  lemma UsageMoves(aggs1: Aggs, scheds: Scheds, s: int, to: Ref)
    requires s in scheds
    ensures var me := scheds[s];
            var aggs2 := if me.usage == 0 then aggs1
                         else Transfer(aggs1, ChainSet(aggs1, to), ChainSet(aggs1, me.attach), me.usage);
            UsageOnly(aggs1, aggs2)
  {
  }

  lemma BooksFramed(aggs: Aggs, aggs1: Aggs, aggs2: Aggs, bySw: map<int, int>, scheds': Scheds)
    requires BooksOnly(aggs, aggs1) && UsageOnly(aggs1, aggs2)
    requires TreeOk(aggs) && IndexOk(aggs, bySw) && WeightOk(aggs1, scheds')
    ensures TreeOk(aggs2) && IndexOk(aggs2, bySw) && WeightOk(aggs2, scheds')
  {
    IndexFramed(aggs, aggs1, bySw);
    IndexFramed(aggs1, aggs2, bySw);
    UsageKeepsWeight(aggs1, aggs2, scheds', scheds');
  }

  /** A reparent keeps every total, with packets queued and the scheduler active or not. */
  lemma ReparentBalances(aggs: Aggs, scheds: Scheds, bySw: map<int, int>, ledger: Ledger, s: int, to: Ref)
    requires Balanced(aggs, scheds, bySw, ledger) && s in scheds && (to.At? ==> to.i in aggs)
    requires ledger[s] == scheds[s].usage
    ensures Balanced(Reparented(aggs, scheds[s], to), scheds[s := scheds[s].(attach := to)], bySw, ledger)
    ensures SameConf(aggs, Reparented(aggs, scheds[s], to))
  {
    var me := scheds[s];
    var scheds' := scheds[s := me.(attach := to)];
    if to == me.attach {
      assert scheds' == scheds;
    } else {
      var aggs1 := if me.active then WeightAdd(WeightSub(aggs, me.attach, me.effWeight), to, me.effWeight) else aggs;
      var aggs2 := Reparented(aggs, me, to);
      WeightMoves(aggs, scheds, bySw, ledger, s, to);
      UsageMoves(aggs1, scheds, s, to);
      ConfFromBooks(aggs, aggs1, aggs2);
      BooksFramed(aggs, aggs1, aggs2, bySw, scheds');
      ShareMoves(aggs, aggs1, aggs2, scheds, scheds', ledger, s, to);
      ChargeBalances(aggs, scheds, ledger, aggs2, scheds', ledger, s);
    }
  }

  // ---------------------------------------------------------------- configuration arithmetic

  const BURST_NS: nat := 10_000_000
  const BURST_NS_MIN: nat := 10_000_000
  const BURST_NS_MAX: nat := 150_000_000
  const WEIGHT_MIN: nat := 1
  const WEIGHT_MAX: nat := 256

  datatype Rv = Done | InvalidSwIfIndex | InvalidValue | NoSuchEntry | AlreadyExists | InUse

  /** The rate-derived weight times the operator's multiplier; never zero. */
  function EffectiveWeight(rate: nat, weight: nat): (w: Pos)
    ensures rate > 0 && weight > 0 ==> w == rate * weight
  {
    var r := if rate > 0 then rate else 1;
    var m := if weight > 0 then weight else 1;
    Positive(r, m);
    r * m
  }

  lemma Positive(a: int, b: int)
    requires a >= 1 && b >= 1
    ensures a * b >= 1
  {
  }

  /** Bytes a rate passes in one millisecond round. */
  function RoundBytes(rate: nat): nat { rate * 1_000_000 / 1_000_000_000 }

  /** 1.5 intervals of rate, at least a floor, saturated at the u32 ceiling. */
  function DerivedLimit(rate: nat, interval: nat, floor: nat): (r: nat)
    requires floor < U32
    ensures floor <= r < U32
  {
    var derived := rate * interval * 3 / 2_000_000;
    if derived < floor then floor else if derived > U32 - 1 then U32 - 1 else derived
  }

  predicate BadWeight(weight: nat) { weight != 0 && (weight < WEIGHT_MIN || weight > WEIGHT_MAX) }

  predicate BadBurst(burst: nat) { burst != 0 && (burst < BURST_NS_MIN || burst > BURST_NS_MAX) }

  function BurstOf(burst: nat): nat { if burst == 0 then BURST_NS else burst }

  /** A newly configured aggregate: empty books. */
  function NewAgg(swIf: int, parent: Ref, svlanId: int, svlanIdEnd: int, rate: nat, weight: nat, burstNs: nat,
          limit: nat): Agg {
    var m := if weight == 0 then 1 else weight;
    var lim := if limit == 0 then DerivedLimit(rate, 100000, 1048576) else limit;
    Agg(AggConf(swIf, svlanId, svlanIdEnd, rate, m, burstNs, lim, RoundBytes(rate)),
        parent, EffectiveWeight(rate, m), map[], 0, 0, 0)
  }

  /** What a configuration call leaves, in its own arguments: a round is a millisecond of rate, a limit not
      given is 150 ms of rate, at least 2^20 and at most 2^32 - 1, a weight not given is one. */
  lemma NewAggIs(swIf: int, parent: Ref, lo: int, hi: int, rate: nat, weight: nat, burst: nat, limit: nat)
    ensures var g := NewAgg(swIf, parent, lo, hi, rate, weight, burst, limit);
            && g.parent == parent && g.svlanMap == map[] && g.usage == g.activeWeight == g.nActive == 0
            && g.conf.swIf == swIf && g.conf.svlanId == lo && g.conf.svlanIdEnd == hi
            && g.conf.rate == rate && g.conf.burstNs == burst
            && g.conf.weight == (if weight == 0 then 1 else weight)
            && (rate > 0 ==> g.effWeight == rate * g.conf.weight)
            && g.conf.roundBytes * 1000 <= rate < g.conf.roundBytes * 1000 + 1000
            && (limit != 0 ==> g.conf.bufferLimit == limit)
            && (limit == 0 ==>
                  && 0x10_0000 <= g.conf.bufferLimit <= 0xFFFF_FFFF
                  && (20 * g.conf.bufferLimit <= 3 * rate || g.conf.bufferLimit == 0x10_0000)
                  && (3 * rate < 20 * g.conf.bufferLimit + 20 || g.conf.bufferLimit == 0xFFFF_FFFF))
  {
  }

  lemma ArgumentsAre(weight: nat, burst: nat)
    ensures BadWeight(weight) <==> weight > 256
    ensures BadBurst(burst) <==> (0 < burst < 10_000_000 || burst > 150_000_000)
    ensures BurstOf(burst) == (if burst == 0 then 10_000_000 else burst)
  {
  }

  // ---------------------------------------------------------------- the indices under change

  /** The books may differ; everything the indices read does not. */
  ghost predicate SameConf(aggs: Aggs, aggs': Aggs) {
    && aggs.Keys == aggs'.Keys
    && forall a :: a in aggs ==>
         && aggs'[a].parent == aggs[a].parent && aggs'[a].svlanMap == aggs[a].svlanMap
         && aggs'[a].conf == aggs[a].conf && aggs'[a].effWeight == aggs[a].effWeight
  }

  /** No tier is shaped above its port. */
  ghost predicate RatesNest(aggs: Aggs) {
    forall c :: c in aggs && aggs[c].parent.At? && aggs[c].parent.i in aggs ==>
        aggs[c].conf.rate <= aggs[aggs[c].parent.i].conf.rate
  }

  lemma AddedNests(aggs: Aggs, n: int, g: Agg)
    requires TreeOk(aggs) && RatesNest(aggs) && n !in aggs
    requires g.parent.At? ==> g.parent.i in aggs && g.conf.rate <= aggs[g.parent.i].conf.rate
    ensures RatesNest(aggs[n := g])
  {
  }

  /** A new configuration of one tier that clashes with neither its port nor its own tiers. */
  lemma ReconfiguredNests(aggs: Aggs, a: int, conf: AggConf, w: Pos)
    requires TreeOk(aggs) && RatesNest(aggs) && a in aggs
    requires aggs[a].parent.At? && aggs[a].parent.i in aggs ==> conf.rate <= aggs[aggs[a].parent.i].conf.rate
    requires forall c :: c in aggs && aggs[c].parent == At(a) ==> aggs[c].conf.rate <= conf.rate
    ensures RatesNest(Reconfigured(aggs, a, conf, w))
  {
  }

  lemma NestFramed(aggs: Aggs, aggs': Aggs)
    requires RatesNest(aggs) && SameConf(aggs, aggs')
    ensures RatesNest(aggs')
  {
  }

  lemma IndexFullFramed(aggs: Aggs, aggs': Aggs, bySw: map<int, int>, gone: set<int>)
    requires IndexFullBut(aggs, bySw, gone) && SameConf(aggs, aggs')
    ensures IndexFullBut(aggs', bySw, gone)
  {
    forall a, t | Owns(aggs', a, t) && a !in gone
      ensures var p := aggs'[a].parent.i; p in aggs' && t in aggs'[p].svlanMap && aggs'[p].svlanMap[t] == a
    {
      assert Owns(aggs, a, t);
    }
  }

  lemma ConfFromBooks(aggs: Aggs, aggs1: Aggs, aggs2: Aggs)
    requires BooksOnly(aggs, aggs1) && UsageOnly(aggs1, aggs2)
    ensures SameConf(aggs, aggs2)
  {
  }

  lemma ResolveFramed(aggs: Aggs, aggs': Aggs, bySw: map<int, int>, path: seq<Hop>)
    requires SameConf(aggs, aggs')
    ensures Resolve(aggs, bySw, path) == Resolve(aggs', bySw, path)
  {
  }

  function Elems(c: seq<int>): set<int> { set a | a in c }

  lemma ChargeChainConf(aggs: Aggs, idx: Ref, x: int)
    ensures SameConf(aggs, ChargeChain(aggs, idx, x))
  {
  }

  lemma ChargeChainUndo(aggs: Aggs, idx: Ref, x: int)
    requires TreeOk(aggs)
    ensures ChargeChain(ChargeChain(aggs, idx, x), idx, -x) == aggs
  {
  }

  /** Moving weight does not move the chains. */
  lemma ReparentedToItself(aggs: Aggs, me: Sched)
    ensures Reparented(aggs, me, me.attach) == aggs
  {
  }

  lemma ChainsSurviveWeight(was: Aggs, aggs: Aggs, me: Sched, to: Ref)
    requires TreeOk(was) && SameShape(was, aggs)
    requires (me.attach.At? ==> me.attach.i in was) && (to.At? ==> to.i in was)
    ensures ChainSet(aggs, me.attach) == ChainSet(was, me.attach)
    ensures Elems(Chain(aggs, to, MAX_DEPTH)) == ChainSet(aggs, to)
    ensures var c := Chain(aggs, to, MAX_DEPTH); forall i, j :: 0 <= i < j < |c| ==> c[i] != c[j]
  {
    ChainIsOnChain(aggs, to);
  }

  lemma ElemsStep(c: seq<int>, i: int)
    requires 0 <= i < |c|
    ensures Elems(c[..i + 1]) == Elems(c[..i]) + {c[i]}
  {
    assert c[..i + 1] == c[..i] + [c[i]];
  }

  lemma TransferStep(was: Aggs, done: set<int>, a: int, x: int)
    requires a in was && a !in done
    ensures AddTo(Transfer(was, done, {}, x), a, x) == Transfer(was, done + {a}, {}, x)
  {
  }

  // ---------------------------------------------------------------- what configuration does to the tree

  /** Only configuration and tag maps differ: no sum reads either. */
  ghost predicate ConfigOnly(aggs: Aggs, aggs': Aggs) {
    && aggs.Keys == aggs'.Keys
    && forall a :: a in aggs ==> aggs'[a] == aggs[a].(conf := aggs'[a].conf, svlanMap := aggs'[a].svlanMap)
  }

  lemma ConfigBalances(aggs: Aggs, aggs': Aggs, scheds: Scheds, ledger: Ledger)
    requires ConfigOnly(aggs, aggs')
    requires TreeOk(aggs) && AttachOk(aggs, scheds) && ChargeOk(aggs, scheds, ledger) && WeightOk(aggs, scheds)
    ensures TreeOk(aggs') && AttachOk(aggs', scheds) && ChargeOk(aggs', scheds, ledger) && WeightOk(aggs', scheds)
  {
    ShapeKeepsCharge(aggs, aggs', scheds, scheds, ledger);
    forall a | a in aggs'
      ensures aggs'[a].activeWeight == ActiveWeight(aggs', scheds, a)
      ensures aggs'[a].nActive == ActiveCount(aggs', scheds, a)
    {
      TierSumsChange(aggs, aggs', a, a);
      assert aggs[a].activeWeight == ActiveWeight(aggs, scheds, a);
    }
  }

  lemma CreatePortBalances(aggs: Aggs, scheds: Scheds, bySw: map<int, int>, ledger: Ledger, n: int, g: Agg)
    requires Balanced(aggs, scheds, bySw, ledger) && IndexFull(aggs, bySw)
    requires n !in aggs && g.conf.swIf !in bySw
    requires g.parent.Unset? && g.svlanMap == map[] && g.usage == 0 && g.activeWeight == 0 && g.nActive == 0
    ensures Balanced(aggs[n := g], scheds, bySw[g.conf.swIf := n], ledger)
    ensures IndexFull(aggs[n := g], bySw[g.conf.swIf := n])
  {
    AddAgg(aggs, scheds, ledger, n, g);
    var aggs', bySw' := aggs[n := g], bySw[g.conf.swIf := n];
    assert IndexOk(aggs', bySw') by {
      forall p, t | p in aggs' && t in aggs'[p].svlanMap
        ensures var c := aggs'[p].svlanMap[t];
                c in aggs' && aggs'[c].parent == At(p) && aggs'[c].conf.svlanId <= t <= aggs'[c].conf.svlanIdEnd
      {
        assert p != n && t in aggs[p].svlanMap;
      }
      forall w | w in bySw'
        ensures bySw'[w] in aggs' && aggs'[bySw'[w]].parent.Unset? && aggs'[bySw'[w]].conf.swIf == w
      {
        var a: int := bySw'[w];
        assert w in bySw ==> a in aggs;
      }
    }
    forall a, t | Owns(aggs', a, t)
      ensures var p := aggs'[a].parent.i; p in aggs' && t in aggs'[p].svlanMap && aggs'[p].svlanMap[t] == a
    {
      assert Owns(aggs, a, t);
    }
  }

  /** m with every tag of [lo, hi] mapped to a. */
  function MapRange(m: map<int, int>, lo: int, hi: int, a: int): (r: map<int, int>)
    ensures forall t :: t in r <==> t in m || lo <= t <= hi
    ensures forall t :: t in r ==> r[t] == if lo <= t <= hi then a else m[t]
    decreases hi - lo + 1
  {
    if hi < lo then m else MapRange(m, lo, hi - 1, a)[hi := a]
  }

  /** Port p with tags [lo, hi] given to tier a. */
  function GiveTags(aggs: Aggs, p: int, lo: int, hi: int, a: int): Aggs
    requires p in aggs
  {
    aggs[p := aggs[p].(svlanMap := MapRange(aggs[p].svlanMap, lo, hi, a))]
  }

  lemma CreateTierBalances(aggs: Aggs, scheds: Scheds, bySw: map<int, int>, ledger: Ledger, n: int, p: int, g: Agg)
    requires Balanced(aggs, scheds, bySw, ledger) && IndexFull(aggs, bySw)
    requires n !in aggs && p in aggs && aggs[p].parent.Unset? && g.parent == At(p)
    requires g.svlanMap == map[] && g.usage == 0 && g.activeWeight == 0 && g.nActive == 0
    requires 0 <= g.conf.svlanId <= g.conf.svlanIdEnd < SVLAN_MAX
    requires forall t :: g.conf.svlanId <= t <= g.conf.svlanIdEnd ==> t !in aggs[p].svlanMap
    ensures var aggs' := GiveTags(aggs[n := g], p, g.conf.svlanId, g.conf.svlanIdEnd, n);
            Balanced(aggs', scheds, bySw, ledger) && IndexFull(aggs', bySw)
  {
    var aggs1 := aggs[n := g];
    var aggs' := GiveTags(aggs1, p, g.conf.svlanId, g.conf.svlanIdEnd, n);
    AddAgg(aggs, scheds, ledger, n, g);
    ConfigBalances(aggs1, aggs', scheds, ledger);
    TierIndex(aggs, aggs', bySw, n, p, g);
  }

  lemma TierIndex(aggs: Aggs, aggs': Aggs, bySw: map<int, int>, n: int, p: int, g: Agg)
    requires IndexOk(aggs, bySw) && IndexFull(aggs, bySw)
    requires n !in aggs && p in aggs && aggs[p].parent.Unset? && g.parent == At(p) && g.svlanMap == map[]
    requires 0 <= g.conf.svlanId <= g.conf.svlanIdEnd < SVLAN_MAX
    requires forall t :: g.conf.svlanId <= t <= g.conf.svlanIdEnd ==> t !in aggs[p].svlanMap
    requires aggs' == GiveTags(aggs[n := g], p, g.conf.svlanId, g.conf.svlanIdEnd, n)
    ensures IndexOk(aggs', bySw) && IndexFull(aggs', bySw)
  {
    TierNamed(aggs, aggs', bySw, n, p, g);
    TierOwns(aggs, aggs', bySw, n, p, g);
    forall w | w in bySw
      ensures bySw[w] in aggs' && aggs'[bySw[w]].parent.Unset? && aggs'[bySw[w]].conf.swIf == w
    {
      var a: int := bySw[w];
      assert a in aggs;
    }
  }

  /** Every tag of a map still names a tier of its own, and the new tags name the new one. */
  lemma TierNamed(aggs: Aggs, aggs': Aggs, bySw: map<int, int>, n: int, p: int, g: Agg)
    requires IndexOk(aggs, bySw)
    requires n !in aggs && p in aggs && aggs[p].parent.Unset? && g.parent == At(p) && g.svlanMap == map[]
    requires aggs' == GiveTags(aggs[n := g], p, g.conf.svlanId, g.conf.svlanIdEnd, n)
    ensures forall q, t :: q in aggs' && t in aggs'[q].svlanMap ==>
              var c := aggs'[q].svlanMap[t];
              c in aggs' && aggs'[c].parent == At(q) && aggs'[c].conf.svlanId <= t <= aggs'[c].conf.svlanIdEnd
  {
    forall q, t | q in aggs' && t in aggs'[q].svlanMap
      ensures var c := aggs'[q].svlanMap[t];
              c in aggs' && aggs'[c].parent == At(q) && aggs'[c].conf.svlanId <= t <= aggs'[c].conf.svlanIdEnd
    {
      if q == p && g.conf.svlanId <= t <= g.conf.svlanIdEnd {
        assert aggs'[q].svlanMap[t] == n;
      } else {
        assert q in aggs && t in aggs[q].svlanMap;
        var c: int := aggs[q].svlanMap[t];
        assert c in aggs;
      }
    }
  }

  /** Every tier's whole range is still in its port's map. */
  lemma TierOwns(aggs: Aggs, aggs': Aggs, bySw: map<int, int>, n: int, p: int, g: Agg)
    requires IndexFull(aggs, bySw)
    requires n !in aggs && p in aggs && aggs[p].parent.Unset? && g.parent == At(p)
    requires forall t :: g.conf.svlanId <= t <= g.conf.svlanIdEnd ==> t !in aggs[p].svlanMap
    requires aggs' == GiveTags(aggs[n := g], p, g.conf.svlanId, g.conf.svlanIdEnd, n)
    ensures forall a, t :: Owns(aggs', a, t) ==>
              var q := aggs'[a].parent.i; q in aggs' && t in aggs'[q].svlanMap && aggs'[q].svlanMap[t] == a
  {
    forall a, t | Owns(aggs', a, t)
      ensures var q := aggs'[a].parent.i; q in aggs' && t in aggs'[q].svlanMap && aggs'[q].svlanMap[t] == a
    {
      if a != n {
        assert Owns(aggs, a, t);
      }
    }
  }

  /** Port p with the tags of [lo, hi] that name a taken back. */
  function TakeTags(aggs: Aggs, p: int, lo: int, hi: int, a: int): Aggs
    requires p in aggs
  {
    aggs[p := aggs[p].(svlanMap := map t | t in aggs[p].svlanMap
        && !(lo <= t <= hi && aggs[p].svlanMap[t] == a) :: aggs[p].svlanMap[t])]
  }

  lemma TagsNest(aggs: Aggs, p: int, lo: int, hi: int, a: int)
    requires p in aggs && RatesNest(aggs)
    ensures RatesNest(TakeTags(aggs, p, lo, hi, a))
  {
  }

  lemma TakeNothing(aggs: Aggs, p: int, lo: int, a: int)
    requires p in aggs
    ensures TakeTags(aggs, p, lo, lo - 1, a) == aggs
  {
    assert (map t | t in aggs[p].svlanMap && !(lo <= t <= lo - 1 && aggs[p].svlanMap[t] == a) ::
        aggs[p].svlanMap[t]) == aggs[p].svlanMap;
  }

  lemma TakeOneMore(aggs: Aggs, p: int, lo: int, t: int, a: int)
    requires p in aggs && lo <= t
    ensures var aggs1 := TakeTags(aggs, p, lo, t - 1, a);
            TakeTags(aggs, p, lo, t, a) ==
            if t in aggs1[p].svlanMap && aggs1[p].svlanMap[t] == a
            then aggs1[p := aggs1[p].(svlanMap := aggs1[p].svlanMap - {t})] else aggs1
  {
    var m := aggs[p].svlanMap;
    var m1 := TakeTags(aggs, p, lo, t - 1, a)[p].svlanMap;
    var m2 := TakeTags(aggs, p, lo, t, a)[p].svlanMap;
    assert m2 == if t in m1 && m1[t] == a then m1 - {t} else m1;
  }

  /** Nothing resolves to a any more. */
  ghost predicate Unreachable(aggs: Aggs, bySw: map<int, int>, a: int) {
    && (forall w :: w in bySw ==> bySw[w] != a)
    && (forall p, t {:trigger t in aggs[p].svlanMap} :: p in aggs && t in aggs[p].svlanMap ==> aggs[p].svlanMap[t] != a)
  }

  lemma UnreachableUnresolved(aggs: Aggs, bySw: map<int, int>, a: int, path: seq<Hop>)
    requires Unreachable(aggs, bySw, a)
    ensures Resolve(aggs, bySw, path) != At(a)
  {
    FindPortNamesBySw(bySw, path, Unset);
  }

  /** So dropping a changes no scheduler's resolution. */
  lemma ResolveDropped(aggs: Aggs, bySw: map<int, int>, a: int, path: seq<Hop>)
    requires Unreachable(aggs, bySw, a)
    ensures Resolve(aggs - {a}, bySw, path) == Resolve(aggs, bySw, path)
  {
    FindPortNamesBySw(bySw, path, Unset);
  }

  lemma {:induction false} FindPortNamesBySw(bySw: map<int, int>, path: seq<Hop>, tag: Ref)
    ensures var port := FindPort(bySw, path, tag).0;
            port.At? ==> exists w :: w in bySw && bySw[w] == port.i
    decreases |path|
  {
    if |path| > 1 {
      var tag1 := if path[0].tag.At? then path[0].tag else tag;
      if path[1].swIf in bySw {
        assert bySw[path[1].swIf] == FindPort(bySw, path, tag).0.i;
      } else {
        FindPortNamesBySw(bySw, path[1..], tag1);
      }
    }
  }

  lemma TakeTagsBalances(aggs: Aggs, scheds: Scheds, bySw: map<int, int>, ledger: Ledger, p: int, a: int)
    requires Balanced(aggs, scheds, bySw, ledger) && IndexFull(aggs, bySw)
    requires a in aggs && aggs[a].parent == At(p) && p in aggs
    ensures var aggs' := TakeTags(aggs, p, aggs[a].conf.svlanId, aggs[a].conf.svlanIdEnd, a);
            Balanced(aggs', scheds, bySw, ledger) && IndexFullBut(aggs', bySw, {a}) && Unreachable(aggs', bySw, a)
  {
    var aggs' := TakeTags(aggs, p, aggs[a].conf.svlanId, aggs[a].conf.svlanIdEnd, a);
    ConfigBalances(aggs, aggs', scheds, ledger);
    forall w | w in bySw
      ensures bySw[w] in aggs' && aggs'[bySw[w]].parent.Unset? && aggs'[bySw[w]].conf.swIf == w && bySw[w] != a
    {
      var b: int := bySw[w];
      assert b in aggs;
    }
    forall q, t | q in aggs' && t in aggs'[q].svlanMap
      ensures var c := aggs'[q].svlanMap[t];
              c in aggs' && aggs'[c].parent == At(q) && aggs'[c].conf.svlanId <= t <= aggs'[c].conf.svlanIdEnd && c != a
    {
      assert t in aggs[q].svlanMap;
      var c: int := aggs[q].svlanMap[t];
      assert c in aggs;
    }
    forall b, t | Owns(aggs', b, t) && b != a
      ensures var q := aggs'[b].parent.i; q in aggs' && t in aggs'[q].svlanMap && aggs'[q].svlanMap[t] == b
    {
      assert Owns(aggs, b, t);
    }
  }

  /** Once nothing hangs off a and nothing names it, it can be returned to the pool. */
  lemma DropAggBalances(aggs: Aggs, scheds: Scheds, bySw: map<int, int>, ledger: Ledger, a: int)
    requires Balanced(aggs, scheds, bySw, ledger) && IndexFullBut(aggs, bySw, {a})
    requires a in aggs && Childless(aggs, scheds, a) && Unreachable(aggs, bySw, a)
    ensures Balanced(aggs - {a}, scheds, bySw, ledger) && IndexFull(aggs - {a}, bySw)
    ensures aggs[a].usage == 0 && aggs[a].activeWeight == 0 && aggs[a].nActive == 0
  {
    var aggs' := aggs - {a};
    RemoveAgg(aggs, scheds, ledger, a);
    forall w | w in bySw
      ensures bySw[w] in aggs' && aggs'[bySw[w]].parent.Unset? && aggs'[bySw[w]].conf.swIf == w
    {
      var b: int := bySw[w];
      assert b in aggs;
    }
    forall q, t | q in aggs' && t in aggs'[q].svlanMap
      ensures var c := aggs'[q].svlanMap[t];
              c in aggs' && aggs'[c].parent == At(q) && aggs'[c].conf.svlanId <= t <= aggs'[c].conf.svlanIdEnd
    {
      assert t in aggs[q].svlanMap;
      var c: int := aggs[q].svlanMap[t];
      assert c in aggs;
    }
    forall b, t | Owns(aggs', b, t)
      ensures var q := aggs'[b].parent.i; q in aggs' && t in aggs'[q].svlanMap && aggs'[q].svlanMap[t] == b
    {
      assert Owns(aggs, b, t);
    }
  }

  /** A new rate or weight: the parent's sum moves by the difference, while it counts the tier. */
  function Reconfigured(aggs: Aggs, a: int, conf: AggConf, w: Pos): Aggs
    requires a in aggs
  {
    var g := aggs[a];
    var aggs1 := aggs[a := g.(conf := conf, effWeight := w)];
    if g.parent.At? && g.parent.i in aggs1 && g.nActive > 0 && w != g.effWeight then
      aggs1[g.parent.i := aggs1[g.parent.i].(activeWeight := aggs1[g.parent.i].activeWeight + w - g.effWeight)]
    else aggs1
  }

  lemma ReconfigureWeights(aggs: Aggs, aggs': Aggs, scheds: Scheds, a: int, conf: AggConf, w: Pos)
    requires TreeOk(aggs) && WeightOk(aggs, scheds) && a in aggs && aggs' == Reconfigured(aggs, a, conf, w)
    requires aggs[a].parent.At? ==> aggs[a].parent.i in aggs && aggs[a].parent.i != a
    ensures WeightOk(aggs', scheds)
  {
    forall x | x in aggs'
      ensures aggs'[x].activeWeight == ActiveWeight(aggs', scheds, x)
      ensures aggs'[x].nActive == ActiveCount(aggs', scheds, x)
    {
      TierSumsChange(aggs, aggs', a, x);
      assert aggs[x].activeWeight == ActiveWeight(aggs, scheds, x);
      assert aggs[x].nActive == ActiveCount(aggs, scheds, x);
    }
  }

  lemma ReconfigureBalances(aggs: Aggs, scheds: Scheds, bySw: map<int, int>, ledger: Ledger, a: int, conf: AggConf,
          w: Pos)
    requires Balanced(aggs, scheds, bySw, ledger) && IndexFull(aggs, bySw) && a in aggs
    requires conf.swIf == aggs[a].conf.swIf && conf.svlanId == aggs[a].conf.svlanId
        && conf.svlanIdEnd == aggs[a].conf.svlanIdEnd
    ensures var aggs' := Reconfigured(aggs, a, conf, w);
            Balanced(aggs', scheds, bySw, ledger) && IndexFull(aggs', bySw)
  {
    var aggs' := Reconfigured(aggs, a, conf, w);
    assert aggs[a].parent.At? ==> aggs[a].parent.i in aggs && aggs[a].parent.i != a;
    ShapeKeepsCharge(aggs, aggs', scheds, scheds, ledger);
    ReconfigureWeights(aggs, aggs', scheds, a, conf, w);
    ReconfigureIndex(aggs, aggs', bySw, a, conf, w);
  }

  lemma ReconfigureIndex(aggs: Aggs, aggs': Aggs, bySw: map<int, int>, a: int, conf: AggConf, w: Pos)
    requires IndexOk(aggs, bySw) && IndexFull(aggs, bySw) && a in aggs
    requires conf.swIf == aggs[a].conf.swIf && conf.svlanId == aggs[a].conf.svlanId
        && conf.svlanIdEnd == aggs[a].conf.svlanIdEnd
    requires aggs' == Reconfigured(aggs, a, conf, w)
    ensures IndexOk(aggs', bySw) && IndexFull(aggs', bySw)
  {
    assert SameNames(aggs, aggs');
    hide Reconfigured;
    NamesCarry(aggs, aggs', bySw);
  }

  /** Nothing an index looks at has changed. */
  ghost predicate SameNames(aggs: Aggs, aggs': Aggs) {
    aggs'.Keys == aggs.Keys && forall x :: x in aggs ==>
      && aggs'[x].parent == aggs[x].parent && aggs'[x].svlanMap == aggs[x].svlanMap
         && aggs'[x].conf.swIf == aggs[x].conf.swIf
      && aggs'[x].conf.svlanId == aggs[x].conf.svlanId && aggs'[x].conf.svlanIdEnd == aggs[x].conf.svlanIdEnd
  }

  lemma NamesCarry(aggs: Aggs, aggs': Aggs, bySw: map<int, int>)
    requires SameNames(aggs, aggs') && IndexOk(aggs, bySw) && IndexFull(aggs, bySw)
    ensures IndexOk(aggs', bySw) && IndexFull(aggs', bySw)
  {
    forall v | v in bySw
      ensures bySw[v] in aggs' && aggs'[bySw[v]].parent.Unset? && aggs'[bySw[v]].conf.swIf == v
    {
      var b: int := bySw[v];
      assert b in aggs;
    }
    forall q, t | q in aggs' && t in aggs'[q].svlanMap
      ensures var c := aggs'[q].svlanMap[t];
              c in aggs' && aggs'[c].parent == At(q) && aggs'[c].conf.svlanId <= t <= aggs'[c].conf.svlanIdEnd
    {
      assert t in aggs[q].svlanMap;
      var c: int := aggs[q].svlanMap[t];
      assert c in aggs;
    }
    forall b, t | Owns(aggs', b, t)
      ensures var q := aggs'[b].parent.i; q in aggs' && t in aggs'[q].svlanMap && aggs'[q].svlanMap[t] == b
    {
      assert Owns(aggs, b, t);
    }
  }

  lemma UnlistPort(aggs: Aggs, bySw: map<int, int>, swIf: int)
    requires IndexOk(aggs, bySw) && IndexFull(aggs, bySw) && swIf in bySw
    ensures var a := bySw[swIf];
            IndexOk(aggs, bySw - {swIf}) && IndexFullBut(aggs, bySw - {swIf}, {a})
                && Unreachable(aggs, bySw - {swIf}, a)
  {
    var a: int := bySw[swIf];
    assert a in aggs;
    forall w | w in bySw - {swIf}
      ensures bySw[w] != a
    {
      var b: int := bySw[w];
      assert b in aggs;
    }
    forall p, t | p in aggs && t in aggs[p].svlanMap
      ensures aggs[p].svlanMap[t] != a
    {
      var c: int := aggs[p].svlanMap[t];
      assert c in aggs;
    }
  }

  lemma FullFramed(aggs: Aggs, aggs': Aggs, bySw: map<int, int>)
    requires IndexFull(aggs, bySw) && RatesNest(aggs) && SameConf(aggs, aggs')
    ensures IndexFull(aggs', bySw) && RatesNest(aggs')
  {
    NestFramed(aggs, aggs');
    IndexFullFramed(aggs, aggs', bySw, {});
  }

  lemma WeightAddConf(aggs: Aggs, idx: Ref, w: nat)
    ensures SameConf(aggs, WeightAdd(aggs, idx, w))
  {
  }

  lemma WeightSubConf(aggs: Aggs, idx: Ref, w: nat)
    ensures SameConf(aggs, WeightSub(aggs, idx, w))
  {
  }

  function Total(lens: seq<nat>): nat {
    if lens == [] then 0 else lens[0] + Total(lens[1..])
  }

  function Children(aggs: Aggs, a: int): set<int> {
    set c | c in aggs && aggs[c].parent == At(a)
  }

  lemma ChildrenFramed(was: Aggs, aggs: Aggs)
    requires SameConf(was, aggs)
    ensures forall p :: Children(aggs, p) == Children(was, p)
  {
    forall p
      ensures Children(aggs, p) == Children(was, p)
    {
      assert forall c :: c in Children(aggs, p) <==> c in Children(was, p);
    }
  }

  /** Every scheduler keeps all but its attachment. */
  ghost predicate OnlyMoved(was: Scheds, now: Scheds) {
    now.Keys == was.Keys && forall s :: s in now ==> now[s] == was[s].(attach := now[s].attach)
  }

  /** Tiers in gone have left, and every other one but the port stands as configured. */
  ghost predicate Trimmed(was: Aggs, gone: set<int>, port: int, now: Aggs) {
    && now.Keys == was.Keys - gone
    && forall x :: x in now ==>
         && now[x].parent == was[x].parent && now[x].conf == was[x].conf && now[x].effWeight == was[x].effWeight
         && (x != port ==> now[x].svlanMap == was[x].svlanMap)
  }

  lemma TrimStep(was: Aggs, gone: set<int>, p: int, now: Aggs, c: int, next: Aggs)
    requires Trimmed(was, gone, p, now) && p in now && c in now && c != p
    requires SameConf(TakeTags(now, p, now[c].conf.svlanId, now[c].conf.svlanIdEnd, c) - {c}, next)
    ensures Trimmed(was, gone + {c}, p, next)
  {
    assert next.Keys == was.Keys - (gone + {c});
  }

  lemma TrimEnd(was: Aggs, gone: set<int>, p: int, now: Aggs, next: Aggs)
    requires Trimmed(was, gone, p, now) && SameConf(now - {p}, next)
    ensures SameConf(was - (gone + {p}), next)
  {
  }

  lemma ChildGone(was: Aggs, aggs: Aggs, p: int, c: int)
    requires p in was && c in was && was[c].parent == At(p) && c != p
    requires SameConf(TakeTags(was, p, was[c].conf.svlanId, was[c].conf.svlanIdEnd, c) - {c}, aggs)
    ensures Children(aggs, p) == Children(was, p) - {c}
    ensures p in aggs && aggs[p].parent == was[p].parent
  {
    assert aggs.Keys == was.Keys - {c};
    forall x | x in aggs
      ensures aggs[x].parent == was[x].parent
    {
    }
  }

  /** A scheduler's tiers are live, and two different ones. */
  lemma ChainIsLive(aggs: Aggs, scheds: Scheds, bySw: map<int, int>, ledger: Ledger, s: int)
    requires Balanced(aggs, scheds, bySw, ledger) && s in scheds
    ensures scheds[s].attach.At? ==>
              var a := scheds[s].attach.i;
              a in aggs && (aggs[a].parent.At? ==> aggs[a].parent.i in aggs && aggs[a].parent.i != a)
    ensures s in ledger
  {
  }

  class Hqos {
    var aggs: Aggs
    var scheds: Scheds
    var aggBySw: map<int, int>
    var schedBySw: map<int, int>
    /** What each scheduler has charged to its chain and not yet released. */
    ghost var ledger: Ledger

    ghost predicate Core()
      reads this
    {
      Balanced(aggs, scheds, aggBySw, ledger)
    }

    constructor ()
      ensures aggs == map[] && scheds == map[] && aggBySw == map[] && schedBySw == map[] && ledger == map[]
      ensures Core()
    {
      aggs, scheds, aggBySw, schedBySw, ledger := map[], map[], map[], map[], map[];
    }

    /** fetch-add on a tier's charge. */
    method AddUsage(a: int, x: int)
      requires a in aggs
      modifies this`aggs
      ensures aggs == AddTo(old(aggs), a, x)
    {
      aggs := aggs[a := aggs[a].(usage := aggs[a].usage + x)];
    }

    /** cake_agg_admit: add first, verify after, unwind on refusal. */
    method TierAdmit(a: int, len: int) returns (ok: bool)
      requires a in aggs && len >= 0
      modifies this`aggs
      ensures ok == (Reg32(Reg32(old(aggs)[a].usage) + len) <= old(aggs)[a].conf.bufferLimit)
      ensures aggs == if ok then AddTo(old(aggs), a, len) else old(aggs)
    {
      var prev := Reg32(aggs[a].usage);
      AddUsage(a, len);
      if Reg32(prev + len) > aggs[a].conf.bufferLimit {
        AddUsage(a, -len);
        return false;
      }
      return true;
    }

    /** cake_agg_admit_chain: charge every tier, unwinding the one taken if the next refuses. */
    method AdmitChain(si: int, len: int) returns (ok: bool)
      requires len >= 0 && Core() && si in scheds
      modifies this`aggs, this`ledger
      ensures Core()
      ensures ok == ChainAdmits(old(aggs), scheds[si].attach, len)
      ensures aggs == if ok then ChargeChain(old(aggs), scheds[si].attach, len) else old(aggs)
      ensures ledger == if ok then old(ledger)[si := old(ledger)[si] + len] else old(ledger)
    {
      hide Balanced;
      var idx := scheds[si].attach;
      ok := true;
      ChainIsLive(aggs, scheds, aggBySw, ledger, si);
      if idx.At? {
        var a := idx.i;
        if Reg32(aggs[a].usage) > aggs[a].conf.bufferLimit {
          return false;
        }
        ok := TierAdmit(a, len);
        if !ok {
          return false;
        }
        if aggs[a].parent.At? {
          var p := aggs[a].parent.i;
          ok := Reg32(aggs[p].usage) <= aggs[p].conf.bufferLimit;
          if ok {
            ok := TierAdmit(p, len);
          }
          if !ok {
            AddUsage(a, -len);
            assert aggs == old(aggs);
            return false;
          }
        }
      }
      ChargeChainBalances(old(aggs), scheds, aggBySw, ledger, si, len);
      ledger := ledger[si := ledger[si] + len];
    }

    /** cake_agg_discharge: release at every tier of the current attachment. */
    method Discharge(si: int, len: int)
      requires Core() && si in scheds && 0 <= len <= ledger[si]
      modifies this`aggs, this`ledger
      ensures Core()
      ensures aggs == ChargeChain(old(aggs), scheds[si].attach, -len)
      ensures ledger == old(ledger)[si := old(ledger)[si] - len]
      // No tier's register goes below zero.
      ensures forall a :: a in aggs ==> aggs[a].usage >= 0
    {
      ghost var from := scheds[si].attach;
      var idx := scheds[si].attach;
      while idx.At?
        invariant ledger == old(ledger)
        invariant idx.At? ==> idx.i in old(aggs) && aggs.Keys == old(aggs).Keys
        invariant || (idx == from && aggs == old(aggs))
                  || (idx.Unset? && aggs == ChargeChain(old(aggs), from, -len))
                  || (from.At? && idx == old(aggs)[from.i].parent && aggs == AddTo(old(aggs), from.i, -len))
        decreases if idx.Unset? then 0 else if old(aggs)[idx.i].parent.Unset? then 1 else 2
      {
        AddUsage(idx.i, -len);
        idx := aggs[idx.i].parent;
      }
      ChargeChainBalances(old(aggs), scheds, aggBySw, ledger, si, -len);
      ledger := ledger[si := ledger[si] - len];
      forall a | a in aggs
        ensures aggs[a].usage >= 0
      {
        ChargeCovers(aggs, scheds, ledger, a, si);
      }
    }

    /** Each scheduler's own byte count is what it has charged: nothing is half-way. */
    ghost predicate Settled()
      reads this
    {
      scheds.Keys == ledger.Keys && forall s :: s in scheds ==> ledger[s] == scheds[s].usage
    }

    ghost predicate SchedIndexOk()
      reads this
    {
      && (forall w :: w in schedBySw ==> schedBySw[w] in scheds && scheds[schedBySw[w]].swIf == w)
      && (forall s :: s in scheds ==> scheds[s].swIf in schedBySw && schedBySw[scheds[s].swIf] == s)
    }

    /** The state between operations. */
    ghost predicate Valid()
      reads this
    {
      Core() && Settled() && IndexFull(aggs, aggBySw) && SchedIndexOk() && RatesNest(aggs)
    }

    /** In every state between operations a tier is shaped no higher than its port. */
    lemma NeverAbovePort(c: int)
      requires Valid() && c in aggs && aggs[c].parent.At?
      ensures aggs[c].parent.i in aggs && aggs[c].conf.rate <= aggs[aggs[c].parent.i].conf.rate
    {
    }

    /** The tree's part in enqueueing one packet: charge the chain; a full ring gives it back. */
    method ChargePacket(si: int, len: int, ringFull: bool) returns (queued: bool)
      requires Valid() && si in scheds && len >= 0
      modifies this`aggs, this`scheds, this`ledger
      ensures Valid()
      ensures queued == (ChainAdmits(old(aggs), old(scheds)[si].attach, len) && !ringFull)
      ensures !queued ==> aggs == old(aggs) && scheds == old(scheds)
      ensures queued ==> aggs == ChargeChain(old(aggs), old(scheds)[si].attach, len) &&
                         scheds == old(scheds)[si := old(scheds)[si].(usage := old(scheds)[si].usage + len)]
    {
      var ok := AdmitChain(si, len);
      ChargeChainConf(old(aggs), scheds[si].attach, len);
      if !ok {
        return false;
      }
      if ringFull {
        Discharge(si, len);
        ChargeChainUndo(old(aggs), scheds[si].attach, len);
        assert ledger == old(ledger);
        return false;
      }
      SetUsage(si, scheds[si].usage + len);
      FullFramed(old(aggs), aggs, aggBySw);
      return true;
    }

    /** The tree's part in sending, dropping or discarding queued bytes. */
    method ReleasePacket(si: int, len: int)
      requires Valid() && si in scheds && 0 <= len <= scheds[si].usage
      modifies this`aggs, this`scheds, this`ledger
      ensures Valid()
      ensures aggs == ChargeChain(old(aggs), old(scheds)[si].attach, -len)
      ensures scheds == old(scheds)[si := old(scheds)[si].(usage := old(scheds)[si].usage - len)]
      ensures SameConf(old(aggs), aggs)
      ensures forall a :: a in aggs ==> aggs[a].usage >= 0
    {
      hide Balanced, IndexFull, SameConf, ChargeChain;
      SetUsage(si, scheds[si].usage - len);
      Discharge(si, len);
      ChargeChainConf(old(aggs), scheds[si].attach, -len);
      FullFramed(old(aggs), aggs, aggBySw);
    }

    method SetUsage(si: int, usage: int)
      requires Core() && si in scheds && usage >= 0
      modifies this`scheds
      ensures Core()
      ensures scheds == old(scheds)[si := old(scheds)[si].(usage := usage)]
    {
      ghost var was := scheds;
      scheds := scheds[si := scheds[si].(usage := usage)];
      UsageKeepsWeight(aggs, aggs, was, scheds);
      ShapeKeepsCharge(aggs, aggs, was, scheds, ledger);
    }

    /** cake_sched_drr_activate. */
    method Activate(si: int)
      requires Valid() && si in scheds
      modifies this`aggs, this`scheds
      ensures Valid()
      ensures scheds == old(scheds)[si := old(scheds)[si].(active := true)]
      ensures aggs == if old(scheds)[si].active then old(aggs)
                      else WeightAdd(old(aggs), old(scheds)[si].attach, old(scheds)[si].effWeight)
    {
      hide Balanced, IndexFull, SameConf;
      if scheds[si].active {
        return;
      }
      WeightAddConf(aggs, scheds[si].attach, scheds[si].effWeight);
      ActivateBalances(aggs, scheds, aggBySw, ledger, si);
      scheds := scheds[si := scheds[si].(active := true)];
      aggs := WeightAdd(aggs, scheds[si].attach, scheds[si].effWeight);
      FullFramed(old(aggs), aggs, aggBySw);
    }

    /** cake_sched_drr_deactivate. */
    method Deactivate(si: int)
      requires Valid() && si in scheds
      modifies this`aggs, this`scheds
      ensures Valid()
      ensures scheds == old(scheds)[si := old(scheds)[si].(active := false)]
      ensures aggs == if !old(scheds)[si].active then old(aggs)
                      else WeightSub(old(aggs), old(scheds)[si].attach, old(scheds)[si].effWeight)
    {
      hide Balanced, IndexFull, SameConf;
      if !scheds[si].active {
        return;
      }
      WeightSubConf(aggs, scheds[si].attach, scheds[si].effWeight);
      DeactivateBalances(aggs, scheds, aggBySw, ledger, si);
      scheds := scheds[si := scheds[si].(active := false)];
      aggs := WeightSub(aggs, scheds[si].attach, scheds[si].effWeight);
      FullFramed(old(aggs), aggs, aggBySw);
    }

    // ------------------------------------------------------------ attachment

    /** cake_sched_resolve_attachment: walk towards the port, remembering the outermost tag. */
    method ResolveAttachment(path: seq<Hop>) returns (to: Ref)
      requires Core()
      ensures to == Resolve(aggs, aggBySw, path)
      ensures to.At? ==> to.i in aggs
      ensures (forall i :: 1 <= i < |path| ==> path[i].swIf !in aggBySw) ==> to == Unset
      ensures forall k, j :: Leads(aggBySw, path, k, j) ==>
                && aggBySw[path[k].swIf] in aggs
                && var p := aggBySw[path[k].swIf];
                   to == if j >= 0 && path[j].tag.i < 4096 && path[j].tag.i in aggs[p].svlanMap
                         then At(aggs[p].svlanMap[path[j].tag.i]) else At(p)
    {
      ResolveIs(aggs, aggBySw, path);
      var i := 0;
      var tag, port := Unset, Unset;
      while i < |path| && port.Unset?
        invariant 0 <= i <= |path|
        invariant port.Unset? ==> FindPort(aggBySw, path, Unset) == FindPort(aggBySw, path[i..], tag)
        invariant port.At? ==> FindPort(aggBySw, path, Unset) == (port, tag)
        decreases |path| - i, port.Unset?
      {
        if path[i].tag.At? {
          tag := path[i].tag;
        }
        if i + 1 < |path| && path[i + 1].swIf in aggBySw {
          port := At(aggBySw[path[i + 1].swIf]);
        } else {
          i := i + 1;
        }
      }
      ResolveIsLive(aggs, aggBySw, path);
      if port.Unset? || port.i !in aggs {
        return Unset;
      }
      if tag.At? && tag.i < SVLAN_MAX && tag.i in aggs[port.i].svlanMap {
        return At(aggs[port.i].svlanMap[tag.i]);
      }
      return port;
    }

    /** cake_agg_chain. */
    method AggChain(idx: Ref) returns (chain: seq<int>)
      requires Core() && (idx.At? ==> idx.i in aggs)
      ensures chain == Chain(aggs, idx, MAX_DEPTH)
      ensures Elems(chain) == ChainSet(aggs, idx)
      ensures forall i, j :: 0 <= i < j < |chain| ==> chain[i] != chain[j]
    {
      chain := [];
      var at := idx;
      ChainIsOnChain(aggs, idx);
      while at.At? && at.i in aggs && |chain| < MAX_DEPTH
        invariant |chain| <= MAX_DEPTH
        invariant Chain(aggs, idx, MAX_DEPTH) == chain + Chain(aggs, at, MAX_DEPTH - |chain|)
        decreases MAX_DEPTH - |chain|
      {
        chain := chain + [at.i];
        at := aggs[at.i].parent;
      }
    }

    /** Add x to the tiers of chain that are not in other. */
    method AddToOnly(chain: seq<int>, other: seq<int>, x: int)
      requires forall a :: a in chain ==> a in aggs
      requires forall i, j :: 0 <= i < j < |chain| ==> chain[i] != chain[j]
      modifies this`aggs
      ensures aggs == Transfer(old(aggs), Elems(chain) - Elems(other), {}, x)
    {
      ghost var was := aggs;
      for i := 0 to |chain|
        invariant aggs == Transfer(was, Elems(chain[..i]) - Elems(other), {}, x)
      {
        assert chain[i] !in Elems(chain[..i]);
        ElemsStep(chain, i);
        if chain[i] !in other {
          TransferStep(was, Elems(chain[..i]) - Elems(other), chain[i], x);
          AddUsage(chain[i], x);
        }
        assert Elems(chain[..i + 1]) - Elems(other) ==
               if chain[i] in other then Elems(chain[..i]) - Elems(other)
                   else Elems(chain[..i]) - Elems(other) + {chain[i]};
      }
      assert chain[..|chain|] == chain;
    }

    /** Pre-credit the tiers only the new chain has, debit those only the old chain has. */
    method MoveUsage(newChain: seq<int>, oldChain: seq<int>, x: int)
      requires forall a :: a in newChain || a in oldChain ==> a in aggs
      requires forall i, j :: 0 <= i < j < |newChain| ==> newChain[i] != newChain[j]
      requires forall i, j :: 0 <= i < j < |oldChain| ==> oldChain[i] != oldChain[j]
      modifies this`aggs
      ensures aggs == Transfer(old(aggs), Elems(newChain), Elems(oldChain), x)
    {
      AddToOnly(newChain, oldChain, x);
      AddToOnly(oldChain, newChain, -x);
    }

    /** Weight and charge leave the old parent for the new one. */
    method Carry(me: Sched, oldChain: seq<int>, to: Ref)
      requires TreeOk(aggs) && me.attach != to && (me.attach.At? ==> me.attach.i in aggs) && (to.At? ==> to.i in aggs)
      requires Elems(oldChain) == ChainSet(aggs, me.attach)
      requires forall i, j :: 0 <= i < j < |oldChain| ==> oldChain[i] != oldChain[j]
      modifies this`aggs
      ensures aggs == Reparented(old(aggs), me, to)
    {
      hide TreeOk;
      ghost var was := aggs;
      if me.active {
        aggs := WeightAdd(WeightSub(aggs, me.attach, me.effWeight), to, me.effWeight);
      }
      if me.usage != 0 {
        ChainsSurviveWeight(was, aggs, me, to);
        var newChain := Chain(aggs, to, MAX_DEPTH);
        assert forall a :: a in newChain ==> a in Elems(newChain);
        assert forall a :: a in oldChain ==> a in Elems(oldChain);
        MoveUsage(newChain, oldChain, me.usage);
      }
    }

    /** One scheduler moves to another parent with its weight and its charge. */
    method Rehang(si: int, to: Ref)
      requires Core() && Settled() && si in scheds && (to.At? ==> to.i in aggs)
      modifies this`aggs, this`scheds
      ensures Core() && Settled()
      ensures aggs == Reparented(old(aggs), old(scheds)[si], to)
      ensures scheds == old(scheds)[si := old(scheds)[si].(attach := to)]
      ensures SameConf(old(aggs), aggs)
    {
      hide Balanced, TreeOk, Reparented;
      TreeIsOk(aggs, scheds, aggBySw, ledger, si);
      var me := scheds[si];
      var oldChain := AggChain(me.attach);
      ReparentBalances(aggs, scheds, aggBySw, ledger, si, to);
      scheds := scheds[si := me.(attach := to)];
      if to == me.attach {
        ReparentedToItself(aggs, me);
      } else {
        Carry(me, oldChain, to);
      }
    }

    /** One round of the reparent loop. */
    method ReparentOne(si: int, topo: Topology)
      requires Core() && Settled() && si in scheds
      modifies this`aggs, this`scheds
      ensures Core() && Settled()
      ensures var to := Resolve(old(aggs), aggBySw, topo(old(scheds)[si].swIf));
              && aggs == Reparented(old(aggs), old(scheds)[si], to)
              && scheds == old(scheds)[si := old(scheds)[si].(attach := to)]
      ensures SameConf(old(aggs), aggs)
    {
      hide Balanced, Leads, Resolve;
      var to := ResolveAttachment(topo(scheds[si].swIf));
      Rehang(si, to);
    }

    /** cake_agg_reparent_all: every scheduler, in whatever order the pool yields them. */
    method ReparentAll(topo: Topology)
      requires Core() && Settled() && SchedIndexOk()
      modifies this`aggs, this`scheds
      ensures Core() && Settled() && SchedIndexOk()
      ensures SameConf(old(aggs), aggs)
      ensures scheds.Keys == old(scheds).Keys
      ensures forall s :: s in scheds ==>
                scheds[s] == old(scheds)[s].(attach := Resolve(aggs, aggBySw, topo(old(scheds)[s].swIf)))
    {
      var todo: set<int> := scheds.Keys;
      while todo != {}
        invariant Core() && Settled()
        invariant todo <= scheds.Keys
        invariant SameConf(old(aggs), aggs)
        invariant scheds.Keys == old(scheds).Keys
        invariant forall s :: s in todo ==> scheds[s] == old(scheds)[s]
        invariant forall s :: s in scheds && s !in todo ==>
                    scheds[s] == old(scheds)[s].(attach := Resolve(old(aggs), aggBySw, topo(old(scheds)[s].swIf)))
        decreases todo
      {
        var si := AnyOf(todo);
        ResolveFramed(old(aggs), aggs, aggBySw, topo(scheds[si].swIf));
        ReparentOne(si, topo);
        todo := todo - {si};
      }
      forall s | s in scheds
        ensures scheds[s] == old(scheds)[s].(attach := Resolve(aggs, aggBySw, topo(old(scheds)[s].swIf)))
      {
        ResolveFramed(old(aggs), aggs, aggBySw, topo(old(scheds)[s].swIf));
      }
      forall w | w in schedBySw
        ensures schedBySw[w] in scheds && scheds[schedBySw[w]].swIf == w
      {
        var s: int := schedBySw[w];
        assert s in old(scheds);
      }
    }

    // ------------------------------------------------------------ configuration, under the barrier

    /** cake_aggregate_create: a port. slot is whichever free index the pool hands out. */
    method AggregateCreate(ifValid: bool, swIf: int, rate: nat, weight: nat, burst: nat, limit: nat,
                           slot: int, topo: Topology) returns (rv: Rv)
      requires Valid() && slot !in aggs
      modifies this`aggs, this`scheds, this`aggBySw
      ensures Valid()
      ensures rv == if !ifValid then InvalidSwIfIndex
                    else if BadWeight(weight) || BadBurst(burst) then InvalidValue
                    else if swIf in old(aggBySw) then AlreadyExists else Done
      ensures rv != Done ==> aggs == old(aggs) && scheds == old(scheds) && aggBySw == old(aggBySw)
      ensures rv == Done ==>
                && aggBySw == old(aggBySw)[swIf := slot]
                && SameConf(old(aggs)[slot := NewAgg(swIf, Unset, 0, 0, rate, weight, BurstOf(burst), limit)], aggs)
                && OnlyReattached(old(scheds), topo)
    {
      if !ifValid {
        return InvalidSwIfIndex;
      }
      if BadWeight(weight) {
        return InvalidValue;
      }
      var burstNs := if burst == 0 then BURST_NS else burst;
      if burstNs < BURST_NS_MIN || burstNs > BURST_NS_MAX {
        return InvalidValue;
      }
      if swIf in aggBySw {
        return AlreadyExists;
      }
      var g := NewAgg(swIf, Unset, 0, 0, rate, weight, burstNs, limit);
      CreatePortBalances(aggs, scheds, aggBySw, ledger, slot, g);
      AddedNests(aggs, slot, g);
      aggs := aggs[slot := g];
      aggBySw := aggBySw[swIf := slot];
      ghost var was := aggs;
      ReparentAll(topo);
      FullFramed(was, aggs, aggBySw);
      return Done;
    }

    /** Every scheduler keeps everything but its attachment, which is now what its walk resolves to. */
    ghost predicate OnlyReattached(was: Scheds, topo: Topology)
      reads this
    {
      && scheds.Keys == was.Keys
      && forall s :: s in scheds ==> scheds[s] == was[s].(attach := Resolve(aggs, aggBySw, topo(was[s].swIf)))
    }

    /** cake_aggregate_delete: a port with no S-VLANs left. */
    method AggregateDelete(swIf: int, topo: Topology) returns (rv: Rv)
      requires Valid()
      modifies this`aggs, this`scheds, this`aggBySw
      ensures Valid()
      ensures rv == if swIf !in old(aggBySw) then NoSuchEntry
                    else if exists c :: c in old(aggs) && old(aggs)[c].parent == At(old(aggBySw)[swIf]) then InUse
                        else Done
      ensures rv != Done ==> aggs == old(aggs) && scheds == old(scheds) && aggBySw == old(aggBySw)
      ensures rv == Done ==>
                && aggBySw == old(aggBySw) - {swIf}
                && SameConf(old(aggs) - {old(aggBySw)[swIf]}, aggs)
                && OnlyReattached(old(scheds), topo)
                && forall s :: s in scheds ==> scheds[s].attach != At(old(aggBySw)[swIf])
    {
      if swIf !in aggBySw {
        return NoSuchEntry;
      }
      var a: int := aggBySw[swIf];
      assert a in aggs;
      if exists c :: c in aggs && aggs[c].parent == At(a) {
        return InUse;
      }
      aggBySw := aggBySw - {swIf};
      assert Core() && Unreachable(aggs, aggBySw, a) && IndexFullBut(aggs, aggBySw, {a}) by {
        UnlistPort(aggs, old(aggBySw), swIf);
      }
      ReparentAll(topo);
      FinishDelete(old(aggs), a, topo, old(scheds));
      aggs := aggs - {a};
      return Done;
    }

    /** After a reparent with a unreachable, nothing hangs off it and it can be dropped. */
    lemma FinishDelete(was: Aggs, a: int, topo: Topology, wasScheds: Scheds)
      requires Core() && SameConf(was, aggs) && RatesNest(was)
      requires IndexFullBut(was, aggBySw, {a}) && Unreachable(was, aggBySw, a)
      requires a in was && forall c :: c in was ==> was[c].parent != At(a)
      requires scheds.Keys == wasScheds.Keys
      requires forall s :: s in scheds ==>
                 scheds[s] == wasScheds[s].(attach := Resolve(aggs, aggBySw, topo(wasScheds[s].swIf)))
      ensures Childless(aggs, scheds, a)
      ensures Balanced(aggs - {a}, scheds, aggBySw, ledger) && IndexFull(aggs - {a}, aggBySw)
      ensures RatesNest(aggs - {a})
      ensures forall s :: s in scheds ==>
                scheds[s] == wasScheds[s].(attach := Resolve(aggs - {a}, aggBySw, topo(wasScheds[s].swIf)))
    {
      NestFramed(was, aggs);
      IndexFullFramed(was, aggs, aggBySw, {a});
      assert Unreachable(aggs, aggBySw, a) by {
        forall p, t | p in aggs && t in aggs[p].svlanMap
          ensures aggs[p].svlanMap[t] != a
        {
          assert t in was[p].svlanMap;
        }
      }
      forall s | s in scheds
        ensures scheds[s].attach != At(a)
        ensures scheds[s] == wasScheds[s].(attach := Resolve(aggs - {a}, aggBySw, topo(wasScheds[s].swIf)))
      {
        UnreachableUnresolved(aggs, aggBySw, a, topo(wasScheds[s].swIf));
        ResolveDropped(aggs, aggBySw, a, topo(wasScheds[s].swIf));
      }
      DropAggBalances(aggs, scheds, aggBySw, ledger, a);
    }

    /** Whether some tag of [lo, hi] is already mapped on port p. */
    method AnyTagMapped(p: int, lo: int, hi: int) returns (taken: bool)
      requires p in aggs && lo <= hi
      ensures taken <==> exists t :: lo <= t <= hi && t in aggs[p].svlanMap
    {
      for t := lo to hi + 1
        invariant forall u :: lo <= u < t ==> u !in aggs[p].svlanMap
      {
        if t in aggs[p].svlanMap {
          return true;
        }
      }
      return false;
    }

    method MapTags(p: int, lo: int, hi: int, a: int)
      requires p in aggs && lo <= hi
      modifies this`aggs
      ensures aggs == GiveTags(old(aggs), p, lo, hi, a)
    {
      for t := lo to hi + 1
        invariant aggs == GiveTags(old(aggs), p, lo, t - 1, a)
      {
        aggs := aggs[p := aggs[p].(svlanMap := aggs[p].svlanMap[t := a])];
      }
    }

    method UnmapTags(p: int, lo: int, hi: int, a: int)
      requires p in aggs && lo <= hi
      modifies this`aggs
      ensures aggs == TakeTags(old(aggs), p, lo, hi, a)
    {
      ghost var was := aggs;
      TakeNothing(was, p, lo, a);
      for t := lo to hi + 1
        invariant aggs == TakeTags(was, p, lo, t - 1, a)
      {
        if t in aggs[p].svlanMap && aggs[p].svlanMap[t] == a {
          aggs := aggs[p := aggs[p].(svlanMap := aggs[p].svlanMap - {t})];
        }
        TakeOneMore(was, p, lo, t, a);
      }
    }

    /** A new tier takes its tags on port p, and every scheduler is resolved anew. */
    method Install(p: int, g: Agg, slot: int, topo: Topology)
      requires Valid() && slot !in aggs && p in aggs && aggs[p].parent.Unset? && g.parent == At(p)
      requires g.svlanMap == map[] && g.usage == 0 && g.activeWeight == 0 && g.nActive == 0
      requires 0 <= g.conf.svlanId <= g.conf.svlanIdEnd < SVLAN_MAX && g.conf.rate <= aggs[p].conf.rate
      requires forall t :: g.conf.svlanId <= t <= g.conf.svlanIdEnd ==> t !in aggs[p].svlanMap
      modifies this`aggs, this`scheds
      ensures Valid() && p in old(aggs) && OnlyReattached(old(scheds), topo)
      ensures SameConf(GiveTags(old(aggs)[slot := g], p, g.conf.svlanId, g.conf.svlanIdEnd, slot), aggs)
    {
      hide ChargeOk, WeightOk, AttachOk;
      CreateTierBalances(aggs, scheds, aggBySw, ledger, slot, p, g);
      AddedNests(aggs, slot, g);
      aggs := aggs[slot := g];
      MapTags(p, g.conf.svlanId, g.conf.svlanIdEnd, slot);
      ghost var was := aggs;
      ReparentAll(topo);
      FullFramed(was, aggs, aggBySw);
    }

    /** A tier that owns its whole range attracts exactly the schedulers whose path leads to it. */
    lemma Attracted(was: Scheds, topo: Topology, swIf: int, a: int)
      requires Valid() && OnlyReattached(was, topo)
      requires swIf in aggBySw && a in aggs && aggs[a].parent == At(aggBySw[swIf])
      ensures forall s, k, j :: s in scheds && Leads(aggBySw, topo(scheds[s].swIf), k, j) ==>
                var path := topo(scheds[s].swIf);
                (scheds[s].attach == At(a) <==>
                   path[k].swIf == swIf && j >= 0 && aggs[a].conf.svlanId <= path[j].tag.i <= aggs[a].conf.svlanIdEnd)
    {
      hide Resolve, ChargeOk, WeightOk, AttachOk, RatesNest, SchedIndexOk, Settled;
      forall s, k, j | s in scheds && Leads(aggBySw, topo(scheds[s].swIf), k, j)
        ensures var path := topo(scheds[s].swIf);
                (scheds[s].attach == At(a) <==>
                   path[k].swIf == swIf && j >= 0 && aggs[a].conf.svlanId <= path[j].tag.i <= aggs[a].conf.svlanIdEnd)
      {
        var path := topo(scheds[s].swIf);
        ResolveIs(aggs, aggBySw, path);
        if j >= 0 { assert Owns(aggs, a, path[j].tag.i) ==> path[j].tag.i in aggs[aggBySw[swIf]].svlanMap; }
      }
    }

    /** cake_svlan_aggregate_create: a tier for tags [lo, hi] of the port on swIf. */
    method SvlanCreate(swIf: int, lo: int, hi: int, rate: nat, weight: nat, burst: nat, limit: nat,
                       slot: int, topo: Topology) returns (rv: Rv)
      requires Valid() && slot !in aggs && 0 <= lo
      modifies this`aggs, this`scheds
      ensures Valid()
      ensures rv == if hi < lo || hi >= SVLAN_MAX || BadWeight(weight) || BadBurst(burst) then InvalidValue
                    else if swIf !in aggBySw then NoSuchEntry
                    else if rate > old(aggs)[aggBySw[swIf]].conf.rate then InvalidValue
                    else if exists t :: lo <= t <= hi && t in old(aggs)[aggBySw[swIf]].svlanMap then AlreadyExists
                    else Done
      ensures rv != Done ==> aggs == old(aggs) && scheds == old(scheds)
      ensures rv == Done ==>
                && SameConf(GiveTags(old(aggs)[slot := NewAgg(swIf, At(aggBySw[swIf]), lo, hi, rate, weight,
                                                            BurstOf(burst), limit)],
                                     aggBySw[swIf], lo, hi, slot), aggs)
                && OnlyReattached(old(scheds), topo)
      // Under the new tier are exactly the schedulers whose path leads to this port with a tag of the range.
      ensures rv == Done ==> forall s, k, j :: s in scheds && Leads(aggBySw, topo(scheds[s].swIf), k, j) ==>
                var path := topo(scheds[s].swIf);
                (scheds[s].attach == At(slot) <==> path[k].swIf == swIf && j >= 0 && lo <= path[j].tag.i <= hi)
    {
      if hi < lo || hi >= SVLAN_MAX {
        return InvalidValue;
      }
      if BadWeight(weight) {
        return InvalidValue;
      }
      var burstNs := if burst == 0 then BURST_NS else burst;
      if burstNs < BURST_NS_MIN || burstNs > BURST_NS_MAX {
        return InvalidValue;
      }
      if swIf !in aggBySw {
        return NoSuchEntry;
      }
      var p: int := aggBySw[swIf];
      assert p in aggs;
      if rate > aggs[p].conf.rate {
        return InvalidValue;
      }
      var taken := AnyTagMapped(p, lo, hi);
      if taken {
        return AlreadyExists;
      }
      var g := NewAgg(swIf, At(p), lo, hi, rate, weight, burstNs, limit);
      Install(p, g, slot, topo);
      Attracted(old(scheds), topo, swIf, slot);
      return Done;
    }

    lemma TierTags(p: int, a: int)
      requires Valid() && a in aggs && p in aggs && aggs[a].parent == At(p)
      ensures aggs[a].conf.svlanId <= aggs[a].conf.svlanIdEnd
      ensures var aggs' := TakeTags(aggs, p, aggs[a].conf.svlanId, aggs[a].conf.svlanIdEnd, a);
              RatesNest(aggs') && a in aggs' && forall c :: c in aggs' ==> aggs'[c].parent != At(a)
    {
      TagsNest(aggs, p, aggs[a].conf.svlanId, aggs[a].conf.svlanIdEnd, a);
    }

    /** A tier gives its tags on port p back, its members are resolved anew, and it goes. */
    method Uninstall(p: int, a: int, topo: Topology)
      requires Valid() && a in aggs && p in aggs && aggs[a].parent == At(p) && a != p
      modifies this`aggs, this`scheds
      ensures Valid() && a in old(aggs) && p in old(aggs) && OnlyReattached(old(scheds), topo)
      ensures SameConf(TakeTags(old(aggs), p, old(aggs)[a].conf.svlanId, old(aggs)[a].conf.svlanIdEnd, a) - {a}, aggs)
      ensures forall s :: s in scheds ==> scheds[s].attach != At(a)
    {
      hide Balanced, IndexFull, IndexFullBut, RatesNest, Unreachable, Resolve, TakeTags;
      TierTags(p, a);
      TakeTagsBalances(aggs, scheds, aggBySw, ledger, p, a);
      UnmapTags(p, aggs[a].conf.svlanId, aggs[a].conf.svlanIdEnd, a);
      ghost var was := aggs;
      ReparentAll(topo);
      FinishDelete(was, a, topo, old(scheds));
      aggs := aggs - {a};
    }

    /** cake_svlan_aggregate_delete: the tier that owns tag. Its members fall back to the port with
        their weight and outstanding charge before the pool entry goes. */
    method SvlanDelete(swIf: int, tag: int, topo: Topology) returns (rv: Rv)
      requires Valid() && tag >= 0
      modifies this`aggs, this`scheds
      ensures Valid()
      ensures rv == if tag >= SVLAN_MAX then InvalidValue
                    else if swIf !in aggBySw then NoSuchEntry
                    else if tag !in old(aggs)[aggBySw[swIf]].svlanMap then NoSuchEntry else Done
      ensures rv != Done ==> aggs == old(aggs) && scheds == old(scheds)
      ensures rv == Done ==>
                var p := aggBySw[swIf];
                var a := old(aggs)[p].svlanMap[tag];
                && a in old(aggs)
                && SameConf(TakeTags(old(aggs), p, old(aggs)[a].conf.svlanId, old(aggs)[a].conf.svlanIdEnd, a) - {a},
                   aggs)
                && OnlyReattached(old(scheds), topo)
                && forall s :: s in scheds ==> scheds[s].attach != At(a)
    {
      if tag >= SVLAN_MAX {
        return InvalidValue;
      }
      if swIf !in aggBySw {
        return NoSuchEntry;
      }
      var p: int := aggBySw[swIf];
      assert p in aggs;
      if tag !in aggs[p].svlanMap {
        return NoSuchEntry;
      }
      var a: int := aggs[p].svlanMap[tag];
      assert a in aggs && aggs[a].parent == At(p) && a != p;
      Uninstall(p, a, topo);
      return Done;
    }

    /** Which aggregate an update names: the port on swIf, or its tier at the given tag. */
    function Target(swIf: int, tag: Ref): Ref
      reads this
    {
      if swIf !in aggBySw || aggBySw[swIf] !in aggs then Unset
      else if tag.Unset? then At(aggBySw[swIf])
      else if tag.i in aggs[aggBySw[swIf]].svlanMap then At(aggs[aggBySw[swIf]].svlanMap[tag.i])
      else Unset
    }

    lemma TargetIs(swIf: int, tag: Ref)
      requires Valid()
      ensures Target(swIf, tag).At? ==>
                && swIf in aggBySw && Target(swIf, tag).i in aggs
                && var a := Target(swIf, tag).i;
                   && (tag.Unset? ==> a == aggBySw[swIf])
                   && (tag.At? ==> aggs[a].parent == At(aggBySw[swIf])
                                   && aggs[a].conf.svlanId <= tag.i <= aggs[a].conf.svlanIdEnd)
      ensures Target(swIf, tag).Unset? && swIf in aggBySw ==>
                tag.At? && forall a :: a in aggs && aggs[a].parent == At(aggBySw[swIf]) ==>
                                       !(aggs[a].conf.svlanId <= tag.i <= aggs[a].conf.svlanIdEnd)
    {
      TargetIsLive(swIf, tag);
      if swIf in aggBySw && tag.At? {
        var p: int := aggBySw[swIf];
        assert p in aggs;
        assert forall a :: a in aggs && aggs[a].parent == At(p) && Owns(aggs, a, tag.i) ==> tag.i in aggs[p].svlanMap;
      }
    }

    lemma TargetIsLive(swIf: int, tag: Ref)
      requires Core()
      ensures Target(swIf, tag).At? ==> Target(swIf, tag).i in aggs
    {
      if Target(swIf, tag).At? && tag.At? {
        var p: int := aggBySw[swIf];
        assert tag.i in aggs[p].svlanMap;
      }
    }

    /** The configuration an update leaves: a zero field keeps its value. */
    function UpdatedConf(c: AggConf, rate: nat, weight: nat, burst: nat, limit: nat): AggConf {
      var c1 := if rate > 0 then c.(rate := rate, roundBytes := RoundBytes(rate)) else c;
      c1.(weight := if weight > 0 then weight else c.weight,
          burstNs := if burst > 0 then burst else c.burstNs,
          bufferLimit := if limit > 0 then limit else c.bufferLimit)
    }

    /** An argument that is not zero replaces what was there, and a new rate brings a new round. */
    lemma UpdatedConfIs(c: AggConf, rate: nat, weight: nat, burst: nat, limit: nat)
      ensures var c' := UpdatedConf(c, rate, weight, burst, limit);
              && c'.swIf == c.swIf && c'.svlanId == c.svlanId && c'.svlanIdEnd == c.svlanIdEnd
              && c'.rate == (if rate != 0 then rate else c.rate)
              && c'.weight == (if weight != 0 then weight else c.weight)
              && c'.burstNs == (if burst != 0 then burst else c.burstNs)
              && c'.bufferLimit == (if limit != 0 then limit else c.bufferLimit)
              && (rate == 0 ==> c'.roundBytes == c.roundBytes)
              && (rate != 0 ==> c'.roundBytes * 1000 <= rate < c'.roundBytes * 1000 + 1000)
    {
    }

    /** A new rate for a would shape a tier above its port. */
    ghost predicate RateClashes(a: int, rate: nat)
      reads this`aggs
      requires a in aggs
    {
      || (aggs[a].parent.At? && aggs[a].parent.i in aggs && rate > aggs[aggs[a].parent.i].conf.rate)
      || (aggs[a].parent.Unset? && exists c :: c in aggs && aggs[c].parent == At(a) && aggs[c].conf.rate > rate)
    }

    /** cake_aggregate_update: change a live aggregate in place. Members, charges and counts do not
        move; the parent's weight moves by the difference. */
    method AggregateUpdate(swIf: int, tag: Ref, rate: nat, weight: nat, burst: nat, limit: nat) returns (rv: Rv)
      requires Valid()
      modifies this`aggs
      ensures Valid()
      ensures old(Target(swIf, tag)).At? ==> old(Target(swIf, tag)).i in old(aggs)
      ensures rv == if BadWeight(weight) || BadBurst(burst) || (tag.At? && tag.i >= SVLAN_MAX) then InvalidValue
                    else if old(Target(swIf, tag)).Unset? then NoSuchEntry
                    else if rate > 0 && old(RateClashes(Target(swIf, tag).i, rate)) then InvalidValue
                    else Done
      ensures rv == Done ==>
                var a := old(Target(swIf, tag)).i;
                var conf := UpdatedConf(old(aggs)[a].conf, rate, weight, burst, limit);
                aggs == Reconfigured(old(aggs), a, conf, EffectiveWeight(conf.rate, conf.weight))
      ensures rv != Done ==> aggs == old(aggs)
      // It is the port itself, or its tier whose range has the tag; and a refusal has its reason.
      ensures old(Target(swIf, tag)).At? ==>
                && swIf in aggBySw
                && var a := old(Target(swIf, tag)).i;
                   && (tag.Unset? ==> a == aggBySw[swIf])
                   && (tag.At? ==> old(aggs)[a].parent == At(aggBySw[swIf])
                                   && old(aggs)[a].conf.svlanId <= tag.i <= old(aggs)[a].conf.svlanIdEnd)
      ensures rv == NoSuchEntry && swIf in aggBySw ==>
                tag.At? && forall a :: a in aggs && aggs[a].parent == At(aggBySw[swIf]) ==>
                                       !(aggs[a].conf.svlanId <= tag.i <= aggs[a].conf.svlanIdEnd)
      ensures rv == InvalidValue && weight <= 256 && (burst == 0 || 10_000_000 <= burst <= 150_000_000)
              && (tag.At? ==> tag.i < 4096) ==>
                && rate > 0 && old(Target(swIf, tag)).At?
                && var g := aggs[old(Target(swIf, tag)).i];
                   if g.parent.At? then g.parent.i in aggs && rate > aggs[g.parent.i].conf.rate
                   else exists c :: c in aggs && aggs[c].parent == old(Target(swIf, tag)) && aggs[c].conf.rate > rate
    {
      hide ChargeOk, WeightOk, AttachOk, IndexFullBut;
      TargetIs(swIf, tag);
      TargetIsLive(swIf, tag);
      if BadWeight(weight) || (burst != 0 && (burst < BURST_NS_MIN || burst > BURST_NS_MAX)) {
        return InvalidValue;
      }
      if tag.At? && tag.i >= SVLAN_MAX {
        return InvalidValue;
      }
      if swIf !in aggBySw {
        return NoSuchEntry;
      }
      var a: int := aggBySw[swIf];
      assert a in aggs;
      if tag.At? {
        if tag.i !in aggs[a].svlanMap {
          return NoSuchEntry;
        }
        a := aggs[a].svlanMap[tag.i];
        assert a in aggs;
      }
      var g := aggs[a];
      if rate > 0 && g.parent.At? {
        assert g.parent.i in aggs;
        if rate > aggs[g.parent.i].conf.rate {
          return InvalidValue;
        }
      }
      if rate > 0 && g.parent.Unset? && exists c :: c in aggs && aggs[c].parent == At(a) && aggs[c].conf.rate > rate {
        return InvalidValue;
      }
      var conf := UpdatedConf(g.conf, rate, weight, burst, limit);
      var w := EffectiveWeight(conf.rate, conf.weight);
      ReconfigureBalances(aggs, scheds, aggBySw, ledger, a, conf, w);
      ReconfiguredNests(aggs, a, conf, w);
      aggs := Reconfigured(aggs, a, conf, w);
      return Done;
    }

    /** cake_sched_enable_disable, enabling: a fresh scheduler, idle and empty, hung where its walk says. */
    method SchedEnable(ifValid: bool, swIf: int, rate: nat, weight: nat, slot: int, topo: Topology) returns (rv: Rv)
      requires Valid() && slot !in scheds
      modifies this`scheds, this`schedBySw, this`ledger
      ensures Valid()
      ensures rv == if !ifValid then InvalidSwIfIndex
                    else if BadWeight(weight) then InvalidValue
                    else if swIf in old(schedBySw) then AlreadyExists else Done
      ensures rv != Done ==> scheds == old(scheds) && schedBySw == old(schedBySw)
      ensures rv == Done ==>
                && schedBySw == old(schedBySw)[swIf := slot]
                && scheds == old(scheds)[slot := Sched(swIf, Resolve(aggs, aggBySw, topo(swIf)),
                   EffectiveWeight(rate, weight), false, 0)]
    {
      hide Balanced, IndexFull, RatesNest, Resolve;
      if !ifValid {
        return InvalidSwIfIndex;
      }
      if BadWeight(weight) {
        return InvalidValue;
      }
      if swIf in schedBySw {
        return AlreadyExists;
      }
      var to := ResolveAttachment(topo(swIf));
      var me := Sched(swIf, to, EffectiveWeight(rate, weight), false, 0);
      AddBalances(aggs, scheds, aggBySw, ledger, slot, me);
      scheds := scheds[slot := me];
      ledger := ledger[slot := 0];
      schedBySw := schedBySw[swIf := slot];
      return Done;
    }

    /** cake_tin_drain over every tin: discard each flow's backlog in turn. */
    method DrainAll(si: int, backlogs: seq<nat>)
      requires Valid() && si in scheds && scheds[si].usage == Total(backlogs)
      modifies this`aggs, this`scheds, this`ledger
      ensures Valid() && SameConf(old(aggs), aggs)
      ensures scheds == old(scheds)[si := old(scheds)[si].(usage := 0)]
    {
      for i := 0 to |backlogs|
        invariant Valid()
        invariant si in scheds && scheds[si].usage == Total(backlogs[i..])
        invariant scheds == old(scheds)[si := old(scheds)[si].(usage := scheds[si].usage)]
        invariant SameConf(old(aggs), aggs)
      {
        assert backlogs[i..] == [backlogs[i]] + backlogs[i + 1..];
        ReleasePacket(si, backlogs[i]);
      }
    }

    /** cake_sched_enable_disable, disabling: discard every flow's backlog, leave the parent, go.
        backlogs are the queued bytes flow by flow. */
    method SchedDisable(swIf: int, backlogs: seq<nat>) returns (rv: Rv)
      requires Valid()
      requires swIf in schedBySw && schedBySw[swIf] in scheds ==> scheds[schedBySw[swIf]].usage == Total(backlogs)
      modifies this`aggs, this`scheds, this`schedBySw, this`ledger
      ensures Valid()
      ensures rv == if swIf in old(schedBySw) then Done else NoSuchEntry
      ensures rv == NoSuchEntry ==> aggs == old(aggs) && scheds == old(scheds) && schedBySw == old(schedBySw)
      ensures rv == Done ==> schedBySw == old(schedBySw) - {swIf} && scheds == old(scheds) - {old(schedBySw)[swIf]}
      ensures SameConf(old(aggs), aggs)
    {
      if swIf !in schedBySw {
        return NoSuchEntry;
      }
      var si: int := schedBySw[swIf];
      assert si in scheds;
      hide Balanced, IndexFull;
      DrainAll(si, backlogs);
      WeightSubConf(aggs, scheds[si].attach, scheds[si].effWeight);
      Deactivate(si);
      DropSched(swIf, si);
      return Done;
    }

    /** The drained, idle scheduler leaves its pool and its index. */
    method DropSched(swIf: int, si: int)
      requires Valid() && swIf in schedBySw && schedBySw[swIf] == si && si in scheds && !scheds[si].active
          && scheds[si].usage == 0
      modifies this`scheds, this`schedBySw, this`ledger
      ensures Valid()
      ensures schedBySw == old(schedBySw) - {swIf} && scheds == old(scheds) - {si}
    {
      hide Balanced, IndexFull;
      RemoveBalances(aggs, scheds, aggBySw, ledger, si);
      schedBySw := schedBySw - {swIf};
      scheds := scheds - {si};
      ledger := ledger - {si};
    }

    /** The port on an interface and the S-VLANs beneath it. */
    ghost function TreeOn(swIf: int): set<int>
      reads this`aggs, this`aggBySw
    {
      if swIf in aggBySw then Children(aggs, aggBySw[swIf]) + {aggBySw[swIf]} else {}
    }

    ghost function SchedOn(swIf: int): set<int>
      reads this`schedBySw
    {
      if swIf in schedBySw then {schedBySw[swIf]} else {}
    }

    lemma PortIsLive(swIf: int)
      requires Core() && swIf in aggBySw
      ensures aggBySw[swIf] in aggs && aggs[aggBySw[swIf]].parent.Unset?
    {
    }

    /** One S-VLAN of the port on swIf goes. */
    method DeleteChild(swIf: int, a: int, c: int, topo: Topology)
      requires Valid() && swIf in aggBySw && aggBySw[swIf] == a && a in aggs && c in Children(aggs, a)
      modifies this`aggs, this`scheds
      ensures Valid() && a in aggs && aggs[a].parent == old(aggs)[a].parent && c != a
      ensures Children(aggs, a) == Children(old(aggs), a) - {c}
      ensures a in old(aggs) && c in old(aggs)
      ensures SameConf(TakeTags(old(aggs), a, old(aggs)[c].conf.svlanId, old(aggs)[c].conf.svlanIdEnd, c) - {c}, aggs)
      ensures OnlyMoved(old(scheds), scheds)
    {
      hide ChargeOk, WeightOk, AttachOk, SchedIndexOk, Settled;
      assert Owns(aggs, c, aggs[c].conf.svlanId);
      ghost var was := aggs;
      var rv := SvlanDelete(swIf, aggs[c].conf.svlanId, topo);
      ChildGone(was, aggs, a, c);
    }

    /** All S-VLANs of the port on swIf go. */
    method DeleteChildren(swIf: int, a: int, topo: Topology)
      requires Valid() && swIf in aggBySw && aggBySw[swIf] == a && a in aggs && aggs[a].parent.Unset?
      modifies this`aggs, this`scheds
      ensures Valid() && a in aggs && aggs[a].parent.Unset? && Children(aggs, a) == {}
      ensures Trimmed(old(aggs), Children(old(aggs), a), a, aggs) && OnlyMoved(old(scheds), scheds)
    {
      hide Core, Settled, IndexFull, SchedIndexOk;
      var kids := Children(aggs, a);
      ghost var all := kids;
      while kids != {}
        invariant Valid() && a in aggs && aggs[a].parent.Unset?
        invariant kids == Children(aggs, a) && kids <= all
        invariant Trimmed(old(aggs), all - kids, a, aggs)
        invariant OnlyMoved(old(scheds), scheds)
        decreases |kids|
      {
        var c := AnyOf(kids);
        ghost var was, before := aggs, kids;
        DeleteChild(swIf, a, c, topo);
        TrimStep(old(aggs), all - kids, a, was, c, aggs);
        kids := kids - {c};
        assert all - kids == all - before + {c};
      }
      assert all - kids == all;
    }

    /** The port on swIf goes, its S-VLANs first. */
    method DeleteTree(swIf: int, topo: Topology)
      requires Valid() && swIf in aggBySw
      modifies this`aggs, this`scheds, this`aggBySw
      ensures Valid()
      ensures aggBySw == old(aggBySw) - {swIf}
      ensures SameConf(old(aggs) - old(TreeOn(swIf)), aggs)
      ensures OnlyReattached(old(scheds), topo)
    {
      PortIsLive(swIf);
      hide Core, Settled, IndexFull, SchedIndexOk;
      var a: int := aggBySw[swIf];
      DeleteChildren(swIf, a, topo);
      assert forall c :: c in aggs ==> aggs[c].parent != At(a) by {
        assert forall c :: c in aggs && aggs[c].parent == At(a) ==> c in Children(aggs, a);
      }
      ghost var was := aggs;
      var rv := AggregateDelete(swIf, topo);
      TrimEnd(old(aggs), Children(old(aggs), a), a, was, aggs);
    }

    /** cake_sw_interface_add_del: an interface goes away. Its scheduler and its port go with it,
        the port's S-VLANs first, and both indices are free for the next interface to reuse. */
    method InterfaceDeleted(swIf: int, backlogs: seq<nat>, topo: Topology)
      requires Valid()
      requires swIf in schedBySw && schedBySw[swIf] in scheds ==> scheds[schedBySw[swIf]].usage == Total(backlogs)
      modifies this
      ensures Valid()
      ensures aggBySw == old(aggBySw) - {swIf} && schedBySw == old(schedBySw) - {swIf}
      ensures forall a :: a in aggs ==> aggs[a].parent.Unset? ==> aggs[a].conf.swIf != swIf
      // Of the tiers exactly the port and its S-VLANs go, the others stand as configured.
      ensures SameConf(old(aggs) - old(TreeOn(swIf)), aggs)
      // Of the schedulers exactly the interface's own goes, the others keep all but a new resolution.
      ensures if swIf in old(aggBySw) then OnlyReattached(old(scheds) - old(SchedOn(swIf)), topo)
              else scheds == old(scheds) - old(SchedOn(swIf))
    {
      if swIf in schedBySw {
        var rv := SchedDisable(swIf, backlogs);
        ChildrenFramed(old(aggs), aggs);
      }
      if swIf in aggBySw {
        DeleteTree(swIf, topo);
      }
    }
  }
}
