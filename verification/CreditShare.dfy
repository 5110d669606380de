/** Two-tier credit conservation: in any balanced tree the quanta of all active schedulers beneath a
    port, those under its S-VLANs sized by what the S-VLAN can really win, fit in the port's round. */
module CreditShare {
  import opened Sums
  import opened AggTree
  import H = Hqos
  import Drr

  /** cake_agg_effective_round_bytes: a tier's round, cut to its share of the tier above. */
  function EffectiveRoundBytes(aggs: Aggs, a: int): nat
    requires a in aggs
  {
    var g := aggs[a];
    if g.parent.Unset? || g.parent.i !in aggs then g.conf.roundBytes
    else
      var share := Drr.Quantum(aggs[g.parent.i].conf.roundBytes, g.effWeight, Clamp(aggs[g.parent.i].activeWeight));
      if share < g.conf.roundBytes then share else g.conf.roundBytes
  }

  /** What a tier can hand on is the most that fits both its own round and its part, by weight, of its
      parent's: every whole number of bytes that fits both, and no more. */
  lemma EffectiveRoundIs(aggs: Aggs, scheds: Scheds, a: int, q: nat)
    requires WeightOk(aggs, scheds) && a in aggs && aggs[a].nActive > 0
    requires aggs[a].parent.At? ==> aggs[a].parent.i in aggs
    ensures q <= EffectiveRoundBytes(aggs, a) <==>
              && q <= aggs[a].conf.roundBytes
              && (aggs[a].parent.At? ==>
                    var p := aggs[aggs[a].parent.i];
                    q * p.activeWeight <= p.conf.roundBytes * aggs[a].effWeight)
  {
    if aggs[a].parent.At? {
      var p := aggs[aggs[a].parent.i];
      BooksCover(aggs, scheds, aggs[a].parent.i, a, a);
      Drr.QuantumIs(p.conf.roundBytes, aggs[a].effWeight, Clamp(p.activeWeight));
      WholeShare(p.conf.roundBytes, aggs[a].effWeight, p.activeWeight, q);
    }
  }

  lemma WholeShare(r: nat, w: nat, total: nat, q: nat)
    requires 1 <= w <= total
    ensures q <= Drr.Quantum(r, w, total) <==> q * total <= r * w
  {
    Drr.QuantumIs(r, w, total);
    var share := Drr.Quantum(r, w, total);
    if q <= share {
      Drr.MulLe(q, share, total);
    } else {
      Drr.MulGap(q, share, total);
    }
  }

  /** The unsigned reading of a published weight; BooksCover shows it is never negative. */
  function Clamp(x: int): nat { if x < 0 then 0 else x }

  /** The quantum scheduler s draws in a round from its immediate parent. */
  function LeafQuantum(aggs: Aggs, scheds: Scheds, s: int): nat {
    if s in scheds && scheds[s].active && scheds[s].attach.At? && scheds[s].attach.i in aggs then
      Drr.Quantum(EffectiveRoundBytes(aggs, scheds[s].attach.i), scheds[s].effWeight,
                  Clamp(aggs[scheds[s].attach.i].activeWeight))
    else 0
  }

  /** What the active schedulers hanging directly off a tier of T draw. */
  ghost function DrawnIn(aggs: Aggs, scheds: Scheds, T: set<int>): int -> int {
    s => if s in scheds && scheds[s].attach.At? && scheds[s].attach.i in T then LeafQuantum(aggs, scheds, s) else 0
  }

  ghost function Drawn(aggs: Aggs, scheds: Scheds, T: set<int>): int {
    Sum(scheds.Keys, DrawnIn(aggs, scheds, T))
  }

  /** The share of port p that child tier c wins, while it is active. */
  ghost function TierShare(aggs: Aggs, p: int, c: int): int
    requires p in aggs
  {
    if c in aggs && aggs[c].parent == At(p) && aggs[c].nActive > 0 then
      Drr.Quantum(aggs[p].conf.roundBytes, aggs[c].effWeight, Clamp(aggs[p].activeWeight))
    else 0
  }

  ghost function TierShares(aggs: Aggs, p: int): int -> int
    requires p in aggs
  {
    c => TierShare(aggs, p, c)
  }

  lemma QuantumScales(r: nat, w: Pos, total: nat)
    requires w <= total
    ensures Drr.Quantum(r, w, total) * total <= r * w
  {
  }

  /** The schedulers directly off tier a draw at most its effective round. */
  lemma TierDrawsItsRound(aggs: Aggs, scheds: Scheds, a: int)
    requires WeightOk(aggs, scheds) && a in aggs
    ensures Drawn(aggs, scheds, {a}) * aggs[a].activeWeight <=
            EffectiveRoundBytes(aggs, a) * Sum(scheds.Keys, SchedWeights(scheds, a))
    ensures Sum(scheds.Keys, SchedWeights(scheds, a)) <= aggs[a].activeWeight
    ensures aggs[a].nActive == 0 ==> Drawn(aggs, scheds, {a}) == 0
    ensures Drawn(aggs, scheds, {a}) >= 0
  {
    var f := DrawnIn(aggs, scheds, {a});
    var w := SchedWeights(scheds, a);
    var r := EffectiveRoundBytes(aggs, a);
    BooksCover(aggs, scheds, a, a, a);
    forall s | s in scheds
      ensures f(s) * aggs[a].activeWeight <= r * w(s) && (aggs[a].nActive == 0 ==> f(s) == 0) && f(s) >= 0
    {
      BooksCover(aggs, scheds, a, s, a);
      if scheds[s].active && scheds[s].attach == At(a) {
        QuantumScales(r, scheds[s].effWeight, aggs[a].activeWeight);
      }
    }
    ScaledBound(scheds.Keys, f, w, r, aggs[a].activeWeight);
    NonNegative(scheds.Keys, f);
    if aggs[a].nActive == 0 { AllZero(scheds.Keys, f); }
    TierTermsBounded(aggs, a, a);
    assert aggs[a].activeWeight == ActiveWeight(aggs, scheds, a);
  }

  lemma DivideOut(x: int, r: nat, w: int, total: int)
    requires 0 <= w <= total && x * total <= r * w && x >= 0 && (total == 0 ==> x == 0)
    ensures x <= r
  {
    if x > r {
      Drr.MulGap(x, r, total);
      Drr.MulLe(w, total, r);
    }
  }

  /** Beneath one tier: the quanta of its active schedulers sum to at most what it really gets. */
  lemma TierCreditConserved(aggs: Aggs, scheds: Scheds, a: int)
    requires WeightOk(aggs, scheds) && a in aggs
    ensures Drawn(aggs, scheds, {a}) <= EffectiveRoundBytes(aggs, a)
  {
    TierDrawsItsRound(aggs, scheds, a);
    BooksCover(aggs, scheds, a, a, a);
    SchedTermsBounded(scheds, a, a);
    if aggs[a].activeWeight == 0 { NothingDrawn(aggs, scheds, a); }
    DivideOut(Drawn(aggs, scheds, {a}), EffectiveRoundBytes(aggs, a),
              Sum(scheds.Keys, SchedWeights(scheds, a)), aggs[a].activeWeight);
  }

  lemma NothingDrawn(aggs: Aggs, scheds: Scheds, a: int)
    requires WeightOk(aggs, scheds) && a in aggs && aggs[a].activeWeight == 0
    ensures Drawn(aggs, scheds, {a}) == 0
  {
    forall s | s in scheds
      ensures DrawnIn(aggs, scheds, {a})(s) == 0
    {
      BooksCover(aggs, scheds, a, s, a);
    }
    AllZero(scheds.Keys, DrawnIn(aggs, scheds, {a}));
  }

  lemma SplitDrawn(aggs: Aggs, scheds: Scheds, c: int, rest: set<int>, T: set<int>)
    requires c !in rest && T == rest + {c}
    ensures Drawn(aggs, scheds, T) == Drawn(aggs, scheds, {c}) + Drawn(aggs, scheds, rest)
  {
    Plus(scheds.Keys, DrawnIn(aggs, scheds, {c}), DrawnIn(aggs, scheds, rest), DrawnIn(aggs, scheds, T));
  }

  lemma TierDrawsItsShare(aggs: Aggs, scheds: Scheds, p: int, c: int)
    requires WeightOk(aggs, scheds) && p in aggs && c in aggs && aggs[c].parent == At(p)
    ensures Drawn(aggs, scheds, {c}) <= TierShare(aggs, p, c)
  {
    TierCreditConserved(aggs, scheds, c);
    TierDrawsItsRound(aggs, scheds, c);
    BooksCover(aggs, scheds, c, c, c);
  }

  /** Tier by tier, everything drawn beneath the S-VLANs of T is at most their shares of the port. */
  lemma {:induction false} TiersDrawTheirShares(aggs: Aggs, scheds: Scheds, p: int, T: set<int>)
    requires TreeOk(aggs) && WeightOk(aggs, scheds) && p in aggs
    requires forall c :: c in T ==> c in aggs && aggs[c].parent == At(p)
    ensures Drawn(aggs, scheds, T) <= Sum(T, TierShares(aggs, p))
    decreases |T|
  {
    if T == {} {
      AllZero(scheds.Keys, DrawnIn(aggs, scheds, T));
    } else {
      var c := Any(T);
      var rest := T - {c};
      TiersDrawTheirShares(aggs, scheds, p, rest);
      SplitDrawn(aggs, scheds, c, rest, T);
      Pick(T, TierShares(aggs, p), c);
      TierDrawsItsShare(aggs, scheds, p, c);
    }
  }

  /** The S-VLAN tiers of port p. */
  ghost function TiersOf(aggs: Aggs, p: int): set<int> {
    set c | c in aggs && aggs[c].parent == At(p)
  }

  lemma SharesScale(aggs: Aggs, scheds: Scheds, p: int)
    requires WeightOk(aggs, scheds) && p in aggs
    ensures var t := Sum(aggs.Keys, TierShares(aggs, p));
            && t * aggs[p].activeWeight <= aggs[p].conf.roundBytes * Sum(aggs.Keys, TierWeights(aggs, p))
            && t >= 0 && (aggs[p].activeWeight == 0 ==> t == 0)
  {
    var w := aggs[p].activeWeight;
    var f, g := TierShares(aggs, p), TierWeights(aggs, p);
    forall c | c in aggs
      ensures f(c) * w <= aggs[p].conf.roundBytes * g(c) && f(c) >= 0 && (w == 0 ==> f(c) == 0)
    {
      BooksCover(aggs, scheds, p, p, c);
      if aggs[c].parent == At(p) && aggs[c].nActive > 0 {
        QuantumScales(aggs[p].conf.roundBytes, aggs[c].effWeight, w);
      }
    }
    ScaledBound(aggs.Keys, f, g, aggs[p].conf.roundBytes, w);
    NonNegative(aggs.Keys, f);
    if w == 0 { AllZero(aggs.Keys, f); }
  }

  lemma Combine(d: int, t: int, r: nat, sw: int, tw: int, w: int)
    requires d >= 0 && t >= 0 && w >= 0 && sw + tw == w
    requires d * w <= r * sw && t * w <= r * tw && (w == 0 ==> d + t == 0)
    ensures d + t <= r
  {
    Distribute(d, t, w);
    Distribute(sw, tw, r);
    DivideOut(d + t, r, w, w);
  }

  /** Direct schedulers and S-VLANs together share the port's weight, so the port's round covers
      the direct quanta plus every S-VLAN's share. */
  lemma PortCoversShares(aggs: Aggs, scheds: Scheds, p: int)
    requires WeightOk(aggs, scheds) && p in aggs && aggs[p].parent.Unset?
    ensures Drawn(aggs, scheds, {p}) + Sum(aggs.Keys, TierShares(aggs, p)) <= aggs[p].conf.roundBytes
  {
    TierDrawsItsRound(aggs, scheds, p);
    SharesScale(aggs, scheds, p);
    BooksCover(aggs, scheds, p, p, p);
    if aggs[p].activeWeight == 0 { NothingDrawn(aggs, scheds, p); }
    assert aggs[p].activeWeight == ActiveWeight(aggs, scheds, p);
    Combine(Drawn(aggs, scheds, {p}), Sum(aggs.Keys, TierShares(aggs, p)), aggs[p].conf.roundBytes,
            Sum(scheds.Keys, SchedWeights(scheds, p)), Sum(aggs.Keys, TierWeights(aggs, p)), aggs[p].activeWeight);
  }

  lemma SharesOfTiers(aggs: Aggs, p: int)
    requires p in aggs
    ensures Sum(TiersOf(aggs, p), TierShares(aggs, p)) == Sum(aggs.Keys, TierShares(aggs, p))
  {
    Restrict(TiersOf(aggs, p), aggs.Keys, TierShares(aggs, p));
  }

  /** Two-tier credit conservation, in every state the tree's operations can reach. */
  lemma PortCreditConserved(aggs: Aggs, scheds: Scheds, bySw: map<int, int>, ledger: Ledger, p: int)
    requires H.Balanced(aggs, scheds, bySw, ledger)
    requires p in aggs && aggs[p].parent.Unset?
    ensures Drawn(aggs, scheds, {p} + TiersOf(aggs, p)) <= aggs[p].conf.roundBytes
  {
    var T := TiersOf(aggs, p);
    assert p !in T;
    Plus(scheds.Keys, DrawnIn(aggs, scheds, {p}), DrawnIn(aggs, scheds, T), DrawnIn(aggs, scheds, {p} + T));
    TiersDrawTheirShares(aggs, scheds, p, T);
    SharesOfTiers(aggs, p);
    PortCoversShares(aggs, scheds, p);
  }
}
