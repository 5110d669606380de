/** Activation and deactivation as the workers really interleave them. A scheduler's owner moves its
    weight with separate atomic operations on the immediate parent's two registers and, when it saw
    the first or last child come or go, on the next tier's two. Every scheduler may be in the middle
    of one such sequence at any moment. */
module WeightRace {
  import opened Sums
  import opened AggTree

  /** Where a scheduler's owner stands: the atomic operation it performs next. */
  datatype Phase =
    | Idle
    | JoinCount | JoinUpWeight | JoinUpCount
    | LeaveCount | LeaveUpWeight | LeaveUpCount

  datatype Racer = Racer(attach: Ref, effWeight: Pos, active: bool, phase: Phase)

  datatype State = State(aggs: Aggs, racers: map<int, Racer>)

  function PutWeight(aggs: Aggs, a: int, d: int): Aggs
    requires a in aggs
  {
    aggs[a := aggs[a].(activeWeight := aggs[a].activeWeight + d)]
  }

  function PutCount(aggs: Aggs, a: int, d: int): Aggs
    requires a in aggs
  {
    aggs[a := aggs[a].(nActive := aggs[a].nActive + d)]
  }

  ghost predicate Shape(st: State) {
    && TreeOk(st.aggs)
    && (forall s, a {:trigger st.racers[s], a in st.aggs} ::
          s in st.racers && st.racers[s].attach == At(a) ==> a in st.aggs)
    && (forall s :: s in st.racers ==> PhaseOk(st.aggs, st.racers[s]))
  }

  ghost predicate PhaseOk(aggs: Aggs, r: Racer) {
    && (r.phase.JoinCount? || r.phase.JoinUpWeight? || r.phase.JoinUpCount? ==> r.active)
    && (r.phase.LeaveCount? || r.phase.LeaveUpWeight? || r.phase.LeaveUpCount? ==> !r.active)
    && (r.phase != Idle ==> r.attach.At? && r.attach.i in aggs)
    && (Rising(r) || Falling(r) ==> aggs[r.attach.i].parent.At? && aggs[r.attach.i].parent.i in aggs)
  }

  /** It has counted itself in (out of) its parent and owes the next tier its parent's weight. */
  predicate Rising(r: Racer) { r.phase.JoinUpWeight? || r.phase.JoinUpCount? }

  predicate Falling(r: Racer) { r.phase.LeaveUpWeight? || r.phase.LeaveUpCount? }

  /** One atomic operation by the owner of s. An idle scheduler toggles: its queues drained, or a
      packet arrived. */
  function Advance(st: State, s: int): State
    requires Shape(st) && s in st.racers
  {
    var r := st.racers[s];
    if r.attach.Unset? then
      State(st.aggs, st.racers[s := r.(active := !r.active)])
    else
      var a := r.attach.i;
      var g := st.aggs[a];
      match r.phase
      case Idle =>
        if r.active then State(PutWeight(st.aggs, a, -(r.effWeight as int)),
            st.racers[s := r.(active := false, phase := LeaveCount)])
        else State(PutWeight(st.aggs, a, r.effWeight), st.racers[s := r.(active := true, phase := JoinCount)])
      case JoinCount =>
        State(PutCount(st.aggs, a, 1), st.racers[s := r.(phase := if g.nActive == 0
            && g.parent.At? then JoinUpWeight else Idle)])
      case JoinUpWeight =>
        State(PutWeight(st.aggs, g.parent.i, g.effWeight), st.racers[s := r.(phase := JoinUpCount)])
      case JoinUpCount =>
        State(PutCount(st.aggs, g.parent.i, 1), st.racers[s := r.(phase := Idle)])
      case LeaveCount =>
        State(PutCount(st.aggs, a, -1), st.racers[s := r.(phase := if g.nActive == 1
            && g.parent.At? then LeaveUpWeight else Idle)])
      case LeaveUpWeight =>
        State(PutWeight(st.aggs, g.parent.i, -(g.effWeight as int)), st.racers[s := r.(phase := LeaveUpCount)])
      case LeaveUpCount =>
        State(PutCount(st.aggs, g.parent.i, -1), st.racers[s := r.(phase := Idle)])
  }

  // ---------------------------------------------------------------- the books with operations in flight

  /** What racer s has put in a's weight register: its own weight at its parent from the moment it
      starts; one tier up, minus its parent's weight while that is still owed, plus it while it is
      still to be taken back. */
  ghost function WeightTerm(st: State, a: int, s: int): int {
    if s !in st.racers || st.racers[s].attach.Unset? || st.racers[s].attach.i !in st.aggs then 0
    else
      var r := st.racers[s];
      var g := st.aggs[r.attach.i];
      if r.attach.i == a then if r.active then r.effWeight else 0
      else if g.parent == At(a) then
        if r.phase.JoinUpWeight? then -(g.effWeight as int) else if r.phase.LeaveUpWeight? then g.effWeight else 0
      else 0
  }

  /** And in its count register. */
  ghost function CountTerm(st: State, a: int, s: int): int {
    if s !in st.racers || st.racers[s].attach.Unset? || st.racers[s].attach.i !in st.aggs then 0
    else
      var r := st.racers[s];
      var g := st.aggs[r.attach.i];
      if r.attach.i == a then if Counted(r) then 1 else 0
      else if g.parent == At(a) then if Rising(r) then -1 else if Falling(r) then 1 else 0
      else 0
  }

  predicate Counted(r: Racer) { (r.active && !r.phase.JoinCount?) || r.phase.LeaveCount? }

  ghost function WeightTerms(st: State, a: int): int -> int { s => WeightTerm(st, a, s) }

  ghost function CountTerms(st: State, a: int): int -> int { s => CountTerm(st, a, s) }

  ghost function WeightBook(st: State, a: int): int {
    Sum(st.racers.Keys, WeightTerms(st, a)) + Sum(st.aggs.Keys, TierWeights(st.aggs, a))
  }

  ghost function CountBook(st: State, a: int): int {
    Sum(st.racers.Keys, CountTerms(st, a)) + Sum(st.aggs.Keys, TierCounts(st.aggs, a))
  }

  ghost predicate BooksOk(st: State) {
    forall a {:trigger WeightBook(st, a)} {:trigger CountBook(st, a)} :: a in st.aggs ==>
      st.aggs[a].activeWeight == WeightBook(st, a) && st.aggs[a].nActive == CountBook(st, a)
  }

  /** No two schedulers owe the tier above the same parent: the second to arrive saw a count above
      zero, because the first stays counted until its own sequence is over. */
  ghost predicate OneRiser(st: State) {
    forall s, t :: (s in st.racers && t in st.racers && s != t && Rising(st.racers[s]) && Rising(st.racers[t])) ==>
      st.racers[s].attach != st.racers[t].attach
  }

  ghost predicate Inv(st: State) {
    Shape(st) && BooksOk(st) && OneRiser(st)
  }

  // ---------------------------------------------------------------- one step

  lemma BookChange(st: State, st': State, s: int, c: int, a: int, dw: int, dn: int)
    requires st.racers.Keys == st'.racers.Keys && s in st.racers
    requires forall x :: x in st.racers && x != s ==> st'.racers[x] == st.racers[x]
    requires SameTiersBut(st.aggs, st'.aggs, c) && c in st.aggs && st'.aggs[c].parent == st.aggs[c].parent
        && st'.aggs[c].effWeight == st.aggs[c].effWeight
    requires WeightTerm(st', a, s) - WeightTerm(st, a, s) + TierWeight(st'.aggs, a, c) - TierWeight(st.aggs, a, c) == dw
    requires CountTerm(st', a, s) - CountTerm(st, a, s) + TierCount(st'.aggs, a, c) - TierCount(st.aggs, a, c) == dn
    ensures WeightBook(st', a) == WeightBook(st, a) + dw
    ensures CountBook(st', a) == CountBook(st, a) + dn
  {
    RacerSums(st, st', s, c, a);
    TierSumsChange(st.aggs, st'.aggs, c, a);
  }

  lemma RacerSums(st: State, st': State, s: int, c: int, a: int)
    requires st.racers.Keys == st'.racers.Keys && s in st.racers
    requires forall x :: x in st.racers && x != s ==> st'.racers[x] == st.racers[x]
    requires SameTiersBut(st.aggs, st'.aggs, c) && c in st.aggs && st'.aggs[c].parent == st.aggs[c].parent
        && st'.aggs[c].effWeight == st.aggs[c].effWeight
    ensures Sum(st'.racers.Keys, WeightTerms(st', a)) == Sum(st.racers.Keys, WeightTerms(st, a)) - WeightTerm(st, a,
        s) + WeightTerm(st', a, s)
    ensures Sum(st'.racers.Keys, CountTerms(st', a)) == Sum(st.racers.Keys, CountTerms(st, a)) - CountTerm(st, a, s)
        + CountTerm(st', a, s)
  {
    Change(st.racers.Keys, WeightTerms(st, a), WeightTerms(st', a), s);
    Change(st.racers.Keys, CountTerms(st, a), CountTerms(st', a), s);
  }

  /** A tier's own count is a sum of its counted schedulers, so a counted one keeps it positive. */
  lemma CountedIsPositive(st: State, a: int, s: int)
    requires Shape(st) && BooksOk(st) && a in st.aggs && st.aggs[a].parent.At?
    ensures st.aggs[a].nActive >= 0
    ensures s in st.racers && st.racers[s].attach == At(a) && Counted(st.racers[s]) ==> st.aggs[a].nActive > 0
  {
    var f := CountTerms(st, a);
    forall x | x in st.racers
      ensures f(x) >= 0
    {
    }
    NonNegativeAt(st.racers.Keys, f, s);
    TierTermsBounded(st.aggs, a, a);
    assert st.aggs[a].nActive == CountBook(st, a);
  }

  lemma StepShape(st: State, s: int)
    requires Shape(st) && s in st.racers
    ensures Shape(Advance(st, s))
    ensures SameShape(st.aggs, Advance(st, s).aggs)
    ensures forall a :: a in st.aggs ==>
              Advance(st, s).aggs[a] == st.aggs[a].(activeWeight := Advance(st, s).aggs[a].activeWeight,
                                                    nActive := Advance(st, s).aggs[a].nActive)
  {
  }

  /** Which tiers' counts a step may move between zero and positive: only the racer's own parent. */
  lemma StepTiers(st: State, s: int)
    requires Shape(st) && s in st.racers && st.racers[s].attach.At?
    ensures SameTiersBut(st.aggs, Advance(st, s).aggs, st.racers[s].attach.i)
  {
    StepShape(st, s);
  }

  lemma SameTerms(st: State, st': State, a: int)
    requires st.aggs == st'.aggs && st.racers.Keys == st'.racers.Keys
    requires forall x :: x in st.racers ==>
        WeightTerm(st', a, x) == WeightTerm(st, a, x) && CountTerm(st', a, x) == CountTerm(st, a, x)
    ensures WeightBook(st', a) == WeightBook(st, a) && CountBook(st', a) == CountBook(st, a)
  {
    Same(st.racers.Keys, WeightTerms(st, a), WeightTerms(st', a));
    Same(st.racers.Keys, CountTerms(st, a), CountTerms(st', a));
  }

  lemma DetachedStep(st: State, s: int)
    requires Inv(st) && s in st.racers && st.racers[s].attach.Unset?
    ensures BooksOk(Advance(st, s))
  {
    var st' := Advance(st, s);
    forall a | a in st'.aggs
      ensures st'.aggs[a].activeWeight == WeightBook(st', a) && st'.aggs[a].nActive == CountBook(st', a)
    {
      SameTerms(st, st', a);
      assert st.aggs[a].activeWeight == WeightBook(st, a);
    }
  }

  /** Every atomic operation leaves both books equal to their registers, with what is in flight counted. */
  lemma StepBooks(st: State, s: int)
    requires Inv(st) && s in st.racers
    ensures BooksOk(Advance(st, s))
  {
    var st' := Advance(st, s);
    var r := st.racers[s];
    if r.attach.Unset? {
      DetachedStep(st, s);
    } else {
      var c := r.attach.i;
      assert c in st.aggs;
      StepShape(st, s);
      StepTiers(st, s);
      if st.aggs[c].parent.At? { CountedIsPositive(st, c, s); }
      forall a | a in st'.aggs
        ensures st'.aggs[a].activeWeight == WeightBook(st', a) && st'.aggs[a].nActive == CountBook(st', a)
      {
        StepBookAt(st, st', s, c, a);
        assert st.aggs[a].activeWeight == WeightBook(st, a);
      }
    }
  }

  lemma StepBookAt(st: State, st': State, s: int, c: int, a: int)
    requires Shape(st) && s in st.racers && st' == Advance(st, s) && a in st.aggs && c in st.aggs
    requires st.racers[s].attach == At(c)
    requires SameTiersBut(st.aggs, st'.aggs, c) && SameShape(st.aggs, st'.aggs)
    requires st'.aggs[c].effWeight == st.aggs[c].effWeight
    requires st.aggs[c].parent.At? ==> st.aggs[c].nActive >= 0
    requires st.aggs[c].parent.At? && Counted(st.racers[s]) ==> st.aggs[c].nActive > 0
    ensures WeightBook(st', a) == WeightBook(st, a) + st'.aggs[a].activeWeight - st.aggs[a].activeWeight
    ensures CountBook(st', a) == CountBook(st, a) + st'.aggs[a].nActive - st.aggs[a].nActive
  {
    BookChange(st, st', s, c, a, st'.aggs[a].activeWeight - st.aggs[a].activeWeight,
        st'.aggs[a].nActive - st.aggs[a].nActive);
  }

  lemma StepOneRiser(st: State, s: int)
    requires Inv(st) && s in st.racers
    ensures OneRiser(Advance(st, s))
  {
    var st' := Advance(st, s);
    var r := st.racers[s];
    if r.phase.JoinCount? && Rising(st'.racers[s]) {
      forall t | t in st.racers && t != s && Rising(st.racers[t])
        ensures st.racers[t].attach != r.attach
      {
        assert Counted(st.racers[t]);
        CountedIsPositive(st, r.attach.i, t);
      }
    }
  }

  lemma StepKeepsInv(st: State, s: int)
    requires Inv(st) && s in st.racers
    ensures Inv(Advance(st, s))
  {
    StepShape(st, s);
    StepBooks(st, s);
    StepOneRiser(st, s);
  }

  // ---------------------------------------------------------------- every run

  /** The state after the owners of ids have each performed one operation, in that order. */
  function Run(st: State, ids: seq<int>): State
    requires Shape(st) && forall i :: 0 <= i < |ids| ==> ids[i] in st.racers
    decreases |ids|
  {
    if ids == [] then st
    else
      StepShape(st, ids[0]);
      Run(Advance(st, ids[0]), ids[1..])
  }

  lemma {:induction false} RunKeepsInv(st: State, ids: seq<int>)
    requires Inv(st) && forall i :: 0 <= i < |ids| ==> ids[i] in st.racers
    ensures Inv(Run(st, ids))
    decreases |ids|
  {
    if ids != [] {
      StepKeepsInv(st, ids[0]);
      RunKeepsInv(Advance(st, ids[0]), ids[1..]);
    }
  }

  /** A riser's parent is counted positive, so what it still owes is already among the tier terms. */
  lemma RiserIsMatched(st: State, a: int, s: int)
    requires Inv(st) && a in st.aggs && s in st.racers && Rising(st.racers[s])
    requires st.aggs[st.racers[s].attach.i].parent == At(a)
    ensures var c := st.racers[s].attach.i;
            TierWeight(st.aggs, a, c) == st.aggs[c].effWeight && TierCount(st.aggs, a, c) == 1
  {
    var c := st.racers[s].attach.i;
    assert Counted(st.racers[s]);
    CountedIsPositive(st, c, s);
  }

  ghost function ParentOf(st: State): int -> int {
    s => if s in st.racers && st.racers[s].attach.At? then st.racers[s].attach.i else 0
  }

  /** Alone, an idle scheduler's owner changes its activity and is idle again within five operations. */
  lemma ToggleCompletes(st: State, s: int) returns (run: seq<State>)
    requires Inv(st) && s in st.racers && st.racers[s].phase == Idle
    ensures 2 <= |run| <= 5 && run[0] == st
    ensures forall k :: 0 <= k < |run| - 1 ==>
              s in run[k].racers && Shape(run[k]) && run[k + 1] == Advance(run[k], s)
    ensures var end := run[|run| - 1];
            && s in end.racers && end.racers[s].phase == Idle && end.racers[s].active == !st.racers[s].active
            && end.racers == st.racers[s := st.racers[s].(active := !st.racers[s].active)]
  {
    run := [st];
    var at := st;
    while |run| == 1 || at.racers[s].phase != Idle
      invariant 1 <= |run| <= 5 && run[0] == st && run[|run| - 1] == at && Inv(at)
      invariant forall k :: 0 <= k < |run| - 1 ==>
                  s in run[k].racers && Shape(run[k]) && run[k + 1] == Advance(run[k], s)
      invariant s in at.racers && (|run| == 1 ==> at == st)
      invariant |run| > 1 ==>
                  && at.racers == st.racers[s := st.racers[s].(active := !st.racers[s].active,
                                                               phase := at.racers[s].phase)]
                  && (|run| == 2 ==> at.racers[s].phase in {Idle, JoinCount, LeaveCount})
                  && (|run| == 3 ==> at.racers[s].phase in {Idle, JoinUpWeight, LeaveUpWeight})
                  && (|run| == 4 ==> at.racers[s].phase in {JoinUpCount, LeaveUpCount})
                  && (|run| == 5 ==> at.racers[s].phase == Idle)
      decreases 5 - |run|
    {
      StepKeepsInv(at, s);
      hide Inv;
      at := Advance(at, s);
      run := run + [at];
    }
  }

  lemma WeightNeverWraps(st: State, a: int)
    requires Inv(st) && a in st.aggs
    ensures st.aggs[a].activeWeight >= 0
  {
    var f, g, m := WeightTerms(st, a), TierWeights(st.aggs, a), ParentOf(st);
    forall s | s in st.racers && f(s) < 0
      ensures Rising(st.racers[s]) && st.racers[s].attach == At(m(s)) && m(s) in st.aggs && f(s) + g(m(s)) >= 0
    {
      RiserIsMatched(st, a, s);
    }
    Matched(st.racers.Keys, f, st.aggs.Keys, g, m);
    assert st.aggs[a].activeWeight == WeightBook(st, a);
  }

  lemma CountNeverWraps(st: State, a: int)
    requires Inv(st) && a in st.aggs
    ensures st.aggs[a].nActive >= 0
  {
    var f, g, m := CountTerms(st, a), TierCounts(st.aggs, a), ParentOf(st);
    forall s | s in st.racers && f(s) < 0
      ensures Rising(st.racers[s]) && st.racers[s].attach == At(m(s)) && m(s) in st.aggs && f(s) + g(m(s)) >= 0
    {
      RiserIsMatched(st, a, s);
    }
    Matched(st.racers.Keys, f, st.aggs.Keys, g, m);
    assert st.aggs[a].nActive == CountBook(st, a);
  }

  /** The schedulers as the tree's configuration side sees them. */
  ghost function Settled(racers: map<int, Racer>): Scheds {
    map s | s in racers :: Sched(s, racers[s].attach, racers[s].effWeight, racers[s].active, 0)
  }

  ghost predicate Quiescent(st: State) {
    forall s :: s in st.racers ==> st.racers[s].phase == Idle
  }

  lemma QuiescentBooks(st: State, a: int)
    requires Shape(st) && Quiescent(st)
    ensures WeightBook(st, a) == ActiveWeight(st.aggs, Settled(st.racers), a)
    ensures CountBook(st, a) == ActiveCount(st.aggs, Settled(st.racers), a)
  {
    var scheds := Settled(st.racers);
    assert scheds.Keys == st.racers.Keys;
    forall s | s in st.racers
      ensures WeightTerm(st, a, s) == SchedWeight(scheds, a, s) && CountTerm(st, a, s) == SchedCount(scheds, a, s)
    {
      var r := st.racers[s];
      assert scheds[s] == Sched(s, r.attach, r.effWeight, r.active, 0);
      if r.attach.At? { assert r.attach.i in st.aggs; }
    }
    Same(st.racers.Keys, WeightTerms(st, a), SchedWeights(scheds, a));
    Same(st.racers.Keys, CountTerms(st, a), SchedCounts(scheds, a));
  }

  /** With no operation in flight, which is what the worker barrier waits for, the books are exactly
      the ones every configuration operation starts from and leaves. */
  lemma QuiescentIsBalanced(st: State)
    requires Shape(st) && Quiescent(st)
    ensures Inv(st) <==> WeightOk(st.aggs, Settled(st.racers))
  {
    forall a | a in st.aggs
      ensures WeightBook(st, a) == ActiveWeight(st.aggs, Settled(st.racers), a)
      ensures CountBook(st, a) == ActiveCount(st.aggs, Settled(st.racers), a)
    {
      QuiescentBooks(st, a);
    }
  }

  /** From any balanced tree, after any interleaving of activations and deactivations, no register
      has wrapped, and whenever nothing is in flight the tree is balanced again. */
  lemma EveryRunIsBalanced(st: State, ids: seq<int>)
    requires Shape(st) && Quiescent(st) && WeightOk(st.aggs, Settled(st.racers))
    requires forall i :: 0 <= i < |ids| ==> ids[i] in st.racers
    ensures var end := Run(st, ids);
            && (forall a :: a in end.aggs ==> end.aggs[a].activeWeight >= 0 && end.aggs[a].nActive >= 0)
            && (Quiescent(end) ==> WeightOk(end.aggs, Settled(end.racers)))
  {
    QuiescentIsBalanced(st);
    RunKeepsInv(st, ids);
    var end := Run(st, ids);
    forall a | a in end.aggs
      ensures end.aggs[a].activeWeight >= 0 && end.aggs[a].nActive >= 0
    {
      WeightNeverWraps(end, a);
      CountNeverWraps(end, a);
    }
    if Quiescent(end) { QuiescentIsBalanced(end); }
  }
}
