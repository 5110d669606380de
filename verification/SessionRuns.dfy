/** Which sessions can be reached from outside, over whole runs: Create and Delete as they act on the
    sessions and the outside table, in any order and number. */
module SessionRuns {
  import opened CgnatStore

  /** What Create and Delete do to the sessions and to the outside table. */
  datatype Event = Made(si: int, s: Session) | Ended(si: int)

  predicate CanHappen(ss: map<int, Session>, ev: Event) { if ev.Made? then ev.si !in ss else ev.si in ss }

  function KeyOf(ss: map<int, Session>, ev: Event): Key
    requires CanHappen(ss, ev)
  {
    MakeKey(if ev.Made? then ev.s.o2i else ss[ev.si].o2i)
  }

  function SessionsAfter(ss: map<int, Session>, ev: Event): map<int, Session> {
    if ev.Made? then ss[ev.si := ev.s] else ss - {ev.si}
  }

  function TableAfter(ss: map<int, Session>, out2in: map<Key, int>, ev: Event): map<Key, int>
    requires CanHappen(ss, ev)
  {
    if ev.Made? then out2in[KeyOf(ss, ev) := ev.si] else out2in - {KeyOf(ss, ev)}
  }

  /** A run of creations and deletions that session sj lives through. */
  predicate Outlives(ss: map<int, Session>, evs: seq<Event>, sj: int)
    decreases |evs|
  {
    && sj in ss
    && (evs != [] ==>
          CanHappen(ss, evs[0]) && evs[0].si != sj && Outlives(SessionsAfter(ss, evs[0]), evs[1..], sj))
  }

  /** Some session with the key is made or ends during the run. */
  predicate Touched(ss: map<int, Session>, evs: seq<Event>, sj: int, key: Key)
    requires Outlives(ss, evs, sj)
    decreases |evs|
  {
    evs != [] && (KeyOf(ss, evs[0]) == key || Touched(SessionsAfter(ss, evs[0]), evs[1..], sj, key))
  }

  function RunTable(ss: map<int, Session>, out2in: map<Key, int>, evs: seq<Event>, sj: int): map<Key, int>
    requires Outlives(ss, evs, sj)
    decreases |evs|
  {
    if evs == [] then out2in
    else RunTable(SessionsAfter(ss, evs[0]), TableAfter(ss, out2in, evs[0]), evs[1..], sj)
  }

  /** Over any run a live session stays reachable from outside exactly when no other session with its
      outside key is made or ends; and once lost, it is lost until it ends itself. */
  lemma {:induction false} ReachableIff(ss: map<int, Session>, out2in: map<Key, int>, evs: seq<Event>, sj: int)
    requires Outlives(ss, evs, sj)
    ensures var key := MakeKey(ss[sj].o2i);
            key in RunTable(ss, out2in, evs, sj) && RunTable(ss, out2in, evs, sj)[key] == sj <==>
            Reached(ss, out2in, sj) && !Touched(ss, evs, sj, key)
    decreases |evs|
  {
    if evs != [] {
      var ev := evs[0];
      if ev.Made? { CreateReaches(ss, out2in, ev.si, ev.s); } else { DeleteReaches(ss, out2in, ev.si, sj); }
      ReachableIff(SessionsAfter(ss, ev), TableAfter(ss, out2in, ev), evs[1..], sj);
    }
  }
}
