/** The intrusive doubly linked lists that thread a tin's flows. The two link fields of every flow are
    kept in an array of their own, beside the array of the flows' other fields. Each operation is proved
    against a sequence of flow indices, and says which links it left alone. */
module FlowLists {

  /** The all-ones index the source uses for "no flow". */
  const NIL: int := 0xFFFF_FFFF

  datatype Link = Link(next: int, prev: int)

  datatype Ends = Ends(head: int, tail: int)

  const LOOSE := Link(NIL, NIL)

  ghost predicate Distinct(l: seq<int>, n: int) {
    && (forall k :: 0 <= k < |l| ==> 0 <= l[k] < n)
    && (forall j, k :: 0 <= j < k < |l| ==> l[j] != l[k])
  }

  ghost function LinkAt(l: seq<int>, k: int): Link
    requires 0 <= k < |l|
  {
    Link(if k + 1 < |l| then l[k + 1] else NIL, if k > 0 then l[k - 1] else NIL)
  }

  /** The links and ends spell out exactly the sequence l, forwards and backwards. */
  ghost predicate Linked(ls: seq<Link>, e: Ends, l: seq<int>) {
    && Distinct(l, |ls|)
    && e == (if l == [] then Ends(NIL, NIL) else Ends(l[0], l[|l| - 1]))
    && (forall k {:trigger ls[l[k]]} :: 0 <= k < |l| ==> ls[l[k]] == LinkAt(l, k))
  }

  /** No link outside the list was touched. */
  ghost predicate Inside(ls: seq<Link>, ls': seq<Link>, l: seq<int>) {
    |ls'| == |ls| && forall k :: 0 <= k < |ls| && k !in l ==> ls'[k] == ls[k]
  }

  /** A list that shares no flow with the one touched still spells the same sequence. */
  lemma Elsewhere(ls: seq<Link>, ls': seq<Link>, touched: seq<int>, e: Ends, l: seq<int>)
    requires Linked(ls, e, l) && Inside(ls, ls', touched)
    requires forall x :: x in l ==> x !in touched
    ensures Linked(ls', e, l)
  {
  }

  /** Where a flow stands in its list. */
  ghost function Position(l: seq<int>, i: int): (k: int)
    requires i in l
    ensures 0 <= k < |l| && l[k] == i
  {
    var k :| 0 <= k < |l| && l[k] == i; k
  }

  ghost function Without(l: seq<int>, i: int): seq<int>
    requires i in l
  {
    var k := Position(l, i);
    l[..k] + l[k + 1..]
  }

  lemma WithoutMembers(l: seq<int>, i: int, n: int)
    requires i in l && Distinct(l, n)
    ensures |Without(l, i)| == |l| - 1 && Distinct(Without(l, i), n)
    ensures forall x :: x in Without(l, i) <==> x in l && x != i
  {
  }

  /** Dropping the first element of a list leaves its tail. */
  lemma WithoutFirst(l: seq<int>, n: int)
    requires l != [] && Distinct(l, n)
    ensures Without(l, l[0]) == l[1..]
  {
  }

  /** The links of the first or last element that faces outwards, when something is put there. */
  ghost function Prepended(ls: seq<Link>, e: Ends, i: int): seq<Link>
    requires 0 <= i < |ls| && (e.head == NIL || 0 <= e.head < |ls|)
  {
    var a := ls[i := Link(e.head, NIL)];
    if e.head != NIL then a[e.head := a[e.head].(prev := i)] else a
  }

  ghost function Appended(ls: seq<Link>, e: Ends, i: int): seq<Link>
    requires 0 <= i < |ls| && (e.tail == NIL || 0 <= e.tail < |ls|)
  {
    var a := ls[i := Link(NIL, e.tail)];
    if e.tail != NIL then a[e.tail := a[e.tail].(next := i)] else a
  }

  ghost function Removed(ls: seq<Link>, i: int): seq<Link>
    requires 0 <= i < |ls|
    requires (ls[i].prev == NIL || 0 <= ls[i].prev < |ls|) && (ls[i].next == NIL || 0 <= ls[i].next < |ls|)
  {
    var a := if ls[i].prev != NIL then ls[ls[i].prev := ls[ls[i].prev].(next := ls[i].next)] else ls;
    var b := if ls[i].next != NIL then a[ls[i].next := a[ls[i].next].(prev := ls[i].prev)] else a;
    b[i := LOOSE]
  }

  lemma PrependAt(ls: seq<Link>, e: Ends, i: int, l: seq<int>, k: int)
    requires 0 <= i < |ls| <= NIL && Linked(ls, e, l) && i !in l && 0 <= k < |l|
    ensures Prepended(ls, e, i)[l[k]] == Link(LinkAt(l, k).next, if k == 0 then i else LinkAt(l, k).prev)
  {
  }

  lemma PrependOk(ls: seq<Link>, e: Ends, i: int, l: seq<int>)
    requires 0 <= i < |ls| <= NIL && Linked(ls, e, l) && i !in l
    ensures Linked(Prepended(ls, e, i), Ends(i, if e.head != NIL then e.tail else i), [i] + l)
  {
    var ls', l' := Prepended(ls, e, i), [i] + l;
    assert l != [] ==> l[0] in l;
    forall k | 0 <= k < |l'|
      ensures ls'[l'[k]] == LinkAt(l', k)
    {
      if k > 0 { PrependAt(ls, e, i, l, k - 1); }
    }
  }

  lemma AppendOk(ls: seq<Link>, e: Ends, i: int, l: seq<int>)
    requires 0 <= i < |ls| <= NIL && Linked(ls, e, l) && i !in l
    ensures Linked(Appended(ls, e, i), Ends(if e.tail != NIL then e.head else i, i), l + [i])
  {
  }

  /** Only the new element and the end it meets are written. */
  lemma EndsInside(ls: seq<Link>, e: Ends, i: int, l: seq<int>)
    requires 0 <= i < |ls| <= NIL && Linked(ls, e, l)
    ensures Inside(ls, Prepended(ls, e, i), [i] + l) && Inside(ls, Appended(ls, e, i), l + [i])
  {
  }

  /** A listed flow's own links name its neighbours. */
  lemma Neighbours(ls: seq<Link>, e: Ends, i: int, l: seq<int>)
    requires |ls| <= NIL && Linked(ls, e, l) && i in l
    ensures 0 <= i < |ls| && ls[i] == LinkAt(l, Position(l, i))
    ensures (ls[i].prev == NIL || (ls[i].prev in l && 0 <= ls[i].prev < |ls|))
        && (ls[i].next == NIL || (ls[i].next in l && 0 <= ls[i].next < |ls|))
  {
  }

  lemma RemoveAt(ls: seq<Link>, e: Ends, i: int, l: seq<int>, k: int)
    requires |ls| <= NIL && Linked(ls, e, l) && i in l && 0 <= k < |l| && k != Position(l, i)
    requires ls[i] == LinkAt(l, Position(l, i))
    ensures var p := Position(l, i);
            Removed(ls, i)[l[k]] == Link(if k == p - 1 then LinkAt(l, p).next else LinkAt(l, k).next,
                                         if k == p + 1 then LinkAt(l, p).prev else LinkAt(l, k).prev)
  {
  }

  lemma WithoutLinks(l: seq<int>, i: int, k: int)
    requires i in l && 0 <= k < |l| && k != Position(l, i)
    ensures var p := Position(l, i);
            var k' := if k < p then k else k - 1;
            && |Without(l, i)| == |l| - 1 && 0 <= k' < |l| - 1 && Without(l, i)[k'] == l[k]
            && LinkAt(Without(l, i), k') == Link(if k == p - 1 then LinkAt(l, p).next else LinkAt(l, k).next,
                                                 if k == p + 1 then LinkAt(l, p).prev else LinkAt(l, k).prev)
  {
  }

  lemma RemoveOk(ls: seq<Link>, e: Ends, i: int, l: seq<int>)
    requires |ls| <= NIL && Linked(ls, e, l) && i in l
    requires 0 <= i < |ls| && ls[i] == LinkAt(l, Position(l, i))
    ensures Linked(Removed(ls, i), Ends(if ls[i].prev != NIL then e.head else ls[i].next, if ls[i].next != NIL
        then e.tail else ls[i].prev), Without(l, i))
  {
    var p := Position(l, i);
    var ls', l' := Removed(ls, i), Without(l, i);
    WithoutMembers(l, i, |ls|);
    RemoveEnds(ls, e, i, l);
    forall k' | 0 <= k' < |l'|
      ensures ls'[l'[k']] == LinkAt(l', k')
    {
      var k := if k' < p then k' else k' + 1;
      RemoveAt(ls, e, i, l, k);
      WithoutLinks(l, i, k);
    }
  }

  lemma RemoveEnds(ls: seq<Link>, e: Ends, i: int, l: seq<int>)
    requires Distinct(l, |ls|) && |ls| <= NIL && i in l
    requires e == Ends(l[0], l[|l| - 1])
    requires 0 <= i < |ls| && ls[i] == LinkAt(l, Position(l, i))
    ensures var l' := Without(l, i);
            Ends(if ls[i].prev != NIL then e.head else ls[i].next, if ls[i].next != NIL then e.tail else ls[i].prev)
            == if l' == [] then Ends(NIL, NIL) else Ends(l'[0], l'[|l'| - 1])
  {
  }

  lemma RemoveInside(ls: seq<Link>, e: Ends, i: int, l: seq<int>)
    requires |ls| <= NIL && Linked(ls, e, l) && i in l
    ensures 0 <= i < |ls| && Inside(ls, Removed(ls, i), l) && Removed(ls, i)[i] == LOOSE
  {
  }

  /** cake_flow_list_prepend. */
  method Prepend(links: array<Link>, e: Ends, i: int, ghost l: seq<int>) returns (e': Ends)
    requires 0 <= i < links.Length <= NIL && Linked(links[..], e, l) && i !in l
    modifies links
    ensures Linked(links[..], e', [i] + l) && Inside(old(links[..]), links[..], [i] + l)
  {
    PrependOk(links[..], e, i, l);
    EndsInside(links[..], e, i, l);
    links[i] := Link(e.head, NIL);
    if e.head != NIL {
      links[e.head] := links[e.head].(prev := i);
      e' := Ends(i, e.tail);
    } else {
      e' := Ends(i, i);
    }
    assert links[..] == Prepended(old(links[..]), e, i);
  }

  /** cake_flow_list_append_tail. */
  method Append(links: array<Link>, e: Ends, i: int, ghost l: seq<int>) returns (e': Ends)
    requires 0 <= i < links.Length <= NIL && Linked(links[..], e, l) && i !in l
    modifies links
    ensures Linked(links[..], e', l + [i]) && Inside(old(links[..]), links[..], l + [i])
  {
    AppendOk(links[..], e, i, l);
    EndsInside(links[..], e, i, l);
    links[i] := Link(NIL, e.tail);
    if e.tail != NIL {
      links[e.tail] := links[e.tail].(next := i);
      e' := Ends(e.head, i);
    } else {
      e' := Ends(i, i);
    }
    assert links[..] == Appended(old(links[..]), e, i);
  }

  /** cake_flow_list_remove. */
  method Remove(links: array<Link>, e: Ends, i: int, ghost l: seq<int>) returns (e': Ends)
    requires links.Length <= NIL && Linked(links[..], e, l) && i in l
    modifies links
    ensures Linked(links[..], e', Without(l, i)) && Inside(old(links[..]), links[..], l)
    ensures 0 <= i < links.Length && links[i] == LOOSE
  {
    Neighbours(links[..], e, i, l);
    RemoveOk(links[..], e, i, l);
    RemoveInside(links[..], e, i, l);
    var f := links[i];
    e' := e;
    if f.prev != NIL {
      links[f.prev] := links[f.prev].(next := f.next);
    } else {
      e' := e'.(head := f.next);
    }
    if f.next != NIL {
      links[f.next] := links[f.next].(prev := f.prev);
    } else {
      e' := e'.(tail := f.prev);
    }
    links[i] := LOOSE;
    assert links[..] == Removed(old(links[..]), i);
  }

  // ---------------------------------------------------------------- three lists over one array

  ghost predicate Disjoint(l: seq<int>, m: seq<int>) { forall x :: x in l ==> x !in m }

  /** Three lists threading the same array, no flow in two of them. */
  ghost predicate Three(ls: seq<Link>, a: Ends, la: seq<int>, b: Ends, lb: seq<int>, c: Ends, lc: seq<int>) {
    && Linked(ls, a, la) && Linked(ls, b, lb) && Linked(ls, c, lc)
    && Disjoint(la, lb) && Disjoint(la, lc) && Disjoint(lb, lc)
  }

  /** Take a flow out of one list; the other two do not notice. */
  method TakeOut(links: array<Link>, a: Ends, i: int, ghost la: seq<int>, ghost b: Ends, ghost lb: seq<int>,
          ghost c: Ends, ghost lc: seq<int>)
    returns (a': Ends)
    requires links.Length <= NIL && Three(links[..], a, la, b, lb, c, lc) && i in la
    modifies links
    ensures Three(links[..], a', Without(la, i), b, lb, c, lc)
    ensures 0 <= i < links.Length && links[i] == LOOSE && Inside(old(links[..]), links[..], la)
  {
    WithoutMembers(la, i, links.Length);
    a' := Remove(links, a, i, la);
    Elsewhere(old(links[..]), links[..], la, b, lb);
    Elsewhere(old(links[..]), links[..], la, c, lc);
  }

  /** Put a loose flow at the head of one list. */
  method PutFirst(links: array<Link>, a: Ends, i: int, ghost la: seq<int>, ghost b: Ends, ghost lb: seq<int>,
          ghost c: Ends, ghost lc: seq<int>)
    returns (a': Ends)
    requires 0 <= i < links.Length <= NIL && Three(links[..], a, la, b, lb, c, lc)
    requires i !in la && i !in lb && i !in lc
    modifies links
    ensures Three(links[..], a', [i] + la, b, lb, c, lc) && Inside(old(links[..]), links[..], [i] + la)
  {
    a' := Prepend(links, a, i, la);
    Elsewhere(old(links[..]), links[..], [i] + la, b, lb);
    Elsewhere(old(links[..]), links[..], [i] + la, c, lc);
  }

  /** Put a loose flow at the tail of one list. */
  method PutLast(links: array<Link>, a: Ends, i: int, ghost la: seq<int>, ghost b: Ends, ghost lb: seq<int>,
          ghost c: Ends, ghost lc: seq<int>)
    returns (a': Ends)
    requires 0 <= i < links.Length <= NIL && Three(links[..], a, la, b, lb, c, lc)
    requires i !in la && i !in lb && i !in lc
    modifies links
    ensures Three(links[..], a', la + [i], b, lb, c, lc) && Inside(old(links[..]), links[..], la + [i])
  {
    a' := Append(links, a, i, la);
    Elsewhere(old(links[..]), links[..], la + [i], b, lb);
    Elsewhere(old(links[..]), links[..], la + [i], c, lc);
  }
}
