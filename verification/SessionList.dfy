/** The intrusive list that threads a mapping's sessions through the shared session pool. Only the head
    is kept, so the tail is found by its missing successor. */
module SessionList {
  import opened FlowLists

  /** The links from head spell out exactly the sequence l, forwards and backwards. */
  ghost predicate Chain(links: map<int, Link>, head: int, l: seq<int>) {
    && Distinct(l, NIL)
    && head == (if l == [] then NIL else l[0])
    && (forall k {:trigger l[k] in links} :: 0 <= k < |l| ==> l[k] in links)
    && (forall k {:trigger links[l[k]]} :: 0 <= k < |l| ==> l[k] in links && links[l[k]] == LinkAt(l, k))
  }

  function SetNext(links: map<int, Link>, i: int, x: int): map<int, Link> {
    if i in links then links[i := links[i].(next := x)] else links
  }

  function SetPrev(links: map<int, Link>, i: int, x: int): map<int, Link> {
    if i in links then links[i := links[i].(prev := x)] else links
  }

  /** Head insertion, as session creation does it. */
  function Inserted(links: map<int, Link>, head: int, i: int): map<int, Link> {
    SetPrev(links[i := Link(head, NIL)], head, i)
  }

  /** Unlinking, as session deletion does it; the record itself goes back to the pool. */
  function Unlinked(links: map<int, Link>, i: int): map<int, Link>
    requires i in links
  {
    SetPrev(SetNext(links, links[i].prev, links[i].next), links[i].next, links[i].prev) - {i}
  }

  /** The head after an unlink. */
  function HeadAfter(links: map<int, Link>, head: int, i: int): int
    requires i in links
  {
    if links[i].prev == NIL then links[i].next else head
  }

  lemma InsertAt(links: map<int, Link>, head: int, l: seq<int>, i: int, k: int)
    requires Chain(links, head, l) && 0 <= i < NIL && i !in links && 0 <= k < |l|
    ensures l[k] != i && l[k] in Inserted(links, head, i)
    ensures Inserted(links, head, i)[l[k]] == Link(LinkAt(l, k).next, if k == 0 then i else LinkAt(l, k).prev)
  {
  }

  lemma InsertDistinct(links: map<int, Link>, head: int, l: seq<int>, i: int)
    requires Chain(links, head, l) && 0 <= i < NIL && i !in links
    ensures Distinct([i] + l, NIL)
  {
  }

  lemma InsertOk(links: map<int, Link>, head: int, l: seq<int>, i: int)
    requires Chain(links, head, l) && 0 <= i < NIL && i !in links
    ensures Chain(Inserted(links, head, i), i, [i] + l)
  {
    var ls', l' := Inserted(links, head, i), [i] + l;
    InsertDistinct(links, head, l, i);
    forall k | 0 <= k < |l'|
      ensures l'[k] in ls' && ls'[l'[k]] == LinkAt(l', k)
    {
      if k > 0 {
        InsertAt(links, head, l, i, k - 1);
      } else {
        assert head == NIL || head in links by { assert l != [] ==> l[0] in links; }
      }
    }
  }

  /** Another mapping's list is out of reach of the insertion. */
  lemma InsertElsewhere(links: map<int, Link>, head: int, i: int, h: int, l: seq<int>)
    requires Chain(links, h, l) && i !in links && head !in l
    ensures Chain(Inserted(links, head, i), h, l)
  {
  }

  lemma NeighboursOf(links: map<int, Link>, head: int, l: seq<int>, i: int)
    requires Chain(links, head, l) && i in l
    ensures i in links && links[i] == LinkAt(l, Position(l, i))
    ensures links[i].prev == NIL || links[i].prev in l
    ensures links[i].next == NIL || links[i].next in l
    ensures HeadAfter(links, head, i) == if Without(l, i) == [] then NIL else Without(l, i)[0]
  {
  }

  lemma UnlinkAt(links: map<int, Link>, head: int, l: seq<int>, i: int, k: int)
    requires Chain(links, head, l) && i in l && 0 <= k < |l| && k != Position(l, i) && NIL !in links
    ensures i in links && l[k] in Unlinked(links, i)
    ensures var p := Position(l, i);
            Unlinked(links, i)[l[k]] == Link(if k == p - 1 then LinkAt(l, p).next else LinkAt(l, k).next,
                                             if k == p + 1 then LinkAt(l, p).prev else LinkAt(l, k).prev)
  {
  }

  lemma UnlinkOk(links: map<int, Link>, head: int, l: seq<int>, i: int)
    requires Chain(links, head, l) && i in l && NIL !in links
    ensures i in links && Chain(Unlinked(links, i), HeadAfter(links, head, i), Without(l, i))
  {
    var p := Position(l, i);
    NeighboursOf(links, head, l, i);
    WithoutMembers(l, i, NIL);
    var ls', l' := Unlinked(links, i), Without(l, i);
    forall k' | 0 <= k' < |l'|
      ensures l'[k'] in ls' && ls'[l'[k']] == LinkAt(l', k')
    {
      var k := if k' < p then k' else k' + 1;
      UnlinkAt(links, head, l, i, k);
      WithoutLinks(l, i, k);
    }
  }

  lemma UnlinkElsewhere(links: map<int, Link>, i: int, h: int, l: seq<int>)
    requires Chain(links, h, l) && i in links && i !in l && links[i].prev !in l && links[i].next !in l
    ensures Chain(Unlinked(links, i), h, l)
  {
  }
}
