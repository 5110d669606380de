/** The gateway's circuit table: paired entries, one for each direction, and the table that finds them. */
module Circuits {
  import Sums
  import opened TagRewrite

  const ANY: int := 0xFFFF

  /** Stands for every circuit when states are set. */
  const ALL: int := 0xFFFF_FFFF

  datatype Key = Key(sw: int, svlan: int, cvlan: int)

  /** One direction of a circuit. */
  datatype Half = Half(rx: Key, txSw: int, tx: Entry, enabled: bool, wildcard: bool, transparent: bool,
      accessSide: bool, peer: int, circuit: int)

  datatype Args = Args(access: Key, accessTpid: int, handoff: Key, handoffTpid: int, transparent: bool, enabled: bool)

  datatype Verdict =
    Done | InvalidInterface | InvalidValue | InvalidCombination | NoSuchEntry | NeedsRefresh | ValueExists

  /** l2gw_normalize_tpid. */
  function NormalTpid(t: int): int { if t == 0 then DOT1AD else t }

  /** l2gw_validate_args. */
  function Validate(a: Args, ifs: set<int>): Verdict {
    var aw, hw := a.access.cvlan == ANY, a.handoff.cvlan == ANY;
    if a.access.sw !in ifs || a.handoff.sw !in ifs then InvalidInterface
    else if a.access.svlan > 4095 || a.handoff.svlan > 4095 then InvalidValue
    else if !aw && a.access.cvlan > 4095 then InvalidValue
    else if !hw && a.handoff.cvlan > 4095 then InvalidValue
    else if aw != hw then InvalidCombination
    else if aw && (a.access.svlan == 0 || a.handoff.svlan == 0) then InvalidCombination
    else if !hw && a.handoff.cvlan != 0 && a.handoff.svlan == 0 then InvalidCombination
    else if !aw && a.access.cvlan != 0 && a.access.svlan == 0 then InvalidCombination
    else if NormalTpid(a.accessTpid) !in {DOT1AD, VLAN} || NormalTpid(a.handoffTpid) !in {DOT1AD, VLAN}
        then InvalidValue
    else Done
  }

  /** Identifiers come from the wire format: non-negative. */
  predicate Plausible(a: Args) {
    a.access.svlan >= 0 && a.access.cvlan >= 0 && a.handoff.svlan >= 0 && a.handoff.cvlan >= 0
  }

  function ModeOf(a: Args): Mode {
    if a.transparent then Transparent else if a.access.cvlan == ANY then Wildcard else Exact
  }

  /** What one side of the circuit emits towards the other. */
  function Emission(a: Args, ifs: set<int>, towards: Key, tpid: int): (e: Entry)
    requires Plausible(a) && Validate(a, ifs) == Done && ((towards == a.handoff && tpid == a.handoffTpid)
        || (towards == a.access && tpid == a.accessTpid))
    ensures Accepted(e)
    ensures ModeOf(a) == Exact ==> e.svlan == towards.svlan && e.cvlan == towards.cvlan
  {
    Entry(if a.transparent then 0 else towards.svlan,
          if a.transparent || a.access.cvlan == ANY then 0 else towards.cvlan, NormalTpid(tpid), ModeOf(a))
  }

  function AccessHalf(a: Args, ifs: set<int>, ai: int, hi: int): Half
    requires Plausible(a) && Validate(a, ifs) == Done
  {
    Half(a.access, a.handoff.sw, Emission(a, ifs, a.handoff, a.handoffTpid), a.enabled, a.access.cvlan == ANY,
        a.transparent, true, hi, ai)
  }

  function HandoffHalf(a: Args, ifs: set<int>, ai: int, hi: int): Half
    requires Plausible(a) && Validate(a, ifs) == Done
  {
    Half(a.handoff, a.access.sw, Emission(a, ifs, a.access, a.accessTpid), a.enabled, a.access.cvlan == ANY,
        a.transparent, false, ai, ai)
  }

  /** Arguments are accepted exactly when both interfaces exist, identifiers fit 12 bits or both inner ones are
      the wildcard, no inner tag stands without an outer one, a wildcard has outer tags on both sides, and
      the outer types are 0x88A8, 0x8100 or unset. */
  lemma ValidateIs(a: Args, ifs: set<int>)
    ensures var vids := a.access.svlan <= 4095 && a.handoff.svlan <= 4095
                        && (a.access.cvlan <= 4095 || a.access.cvlan == 0xFFFF)
                        && (a.handoff.cvlan <= 4095 || a.handoff.cvlan == 0xFFFF);
            var pair := (a.access.cvlan == 0xFFFF <==> a.handoff.cvlan == 0xFFFF)
                        && (a.access.cvlan != 0 ==> a.access.svlan != 0)
                        && (a.handoff.cvlan != 0 ==> a.handoff.svlan != 0);
            && (Validate(a, ifs) == InvalidInterface <==> a.access.sw !in ifs || a.handoff.sw !in ifs)
            && (Validate(a, ifs) == InvalidCombination <==>
                  a.access.sw in ifs && a.handoff.sw in ifs && vids && !pair)
            && (Validate(a, ifs) == Done <==>
                  && a.access.sw in ifs && a.handoff.sw in ifs && vids && pair
                  && a.accessTpid in {0, 0x88A8, 0x8100} && a.handoffTpid in {0, 0x88A8, 0x8100})
            && Validate(a, ifs) in {Done, InvalidInterface, InvalidValue, InvalidCombination}
  {
  }

  /** What the two halves of a circuit receive and send, in the arguments' terms. */
  lemma HalvesAre(a: Args, ifs: set<int>, ai: int, hi: int)
    requires Plausible(a) && Validate(a, ifs) == Done
    ensures var e := AccessHalf(a, ifs, ai, hi);
            && e.rx == a.access && e.txSw == a.handoff.sw && e.accessSide && e.peer == hi && e.circuit == ai
            && e.enabled == a.enabled && e.transparent == a.transparent && (e.wildcard <==> a.access.cvlan == 0xFFFF)
            && e.tx.svlan == (if a.transparent then 0 else a.handoff.svlan)
            && e.tx.cvlan == (if a.transparent || a.handoff.cvlan == 0xFFFF then 0 else a.handoff.cvlan)
            && e.tx.tpid == (if a.handoffTpid == 0 then 0x88A8 else a.handoffTpid)
            && (e.tx.mode.Transparent? <==> a.transparent)
            && (e.tx.mode.Wildcard? <==> !a.transparent && a.access.cvlan == 0xFFFF)
    ensures var e := HandoffHalf(a, ifs, ai, hi);
            && e.rx == a.handoff && e.txSw == a.access.sw && !e.accessSide && e.peer == ai && e.circuit == ai
            && e.enabled == a.enabled && e.transparent == a.transparent && (e.wildcard <==> a.access.cvlan == 0xFFFF)
            && e.tx.svlan == (if a.transparent then 0 else a.access.svlan)
            && e.tx.cvlan == (if a.transparent || a.access.cvlan == 0xFFFF then 0 else a.access.cvlan)
            && e.tx.tpid == (if a.accessTpid == 0 then 0x88A8 else a.accessTpid)
            && e.tx.mode == AccessHalf(a, ifs, ai, hi).tx.mode
  {
  }

  /** Entries and table match one to one by receive key; entries come in mutual pairs with one circuit
      number, that of the access side. */
  ghost predicate Consistent(es: map<int, Half>, table: map<Key, int>) {
    && (forall i :: i in es ==> es[i].rx in table && table[es[i].rx] == i)
    && (forall k :: k in table ==> table[k] in es && es[table[k]].rx == k)
    && (forall i :: i in es ==> Paired(es, i))
  }

  ghost predicate Paired(es: map<int, Half>, i: int)
    requires i in es
  {
    var p := es[i].peer;
    && p in es && p != i && es[p].peer == i && es[p].circuit == es[i].circuit
    && es[i].accessSide != es[p].accessSide && (es[i].accessSide ==> es[i].circuit == i)
    && es[i].txSw == es[p].rx.sw && es[i].tx.mode == es[p].tx.mode
  }

  /** A pair keeps the table one to one exactly when its two keys differ: nothing checks that they do,
      and with equal keys the second installation hides the first entry. */
  lemma PairFitsIff(es: map<int, Half>, table: map<Key, int>, a: Args, ifs: set<int>, ai: int, hi: int)
    requires Consistent(es, table) && Plausible(a) && Validate(a, ifs) == Done
    requires ai !in es && hi !in es && ai != hi && a.access !in table && a.handoff !in table
    ensures Consistent(es[ai := AccessHalf(a, ifs, ai, hi)][hi := HandoffHalf(a, ifs, ai, hi)],
        table[a.access := ai][a.handoff := hi])
       <==> a.access != a.handoff
  {
    var es', t' := es[ai := AccessHalf(a, ifs, ai, hi)][hi := HandoffHalf(a, ifs, ai, hi)],
        table[a.access := ai][a.handoff := hi];
    assert ai in es' && es'[ai].rx == a.access;
    if a.access != a.handoff {
      forall i | i in es'
        ensures es'[i].rx in t' && t'[es'[i].rx] == i && Paired(es', i)
      {
        if i in es { assert Paired(es, i); }
      }
    }
  }

  /** A circuit from an identifier to itself is accepted, and no key leads to its access half. */
  lemma EqualKeysHideAccess()
    ensures var k := Key(1, 100, 0);
            var a := Args(k, VLAN, k, VLAN, false, true);
            && Plausible(a) && Validate(a, {1}) == Done
            && var es := map[10 := AccessHalf(a, {1}, 10, 11), 11 := HandoffHalf(a, {1}, 10, 11)];
               var t := map[a.access := 10][a.handoff := 11];
               !Consistent(es, t) && forall x :: x in t ==> t[x] != 10
  {
    var k := Key(1, 100, 0);
    var a := Args(k, VLAN, k, VLAN, false, true);
    var es := map[10 := AccessHalf(a, {1}, 10, 11), 11 := HandoffHalf(a, {1}, 10, 11)];
    var t := map[a.access := 10][a.handoff := 11];
    assert 10 in es && es[10].rx == k && t[k] == 11;
  }

  /** The two halves of an exact circuit undo each other. A frame with the access identifiers leaves the
      far side with the handoff identifiers, so that the peer finds it, and comes back with its
      addresses, identifiers and payload. Two kinds of frame are exceptions: one whose payload itself
      begins with a tag, unless the handoff carries two tags, and one with a priority tag, which comes
      back shorter by that tag. */
  lemma CircuitRoundTrip(a: Args, ifs: set<int>, ai: int, hi: int, f: seq<u8>)
    requires Plausible(a) && Validate(a, ifs) == Done && ModeOf(a).Exact? && |f| >= MIN_FRAME + 16
    requires Parse(f).svlan == a.access.svlan && Parse(f).cvlan == a.access.cvlan
    requires TagCount(a.handoff.svlan, a.handoff.cvlan) == 2 || !IsTag(TypeAfter(f, Parse(f).n))
    ensures var t, n := Parse(f), TagCount(a.access.svlan, a.access.cvlan);
            && n <= t.n <= 2 && t.outerPrio % 0x1000 == 0 && t.innerPrio % 0x1000 == 0
            && var g := Rebuilt(f, AccessHalf(a, ifs, ai, hi).tx, t);
               && |g| >= MIN_FRAME + 8
               && var u := Parse(g);
                  && Key(a.handoff.sw, u.svlan, u.cvlan) == a.handoff && HandoffHalf(a, ifs, ai, hi).rx == a.handoff
                  && u.n <= 2 && u.outerPrio % 0x1000 == 0 && u.innerPrio % 0x1000 == 0
                  && var h := Rebuilt(g, HandoffHalf(a, ifs, ai, hi).tx, u);
                     && (|h| == |f| <==> !(t.n >= 1 && t.svlan == 0) && !(t.n == 2 && t.cvlan == 0))
                     && h[..MACS] == f[..MACS] && h[MACS + 4 * n..] == f[MACS + 4 * t.n..]
                     && (n == 2 || !IsTag(TypeAfter(f, t.n)) ==>
                           Key(a.access.sw, Parse(h).svlan, Parse(h).cvlan) == a.access && Parse(h).n == n)
  {
    PeerRestores(f, AccessHalf(a, ifs, ai, hi).tx, HandoffHalf(a, ifs, ai, hi).tx);
    NullTagIff(f);
    hide Rebuilt, Parse;
  }

  lemma RemovePair(es: map<int, Half>, table: map<Key, int>, i: int)
    requires Consistent(es, table) && i in es
    ensures Paired(es, i) && Consistent(es - {i, es[i].peer}, table - {es[i].rx, es[es[i].peer].rx})
  {
  }

  lemma PeerIsLive(es: map<int, Half>, table: map<Key, int>, i: int)
    requires Consistent(es, table) && i in es
    ensures es[i].peer in es && es[i].peer != i
  {
    assert Paired(es, i);
  }

  /** Enabling and disabling entries disturbs no pairing. */
  lemma EnablingKeeps(es: map<int, Half>, es': map<int, Half>, table: map<Key, int>)
    requires Consistent(es, table) && es'.Keys == es.Keys
    requires forall i :: i in es ==> es'[i] == es[i].(enabled := es'[i].enabled)
    ensures Consistent(es', table)
  {
    forall i | i in es'
      ensures Paired(es', i)
    {
      assert Paired(es, i);
    }
  }

  class Gateway {
    var entries: map<int, Half>
    var table: map<Key, int>

    ghost predicate Valid()
      reads this
    {
      Consistent(entries, table)
    }

    constructor ()
      ensures Valid() && entries == map[]
    {
      entries, table := map[], map[];
    }

    /** Whether an existing pair is what these arguments would install. */
    predicate Matches(e: Half, p: Half, a: Args, ifs: set<int>)
      requires Plausible(a) && Validate(a, ifs) == Done
    {
      && e.txSw == a.handoff.sw && e.tx == Emission(a, ifs, a.handoff, a.handoffTpid)
      && p.tx == Emission(a, ifs, a.access, a.accessTpid)
      && e.wildcard == (a.access.cvlan == ANY) && e.transparent == a.transparent && p.rx == a.handoff
    }

    /** A repeat of an access key agrees exactly when its handoff, its mode and both outer types are the same,
        an outer type not given being 0x88A8; whether it is enabled is not compared. */
    lemma AgreesIff(a: Args, b: Args, ifs: set<int>, ai: int, hi: int)
      requires Plausible(a) && Validate(a, ifs) == Done && Plausible(b) && Validate(b, ifs) == Done
      requires a.access == b.access
      ensures Matches(AccessHalf(a, ifs, ai, hi), HandoffHalf(a, ifs, ai, hi), b, ifs) <==>
                && a.handoff == b.handoff && a.transparent == b.transparent
                && (if a.accessTpid == 0 then 0x88A8 else a.accessTpid) ==
                   (if b.accessTpid == 0 then 0x88A8 else b.accessTpid)
                && (if a.handoffTpid == 0 then 0x88A8 else a.handoffTpid) ==
                   (if b.handoffTpid == 0 then 0x88A8 else b.handoffTpid)
    {
    }

    /** The add half of vnet_l2gw_add_del_circuit. A repeated add that agrees changes nothing; one that
        differs, or whose handoff key is taken, is refused. */
    method Add(a: Args, ifs: set<int>, ai: int, hi: int) returns (v: Verdict, circuit: int)
      requires Valid() && Plausible(a) && ai !in entries && hi !in entries && ai != hi
      modifies this
      ensures a.access in old(table) ==>
                old(table)[a.access] in old(entries) && old(entries)[old(table)[a.access]].peer in old(entries)
      ensures v == if Validate(a, ifs) != Done then Validate(a, ifs)
                   else if a.access in old(table) then
                     var e := old(entries)[old(table)[a.access]];
                     if Matches(e, old(entries)[e.peer], a, ifs) then Done else NeedsRefresh
                   else if a.handoff in old(table) then ValueExists else Done
      ensures v != Done || a.access in old(table) ==> entries == old(entries) && table == old(table)
      ensures Validate(a, ifs) == Done && a.access in old(table) ==>
          circuit == old(entries)[old(table)[a.access]].circuit
      ensures v == Done && a.access !in old(table) ==>
                && Validate(a, ifs) == Done && circuit == ai
                && entries == old(entries)[ai := AccessHalf(a, ifs, ai, hi)][hi := HandoffHalf(a, ifs, ai, hi)]
                && table == old(table)[a.access := ai][a.handoff := hi]
      ensures a.access != a.handoff ==> Valid()
      ensures v == Done && a.access !in old(table) ==> (Valid() <==> a.access != a.handoff)
    {
      circuit := -1;
      v := Validate(a, ifs);
      assert a.access in table ==> Paired(entries, table[a.access]);
      if v != Done { return; }
      if a.access in table {
        var e := entries[table[a.access]];
        circuit := e.circuit;
        if !Matches(e, entries[e.peer], a, ifs) { v := NeedsRefresh; }
        return;
      }
      if a.handoff in table { return ValueExists, circuit; }
      PairFitsIff(entries, table, a, ifs, ai, hi);
      entries := entries[ai := AccessHalf(a, ifs, ai, hi)][hi := HandoffHalf(a, ifs, ai, hi)];
      table := table[a.access := ai][a.handoff := hi];
      circuit := ai;
    }

    /** Adding the same circuit again, as often as one likes, changes nothing and names the same circuit. */
    method AddTwice(a: Args, ifs: set<int>, ai: int, hi: int, aj: int, hj: int)
      returns (v: Verdict, circuit: int, again: Verdict, same: int)
      requires Valid() && Plausible(a) && ai !in entries && hi !in entries && ai != hi && a.access != a.handoff
      requires aj !in entries && hj !in entries && aj != hj && {aj, hj} !! {ai, hi}
      modifies this
      ensures Valid()
      ensures v == Done ==> again == Done && same == circuit
      ensures v != Done ==> again == v
    {
      v, circuit := Add(a, ifs, ai, hi);
      ghost var es, t := entries, table;
      again, same := Add(a, ifs, aj, hj);
      assert v == Done ==> entries == es && table == t;
    }

    /** The delete half: both directions go together. */
    method Delete(a: Args, ifs: set<int>) returns (v: Verdict, circuit: int)
      requires Valid()
      modifies this
      ensures Valid()
      ensures Validate(a, ifs) != Done ==> v == Validate(a, ifs)
      ensures Validate(a, ifs) == Done ==>
          (v == NoSuchEntry <==> a.access !in old(table)) && (v == Done <==> a.access in old(table))
      ensures v != Done ==> entries == old(entries) && table == old(table)
      ensures v == Done ==>
                var i := old(table)[a.access];
                && i in old(entries) && old(entries)[i].peer in old(entries)
                && entries == old(entries) - {i, old(entries)[i].peer}
                && table == old(table) - {a.access, old(entries)[old(entries)[i].peer].rx}
    {
      circuit := -1;
      v := Validate(a, ifs);
      if v != Done { return; }
      if a.access !in table { return NoSuchEntry, circuit; }
      var i := table[a.access];
      RemovePair(entries, table, i);
      var e := entries[i];
      var p := entries[e.peer];
      table := table - {e.rx, p.rx};
      circuit := e.circuit;
      entries := entries - {i, e.peer};
    }

    /** The node's choice for a frame: the exact key, then, for a frame with an outer identifier, the
        wildcard key; and a disabled entry switches nothing. */
    method Lookup(sw: int, svlan: int, cvlan: int) returns (found: bool, i: int, matched: bool)
      requires Valid()
      ensures found ==> i in entries
      ensures if Key(sw, svlan, cvlan) in table then found && entries[i].rx == Key(sw, svlan, cvlan)
              else if svlan != 0 && Key(sw, svlan, ANY) in table then found && entries[i].rx == Key(sw, svlan, ANY)
              else !found
      ensures !found <==> forall x :: x in entries ==>
                            entries[x].rx != Key(sw, svlan, cvlan)
                                && !(svlan != 0 && entries[x].rx == Key(sw, svlan, ANY))
      ensures matched <==> found && entries[i].enabled
    {
      found, i := false, -1;
      if Key(sw, svlan, cvlan) in table {
        found, i := true, table[Key(sw, svlan, cvlan)];
      } else if svlan != 0 && Key(sw, svlan, ANY) in table {
        found, i := true, table[Key(sw, svlan, ANY)];
      }
      matched := found && entries[i].enabled;
    }

    /** Every entry of the pool changes state. */
    method SetAll(enabled: bool)
      requires Valid()
      modifies `entries
      ensures Valid() && entries.Keys == old(entries.Keys)
      ensures forall i :: i in entries ==> entries[i] == old(entries)[i].(enabled := enabled)
    {
      ghost var es := entries;
      var todo := entries.Keys;
      while todo != {}
        invariant entries.Keys == es.Keys && todo <= es.Keys
        invariant forall i :: i in es ==> entries[i] == if i in todo then es[i] else es[i].(enabled := enabled)
        decreases todo
      {
        var i := Sums.AnyOf(todo);
        entries := entries[i := entries[i].(enabled := enabled)];
        todo := todo - {i};
      }
      EnablingKeeps(es, entries, table);
    }

    /** vnet_l2gw_circuit_set_state: all circuits, or both directions of one, or none. */
    method SetState(circuit: int, enabled: bool) returns (ok: bool)
      requires Valid()
      modifies `entries
      ensures Valid() && entries.Keys == old(entries.Keys)
      ensures ok <==> circuit == ALL || (circuit in old(entries) && old(entries)[circuit].accessSide)
      ensures ok && circuit != ALL ==> old(entries)[circuit].peer in old(entries)
      ensures forall i :: i in entries ==>
                entries[i] == if circuit == ALL || (ok && i in {circuit, old(entries)[circuit].peer})
                              then old(entries)[i].(enabled := enabled) else old(entries)[i]
    {
      if circuit == ALL {
        SetAll(enabled);
        return true;
      }
      if circuit !in entries || !entries[circuit].accessSide { return false; }
      PeerIsLive(entries, table, circuit);
      hide Consistent;
      var p := entries[circuit].peer;
      entries := entries[circuit := entries[circuit].(enabled := enabled)];
      entries := entries[p := entries[p].(enabled := enabled)];
      EnablingKeeps(old(entries), entries, table);
      ok := true;
    }
  }
}
