/** The layer-2 gateway's in-place VLAN rewrite, byte by byte: only the address block moves, and the result
    is the frame rebuilt from its addresses, the new tag stack, and everything from the payload's
    ethertype on. */
module TagRewrite {

  type u8 = x: int | 0 <= x < 0x100
  type u16 = x: int | 0 <= x < 0x1_0000

  const VLAN: u16 := 0x8100
  const DOT1AD: u16 := 0x88A8
  const VLAN_9100: u16 := 0x9100
  const MACS: int := 12

  /** The bytes parsing may look at: addresses, two tags and an ethertype. */
  const MIN_FRAME: int := 22

  predicate IsTag(t: u16) { t == VLAN || t == DOT1AD || t == VLAN_9100 }

  function Read16(f: seq<u8>, i: nat): u16
    requires i + 2 <= |f|
  {
    var hi: int := f[i];
    hi * 0x100 + f[i + 1]
  }

  function Bytes16(v: u16): seq<u8> { [v / 0x100, v % 0x100] }

  /** Identifier and priority bits of a tag control field. */
  function Vid(tci: u16): u16 { tci % 0x1000 }

  function Prio(tci: u16): u16 { tci - tci % 0x1000 }

  datatype Tags = Tags(n: nat, svlan: u16, cvlan: u16, outerPrio: u16, innerPrio: u16)

  /** l2gw_parse_tags. */
  function Parse(f: seq<u8>): Tags
    requires |f| >= MIN_FRAME
  {
    if !IsTag(Read16(f, 12)) then Tags(0, 0, 0, 0, 0)
    else if !IsTag(Read16(f, 16)) then Tags(1, Vid(Read16(f, 14)), 0, Prio(Read16(f, 14)), 0)
    else Tags(2, Vid(Read16(f, 14)), Vid(Read16(f, 18)), Prio(Read16(f, 14)), Prio(Read16(f, 18)))
  }

  /** What an entry writes. */
  datatype Mode = Exact | Wildcard | Transparent

  datatype Entry = Entry(svlan: u16, cvlan: u16, tpid: u16, mode: Mode)

  /** An accepted entry: identifiers of 12 bits, no inner tag without an outer one, one of the two outer
      tag types. */
  predicate Accepted(e: Entry) {
    e.svlan < 0x1000 && e.cvlan < 0x1000 && (e.cvlan != 0 ==> e.svlan != 0) && (e.tpid == VLAN || e.tpid == DOT1AD)
  }

  function TagCount(svlan: u16, cvlan: u16): nat { (if svlan != 0 then 1 else 0) + (if cvlan != 0 then 1 else 0) }

  /** The tag stack as it appears on the wire. */
  function Stack(n: nat, tpid: u16, outer: u16, inner: u16): seq<u8> {
    if n == 0 then []
    else if n == 1 then Bytes16(tpid) + Bytes16(outer)
    else Bytes16(tpid) + Bytes16(outer) + Bytes16(VLAN) + Bytes16(inner)
  }

  function Joined(prio: u16, vid: u16): u16
    requires vid < 0x1000 && prio % 0x1000 == 0
  {
    prio + vid
  }

  lemma JoinedParts(prio: u16, vid: u16)
    requires vid < 0x1000 && prio % 0x1000 == 0
    ensures Vid(Joined(prio, vid)) == vid && Prio(Joined(prio, vid)) == prio
  {
  }

  /** The frame rebuilt: addresses, new stack, and the rest from the payload's ethertype on. */
  function Rebuilt(f: seq<u8>, e: Entry, t: Tags): seq<u8>
    requires |f| >= MIN_FRAME && t.n <= 2 && Accepted(e) && t.outerPrio % 0x1000 == 0 && t.innerPrio % 0x1000 == 0
  {
    f[..MACS] + Stack(TagCount(e.svlan, e.cvlan), e.tpid, Joined(t.outerPrio, e.svlan), Joined(t.innerPrio, e.cvlan))
        + f[MACS + 4 * t.n..]
  }

  /** Only the first tag changes. */
  function Translated(f: seq<u8>, e: Entry, t: Tags): seq<u8>
    requires |f| >= MIN_FRAME && Accepted(e) && t.outerPrio % 0x1000 == 0
  {
    f[..MACS] + Bytes16(e.tpid) + Bytes16(Joined(t.outerPrio, e.svlan)) + f[MACS + 4..]
  }

  /** A stretch of the buffer was replaced, and nothing else. */
  ghost predicate Patched(b0: seq<u8>, b1: seq<u8>, at: nat, mid: seq<u8>) {
    && |b1| == |b0| && at + |mid| <= |b0|
    && b1[..at] == b0[..at] && b1[at..at + |mid|] == mid && b1[at + |mid|..] == b0[at + |mid|..]
  }

  /** Two adjacent patches are one. */
  lemma PatchedTwice(b0: seq<u8>, b1: seq<u8>, b2: seq<u8>, at: nat, m1: seq<u8>, m2: seq<u8>)
    requires Patched(b0, b1, at, m1) && Patched(b1, b2, at + |m1|, m2)
    ensures Patched(b0, b2, at, m1 + m2)
  {
    forall k | 0 <= k < |b0|
      ensures k < at ==> b2[k] == b0[k]
      ensures at <= k < at + |m1| ==> b2[k] == m1[k - at]
      ensures at + |m1| <= k < at + |m1| + |m2| ==> b2[k] == m2[k - at - |m1|]
      ensures at + |m1| + |m2| <= k ==> b2[k] == b0[k]
    {
      PatchedAt(b0, b1, at, m1, k);
      PatchedAt(b1, b2, at + |m1|, m2, k);
    }
  }

  lemma PatchedAt(b0: seq<u8>, b1: seq<u8>, at: nat, mid: seq<u8>, k: nat)
    requires Patched(b0, b1, at, mid) && k < |b0|
    ensures b1[k] == if at <= k < at + |mid| then mid[k - at] else b0[k]
  {
    if k < at {
      assert b1[k] == b1[..at][k] && b0[k] == b0[..at][k];
    } else if k < at + |mid| {
      assert b1[k] == b1[at..at + |mid|][k - at];
    } else {
      assert b1[k] == b1[at + |mid|..][k - at - |mid|] && b0[k] == b0[at + |mid|..][k - at - |mid|];
    }
  }

  /** One tag's four bytes: its type field and its control field. */
  method PutTag(buf: array<u8>, at: nat, tpid: u16, tci: u16)
    requires at + 4 <= buf.Length
    modifies buf
    ensures Patched(old(buf[..]), buf[..], at, Bytes16(tpid) + Bytes16(tci))
  {
    buf[at] := tpid / 0x100;
    buf[at + 1] := tpid % 0x100;
    buf[at + 2] := tci / 0x100;
    buf[at + 3] := tci % 0x100;
  }

  /** The new tags, outermost first; the inner tag's type is always plain VLAN. */
  method WriteStack(buf: array<u8>, at: nat, n: nat, tpid: u16, outer: u16, inner: u16)
    requires n <= 2 && at + 4 * n <= buf.Length
    modifies buf
    ensures Patched(old(buf[..]), buf[..], at, Stack(n, tpid, outer, inner))
  {
    ghost var b0 := buf[..];
    if n == 0 { return; }
    PutTag(buf, at, tpid, outer);
    if n == 2 {
      ghost var b1 := buf[..];
      PutTag(buf, at + 4, VLAN, inner);
      hide Patched, Bytes16;
      PatchedTwice(b0, b1, buf[..], at, Bytes16(tpid) + Bytes16(outer), Bytes16(VLAN) + Bytes16(inner));
      assert Stack(n, tpid, outer, inner) == (Bytes16(tpid) + Bytes16(outer)) + (Bytes16(VLAN) + Bytes16(inner));
    }
  }

  /** The address block is copied out and back where the frame now starts. */
  method MoveMacs(buf: array<u8>, from: nat, to: nat)
    requires from + MACS <= buf.Length && to + MACS <= buf.Length
    modifies buf
    ensures Patched(old(buf[..]), buf[..], to, old(buf[..])[from..from + MACS])
  {
    var block := new u8[12];
    for i := 0 to 12
      invariant buf[..] == old(buf[..])
      invariant forall k :: 0 <= k < i ==> block[k] == buf[from + k]
    {
      block[i] := buf[from + i];
    }
    for i := 0 to 12
      invariant forall k :: 0 <= k < 12 ==> block[k] == old(buf[from + k])
      invariant forall k :: 0 <= k < buf.Length ==> buf[k] == if to <= k < to + i then block[k - to] else old(buf[k])
    {
      buf[to + i] := block[i];
    }
  }

  /** A patched tag after a moved address block: the frame is its addresses, the new tags, and the rest
      from the payload's ethertype on, and nothing behind it changed. */
  lemma Edited(b0: seq<u8>, b1: seq<u8>, b2: seq<u8>, cur: nat, len: nat, cur': nat, nrx: nat, stack: seq<u8>)
    requires cur + len <= |b0| && len >= MIN_FRAME && nrx <= 2 && |stack| <= 8 && cur' + |stack| == cur + 4 * nrx
    requires if cur' == cur then b1 == b0 else Patched(b0, b1, cur', b0[cur..cur + MACS])
    requires Patched(b1, b2, cur' + MACS, stack)
    ensures |b2| == |b0| && b2[cur'..cur + len] == b0[cur..cur + len][..MACS] + stack
        + b0[cur..cur + len][MACS + 4 * nrx..]
    ensures b2[cur + len..] == b0[cur + len..]
  {
    forall k | 0 <= k < |b0|
      ensures cur' <= k < cur' + MACS ==> b2[k] == b0[k - cur' + cur]
      ensures cur' + MACS <= k < cur' + MACS + |stack| ==> b2[k] == stack[k - cur' - MACS]
      ensures cur' + MACS + |stack| <= k ==> b2[k] == b0[k]
    {
      if cur' != cur { PatchedAt(b0, b1, cur', b0[cur..cur + MACS], k); }
      PatchedAt(b1, b2, cur' + MACS, stack, k);
    }
    hide Patched;
    var f, g := b0[cur..cur + len], b2[cur'..cur + len];
    var h := f[..MACS] + stack + f[MACS + 4 * nrx..];
    assert |g| == |h|;
    forall k | 0 <= k < |g|
      ensures g[k] == h[k]
    {
      assert g[k] == b2[cur' + k];
      if k >= MACS + |stack| { assert h[k] == f[k - |stack| + 4 * nrx]; }
    }
  }

  /** The exact circuit's rewrite: move the address block when the number of tags changes, then write
      the tags. */
  method RewriteExact(buf: array<u8>, cur: nat, len: nat, e: Entry, t: Tags) returns (cur': nat, len': nat)
    requires cur + len <= buf.Length && len >= MIN_FRAME && 8 <= cur && Accepted(e)
    requires t.n <= 2 && t.outerPrio % 0x1000 == 0 && t.innerPrio % 0x1000 == 0
    modifies buf
    ensures cur' + len' == cur + len && buf[..][cur + len..] == old(buf[..])[cur + len..]
    ensures buf[..][cur'..cur' + len'] == Rebuilt(old(buf[..])[cur..cur + len], e, t)
  {
    hide Patched;
    ghost var b0 := buf[..];
    var n := TagCount(e.svlan, e.cvlan);
    cur', len' := cur, len;
    if n != t.n {
      cur' := cur - 4 * (n - t.n);
      len' := len + 4 * (n - t.n);
      MoveMacs(buf, cur, cur');
    }
    ghost var b1 := buf[..];
    WriteStack(buf, cur' + MACS, n, e.tpid, Joined(t.outerPrio, e.svlan), Joined(t.innerPrio, e.cvlan));
    Edited(b0, b1, buf[..], cur, len, cur', t.n, Stack(n, e.tpid, Joined(t.outerPrio, e.svlan),
        Joined(t.innerPrio, e.cvlan)));
  }

  /** A wildcard circuit's: the outer tag is translated where it stands. */
  method RewriteWildcard(buf: array<u8>, cur: nat, len: nat, e: Entry, t: Tags)
    requires cur + len <= buf.Length && len >= MIN_FRAME && Accepted(e) && t.outerPrio % 0x1000 == 0
    modifies buf
    ensures buf[..][cur + len..] == old(buf[..])[cur + len..]
    ensures buf[..][cur..cur + len] == Translated(old(buf[..])[cur..cur + len], e, t)
  {
    hide Patched;
    ghost var b0 := buf[..];
    PutTag(buf, cur + MACS, e.tpid, Joined(t.outerPrio, e.svlan));
    Edited(b0, b0, buf[..], cur, len, cur, 1, Bytes16(e.tpid) + Bytes16(Joined(t.outerPrio, e.svlan)));
    var f := b0[cur..cur + len];
    assert f[..MACS] + (Bytes16(e.tpid) + Bytes16(Joined(t.outerPrio, e.svlan))) + f[MACS + 4..] == Translated(f, e, t);
  }

  /** l2gw_rewrite on the frame of len bytes that starts at cur; returns where it starts and how long it
      is afterwards. Growth uses the headroom before the frame. */
  method Rewrite(buf: array<u8>, cur: nat, len: nat, e: Entry, t: Tags) returns (cur': nat, len': nat)
    requires cur + len <= buf.Length && len >= MIN_FRAME && 8 <= cur && Accepted(e)
    requires t == Parse(buf[..][cur..cur + len]) && (e.mode.Wildcard? ==> t.n >= 1)
    modifies buf
    ensures t.n <= 2 && t.outerPrio % 0x1000 == 0 && t.innerPrio % 0x1000 == 0
    ensures cur' + len' == cur + len && buf[..][cur + len..] == old(buf[..])[cur + len..]
    ensures e.mode.Exact? ==> buf[..][cur'..cur' + len'] == Rebuilt(old(buf[..])[cur..cur + len], e, t)
    ensures e.mode.Wildcard? ==>
        cur' == cur && buf[..][cur'..cur' + len'] == Translated(old(buf[..])[cur..cur + len], e, t)
    ensures e.mode.Transparent? ==> cur' == cur && buf[..] == old(buf[..])
  {
    ParseShape(buf[..][cur..cur + len]);
    hide Parse;
    cur', len' := cur, len;
    match e.mode
    case Transparent =>
    case Wildcard => RewriteWildcard(buf, cur, len, e, t);
    case Exact => cur', len' := RewriteExact(buf, cur, len, e, t);
  }

  lemma ParseShape(f: seq<u8>)
    requires |f| >= MIN_FRAME
    ensures var t := Parse(f);
            && t.n <= 2 && t.outerPrio % 0x1000 == 0 && t.innerPrio % 0x1000 == 0 && t.svlan < 0x1000
               && t.cvlan < 0x1000
            && (t.n == 0 ==> t.svlan == 0 && t.outerPrio == 0) && (t.n < 2 ==> t.cvlan == 0 && t.innerPrio == 0)
  {
  }

  /** The parse byte by byte: a tag is announced by one of three types, its control field has the
      priority in the high four bits and the identifier below, and a second tag counts after a first. */
  lemma ParseIs(f: seq<u8>)
    requires |f| >= 22
    ensures var first := (f[12], f[13]) in {(0x81, 0x00), (0x88, 0xA8), (0x91, 0x00)};
            var second := (f[16], f[17]) in {(0x81, 0x00), (0x88, 0xA8), (0x91, 0x00)};
            var hi1: int, lo1: int, hi2: int, lo2: int := f[14], f[15], f[18], f[19];
            var t := Parse(f);
            && t.n == (if !first then 0 else if !second then 1 else 2)
            && t.svlan == (if t.n >= 1 then hi1 % 0x10 * 0x100 + lo1 else 0)
            && t.outerPrio == (if t.n >= 1 then hi1 / 0x10 * 0x1000 else 0)
            && t.cvlan == (if t.n == 2 then hi2 % 0x10 * 0x100 + lo2 else 0)
            && t.innerPrio == (if t.n == 2 then hi2 / 0x10 * 0x1000 else 0)
  {
    ControlField(f, 14);
    ControlField(f, 18);
  }

  lemma ControlField(f: seq<u8>, i: nat)
    requires i + 2 <= |f|
    ensures var hi: int, lo: int := f[i], f[i + 1];
            Vid(Read16(f, i)) == hi % 0x10 * 0x100 + lo && Prio(Read16(f, i)) == hi / 0x10 * 0x1000
  {
    var hi: int, lo: int := f[i], f[i + 1];
    assert Read16(f, i) == hi / 0x10 * 0x1000 + (hi % 0x10 * 0x100 + lo);
  }

  // ---------------------------------------------------------------- the peer's rewrite

  lemma ReadBack(v: u16, s: seq<u8>, i: nat)
    requires i + 2 <= |s| && s[i..i + 2] == Bytes16(v)
    ensures Read16(s, i) == v
  {
    assert s[i] == s[i..i + 2][0] && s[i + 1] == s[i..i + 2][1];
  }

  /** The ethertype that follows n tags. */
  function TypeAfter(f: seq<u8>, n: nat): u16
    requires |f| >= MIN_FRAME && n <= 2
  {
    Read16(f, MACS + 4 * n)
  }

  /** A rebuilt frame, read at its fields. */
  lemma RebuiltFields(f: seq<u8>, e: Entry, t: Tags)
    requires |f| >= MIN_FRAME + 8 && t.n <= 2 && Accepted(e) && t.outerPrio % 0x1000 == 0 && t.innerPrio % 0x1000 == 0
    ensures var g, n := Rebuilt(f, e, t), TagCount(e.svlan, e.cvlan);
            && |g| == |f| + 4 * n - 4 * t.n >= MIN_FRAME && n <= 2
            && g[..MACS] == f[..MACS] && g[MACS + 4 * n..] == f[MACS + 4 * t.n..]
            && TypeAfter(g, n) == TypeAfter(f, t.n)
            && (n >= 1 ==> Read16(g, 12) == e.tpid && Read16(g, 14) == Joined(t.outerPrio, e.svlan))
            && (n == 2 ==> Read16(g, 16) == VLAN && Read16(g, 18) == Joined(t.innerPrio, e.cvlan))
  {
    var g, n := Rebuilt(f, e, t), TagCount(e.svlan, e.cvlan);
    assert g[MACS + 4 * n..][0] == f[MACS + 4 * t.n..][0] && g[MACS + 4 * n..][1] == f[MACS + 4 * t.n..][1];
    if n >= 1 {
      assert g[12..14] == Bytes16(e.tpid) && g[14..16] == Bytes16(Joined(t.outerPrio, e.svlan));
      ReadBack(e.tpid, g, 12);
      ReadBack(Joined(t.outerPrio, e.svlan), g, 14);
    }
    if n == 2 {
      assert g[16..18] == Bytes16(VLAN) && g[18..20] == Bytes16(Joined(t.innerPrio, e.cvlan));
      ReadBack(VLAN, g, 16);
      ReadBack(Joined(t.innerPrio, e.cvlan), g, 18);
    }
  }

  /** The far end parses the tags that were written, priorities kept, exactly when two tags were written
      or the payload does not itself begin with a tag. */
  lemma FarEndParsesIff(f: seq<u8>, e: Entry)
    requires |f| >= MIN_FRAME + 8 && Accepted(e)
    ensures var t := Parse(f);
            && t.n <= 2 && t.outerPrio % 0x1000 == 0 && t.innerPrio % 0x1000 == 0
            && var n := TagCount(e.svlan, e.cvlan);
               && |Rebuilt(f, e, t)| >= MIN_FRAME
               && (Parse(Rebuilt(f, e, t)) == Tags(n, e.svlan, e.cvlan, if n >= 1 then t.outerPrio else 0, if n == 2
                  then t.innerPrio else 0)
                   <==> (n == 2 || !IsTag(TypeAfter(f, t.n))))
  {
    ParseShape(f);
    var t := Parse(f);
    var g := Rebuilt(f, e, t);
    RebuiltFields(f, e, t);
    ParseWritten(g, e, t.outerPrio, t.innerPrio);
    hide Rebuilt, Parse, Read16, IsTag;
  }

  /** A frame of three tags, two of which are replaced by one: the far end takes the third for its own. */
  lemma TaggedPayloadIsMisread() returns (f: seq<u8>)
    ensures |f| == 60 && Parse(f) == Tags(2, 1, 2, 0, 0) && IsTag(TypeAfter(f, 2))
    ensures var e := Entry(5, 0, VLAN, Exact);
            Accepted(e) && |Rebuilt(f, e, Parse(f))| == 56 && Parse(Rebuilt(f, e, Parse(f))) == Tags(2, 5, 7, 0, 0)
  {
    f := seq(60, k => if k in {12, 16, 20} then 0x81 else if k == 15 then 1 else if k == 19 then 2
                      else if k == 23 then 7 else 0);
    assert Read16(f, 12) == VLAN && Read16(f, 14) == 1 && Read16(f, 16) == VLAN && Read16(f, 18) == 2;
    assert Read16(f, 20) == VLAN && Read16(f, 22) == 7;
    var g := Rebuilt(f, Entry(5, 0, VLAN, Exact), Parse(f));
    assert g == f[..12] + [0x81, 0, 0, 5] + f[20..];
    assert g[16..20] == f[20..24];
    assert Read16(g, 12) == VLAN && Read16(g, 14) == 5 && Read16(g, 16) == VLAN && Read16(g, 18) == 7;
  }

  /** A frame that begins with an entry's tags, parsed. */
  lemma ParseWritten(g: seq<u8>, e: Entry, op: u16, ip: u16)
    requires |g| >= MIN_FRAME && Accepted(e) && op % 0x1000 == 0 && ip % 0x1000 == 0
    requires var n := TagCount(e.svlan, e.cvlan);
             && (n >= 1 ==> Read16(g, 12) == e.tpid && Read16(g, 14) == Joined(op, e.svlan))
             && (n == 2 ==> Read16(g, 16) == VLAN && Read16(g, 18) == Joined(ip, e.cvlan))
    ensures var n := TagCount(e.svlan, e.cvlan);
            (Parse(g) == Tags(n, e.svlan, e.cvlan, if n >= 1 then op else 0, if n == 2 then ip else 0)) <==>
            (n == 2 || !IsTag(TypeAfter(g, n)))
  {
    JoinedParts(op, e.svlan);
    JoinedParts(ip, e.cvlan);
    hide Read16, Joined, Vid, Prio;
    var n := TagCount(e.svlan, e.cvlan);
    if n == 0 {
      assert TypeAfter(g, 0) == Read16(g, 12);
    } else if n == 1 {
      assert TypeAfter(g, 1) == Read16(g, 16);
    }
  }

  /** The two directions of a circuit undo each other. A frame that matches the access identifiers, and
      whose tags the far end can tell from its payload, comes back with its addresses, its identifiers
      and its payload, under as many tags as the identifiers ask for: the same length exactly when the
      frame had that many. Priorities survive where a tag carries them all the way. */
  lemma PeerRestores(f: seq<u8>, there: Entry, back: Entry)
    requires |f| >= MIN_FRAME + 16 && Accepted(there) && Accepted(back)
    requires Parse(f).svlan == back.svlan && Parse(f).cvlan == back.cvlan
    requires TagCount(there.svlan, there.cvlan) == 2 || !IsTag(TypeAfter(f, Parse(f).n))
    ensures var t, n := Parse(f), TagCount(back.svlan, back.cvlan);
            && n <= t.n <= 2 && t.outerPrio % 0x1000 == 0 && t.innerPrio % 0x1000 == 0
            && var g := Rebuilt(f, there, t);
               && |g| >= MIN_FRAME + 8
               && var u := Parse(g);
                  && u.n == TagCount(there.svlan, there.cvlan) && u.svlan == there.svlan && u.cvlan == there.cvlan
                  && u.outerPrio % 0x1000 == 0 && u.innerPrio % 0x1000 == 0
                  && var h := Rebuilt(g, back, u);
                     && |h| == |f| - 4 * t.n + 4 * n && (|h| == |f| <==> t.n == n)
                     && h[..MACS] == f[..MACS] && h[MACS + 4 * n..] == f[MACS + 4 * t.n..]
                     && (n == 2 || !IsTag(TypeAfter(f, t.n)) ==>
                           && Parse(h).n == n && Parse(h).svlan == t.svlan && Parse(h).cvlan == t.cvlan
                           && (n >= 1 && u.n >= 1 ==> Parse(h).outerPrio == t.outerPrio)
                           && (n == 2 && u.n == 2 ==> Parse(h).innerPrio == t.innerPrio))
  {
    ParseShape(f);
    var t := Parse(f);
    NullTagIff(f);
    FarEndParsesIff(f, there);
    RebuiltFields(f, there, t);
    var g := Rebuilt(f, there, t);
    var u := Parse(g);
    ParseShape(g);
    RebuiltFields(g, back, u);
    FarEndParsesIff(g, back);
    hide Rebuilt, Parse;
  }

  /** A frame has as many tags as its identifiers say exactly when none of its tags has identifier 0, as a
      priority tag has. */
  lemma NullTagIff(f: seq<u8>)
    requires |f| >= MIN_FRAME
    ensures var t := Parse(f);
            && TagCount(t.svlan, t.cvlan) <= t.n
            && (t.n == TagCount(t.svlan, t.cvlan) <==> !(t.n >= 1 && t.svlan == 0) && !(t.n == 2 && t.cvlan == 0))
  {
  }

  /** A priority-tagged frame matches the untagged circuit, and comes back without its tag. */
  lemma PriorityTagIsLost(there: Entry, back: Entry)
    returns (f: seq<u8>)
    requires Accepted(there) && Accepted(back) && back.svlan == 0
    ensures |f| == 60 && Parse(f) == Tags(1, 0, 0, 0xE000, 0)
    ensures var g := Rebuilt(f, there, Parse(f));
            && |g| >= MIN_FRAME && Parse(g).n <= 2 && Parse(g).outerPrio % 0x1000 == 0
               && Parse(g).innerPrio % 0x1000 == 0
            && |Rebuilt(g, back, Parse(g))| == 56
  {
    f := seq(60, k => if k == 12 then 0x81 else if k == 14 then 0xE0 else if k == 16 then 0x08 else 0);
    assert Read16(f, 12) == VLAN && Read16(f, 14) == 0xE000 && Read16(f, 16) == 0x0800;
    PeerRestores(f, there, back);
  }

  /** A wildcard circuit touches the outer tag alone: inner tags and payload pass, and the far end's
      rewrite brings the outer identifier back. */
  lemma WildcardRestores(f: seq<u8>, there: Entry, back: Entry)
    requires |f| >= MIN_FRAME && Accepted(there) && Accepted(back) && Parse(f).n >= 1 && back.svlan == Parse(f).svlan
    ensures var t := Parse(f);
            && t.outerPrio % 0x1000 == 0
            && var g := Translated(f, there, t);
               && |g| == |f| && g[..MACS] == f[..MACS] && g[16..] == f[16..]
               && Parse(g) == Tags(t.n, there.svlan, t.cvlan, t.outerPrio, t.innerPrio)
               && var h := Translated(g, back, Parse(g));
                  && |h| == |f| && h[..MACS] == f[..MACS] && h[16..] == f[16..] && Parse(h) == t
  {
    ParseShape(f);
    var t := Parse(f);
    var g := Translated(f, there, t);
    TranslatedParse(f, there);
    TranslatedParse(g, back);
    hide Translated, Parse;
  }

  lemma TranslatedParse(f: seq<u8>, e: Entry)
    requires |f| >= MIN_FRAME && Accepted(e) && Parse(f).n >= 1
    ensures var t := Parse(f);
            && t.outerPrio % 0x1000 == 0
            && var g := Translated(f, e, t);
               && |g| == |f| && g[..MACS] == f[..MACS] && g[16..] == f[16..]
               && Parse(g) == Tags(t.n, e.svlan, t.cvlan, t.outerPrio, t.innerPrio)
  {
    ParseShape(f);
    var t := Parse(f);
    var g := Translated(f, e, t);
    assert g[12..14] == Bytes16(e.tpid) && g[14..16] == Bytes16(Joined(t.outerPrio, e.svlan));
    assert g[16..] == f[16..];
    ReadBack(e.tpid, g, 12);
    ReadBack(Joined(t.outerPrio, e.svlan), g, 14);
    SameRead(f, g, 16);
    SameRead(f, g, 18);
    JoinedParts(t.outerPrio, e.svlan);
    hide Joined, Vid, Prio, Read16, Translated;
  }

  lemma SameRead(f: seq<u8>, g: seq<u8>, i: nat)
    requires |f| == |g| && 16 <= i && i + 2 <= |f| && g[16..] == f[16..]
    ensures Read16(g, i) == Read16(f, i)
  {
    assert g[i] == g[16..][i - 16] && f[i] == f[16..][i - 16];
    assert g[i + 1] == g[16..][i - 15] && f[i + 1] == f[16..][i - 15];
  }
}
