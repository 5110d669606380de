/** The slow path for ICMP errors, from the quoted packet through the session tables to the packet the
    sender of the error meant (sections 4.2.1 and 4.2.2 of RFC 5508). */
module ErrorPath {
  import opened Checksum
  import opened Translate
  import opened IcmpError
  import S = CgnatStore

  function NumOf(a: Addr): S.u32 { a.hi * 0x1_0000 + a.lo }

  function FromNum(n: S.u32): Addr { Addr(n / 0x1_0000, n % 0x1_0000) }

  lemma FromNumOf(a: Addr)
    ensures FromNum(NumOf(a)) == a && NumOf(a) / 0x1_0000 == a.hi && NumOf(a) % 0x1_0000 == a.lo
  {
  }

  /** The tuple a packet is looked up by, the end that is or was translated first. */
  function TupleOf(ip: seq<u16>, t: seq<u16>, near: Side, fib: int): S.Tuple
    requires |ip| >= IP_MIN && |t| >= 4
  {
    var n := Named(ip, t, near);
    S.Tuple(NumOf(n.near), NumOf(n.far), n.nearPort, n.farPort, n.proto, fib)
  }

  /** A packet of the session before its near end is translated, and after: in2out translates the
      source, out2in the destination. */
  function Before(s: S.Session, near: Side): S.Tuple { if near.Source? then s.i2o else s.o2i }

  function After(s: S.Session, near: Side): S.Tuple { if near.Source? then s.o2i else s.i2o }

  /** The direction of a session that writes one tuple's near end over the other's. */
  function FlowTo(sign: Sign, from: S.Tuple, to: S.Tuple): Flow {
    MakeFlow(sign, FromNum(from.saddr), FromNum(to.saddr), from.sport, to.sport, from.proto)
  }

  function Forward(sign: Sign, s: S.Session, near: Side): Flow { FlowTo(sign, Before(s, near), After(s, near)) }

  function Backward(sign: Sign, s: S.Session, near: Side): Flow { FlowTo(sign, After(s, near), Before(s, near)) }

  datatype Verdict = Truncated | NoSession | Reverted

  predicate Known(seg: seq<u16>)
    requires |seg| >= QUOTE + IP_MIN
  {
    ProtoOf(seg[QUOTE..]) in {TCP, UDP, ICMP}
  }

  /** The key a quote is looked up by. */
  function QuotedKey(seg: seq<u16>, bytes: nat, near: Side, fib: int): S.Key
    requires |seg| == (bytes + 1) / 2 && !Short(bytes, seg)
  {
    S.MakeKey(TupleOf(seg[QUOTE..], seg[QUOTE + HeaderWords(seg[QUOTE])..], near, fib))
  }

  /** What became of an error message. A quote that does not reach the fields read, of an unknown
      protocol, or of no session is refused and nothing is written; any other is put back. */
  ghost predicate Handled(ss: map<int, S.Session>, table: map<S.Key, int>, near: Side, sign: Sign, fib: int, bytes: nat,
                          outer: seq<u16>, seg: seq<u16>, v: Verdict, si: int, outer': seq<u16>, seg': seq<u16>)
    requires |seg| == (bytes + 1) / 2 && |outer| >= IP_MIN
  {
    && v == (if Short(bytes, seg) then Truncated
             else if !Known(seg) || QuotedKey(seg, bytes, near, fib) !in table then NoSession
             else Reverted)
    && (!v.Reverted? ==> outer' == outer && seg' == seg)
    && (v.Reverted? ==>
          && si == table[QuotedKey(seg, bytes, near, fib)] && si in ss
          && IpRewritten(outer, outer', Other(near), sign, Backward(sign, ss[si], near)) && SumOf(seg') % M == 0
          && (HeaderWords(seg[QUOTE]) >= IP_MIN ==>
                MessageReverted(seg, seg', HeaderWords(seg[QUOTE]), near, sign, Backward(sign, ss[si], near))))
  }

  function Table(st: S.Store, near: Side): map<S.Key, int>
    reads st`in2out, st`out2in
  {
    if near.Source? then st.out2in else st.in2out
  }

  /** The error branch of both slow nodes: an error from outside quotes what in2out sent, and is looked up
      in out2in; an error from the subscriber quotes what out2in delivered, and is looked up in in2out. */
  method SlowPath(st: S.Store, outer: array<u16>, seg: array<u16>, bytes: nat, near: Side, sign: Sign, fib: int)
    returns (v: Verdict, si: int)
    requires st.Valid() && outer != seg && outer.Length >= IP_MIN && seg.Length == (bytes + 1) / 2
    modifies outer, seg
    ensures Handled(st.sessions, Table(st, near), near, sign, fib, bytes, old(outer[..]), old(seg[..]), v, si,
        outer[..], seg[..])
  {
    hide MessageReverted, IpRewritten, S.Consistent;
    ghost var s0 := seg[..];
    si := -1;
    if bytes < 2 * (QUOTE + IP_MIN) { return Truncated, si; }
    if bytes < 2 * (QUOTE + HeaderWords(seg[QUOTE])) + 8 { return Truncated, si; }
    var q := seg[QUOTE..];
    assert q == s0[QUOTE..];
    var proto := ProtoOf(q);
    if proto != TCP && proto != UDP && proto != ICMP { return NoSession, si; }
    var t := seg[QUOTE + HeaderWords(seg[QUOTE])..];
    assert t == s0[QUOTE + HeaderWords(s0[QUOTE])..];
    var key := TupleOf(q, t, near, fib);
    if near.Source? {
      si := st.LookupOut2in(key);
    } else {
      si := st.LookupIn2out(key);
    }
    if si == -1 { return NoSession, si; }
    Revert(outer, seg, near, sign, Backward(sign, st.sessions[si], near));
    v := Reverted;
  }

  /** A quoted packet that a session translated is looked up as that session. */
  lemma QuoteNamesSession(s: S.Session, sign: Sign, near: Side, ip: seq<u16>, wireIp: seq<u16>, l4: seq<u16>,
                          wire: seq<u16>, q: seq<u16>, t: seq<u16>, fib: int)
    requires S.Twin(s) && |ip| >= IP_MIN && ProtoOf(ip) in {TCP, UDP, ICMP}
    requires |l4| >= L4Min(ProtoOf(ip)) && (ProtoOf(ip) == ICMP ==> Echo(l4))
    requires TupleOf(ip, l4, near, Before(s, near).fib) == Before(s, near)
    requires IpRewritten(ip, wireIp, near, sign, Forward(sign, s, near))
    requires L4Rewritten(l4, wire, ProtoOf(ip), near, sign, Forward(sign, s, near))
    requires |q| >= |ip| && q[..|ip|] == wireIp && |t| >= 4 && t[..4] == wire[..4]
    requires fib % 0x1_0000 == After(s, near).fib % 0x1_0000
    ensures S.MakeKey(TupleOf(q, t, near, fib)) == S.MakeKey(After(s, near))
    ensures AddrOf(ip, near) == FromNum(Before(s, near).saddr) && PortOf(l4, ProtoOf(ip), near) == Before(s, near).sport
    ensures q[0] == ip[0] && ProtoOf(q) == ProtoOf(ip) == Before(s, near).proto == After(s, near).proto
  {
    FromNumOf(AddrOf(ip, near));
    assert forall k :: 0 <= k < |ip| ==> q[k] == q[..|ip|][k] == wireIp[k];
    assert forall k :: 0 <= k < 4 ==> t[k] == t[..4][k] == wire[..4][k] == wire[k];
  }

  /** The quote of a session's packet is taken for what it is, and the message is reverted by that session. */
  lemma Recognised(ss: map<int, S.Session>, table: map<S.Key, int>, si: int, sign: Sign, near: Side,
                   ip: seq<u16>, l4: seq<u16>, wireIp: seq<u16>, wire: seq<u16>,
                   fib: int, bytes: nat, outer: seq<u16>, seg: seq<u16>, v: Verdict, found: int, outer': seq<u16>,
                   seg': seq<u16>)
    requires si in ss && S.Twin(ss[si])
    requires S.MakeKey(After(ss[si], near)) in table && table[S.MakeKey(After(ss[si], near))] == si
    requires |ip| >= IP_MIN && HeaderWords(ip[0]) == |ip| && ProtoOf(ip) in {TCP, UDP, ICMP}
    requires |l4| >= L4Min(ProtoOf(ip)) && (ProtoOf(ip) == ICMP ==> Echo(l4))
    requires TupleOf(ip, l4, near, Before(ss[si], near).fib) == Before(ss[si], near)
    requires IpRewritten(ip, wireIp, near, sign, Forward(sign, ss[si], near))
    requires L4Rewritten(l4, wire, ProtoOf(ip), near, sign, Forward(sign, ss[si], near))
    requires |seg| == (bytes + 1) / 2 && bytes >= 2 * (QUOTE + |ip|) + 8 && |outer| >= IP_MIN
    requires seg[QUOTE..][..|ip|] == wireIp && seg[QUOTE..][|ip|..][..4] == wire[..4]
    requires fib % 0x1_0000 == After(ss[si], near).fib % 0x1_0000
    requires Handled(ss, table, near, sign, fib, bytes, outer, seg, v, found, outer', seg')
    ensures v == Reverted && found == si && SumOf(seg') % M == 0 && ProtoOf(seg[QUOTE..]) == ProtoOf(ip)
    ensures MessageReverted(seg, seg', |ip|, near, sign, Backward(sign, ss[si], near))
    ensures AddrOf(ip, near) == FromNum(Before(ss[si], near).saddr)
        && PortOf(l4, ProtoOf(ip), near) == Before(ss[si], near).sport
    ensures ProtoOf(ip) == Before(ss[si], near).proto == After(ss[si], near).proto
  {
    var q := seg[QUOTE..];
    var t := q[|ip|..];
    QuoteNamesSession(ss[si], sign, near, ip, wireIp, l4, wire, q, t, fib);
    assert t == seg[QUOTE + |ip|..];
    hide IpRewritten, L4Rewritten, QuoteReverted, MessageReverted, AddEven, L3Delta, L4Delta, SumOf;
  }

  /** An error comes back to whom it concerns. A packet of a session is translated, its translated form is
      quoted, and the table leads from its key to the session: then the quote is recognised as that
      session's, the quoted header is the packet's own but for the representation of its checksum, the
      quoted bytes of TCP and UDP are exactly the packet's, those of an echo up to the representation of
      its checksum, and the message verifies. */
  lemma ErrorComesBack(ss: map<int, S.Session>, table: map<S.Key, int>, si: int, sign: Sign, near: Side,
                       ip: seq<u16>, l4: seq<u16>, wireIp: seq<u16>, wire: seq<u16>,
                       fib: int, bytes: nat, outer: seq<u16>, seg: seq<u16>, v: Verdict, found: int, outer': seq<u16>,
                   seg': seq<u16>)
    requires si in ss && S.Twin(ss[si])
    requires S.MakeKey(After(ss[si], near)) in table && table[S.MakeKey(After(ss[si], near))] == si
    requires |ip| >= IP_MIN && HeaderWords(ip[0]) == |ip| && ProtoOf(ip) in {TCP, UDP, ICMP}
    requires |l4| >= L4Min(ProtoOf(ip)) && (ProtoOf(ip) == ICMP ==> Echo(l4))
    requires TupleOf(ip, l4, near, Before(ss[si], near).fib) == Before(ss[si], near)
    requires IpRewritten(ip, wireIp, near, sign, Forward(sign, ss[si], near))
    requires L4Rewritten(l4, wire, ProtoOf(ip), near, sign, Forward(sign, ss[si], near))
    requires |seg| == (bytes + 1) / 2 && bytes >= 2 * (QUOTE + |ip|) + 8 && |outer| >= IP_MIN
    requires seg[QUOTE..][..|ip|] == wireIp && seg[QUOTE..][|ip|..][..4] == wire[..4]
    requires fib % 0x1_0000 == After(ss[si], near).fib % 0x1_0000
    requires Handled(ss, table, near, sign, fib, bytes, outer, seg, v, found, outer', seg')
    ensures v == Reverted && found == si && |seg'| == |seg| && SumOf(seg') % M == 0
    ensures var back := seg'[QUOTE..][..|ip|];
            && back == ip[IP_CSUM := back[IP_CSUM]] && back[IP_CSUM] % M == ip[IP_CSUM] % M
            && (IpOk(ip) ==> IpOk(back))
    ensures var back := seg'[QUOTE..][|ip|..][..4];
            if ProtoOf(ip) == ICMP then back == l4[..4][ICMP_CSUM := back[ICMP_CSUM]]
                && back[ICMP_CSUM] % M == l4[ICMP_CSUM] % M
            else back == l4[..4]
  {
    var s := ss[si];
    Recognised(ss, table, si, sign, near, ip, l4, wireIp, wire, fib, bytes, outer, seg, v, found, outer', seg');
    hide IpRewritten, L4Rewritten, QuoteReverted, AddEven, L3Delta, L4Delta, SumOf, Handled;
    var before, after := FromNum(Before(s, near).saddr), FromNum(After(s, near).saddr);
    var port, portAfter := Before(s, near).sport, After(s, near).sport;
    HeaderRestored(sign, near, ip, wireIp, seg'[QUOTE..][..|ip|], after, port, portAfter, ProtoOf(ip));
    PayloadRestored(sign, near, l4, wire, seg'[QUOTE..][|ip|..][..4], before, after, portAfter, ProtoOf(ip));
  }
}
