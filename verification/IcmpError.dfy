/** ICMP errors about translated packets (sections 4.2.1 and 4.2.2 of RFC 5508). The error quotes the
    header the translator wrote; the slow path names the session by it, puts the original header back,
    rewrites the outer header, and computes the ICMP checksum afresh. */
module IcmpError {
  import opened Checksum
  import opened Translate

  /** The quoted packet starts after the 8-byte ICMP header, here four words. */
  const QUOTE: int := 4

  /** Header length in words, from the low half of the first byte. */
  function HeaderWords(first: u16): nat { first / 0x100 % 0x10 * 2 }

  /** The quoted protocol, in the low byte of the fifth word. */
  function ProtoOf(q: seq<u16>): u16
    requires |q| >= 5
  {
    q[4] % 0x100
  }

  /** bytes counts from the ICMP header on; a message is short when its quote does not reach the quoted
      header, or the eight bytes after it. */
  predicate Short(bytes: nat, seg: seq<u16>)
    requires |seg| == (bytes + 1) / 2
  {
    bytes < 2 * (QUOTE + IP_MIN) || bytes < 2 * (QUOTE + HeaderWords(seg[QUOTE])) + 8
  }

  /** What names the session: in an error from outside the quoted source end is the outside end of the
      session, in one from the subscriber the quoted destination end is the inside end. */
  datatype Name = Name(near: Addr, far: Addr, nearPort: u16, farPort: u16, proto: u16)

  function Named(q: seq<u16>, t: seq<u16>, near: Side): Name
    requires |q| >= IP_MIN && |t| >= 4
  {
    Name(AddrOf(q, near), AddrOf(q, Other(near)), PortOf(t, ProtoOf(q), near), PortOf(t, ProtoOf(q), Other(near)),
        ProtoOf(q))
  }

  /** The words of a quote that name a session: the near end is the source address and port, or the
      destination's; an echo has its identifier for both ports; the header length counts 32-bit words. */
  lemma NamedIs(q: seq<u16>, t: seq<u16>, near: Side, ihl: nat, tos: nat, ttl: nat, proto: nat)
    requires |q| >= 10 && |t| >= 4 && ihl < 0x10 && tos < 0x100 && ttl < 0x100 && proto < 0x100
    requires q[0] == 0x4000 + ihl * 0x100 + tos && q[4] == ttl * 0x100 + proto
    ensures HeaderWords(q[0]) == 2 * ihl
    ensures var src, dst := Addr(q[6], q[7]), Addr(q[8], q[9]);
            var sport, dport := if proto == 1 then t[2] else t[0], if proto == 1 then t[2] else t[1];
            Named(q, t, near) == if near.Source? then Name(src, dst, sport, dport, proto)
                                 else Name(dst, src, dport, sport, proto)
  {
  }

  /** The first eight bytes of the quoted packet's own payload, after the revert. */
  ghost predicate QuoteReverted(t: seq<u16>, t': seq<u16>, proto: u16, near: Side, sign: Sign, f: Flow)
    requires |t| == 4
  {
    && |t'| == 4
    && (if proto == TCP then t' == t[PortAt(near) := f.port]
        else if proto == UDP then
          && t' == t[PortAt(near) := f.port][UDP_CSUM := t'[UDP_CSUM]]
          && (t'[UDP_CSUM] == 0 <==> t[UDP_CSUM] == 0)
          && (t[UDP_CSUM] != 0 ==> t'[UDP_CSUM] % M == AddEven(sign, t[UDP_CSUM], f.l4) % M)
        else
          && t' == t[ICMP_ID := f.port][ICMP_CSUM := t'[ICMP_CSUM]]
          && t'[ICMP_CSUM] % M == (t[ICMP_CSUM] + t[ICMP_ID] - f.port) % M)
  }

  /** The sum a checksum computed afresh is complemented from. */
  method WordSum(ws: array<u16>) returns (s: nat)
    ensures s == SumOf(ws[..])
  {
    s := 0;
    for i := 0 to ws.Length
      invariant s == SumOf(ws[..i])
    {
      assert ws[..i + 1][..i] == ws[..i];
      s := s + ws[i];
    }
    assert ws[..ws.Length] == ws[..];
  }

  /** The message checksum is zeroed, summed and complemented: the message then verifies. */
  method Refresh(seg: array<u16>)
    requires seg.Length >= QUOTE
    modifies seg
    ensures SumOf(seg[..]) % M == 0
    ensures seg[..] == old(seg[..])[ICMP_CSUM := seg[ICMP_CSUM]]
  {
    seg[ICMP_CSUM] := 0;
    ghost var zeroed := seg[..];
    var s := WordSum(seg);
    var r := Fold(s);
    seg[ICMP_CSUM] := 0xFFFF - r;
    SumAt(zeroed, ICMP_CSUM, 0xFFFF - r);
    assert seg[..] == zeroed[ICMP_CSUM := 0xFFFF - r];
    Shift(s, r, M - r);
  }

  /** The quoted eight bytes are put back. */
  method RevertQuote(seg: array<u16>, at: nat, proto: u16, near: Side, sign: Sign, f: Flow)
    requires at + 4 <= seg.Length && (proto == TCP || proto == UDP || proto == ICMP)
    modifies seg
    ensures seg[..at] == old(seg[..at]) && seg[at + 4..] == old(seg[at + 4..])
    ensures QuoteReverted(old(seg[at..at + 4]), seg[at..at + 4], proto, near, sign, f)
  {
    if proto == TCP || proto == UDP {
      seg[at + PortAt(near)] := f.port;
      if proto == UDP {
        var c := UdpUpdate(sign, seg[at + UDP_CSUM], f.l4);
        seg[at + UDP_CSUM] := c;
      }
    } else {
      var id := seg[at + ICMP_ID];
      if id != f.port {
        var c := Fold(seg[at + ICMP_CSUM] + id - f.port);
        seg[at + ICMP_CSUM] := c;
        seg[at + ICMP_ID] := f.port;
      }
    }
  }

  /** The quoted header's near address is put back. */
  method RevertHeader(seg: array<u16>, near: Side, sign: Sign, f: Flow)
    requires seg.Length >= QUOTE + IP_MIN
    modifies seg
    ensures seg[..QUOTE] == old(seg[..QUOTE]) && seg[QUOTE + IP_MIN..] == old(seg[QUOTE + IP_MIN..])
    ensures IpRewritten(old(seg[QUOTE..QUOTE + IP_MIN]), seg[QUOTE..QUOTE + IP_MIN], near, sign, f)
  {
    seg[QUOTE + AddrAt(near)] := f.addr.hi;
    seg[QUOTE + AddrAt(near) + 1] := f.addr.lo;
    var c := Fold(AddEven(sign, seg[QUOTE + IP_CSUM], f.l3));
    seg[QUOTE + IP_CSUM] := c;
  }

  /** Options after the fixed header are not touched. */
  lemma WithOptions(q: seq<u16>, q': seq<u16>, side: Side, sign: Sign, f: Flow)
    requires |q| == |q'| && |q| >= IP_MIN && q'[IP_MIN..] == q[IP_MIN..]
    requires IpRewritten(q[..IP_MIN], q'[..IP_MIN], side, sign, f)
    ensures IpRewritten(q, q', side, sign, f)
  {
    var r := q[AddrAt(side) := f.addr.hi][AddrAt(side) + 1 := f.addr.lo][IP_CSUM := q'[IP_CSUM]];
    forall k | 0 <= k < |q|
      ensures q'[k] == r[k]
    {
      if k < IP_MIN {
        assert q'[k] == q'[..IP_MIN][k] && q[k] == q[..IP_MIN][k];
      } else {
        assert q'[k] == q'[IP_MIN..][k - IP_MIN] && q[k] == q[IP_MIN..][k - IP_MIN];
      }
    }
  }

  /** The quoted header of l words and the eight bytes behind it are reverted; of the rest of the message
      only its own checksum changes. */
  ghost predicate MessageReverted(s0: seq<u16>, s1: seq<u16>, l: nat, near: Side, sign: Sign, f: Flow)
    requires IP_MIN <= l && QUOTE + l + 4 <= |s0|
  {
    && |s1| == |s0|
    && IpRewritten(s0[QUOTE..][..l], s1[QUOTE..][..l], near, sign, f)
    && QuoteReverted(s0[QUOTE..][l..][..4], s1[QUOTE..][l..][..4], ProtoOf(s0[QUOTE..]), near, sign, f)
    && s1[QUOTE..][l..][4..] == s0[QUOTE..][l..][4..]
    && s1[0] == s0[0] && s1[2] == s0[2] && s1[3] == s0[3]
  }

  /** An error message whose session is known: its outer header, the quoted header and the quoted eight
      bytes are put back, and its own checksum is computed afresh. */
  method Revert(outer: array<u16>, seg: array<u16>, near: Side, sign: Sign, f: Flow)
    requires outer != seg && outer.Length >= IP_MIN && seg.Length >= QUOTE + IP_MIN
    requires QUOTE + HeaderWords(seg[QUOTE]) + 4 <= seg.Length && ProtoOf(seg[QUOTE..]) in {TCP, UDP, ICMP}
    modifies outer, seg
    ensures IpRewritten(old(outer[..]), outer[..], Other(near), sign, f) && SumOf(seg[..]) % M == 0
    ensures old(HeaderWords(seg[QUOTE]) >= IP_MIN) ==>
              MessageReverted(old(seg[..]), seg[..], old(HeaderWords(seg[QUOTE])), near, sign, f)
  {
    hide IpRewritten, QuoteReverted;
    ghost var s0 := seg[..];
    assert ProtoOf(s0[QUOTE..]) == s0[QUOTE + 4] % 0x100;
    var l := QUOTE + HeaderWords(seg[QUOTE]);
    var proto: u16 := seg[QUOTE + 4] % 0x100;
    RewriteOuter(outer, Other(near), sign, f);
    RevertHeader(seg, near, sign, f);
    ghost var s1 := seg[..];
    RevertQuote(seg, l, proto, near, sign, f);
    ghost var s2 := seg[..];
    Refresh(seg);
    if HeaderWords(s0[QUOTE]) >= IP_MIN {
      Reassemble(s0, s1, s2, seg[..], l, near, sign, f, proto);
    }
  }

  /** The outer header's own address, with its checksum. */
  method RewriteOuter(ip: array<u16>, side: Side, sign: Sign, f: Flow)
    requires ip.Length >= IP_MIN
    modifies ip
    ensures IpRewritten(old(ip[..]), ip[..], side, sign, f)
  {
    ip[AddrAt(side)] := f.addr.hi;
    ip[AddrAt(side) + 1] := f.addr.lo;
    var c := Fold(AddEven(sign, ip[IP_CSUM], f.l3));
    ip[IP_CSUM] := c;
    assert ip[..] == old(ip[..])[AddrAt(side) := f.addr.hi][AddrAt(side) + 1 := f.addr.lo][IP_CSUM := c];
  }

  /** The three edits fall on three separate stretches of the message. */
  lemma Reassemble(s0: seq<u16>, s1: seq<u16>, s2: seq<u16>, s3: seq<u16>, l: nat, near: Side, sign: Sign, f: Flow,
          proto: u16)
    requires |s0| == |s1| == |s2| == |s3| && QUOTE + IP_MIN <= l && l + 4 <= |s0|
    requires s1[..QUOTE] == s0[..QUOTE] && s1[QUOTE + IP_MIN..] == s0[QUOTE + IP_MIN..]
    requires IpRewritten(s0[QUOTE..QUOTE + IP_MIN], s1[QUOTE..QUOTE + IP_MIN], near, sign, f)
    requires s2[..l] == s1[..l] && s2[l + 4..] == s1[l + 4..]
        && QuoteReverted(s1[l..l + 4], s2[l..l + 4], proto, near, sign, f)
    requires s3 == s2[ICMP_CSUM := s3[ICMP_CSUM]]
    requires proto == ProtoOf(s0[QUOTE..])
    ensures MessageReverted(s0, s3, l - QUOTE, near, sign, f)
  {
    var q, q' := s0[QUOTE..][..l - QUOTE], s3[QUOTE..l];
    assert |q'| == |q| == l - QUOTE;
    assert q[..IP_MIN] == s0[QUOTE..QUOTE + IP_MIN];
    forall k | QUOTE <= k < l
      ensures s3[k] == s1[k] && (k >= QUOTE + IP_MIN ==> s3[k] == s0[k])
    {
      assert s3[k] == s2[k] && s2[k] == s2[..l][k] && s1[k] == s1[..l][k];
      if k >= QUOTE + IP_MIN {
        assert s1[k] == s1[QUOTE + IP_MIN..][k - QUOTE - IP_MIN] && s0[k] == s0[QUOTE + IP_MIN..][k - QUOTE - IP_MIN];
      }
    }
    assert q'[..IP_MIN] == s1[QUOTE..QUOTE + IP_MIN];
    assert q'[IP_MIN..] == q[IP_MIN..];
    WithOptions(q, q', near, sign, f);
    assert s1[l..] == s0[l..] by {
      assert forall k :: l <= k < |s0| ==>
          s1[k] == s1[QUOTE + IP_MIN..][k - QUOTE - IP_MIN] == s0[QUOTE + IP_MIN..][k - QUOTE - IP_MIN];
    }
    assert s0[QUOTE..][l - QUOTE..][..4] == s1[l..l + 4] by {
      assert s1[l..l + 4] == s1[l..][..4];
    }
    assert s3[l..l + 4] == s2[l..l + 4];
    assert |s1[l + 4..]| == |s0| - l - 4;
    assert s3[l + 4..] == s2[l + 4..];
    assert s1[l + 4..] == s1[l..][4..];
    assert s0[QUOTE..][l - QUOTE..] == s0[l..];
    assert s3[QUOTE..][..l - QUOTE] == s3[QUOTE..l] && s3[QUOTE..][l - QUOTE..] == s3[l..];
    assert s3[l..][..4] == s3[l..l + 4] && s3[l..][4..] == s3[l + 4..];
    assert forall k :: 0 <= k < QUOTE ==> s2[k] == s2[..l][k] == s1[..l][k] == s1[..QUOTE][k] == s0[..QUOTE][k];
  }

  // ---------------------------------------------------------------- the revert undoes the translation

  /** A translated header, quoted and reverted, is the original but for the representation of its
      checksum, and verifies if the original did. */
  lemma HeaderRestored(sign: Sign, side: Side, ip: seq<u16>, wire: seq<u16>, back: seq<u16>, after: Addr,
          portBefore: u16, portAfter: u16, proto: u16)
    requires |ip| >= IP_MIN
    requires IpRewritten(ip, wire, side, sign, MakeFlow(sign, AddrOf(ip, side), after, portBefore, portAfter, proto))
    requires IpRewritten(wire, back, side, sign, MakeFlow(sign, after, AddrOf(ip, side), portAfter, portBefore, proto))
    ensures back == ip[IP_CSUM := back[IP_CSUM]] && back[IP_CSUM] % M == ip[IP_CSUM] % M
    ensures IpOk(ip) ==> IpOk(back)
  {
    hide AddEven, L3Delta, L4Delta;
    var before := AddrOf(ip, side);
    NetEffect(sign, ip[IP_CSUM], before, after, portBefore, portAfter, false);
    NetEffect(sign, wire[IP_CSUM], after, before, portAfter, portBefore, false);
    Shift(wire[IP_CSUM], ip[IP_CSUM] + Words(before) - Words(after), Words(after) - Words(before));
    if IpOk(ip) {
      SumAt(ip, IP_CSUM, back[IP_CSUM]);
      Shift(back[IP_CSUM], ip[IP_CSUM], SumOf(ip) - ip[IP_CSUM]);
    }
  }

  /** The quoted eight bytes come back exactly for TCP and UDP, the UDP checksum included, and for an
      echo up to the representation of the message's own checksum. */
  lemma PayloadRestored(sign: Sign, side: Side, l4: seq<u16>, wire: seq<u16>, back: seq<u16>, before: Addr,
          after: Addr, portAfter: u16, proto: u16)
    requires (proto == TCP || proto == UDP || proto == ICMP) && |l4| >= L4Min(proto) && (proto == ICMP ==> Echo(l4))
    requires L4Rewritten(l4, wire, proto, side, sign, MakeFlow(sign, before, after, PortOf(l4, proto, side),
        portAfter, proto))
    requires QuoteReverted(wire[..4], back, proto, side, sign,
        MakeFlow(sign, after, before, portAfter, PortOf(l4, proto, side), proto))
    ensures proto != ICMP ==> back == l4[..4]
    ensures proto == ICMP ==> back == l4[..4][ICMP_CSUM := back[ICMP_CSUM]] && back[ICMP_CSUM] % M == l4[ICMP_CSUM] % M
  {
    hide AddEven, L3Delta, L4Delta;
    var port := PortOf(l4, proto, side);
    if proto == UDP {
      UdpRestored(sign, l4[UDP_CSUM], wire[UDP_CSUM], back[UDP_CSUM], before, after, port, portAfter);
      assert back == l4[..4];
    } else if proto == TCP {
      assert back == l4[..4];
    } else {
      NetEffect(sign, l4[ICMP_CSUM], before, after, port, portAfter, false);
      Shift(wire[ICMP_CSUM], l4[ICMP_CSUM] + port - portAfter, portAfter - port);
      assert back == l4[..4][ICMP_CSUM := back[ICMP_CSUM]];
    }
  }

  lemma UdpRestored(sign: Sign, c: u16, wire: u16, back: u16, before: Addr, after: Addr, port: u16, portAfter: u16)
    requires wire == 0 <==> c == 0
    requires back == 0 <==> wire == 0
    requires c != 0 ==> wire % M == AddEven(sign, c, L4Delta(sign, before, after, port, portAfter, true)) % M
    requires c != 0 ==> back % M == AddEven(sign, wire, L4Delta(sign, after, before, portAfter, port, true)) % M
    ensures back == c
  {
    hide AddEven, L3Delta, L4Delta;
    if c != 0 {
      NetEffect(sign, c, before, after, port, portAfter, true);
      NetEffect(sign, wire, after, before, portAfter, port, true);
      Shift(wire, c + Words(before) - Words(after) + port - portAfter, Words(after) - Words(before) + portAfter - port);
      NonZeroUnique(back, c);
    }
  }
}
