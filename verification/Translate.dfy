/** The per-packet rewrite of both directions, on the packet's own 16-bit words, and the reversal of that
    rewrite inside the quoted header of an ICMP error. */
module Translate {
  import opened Checksum

  const TCP: u16 := 6
  const UDP: u16 := 17
  const ICMP: u16 := 1

  /** Which end of the packet a direction rewrites: in2out the source, out2in the destination. */
  datatype Side = Source | Destination

  function Other(side: Side): Side { if side.Source? then Destination else Source }

  /** Word positions in the IPv4 header and in the layer-4 header. */
  const IP_CSUM: int := 5

  function AddrAt(side: Side): int { if side.Source? then 6 else 8 }

  function PortAt(side: Side): int { if side.Source? then 0 else 1 }

  const ICMP_CSUM: int := 1
  const ICMP_ID: int := 2
  const UDP_CSUM: int := 3
  const TCP_CSUM: int := 8

  /** The shortest IPv4 header, and what each protocol's fields need, in words. */
  const IP_MIN: int := 10

  function L4Min(proto: u16): int { if proto == TCP then 10 else if proto == UDP || proto == ICMP then 4 else 0 }

  /** One direction of a session: the address and port it writes, and its two deltas. */
  datatype Flow = Flow(addr: Addr, port: u16, l3: int, l4: int)

  function MakeFlow(sign: Sign, before: Addr, after: Addr, portBefore: u16, portAfter: u16, proto: u16): Flow {
    Flow(after, portAfter, L3Delta(sign, before, after), L4Delta(sign, before, after, portBefore, portAfter,
        proto == TCP || proto == UDP))
  }

  function AddrOf(ip: seq<u16>, side: Side): Addr
    requires |ip| >= IP_MIN
  {
    Addr(ip[AddrAt(side)], ip[AddrAt(side) + 1])
  }

  /** An echo request or reply; its identifier plays the part of both ports. */
  predicate Echo(l4: seq<u16>)
    requires |l4| >= 4
  {
    l4[0] / 0x100 == 0 || l4[0] / 0x100 == 8
  }

  function PortOf(l4: seq<u16>, proto: u16, side: Side): u16
    requires |l4| >= 4
  {
    if proto == ICMP then l4[ICMP_ID] else l4[PortAt(side)]
  }

  // ---------------------------------------------------------------- what verifies

  predicate IpOk(ip: seq<u16>) { |ip| >= IP_MIN && SumOf(ip) % M == 0 }

  function PseudoSum(ip: seq<u16>, l4: seq<u16>, proto: u16, bytes: u16): int
    requires |ip| >= IP_MIN
  {
    Words(AddrOf(ip, Source)) + Words(AddrOf(ip, Destination)) + proto + bytes + SumOf(l4)
  }

  /** TCP and UDP cover the addresses, the protocol and the length; a zero UDP checksum means none. */
  predicate L4Ok(ip: seq<u16>, l4: seq<u16>, proto: u16, bytes: u16)
    requires |ip| >= IP_MIN && |l4| >= L4Min(proto)
  {
    if proto == TCP then PseudoSum(ip, l4, proto, bytes) % M == 0
    else if proto == UDP then l4[UDP_CSUM] == 0 || PseudoSum(ip, l4, proto, bytes) % M == 0
    else if proto == ICMP then SumOf(l4) % M == 0
    else true
  }

  // ---------------------------------------------------------------- the rewrite

  /** The address of one side is replaced and the header checksum adjusted; nothing else changes. */
  ghost predicate IpRewritten(ip: seq<u16>, ip': seq<u16>, side: Side, sign: Sign, f: Flow)
    requires |ip| >= IP_MIN
  {
    && |ip'| == |ip|
    && ip' == ip[AddrAt(side) := f.addr.hi][AddrAt(side) + 1 := f.addr.lo][IP_CSUM := ip'[IP_CSUM]]
    && ip'[IP_CSUM] % M == AddEven(sign, ip[IP_CSUM], f.l3) % M
  }

  /** The port or identifier is replaced and the layer-4 checksum adjusted; an ICMP message that is not
      an echo, and any other protocol, is left alone. */
  ghost predicate L4Rewritten(l4: seq<u16>, l4': seq<u16>, proto: u16, side: Side, sign: Sign, f: Flow)
    requires |l4| >= L4Min(proto)
  {
    && |l4'| == |l4|
    && (if proto == TCP then
          l4' == l4[PortAt(side) := f.port][TCP_CSUM := l4'[TCP_CSUM]]
              && l4'[TCP_CSUM] % M == AddEven(sign, l4[TCP_CSUM], f.l4) % M
        else if proto == UDP then
          && l4' == l4[PortAt(side) := f.port][UDP_CSUM := l4'[UDP_CSUM]]
          && (l4'[UDP_CSUM] == 0 <==> l4[UDP_CSUM] == 0)
          && (l4[UDP_CSUM] != 0 ==> l4'[UDP_CSUM] % M == AddEven(sign, l4[UDP_CSUM], f.l4) % M)
        else if proto == ICMP && Echo(l4) then
          l4' == l4[ICMP_ID := f.port][ICMP_CSUM := l4'[ICMP_CSUM]]
              && l4'[ICMP_CSUM] % M == AddEven(sign, l4[ICMP_CSUM], f.l4) % M
        else l4' == l4)
  }

  /** cgnat_in2out_translate for the source, cgnat_out2in_translate for the destination. */
  method Rewrite(side: Side, sign: Sign, f: Flow, proto: u16, ip: array<u16>, l4: array<u16>)
    requires ip != l4 && ip.Length >= IP_MIN && l4.Length >= L4Min(proto)
    modifies ip, l4
    ensures IpRewritten(old(ip[..]), ip[..], side, sign, f)
    ensures L4Rewritten(old(l4[..]), l4[..], proto, side, sign, f)
  {
    ip[AddrAt(side)] := f.addr.hi;
    ip[AddrAt(side) + 1] := f.addr.lo;
    var c := Fold(AddEven(sign, ip[IP_CSUM], f.l3));
    ip[IP_CSUM] := c;
    if proto == TCP {
      l4[PortAt(side)] := f.port;
      var d := Fold(AddEven(sign, l4[TCP_CSUM], f.l4));
      l4[TCP_CSUM] := d;
    } else if proto == UDP {
      l4[PortAt(side)] := f.port;
      var d := UdpUpdate(sign, l4[UDP_CSUM], f.l4);
      l4[UDP_CSUM] := d;
    } else if proto == ICMP {
      if l4[0] / 0x100 == 0 || l4[0] / 0x100 == 8 {
        l4[ICMP_ID] := f.port;
        var d := Fold(AddEven(sign, l4[ICMP_CSUM], f.l4));
        l4[ICMP_CSUM] := d;
      }
    }
    assert ip[..] == old(ip[..])[AddrAt(side) := f.addr.hi][AddrAt(side) + 1 := f.addr.lo][IP_CSUM := c];
  }

  /** A rewritten packet word by word, the protocols by their numbers: of the header, the two words of one
      address and the checksum change; of the rest, one port of TCP and UDP or the identifier of an echo,
      and the checksum; and every other word stands. */
  lemma RewrittenWords(ip: seq<u16>, ip': seq<u16>, l4: seq<u16>, l4': seq<u16>, proto: u16, side: Side, sign: Sign,
          f: Flow)
    requires |ip| >= 10 && |l4| >= L4Min(proto)
    requires IpRewritten(ip, ip', side, sign, f) && L4Rewritten(l4, l4', proto, side, sign, f)
    ensures |ip'| == |ip| && |l4'| == |l4|
    ensures side.Source? ==> ip'[6] == f.addr.hi && ip'[7] == f.addr.lo && ip'[8] == ip[8] && ip'[9] == ip[9]
    ensures side.Destination? ==> ip'[8] == f.addr.hi && ip'[9] == f.addr.lo && ip'[6] == ip[6] && ip'[7] == ip[7]
    ensures forall k :: 0 <= k < |ip| && k !in {5, 6, 7, 8, 9} ==> ip'[k] == ip[k]
    ensures proto == 6 || proto == 17 ==>
              && |l4| >= 4 && l4'[0] == (if side.Source? then f.port else l4[0])
              && l4'[1] == (if side.Source? then l4[1] else f.port)
    ensures proto == 6 ==> forall k :: 2 <= k < |l4| && k != 8 ==> l4'[k] == l4[k]
    ensures proto == 17 ==> forall k :: 2 <= k < |l4| && k != 3 ==> l4'[k] == l4[k]
    ensures proto == 1 ==>
              && |l4| >= 4 && l4'[2] == (if l4[0] / 0x100 in {0, 8} then f.port else l4[2])
              && forall k :: 0 <= k < |l4| && k != 1 && k != 2 ==> l4'[k] == l4[k]
    ensures proto !in {1, 6, 17} ==> l4' == l4
  {
    hide AddEven;
  }

  /** A header that verified still does, once the address it held is the one the delta was made for. */
  lemma IpStillVerifies(ip: seq<u16>, ip': seq<u16>, side: Side, sign: Sign, after: Addr, portBefore: u16,
          portAfter: u16, proto: u16)
    requires IpOk(ip) && IpRewritten(ip, ip', side, sign, MakeFlow(sign, AddrOf(ip, side), after, portBefore,
        portAfter, proto))
    ensures IpOk(ip')
  {
    hide AddEven, L3Delta, L4Delta;
    var before := AddrOf(ip, side);
    var a := ip[AddrAt(side) := after.hi];
    var b := a[AddrAt(side) + 1 := after.lo];
    SumAt(ip, AddrAt(side), after.hi);
    SumAt(a, AddrAt(side) + 1, after.lo);
    SumAt(b, IP_CSUM, ip'[IP_CSUM]);
    NetEffect(sign, ip[IP_CSUM], before, after, portBefore, portAfter, false);
    Rebalanced(SumOf(ip), SumOf(ip'), ip[IP_CSUM], ip'[IP_CSUM], Words(before) - Words(after));
  }

  /** Words lost a known amount, and the checksum among them gained it. */
  lemma Rebalanced(total: int, total': int, c: int, c': int, gone: int)
    requires total % M == 0 && c' % M == (c + gone) % M && total' == total - gone - c + c'
    ensures total' % M == 0
  {
    Shift(c', c + gone, total - gone - c);
  }

  /** The sum after a field and a checksum were replaced. */
  lemma TwoWords(ws: seq<u16>, i: int, v: u16, j: int, c: u16)
    requires 0 <= i < |ws| && 0 <= j < |ws| && i != j
    ensures SumOf(ws[i := v][j := c]) == SumOf(ws) - ws[i] + v - ws[j] + c
  {
    SumAt(ws, i, v);
    SumAt(ws[i := v], j, c);
  }

  /** The layer-4 checksum, against the addresses of the rewritten header. */
  lemma L4StillVerifies(ip: seq<u16>, ip': seq<u16>, l4: seq<u16>, l4': seq<u16>, side: Side, sign: Sign, after: Addr,
          portAfter: u16, proto: u16, bytes: u16)
    requires |ip| >= IP_MIN && |l4| >= L4Min(proto) && (proto == TCP || proto == UDP || (proto == ICMP && Echo(l4)))
    requires L4Ok(ip, l4, proto, bytes)
    requires IpRewritten(ip, ip', side, sign, MakeFlow(sign, AddrOf(ip, side), after, PortOf(l4, proto, side),
        portAfter, proto))
    requires L4Rewritten(l4, l4', proto, side, sign, MakeFlow(sign, AddrOf(ip, side), after, PortOf(l4, proto, side),
        portAfter, proto))
    ensures L4Ok(ip', l4', proto, bytes)
    ensures proto == UDP ==> (l4'[UDP_CSUM] == 0 <==> l4[UDP_CSUM] == 0)
  {
    hide AddEven, L3Delta, L4Delta, SumOf;
    var before := AddrOf(ip, side);
    var port := PortOf(l4, proto, side);
    assert AddrOf(ip', side) == after && AddrOf(ip', Other(side)) == AddrOf(ip, Other(side));
    if proto == ICMP {
      TwoWords(l4, ICMP_ID, portAfter, ICMP_CSUM, l4'[ICMP_CSUM]);
      NetEffect(sign, l4[ICMP_CSUM], before, after, port, portAfter, false);
      Rebalanced(SumOf(l4), SumOf(l4'), l4[ICMP_CSUM], l4'[ICMP_CSUM], port - portAfter);
    } else if proto == TCP {
      PseudoVerifies(ip, ip', l4, l4', side, sign, after, portAfter, proto, bytes, TCP_CSUM);
    } else if l4[UDP_CSUM] != 0 {
      PseudoVerifies(ip, ip', l4, l4', side, sign, after, portAfter, proto, bytes, UDP_CSUM);
    }
  }

  lemma PseudoVerifies(ip: seq<u16>, ip': seq<u16>, l4: seq<u16>, l4': seq<u16>, side: Side, sign: Sign, after: Addr,
          portAfter: u16, proto: u16, bytes: u16, at: int)
    requires |ip| >= IP_MIN && |ip'| >= IP_MIN && |l4| == |l4'| && 4 <= |l4| && 2 <= at < |l4|
        && PseudoSum(ip, l4, proto, bytes) % M == 0
    requires AddrOf(ip', side) == after && AddrOf(ip', Other(side)) == AddrOf(ip, Other(side))
    requires l4' == l4[PortAt(side) := portAfter][at := l4'[at]]
    requires l4'[at] % M == AddEven(sign, l4[at], L4Delta(sign, AddrOf(ip, side), after, l4[PortAt(side)], portAfter,
        true)) % M
    ensures PseudoSum(ip', l4', proto, bytes) % M == 0
  {
    hide AddEven, L3Delta, L4Delta, SumOf;
    var before, port := AddrOf(ip, side), l4[PortAt(side)];
    TwoWords(l4, PortAt(side), portAfter, at, l4'[at]);
    NetEffect(sign, l4[at], before, after, port, portAfter, true);
    Rebalanced(PseudoSum(ip, l4, proto, bytes), PseudoSum(ip', l4', proto, bytes), l4[at], l4'[at],
        Words(before) - Words(after) + port - portAfter);
  }
}
