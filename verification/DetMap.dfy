/** The deterministic mapping of RFC 7422: a subscriber's outside address and port block are computed
    from its inside address, and the subscriber from an outside address and port. */
module DetMap {

  const U32: int := 0x1_0000_0000

  function Add32(a: int, b: int): int { (a + b) % U32 }

  function Sub32(a: int, b: int): int { (a - b) % U32 }

  /** Addresses covered by a prefix. */
  function Count(len: nat): (c: nat)
    requires 1 <= len <= 32
    ensures c >= 1
  {
    Pow2(32 - len)
  }

  function Pow2(n: nat): (p: nat)
    ensures p >= 1
  {
    if n == 0 then 1 else 2 * Pow2(n - 1)
  }

  datatype Params = Params(insideBase: int, insideCount: nat, outsideBase: int, outsideCount: nat,
                           ratio: nat, portsPerHost: nat, rangeStart: nat, rangeEnd: nat)

  datatype Block = NoBlock | Block(addr: int, first: int, last: int)

  datatype Host = NoHost | Host(addr: int)

  /** cgnat_det_forward; ports are truncated to 16 bits as they are stored. */
  function Forward(dp: Params, inside: int): Block
    requires dp.ratio >= 1
  {
    var h := Sub32(inside, dp.insideBase);
    if h >= dp.insideCount then NoBlock
    else
      var first := (dp.rangeStart + dp.portsPerHost * (h % dp.ratio)) % 0x1_0000;
      Block(Add32(dp.outsideBase, h / dp.ratio), first, (first + dp.portsPerHost - 1) % 0x1_0000)
  }

  /** cgnat_det_reverse. */
  function Reverse(dp: Params, outside: int, port: nat): Host
    requires dp.portsPerHost >= 1
  {
    var o := Sub32(outside, dp.outsideBase);
    if o >= dp.outsideCount then NoHost
    else if port < dp.rangeStart || port > dp.rangeEnd then NoHost
    else
      var h := o * dp.ratio + (port - dp.rangeStart) / dp.portsPerHost;
      if h >= dp.insideCount then NoHost else Host(Add32(dp.insideBase, h))
  }

  /** The sharing arithmetic of the outside-address handler. */
  function Shared(dp: Params, base: int, count: nat): Params
    requires count >= 1 && dp.rangeStart <= dp.rangeEnd
  {
    var r := dp.insideCount / count;
    var ratio := if r == 0 then 1 else r;
    dp.(outsideBase := base, outsideCount := count, ratio := ratio,
        portsPerHost := (dp.rangeEnd - dp.rangeStart + 1) / ratio)
  }

  // ---------------------------------------------------------------- what the handlers set up

  /** A configured entry: counts of whole prefixes, and enough ports for every sharer. */
  ghost predicate Configured(dp: Params) {
    && 0 <= dp.insideBase < U32 && 0 <= dp.outsideBase < U32
    && 1 <= dp.insideCount < U32 && 1 <= dp.outsideCount < U32
    && dp.rangeStart <= dp.rangeEnd <= 0xFFFF
    && 1 <= dp.ratio <= dp.rangeEnd - dp.rangeStart + 1
    && dp.portsPerHost == (dp.rangeEnd - dp.rangeStart + 1) / dp.ratio
    && dp.insideCount <= dp.ratio * dp.outsideCount
  }

  lemma {:induction false} Pow2Add(a: nat, b: nat)
    ensures Pow2(a + b) == Pow2(a) * Pow2(b)
  {
    if a > 0 {
      Pow2Add(a - 1, b);
      assert Pow2(a + b) == 2 * Pow2(a + b - 1);
      assert 2 * (Pow2(a - 1) * Pow2(b)) == (2 * Pow2(a - 1)) * Pow2(b);
    }
  }

  lemma {:induction false} Pow2Less(a: nat, b: nat)
    requires a < b
    ensures Pow2(a) < Pow2(b)
  {
    if a + 1 < b { Pow2Less(a, b - 1); }
  }

  lemma Pow2Small()
    ensures Pow2(8) == 0x100
  {
    assert Pow2(2) == 4;
    assert Pow2(4) == 16;
    assert Pow2(6) == 64;
  }

  lemma CountBound(len: nat)
    requires 1 <= len <= 32
    ensures Count(len) < U32
  {
    Pow2Less(32 - len, 32);
    Pow2Small();
    Pow2Add(8, 8);
    Pow2Add(16, 16);
  }

  /** Prefix sizes divide one another, so the sharers fit on the outside addresses exactly. */
  lemma RatioCovers(insideLen: nat, outsideLen: nat)
    requires 1 <= insideLen <= 32 && 1 <= outsideLen <= 32
    ensures var r := Count(insideLen) / Count(outsideLen);
            Count(insideLen) <= (if r == 0 then 1 else r) * Count(outsideLen)
  {
    var a, b := Count(insideLen), Count(outsideLen);
    if insideLen <= outsideLen {
      var m := Pow2(outsideLen - insideLen);
      Pow2Add(outsideLen - insideLen, 32 - outsideLen);
      hide Pow2;
      assert a == m * b;
      DivExact(m, b);
    } else {
      Pow2Less(32 - insideLen, 32 - outsideLen);
      hide Pow2;
      SmallQuotient(a, b);
    }
  }

  /** The share of an address fits into its ports exactly when all hosts fit into all ports. */
  lemma RatioFits(insideLen: nat, outsideLen: nat, ports: nat)
    requires 1 <= insideLen <= 32 && 1 <= outsideLen <= 32 && ports >= 1
    ensures var hosts, addrs := Count(insideLen), Count(outsideLen);
            var r := hosts / addrs;
            var ratio := if r == 0 then 1 else r;
            && ratio == (if hosts < addrs then 1 else r)
            && (ratio <= ports <==> hosts <= ports * addrs)
  {
    var a, b := Count(insideLen), Count(outsideLen);
    if insideLen <= outsideLen {
      var m := Pow2(outsideLen - insideLen);
      Pow2Add(outsideLen - insideLen, 32 - outsideLen);
      hide Pow2;
      DivExact(m, b);
      assert a == m * b && a / b == m;
      if m <= ports {
        Times(b, m, ports);
      } else {
        Times(b, ports + 1, m);
        Next(b, ports);
      }
      Times(b, 1, m);
    } else {
      Pow2Less(32 - insideLen, 32 - outsideLen);
      hide Pow2;
      SmallQuotient(a, b);
      Times(b, 1, ports);
    }
  }

  lemma SmallQuotient(a: nat, b: nat)
    requires a < b
    ensures a / b == 0
  {
  }

  lemma DivExact(a: nat, b: nat)
    requires b >= 1
    ensures (a * b) / b == a
  {
    DivIs(a * b, b, a);
  }

  lemma MulMono(r: nat, c: nat, d: nat)
    requires c <= d
    ensures r * c <= r * d && c * r <= d * r
  {
  }

  /** The quotient is the one multiple that fits. */
  lemma DivIs(a: int, b: int, q: int)
    requires b >= 1 && b * q <= a < b * q + b
    ensures a / b == q && a % b == a - b * q
  {
    var d, r := a / b, a % b;
    assert a == b * d + r && 0 <= r < b;
    if d > q {
      Next(b, q);
      Times(b, q + 1, d);
      assert false;
    }
    if d < q {
      Next(b, d);
      Times(b, d + 1, q);
      assert false;
    }
  }

  lemma Next(b: int, c: int)
    ensures b * (c + 1) == b * c + b
  {
  }

  lemma Times(b: int, c: int, d: int)
    requires b >= 0 && c <= d
    ensures b * c <= b * d
  {
  }

  lemma SubOfAdd(base: int, h: int)
    requires 0 <= base < U32 && 0 <= h < U32
    ensures Sub32(Add32(base, h), base) == h
  {
  }

  lemma AddOfSub(base: int, x: int)
    requires 0 <= base < U32 && 0 <= x < U32
    ensures Add32(base, Sub32(x, base)) == x && 0 <= Sub32(x, base) < U32
  {
  }

  // ---------------------------------------------------------------- the inside lookup

  /** cgnat_det_lookup_params_inside's test, in 32-bit arithmetic. */
  predicate Covers(dp: Params, inside: int) { inside >= dp.insideBase && inside < Add32(dp.insideBase, dp.insideCount) }

  /** For a host of the prefix, wherever the prefix begins, the test succeeds exactly when the address
      after the prefix is itself an address: a prefix that reaches the end of the address space is never
      found. */
  lemma CoversIff(dp: Params, h: nat)
    requires 0 <= dp.insideBase < U32 && dp.insideCount < U32 && h < dp.insideCount
    ensures Covers(dp, Add32(dp.insideBase, h)) <==> dp.insideBase + dp.insideCount < U32
    ensures forall ip :: 0 <= ip < U32 && Covers(dp, ip) ==>
                dp.insideBase <= ip < dp.insideBase + dp.insideCount < U32
  {
  }

  /** The entry the lookup yields for an address, and the number of entries when there is none. */
  function FindInside(ps: seq<Params>, inside: int): (k: nat)
    ensures k <= |ps|
    ensures forall j :: 0 <= j < k ==> !Covers(ps[j], inside)
    ensures k < |ps| ==> Covers(ps[k], inside)
  {
    if ps == [] || Covers(ps[0], inside) then 0 else 1 + FindInside(ps[1..], inside)
  }

  /** What is found is the first that covers. */
  lemma FindIs(ps: seq<Params>, inside: int, k: nat)
    requires k <= |ps| && (forall j :: 0 <= j < k ==> !Covers(ps[j], inside)) && (k < |ps| ==> Covers(ps[k], inside))
    ensures FindInside(ps, inside) == k
  {
  }

  /** The last /8, shared 32768 to 1 on 512 outside addresses as the two handlers set it up: none of its
      hosts is found, although the forward map has a block for each. */
  lemma TopPrefixIsNeverFound(inside: int)
    requires 0xFF00_0000 <= inside < U32
    ensures var dp := Params(0xFF00_0000, 0x100_0000, 0, 512, 32768, 1, 1024, 65535);
            && Configured(dp)
            && dp == Shared(Params(0xFF00_0000, Count(8), 0, 0, 0, 0, 1024, 65535), 0, Count(23))
            && !Covers(dp, inside) && Forward(dp, inside).Block?
  {
    Pow2Small();
    Pow2Add(8, 8);
    Pow2Add(16, 8);
    assert Pow2(9) == 512;
    var dp := Params(0xFF00_0000, 0x100_0000, 0, 512, 32768, 1, 1024, 65535);
    CoversIff(dp, inside - 0xFF00_0000);
    ForwardPlace(dp, inside - 0xFF00_0000);
    assert Add32(0xFF00_0000, inside - 0xFF00_0000) == inside;
    hide Pow2;
    DivIs(0x100_0000, 512, 32768);
    DivIs(64512, 32768, 1);
  }

  class Pool {
    const rangeStart: nat
    const rangeEnd: nat
    var params: seq<Params>

    /** The prefix length each entry was made from, and whether its outside half is set. */
    ghost var insideLens: seq<nat>

    ghost predicate Valid()
      reads this
    {
      && rangeStart <= rangeEnd <= 0xFFFF
      && |insideLens| == |params|
      && forall k :: 0 <= k < |params| ==>
           && 1 <= insideLens[k] <= 32 && params[k].insideCount == Count(insideLens[k])
              && 0 <= params[k].insideBase < U32
           && params[k].rangeStart == rangeStart && params[k].rangeEnd == rangeEnd
    }

    constructor (rangeStart: nat, rangeEnd: nat)
      requires rangeStart <= rangeEnd <= 0xFFFF
      ensures Valid() && params == []
    {
      this.rangeStart, this.rangeEnd := rangeStart, rangeEnd;
      params, insideLens := [], [];
    }

    /** The inside-prefix handler appends an entry with its outside half still unset. */
    method AddInside(base: int, len: nat)
      requires Valid() && 0 <= base < U32 && 1 <= len <= 32
      modifies this
      ensures Valid() && params == old(params) + [Params(base, Count(len), 0, 0, 0, 0, rangeStart, rangeEnd)]
      ensures insideLens == old(insideLens) + [len]
      // No lookup that succeeded changes, and a host of the new prefix that no earlier entry covers is
      // found there exactly when the prefix does not reach the end of the address space.
      ensures forall ip :: FindInside(old(params), ip) < |old(params)| ==>
          FindInside(params, ip) == FindInside(old(params), ip)
      ensures forall h :: 0 <= h < Count(len) && FindInside(old(params), Add32(base, h)) == |old(params)| ==>
                (FindInside(params, Add32(base, h)) < |params| <==> base + Count(len) < U32)
    {
      CountBound(len);
      params := params + [Params(base, Count(len), 0, 0, 0, 0, rangeStart, rangeEnd)];
      insideLens := insideLens + [len];
      forall ip | FindInside(old(params), ip) < |old(params)|
        ensures FindInside(params, ip) == FindInside(old(params), ip)
      {
        FindIs(params, ip, FindInside(old(params), ip));
      }
      forall h | 0 <= h < Count(len) && FindInside(old(params), Add32(base, h)) == |old(params)|
        ensures FindInside(params, Add32(base, h)) < |params| <==> base + Count(len) < U32
      {
        var dp := params[|params| - 1];
        CoversIff(dp, h);
        FindIs(params, Add32(base, h), if Covers(dp, Add32(base, h)) then |params| - 1 else |params|);
      }
    }

    /** cgnat_det_lookup_params_inside. */
    method Lookup(inside: int) returns (k: nat)
      requires Valid()
      ensures k == FindInside(params, inside)
    {
      k := 0;
      while k < |params|
        invariant k <= |params| && forall j :: 0 <= j < k ==> !Covers(params[j], inside)
      {
        if Covers(params[k], inside) {
          break;
        }
        k := k + 1;
      }
      FindIs(params, inside, k);
    }

    /** The outside-address handler completes the latest entry. It is usable exactly when the inside prefix
        has no more hosts than the outside prefix has ports. */
    method AddOutside(base: int, len: nat)
      requires Valid() && 0 <= base < U32 && 1 <= len <= 32
      modifies `params
      ensures Valid() && |params| == |old(params)|
      ensures params == if old(params) == [] then [] else old(params)[|params| - 1 := params[|params| - 1]]
      ensures params != [] ==>
                var dp := params[|params| - 1];
                && dp.insideBase == old(params)[|params| - 1].insideBase
                   && dp.insideCount == old(params)[|params| - 1].insideCount
                && dp.outsideBase == base && dp.outsideCount == Count(len)
                && |insideLens| == |params|
                && var hosts, addrs, ports := Count(insideLens[|params| - 1]), Count(len), rangeEnd - rangeStart + 1;
                   && dp.ratio == (if hosts < addrs then 1 else hosts / addrs) && dp.portsPerHost == ports / dp.ratio
                   && (Configured(dp) <==> hosts <= ports * addrs)
    {
      if |params| > 0 {
        var k := |params| - 1;
        RatioCovers(insideLens[k], len);
        CountBound(insideLens[k]);
        CountBound(len);
        RatioFits(insideLens[k], len, rangeEnd - rangeStart + 1);
        hide Count;
        params := params[k := Shared(params[k], base, Count(len))];
      }
    }
  }

  // ---------------------------------------------------------------- the map and its inverse

  /** Where host number h sits: outside offset, and first port of its block. */
  function FirstPort(dp: Params, h: nat): int
    requires dp.ratio >= 1
  {
    dp.rangeStart + dp.portsPerHost * (h % dp.ratio)
  }

  lemma DivPositive(a: nat, b: nat)
    requires 1 <= b <= a
    ensures a / b >= 1
  {
  }

  /** Block number i of size q, of r blocks cut from so many ports. */
  lemma Fits(usable: nat, r: nat, q: nat, i: nat)
    requires 1 <= r <= usable && q == usable / r && i < r
    ensures q >= 1 && 0 <= q * i && q * i + q <= usable && q * r <= usable
  {
    assert q * r <= usable;
    Times(q, i + 1, r);
    assert q * (i + 1) == q * i + q;
    DivPositive(usable, r);
  }

  lemma OffsetFits(h: nat, r: nat, c: nat)
    requires r >= 1 && h < r * c
    ensures 0 <= h / r < c && r * (h / r) + h % r == h && 0 <= h % r < r
  {
    if h / r >= c {
      Times(r, c, h / r);
      assert false;
    }
  }

  /** One host's place: its outside offset and its block, with no wrap anywhere. */
  lemma ForwardPlace(dp: Params, h: nat)
    requires Configured(dp) && h < dp.insideCount
    ensures dp.portsPerHost >= 1 && 0 <= h / dp.ratio < dp.outsideCount
    ensures Forward(dp, Add32(dp.insideBase, h)) == Block(Add32(dp.outsideBase, h / dp.ratio), FirstPort(dp, h),
        FirstPort(dp, h) + dp.portsPerHost - 1)
    ensures var b := Forward(dp, Add32(dp.insideBase, h));
            b.first == dp.rangeStart + dp.portsPerHost * (h % dp.ratio) && b.last == b.first + dp.portsPerHost - 1
    ensures dp.rangeStart <= FirstPort(dp, h) && FirstPort(dp, h) + dp.portsPerHost - 1 < dp.rangeStart
        + dp.portsPerHost * dp.ratio <= dp.rangeEnd + 1
  {
    SubOfAdd(dp.insideBase, h);
    OffsetFits(h, dp.ratio, dp.outsideCount);
    Fits(dp.rangeEnd - dp.rangeStart + 1, dp.ratio, dp.portsPerHost, h % dp.ratio);
    Times(dp.portsPerHost, h % dp.ratio + 1, dp.ratio);
    assert dp.portsPerHost * (h % dp.ratio + 1) == dp.portsPerHost * (h % dp.ratio) + dp.portsPerHost;
    hide Add32, Sub32;
  }

  /** Which questions have an answer: forward, the addresses of the prefix; in reverse, the ports of the
      range on the outside addresses, as far as their count of blocks has hosts. */
  lemma AnswersIff(dp: Params, inside: int, outside: int, port: nat)
    requires Configured(dp) && dp.portsPerHost >= 1 && 0 <= inside < U32 && 0 <= outside < U32
    ensures Forward(dp, inside).Block? <==> (inside - dp.insideBase) % U32 < dp.insideCount
    ensures var o := (outside - dp.outsideBase) % U32;
            Reverse(dp, outside, port).Host? <==>
              && o < dp.outsideCount && dp.rangeStart <= port <= dp.rangeEnd
              && port - dp.rangeStart < dp.portsPerHost * (dp.insideCount - o * dp.ratio)
  {
    var o, x := Sub32(outside, dp.outsideBase), port - dp.rangeStart;
    if o < dp.outsideCount && dp.rangeStart <= port <= dp.rangeEnd {
      QuotientBelow(x, dp.portsPerHost, dp.insideCount - o * dp.ratio);
    }
  }

  lemma QuotientBelow(x: nat, q: nat, n: int)
    requires q >= 1
    ensures x / q < n <==> x < q * n
  {
    var s := x / q;
    assert q * s <= x < q * s + q;
    if s < n {
      Times(q, s + 1, n);
      assert q * (s + 1) == q * s + q;
    } else {
      Times(q, n, s);
    }
  }

  /** Every port of a host's block leads back to that host. */
  lemma RoundTrip(dp: Params, h: nat, port: nat)
    requires Configured(dp) && h < dp.insideCount
    requires var b := Forward(dp, Add32(dp.insideBase, h)); b.Block? && b.first <= port <= b.last
    ensures dp.portsPerHost >= 1 && Reverse(dp, Forward(dp, Add32(dp.insideBase, h)).addr, port) ==
        Host(Add32(dp.insideBase, h))
  {
    ForwardPlace(dp, h);
    OffsetFits(h, dp.ratio, dp.outsideCount);
    SubOfAdd(dp.outsideBase, h / dp.ratio);
    DivIs(port - dp.rangeStart, dp.portsPerHost, h % dp.ratio);
    hide Add32, Sub32, Forward, Configured;
  }

  /** No outside address and port belong to two hosts. */
  lemma BlocksDisjoint(dp: Params, h1: nat, h2: nat, port: nat)
    requires Configured(dp) && h1 < dp.insideCount && h2 < dp.insideCount && h1 != h2
    ensures var b1, b2 := Forward(dp, Add32(dp.insideBase, h1)), Forward(dp, Add32(dp.insideBase, h2));
            b1.Block? && b2.Block? && !(b1.addr == b2.addr && b1.first <= port <= b1.last
                && b2.first <= port <= b2.last)
  {
    ForwardPlace(dp, h1);
    ForwardPlace(dp, h2);
    SubOfAdd(dp.insideBase, h1);
    SubOfAdd(dp.insideBase, h2);
    hide Add32, Sub32, Forward, Reverse;
    var b1, b2 := Forward(dp, Add32(dp.insideBase, h1)), Forward(dp, Add32(dp.insideBase, h2));
    if b1.addr == b2.addr && b1.first <= port <= b1.last && b2.first <= port <= b2.last {
      RoundTrip(dp, h1, port);
      RoundTrip(dp, h2, port);
      assert false;
    }
  }

  /** The reverse answer owns the port exactly when the port lies below the blocks' end: on the ports
      left over above them it names a host of a later address. */
  lemma ReverseOwnsIff(dp: Params, outside: int, port: nat)
    requires Configured(dp) && 0 <= outside < U32 && dp.portsPerHost >= 1
    requires Reverse(dp, outside, port).Host?
    ensures var b := Forward(dp, Reverse(dp, outside, port).addr);
            (b.Block? && b.addr == outside && b.first <= port <= b.last)
                <==> port < dp.rangeStart + dp.portsPerHost * dp.ratio
  {
    var o, x := Sub32(outside, dp.outsideBase), port - dp.rangeStart;
    var s := x / dp.portsPerHost;
    var h := o * dp.ratio + s;
    ReverseShape(dp, outside, port);
    AddOfSub(dp.outsideBase, outside);
    ForwardPlace(dp, h);
    SubOfAdd(dp.outsideBase, h / dp.ratio);
    hide Add32, Sub32, Forward, Reverse, Configured;
    if s < dp.ratio {
      OwnSlot(dp, o, s, x);
    } else {
      LaterAddress(o, dp.ratio, s);
      Times(dp.portsPerHost, dp.ratio, s);
    }
  }

  /** A /16 shared 2048 to 1 on 32 addresses as the two handlers set it up: 31 ports a host leave 1024
      over, and the last of them is answered with a host that has its block on the next address. */
  lemma LeftoverPortIsMisnamed()
    ensures var dp := Params(0x0A00_0000, 0x1_0000, 0xC000_0200, 32, 2048, 31, 1024, 65535);
            && Configured(dp)
            && dp == Shared(Params(0x0A00_0000, Count(16), 0, 0, 0, 0, 1024, 65535), 0xC000_0200, Count(27))
            && Reverse(dp, 0xC000_0200, 65535) == Host(0x0A00_0821)
            && Forward(dp, 0x0A00_0821).Block? && Forward(dp, 0x0A00_0821).addr == 0xC000_0201
  {
    Pow2Small();
    Pow2Add(8, 8);
    assert Count(16) == 0x1_0000 && Count(27) == 32;
    hide Pow2, Count;
    DivIs(0x1_0000, 32, 2048);
    DivIs(64512, 2048, 31);
  }

  lemma ReverseShape(dp: Params, outside: int, port: nat)
    requires dp.portsPerHost >= 1 && Reverse(dp, outside, port).Host?
    ensures var o, x := Sub32(outside, dp.outsideBase), port - dp.rangeStart;
            var s := x / dp.portsPerHost;
            && x >= 0 && 0 <= o < dp.outsideCount && s >= 0 && 0 <= o * dp.ratio + s < dp.insideCount
            && dp.portsPerHost * s <= x < dp.portsPerHost * s + dp.portsPerHost
            && Reverse(dp, outside, port) == Host(Add32(dp.insideBase, o * dp.ratio + s))
  {
  }

  lemma OwnSlot(dp: Params, o: nat, s: nat, x: int)
    requires s < dp.ratio && dp.portsPerHost * s <= x < dp.portsPerHost * s + dp.portsPerHost
    ensures (o * dp.ratio + s) / dp.ratio == o && (o * dp.ratio + s) % dp.ratio == s
    ensures x < dp.portsPerHost * dp.ratio
  {
    DivIs(o * dp.ratio + s, dp.ratio, o);
    Times(dp.portsPerHost, s + 1, dp.ratio);
    assert dp.portsPerHost * (s + 1) == dp.portsPerHost * s + dp.portsPerHost;
  }

  lemma LaterAddress(o: nat, r: nat, s: nat)
    requires 1 <= r <= s
    ensures (o * r + s) / r != o
  {
    var a := o * r + s;
    assert a == r * (a / r) + a % r && 0 <= a % r < r;
    assert o * r == r * o;
  }
}
