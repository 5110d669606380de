/** Internet checksums by their residue modulo 65535. A packet verifies when its 16-bit words, checksum
    included, sum to a multiple of 65535; a change of fields is carried over to the checksum without
    reading the rest of the packet (section 3 of RFC 1624). */
module Checksum {

  const M: int := 65535

  type u16 = x: int | 0 <= x < 0x1_0000

  /** The checksum library adds or subtracts a term; which of the two its "add" does is a convention. */
  type Sign = s: int | s == 1 || s == -1 witness 1

  function AddEven(sign: Sign, c: int, x: int): int { c + sign * x }

  function SubEven(sign: Sign, c: int, x: int): int { c - sign * x }

  /** Folding keeps the residue and yields 16 bits. Which of 0 and 0xFFFF stands for a zero residue is
      not relied on. */
  method Fold(c: int) returns (r: u16)
    ensures r % M == c % M
  {
    r := c % M;
  }

  datatype Addr = Addr(hi: u16, lo: u16)

  function Words(a: Addr): int { a.hi + a.lo }

  /** cgnat_flow_csum_calc: the address delta, and the delta of a checksum that also covers a port and,
      for TCP and UDP, the addresses. */
  function L3Delta(sign: Sign, before: Addr, after: Addr): int {
    AddEven(sign, SubEven(sign, 0, Words(after)), Words(before))
  }

  function L4Delta(sign: Sign, before: Addr, after: Addr, portBefore: u16, portAfter: u16, pseudo: bool): int {
    AddEven(sign, SubEven(sign, if pseudo then L3Delta(sign, before, after) else 0, portAfter), portBefore)
  }

  /** Under either convention the net effect on a checksum is old minus new. */
  lemma NetEffect(sign: Sign, c: int, before: Addr, after: Addr, portBefore: u16, portAfter: u16, pseudo: bool)
    ensures AddEven(sign, c, L3Delta(sign, before, after)) == c + Words(before) - Words(after)
    ensures AddEven(sign, c, L4Delta(sign, before, after, portBefore, portAfter, pseudo))
         == c + (if pseudo then Words(before) - Words(after) else 0) + portBefore - portAfter
  {
    assert sign * sign == 1;
    assert sign * (sign * (Words(before) - Words(after))) == sign * sign * (Words(before) - Words(after));
    assert sign * (sign * portBefore - sign * portAfter) == sign * sign * (portBefore - portAfter);
    assert L3Delta(sign, before, after) == sign * (Words(before) - Words(after));
    assert L4Delta(sign, before, after, portBefore, portAfter, pseudo)
        == (if pseudo then sign * (Words(before) - Words(after)) else 0) + (sign * portBefore - sign * portAfter);
  }

  /** The two directions' deltas of one session cancel, and so do those of a fragment record. */
  lemma DeltasCancel(sign: Sign, inside: Addr, outside: Addr, insidePort: u16, outsidePort: u16, pseudo: bool)
    ensures L3Delta(sign, inside, outside) + L3Delta(sign, outside, inside) == 0
    ensures L4Delta(sign, inside, outside, insidePort, outsidePort, pseudo)
        + L4Delta(sign, outside, inside, outsidePort, insidePort, pseudo) == 0
  {
  }

  // ---------------------------------------------------------------- sums of words

  function SumOf(ws: seq<u16>): nat {
    if ws == [] then 0 else SumOf(ws[..|ws| - 1]) + ws[|ws| - 1]
  }

  lemma {:induction false} SumAt(ws: seq<u16>, i: int, v: u16)
    requires 0 <= i < |ws|
    ensures SumOf(ws[i := v]) == SumOf(ws) - ws[i] + v
  {
    var n := |ws| - 1;
    if i == n {
      assert ws[i := v][..n] == ws[..n];
    } else {
      assert ws[i := v][..n] == ws[..n][i := v];
      SumAt(ws[..n], i, v);
    }
  }

  /** Equal residues stay equal when equal amounts are added. */
  lemma Shift(a: int, b: int, d: int)
    requires a % M == b % M
    ensures (a + d) % M == (b + d) % M
  {
    var k := a / M - b / M;
    assert a == b + M * k;
    Wrap(b + d, k);
  }

  lemma Wrap(x: int, k: int)
    ensures (x + M * k) % M == x % M
    decreases if k < 0 then -k else k
  {
    if k > 0 {
      Wrap(x, k - 1);
      assert x + M * k == (x + M * (k - 1)) + M;
      Once(x + M * (k - 1));
    } else if k < 0 {
      Wrap(x, k + 1);
      assert x + M * (k + 1) == (x + M * k) + M;
      Once(x + M * k);
    }
  }

  lemma Once(x: int)
    ensures (x + M) % M == x % M
  {
  }

  // ---------------------------------------------------------------- UDP's zero

  /** cgnat_udp_csum_update: no checksum stays none, and a computed zero is sent as all ones. */
  method UdpUpdate(sign: Sign, c: u16, delta: int) returns (r: u16)
    ensures r == 0 <==> c == 0
    ensures c != 0 ==> r % M == AddEven(sign, c, delta) % M
  {
    if c == 0 { return 0; }
    r := Fold(AddEven(sign, c, delta));
    if r == 0 { r := 0xFFFF; }
  }

  /** Away from zero a 16-bit checksum is determined by its residue. */
  lemma NonZeroUnique(a: u16, b: u16)
    requires a != 0 && b != 0 && a % M == b % M
    ensures a == b
  {
  }
}
