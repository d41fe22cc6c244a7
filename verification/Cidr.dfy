/** Internet addresses and CIDR blocks as PostgreSQL's `inet` and `cidr` types order them: a block is a
    network address and a prefix length, section 3.1 of RFC 4632. */
module Cidr {

  datatype Family = V4 | V6

  function Width(f: Family): nat {
    if f.V4? then 32 else 128
  }

  function Pow2(n: nat): (r: nat)
    ensures r > 0
  {
    if n == 0 then 1 else 2 * Pow2(n - 1)
  }

  /** `v >> n` and `v << n`. */
  function ShiftRight(v: nat, n: nat): nat
    decreases n
  {
    if n == 0 then v else ShiftRight(v / 2, n - 1)
  }

  function ShiftLeft(v: nat, n: nat): nat
    decreases n
  {
    if n == 0 then v else 2 * ShiftLeft(v, n - 1)
  }

  lemma {:induction false} Pow2Monotone(m: nat, n: nat)
    ensures m <= n ==> Pow2(m) <= Pow2(n)
    ensures m < n ==> Pow2(m) < Pow2(n)
    decreases n
  {
    if m < n { Pow2Monotone(m, n - 1); }
  }

  /** Shifting by m + n is shifting by m and then by n. */
  lemma {:induction false} ShiftRightAdd(v: nat, m: nat, n: nat)
    ensures ShiftRight(v, m + n) == ShiftRight(ShiftRight(v, m), n)
    decreases m
  {
    if m > 0 { ShiftRightAdd(v / 2, m - 1, n); }
  }

  /** Clearing the low n bits rounds down to a multiple of 2^n. */
  lemma {:induction false} ClearedRange(v: nat, n: nat)
    ensures ShiftLeft(ShiftRight(v, n), n) <= v < ShiftLeft(ShiftRight(v, n), n) + Pow2(n)
    decreases n
  {
    if n > 0 { ClearedRange(v / 2, n - 1); }
  }

  /** The high bits of a number composed of high and low bits. */
  lemma {:induction false} HighBits(q: nat, n: nat, r: nat)
    requires r < Pow2(n)
    ensures ShiftRight(ShiftLeft(q, n) + r, n) == q
    decreases n
  {
    if n > 0 {
      HighBits(q, n - 1, r / 2);
      assert (2 * ShiftLeft(q, n - 1) + r) / 2 == ShiftLeft(q, n - 1) + r / 2;
    }
  }

  lemma {:induction false} ShiftLeftMonotone(q: nat, p: nat, n: nat)
    requires q < p
    ensures ShiftLeft(q, n) + Pow2(n) <= ShiftLeft(p, n)
    decreases n
  {
    if n > 0 { ShiftLeftMonotone(q, p, n - 1); }
  }

  lemma {:induction false} ShiftLeftPow2(m: nat, n: nat)
    ensures ShiftLeft(Pow2(m), n) == Pow2(m + n)
    decreases n
  {
    if n > 0 { ShiftLeftPow2(m, n - 1); }
  }

  lemma {:induction false} ShiftRightBound(v: nat, m: nat, n: nat)
    requires v < Pow2(m + n)
    ensures ShiftRight(v, n) < Pow2(m)
    decreases n
  {
    if n > 0 { ShiftRightBound(v / 2, m, n - 1); }
  }

  lemma {:induction false} Pow2Add(m: nat, n: nat)
    ensures Pow2(m + n) == Pow2(m) * Pow2(n)
    decreases n
  {
    if n > 0 { Pow2Add(m, n - 1); }
  }

  /** IPv4 addresses are the numbers of 32 bits, IPv6 addresses those of 128. */
  lemma AddressesAre(v: nat)
    ensures ValidAddr(Addr(V4, v)) <==> v < 0x1_0000_0000
    ensures ValidAddr(Addr(V6, v)) <==> v < 0x1_0000_0000_0000_0000_0000_0000_0000_0000
  {
    hide Pow2;
    Pow2Of8();
    Pow2Add(8, 8);
    Pow2Add(16, 16);
    Pow2Add(32, 32);
    Pow2Add(64, 64);
  }

  lemma Pow2Of8()
    ensures Pow2(8) == 256
  {
  }

  datatype RawAddr = Addr(family: Family, value: nat)

  predicate ValidAddr(a: RawAddr) {
    a.value < Pow2(Width(a.family))
  }

  type Address = a: RawAddr | ValidAddr(a) witness Addr(V4, 0)

  datatype RawNet = Net(family: Family, base: nat, len: nat)

  /** The number of addresses of a block. */
  function Size(n: RawNet): nat
    requires n.len <= Width(n.family)
  {
    Pow2(Width(n.family) - n.len)
  }

  /** The address bits behind the prefix are zero, as the `cidr` type demands. */
  predicate ValidNet(n: RawNet) {
    n.len <= Width(n.family) && n.base < Pow2(Width(n.family)) &&
    n.base == Cleared(n.family, n.base, n.len)
  }

  function Cleared(f: Family, value: nat, len: nat): nat
    requires len <= Width(f)
  {
    ShiftLeft(ShiftRight(value, Width(f) - len), Width(f) - len)
  }

  type Block = n: RawNet | ValidNet(n) witness (WitnessIsBlock(); Net(V4, 0, 32))

  lemma WitnessIsBlock()
    ensures ValidNet(Net(V4, 0, 32))
  {
    assert ShiftRight(0, 0) == 0 && ShiftLeft(0, 0) == 0;
  }

  /** The first `len` bits. */
  function Prefix(f: Family, value: nat, len: nat): nat
    requires len <= Width(f)
  {
    ShiftRight(value, Width(f) - len)
  }

  /** `c <<= d`: same family, no shorter prefix, equal in the bits of d's prefix. */
  predicate Within(c: Block, d: Block) {
    c.family == d.family && d.len <= c.len && Prefix(d.family, c.base, d.len) == Prefix(d.family, d.base, d.len)
  }

  /** `c << d`. */
  predicate StrictlyWithin(c: Block, d: Block) {
    c.family == d.family && d.len < c.len && Prefix(d.family, c.base, d.len) == Prefix(d.family, d.base, d.len)
  }

  /** A single address as a block. */
  function Host(a: Address): Block {
    HostIsBlock(a);
    Net(a.family, a.value, Width(a.family))
  }

  lemma HostIsBlock(a: Address)
    ensures ValidNet(Net(a.family, a.value, Width(a.family)))
  {
  }

  /** network(set_masklen(a, len)). */
  function NetworkOf(a: Address, len: nat): Block
    requires len <= Width(a.family)
  {
    NetworkIsBlock(a, len);
    Net(a.family, Cleared(a.family, a.value, len), len)
  }

  lemma NetworkIsBlock(a: Address, len: nat)
    requires len <= Width(a.family)
    ensures ValidNet(Net(a.family, Cleared(a.family, a.value, len), len))
  {
    hide Width;
    var n := Width(a.family) - len;
    ClearedRange(a.value, n);
    HighBits(ShiftRight(a.value, n), n, 0);
  }

  /** The addresses of a block: `a <<= d` for a single address. */
  predicate Contains(d: Block, a: Address) {
    Within(Host(a), d)
  }

  // ---------------------------------------------------------------- meaning

  /** A block is the range of `Size` addresses from its base on. */
  lemma ContainsIsRange(d: Block, a: Address)
    ensures Contains(d, a) <==> a.family == d.family && d.base <= a.value < d.base + Size(d)
  {
    hide Width, ShiftRight, ShiftLeft, Pow2;
    if a.family == d.family {
      var n := Width(d.family) - d.len;
      HostWidth(a);
      ClearedRange(a.value, n);
      if d.base <= a.value < d.base + Pow2(n) {
        HighBits(ShiftRight(d.base, n), n, a.value - d.base);
      }
    }
  }

  lemma HostWidth(a: Address)
    ensures Host(a).len == Width(a.family)
  {
  }

  lemma BlockFits(d: Block)
    ensures d.base + Size(d) <= Pow2(Width(d.family))
  {
    hide Width;
    var n := Width(d.family) - d.len;
    ShiftRightBound(d.base, d.len, n);
    ShiftLeftMonotone(ShiftRight(d.base, n), Pow2(d.len), n);
    ShiftLeftPow2(d.len, n);
  }

  /** Prefix comparison is inclusion of address sets, in both directions. */
  lemma WithinIsSubset(c: Block, d: Block)
    ensures Within(c, d) <==> forall a: Address :: Contains(c, a) ==> Contains(d, a)
  {
    if Within(c, d) {
      forall a: Address | Contains(c, a)
        ensures Contains(d, a)
      {
        WithinTransitive(Host(a), c, d);
      }
    } else {
      BlockFits(c);
      var first: Address, last: Address := Addr(c.family, c.base), Addr(c.family, c.base + Size(c) - 1);
      ContainsIsRange(c, first);
      ContainsIsRange(c, last);
      ContainsIsRange(d, first);
      ContainsIsRange(d, last);
      if c.family == d.family && c.len < d.len {
        Pow2Monotone(Width(c.family) - d.len, Width(c.family) - c.len);
      }
      hide Pow2, Width;
      assert Contains(c, first) && Contains(c, last);
      assert !(Contains(d, first) && Contains(d, last));
    }
  }

  /** A shorter prefix is a function of a longer one. */
  lemma ShorterPrefix(f: Family, v: nat, len: nat, longer: nat)
    requires len <= longer <= Width(f)
    ensures Prefix(f, v, len) == ShiftRight(Prefix(f, v, longer), longer - len)
  {
    ShiftRightAdd(v, Width(f) - longer, longer - len);
  }

  lemma WithinTransitive(b: Block, c: Block, d: Block)
    requires Within(b, c) && Within(c, d)
    ensures Within(b, d)
  {
    ShorterPrefix(d.family, b.base, d.len, c.len);
    ShorterPrefix(d.family, c.base, d.len, c.len);
  }

  lemma WithinAntisymmetric(c: Block, d: Block)
    requires Within(c, d) && Within(d, c)
    ensures c == d
  {
    assert c.base == ShiftLeft(Prefix(c.family, c.base, c.len), Width(c.family) - c.len);
  }

  /** Two blocks are nested or share no address. */
  lemma NestedOrDisjoint(c: Block, d: Block, a: Address)
    requires Contains(c, a) && Contains(d, a)
    ensures Within(c, d) || Within(d, c)
  {
    if d.len <= c.len {
      SharedPrefix(c, d, a);
    } else {
      SharedPrefix(d, c, a);
    }
  }

  lemma SharedPrefix(c: Block, d: Block, a: Address)
    requires Contains(c, a) && Contains(d, a) && d.len <= c.len
    ensures Within(c, d)
  {
    ShorterPrefix(d.family, a.value, d.len, c.len);
    ShorterPrefix(d.family, c.base, d.len, c.len);
  }

  lemma StrictlyWithinMeaning(c: Block, d: Block)
    ensures StrictlyWithin(c, d) <==> Within(c, d) && c != d
  {
    if Within(c, d) && c.len == d.len {
      WithinAntisymmetric(c, d);
    }
  }

  /** NetworkOf is the one block of that length that holds the address. */
  lemma NetworkOfUnique(a: Address, len: nat, d: Block)
    requires len <= Width(a.family)
    ensures d == NetworkOf(a, len) <==> d.len == len && Contains(d, a)
  {
    hide Width;
    var n := Width(a.family) - len;
    HighBits(ShiftRight(a.value, n), n, 0);
  }

  lemma WithinReflexive(c: Block)
    ensures Within(c, c) && !StrictlyWithin(c, c)
  {
  }
}
