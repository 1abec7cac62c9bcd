/** Address ranges as a network and a prefix: membership, parsing, and how two of them lie. */
module Cidr {

  datatype IpAddr = V4(bits: nat) | V6(bits: nat)

  datatype Cidr = Cidr(network: IpAddr, prefix: nat)

  /** The text after the slash: none, a number, or nothing `u8` reads. */
  datatype Prefix = Bare | Number(n: nat) | Unreadable

  datatype Refusal = Mapped | BadPrefix | HostBits(network: nat)

  datatype Parsed = Accepted(range: Cidr) | Refused(why: Refusal)

  function Pow2(k: nat): (p: nat)
    ensures p >= 1
  {
    if k == 0 then 1 else 2 * Pow2(k - 1)
  }

  function Width(a: IpAddr): nat
  {
    if a.V4? then 32 else 128
  }

  ghost predicate Address(a: IpAddr)
  {
    a.bits < Pow2(Width(a))
  }

  /** IPv4-mapped addresses: section 2.5.5.2 of RFC 4291. */
  predicate IsMapped(a: IpAddr)
  {
    a.V6? && a.bits / 0x1_0000_0000 == 0xffff
  }

  function Canonical(a: IpAddr): IpAddr
  {
    if IsMapped(a) then V4(a.bits % 0x1_0000_0000) else a
  }

  /** A 128-bit shift right and back left; a shift of the whole width leaves nothing. */
  function NetworkBits(bits: nat, width: nat, prefix: nat): nat
    requires prefix <= width
  {
    var host := width - prefix;
    if host >= 128 then 0 else ShiftedBack(bits, Pow2(host))
  }

  function ShiftedBack(bits: nat, size: nat): nat
    requires size >= 1
  {
    DivMul(bits, size);
    bits / size * size
  }

  /** A range has no host bits set and a prefix within its family's width. */
  ghost predicate Valid(c: Cidr)
  {
    && Address(c.network)
    && c.prefix <= Width(c.network)
    && c.network.bits % Size(c) == 0
  }

  /** How many addresses a range spans. */
  ghost function Size(c: Cidr): nat
    ensures Size(c) >= 1
  {
    if c.prefix <= Width(c.network) then Pow2(Width(c.network) - c.prefix) else 1
  }

  predicate Contains(c: Cidr, peer: IpAddr)
    requires c.prefix <= Width(c.network)
  {
    var p := Canonical(peer);
    p.V4? == c.network.V4? && NetworkBits(p.bits, Width(p), c.prefix) == c.network.bits
  }

  function Parse(addr: IpAddr, prefix: Prefix): Parsed
  {
    if IsMapped(addr) then Refused(Mapped)
    else
      var width := Width(addr);
      var n := match prefix case Bare => width case Number(n) => n case Unreadable => width + 1;
      if n > width then Refused(BadPrefix)
      else
        var masked := NetworkBits(addr.bits, width, n);
        if masked != addr.bits then Refused(HostBits(masked)) else Accepted(Cidr(addr, n))
  }

  // -------------------------------------------------------------------------

  lemma DivMul(a: nat, b: nat)
    requires b >= 1
    ensures a == a / b * b + a % b && 0 <= a % b < b && 0 <= a / b * b <= a
  {
  }

  /** Masking is rounding down to a multiple of the range's size. */
  lemma Masked(bits: nat, width: nat, prefix: nat)
    requires prefix <= width <= 128 && bits < Pow2(width)
    ensures NetworkBits(bits, width, prefix) == bits - bits % Pow2(width - prefix)
  {
    var size := Pow2(width - prefix);
    DivMul(bits, size);
    if width - prefix >= 128 {
      assert bits % size == bits by { SmallMod(bits, size); }
    }
  }

  lemma SmallMod(a: nat, b: nat)
    requires a < b
    ensures a % b == a && a / b == 0
  {
  }

  lemma CanonicalAddress(a: IpAddr)
    requires Address(a)
    ensures Address(Canonical(a)) && !IsMapped(Canonical(a))
  {
    hide Pow2;
    Pow2At32();
  }

  lemma Pow2At32()
    ensures Pow2(32) == 0x1_0000_0000
  {
    assert Pow2(8) == 256;
    hide Pow2;
    Pow2Add(8, 8);
    Pow2Add(16, 16);
  }

  lemma {:induction false} Pow2Add(a: nat, b: nat)
    ensures Pow2(a + b) == Pow2(a) * Pow2(b)
    decreases b
  {
    if b > 0 {
      Pow2Add(a, b - 1);
      assert Pow2(a + b) == 2 * Pow2(a + b - 1);
      assert Pow2(a) * Pow2(b) == 2 * (Pow2(a) * Pow2(b - 1));
    }
  }

  /** Rounding `p` down to a multiple of `size` gives `net`, itself one, exactly when `p` is in its block. */
  lemma Block(p: nat, net: nat, size: nat)
    requires size >= 1 && net % size == 0
    ensures p - p % size == net <==> net <= p < net + size
  {
    DivMul(p, size);
    DivMul(net, size);
    var i, j := p / size, net / size;
    if net <= p < net + size && i != j {
      if i < j {
        Apart(i, j, size);
      } else {
        Apart(j, i, size);
      }
    }
  }

  lemma Apart(i: int, j: int, size: nat)
    requires i < j
    ensures i * size + size <= j * size
  {
    assert j * size == i * size + (j - i) * size;
    assert (j - i) * size >= 1 * size by { MulAtLeast(j - i, size); }
  }

  lemma MulAtLeast(k: int, size: nat)
    requires k >= 1
    ensures k * size >= size
  {
  }

  /**
    Matching is interval membership: the peer, an IPv4-mapped one taken as
    IPv4, is of the range's family and between its first and last address.
  */
  lemma ContainsIsInterval(c: Cidr, peer: IpAddr)
    requires Valid(c) && Address(peer)
    ensures Contains(c, peer) <==>
              var p := Canonical(peer);
              p.V4? == c.network.V4? && c.network.bits <= p.bits <= c.network.bits + Size(c) - 1
  {
    hide Pow2, NetworkBits;
    var p := Canonical(peer);
    CanonicalAddress(peer);
    if p.V4? == c.network.V4? {
      Masked(p.bits, Width(p), c.prefix);
      Block(p.bits, c.network.bits, Size(c));
    }
  }

  /** A mapped peer, `::ffff:a.b.c.d`, is matched exactly as the IPv4 peer `a.b.c.d`. */
  lemma MappedIsV4(c: Cidr, b: nat)
    requires c.prefix <= Width(c.network) && b < 0x1_0000_0000
    ensures Contains(c, V6(0xffff * 0x1_0000_0000 + b)) == Contains(c, V4(b))
  {
    var mapped := V6(0xffff * 0x1_0000_0000 + b);
    assert mapped.bits / 0x1_0000_0000 == 0xffff && mapped.bits % 0x1_0000_0000 == b;
  }

  /** Any other IPv6 peer is matched as it is, and an IPv4 range holds none. */
  lemma UnmappedIsItself(c: Cidr, bits: nat)
    requires Valid(c) && bits < Pow2(128)
    requires bits < 0xffff * 0x1_0000_0000 || bits >= 0x1_0000 * 0x1_0000_0000
    ensures Contains(c, V6(bits)) <==> c.network.V6? && c.network.bits <= bits <= c.network.bits + Size(c) - 1
  {
    hide Pow2, Contains, Valid, Size;
    assert bits / 0x1_0000_0000 != 0xffff;
    ContainsIsInterval(c, V6(bits));
  }

  /** Parsing accepts exactly the unmapped networks with no host bits, and keeps what it was given. */
  lemma ParseAccepts(addr: IpAddr, prefix: Prefix)
    requires Address(addr)
    ensures var n := if prefix.Number? then prefix.n else Width(addr);
            Parse(addr, prefix) == Accepted(Cidr(addr, n)) <==>
              !IsMapped(addr) && !prefix.Unreadable? && n <= Width(addr) && addr.bits % Pow2(Width(addr) - n) == 0
    ensures Parse(addr, prefix).Accepted? ==>
              Valid(Parse(addr, prefix).range) && Contains(Parse(addr, prefix).range, addr)
    // A refusal for host bits names the network that holds the address.
    ensures Parse(addr, prefix).Refused? && Parse(addr, prefix).why.HostBits? ==>
              var n := if prefix.Number? then prefix.n else Width(addr);
              var net := addr.(bits := Parse(addr, prefix).why.network);
              n <= Width(addr) && Valid(Cidr(net, n)) && Contains(Cidr(net, n), addr)
  {
    hide Pow2, NetworkBits, Valid, Contains;
    var n := if prefix.Number? then prefix.n else Width(addr);
    if !IsMapped(addr) && n <= Width(addr) {
      NetworkHolds(addr, n);
    }
  }

  /** The network an address is masked to is a range that holds it, and is the address exactly without host bits. */
  lemma NetworkHolds(addr: IpAddr, n: nat)
    requires Address(addr) && !IsMapped(addr) && n <= Width(addr)
    ensures var bits := NetworkBits(addr.bits, Width(addr), n);
            && (bits == addr.bits <==> addr.bits % Pow2(Width(addr) - n) == 0)
            && Valid(Cidr(addr.(bits := bits), n)) && Contains(Cidr(addr.(bits := bits), n), addr)
  {
    hide Pow2, NetworkBits;
    var size := Pow2(Width(addr) - n);
    Masked(addr.bits, Width(addr), n);
    DivMul(addr.bits, size);
    MultipleMod(addr.bits / size, size);
    assert NetworkBits(addr.bits, Width(addr), n) == addr.bits / size * size;
  }

  lemma MultipleMod(k: nat, size: nat)
    requires size >= 1
    ensures k * size % size == 0
  {
    DivMul(k * size, size);
    var j := k * size / size;
    if j < k {
      Apart(j, k, size);
    } else if k < j {
      Apart(k, j, size);
    }
  }

  ghost predicate Within(c: Cidr, d: Cidr)
  {
    c.prefix <= Width(c.network) && d.prefix <= Width(d.network) &&
    forall p :: Address(p) && Contains(c, p) ==> Contains(d, p)
  }

  ghost predicate Disjoint(c: Cidr, d: Cidr)
  {
    c.prefix <= Width(c.network) && d.prefix <= Width(d.network) &&
    forall p :: Address(p) ==> !(Contains(c, p) && Contains(d, p))
  }

  /** A block of `size * k` either holds a block of `size` whole or not at all. */
  lemma Nested(a: nat, b: nat, size: nat, k: nat)
    requires size >= 1 && k >= 1 && a % size == 0 && b % (size * k) == 0
    ensures (b <= a && a + size <= b + size * k) || a + size <= b || b + size * k <= a
  {
    DivMul(a, size);
    DivMul(b, size * k);
    var i, j := a / size, b / (size * k);
    assert b == j * k * size;
    assert b + size * k == (j * k + k) * size;
    if i < j * k {
      Apart(i, j * k, size);
    } else if i < j * k + k {
      Apart(i, j * k + k, size);
      if i > j * k {
        Apart(j * k, i, size);
      }
    } else if i > j * k + k {
      Apart(j * k + k, i, size);
    }
  }

  /** Any two ranges of one family are nested or disjoint. */
  lemma NestedOrDisjoint(c: Cidr, d: Cidr)
    requires Valid(c) && Valid(d) && c.network.V4? == d.network.V4?
    ensures Within(c, d) || Within(d, c) || Disjoint(c, d)
  {
    if d.prefix <= c.prefix {
      NestedBelow(c, d);
    } else {
      NestedBelow(d, c);
    }
  }

  lemma NestedBelow(c: Cidr, d: Cidr)
    requires Valid(c) && Valid(d) && c.network.V4? == d.network.V4? && d.prefix <= c.prefix
    ensures Within(c, d) || Disjoint(c, d)
  {
    hide Pow2, Contains;
    var w := Width(c.network);
    Pow2Add(w - c.prefix, c.prefix - d.prefix);
    Nested(c.network.bits, d.network.bits, Size(c), Pow2(c.prefix - d.prefix));
    var inside := d.network.bits <= c.network.bits && c.network.bits + Size(c) <= d.network.bits + Size(d);
    forall p | Address(p)
      ensures inside ==> Contains(c, p) ==> Contains(d, p)
      ensures !inside ==> !(Contains(c, p) && Contains(d, p))
    {
      ContainsIsInterval(c, p);
      ContainsIsInterval(d, p);
    }
    if inside {
      assert Within(c, d);
    } else {
      assert Disjoint(c, d);
    }
  }
}
