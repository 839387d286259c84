/** A stand-in for the NetTools `IPAddressRange` type the allow-list stores:
    an inclusive range of IPv4 addresses, built from a single dotted-quad
    address or from a CIDR block `a.b.c.d/n`, with `TryParse` and `Contains`. */
module IpAddressRange {
  import opened Wrappers
  import Text

  /** An IPv4 address as the 32-bit unsigned number it denotes. */
  type Ipv4 = n: nat | n < 0x1_0000_0000

  /** The addresses `begin` to `end`, both included. */
  datatype AddressRange = AddressRange(begin: Ipv4, end: Ipv4) {
    predicate Contains(address: Ipv4) {
      begin <= address <= end
    }
  }

  function Pow2(n: nat): (r: nat)
    ensures r >= 1
  {
    if n == 0 then 1 else 2 * Pow2(n - 1)
  }

  lemma {:induction false} Pow2Add(m: nat, n: nat)
    ensures Pow2(m + n) == Pow2(m) * Pow2(n)
  {
    if m > 0 {
      Pow2Add(m - 1, n);
      assert Pow2(m + n) == 2 * Pow2(m - 1 + n);
    }
  }

  /** One dotted-quad component: one to three decimal digits worth at most 255. */
  predicate IsOctet(p: string) {
    1 <= |p| <= 3 && Text.IsDigits(p) && Text.DecimalValue(p) <= 255
  }

  /** The address `a.b.c.d`. */
  function FromOctets(a: nat, b: nat, c: nat, d: nat): (r: Ipv4)
    requires a <= 255 && b <= 255 && c <= 255 && d <= 255
  {
    assert a * 256 + b <= 0xFFFF;
    assert (a * 256 + b) * 256 + c <= 0xFF_FFFF;
    ((a * 256 + b) * 256 + c) * 256 + d
  }

  /** A dotted-quad IPv4 address: exactly four octets separated by '.'. */
  function ParseAddress(s: string): (r: Option<Ipv4>)
    ensures r.Some? <==> |Text.Split(s, '.')| == 4 && forall k :: 0 <= k < 4 ==> IsOctet(Text.Split(s, '.')[k])
  {
    var parts := Text.Split(s, '.');
    if |parts| == 4 && IsOctet(parts[0]) && IsOctet(parts[1]) && IsOctet(parts[2]) && IsOctet(parts[3]) then
      Some(FromOctets(Text.DecimalValue(parts[0]), Text.DecimalValue(parts[1]),
                      Text.DecimalValue(parts[2]), Text.DecimalValue(parts[3])))
    else
      None
  }

  /** A CIDR prefix length: one or two decimal digits worth at most 32. */
  predicate IsPrefixLength(p: string) {
    1 <= |p| <= 2 && Text.IsDigits(p) && Text.DecimalValue(p) <= 32
  }

  /** The block of `2^(32 - prefix)` addresses that share the first `prefix` bits of `address`. */
  function Cidr(address: Ipv4, prefix: nat): (r: AddressRange)
    requires prefix <= 32
    ensures r.Contains(address)
  {
    Pow2Split(prefix);
    Block(address, Pow2(32 - prefix), Pow2(prefix))
  }

  /** The block of `size` consecutive addresses, aligned on `size`, that holds `address`;
      the address space is `count` such blocks. */
  function Block(address: Ipv4, size: nat, count: nat): (r: AddressRange)
    requires size >= 1 && count * size == 0x1_0000_0000
    ensures r.Contains(address)
  {
    var index := address / size;
    BlockBound(address, index, size, count);
    var begin := index * size;
    AddressRange(begin, begin + size - 1)
  }

  lemma Pow2Split(prefix: nat)
    requires prefix <= 32
    ensures Pow2(prefix) * Pow2(32 - prefix) == 0x1_0000_0000
  {
    Pow2Add(prefix, 32 - prefix);
    Pow2Values();
  }

  lemma BlockBound(x: nat, q: nat, size: nat, count: nat)
    requires size >= 1 && x < count * size && q == x / size
    ensures q * size <= x < q * size + size <= count * size
  {
    assert x == q * size + x % size;
    if q >= count {
      MulLe(count, q, size);
    } else {
      MulLe(q + 1, count, size);
      assert (q + 1) * size == q * size + size;
    }
  }

  lemma Pow2Values()
    ensures Pow2(8) == 0x100 && Pow2(16) == 0x1_0000 && Pow2(24) == 0x100_0000 && Pow2(32) == 0x1_0000_0000
  {
    Pow2Add(8, 8);
    Pow2Add(16, 8);
    Pow2Add(16, 16);
  }

  lemma {:induction false} MulLe(a: nat, b: nat, c: nat)
    requires a <= b
    ensures a * c <= b * c
  {
    if c > 0 {
      MulLe(a, b, c - 1);
      assert a * c == a * (c - 1) + a;
      assert b * c == b * (c - 1) + b;
    }
  }

  /** `IPAddressRange.TryParse` restricted to IPv4: `a.b.c.d` is the one-address
      range, `a.b.c.d/n` the CIDR block; anything else does not parse. */
  function TryParse(s: string): (r: Option<AddressRange>)
    ensures r.Some? ==> r.value.begin <= r.value.end
  {
    var parts := Text.Split(s, '/');
    if |parts| == 1 then
      match ParseAddress(s)
      case Some(a) => Some(AddressRange(a, a))
      case None => None
    else if |parts| == 2 && IsPrefixLength(parts[1]) then
      match ParseAddress(parts[0])
      case Some(a) => Some(Cidr(a, Text.DecimalValue(parts[1])))
      case None => None
    else
      None
  }

  /** The CIDR block holds exactly the addresses whose first `prefix` bits are
      those of `address`. */
  lemma CidrContainsIff(address: Ipv4, prefix: nat, x: Ipv4)
    requires prefix <= 32
    ensures Cidr(address, prefix).Contains(x) <==> x / Pow2(32 - prefix) == address / Pow2(32 - prefix)
  {
    Pow2Split(prefix);
    SameBlockIff(address, x, Pow2(32 - prefix), Pow2(prefix));
  }

  lemma SameBlockIff(address: Ipv4, x: Ipv4, size: nat, count: nat)
    requires size >= 1 && count * size == 0x1_0000_0000
    ensures Block(address, size, count).Contains(x) <==> x / size == address / size
  {
    var q := address / size;
    if Block(address, size, count).Contains(x) {
      DivBetween(x, q, size);
    }
    if x / size == q {
      BlockBound(x, q, size, count);
    }
  }

  lemma DivBetween(x: nat, q: nat, size: nat)
    requires size >= 1 && q * size <= x < q * size + size
    ensures x / size == q
  {
    var d := x / size;
    assert x == d * size + x % size;
    if d < q {
      MulLe(d + 1, q, size);
    } else if d > q {
      MulLe(q + 1, d, size);
    }
  }

  /** A `/16` block holds exactly the addresses that share its first two octets. */
  lemma Slash16Iff(a: nat, b: nat, c: nat, d: nat, a2: nat, b2: nat, c2: nat, d2: nat)
    requires a <= 255 && b <= 255 && c <= 255 && d <= 255
    requires a2 <= 255 && b2 <= 255 && c2 <= 255 && d2 <= 255
    ensures Cidr(FromOctets(a, b, c, d), 16).Contains(FromOctets(a2, b2, c2, d2)) <==> a == a2 && b == b2
  {
    CidrContainsIff(FromOctets(a, b, c, d), 16, FromOctets(a2, b2, c2, d2));
    Pow2Values();
    DivBetween(FromOctets(a, b, c, d), a * 256 + b, 0x1_0000);
    DivBetween(FromOctets(a2, b2, c2, d2), a2 * 256 + b2, 0x1_0000);
    if a * 256 + b == a2 * 256 + b2 {
      DivBetween(a * 256 + b, a, 256);
      DivBetween(a2 * 256 + b2, a2, 256);
    }
  }

  /** A `/8` block holds exactly the addresses that share its first octet. */
  lemma Slash8Iff(a: nat, b: nat, c: nat, d: nat, a2: nat, b2: nat, c2: nat, d2: nat)
    requires a <= 255 && b <= 255 && c <= 255 && d <= 255
    requires a2 <= 255 && b2 <= 255 && c2 <= 255 && d2 <= 255
    ensures Cidr(FromOctets(a, b, c, d), 8).Contains(FromOctets(a2, b2, c2, d2)) <==> a == a2
  {
    CidrContainsIff(FromOctets(a, b, c, d), 8, FromOctets(a2, b2, c2, d2));
    Pow2Values();
    DivBetween(FromOctets(a, b, c, d), a, 0x100_0000);
    DivBetween(FromOctets(a2, b2, c2, d2), a2, 0x100_0000);
  }

  /** A single address parses to the range holding exactly it. */
  lemma SingleAddressRange(s: string)
    requires '/' !in s && ParseAddress(s).Some?
    ensures TryParse(s) == Some(AddressRange(ParseAddress(s).value, ParseAddress(s).value))
  {
    Text.SplitNone(s, '/');
  }

}
