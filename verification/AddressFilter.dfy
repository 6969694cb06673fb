/**
 The two address filters: `is_public_ip` of the crawler (Rust) and
 `isPublicSourceIP` of the API (Go). An address is kept as the number its bits
 spell. The Rust mask test works on the whole word, the Go one byte by byte;
 both are tied to an interval of numbers, which is what lets two different
 range tables be compared. CIDR masks: section 3.1 of RFC 4632; IPv4-mapped
 addresses: section 2.5.5.2 of RFC 4291.
 */
module AddressFilter {

  type U32 = n: nat | n < 0x1_0000_0000
  type U128 = n: nat | n < 0x1_0000_0000_0000_0000_0000_0000_0000_0000

  datatype IpAddr = V4(bits: U32) | V6(wide: U128)

  datatype Cidr = Cidr(network: nat, prefix: nat)

  // Words are handled one bit at a time: `Shl` and `Shr` are the shifts, `Low`
  // keeps the lowest bits (what truncation to a word leaves), `Ones(w)` is the
  // largest value of a w-bit word.

  function Ones(width: nat): nat {
    if width == 0 then 0 else 1 + 2 * Ones(width - 1)
  }

  function Shl(a: nat, k: nat): nat {
    if k == 0 then a else 2 * Shl(a, k - 1)
  }

  function Shr(a: nat, k: nat): nat {
    if k == 0 then a else Shr(a / 2, k - 1)
  }

  function Low(a: nat, width: nat): nat {
    if width == 0 then 0 else a % 2 + 2 * Low(a / 2, width - 1)
  }

  function BitAnd(a: nat, b: nat): nat {
    if a == 0 || b == 0 then 0
    else (if a % 2 == 1 && b % 2 == 1 then 1 else 0) + 2 * BitAnd(a / 2, b / 2)
  }

  /** `MAX << (width - prefix)`, with the bits shifted out of the word lost. */
  function Mask(width: nat, prefix: nat): nat
    requires prefix <= width
  {
    if prefix == 0 then 0 else Low(Shl(Ones(width), width - prefix), width)
  }

  /** `u32::from(address) & mask == u32::from(network) & mask`, and the same on u128. */
  predicate MaskedEqual(address: nat, c: Cidr, width: nat)
    requires c.prefix <= width
  {
    BitAnd(address, Mask(width, c.prefix)) == BitAnd(c.network, Mask(width, c.prefix))
  }

  /** No bit of the network is set below its mask. */
  predicate Aligned(c: Cidr, width: nat) {
    && c.prefix <= width
    && c.network <= Ones(width)
    && Low(c.network, width - c.prefix) == 0
  }

  /** The 2^(width-prefix) addresses that start at the network. */
  predicate InBlock(a: nat, c: Cidr, width: nat)
    requires c.prefix <= width
  {
    c.network <= a <= c.network + Ones(width - c.prefix)
  }

  // ---------- masks are intervals ----------

  lemma {:induction false} SplitWord(a: nat, k: nat)
    ensures a == Shl(Shr(a, k), k) + Low(a, k)
    ensures Low(a, k) <= Ones(k)
  {
    if k > 0 { SplitWord(a / 2, k - 1); ShlDoubles(Shr(a, k), k - 1); }
  }

  lemma {:induction false} ShlDoubles(a: nat, k: nat)
    ensures Shl(2 * a, k) == 2 * Shl(a, k)
  {
    if k > 0 { ShlDoubles(a, k - 1); }
  }

  lemma {:induction false} ShlMonotone(a: nat, b: nat, k: nat)
    requires a < b
    ensures Shl(a, k) + Ones(k) + 1 <= Shl(b, k)
  {
    if k > 0 { ShlMonotone(a, b, k - 1); }
  }

  lemma {:induction false} ShrBound(a: nat, width: nat, k: nat)
    requires k <= width && a <= Ones(width)
    ensures Shr(a, k) <= Ones(width - k)
  {
    if k > 0 { ShrBound(a / 2, width - 1, k - 1); }
  }

  lemma {:induction false} LowOfShl(m: nat, k: nat, width: nat)
    requires k <= width
    ensures Low(Shl(m, k), width) == Shl(Low(m, width - k), k)
  {
    if k > 0 {
      LowOfShl(m, k - 1, width - 1);
      var twice := Shl(m, k);
      assert twice % 2 == 0 && twice / 2 == Shl(m, k - 1);
      assert Low(twice, width) == 2 * Low(Shl(m, k - 1), width - 1);
    }
  }

  lemma {:induction false} LowOfOnes(width: nat, p: nat)
    requires p <= width
    ensures Low(Ones(width), p) == Ones(p)
  {
    if p > 0 { LowOfOnes(width - 1, p - 1); }
  }

  lemma {:induction false} BitAndOnes(a: nat, p: nat)
    requires a <= Ones(p)
    ensures BitAnd(a, Ones(p)) == a
  {
    if p > 0 { BitAndOnes(a / 2, p - 1); }
  }

  lemma {:induction false} BitAndShl(a: nat, m: nat, k: nat)
    ensures BitAnd(a, Shl(m, k)) == Shl(BitAnd(Shr(a, k), m), k)
  {
    if k > 0 {
      BitAndShl(a / 2, m, k - 1);
      if a > 0 && Shl(m, k) > 0 {
      } else if a == 0 {
        ShrOfZero(k);
        ShlOfZero(k);
      }
    }
  }

  lemma {:induction false} ShrOfZero(k: nat)
    ensures Shr(0, k) == 0
  {
    if k > 0 { ShrOfZero(k - 1); }
  }

  lemma {:induction false} ShlOfZero(k: nat)
    ensures Shl(0, k) == 0
  {
    if k > 0 { ShlOfZero(k - 1); }
  }

  /** Masking clears the low bits and keeps the others. */
  lemma MaskClearsLowBits(a: nat, width: nat, prefix: nat)
    requires prefix <= width && a <= Ones(width)
    ensures BitAnd(a, Mask(width, prefix)) == Shl(Shr(a, width - prefix), width - prefix)
  {
    var k := width - prefix;
    ShrBound(a, width, k);
    if prefix == 0 {
      ShlOfZero(k);
    } else {
      LowOfShl(Ones(width), k, width);
      LowOfOnes(width, prefix);
      BitAndShl(a, Ones(prefix), k);
      BitAndOnes(Shr(a, k), prefix);
    }
  }

  /** A mask test is an interval test: it holds exactly on the network's block of addresses. */
  lemma MaskIsInterval(address: nat, c: Cidr, width: nat)
    requires Aligned(c, width) && address <= Ones(width)
    ensures MaskedEqual(address, c, width) <==> InBlock(address, c, width)
  {
    MaskClearsLowBits(address, width, c.prefix);
    MaskClearsLowBits(c.network, width, c.prefix);
    BlockOfHighBits(address, c.network, width - c.prefix);
  }

  /** The numbers that share the high bits of one whose low bits are zero. */
  lemma BlockOfHighBits(a: nat, network: nat, k: nat)
    requires Low(network, k) == 0
    ensures Shl(Shr(a, k), k) == Shl(Shr(network, k), k) <==> network <= a <= network + Ones(k)
  {
    SplitWord(a, k);
    SplitWord(network, k);
    if Shr(a, k) < Shr(network, k) {
      ShlMonotone(Shr(a, k), Shr(network, k), k);
    } else if Shr(network, k) < Shr(a, k) {
      ShlMonotone(Shr(network, k), Shr(a, k), k);
    }
  }

  // ---------- the byte-wise test of Go's IPNet.Contains ----------

  /** Big-endian bytes, as a net.IP holds them. */
  function Bytes(value: nat, count: nat): (r: seq<nat>)
    ensures |r| == count
    decreases count
  {
    if count == 0 then [] else Bytes(Shr(value, 8), count - 1) + [Low(value, 8)]
  }

  /** `nn[i] & m[i] != ip[i] & m[i]` for no i. */
  predicate BytesContain(network: seq<nat>, mask: seq<nat>, ip: seq<nat>)
    requires |network| == |mask| == |ip|
  {
    forall i :: 0 <= i < |ip| ==> BitAnd(network[i], mask[i]) == BitAnd(ip[i], mask[i])
  }

  predicate GoContains(c: Cidr, a: nat, count: nat)
    requires c.prefix <= 8 * count
  {
    BytesContain(Bytes(c.network, count), Bytes(Mask(8 * count, c.prefix), count), Bytes(a, count))
  }

  lemma BitAndSplit(a: nat, b: nat, k: nat)
    ensures Shr(BitAnd(a, b), k) == BitAnd(Shr(a, k), Shr(b, k))
    ensures Low(BitAnd(a, b), k) == BitAnd(Low(a, k), Low(b, k))
  {
    BitAndHigh(a, b, k);
    BitAndLow(a, b, k);
  }

  lemma {:induction false} BitAndHigh(a: nat, b: nat, k: nat)
    ensures Shr(BitAnd(a, b), k) == BitAnd(Shr(a, k), Shr(b, k))
    decreases k
  {
    if k > 0 {
      BitAndStep(a, b);
      BitAndHigh(a / 2, b / 2, k - 1);
    }
  }

  lemma {:induction false} BitAndLow(a: nat, b: nat, k: nat)
    ensures Low(BitAnd(a, b), k) == BitAnd(Low(a, k), Low(b, k))
    decreases k
  {
    if k > 0 {
      BitAndStep(a, b);
      BitAndStep(Low(a, k), Low(b, k));
      BitAndLow(a / 2, b / 2, k - 1);
    }
  }

  lemma BitAndStep(a: nat, b: nat)
    ensures BitAnd(a, b) / 2 == BitAnd(a / 2, b / 2)
    ensures BitAnd(a, b) % 2 == if a % 2 == 1 && b % 2 == 1 then 1 else 0
  {
  }

  lemma EqualByParts(x: nat, y: nat, k: nat)
    ensures x == y <==> Shr(x, k) == Shr(y, k) && Low(x, k) == Low(y, k)
  {
    SplitWord(x, k);
    SplitWord(y, k);
  }

  lemma {:induction false} OnesBelow(a: nat, width: nat)
    requires a <= Ones(width)
    ensures Low(a, width) == a
  {
    if width > 0 { OnesBelow(a / 2, width - 1); }
  }

  lemma {:induction false} LowBound(a: nat, width: nat)
    ensures Low(a, width) <= Ones(width)
  {
    if width > 0 { LowBound(a / 2, width - 1); }
  }

  /** Go's byte loop decides the same as one test on the whole word. */
  lemma {:induction false} ByteTestIsWordTest(network: nat, mask: nat, ip: nat, count: nat)
    requires network <= Ones(8 * count) && mask <= Ones(8 * count) && ip <= Ones(8 * count)
    ensures BytesContain(Bytes(network, count), Bytes(mask, count), Bytes(ip, count))
       <==> BitAnd(ip, mask) == BitAnd(network, mask)
    decreases count
  {
    if count > 0 {
      var l := count - 1;
      ShrBound(network, 8 * count, 8);
      ShrBound(mask, 8 * count, 8);
      ShrBound(ip, 8 * count, 8);
      ByteTestIsWordTest(Shr(network, 8), Shr(mask, 8), Shr(ip, 8), l);
      BitAndSplit(ip, mask, 8);
      BitAndSplit(network, mask, 8);
      EqualByParts(BitAnd(ip, mask), BitAnd(network, mask), 8);
      LastByte(Bytes(Shr(network, 8), l), Bytes(Shr(mask, 8), l), Bytes(Shr(ip, 8), l),
               Low(network, 8), Low(mask, 8), Low(ip, 8));
    }
  }

  lemma LastByte(network: seq<nat>, mask: seq<nat>, ip: seq<nat>, n: nat, m: nat, a: nat)
    requires |network| == |mask| == |ip|
    ensures BytesContain(network + [n], mask + [m], ip + [a])
       <==> BytesContain(network, mask, ip) && BitAnd(n, m) == BitAnd(a, m)
  {
    var n', m', a' := network + [n], mask + [m], ip + [a];
    var l := |ip|;
    assert n'[l] == n && m'[l] == m && a'[l] == a;
    if BytesContain(n', m', a') {
      forall i | 0 <= i < l ensures BitAnd(network[i], mask[i]) == BitAnd(ip[i], mask[i]) {
        assert BitAnd(n'[i], m'[i]) == BitAnd(a'[i], m'[i]);
      }
    }
  }

  // ---------- the two range tables ----------

  /** The IANA special-purpose IPv4 ranges; both programs list the same thirteen. */
  const IPV4_SPECIAL: seq<Cidr> := [
    Cidr(0x00000000, 8), Cidr(0x64400000, 10), Cidr(0xC0000000, 24), Cidr(0xC0000200, 24),
    Cidr(0xC01FC400, 24), Cidr(0xC034C100, 24), Cidr(0xC0586300, 24), Cidr(0xC0AF3000, 24),
    Cidr(0xC6120000, 15), Cidr(0xC6336400, 24), Cidr(0xCB007100, 24), Cidr(0xE0000000, 4),
    Cidr(0xF0000000, 4)]

  const RUST_IPV6_SPECIAL: seq<Cidr> := [
    Cidr(0x0064ff9b_0000_0000_0000_0000_0000_0000, 96),
    Cidr(0x0064ff9b_0001_0000_0000_0000_0000_0000, 48),
    Cidr(0x2002_0000_0000_0000_0000_0000_0000_0000, 16),
    Cidr(0x2001_0000_0000_0000_0000_0000_0000_0000, 23),
    Cidr(0x2001_0000_0000_0000_0000_0000_0000_0000, 32),
    Cidr(0x2001_0002_0000_0000_0000_0000_0000_0000, 48),
    Cidr(0x2001_0003_0000_0000_0000_0000_0000_0000, 32),
    Cidr(0x2001_0010_0000_0000_0000_0000_0000_0000, 28),
    Cidr(0x2001_0020_0000_0000_0000_0000_0000_0000, 28),
    Cidr(0x2001_0db8_0000_0000_0000_0000_0000_0000, 32),
    Cidr(0x3000_0000_0000_0000_0000_0000_0000_0000, 4),
    Cidr(0x3fff_0000_0000_0000_0000_0000_0000_0000, 20),
    Cidr(0xff00_0000_0000_0000_0000_0000_0000_0000, 8)]

  const GO_IPV6_SPECIAL: seq<Cidr> := [
    Cidr(0x0064ff9b_0000_0000_0000_0000_0000_0000, 96),
    Cidr(0x0064ff9b_0001_0000_0000_0000_0000_0000, 48),
    Cidr(0x2001_0000_0000_0000_0000_0000_0000_0000, 23),
    Cidr(0x2001_0002_0000_0000_0000_0000_0000_0000, 48),
    Cidr(0x2001_0010_0000_0000_0000_0000_0000_0000, 28),
    Cidr(0x2001_0020_0000_0000_0000_0000_0000_0000, 28),
    Cidr(0x2001_0db8_0000_0000_0000_0000_0000_0000, 32),
    Cidr(0x2002_0000_0000_0000_0000_0000_0000_0000, 16),
    Cidr(0x3000_0000_0000_0000_0000_0000_0000_0000, 4),
    Cidr(0x3fff_0000_0000_0000_0000_0000_0000_0000, 20),
    Cidr(0xff00_0000_0000_0000_0000_0000_0000_0000, 8)]

  const GLOBAL_IPV6 := Cidr(0x2000_0000_0000_0000_0000_0000_0000_0000, 3)

  // ---------- address classes of the two standard libraries ----------

  predicate Private4(a: U32) {
    || a / 0x1000000 == 10
    || 0xAC100000 <= a < 0xAC200000
    || a / 0x10000 == 0xC0A8
  }

  predicate Loopback4(a: U32) { a / 0x1000000 == 127 }

  predicate LinkLocal4(a: U32) { a / 0x10000 == 0xA9FE }

  predicate UniqueLocal6(a: U128) {
    a / 0x2_0000_0000_0000_0000_0000_0000_0000_00 == 0x7E
  }

  predicate LinkLocal6(a: U128) {
    a / 0x40_0000_0000_0000_0000_0000_0000_0000 == 0x3FA
  }

  predicate Multicast6(a: U128) {
    a / 0x1_0000_0000_0000_0000_0000_0000_0000_00 == 0xFF
  }

  /** `to_ipv4_mapped` and Go's `To4` on a 16-byte address: `::ffff:a.b.c.d`. */
  function Mapped(a: U128): (r: IpAddr)
    ensures r.V4? <==> a / 0x1_0000_0000 == 0xffff
    ensures r.V4? ==> a == 0xffff * 0x1_0000_0000 + r.bits
    ensures r.V6? ==> r.wide == a
  {
    if a / 0x1_0000_0000 == 0xffff then V4(a % 0x1_0000_0000) else V6(a)
  }

  predicate AnyMasked(table: seq<Cidr>, a: nat, width: nat) {
    exists c :: c in table && c.prefix <= width && MaskedEqual(a, c, width)
  }

  // ---------- is_public_ip (Rust) ----------

  predicate RustPublic4(a: U32) {
    && !(Private4(a) || Loopback4(a) || LinkLocal4(a) || a == 0)
    && !AnyMasked(IPV4_SPECIAL, a, 32)
  }

  predicate RustPublic6(a: U128) {
    && !(a == 1 || UniqueLocal6(a) || LinkLocal6(a) || a == 0 || !MaskedEqual(a, GLOBAL_IPV6, 128))
    && !AnyMasked(RUST_IPV6_SPECIAL, a, 128)
  }

  predicate RustPublic(ip: IpAddr) {
    match ip
    case V4(a) => RustPublic4(a)
    case V6(a) =>
      match Mapped(a)
      case V4(m) => RustPublic4(m)
      case V6(_) => RustPublic6(a)
  }

  // ---------- isPublicSourceIP (Go) ----------

  predicate AnyContains(table: seq<Cidr>, a: nat, count: nat) {
    exists c :: c in table && c.prefix <= 8 * count && GoContains(c, a, count)
  }

  predicate GoPublic4(a: U32) {
    && !(Loopback4(a) || LinkLocal4(a) || a == 0)
    && !Private4(a)
    && !AnyContains(IPV4_SPECIAL, a, 4)
  }

  /** `IsGlobalUnicast` repeats the three tests above it and adds the multicast one. */
  predicate GoPublic6(a: U128) {
    && !(a == 1 || LinkLocal6(a) || a == 0)
    && !(Multicast6(a) || UniqueLocal6(a))
    && GoContains(GLOBAL_IPV6, a, 16)
    && !AnyContains(GO_IPV6_SPECIAL, a, 16)
  }

  predicate GoPublic(ip: IpAddr) {
    match ip
    case V4(a) => GoPublic4(a)
    case V6(a) =>
      match Mapped(a)
      case V4(m) => GoPublic4(m)
      case V6(_) => GoPublic6(a)
  }

  // ---------- agreement ----------

  lemma OnesStep(k: nat)
    ensures Ones(k + 8) == 256 * Ones(k) + 255
    ensures Ones(k + 4) == 16 * Ones(k) + 15
    ensures Ones(k + 1) == 2 * Ones(k) + 1
  {
    assert Ones(k + 2) == 2 * Ones(k + 1) + 1;
    assert Ones(k + 4) == 4 * Ones(k + 2) + 3;
    assert Ones(k + 6) == 4 * Ones(k + 4) + 3;
  }

  lemma OnesValues()
    ensures Ones(8) == 0xff && Ones(16) == 0xffff && Ones(17) == 0x1_ffff
    ensures Ones(24) == 0xff_ffff && Ones(28) == 0xfff_ffff && Ones(32) == 0xffff_ffff
    ensures Ones(80) == 0xffff_ffff_ffff_ffff_ffff
    ensures Ones(96) == 0xffff_ffff_ffff_ffff_ffff_ffff
    ensures Ones(100) == 0xf_ffff_ffff_ffff_ffff_ffff_ffff
    ensures Ones(105) == 0x1ff_ffff_ffff_ffff_ffff_ffff_ffff
    ensures Ones(112) == 0xffff_ffff_ffff_ffff_ffff_ffff_ffff
    ensures Ones(124) == 0xfff_ffff_ffff_ffff_ffff_ffff_ffff_ffff
    ensures Ones(125) == 0x1fff_ffff_ffff_ffff_ffff_ffff_ffff_ffff
    ensures Ones(128) == 0xffff_ffff_ffff_ffff_ffff_ffff_ffff_ffff
  {
    assert Ones(0) == 0;
    OnesStep(0); OnesStep(8); OnesStep(16); OnesStep(24); OnesStep(32); OnesStep(40);
    OnesStep(48); OnesStep(56); OnesStep(64); OnesStep(72); OnesStep(80); OnesStep(88);
    OnesStep(96); OnesStep(104); OnesStep(112); OnesStep(120); OnesStep(124);
  }

  /** A multiple of 2^k has its k low bits clear. */
  lemma {:induction false} MultipleIsAligned(q: nat, k: nat)
    ensures Low(q * (Ones(k) + 1), k) == 0
  {
    if k > 0 {
      var p := Ones(k - 1) + 1;
      assert q * (Ones(k) + 1) == 2 * (q * p) by { assert Ones(k) + 1 == 2 * p; }
      MultipleIsAligned(q, k - 1);
    }
  }

  /** Go lists no range that the crawler does not; the crawler's two others are inside 2001::/23. */
  lemma GoTableIsInRustTable(c: Cidr)
    requires c in GO_IPV6_SPECIAL
    ensures c in RUST_IPV6_SPECIAL
  {
    var i :| 0 <= i < |GO_IPV6_SPECIAL| && GO_IPV6_SPECIAL[i] == c;
    var places := [0, 1, 3, 5, 7, 8, 9, 2, 10, 11, 12];
    assert RUST_IPV6_SPECIAL[places[i]] == c;
  }

  lemma RustTableAligned(c: Cidr)
    requires c in RUST_IPV6_SPECIAL
    ensures Aligned(c, 128)
  {
    OnesValues();
    MultipleIsAligned(0x64ff9b_0000_0000_0000_0000, 32);
    MultipleIsAligned(0x64ff9b_0001, 80);
    MultipleIsAligned(0x2002, 112);
    MultipleIsAligned(0x1000_80, 105);
    MultipleIsAligned(0x2001_0000, 96);
    MultipleIsAligned(0x2001_0002_0000, 80);
    MultipleIsAligned(0x2001_0003, 96);
    MultipleIsAligned(0x2001_001, 100);
    MultipleIsAligned(0x2001_002, 100);
    MultipleIsAligned(0x2001_0db8, 96);
    MultipleIsAligned(3, 124);
    MultipleIsAligned(0x3fff_0, 108);
    MultipleIsAligned(0xff, 120);
  }

  lemma GlobalAligned()
    ensures Aligned(GLOBAL_IPV6, 128)
  {
    OnesValues();
    MultipleIsAligned(1, 125);
  }

  lemma TablesAligned()
    ensures forall c :: c in RUST_IPV6_SPECIAL || c in GO_IPV6_SPECIAL || c == GLOBAL_IPV6 ==> Aligned(c, 128)
    ensures forall c :: c in IPV4_SPECIAL ==> Aligned(c, 32)
  {
    forall c | c in RUST_IPV6_SPECIAL || c in GO_IPV6_SPECIAL ensures Aligned(c, 128) {
      if c in GO_IPV6_SPECIAL { GoTableIsInRustTable(c); }
      RustTableAligned(c);
    }
    GlobalAligned();
    TableV4Aligned();
  }

  lemma TableV4Aligned()
    ensures forall c :: c in IPV4_SPECIAL ==> Aligned(c, 32)
  {
    OnesValues();
    OnesStep(18);
    MultipleIsAligned(0, 24);
    MultipleIsAligned(0x191, 22);
    MultipleIsAligned(0xC00000, 8);
    MultipleIsAligned(0xC00002, 8);
    MultipleIsAligned(0xC01FC4, 8);
    MultipleIsAligned(0xC034C1, 8);
    MultipleIsAligned(0xC05863, 8);
    MultipleIsAligned(0xC0AF30, 8);
    MultipleIsAligned(0x6309, 17);
    MultipleIsAligned(0xC63364, 8);
    MultipleIsAligned(0xCB0071, 8);
    MultipleIsAligned(0xE, 28);
    MultipleIsAligned(0xF, 28);
  }

  lemma GoTestIsBlock(c: Cidr, a: nat, count: nat)
    requires Aligned(c, 8 * count) && a <= Ones(8 * count)
    ensures GoContains(c, a, count) <==> InBlock(a, c, 8 * count)
  {
    var width := 8 * count;
    LowBound(Shl(Ones(width), width - c.prefix), width);
    ByteTestIsWordTest(c.network, Mask(width, c.prefix), a, count);
    MaskIsInterval(a, c, width);
  }

  /** What both filters accept of the addresses that are not IPv4-mapped. */
  predicate AcceptedIPv6(a: nat) {
    && 0x2000_0000_0000_0000_0000_0000_0000_0000 <= a < 0x3000_0000_0000_0000_0000_0000_0000_0000
    && !(0x2001_0000_0000_0000_0000_0000_0000_0000 <= a < 0x2001_0200_0000_0000_0000_0000_0000_0000)
    && !(0x2001_0db8_0000_0000_0000_0000_0000_0000 <= a < 0x2001_0db9_0000_0000_0000_0000_0000_0000)
    && !(0x2002_0000_0000_0000_0000_0000_0000_0000 <= a < 0x2003_0000_0000_0000_0000_0000_0000_0000)
  }

  /** The size of a block less one, for the prefixes the IPv6 tables use. */
  function Last6(prefix: nat): nat {
    if prefix == 4 then 0xfff_ffff_ffff_ffff_ffff_ffff_ffff_ffff
    else if prefix == 8 then 0xff_ffff_ffff_ffff_ffff_ffff_ffff_ffff
    else if prefix == 16 then 0xffff_ffff_ffff_ffff_ffff_ffff_ffff
    else if prefix == 20 then 0xfff_ffff_ffff_ffff_ffff_ffff_ffff
    else if prefix == 23 then 0x1ff_ffff_ffff_ffff_ffff_ffff_ffff
    else if prefix == 28 then 0xf_ffff_ffff_ffff_ffff_ffff_ffff
    else if prefix == 32 then 0xffff_ffff_ffff_ffff_ffff_ffff
    else if prefix == 48 then 0xffff_ffff_ffff_ffff_ffff
    else 0xffff_ffff
  }

  lemma LastIsOnes(prefix: nat)
    requires prefix in {4, 8, 16, 20, 23, 28, 32, 48, 96}
    ensures Ones(128 - prefix) == Last6(prefix)
  {
    OnesValues();
    OnesStep(100); OnesStep(112); OnesStep(104);
  }

  lemma TablePrefixes(c: Cidr)
    requires c in RUST_IPV6_SPECIAL || c in GO_IPV6_SPECIAL
    ensures c.prefix in {4, 8, 16, 20, 23, 28, 32, 48, 96}
  {
  }

  lemma BlockRejected(c: Cidr, a: nat)
    requires c in RUST_IPV6_SPECIAL || c in GO_IPV6_SPECIAL
    requires c.network <= a <= c.network + Last6(c.prefix)
    ensures !AcceptedIPv6(a)
  {
  }

  lemma TableEntryRejects(c: Cidr, a: nat, width: nat)
    requires width == 128 && (c in RUST_IPV6_SPECIAL || c in GO_IPV6_SPECIAL)
    requires c.prefix <= width && InBlock(a, c, width)
    ensures !AcceptedIPv6(a)
  {
    TablePrefixes(c);
    LastIsOnes(c.prefix);
    BlockRejected(c, a);
  }

  lemma GlobalBlock(a: nat)
    ensures InBlock(a, GLOBAL_IPV6, 128)
       <==> 0x2000_0000_0000_0000_0000_0000_0000_0000 <= a < 0x4000_0000_0000_0000_0000_0000_0000_0000
  {
    OnesValues();
  }

  /** The four ranges that matter inside 2000::/3; both tables list them. */
  const SHARED_IPV6: seq<Cidr> := [
    Cidr(0x2001_0000_0000_0000_0000_0000_0000_0000, 23),
    Cidr(0x2001_0db8_0000_0000_0000_0000_0000_0000, 32),
    Cidr(0x2002_0000_0000_0000_0000_0000_0000_0000, 16),
    Cidr(0x3000_0000_0000_0000_0000_0000_0000_0000, 4)]

  lemma RejectedIsInSharedBlock(a: U128)
    requires InBlock(a, GLOBAL_IPV6, 128) && !AcceptedIPv6(a)
    ensures exists i :: 0 <= i < 4 && InBlock(a, SHARED_IPV6[i], 128)
  {
    GlobalBlock(a);
    LastIsOnes(4); LastIsOnes(16); LastIsOnes(23); LastIsOnes(32);
    if a >= 0x3000_0000_0000_0000_0000_0000_0000_0000 {
      assert InBlock(a, SHARED_IPV6[3], 128);
    } else if 0x2001_0000_0000_0000_0000_0000_0000_0000 <= a < 0x2001_0200_0000_0000_0000_0000_0000_0000 {
      assert InBlock(a, SHARED_IPV6[0], 128);
    } else if 0x2001_0db8_0000_0000_0000_0000_0000_0000 <= a < 0x2001_0db9_0000_0000_0000_0000_0000_0000 {
      assert InBlock(a, SHARED_IPV6[1], 128);
    } else {
      assert InBlock(a, SHARED_IPV6[2], 128);
    }
  }

  lemma SharedIsInBoth(i: nat)
    requires i < 4
    ensures SHARED_IPV6[i] in RUST_IPV6_SPECIAL && SHARED_IPV6[i] in GO_IPV6_SPECIAL
  {
    assert RUST_IPV6_SPECIAL[3] == GO_IPV6_SPECIAL[2] == SHARED_IPV6[0];
    assert RUST_IPV6_SPECIAL[9] == GO_IPV6_SPECIAL[6] == SHARED_IPV6[1];
    assert RUST_IPV6_SPECIAL[2] == GO_IPV6_SPECIAL[7] == SHARED_IPV6[2];
    assert RUST_IPV6_SPECIAL[10] == GO_IPV6_SPECIAL[8] == SHARED_IPV6[3];
  }

  lemma AcceptedHasNoClass(a: U128)
    requires AcceptedIPv6(a)
    ensures a != 0 && a != 1 && !UniqueLocal6(a) && !LinkLocal6(a) && !Multicast6(a)
  {
  }

  lemma AcceptedMissesTables(a: U128, width: nat)
    requires width == 128 && AcceptedIPv6(a)
    ensures !AnyMasked(RUST_IPV6_SPECIAL, a, width)
    ensures !AnyContains(GO_IPV6_SPECIAL, a, 16)
  {
    WordFits(a);
    TablesAligned();
    forall c | c in RUST_IPV6_SPECIAL && c.prefix <= width ensures !MaskedEqual(a, c, width) {
      MaskIsInterval(a, c, width);
      if InBlock(a, c, width) { TableEntryRejects(c, a, width); }
    }
    var count := 16;
    forall c | c in GO_IPV6_SPECIAL && c.prefix <= 8 * count ensures !GoContains(c, a, count) {
      GoTestIsBlock(c, a, count);
      if InBlock(a, c, width) { TableEntryRejects(c, a, width); }
    }
  }

  lemma RejectedHitsTables(a: U128, width: nat)
    requires width == 128 && !AcceptedIPv6(a)
    requires InBlock(a, GLOBAL_IPV6, 128)
    ensures AnyMasked(RUST_IPV6_SPECIAL, a, width)
    ensures AnyContains(GO_IPV6_SPECIAL, a, 16)
  {
    RejectedIsInSharedBlock(a);
    var i :| 0 <= i < 4 && InBlock(a, SHARED_IPV6[i], 128);
    SharedIsInBoth(i);
    SharedAligned(i);
    BlockIsHit(a, SHARED_IPV6[i]);
  }

  lemma SharedAligned(i: nat)
    requires i < 4
    ensures Aligned(SHARED_IPV6[i], 128)
  {
    SharedIsInBoth(i);
    TablesAligned();
  }

  /** Both programs reject what lies in the block of a table's entry. */
  lemma BlockIsHit(a: U128, c: Cidr)
    requires Aligned(c, 128) && InBlock(a, c, 128)
    ensures MaskedEqual(a, c, 128) && GoContains(c, a, 16)
  {
    WordFits(a);
    MaskIsInterval(a, c, 128);
    GoTestIsBlock(c, a, 16);
  }

  lemma WordFits(a: U128)
    ensures a <= Ones(128)
  {
    OnesValues();
  }

  lemma GlobalTests(a: U128)
    ensures MaskedEqual(a, GLOBAL_IPV6, 128) <==> InBlock(a, GLOBAL_IPV6, 128)
    ensures GoContains(GLOBAL_IPV6, a, 16) <==> InBlock(a, GLOBAL_IPV6, 128)
  {
    WordFits(a);
    TablesAligned();
    MaskIsInterval(a, GLOBAL_IPV6, 128);
    GoTestIsBlock(GLOBAL_IPV6, a, 16);
  }

  lemma RustAcceptsExactly(a: U128)
    ensures RustPublic6(a) <==> AcceptedIPv6(a)
  {
    GlobalBlock(a);
    GlobalTests(a);
    if AcceptedIPv6(a) {
      AcceptedHasNoClass(a);
      AcceptedMissesTables(a, 128);
    } else if InBlock(a, GLOBAL_IPV6, 128) {
      RejectedHitsTables(a, 128);
    }
  }

  lemma GoAcceptsExactly(a: U128)
    ensures GoPublic6(a) <==> AcceptedIPv6(a)
  {
    GlobalBlock(a);
    GlobalTests(a);
    if AcceptedIPv6(a) {
      AcceptedHasNoClass(a);
      AcceptedMissesTables(a, 128);
    } else if InBlock(a, GLOBAL_IPV6, 128) {
      RejectedHitsTables(a, 128);
    }
  }

  /** The crawler and the API accept exactly the same addresses. */
  lemma FiltersAgree(ip: IpAddr)
    ensures RustPublic(ip) <==> GoPublic(ip)
  {
    match ip
    case V4(a) => FiltersAgree4(a);
    case V6(a) =>
      match Mapped(a)
      case V4(m) => FiltersAgree4(m);
      case V6(_) =>
        RustAcceptsExactly(a);
        GoAcceptsExactly(a);
  }

  lemma FiltersAgree4(a: U32)
    ensures RustPublic4(a) <==> GoPublic4(a)
  {
    OnesValues();
    TablesAligned();
    forall c | c in IPV4_SPECIAL
      ensures MaskedEqual(a, c, 32) <==> GoContains(c, a, 4)
    {
      MaskIsInterval(a, c, 32);
      GoTestIsBlock(c, a, 4);
    }
  }
}
