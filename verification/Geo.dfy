/** internal/geo/geoip.go: the private-address gate and the country lookup.
    An address is a net.IP: four or sixteen bytes, most significant first. */
module Geo {
  import opened Arithmetic
  import opened Policies

  type Byte = x: int | 0 <= x < 256
  type Bytes = seq<Byte>

  // ---------------------------------------------------------------- bits

  /** The bitwise conjunction of two numbers of `width` bits. */
  function And(x: nat, m: nat, width: nat): (r: nat)
    ensures r <= x
  {
    if width == 0 then 0 else 2 * And(x / 2, m / 2, width - 1) + (x % 2) * (m % 2)
  }

  /** The number of `width` bits whose first `ones` bits are set. */
  function HeadMask(ones: nat, width: nat): (m: nat)
    ensures m < Power(width)
  {
    if width == 0 then 0 else 2 * HeadMask(ones, width - 1) + if width <= ones then 1 else 0
  }

  /** How many numbers of `width` bits share their first `ones` bits. */
  function Tail(ones: nat, width: nat): (t: nat)
    ensures 0 < t
  {
    if width <= ones then 1 else Power(width - ones)
  }

  lemma TailDoubles(ones: nat, width: nat)
    ensures width < ones ==> Tail(ones, width + 1) == Tail(ones, width) == 1
    ensures ones <= width ==> Tail(ones, width + 1) == 2 * Tail(ones, width)
  {
    assert ones <= width ==> Power(width + 1 - ones) == 2 * Power(width - ones);
  }

  /** A masked number, and the gap up to the next one with another head. */
  lemma {:induction false} MaskedFits(x: nat, ones: nat, width: nat)
    requires x < Power(width)
    ensures And(x, HeadMask(ones, width), width) + Tail(ones, width) <= Power(width)
    ensures width <= ones ==> And(x, HeadMask(ones, width), width) == x
  {
    if width > 0 {
      MaskedFits(x / 2, ones, width - 1);
      TailDoubles(ones, width - 1);
    }
  }

  lemma AndHead(x: nat, ones: nat, width: nat)
    requires ones < width
    ensures And(x, HeadMask(ones, width), width) == 2 * And(x / 2, HeadMask(ones, width - 1), width - 1)
  {
  }

  /** Agreeing under a head mask is lying in one interval. */
  lemma {:induction false} HeadMaskIsInterval(x: nat, y: nat, ones: nat, width: nat)
    requires x < Power(width) && y < Power(width)
    ensures var m := HeadMask(ones, width);
            (And(x, m, width) == And(y, m, width) <==> And(x, m, width) <= y < And(x, m, width) + Tail(ones, width))
  {
    if width <= ones {
      MaskedFits(x, ones, width);
      MaskedFits(y, ones, width);
    } else {
      HeadMaskIsInterval(x / 2, y / 2, ones, width - 1);
      TailDoubles(ones, width - 1);
      AndHead(x, ones, width);
      AndHead(y, ones, width);
      HalfInterval(And(x / 2, HeadMask(ones, width - 1), width - 1), y, Tail(ones, width - 1));
    }
  }

  // ---------------------------------------------------------------- networks

  /** net.IPNet as net.ParseCIDR builds it: the base address is already masked. */
  datatype IpNet = IpNet(base: Bytes, mask: Bytes)

  /** net.CIDRMask, for a length in bytes. */
  function CidrMask(ones: nat, length: nat): (m: Bytes)
    ensures |m| == length
  {
    assert Power(8) == 256;
    if length == 0 then []
    else [HeadMask(ones, 8)] + CidrMask(if ones >= 8 then ones - 8 else 0, length - 1)
  }

  function Masked(ip: Bytes, mask: Bytes): (r: Bytes)
    requires |ip| == |mask|
    ensures |r| == |ip|
  {
    if ip == [] then [] else [And(ip[0], mask[0], 8)] + Masked(ip[1..], mask[1..])
  }

  /** The number an address stands for. */
  function Value(ip: Bytes): nat {
    if ip == [] then 0 else ip[0] * Power(8 * (|ip| - 1)) + Value(ip[1..])
  }

  function Network(base: Bytes, ones: nat): IpNet {
    IpNet(Masked(base, CidrMask(ones, |base|)), CidrMask(ones, |base|))
  }

  /** net.IP.To4: the IPv4 form of an IPv4 or IPv4-mapped address. */
  function To4(ip: Bytes): Option<Bytes> {
    if |ip| == 4 then Some(ip)
    else if |ip| == 16 && (forall i :: 0 <= i < 10 ==> ip[i] == 0) && ip[10] == 255 && ip[11] == 255 then Some(ip[12..])
    else None
  }

  /** Four bytes, as they are or behind ten zeros and two bytes of ones, and nothing else. */
  lemma To4Exact(ip: Bytes, x: Bytes)
    ensures To4(ip) == Some(x) <==> |x| == 4 && (ip == x || ip == Zeros(10) + [255, 255] + x)
  {
    if |x| == 4 && ip == Zeros(10) + [255, 255] + x {
      assert ip[12..] == x;
    }
    if |ip| == 16 && To4(ip) == Some(x) {
      assert ip == ip[..10] + ip[10..12] + ip[12..];
      assert ip[..10] == Zeros(10) && ip[10..12] == [255, 255];
    }
  }

  predicate SameNetwork(base: Bytes, mask: Bytes, ip: Bytes)
    requires |base| == |mask| == |ip|
  {
    ip == [] || (And(base[0], mask[0], 8) == And(ip[0], mask[0], 8) && SameNetwork(base[1..], mask[1..], ip[1..]))
  }

  /** net.IPNet.Contains, for a network whose base is not an IPv4 address in IPv6 form: of such a network it would
      compare the last four bytes only.  No network of the table and of a /32 value is of that kind (BaseKeepsForm). */
  predicate Contains(n: IpNet, ip: Bytes) {
    var x := if To4(ip).Some? then To4(ip).value else ip;
    |n.base| == |n.mask| == |x| && SameNetwork(n.base, n.mask, x)
  }

  // ---------------------------------------------------------------- numbers

  lemma {:induction false} ValueBound(ip: Bytes)
    ensures Value(ip) < Power(8 * |ip|)
  {
    if ip != [] {
      ValueBound(ip[1..]);
      PowerAdds(8, 8 * (|ip| - 1));
      assert Power(8) == 256;
      LeadingDigit(ip[0], 255, Power(8 * (|ip| - 1)), Value(ip[1..]), Power(8 * (|ip| - 1)) - 1);
    }
  }

  lemma {:induction false} ZeroMask(base: Bytes, ip: Bytes)
    requires |base| == |ip|
    ensures SameNetwork(base, CidrMask(0, |ip|), ip)
    ensures Value(Masked(base, CidrMask(0, |ip|))) == 0
  {
    if ip != [] {
      ZeroMask(base[1..], ip[1..]);
      AndZero(base[0], 8);
      AndZero(ip[0], 8);
    }
  }

  lemma {:induction false} AndZero(x: nat, width: nat)
    ensures HeadMask(0, width) == 0 && And(x, 0, width) == 0
  {
    if width > 0 {
      AndZero(x / 2, width - 1);
    }
  }

  lemma WholeByteMask(base: Bytes, ones: nat, ip: Bytes)
    requires |base| == |ip| > 0 && 8 <= ones
    ensures var m, rest := CidrMask(ones, |ip|), CidrMask(ones - 8, |ip| - 1);
            && Masked(base, m) == [base[0]] + Masked(base[1..], rest)
            && (SameNetwork(base, m, ip) <==> base[0] == ip[0] && SameNetwork(base[1..], rest, ip[1..]))
  {
    hide And, HeadMask, Value;
    assert CidrMask(ones, |ip|) == [HeadMask(ones, 8)] + CidrMask(ones - 8, |ip| - 1);
    assert Power(8) == 256;
    MaskedFits(base[0], ones, 8);
    MaskedFits(ip[0], ones, 8);
  }

  lemma ValueOfHead(b: Byte, rest: Bytes)
    ensures Value([b] + rest) == b * Power(8 * |rest|) + Value(rest)
  {
    assert ([b] + rest)[1..] == rest;
  }

  lemma BytePower(n: nat)
    ensures Power(8 * (n + 1)) == 256 * Power(8 * n)
  {
    PowerAdds(8, 8 * n);
    assert Power(8) == 256;
  }

  /** A network that fixes the first byte, taken apart. */
  lemma WholeByteParts(base: Bytes, ones: nat, ip: Bytes)
    requires |base| == |ip| > 0 && 8 <= ones
    ensures var m, rest, n := CidrMask(ones, |ip|), CidrMask(ones - 8, |ip| - 1), 8 * (|ip| - 1);
            && Value(Masked(base, m)) == base[0] * Power(n) + Value(Masked(base[1..], rest))
            && Value(ip) == ip[0] * Power(n) + Value(ip[1..])
            && (SameNetwork(base, m, ip) <==> base[0] == ip[0] && SameNetwork(base[1..], rest, ip[1..]))
            && Tail(ones, 8 * |ip|) == Tail(ones - 8, n)
            && Power(8 * |ip|) == 256 * Power(n)
  {
    hide Masked, SameNetwork, CidrMask, Value, Power;
    WholeByteMask(base, ones, ip);
    ValueOfHead(base[0], Masked(base[1..], CidrMask(ones - 8, |ip| - 1)));
    ValueOfHead(ip[0], ip[1..]);
    assert [ip[0]] + ip[1..] == ip;
    BytePower(|ip| - 1);
  }

  /** Networks that fix at least the first byte, given the claim for the rest. */
  lemma WholeByte(base: Bytes, ones: nat, ip: Bytes)
    requires |base| == |ip| > 0 && 8 <= ones
    requires var low, tail := Value(Masked(base[1..], CidrMask(ones - 8, |ip| - 1))), Tail(ones - 8, 8 * (|ip| - 1));
             && low + tail <= Power(8 * (|ip| - 1))
             && (SameNetwork(base[1..], CidrMask(ones - 8, |ip| - 1), ip[1..]) <==> low <= Value(ip[1..]) < low + tail)
    ensures IntervalOk(base, ones, ip)
  {
    hide CidrMask, Masked, SameNetwork, Value, Power, Tail;
    var p, tail := Power(8 * (|ip| - 1)), Tail(ones, 8 * |ip|);
    var low := Value(Masked(base[1..], CidrMask(ones - 8, |ip| - 1)));
    WholeByteParts(base, ones, ip);
    ValueBound(ip[1..]);
    FirstDigitDecides(base[0], ip[0], p, low, tail, Value(ip[1..]));
  }

  lemma PartialByteNumbers(base: Bytes, ones: nat)
    requires base != [] && ones < 8
    ensures var p := Power(8 * (|base| - 1));
            && Value(Masked(base, CidrMask(ones, |base|))) == And(base[0], HeadMask(ones, 8), 8) * p
            && Tail(ones, 8 * |base|) == Tail(ones, 8) * p
            && Power(8 * |base|) == 256 * p
  {
    ZeroMask(base[1..], base[1..]);
    ScaledPowers(ones, |base| - 1);
  }

  lemma ScaledPowers(ones: nat, rest: nat)
    requires ones < 8
    ensures Tail(ones, 8 * (rest + 1)) == Tail(ones, 8) * Power(8 * rest)
    ensures Power(8 * (rest + 1)) == 256 * Power(8 * rest)
  {
    assert Power(8) == 256;
    var r := 8 * rest;
    PowerAdds(8 - ones, r);
    PowerAdds(8, r);
    assert 8 * (rest + 1) == 8 + r && 8 - ones + r == 8 + r - ones;
  }

  /** Networks that end within the first byte. */
  lemma PartialByte(base: Bytes, ones: nat, ip: Bytes)
    requires |base| == |ip| > 0 && ones < 8
    ensures IntervalOk(base, ones, ip)
  {
    assert Power(8) == 256;
    PartialByteNumbers(base, ones);
    ZeroMask(base[1..], ip[1..]);
    ValueBound(ip[1..]);
    HeadMaskIsInterval(base[0], ip[0], ones, 8);
    MaskedFits(base[0], ones, 8);
    var p, low, tail := Power(8 * (|ip| - 1)), And(base[0], HeadMask(ones, 8), 8), Tail(ones, 8);
    ScaledInterval(low, tail, ip[0], p, Value(ip[1..]));
    ScaledBound(low, tail, 256, p);
  }

  /** The network test of `base` with `ones` bits is an interval test on numbers, and the interval is in range. */
  ghost predicate IntervalOk(base: Bytes, ones: nat, ip: Bytes)
    requires |base| == |ip|
  {
    var m := CidrMask(ones, |ip|);
    var low, tail := Value(Masked(base, m)), Tail(ones, 8 * |ip|);
    && low + tail <= Power(8 * |ip|)
    && (SameNetwork(base, m, ip) <==> low <= Value(ip) < low + tail)
  }

  /** The byte-mask test of any network of any length is an interval test on numbers: a network of n bytes that
      fixes `ones` bits is the interval of 2^(8n-ones) numbers from its base. */
  lemma {:induction false} NetworkIsInterval(base: Bytes, ones: nat, ip: Bytes)
    requires |base| == |ip|
    ensures IntervalOk(base, ones, ip)
  {
    if ip == [] {
    } else if ones >= 8 {
      NetworkIsInterval(base[1..], ones - 8, ip[1..]);
      WholeByte(base, ones, ip);
    } else {
      PartialByte(base, ones, ip);
    }
  }

  /** Bytes beyond the mask are cleared. */
  lemma {:induction false} MaskedBeyond(base: Bytes, ones: nat, i: nat)
    requires i < |base| && ones <= 8 * i
    ensures Masked(base, CidrMask(ones, |base|))[i] == 0
  {
    if i == 0 {
      AndZero(base[0], 8);
    } else {
      MaskedBeyond(base[1..], if ones >= 8 then ones - 8 else 0, i - 1);
    }
  }

  /** A network of sixteen bytes that fixes at most ten of them, or all, has no base in the long form of four, unless
      its address is of that form and fixed as a whole. */
  lemma BaseKeepsForm(base: Bytes, ones: nat)
    requires |base| == 16 && (ones <= 80 || (ones == 128 && To4(base).None?))
    ensures To4(Network(base, ones).base).None?
  {
    if ones <= 80 {
      MaskedBeyond(base, ones, 10);
    } else {
      FullMask(base);
    }
  }

  // ---------------------------------------------------------------- the table

  /** A CIDR of the table, as parsed. */
  datatype Cidr = Cidr(base: Bytes, ones: nat)

  const PRIVATE_CIDRS: seq<Cidr> := [
    Cidr([10, 0, 0, 0], 8),
    Cidr([172, 16, 0, 0], 12),
    Cidr([192, 168, 0, 0], 16),
    Cidr([127, 0, 0, 0], 8),
    Cidr([169, 254, 0, 0], 16),
    Cidr(Zeros(15) + [1], 128),
    Cidr([0xfc] + Zeros(15), 7),
    Cidr([0xfe, 0x80] + Zeros(14), 10)
  ]

  /** The table as the source spells it. */
  const PRIVATE_TEXTS: seq<string> := [
    "10.0.0.0/8", "172.16.0.0/12", "192.168.0.0/16", "127.0.0.0/8", "169.254.0.0/16", "::1/128", "fc00::/7", "fe80::/10"
  ]

  function Networks(cidrs: seq<Cidr>): (r: seq<IpNet>)
    ensures |r| == |cidrs|
  {
    seq(|cidrs|, i requires 0 <= i < |cidrs| => Network(cidrs[i].base, cidrs[i].ones))
  }

  /** The slot of a text: empty if net.ParseCIDR, here an arbitrary function, does not accept it. */
  function Slot(parseCidr: string -> Option<Cidr>, text: string): Option<IpNet> {
    var c := parseCidr(text);
    if c.None? then None else Some(Network(c.value.base, c.value.ones))
  }

  /** The initialiser of the table: a slot for each text, in order, left empty when the text does not parse. */
  method BuildRanges(parseCidr: string -> Option<Cidr>, texts: seq<string>) returns (nets: seq<Option<IpNet>>)
    ensures |nets| == |texts|
    ensures forall i :: 0 <= i < |texts| ==> nets[i] == Slot(parseCidr, texts[i])
  {
    nets := seq(|texts|, _ => None);
    for i := 0 to |texts|
      invariant |nets| == |texts|
      invariant forall j :: 0 <= j < i ==> nets[j] == Slot(parseCidr, texts[j])
      invariant forall j :: i <= j < |texts| ==> nets[j].None?
    {
      var c := parseCidr(texts[i]);
      if c.Some? {
        nets := nets[i := Some(Network(c.value.base, c.value.ones))];
      }
    }
  }

  predicate InRanges(ranges: seq<IpNet>, ip: Bytes) {
    exists i :: 0 <= i < |ranges| && Contains(ranges[i], ip)
  }

  predicate IsPrivate(ip: Bytes) {
    InRanges(Networks(PRIVATE_CIDRS), ip)
  }

  /** The scan of the table; an empty slot would be a nil dereference. */
  method ScanRanges(nets: seq<Option<IpNet>>, ip: Bytes) returns (found: bool)
    requires forall i :: 0 <= i < |nets| ==> nets[i].Some?
    ensures found <==> exists i :: 0 <= i < |nets| && Contains(nets[i].value, ip)
  {
    found := false;
    var i := 0;
    while i < |nets|
      invariant 0 <= i <= |nets|
      invariant forall j :: 0 <= j < i ==> !Contains(nets[j].value, ip)
    {
      if Contains(nets[i].value, ip) {
        return true;
      }
      i := i + 1;
    }
  }

  /** The parser reads each of the eight texts as the network it spells. */
  ghost predicate ReadsTexts(parseCidr: string -> Option<Cidr>) {
    |PRIVATE_TEXTS| == |PRIVATE_CIDRS|
    && forall i :: 0 <= i < |PRIVATE_TEXTS| ==> parseCidr(PRIVATE_TEXTS[i]) == Some(PRIVATE_CIDRS[i])
  }

  /** A table built from the eight texts has no empty slot, and scanning it decides IsPrivate. */
  lemma TableIsPrivate(parseCidr: string -> Option<Cidr>, nets: seq<Option<IpNet>>, ip: Bytes)
    requires ReadsTexts(parseCidr)
    requires |nets| == |PRIVATE_TEXTS| && forall i :: 0 <= i < |nets| ==> nets[i] == Slot(parseCidr, PRIVATE_TEXTS[i])
    ensures forall i :: 0 <= i < |nets| ==> nets[i].Some?
    ensures (exists i :: 0 <= i < |nets| && Contains(nets[i].value, ip)) <==> IsPrivate(ip)
  {
    hide Contains, Network;
    var ranges := Networks(PRIVATE_CIDRS);
    assert forall i :: 0 <= i < |nets| ==> nets[i] == Some(ranges[i]);
    if IsPrivate(ip) {
      var i :| 0 <= i < |ranges| && Contains(ranges[i], ip);
      assert Contains(nets[i].value, ip);
    }
    if exists i :: 0 <= i < |nets| && Contains(nets[i].value, ip) {
      var i :| 0 <= i < |nets| && Contains(nets[i].value, ip);
      assert Contains(ranges[i], ip);
    }
  }

  /** The base of a network as a number, byte by byte. */
  lemma BaseStep(base: Bytes, ones: nat)
    requires base != []
    ensures var rest := 8 * (|base| - 1);
            Value(Masked(base, CidrMask(ones, |base|))) ==
            if ones >= 8 then base[0] * Power(rest) + Value(Masked(base[1..], CidrMask(ones - 8, |base| - 1)))
            else And(base[0], HeadMask(ones, 8), 8) * Power(rest)
  {
    assert Power(8) == 256;
    MaskedFits(base[0], ones, 8);
    ZeroMask(base[1..], base[1..]);
  }

  lemma {:induction false} FullMask(base: Bytes)
    ensures Masked(base, CidrMask(8 * |base|, |base|)) == base
  {
    if base != [] {
      assert Power(8) == 256;
      MaskedFits(base[0], 8 * |base|, 8);
      FullMask(base[1..]);
    }
  }

  lemma {:induction false} LeadingZeros(n: nat, b: Byte)
    ensures Value(Zeros(n) + [b]) == b
  {
    if n > 0 {
      LeadingZeros(n - 1, b);
      assert (Zeros(n) + [b])[1..] == Zeros(n - 1) + [b];
    }
  }

  function Zeros(n: nat): (z: Bytes)
    ensures |z| == n && forall i :: 0 <= i < n ==> z[i] == 0
  {
    seq(n, _ => 0)
  }

  ghost predicate InInterval(n: IpNet, ip: Bytes, length: nat, low: nat, size: nat) {
    Contains(n, ip) <==>
      var x := if To4(ip).Some? then To4(ip).value else ip;
      |x| == length && low <= Value(x) < low + size
  }

  /** Membership in a network, for every address of every length. */
  lemma NetworkExact(base: Bytes, ones: nat, ip: Bytes)
    ensures InInterval(Network(base, ones), ip, |base|,
                       Value(Masked(base, CidrMask(ones, |base|))), Tail(ones, 8 * |base|))
  {
    var x := if To4(ip).Some? then To4(ip).value else ip;
    if |x| == |base| {
      NetworkIsInterval(base, ones, x);
      MaskedTwice(base, CidrMask(ones, |base|), x);
    }
  }

  /** Masking the base again changes nothing. */
  lemma {:induction false} MaskedTwice(base: Bytes, mask: Bytes, ip: Bytes)
    requires |base| == |mask| == |ip|
    ensures SameNetwork(Masked(base, mask), mask, ip) <==> SameNetwork(base, mask, ip)
  {
    if ip != [] {
      AndTwice(base[0], mask[0], 8);
      MaskedTwice(base[1..], mask[1..], ip[1..]);
    }
  }

  lemma AndStep(x: nat, m: nat, width: nat)
    requires 0 < width
    ensures And(x, m, width) == 2 * And(x / 2, m / 2, width - 1) + if x % 2 == 1 && m % 2 == 1 then 1 else 0
  {
  }

  lemma {:induction false} AndTwice(x: nat, m: nat, width: nat)
    ensures And(And(x, m, width), m, width) == And(x, m, width)
  {
    if width > 0 {
      AndTwice(x / 2, m / 2, width - 1);
      var half, bit := And(x / 2, m / 2, width - 1), if x % 2 == 1 && m % 2 == 1 then 1 else 0;
      AndStep(x, m, width);
      AndStep(2 * half + bit, m, width);
    }
  }

  // ---------------------------------------------------------------- the union of the eight intervals

  ghost predicate PrivateNumber4(v: nat) {
    || 0x0a00_0000 <= v <= 0x0aff_ffff
    || 0xac10_0000 <= v <= 0xac1f_ffff
    || 0xc0a8_0000 <= v <= 0xc0a8_ffff
    || 0x7f00_0000 <= v <= 0x7fff_ffff
    || 0xa9fe_0000 <= v <= 0xa9fe_ffff
  }

  ghost predicate PrivateNumber6(v: nat) {
    || v == 1
    || 0xfc * Power(120) <= v < 0xfe * Power(120)
    || 0xfe80 * Power(112) <= v < 0xfec0 * Power(112)
  }

  lemma {:induction false} ZeroTail(zeros: Bytes, ones: nat)
    requires forall i :: 0 <= i < |zeros| ==> zeros[i] == 0
    ensures Value(Masked(zeros, CidrMask(ones, |zeros|))) == 0
  {
    if zeros != [] {
      var rest := if ones >= 8 then ones - 8 else 0;
      ZeroTail(zeros[1..], rest);
      var m := CidrMask(ones, |zeros|);
      assert m[1..] == CidrMask(rest, |zeros| - 1);
      var masked := Masked(zeros, m);
      assert masked[0] == 0 && masked[1..] == Masked(zeros[1..], m[1..]);
    }
  }

  /** A number that ends in the cleared bits is left as it is. */
  lemma {:induction false} MaskKeeps(x: nat, ones: nat, width: nat)
    requires x < Power(width) && x % Tail(ones, width) == 0
    ensures And(x, HeadMask(ones, width), width) == x
  {
    if width <= ones {
      MaskedFits(x, ones, width);
    } else {
      TailDoubles(ones, width - 1);
      HalfOfMultiple(x, Tail(ones, width - 1));
      MaskKeeps(x / 2, ones, width - 1);
      AndHead(x, ones, width);
    }
  }

  /** The base of a network whose bits are in the first byte, inside the mask. */
  lemma OneByteBase(base: Bytes, ones: nat)
    requires 1 <= |base| && ones <= 8 && (forall i :: 1 <= i < |base| ==> base[i] == 0)
    requires base[0] % Tail(ones, 8) == 0
    ensures Value(Masked(base, CidrMask(ones, |base|))) == base[0] * Power(8 * (|base| - 1))
  {
    hide Masked, CidrMask, Value, And, HeadMask, Power;
    BaseStep(base, ones);
    if ones == 8 {
      ZeroTail(base[1..], 0);
    } else {
      Powers();
      MaskKeeps(base[0], ones, 8);
    }
  }

  /** The base of a network whose bits are in the first two bytes, inside the mask. */
  lemma TwoByteBase(base: Bytes, ones: nat)
    requires 2 <= |base| && 8 < ones <= 16 && (forall i :: 2 <= i < |base| ==> base[i] == 0)
    requires base[1] % Tail(ones - 8, 8) == 0
    ensures Value(Masked(base, CidrMask(ones, |base|))) ==
            base[0] * Power(8 * (|base| - 1)) + base[1] * Power(8 * (|base| - 2))
  {
    hide Masked, CidrMask, Value, And, HeadMask, Power;
    BaseStep(base, ones);
    OneByteBase(base[1..], ones - 8);
  }

  lemma Powers()
    ensures Power(1) == 2 && Power(4) == 0x10 && Power(6) == 0x40 && Power(8) == 0x100 && Power(16) == 0x1_0000
    ensures Power(20) == 0x10_0000 && Power(24) == 0x100_0000
    ensures Power(121) == 2 * Power(120)
    ensures Power(120) == 0x100 * Power(112) && Power(118) == 0x40 * Power(112)
  {
  }

  /** The interval of every network of the table. */
  ghost function Interval(i: nat): (nat, nat)
  {
    if i == 0 then (0x0a00_0000, 0x100_0000)
    else if i == 1 then (0xac10_0000, 0x10_0000)
    else if i == 2 then (0xc0a8_0000, 0x1_0000)
    else if i == 3 then (0x7f00_0000, 0x100_0000)
    else if i == 4 then (0xa9fe_0000, 0x1_0000)
    else if i == 5 then (1, 1)
    else if i == 6 then (0xfc * Power(120), 2 * Power(120))
    else (0xfe80 * Power(112), 0x40 * Power(112))
  }

  ghost predicate BaseOk(i: nat, c: Cidr) {
    && Value(Masked(c.base, CidrMask(c.ones, |c.base|))) == Interval(i).0
    && Tail(c.ones, 8 * |c.base|) == Interval(i).1
    && |c.base| == if i < 5 then 4 else 16
  }

  lemma BaseOf8Bits(i: nat, c: Cidr)
    requires (i == 0 || i == 3) && c == PRIVATE_CIDRS[i]
    ensures BaseOk(i, c)
  {
    hide Masked, CidrMask, Value, Power;
    Powers();
    OneByteBase(c.base, c.ones);
  }

  lemma BaseOf16Bits(i: nat, c: Cidr)
    requires (i == 2 || i == 4) && c == PRIVATE_CIDRS[i]
    ensures BaseOk(i, c)
  {
    hide Masked, CidrMask, Value, Power;
    Powers();
    TwoByteBase(c.base, c.ones);
  }

  lemma BaseOf12Bits(c: Cidr)
    requires c == PRIVATE_CIDRS[1]
    ensures BaseOk(1, c)
  {
    hide Masked, CidrMask, Value, Power;
    Powers();
    TwoByteBase(c.base, c.ones);
  }

  lemma BaseOfLoopback(c: Cidr)
    requires c == PRIVATE_CIDRS[5]
    ensures BaseOk(5, c)
  {
    FullMask(c.base);
    LeadingZeros(15, 1);
  }

  lemma BaseOfUniqueLocal(c: Cidr)
    requires c == PRIVATE_CIDRS[6]
    ensures BaseOk(6, c)
  {
    hide Masked, CidrMask, Value, Power;
    Powers();
    OneByteBase(c.base, c.ones);
  }

  lemma BaseOfLinkLocal(c: Cidr)
    requires c == PRIVATE_CIDRS[7]
    ensures BaseOk(7, c)
  {
    hide Masked, CidrMask, Value, Power;
    Powers();
    TwoByteBase(c.base, c.ones);
  }

  lemma BaseIs(i: nat, c: Cidr)
    requires i < 8 && c == PRIVATE_CIDRS[i]
    ensures BaseOk(i, c)
  {
    match i
    case 0 => BaseOf8Bits(0, c);
    case 1 => BaseOf12Bits(c);
    case 3 => BaseOf8Bits(3, c);
    case 5 => BaseOfLoopback(c);
    case 6 => BaseOfUniqueLocal(c);
    case 7 => BaseOfLinkLocal(c);
    case _ => BaseOf16Bits(i, c);
  }

  /** A four-byte or sixteen-byte address lies in the interval of network i. */
  ghost predicate Inside(x: Bytes, i: nat) {
    |x| == (if i < 5 then 4 else 16) && Interval(i).0 <= Value(x) < Interval(i).0 + Interval(i).1
  }

  lemma RangeIsInterval(i: nat, ip: Bytes)
    requires i < 8
    ensures Contains(Networks(PRIVATE_CIDRS)[i], ip) <==> Inside(if To4(ip).Some? then To4(ip).value else ip, i)
  {
    var c := PRIVATE_CIDRS[i];
    BaseIs(i, c);
    NetworkExact(c.base, c.ones, ip);
  }

  lemma PrivateIsInside(ip: Bytes, x: Bytes)
    requires x == if To4(ip).Some? then To4(ip).value else ip
    ensures IsPrivate(ip) <==> exists i: nat :: i < 8 && Inside(x, i)
  {
    var ranges := Networks(PRIVATE_CIDRS);
    forall i: nat | i < 8
      ensures Contains(ranges[i], ip) <==> Inside(x, i)
    {
      RangeIsInterval(i, ip);
    }
  }

  lemma InsideIsPrivateNumber(x: Bytes)
    ensures (exists i: nat :: i < 8 && Inside(x, i)) <==>
              (|x| == 4 && PrivateNumber4(Value(x))) || (|x| == 16 && PrivateNumber6(Value(x)))
  {
    assert (exists i: nat :: i < 8 && Inside(x, i)) <==>
           || Inside(x, 0) || Inside(x, 1) || Inside(x, 2) || Inside(x, 3)
           || Inside(x, 4) || Inside(x, 5) || Inside(x, 6) || Inside(x, 7);
  }

  /** The gate is exact: an IPv4 address, also in its IPv6 form, is private iff its number lies in one of five
      intervals, any other IPv6 address iff its number lies in one of three. */
  lemma PrivateExact(ip: Bytes)
    ensures IsPrivate(ip) <==>
              if To4(ip).Some? then PrivateNumber4(Value(To4(ip).value))
              else |ip| == 16 && PrivateNumber6(Value(ip))
  {
    var x := if To4(ip).Some? then To4(ip).value else ip;
    PrivateIsInside(ip, x);
    InsideIsPrivateNumber(x);
  }

  /** The service addresses of Kubernetes, 10.96.0.0/12, are private, in either form. */
  lemma ServiceAddressesArePrivate(ip: Bytes)
    requires To4(ip).Some? && To4(ip).value[0] == 10 && 96 <= To4(ip).value[1] < 112
    ensures IsPrivate(ip)
  {
    PrivateExact(ip);
    ValueBound(To4(ip).value[1..]);
    Powers();
  }

  // ---------------------------------------------------------------- lookup

  /** The MaxMind database as a function of the address: an error, or the ISO code and the English name. */
  datatype Record = Unreadable | Country(isoCode: string, englishName: string)

  /** The parts of the lookup that are not modelled: net.ParseIP and the database. */
  datatype GeoIP = GeoIP(parse: string -> Option<Bytes>, lookup: Bytes -> Record)

  datatype Place = Unknown | Place(iso: string, name: string)

  /** LookupCountry; Unknown stands for a returned error. */
  function LookupCountry(g: GeoIP, text: string): Place {
    var ip := g.parse(text);
    if ip.None? then Unknown
    else if IsPrivate(ip.value) then Place("", "")
    else
      match g.lookup(ip.value)
      case Unreadable => Unknown
      case Country(iso, name) =>
        if iso == "" then Place("UNKNOWN", "Unknown") else Place(iso, if name == "" then iso else name)
  }

  /** What the lookup of a text answers: an error for an unreadable one and when the database fails, nothing for a
      private address, and otherwise the ISO code of the database and its English name, or the code again if it has no
      name, or "UNKNOWN" if it has no code. */
  lemma LookupExact(g: GeoIP, text: string)
    ensures g.parse(text).None? ==> LookupCountry(g, text) == Unknown
    ensures g.parse(text).Some? && IsPrivate(g.parse(text).value) ==>
              LookupCountry(g, text).Place? && LookupCountry(g, text).iso == "" && LookupCountry(g, text).name == ""
    ensures g.parse(text).Some? && !IsPrivate(g.parse(text).value) ==>
              var r, place := g.lookup(g.parse(text).value), LookupCountry(g, text);
              && (r.Unreadable? ==> place.Unknown?)
              && (r.Country? && r.isoCode == "" ==> place.Place? && place.iso == "UNKNOWN" && place.name == "Unknown")
              && (r.Country? && r.isoCode != "" ==>
                    && place.Place? && place.iso == r.isoCode
                    && place.name == if r.englishName != "" then r.englishName else r.isoCode)
  {
  }

  /** A country comes out exactly for the readable public addresses, and it is never the empty one. */
  lemma CountryMeansPublic(g: GeoIP, text: string)
    ensures LookupCountry(g, text).Place? && LookupCountry(g, text).iso != "" <==>
              && g.parse(text).Some?
              && !IsPrivate(g.parse(text).value)
              && g.lookup(g.parse(text).value).Country?
  {
  }
}
