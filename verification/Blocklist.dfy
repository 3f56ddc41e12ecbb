/** What the kernel blocks, given the list of a policy: the meaning of the values that buildTracingPolicy writes. */
module Blocklist {
  import opened Arithmetic
  import opened Policies
  import opened Geo

  function IndexOf(s: string, c: char): nat {
    if s == [] || s[0] == c then 0 else 1 + IndexOf(s[1..], c)
  }

  lemma {:induction false} IndexOfExact(s: string, c: char, rest: string)
    requires c !in s
    ensures IndexOf(s + [c] + rest, c) == |s|
  {
    if s != [] {
      IndexOfExact(s[1..], c, rest);
      assert (s + [c] + rest)[1..] == s[1..] + [c] + rest;
    }
  }

  /** The decimal number a text of digits stands for. */
  function Decimal(s: string): Option<nat> {
    if s == [] then None
    else
      var last := s[|s| - 1];
      if !('0' <= last <= '9') then None
      else
        var digit := last as int - '0' as int;
        if |s| == 1 then Some(digit)
        else
          var head := Decimal(s[..|s| - 1]);
          if head.None? then None else Some(10 * head.value + digit)
  }

  /** The address before the slash of a CIDR.  net.ParseIP gives sixteen bytes for every text; net.ParseCIDR masks the
      four bytes of a dotted text, and the sixteen of a text with a colon, even if that is the long form of four. */
  function CidrBase(g: GeoIP, text: string): Option<Bytes> {
    var a := g.parse(text);
    if a.Some? && ':' !in text && To4(a.value).Some? then To4(a.value) else a
  }

  /** net.ParseCIDR over the address parser. */
  function ParseCidr(g: GeoIP, text: string): Option<IpNet> {
    var i := IndexOf(text, '/');
    if |text| <= i then None
    else
      var base := CidrBase(g, text[..i]);
      var ones := Decimal(text[i + 1..]);
      if base.None? || ones.None? || 8 * |base.value| < ones.value then None
      else Some(Network(base.value, ones.value))
  }

  /** The DAddr operator: the destination lies in one of the listed networks. */
  ghost predicate Blocks(g: GeoIP, values: seq<string>, d: Bytes) {
    exists i :: 0 <= i < |values| && BlocksBy(g, values[i], d)
  }

  ghost predicate BlocksBy(g: GeoIP, value: string, d: Bytes) {
    ParseCidr(g, value).Some? && Contains(ParseCidr(g, value).value, d)
  }

  /** Whole bytes of a mask compare whole bytes, and the rest of the address does not matter. */
  lemma {:induction false} PrefixNetwork(base: Bytes, k: nat, ip: Bytes)
    requires |base| == |ip| && k <= |ip|
    ensures SameNetwork(base, CidrMask(8 * k, |ip|), ip) <==> base[..k] == ip[..k]
  {
    hide And, HeadMask;
    if k == 0 {
      ZeroMask(base, ip);
    } else {
      assert Power(8) == 256;
      MaskedFits(base[0], 8 * k, 8);
      MaskedFits(ip[0], 8 * k, 8);
      PrefixNetwork(base[1..], k - 1, ip[1..]);
      assert base[..k] == [base[0]] + base[1..][..k - 1] && ip[..k] == [ip[0]] + ip[1..][..k - 1];
    }
  }

  /** The value written for an address, read back. */
  lemma ValueReadBack(g: GeoIP, ip: string)
    requires '/' !in ip && CidrBase(g, ip).Some? && 4 <= |CidrBase(g, ip).value|
    ensures ParseCidr(g, ip + "/32") == Some(Network(CidrBase(g, ip).value, 32))
  {
    var text := ip + "/32";
    assert text == ip + ['/'] + "32";
    IndexOfExact(ip, '/', "32");
    assert text[..|ip|] == ip && text[|ip| + 1..] == "32";
    assert "32"[..1] == "3";
    assert Decimal("3") == Some(3);
  }

  /** The bytes that the rule of a listed address is about. */
  function AddressOf(g: GeoIP, ip: string): Bytes {
    if CidrBase(g, ip).Some? then CidrBase(g, ip).value else []
  }

  /** An address in its shortest form: four bytes, or sixteen that are not the long form of four. */
  ghost predicate Plain(d: Bytes) {
    |d| == 4 || (|d| == 16 && To4(d).None?)
  }

  /** The shortest form of a destination; its long form is the same destination. */
  function Short(d: Bytes): (x: Bytes)
    ensures To4(d).None? ==> x == d
    ensures To4(d).Some? ==> |x| == 4 && To4(x) == Some(x)
  {
    if To4(d).Some? then To4(d).value else d
  }

  /** The text reads as net.ParseIP reads it: without a slash, in four or sixteen bytes, and as an IPv4 address, in
      either form, if it is dotted. */
  ghost predicate WellFormed(g: GeoIP, ip: string) {
    && '/' !in ip && g.parse(ip).Some?
    && (|g.parse(ip).value| == 4 || |g.parse(ip).value| == 16)
    && (':' !in ip ==> To4(g.parse(ip).value).Some?)
  }

  ghost predicate AllWellFormed(g: GeoIP, ips: seq<string>) {
    forall i :: 0 <= i < |ips| ==> WellFormed(g, ips[i])
  }

  /** A dotted text is about four bytes, the shortest form of the address; any text is about the same destination,
      public or private, that the agent looks up. */
  lemma AddressIsParsed(g: GeoIP, ip: string)
    requires WellFormed(g, ip)
    ensures |AddressOf(g, ip)| == 4 || |AddressOf(g, ip)| == 16
    ensures ':' !in ip ==> |AddressOf(g, ip)| == 4
    ensures Short(AddressOf(g, ip)) == Short(g.parse(ip).value)
    ensures IsPrivate(AddressOf(g, ip)) <==> IsPrivate(g.parse(ip).value)
  {
    PrivateExact(AddressOf(g, ip));
    PrivateExact(g.parse(ip).value);
  }

  ghost predicate SharesPrefix(a: Bytes, d: Bytes) {
    |d| == |a| >= 4 && d[..4] == a[..4]
  }

  /** One value blocks the destinations whose shortest form has the length of its address and the same first four
      bytes. */
  lemma ValueBlocks(g: GeoIP, ip: string, d: Bytes)
    requires WellFormed(g, ip)
    ensures BlocksBy(g, ip + "/32", d) <==> SharesPrefix(AddressOf(g, ip), Short(d))
  {
    var a, x := AddressOf(g, ip), Short(d);
    AddressIsParsed(g, ip);
    ValueReadBack(g, ip);
    if |x| == |a| {
      MaskedTwice(a, CidrMask(32, |a|), x);
      PrefixNetwork(a, 4, x);
    }
  }

  /** The rule of a list blocks a destination iff the list has an address of its family with the same first four
      bytes. */
  lemma RuleBlocks(g: GeoIP, ips: seq<string>, d: Bytes)
    requires AllWellFormed(g, ips)
    ensures Blocks(g, Cidrs(ips), d) <==>
              exists i :: 0 <= i < |ips| && SharesPrefix(AddressOf(g, ips[i]), Short(d))
  {
    forall i | 0 <= i < |ips|
      ensures BlocksBy(g, Cidrs(ips)[i], d) <==> SharesPrefix(AddressOf(g, ips[i]), Short(d))
    {
      ValueBlocks(g, ips[i], d);
    }
  }

  ghost predicate Listed(g: GeoIP, ips: seq<string>, d: Bytes) {
    exists i :: 0 <= i < |ips| && AddressOf(g, ips[i]) == d
  }

  /** The form in which a destination is written does not matter. */
  lemma SameInEitherForm(g: GeoIP, ips: seq<string>, d: Bytes, x: Bytes)
    requires AllWellFormed(g, ips) && Short(d) == Short(x)
    ensures Blocks(g, Cidrs(ips), d) <==> Blocks(g, Cidrs(ips), x)
  {
    RuleBlocks(g, ips, d);
    RuleBlocks(g, ips, x);
  }

  /** Exact for IPv4: an IPv4 destination, in either form, is blocked iff its four bytes are in the list. */
  lemma ExactForIPv4(g: GeoIP, ips: seq<string>, d: Bytes)
    requires AllWellFormed(g, ips) && To4(d).Some?
    ensures Blocks(g, Cidrs(ips), d) <==> Listed(g, ips, Short(d))
  {
    RuleBlocks(g, ips, d);
    var x := Short(d);
    forall i | 0 <= i < |ips|
      ensures SharesPrefix(AddressOf(g, ips[i]), x) <==> AddressOf(g, ips[i]) == x
    {
      var a := AddressOf(g, ips[i]);
      assert x == x[..4] && (|a| == 4 ==> a == a[..4]);
    }
  }

  /** The listed destinations in shortest form are blocked, of either family. */
  lemma ListedIsBlocked(g: GeoIP, ips: seq<string>, d: Bytes)
    requires AllWellFormed(g, ips) && Listed(g, ips, d) && Plain(d)
    ensures Blocks(g, Cidrs(ips), d)
  {
    var i :| 0 <= i < |ips| && AddressOf(g, ips[i]) == d;
    RuleBlocks(g, ips, d);
    assert SharesPrefix(AddressOf(g, ips[i]), Short(d));
  }

  /** "Every listed address is blocked" fails for an IPv4 address that is listed in its IPv6 form.  Exactly when a
      listed address is blocked: it is listed in its shortest form, or its shortest form is listed, too. */
  lemma ListedIsBlockedIff(g: GeoIP, ips: seq<string>, i: nat)
    requires AllWellFormed(g, ips) && i < |ips|
    ensures Blocks(g, Cidrs(ips), AddressOf(g, ips[i])) <==>
              Plain(AddressOf(g, ips[i])) || Listed(g, ips, Short(AddressOf(g, ips[i])))
  {
    var a := AddressOf(g, ips[i]);
    AddressIsParsed(g, ips[i]);
    if Plain(a) {
      assert Listed(g, ips, a);
      ListedIsBlocked(g, ips, a);
    } else {
      ExactForIPv4(g, ips, a);
    }
  }

  /** So one address alone blocks itself iff it is listed in its shortest form. */
  lemma ItselfBlockedIffPlain(g: GeoIP, ip: string)
    requires WellFormed(g, ip)
    ensures Blocks(g, Cidrs([ip]), AddressOf(g, ip)) <==> Plain(AddressOf(g, ip))
  {
    ListedIsBlockedIff(g, [ip], 0);
  }

  /** "::ffff:1.2.3.4" alone does not block the destination it names, in either form. */
  lemma LongFormIsNotBlocked(g: GeoIP)
    requires g.parse("::ffff:1.2.3.4") == Some(Zeros(10) + [255, 255, 1, 2, 3, 4])
    ensures var d := Zeros(10) + [255, 255, 1, 2, 3, 4];
            && Short(d) == [1, 2, 3, 4]
            && !Blocks(g, Cidrs(["::ffff:1.2.3.4"]), d) && !Blocks(g, Cidrs(["::ffff:1.2.3.4"]), [1, 2, 3, 4])
  {
    var text, d := "::ffff:1.2.3.4", Zeros(10) + [255, 255, 1, 2, 3, 4];
    assert text[0] == ':' && d[12..] == [1, 2, 3, 4];
    ExactForIPv4(g, [text], d);
    ExactForIPv4(g, [text], [1, 2, 3, 4]);
  }

  /** "Only the listed address is blocked" fails for an IPv6 address, which takes its whole /32 with it; it holds for
      one address iff that address is an IPv4 one in its shortest form. */
  lemma OnlyItselfIffIPv4(g: GeoIP, ip: string)
    requires WellFormed(g, ip)
    ensures (forall d :: Plain(d) && Blocks(g, Cidrs([ip]), d) ==> d == AddressOf(g, ip)) <==> |AddressOf(g, ip)| == 4
  {
    var a := AddressOf(g, ip);
    AddressIsParsed(g, ip);
    if |a| == 4 {
      forall d | Plain(d) && Blocks(g, Cidrs([ip]), d)
        ensures d == a
      {
        RuleBlocks(g, [ip], d);
        assert d[..4] == d && a[..4] == a;
      }
    } else {
      var d := Neighbour(a);
      RuleBlocks(g, [ip], d);
      assert SharesPrefix(AddressOf(g, [ip][0]), Short(d));
    }
  }

  /** Another address of the same /32. */
  lemma Neighbour(a: Bytes) returns (d: Bytes)
    requires |a| == 16
    ensures Plain(d) && d != a && SharesPrefix(a, d)
  {
    d := a[10 := 0][15 := if a[15] == 0 then 1 else 0];
    assert d[..4] == a[..4];
  }

  // ---------------------------------------------------------------- private destinations

  /** The first k bytes decide about a network that fixes no more than they have. */
  lemma {:induction false} PrefixDecides(base: Bytes, ones: nat, k: nat, a: Bytes, d: Bytes)
    requires |base| == |a| == |d| && k <= |d| && ones <= 8 * k && a[..k] == d[..k]
    ensures SameNetwork(base, CidrMask(ones, |d|), a) <==> SameNetwork(base, CidrMask(ones, |d|), d)
  {
    if k == 0 {
      ZeroMask(base, a);
      ZeroMask(base, d);
    } else {
      assert a[0] == a[..k][0] && d[0] == d[..k][0];
      assert a[1..][..k - 1] == a[..k][1..] && d[1..][..k - 1] == d[..k][1..];
      PrefixDecides(base[1..], if ones >= 8 then ones - 8 else 0, k - 1, a[1..], d[1..]);
    }
  }

  lemma ShortNetworkDecides(i: nat, a: Bytes, d: Bytes)
    requires i == 6 || i == 7
    requires SharesPrefix(a, d) && |d| == 16 && To4(d).None? && To4(a).None?
    ensures Contains(Networks(PRIVATE_CIDRS)[i], d) <==> Contains(Networks(PRIVATE_CIDRS)[i], a)
  {
    var c := PRIVATE_CIDRS[i];
    PrefixDecides(Network(c.base, c.ones).base, c.ones, 4, a, d);
  }

  lemma {:induction false} ZerosAreZero(n: nat)
    ensures Value(Zeros(n)) == 0
  {
    if n > 0 {
      ZerosAreZero(n - 1);
      assert Zeros(n)[1..] == Zeros(n - 1);
    }
  }

  lemma LoopbackIs(d: Bytes)
    requires |d| == 16 && To4(d).None? && Contains(Networks(PRIVATE_CIDRS)[5], d)
    ensures d == Zeros(15) + [1] && Value(d) == 1
  {
    var base := PRIVATE_CIDRS[5].base;
    MaskedTwice(base, CidrMask(128, 16), d);
    PrefixNetwork(base, 16, d);
    assert base[..16] == base && d[..16] == d;
    LeadingZeros(15, 1);
  }

  /** A network of the table that has IPv6 form is not entered from a public address of the same /32. */
  lemma NoPrivateNeighbour(i: nat, a: Bytes, d: Bytes)
    requires i == 6 || i == 7
    requires SharesPrefix(a, d) && |d| == 16 && To4(d).None? && Contains(Networks(PRIVATE_CIDRS)[i], d)
    ensures IsPrivate(a)
  {
    if To4(a).None? {
      ShortNetworkDecides(i, a, d);
    } else {
      var z := Zeros(16);
      assert a[..4] == z[..4];
      ShortNetworkDecides(i, z, d);
      RangeIsInterval(i, z);
      ZerosAreZero(16);
    }
  }

  lemma FourBytesAreAll(a: Bytes, d: Bytes)
    requires SharesPrefix(a, d)
    ensures |d| == 4 ==> a == d
  {
  }

  /** The network of the table that a private IPv6 destination is in. */
  lemma RangeOf(d: Bytes) returns (i: nat)
    requires |d| == 16 && To4(d).None? && IsPrivate(d)
    ensures 5 <= i < 8 && Contains(Networks(PRIVATE_CIDRS)[i], d)
  {
    hide Contains, Value;
    PrivateIsInside(d, d);
    i :| i < 8 && Inside(d, i);
    RangeIsInterval(i, d);
  }

  /** A private destination next to a public address of the same /32: only the IPv6 loopback has such neighbours. */
  lemma PrivateNeighbour(a: Bytes, d: Bytes)
    requires SharesPrefix(a, d) && Plain(d) && IsPrivate(d) && !IsPrivate(a)
    ensures d == Zeros(15) + [1] && |a| == 16 && a[..4] == Zeros(4)
  {
    FourBytesAreAll(a, d);
    if |d| == 16 {
      var i := RangeOf(d);
      if i == 5 {
        LoopbackIs(d);
        assert d[..4] == Zeros(4);
      } else {
        NoPrivateNeighbour(i, a, d);
      }
    }
  }

  /** A public IPv6 address in the list can block the IPv6 loopback. */
  lemma LoopbackCanBeBlocked(g: GeoIP)
    requires g.parse("::2") == Some(Zeros(15) + [2])
    ensures !IsPrivate(Zeros(15) + [2]) && IsPrivate(Zeros(15) + [1])
    ensures Blocks(g, Cidrs(["::2"]), Zeros(15) + [1])
  {
    var a, d := Zeros(15) + [2], Zeros(15) + [1];
    assert a[10] == 0 && d[10] == 0;
    LeadingZeros(15, 2);
    LeadingZeros(15, 1);
    PrivateExact(a);
    PrivateExact(d);
    assert a[..4] == d[..4];
    RuleBlocks(g, ["::2"], d);
    assert SharesPrefix(AddressOf(g, ["::2"][0]), d);
  }
}
