/** `ActuatorEndpoint`: the base of every endpoint. It stores the endpoint's
    allow-list flag and answers whether an address may use the endpoint. */
module ActuatorEndpoint {
  import opened Wrappers
  import Text
  import opened IpAddressRange
  import opened ActuatorConfiguration

  datatype ActuatorEndpoint = ActuatorEndpoint(ipAllowListEnabled: bool) {

    /** `IpIsAllowed`: an empty allow-list lets every address through
        (fail-open); otherwise some range must contain the address. It reads
        the process-wide list and nothing of the endpoint itself, so the flag
        plays no part here. */
    function IpIsAllowed(config: ActuatorConfiguration, ipAddress: Ipv4): (allowed: bool)
      reads config
      ensures allowed <==> (|config.allowedRanges| == 0
                            || exists k :: 0 <= k < |config.allowedRanges| && config.allowedRanges[k].Contains(ipAddress))
    {
      |config.allowedRanges| == 0 || AnyContains(config.allowedRanges, ipAddress)
    }
  }

  /** `ranges.Any(r => r.Contains(address))`. */
  function AnyContains(ranges: seq<AddressRange>, address: Ipv4): (found: bool)
    ensures found <==> exists k :: 0 <= k < |ranges| && ranges[k].Contains(address)
  {
    if ranges == [] then false
    else if ranges[0].Contains(address) then true
    else
      assert forall k :: 1 <= k < |ranges| ==> ranges[k] == ranges[1..][k - 1];
      AnyContains(ranges[1..], address)
  }

  /** With an empty list every address is allowed, for every endpoint. */
  lemma EmptyListAllowsAll(e: ActuatorEndpoint, config: ActuatorConfiguration, ipAddress: Ipv4)
    requires config.allowedRanges == []
    ensures e.IpIsAllowed(config, ipAddress)
  {
  }

  /** The answer does not depend on the endpoint's flag. */
  lemma IpIsAllowedIgnoresFlag(config: ActuatorConfiguration, ipAddress: Ipv4)
    ensures ActuatorEndpoint(true).IpIsAllowed(config, ipAddress) == ActuatorEndpoint(false).IpIsAllowed(config, ipAddress)
  {
  }

  /** Growing a non-empty list never takes an address's access away. */
  lemma AppendKeepsAllowed(e: ActuatorEndpoint, before: ActuatorConfiguration, after: ActuatorConfiguration,
                           range: AddressRange, ipAddress: Ipv4)
    requires before.allowedRanges != []
    requires after.allowedRanges == before.allowedRanges + [range]
    ensures e.IpIsAllowed(before, ipAddress) ==> e.IpIsAllowed(after, ipAddress)
  {
    if e.IpIsAllowed(before, ipAddress) {
      var k :| 0 <= k < |before.allowedRanges| && before.allowedRanges[k].Contains(ipAddress);
      assert after.allowedRanges[k] == before.allowedRanges[k];
    }
  }

  /** `a.b.c.d` with four octets parses to that address. */
  lemma ParseDottedQuad(s: string, a: string, b: string, c: string, d: string)
    requires s == a + "." + b + "." + c + "." + d
    requires IsOctet(a) && IsOctet(b) && IsOctet(c) && IsOctet(d)
    ensures ParseAddress(s) == Some(FromOctets(Text.DecimalValue(a), Text.DecimalValue(b),
                                               Text.DecimalValue(c), Text.DecimalValue(d)))
  {
    NoSeparatorInDigits(a);
    NoSeparatorInDigits(b);
    NoSeparatorInDigits(c);
    NoSeparatorInDigits(d);
    assert s == a + ['.'] + b + ['.'] + c + ['.'] + d;
    Text.SplitFour(s, a, b, c, d, '.');
    AddressOfParts(s, a, b, c, d);
  }

  lemma AddressOfParts(s: string, a: string, b: string, c: string, d: string)
    requires Text.Split(s, '.') == [a, b, c, d]
    requires IsOctet(a) && IsOctet(b) && IsOctet(c) && IsOctet(d)
    ensures ParseAddress(s) == Some(FromOctets(Text.DecimalValue(a), Text.DecimalValue(b),
                                               Text.DecimalValue(c), Text.DecimalValue(d)))
  {
    var parts := Text.Split(s, '.');
    assert parts[0] == a && parts[1] == b && parts[2] == c && parts[3] == d;
    var x := FromOctets(Text.DecimalValue(a), Text.DecimalValue(b), Text.DecimalValue(c), Text.DecimalValue(d));
    assert |parts| == 4 && IsOctet(parts[0]) && IsOctet(parts[1]) && IsOctet(parts[2]) && IsOctet(parts[3]);
    assert ParseAddress(s) == Some(x);
  }

  lemma NoSeparatorInDigits(p: string)
    requires Text.IsDigits(p)
    ensures '.' !in p && '/' !in p && ',' !in p
  {
    assert forall k :: 0 <= k < |p| ==> Text.IsDigit(p[k]);
  }

  /** `a.b.c.d/n` parses to the CIDR block of that address. */
  lemma ParseCidr(s: string, address: string, prefix: string)
    requires s == address + "/" + prefix
    requires '/' !in address && '/' !in prefix && IsPrefixLength(prefix) && ParseAddress(address).Some?
    ensures TryParse(s) == Some(Cidr(ParseAddress(address).value, Text.DecimalValue(prefix)))
  {
    assert s == address + ['/'] + prefix;
    Text.SplitTwo(address, prefix, '/');
  }

  lemma OctetValues()
    ensures IsOctet("0") && Text.DecimalValue("0") == 0
    ensures IsOctet("1") && Text.DecimalValue("1") == 1
    ensures IsOctet("10") && Text.DecimalValue("10") == 10
    ensures IsOctet("168") && Text.DecimalValue("168") == 168
    ensures IsOctet("192") && Text.DecimalValue("192") == 192
    ensures IsPrefixLength("8") && Text.DecimalValue("8") == 8
    ensures IsPrefixLength("16") && Text.DecimalValue("16") == 16
  {
    assert "10"[..1] == "1" && "16"[..1] == "1" && "168"[..2] == "16" && "192"[..2] == "19" && "19"[..1] == "1";
  }

  /** The allow-list `192.168.0.0/16,10.0.0.0/8` parses to its two blocks. */
  lemma TwoBlocks(s: string)
    requires s == "192.168.0.0/16,10.0.0.0/8"
    ensures ParseRanges(Text.Split(s, ',')) == Success([Cidr(FromOctets(192, 168, 0, 0), 16), Cidr(FromOctets(10, 0, 0, 0), 8)])
  {
    TwoBlocksPieces(s);
    var first := "192" + "." + "168" + "." + "0" + "." + "0" + "/" + "16";
    var second := "10" + "." + "0" + "." + "0" + "." + "0" + "/" + "8";
    AroundComma(s, first, second);
    FirstBlock(first);
    SecondBlock(second);
    NoCommaInBlocks(first, second);
    Text.SplitTwo(first, second, ',');
    ParseTwoRanges(first, second);
  }

  /** The same text, spelled out piece by piece. */
  lemma TwoBlocksPieces(s: string)
    requires s == "192.168.0.0/16,10.0.0.0/8"
    ensures s == "192" + "." + "168" + "." + "0" + "." + "0" + "/" + "16" + ","
                 + "10" + "." + "0" + "." + "0" + "." + "0" + "/" + "8"
  {
  }

  lemma AroundComma(s: string, first: string, second: string)
    requires first == "192" + "." + "168" + "." + "0" + "." + "0" + "/" + "16"
    requires second == "10" + "." + "0" + "." + "0" + "." + "0" + "/" + "8"
    requires s == "192" + "." + "168" + "." + "0" + "." + "0" + "/" + "16" + ","
                  + "10" + "." + "0" + "." + "0" + "." + "0" + "/" + "8"
    ensures s == first + [','] + second
  {
  }

  lemma NoCommaInBlocks(first: string, second: string)
    requires first == "192" + "." + "168" + "." + "0" + "." + "0" + "/" + "16"
    requires second == "10" + "." + "0" + "." + "0" + "." + "0" + "/" + "8"
    ensures ',' !in first && ',' !in second
  {
  }

  lemma ParseTwoRanges(p: string, q: string)
    requires TryParse(p).Some? && TryParse(q).Some?
    ensures ParseRanges([p, q]) == Success([TryParse(p).value, TryParse(q).value])
  {
    ParseOneRange(q);
    assert [p, q][1..] == [q];
    assert [TryParse(p).value] + [TryParse(q).value] == [TryParse(p).value, TryParse(q).value];
  }

  lemma FirstBlock(first: string)
    requires first == "192" + "." + "168" + "." + "0" + "." + "0" + "/" + "16"
    ensures TryParse(first) == Some(Cidr(FromOctets(192, 168, 0, 0), 16))
  {
    OctetValues();
    NoSeparatorInDigits("192");
    NoSeparatorInDigits("168");
    NoSeparatorInDigits("0");
    NoSeparatorInDigits("16");
    var address := "192" + "." + "168" + "." + "0" + "." + "0";
    ParseDottedQuad(address, "192", "168", "0", "0");
    ParseCidr(first, address, "16");
  }

  lemma SecondBlock(second: string)
    requires second == "10" + "." + "0" + "." + "0" + "." + "0" + "/" + "8"
    ensures TryParse(second) == Some(Cidr(FromOctets(10, 0, 0, 0), 8))
  {
    OctetValues();
    NoSeparatorInDigits("10");
    NoSeparatorInDigits("0");
    NoSeparatorInDigits("8");
    var address := "10" + "." + "0" + "." + "0" + "." + "0";
    ParseDottedQuad(address, "10", "0", "0", "0");
    ParseCidr(second, address, "8");
  }

  /** `192.168.0.0/16,10.0.0.0/8` lets 192.168.1.1 and 10.255.255.1 in and keeps 172.21.1.1 out. */
  lemma MultipleIpString(s: string, config: ActuatorConfiguration, e: ActuatorEndpoint)
    requires s == "192.168.0.0/16,10.0.0.0/8"
    requires ParseRanges(Text.Split(s, ',')) == Success(config.allowedRanges)
    ensures e.IpIsAllowed(config, FromOctets(192, 168, 1, 1))
    ensures e.IpIsAllowed(config, FromOctets(10, 255, 255, 1))
    ensures !e.IpIsAllowed(config, FromOctets(172, 21, 1, 1))
  {
    TwoBlocks(s);
    Slash16Iff(192, 168, 0, 0, 192, 168, 1, 1);
    Slash8Iff(10, 0, 0, 0, 10, 255, 255, 1);
    Slash16Iff(192, 168, 0, 0, 172, 21, 1, 1);
    Slash8Iff(10, 0, 0, 0, 172, 21, 1, 1);
    assert config.allowedRanges[0].Contains(FromOctets(192, 168, 1, 1));
    assert config.allowedRanges[1].Contains(FromOctets(10, 255, 255, 1));
  }

  /** `192.168.1.1` alone lets that address in and keeps 192.168.1.2 out. */
  lemma AllowSingleIp(s: string, config: ActuatorConfiguration, e: ActuatorEndpoint)
    requires s == "192.168.1.1"
    requires ParseRanges(Text.Split(s, ',')) == Success(config.allowedRanges)
    ensures e.IpIsAllowed(config, FromOctets(192, 168, 1, 1))
    ensures !e.IpIsAllowed(config, FromOctets(192, 168, 1, 2))
  {
    SingleIp(s);
    var x := FromOctets(192, 168, 1, 1);
    assert config.allowedRanges == [AddressRange(x, x)];
    assert config.allowedRanges[0].Contains(x);
  }

  lemma SingleIp(s: string)
    requires s == "192.168.1.1"
    ensures ParseRanges(Text.Split(s, ',')) == Success([AddressRange(FromOctets(192, 168, 1, 1), FromOctets(192, 168, 1, 1))])
  {
    SingleAddress(s);
    NoSeparatorInSingle(s);
    Text.SplitNone(s, ',');
    SingleAddressRange(s);
    ParseOneRange(s);
  }

  lemma SingleAddress(s: string)
    requires s == "192.168.1.1"
    ensures ParseAddress(s) == Some(FromOctets(192, 168, 1, 1))
  {
    assert s == "192" + "." + "168" + "." + "1" + "." + "1";
    OctetValues();
    NoSeparatorInDigits("192");
    NoSeparatorInDigits("168");
    NoSeparatorInDigits("1");
    ParseDottedQuad(s, "192", "168", "1", "1");
  }

  lemma NoSeparatorInSingle(s: string)
    requires s == "192.168.1.1"
    ensures ',' !in s && '/' !in s
  {
  }

  lemma ParseOneRange(p: string)
    requires TryParse(p).Some?
    ensures ParseRanges([p]) == Success([TryParse(p).value])
  {
    assert [p][1..] == [];
    assert ParseRanges([p][1..]) == Success([]);
    assert [TryParse(p).value] + [] == [TryParse(p).value];
  }

  /** `1.1.1.1.1` has five components and is refused as a whole. */
  lemma RejectsFiveOctets(s: string)
    requires s == "1.1.1.1.1"
    ensures ParseRanges(Text.Split(s, ',')) == Failure(s)
  {
    assert ',' !in s && '/' !in s;
    Text.SplitNone(s, ',');
    Text.SplitNone(s, '/');
    var one, rest := s[..1], s[2..];
    assert s == one + ['.'] + rest;
    assert rest == one + ['.'] + one + ['.'] + one + ['.'] + one;
    assert '.' !in one;
    Text.SplitCons(one, '.', rest);
    Text.SplitFour(rest, one, one, one, one, '.');
    assert |Text.Split(s, '.')| == 5;
    ParseRangesFailsAt([s], 0);
  }

}
