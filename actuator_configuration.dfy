/** `ActuatorConfiguration`: the process-wide allow-list of IP ranges that
    gates every actuator endpoint whose allow-list flag is on. The list is
    only ever replaced as a whole. */
module ActuatorConfiguration {
  import opened Wrappers
  import opened Exceptions
  import Text
  import opened IpAddressRange

  /** Parses the pieces in order with `parse`; on the first piece that does
      not parse, fails with that piece. */
  function ParseEach(pieces: seq<string>, parse: string -> Option<AddressRange>): (r: Result<seq<AddressRange>, string>)
    ensures r.Success? <==> forall k :: 0 <= k < |pieces| ==> parse(pieces[k]).Some?
    ensures r.Success? ==> |r.value| == |pieces|
    ensures r.Success? ==> forall k :: 0 <= k < |pieces| ==> parse(pieces[k]) == Some(r.value[k])
    ensures r.Failure? ==> exists k :: 0 <= k < |pieces| && pieces[k] == r.error && parse(pieces[k]).None?
                                         && forall j :: 0 <= j < k ==> parse(pieces[j]).Some?
  {
    if pieces == [] then
      Success([])
    else
      match parse(pieces[0])
      case None => Failure(pieces[0])
      case Some(range) =>
        match ParseEach(pieces[1..], parse)
        case Success(rest) =>
          assert forall k :: 1 <= k < |pieces| ==> pieces[k] == pieces[1..][k - 1];
          Success([range] + rest)
        case Failure(bad) =>
          ghost var k :| 0 <= k < |pieces[1..]| && pieces[1..][k] == bad && parse(pieces[1..][k]).None?
                         && forall j :: 0 <= j < k ==> parse(pieces[1..][j]).Some?;
          assert pieces[k + 1] == bad;
          assert forall j :: 1 <= j < k + 1 ==> pieces[j] == pieces[1..][j - 1];
          Failure(bad)
  }

  /** The comma-separated pieces parsed as ranges, in order; on the first piece
      that does not parse, fails with that piece. */
  function ParseRanges(pieces: seq<string>): (r: Result<seq<AddressRange>, string>)
    ensures r.Success? <==> forall k :: 0 <= k < |pieces| ==> TryParse(pieces[k]).Some?
    ensures r.Success? ==> |r.value| == |pieces|
    ensures r.Success? ==> forall k :: 0 <= k < |pieces| ==> TryParse(pieces[k]) == Some(r.value[k])
    ensures r.Failure? ==> exists k :: 0 <= k < |pieces| && pieces[k] == r.error && TryParse(pieces[k]).None?
                                         && forall j :: 0 <= j < k ==> TryParse(pieces[j]).Some?
  {
    ParseEach(pieces, TryParse)
  }

  /** The first piece that fails to parse is the one reported. */
  lemma {:induction false} ParseRangesFailsAt(pieces: seq<string>, i: nat)
    requires i < |pieces| && TryParse(pieces[i]).None?
    requires forall j :: 0 <= j < i ==> TryParse(pieces[j]).Some?
    ensures ParseRanges(pieces) == Failure(pieces[i])
  {
    if i > 0 {
      ParseRangesFailsAt(pieces[1..], i - 1);
    }
  }

  /** The message of the `InvalidOperationException` raised for a piece that does not parse. */
  function ParseFailureMessage(piece: string): (r: string)
    ensures |r| > |piece| && r[|r| - |piece|..] == piece
  {
    "Failed to parse IP range " + piece
  }

  class ActuatorConfiguration {
    /** `AllowedRanges`. */
    var allowedRanges: seq<AddressRange>

    constructor()
      ensures allowedRanges == []
    {
      allowedRanges := [];
    }

    /** `SetEndpointAllowedIps(string)`: splits on ',' without trimming, parses
        every piece into a fresh list, and installs that list only once every
        piece has parsed. */
    method SetEndpointAllowedIps(allowedIps: Option<string>) returns (thrown: Option<Exception>)
      modifies this
      ensures Text.IsNullOrEmpty(allowedIps) ==>
                thrown == Some(ArgumentNull("allowedIps")) && allowedRanges == old(allowedRanges)
      ensures !Text.IsNullOrEmpty(allowedIps) ==>
                var parsed := ParseRanges(Text.Split(allowedIps.value, ','));
                if parsed.Success? then thrown.None? && allowedRanges == parsed.value
                else thrown == Some(InvalidOperation(ParseFailureMessage(parsed.error))) && allowedRanges == old(allowedRanges)
    {
      if Text.IsNullOrEmpty(allowedIps) {
        return Some(ArgumentNull("allowedIps"));
      }
      var allowedIpRangeStrings := Text.Split(allowedIps.value, ',');
      var allowedRangesList: seq<AddressRange> := [];
      for i := 0 to |allowedIpRangeStrings|
        invariant |allowedRangesList| == i
        invariant forall k :: 0 <= k < i ==> TryParse(allowedIpRangeStrings[k]) == Some(allowedRangesList[k])
      {
        var allowedIpRangeString := allowedIpRangeStrings[i];
        match TryParse(allowedIpRangeString)
        case Some(allowedIpRange) =>
          allowedRangesList := allowedRangesList + [allowedIpRange];
        case None =>
          ParseRangesFailsAt(allowedIpRangeStrings, i);
          return Some(InvalidOperation(ParseFailureMessage(allowedIpRangeString)));
      }
      ghost var parsed := ParseRanges(allowedIpRangeStrings);
      assert parsed.value == allowedRangesList;
      allowedRanges := allowedRangesList;
      return None;
    }

    /** `SetEndpointAllowedIps(IPAddressRange[])`: null throws, an empty array
        keeps the current list, any other array becomes the list as it is. */
    method SetEndpointAllowedRanges(ipRanges: Option<seq<AddressRange>>) returns (thrown: Option<Exception>)
      modifies this
      ensures ipRanges.None? ==> thrown == Some(ArgumentNull("ipRanges")) && allowedRanges == old(allowedRanges)
      ensures ipRanges == Some([]) ==> thrown.None? && allowedRanges == old(allowedRanges)
      ensures ipRanges.Some? && ipRanges.value != [] ==> thrown.None? && allowedRanges == ipRanges.value
    {
      if ipRanges.None? {
        return Some(ArgumentNull("ipRanges"));
      }
      if |ipRanges.value| == 0 {
        return None;
      }
      allowedRanges := ipRanges.value;
      return None;
    }

    /** `ClearIpAllowList`: the list is empty afterwards, whatever it held. */
    method ClearIpAllowList()
      modifies this
      ensures allowedRanges == []
    {
      allowedRanges := [];
    }
  }

}
