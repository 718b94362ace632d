/**
 * The latency proxy's command line: `host:port` addresses, routes of the
 * form LATENCY,LISTEN_HOST:LISTEN_PORT,TARGET_HOST:TARGET_PORT, and the three
 * routes used when none is given.
 */
module Routes {
  import opened Wrappers
  import opened Text
  import opened PyNumbers

  /** A (host, port) pair. The port is an unbounded integer because the
      bracketed form applies no range check at all. */
  datatype Address = Address(host: string, port: int)

  /** One proxied route: the one-way delay in seconds and the two endpoints. */
  datatype Route = Route(oneWay: Float, listen: Address, target: Address)

  /** Why argparse rejects a route argument; each stands for one raised message. */
  datatype ArgError =
    | InvalidAddress(text: string)   // "invalid address '...'"
    | PortOutOfRange(text: string)   // "port out of range in '...'"
    | MalformedRoute                 // "route must be LATENCY,LISTEN_HOST:..."
    | InvalidLatency(text: string)   // "invalid latency '...'"
    | NegativeLatency                // "latency must be >= 0"

  predicate Bracketed(s: string) { |s| > 0 && s[0] == '[' }

  /** `_parse_hostport`: "[host]:port" takes the host up to the first ']' and
      does not range-check the port; any other text splits at its last ':'
      and needs 0 < port < 65536. */
  function ParseHostPort(s: string): (r: Result<Address, ArgError>)
    ensures r.Failure? ==> r.error == InvalidAddress(s) || r.error == PortOutOfRange(s)
    ensures r.Failure? && r.error.PortOutOfRange? ==> !Bracketed(s)
    ensures r.Success? && !Bracketed(s) ==> 0 < r.value.port < 65536
  {
    if Bracketed(s) then
      match SplitFirst(s[1..], ']')
      case None => Failure(InvalidAddress(s))
      case Some((host, rest)) =>
        if |rest| > 0 && rest[0] == ':' then
          match ParseInt(rest[1..])
          case Some(p) => Success(Address(host, p))
          case None => Failure(InvalidAddress(s))
        else Failure(InvalidAddress(s))
    else
      match SplitLast(s, ':')
      case None => Failure(InvalidAddress(s))
      case Some((host, portText)) =>
        match ParseInt(portText)
        case None => Failure(InvalidAddress(s))
        case Some(p) =>
          if 0 < p < 65536 then Success(Address(host, p)) else Failure(PortOutOfRange(s))
  }

  /** An unbracketed address is cut at its last ':': the host is all that
      comes before it and the port is the integer after it. */
  lemma HostPortSplitsAtLastColon(s: string)
    requires !Bracketed(s) && ParseHostPort(s).Success?
    ensures var a := ParseHostPort(s).value;
      |a.host| < |s| && s[..|a.host|] == a.host && s[|a.host|] == ':' && ':' !in s[|a.host| + 1..]
      && ParseInt(s[|a.host| + 1..]) == Some(a.port)
  {
    var (host, portText) := SplitLast(s, ':').value;
    assert ParseHostPort(s) == Success(Address(host, ParseInt(portText).value));
    assert s[..|host|] == host && s[|host| + 1..] == portText;
  }

  /** A bracketed address takes its host up to the first ']', which must be
      followed by ':' and an integer. */
  lemma HostPortInBrackets(s: string)
    requires Bracketed(s) && ParseHostPort(s).Success?
    ensures var a := ParseHostPort(s).value;
      |a.host| + 3 <= |s| && s[1..|a.host| + 1] == a.host && ']' !in a.host
      && s[|a.host| + 1] == ']' && s[|a.host| + 2] == ':'
      && ParseInt(s[|a.host| + 3..]) == Some(a.port)
  {
    var (host, rest) := SplitFirst(s[1..], ']').value;
    var port := ParseInt(rest[1..]).value;
    assert ParseHostPort(s) == Success(Address(host, port));
    assert s[1..] == host + [']'] + rest;
    assert s[1..|host| + 1] == host;
    assert s[|host| + 3..] == rest[1..];
  }

  /** `host:port` text for a port that is written without a sign. */
  function FormatAddress(host: string, port: nat): string {
    host + ":" + NatToString(port)
  }

  /** A formatted address without a leading '[' splits back into its host
      and the port's digits. */
  lemma UnbracketedFormat(host: string, port: nat)
    requires host == [] || host[0] != '['
    ensures var s := FormatAddress(host, port);
      !Bracketed(s) && SplitLast(s, ':') == Some((host, NatToString(port)))
  {
    var digits := NatToString(port);
    assert FormatAddress(host, port) == host + [':'] + digits;
    NotInDigits(digits, ':');
    SplitLastOf(host, ':', digits);
  }

  /** An in-range port is written with at most five digits, well within
      `int()`'s digit limit, so it parses back. */
  lemma InRangePortParses(port: nat)
    requires port < 65536
    ensures |NatToString(port)| <= 5
    ensures ParseInt(NatToString(port)) == Some(port)
  {
    assert TenPower(5) == 100000;
    NatToStringLength(port, 5);
    ParseIntOfNatString(port);
  }

  /** Writing a host and an in-range port and parsing the text gives them
      back, even when the host holds ':' itself; only a leading '[' would
      send the text down the bracketed path. */
  lemma HostPortRoundTrip(host: string, port: nat)
    requires host == [] || host[0] != '['
    requires 0 < port < 65536
    ensures ParseHostPort(FormatAddress(host, port)) == Success(Address(host, port))
  {
    UnbracketedFormat(host, port);
    InRangePortParses(port);
  }

  /** Without any ':' there is no port, on either path. */
  lemma NoColonNoAddress(s: string)
    requires ':' !in s
    ensures ParseHostPort(s) == Failure(InvalidAddress(s))
  {
    if Bracketed(s) {
      match SplitFirst(s[1..], ']')
      case None =>
      case Some((host, rest)) =>
        if |rest| > 0 {
          assert rest[0] in s[1..];
        }
    }
  }

  /** A port of 0, or of 65536 and above, is refused on the unbracketed path
      as out of range, as long as `int()` reads it at all. */
  lemma PortRangeChecked(host: string, port: nat)
    requires host == [] || host[0] != '['
    requires port == 0 || port >= 65536
    requires |NatToString(port)| <= IntMaxStrDigits
    ensures ParseHostPort(FormatAddress(host, port)) == Failure(PortOutOfRange(FormatAddress(host, port)))
  {
    UnbracketedFormat(host, port);
    ParseIntOfNatString(port);
  }

  /** "[host]:port" yields the host between the brackets and the port as
      written, with no range check, for every natural port within `int()`'s
      digit limit. */
  lemma BracketRoundTrip(host: string, port: nat)
    requires ']' !in host
    requires |NatToString(port)| <= IntMaxStrDigits
    ensures ParseHostPort("[" + host + "]:" + NatToString(port)) == Success(Address(host, port))
  {
    var digits := NatToString(port);
    var rest := ":" + digits;
    var s := "[" + host + "]:" + digits;
    assert Bracketed(s) && s[1..] == host + [']'] + rest;
    SplitFirstOf(host, ']', rest);
    assert |rest| > 0 && rest[0] == ':' && rest[1..] == digits;
    ParseIntOfNatString(port);
    assert ParseInt(digits) == Some(port);
  }

  /** A port of more digits than `int()` reads makes the address invalid,
      rather than out of range... */
  lemma OverlongPortRefused(host: string, port: nat)
    requires host == [] || host[0] != '['
    requires |NatToString(port)| > IntMaxStrDigits
    ensures ParseHostPort(FormatAddress(host, port)) == Failure(InvalidAddress(FormatAddress(host, port)))
  {
    UnbracketedFormat(host, port);
    ParseIntOfNatString(port);
  }

  /** ...and in brackets, where no range is checked, it is invalid too. */
  lemma OverlongBracketedPortRefused(host: string, port: nat)
    requires ']' !in host
    requires |NatToString(port)| > IntMaxStrDigits
    ensures ParseHostPort("[" + host + "]:" + NatToString(port)) == Failure(InvalidAddress("[" + host + "]:" + NatToString(port)))
  {
    var digits := NatToString(port);
    var rest := ":" + digits;
    var s := "[" + host + "]:" + digits;
    assert Bracketed(s) && s[1..] == host + [']'] + rest;
    SplitFirstOf(host, ']', rest);
    assert |rest| > 0 && rest[0] == ':' && rest[1..] == digits;
    ParseIntOfNatString(port);
    assert ParseInt(digits) == None;
  }

  /** A port text that is not an integer is refused on the unbracketed path. */
  lemma NonIntegerPortRefused(host: string, portText: string)
    requires host == [] || host[0] != '['
    requires ':' !in portText && ParseInt(portText) == None
    ensures ParseHostPort(host + ":" + portText) == Failure(InvalidAddress(host + ":" + portText))
  {
    var s := host + ":" + portText;
    assert s == host + [':'] + portText && !Bracketed(s);
    SplitLastOf(host, ':', portText);
  }

  /** A port text that starts with one of the separators U+001C to U+001F
      is refused on both paths, although `str.strip()` would have dropped
      such a character: `int()` skips less. */
  lemma SeparatorInPortRefused(host: string, c: char, digits: string)
    requires '\U{1C}' <= c <= '\U{1F}' && ':' !in digits
    ensures host == [] || host[0] != '[' ==>
      ParseHostPort(host + ":" + [c] + digits) == Failure(InvalidAddress(host + ":" + [c] + digits))
    ensures ']' !in host ==>
      ParseHostPort("[" + host + "]:" + [c] + digits) == Failure(InvalidAddress("[" + host + "]:" + [c] + digits))
  {
    SeparatorNotSkipped(c, digits);
    var portText := [c] + digits;
    assert ':' !in portText;
    if host == [] || host[0] != '[' {
      assert host + ":" + [c] + digits == host + ":" + portText;
      NonIntegerPortRefused(host, portText);
    }
    if ']' !in host {
      var rest := ":" + portText;
      var s := "[" + host + "]:" + [c] + digits;
      assert Bracketed(s) && s[1..] == host + [']'] + rest;
      SplitFirstOf(host, ']', rest);
      assert |rest| > 0 && rest[0] == ':' && rest[1..] == portText;
    }
  }

  /** In brackets, a text with no closing ']' is refused. */
  lemma UnclosedBracketRefused(s: string)
    requires Bracketed(s) && ']' !in s[1..]
    ensures ParseHostPort(s) == Failure(InvalidAddress(s))
  {
  }

  /** In brackets, a first ']' that is not followed by ':' is refused. */
  lemma BracketWithoutColonRefused(host: string, rest: string)
    requires ']' !in host && (rest == [] || rest[0] != ':')
    ensures ParseHostPort("[" + host + "]" + rest) == Failure(InvalidAddress("[" + host + "]" + rest))
  {
    var s := "[" + host + "]" + rest;
    assert Bracketed(s) && s[1..] == host + [']'] + rest;
    SplitFirstOf(host, ']', rest);
  }

  /** Port 0 is accepted in brackets... */
  lemma BracketedZeroAccepted()
    ensures ParseHostPort("[::1]:0") == Success(Address("::1", 0))
  {
    var zero := NatToString(0);
    assert zero == "0";
    BracketRoundTrip("::1", 0);
    assert "[" + "::1" + "]:" + zero == "[::1]:0";
  }

  /** ...though it is refused without them. */
  lemma UnbracketedZeroRefused()
    ensures ParseHostPort("127.0.0.1:0") == Failure(PortOutOfRange("127.0.0.1:0"))
  {
    assert NatToString(0) == "0";
    PortRangeChecked("127.0.0.1", 0);
    assert FormatAddress("127.0.0.1", 0) == "127.0.0.1:0";
  }

  /** `arg.split(',', 2)` unpacked into three names, each stripped: the text
      before the first comma, between the first two, and after the second. */
  function RouteFields(arg: string): Option<(string, string, string)> {
    match SplitFirst(arg, ',')
    case None => None
    case Some((latency, rest)) =>
      match SplitFirst(rest, ',')
      case None => None
      case Some((listen, target)) =>
        Some((Strip(latency, Python), Strip(listen, Python), Strip(target, Python)))
  }

  /** A route has its three fields exactly when it holds at least two commas. */
  lemma RouteFieldsNeedTwoCommas(arg: string)
    ensures RouteFields(arg).None? <==> Count(arg, ',') < 2
  {
    CountZero(arg, ',');
    match SplitFirst(arg, ',')
    case None =>
    case Some((latency, rest)) =>
      CountAppend(latency + [','], rest, ',');
      CountAppend(latency, [','], ',');
      CountZero(latency, ',');
      CountZero(rest, ',');
  }

  /** The fields are cut at the first two commas; the last may hold more commas. */
  lemma RouteFieldsOf(latency: string, listen: string, target: string)
    requires ',' !in latency && ',' !in listen
    ensures RouteFields(latency + "," + listen + "," + target)
         == Some((Strip(latency, Python), Strip(listen, Python), Strip(target, Python)))
  {
    var arg := latency + "," + listen + "," + target;
    assert arg == latency + [','] + (listen + "," + target);
    SplitFirstOf(latency, ',', listen + "," + target);
    assert listen + "," + target == listen + [','] + target;
    SplitFirstOf(listen, ',', target);
  }

  /** `_parse_route`: the fields, then the latency (a float that is not
      negative), then the listen address, then the target address; the
      first check that fails decides the error. */
  function ParseRoute(arg: string): (r: Result<Route, ArgError>)
    ensures r.Success? ==> !IsNegative(r.value.oneWay)
  {
    match RouteFields(arg)
    case None => Failure(MalformedRoute)
    case Some((latencyText, listenText, targetText)) =>
      match ParseFloat(latencyText)
      case None => Failure(InvalidLatency(latencyText))
      case Some(oneWay) =>
        if IsNegative(oneWay) then Failure(NegativeLatency)
        else
          match ParseHostPort(listenText)
          case Failure(e) => Failure(e)
          case Success(listen) =>
            match ParseHostPort(targetText)
            case Failure(e) => Failure(e)
            case Success(target) => Success(Route(oneWay, listen, target))
  }

  /** An accepted route holds a latency that is not negative, and its two
      endpoints are exactly what `_parse_hostport` makes of the second and
      third fields. */
  lemma AcceptedRoute(arg: string)
    requires ParseRoute(arg).Success?
    ensures var fields, route := RouteFields(arg), ParseRoute(arg).value;
      fields.Some? && ParseFloat(fields.value.0) == Some(route.oneWay) && !IsNegative(route.oneWay)
      && ParseHostPort(fields.value.1) == Success(route.listen)
      && ParseHostPort(fields.value.2) == Success(route.target)
  {
    var (latencyText, listenText, targetText) := RouteFields(arg).value;
    var oneWay := ParseFloat(latencyText).value;
    var listen := ParseHostPort(listenText).value;
    var target := ParseHostPort(targetText).value;
    assert ParseRoute(arg) == Success(Route(oneWay, listen, target));
  }

  /** The latency check comes before the addresses: a negative latency is
      reported whatever the addresses are, and only then. */
  lemma NegativeLatencyIff(arg: string)
    ensures ParseRoute(arg) == Failure(NegativeLatency) <==>
      RouteFields(arg).Some? && ParseFloat(RouteFields(arg).value.0).Some?
      && IsNegative(ParseFloat(RouteFields(arg).value.0).value)
  {
  }

  /** Only a route with fewer than two commas is malformed. */
  lemma MalformedRouteIff(arg: string)
    ensures ParseRoute(arg) == Failure(MalformedRoute) <==> Count(arg, ',') < 2
  {
    RouteFieldsNeedTwoCommas(arg);
    if RouteFields(arg).Some? {
      FieldsNotMalformed(arg);
    }
  }

  /** Once the three fields are there, every error names a later check. */
  lemma FieldsNotMalformed(arg: string)
    requires RouteFields(arg).Some?
    ensures ParseRoute(arg) != Failure(MalformedRoute)
  {
    var (latencyText, listenText, targetText) := RouteFields(arg).value;
    if ParseFloat(latencyText).Some? && !IsNegative(ParseFloat(latencyText).value) {
      var listen := ParseHostPort(listenText);
      var target := ParseHostPort(targetText);
      if listen.Success? && target.Success? {
        assert ParseRoute(arg) == Success(Route(ParseFloat(latencyText).value, listen.value, target.value));
      }
    }
  }

  /** Writing a latency and two addresses as a route and parsing it gives
      them back. */
  lemma RouteRoundTrip(latency: string, x: Float, listen: Address, target: Address)
    requires ',' !in latency && ParseFloat(latency) == Some(x) && !IsNegative(x)
    requires |latency| > 0 && !IsSpace(Python, latency[0]) && !IsSpace(Python, latency[|latency| - 1])
    requires PlainHost(listen.host) && PlainHost(target.host)
    requires 0 < listen.port < 65536 && 0 < target.port < 65536
    ensures ParseRoute(latency + "," + FormatAddress(listen.host, listen.port) + "," + FormatAddress(target.host, target.port))
         == Success(Route(x, listen, target))
  {
    var a := FormatAddress(listen.host, listen.port);
    var b := FormatAddress(target.host, target.port);
    FormattedIsStripped(listen.host, listen.port);
    FormattedIsStripped(target.host, target.port);
    StripKeeps(latency, Python);
    RouteFieldsOf(latency, a, b);
    HostPortRoundTrip(listen.host, listen.port);
    HostPortRoundTrip(target.host, target.port);
  }

  /** A host that can be written in a route: no comma, no leading '[' and no
      surrounding whitespace. */
  predicate PlainHost(host: string) {
    ',' !in host && (host == [] || (host[0] != '[' && !IsSpace(Python, host[0])))
  }

  lemma FormattedIsStripped(host: string, port: nat)
    requires PlainHost(host)
    ensures ',' !in FormatAddress(host, port)
    ensures Strip(FormatAddress(host, port), Python) == FormatAddress(host, port)
  {
    var s := FormatAddress(host, port);
    var digits := NatToString(port);
    assert s == host + ":" + digits;
    assert IsDigit(s[|s| - 1]) by { assert s[|s| - 1] == digits[|digits| - 1]; }
    if host == [] { assert s[0] == ':'; } else { assert s[0] == host[0]; }
    StripKeeps(s, Python);
    NotInDigits(digits, ',');
  }

  /** Every route argument is parsed in order; argparse stops at the first
      that fails. */
  function ParseAll(args: seq<string>): (r: Result<seq<Route>, ArgError>)
    ensures r.Success? ==> |r.value| == |args|
  {
    if args == [] then Success([])
    else
      match ParseRoute(args[0])
      case Failure(e) => Failure(e)
      case Success(first) =>
        match ParseAll(args[1..])
        case Failure(e) => Failure(e)
        case Success(rest) => Success([first] + rest)
  }

  /** The arguments are accepted exactly when each route is, and then the
      routes are theirs, in the order given. */
  lemma {:induction false} ParseAllRoutes(args: seq<string>)
    ensures ParseAll(args).Success? <==> forall i :: 0 <= i < |args| ==> ParseRoute(args[i]).Success?
    ensures ParseAll(args).Success? ==>
      |ParseAll(args).value| == |args|
      && forall i :: 0 <= i < |args| ==> ParseRoute(args[i]) == Success(ParseAll(args).value[i])
  {
    if args != [] {
      var tail := args[1..];
      ParseAllRoutes(tail);
      var first := ParseRoute(args[0]);
      if first.Failure? {
        assert ParseAll(args).Failure?;
      } else if ParseAll(tail).Failure? {
        assert ParseAll(args).Failure?;
        var j :| 0 <= j < |tail| && ParseRoute(tail[j]).Failure?;
        assert args[j + 1] == tail[j];
      } else {
        var rest := ParseAll(tail).value;
        assert ParseAll(args) == Success([first.value] + rest);
        forall i | 0 <= i < |args|
          ensures ParseRoute(args[i]) == Success(ParseAll(args).value[i])
        {
          if i > 0 {
            assert args[i] == tail[i - 1];
          }
        }
      }
    }
  }

  /** The latency and loopback endpoints of a default route:
      DefaultRouteText(20000, 19000) is "0.250,127.0.0.1:20000,127.0.0.1:19000". */
  function DefaultRouteText(listen: nat, target: nat): string {
    "0.250," + FormatAddress("127.0.0.1", listen) + "," + FormatAddress("127.0.0.1", target)
  }

  const DefaultRouteTexts: seq<string> := [
    DefaultRouteText(20000, 19000),
    DefaultRouteText(21000, 18000),
    DefaultRouteText(22000, 17000)
  ]

  /** The routes of `parse_args`: the given `--route` arguments, or the three
      defaults when there are none. */
  function ParseArgsRoutes(given: seq<string>): (r: Result<seq<Route>, ArgError>)
    ensures given != [] ==> r == ParseAll(given)
  {
    ParseAll(if given == [] then DefaultRouteTexts else given)
  }

  function Local(port: nat): Address { Address("127.0.0.1", port) }

  /** With no `--route`, three quarter-second routes forward the listen ports
      20000, 21000 and 22000 on the loopback host to 19000, 18000 and 17000. */
  lemma DefaultRoutes()
    ensures ParseArgsRoutes([]) == Success([
      Route(Finite(0.25), Local(20000), Local(19000)),
      Route(Finite(0.25), Local(21000), Local(18000)),
      Route(Finite(0.25), Local(22000), Local(17000))])
  {
    EachDefaultRoute();
    ParseAllThree(DefaultRouteText(20000, 19000), DefaultRouteText(21000, 18000), DefaultRouteText(22000, 17000),
      Route(Finite(0.25), Local(20000), Local(19000)),
      Route(Finite(0.25), Local(21000), Local(18000)),
      Route(Finite(0.25), Local(22000), Local(17000)));
  }

  lemma ParseAllThree(a: string, b: string, c: string, ra: Route, rb: Route, rc: Route)
    requires ParseRoute(a) == Success(ra) && ParseRoute(b) == Success(rb) && ParseRoute(c) == Success(rc)
    ensures ParseAll([a, b, c]) == Success([ra, rb, rc])
  {
    ParseAllTwo(b, c, rb, rc);
    assert [a, b, c][1..] == [b, c] && [ra] + [rb, rc] == [ra, rb, rc];
  }

  lemma ParseAllTwo(b: string, c: string, rb: Route, rc: Route)
    requires ParseRoute(b) == Success(rb) && ParseRoute(c) == Success(rc)
    ensures ParseAll([b, c]) == Success([rb, rc])
  {
    assert ParseAll([c]) == Success([rc]) by {
      assert [c][1..] == [] && [rc] + [] == [rc];
    }
    assert [b, c][1..] == [c] && [rb] + [rc] == [rb, rc];
  }

  lemma EachDefaultRoute()
    ensures ParseRoute(DefaultRouteText(20000, 19000)) == Success(Route(Finite(0.25), Local(20000), Local(19000)))
    ensures ParseRoute(DefaultRouteText(21000, 18000)) == Success(Route(Finite(0.25), Local(21000), Local(18000)))
    ensures ParseRoute(DefaultRouteText(22000, 17000)) == Success(Route(Finite(0.25), Local(22000), Local(17000)))
  {
    QuarterSecond();
    DefaultRoute(20000, 19000);
    DefaultRoute(21000, 18000);
    DefaultRoute(22000, 17000);
  }

  lemma DefaultRoute(listen: nat, target: nat)
    requires 0 < listen < 65536 && 0 < target < 65536
    requires ParseFloat("0.250") == Some(Finite(0.25))
    ensures ParseRoute(DefaultRouteText(listen, target)) == Success(Route(Finite(0.25), Local(listen), Local(target)))
  {
    RouteRoundTrip("0.250", Finite(0.25), Local(listen), Local(target));
    assert "0.250," == "0.250" + ",";
  }
}
