/**
 * The calendar proxy src/app/api/ics/route.ts: it takes `?url=`, rewrites `webcal://` to
 * `https://`, refuses anything but http(s) and any private or loopback host (the ranges of
 * section 3 of RFC 1918, 127.0.0.0/8, and ::1 of section 2.5.3 of RFC 4291, as the route's six
 * patterns spell them), then relays the upstream body. URL parsing and the upstream fetch are
 * parameters.
 */
module IcsProxy {
  import opened Common
  import opened Text
  import opened IcsInspector

  /** `\d+`: a non-empty run of ASCII digits, with no bound on its value. */
  predicate DigitRun(s: string) {
    |s| >= 1 && forall i :: 0 <= i < |s| ==> IsAsciiDigit(s[i])
  }

  /** The host splits at dots into four pieces, the first ones equal to `lead`, the others digit runs. */
  predicate QuadAfter(host: string, lead: seq<string>)
    requires |lead| <= 4
  {
    var pieces := Split(host, '.');
    |pieces| == 4 && pieces[..|lead|] == lead && forall k :: |lead| <= k < 4 ==> DigitRun(pieces[k])
  }

  /** `(1[6-9]|2\d|3[0-1])`: the numbers 16 to 31 written with two digits. */
  predicate Is172Block(s: string) {
    |s| == 2 &&
    ((s[0] == '1' && '6' <= s[1] <= '9') || (s[0] == '2' && IsAsciiDigit(s[1])) || (s[0] == '3' && '0' <= s[1] <= '1'))
  }

  /** The six `BAD_HOST_PATTERNS`, one predicate each. */
  predicate IsLocalhost(host: string) { Lower(host) == "localhost" }
  predicate IsLoopback4(host: string) { QuadAfter(host, ["127"]) }
  predicate IsTenNet(host: string) { QuadAfter(host, ["10"]) }
  predicate Is172Net(host: string) {
    var pieces := Split(host, '.');
    |pieces| == 4 && pieces[0] == "172" && Is172Block(pieces[1]) && DigitRun(pieces[2]) && DigitRun(pieces[3])
  }
  predicate Is192Net(host: string) { QuadAfter(host, ["192", "168"]) }
  predicate IsLoopback6(host: string) { host in {"::1", "[::1", "::1]", "[::1]"} }

  /** `isPrivateHost`: some pattern matches. */
  predicate IsPrivateHost(host: string) {
    IsLocalhost(host) || IsLoopback4(host) || IsTenNet(host) || Is172Net(host) || Is192Net(host) || IsLoopback6(host)
  }

  /** Four dot-free pieces joined with dots split back into those pieces. */
  lemma QuadPieces(a: string, b: string, c: string, d: string)
    requires '.' !in a && '.' !in b && '.' !in c && '.' !in d
    ensures Split(a + "." + b + "." + c + "." + d, '.') == [a, b, c, d]
  {
    var s2 := c + ['.'] + d;
    var s1 := b + ['.'] + s2;
    var s0 := a + ['.'] + s1;
    SplitNoSep(d, '.');
    SplitAfterPiece(c, d, '.');
    SplitAfterPiece(b, s2, '.');
    SplitAfterPiece(a, s1, '.');
    assert a + "." + b + "." + c + "." + d == s0;
  }

  /** A host of four dot-separated pieces is those pieces joined with dots, as the regular expressions read it. */
  lemma QuadJoined(host: string)
    requires |Split(host, '.')| == 4
    ensures var p := Split(host, '.'); host == p[0] + "." + p[1] + "." + p[2] + "." + p[3]
  {
    var p := Split(host, '.');
    JoinSplit(host, '.');
    assert Join(p[3..], '.') == p[3];
    assert Join(p[2..], '.') == p[2] + "." + p[3] by {
      assert p[2..][1..] == p[3..];
    }
    assert Join(p[1..], '.') == p[1] + "." + p[2] + "." + p[3] by {
      assert p[1..][1..] == p[2..];
    }
  }

  /** The four dot-separated pieces of a literal dotted quad. */
  lemma QuadLiteral(host: string, a: string, b: string, c: string, d: string)
    requires '.' !in a && '.' !in b && '.' !in c && '.' !in d
    requires host == a + "." + b + "." + c + "." + d
    ensures Split(host, '.') == [a, b, c, d]
  {
    QuadPieces(a, b, c, d);
  }

  /** Any three digit runs after `10.` make a host in the 10 pattern. */
  lemma TenNetQuad(host: string, b: string, c: string, d: string)
    requires DigitRun(b) && DigitRun(c) && DigitRun(d)
    requires host == "10" + "." + b + "." + c + "." + d
    ensures IsTenNet(host)
  {
    QuadLiteral(host, "10", b, c, d);
    assert Split(host, '.')[..1] == ["10"];
  }

  /** The digit groups have no octet bound: `10.999.0.1` is refused. */
  lemma TenNetHasNoOctetBound()
    ensures IsPrivateHost("10.999.0.1")
  {
    TenNetQuad("10.999.0.1", "999", "0", "1");
  }

  lemma Block172Example()
    ensures Is172Net("172.31.0.1")
  {
    Is172NetQuad("172.31.0.1", "31", "0", "1");
  }

  /** A block of 16 to 31 and two digit runs after `172.` make a host in the 172 pattern. */
  lemma Is172NetQuad(host: string, b: string, c: string, d: string)
    requires Is172Block(b) && DigitRun(c) && DigitRun(d)
    requires host == "172" + "." + b + "." + c + "." + d
    ensures Is172Net(host)
  {
    QuadLiteral(host, "172", b, c, d);
  }

  /** A dotted quad whose leading pieces match none of the patterns is not private. */
  lemma QuadNotPrivate(host: string, a: string, b: string, c: string, d: string)
    requires '.' !in a && '.' !in b && '.' !in c && '.' !in d
    requires host == a + "." + b + "." + c + "." + d
    requires a != "127" && a != "10" && (a != "172" || !Is172Block(b)) && (a != "192" || b != "168")
    ensures !IsPrivateHost(host)
  {
    assert host[|a|] == '.';
    DottedNotNamed(host, |a|);
    QuadLiteral(host, a, b, c, d);
    var p := Split(host, '.');
    assert p[..1] == [a] && p[..2] == [a, b];
  }

  /** A host with a dot is neither `localhost` nor one of the IPv6 loopback spellings. */
  lemma DottedNotNamed(host: string, k: nat)
    requires k < |host| && host[k] == '.'
    ensures !IsLocalhost(host) && !IsLoopback6(host)
  {
    assert Lower(host)[k] == '.';
    assert '.' !in "localhost";
    assert '.' !in "::1" && '.' !in "[::1" && '.' !in "::1]" && '.' !in "[::1]";
  }

  /** The 172 pattern ends at 31. */
  lemma Block172Edges()
    ensures IsPrivateHost("172.31.0.1") && !IsPrivateHost("172.32.0.1")
  {
    Block172Example();
    Quad17232();
    QuadNotPrivate("172.32.0.1", "172", "32", "0", "1");
  }

  /** The pieces of `172.32.0.1`. */
  lemma Quad17232()
    ensures "172.32.0.1" == "172" + "." + "32" + "." + "0" + "." + "1"
  {
  }

  /** The unspecified address and link-local addresses are not in the list, so they pass. */
  lemma UnlistedHostsPass()
    ensures !IsPrivateHost("0.0.0.0") && !IsPrivateHost("169.254.1.1")
  {
    assert "0.0.0.0" == "0" + "." + "0" + "." + "0" + "." + "0";
    QuadNotPrivate("0.0.0.0", "0", "0", "0", "0");
    Quad1692541();
    QuadNotPrivate("169.254.1.1", "169", "254", "1", "1");
  }

  /** The pieces of `169.254.1.1`. */
  lemma Quad1692541()
    ensures "169.254.1.1" == "169" + "." + "254" + "." + "1" + "." + "1"
  {
  }

  /** What `new URL(fixed)` yields: the protocol with its colon, the host name and the serialised URL. */
  datatype RemoteUrl = RemoteUrl(protocol: string, hostname: string, href: string)

  /** How the upstream `fetch` ended. */
  datatype Upstream = UpstreamOk(text: string) | UpstreamNotOk(status: nat, statusText: string)
                    | Aborted | Threw(message: string)

  datatype Response = Response(status: nat, body: string)

  /** Where the validation prefix of `GET` sends the request: an early answer, or the URL to fetch. */
  datatype Gate = Refuse(response: Response) | Forward(remote: RemoteUrl)

  /** `/^https?:$/i.test(protocol)`. */
  predicate HttpProtocol(protocol: string) {
    Lower(protocol) == "http:" || Lower(protocol) == "https:"
  }

  /** The checks of `GET` before any request leaves the server. */
  function Gatekeep(urlParam: Option<string>, parse: string -> Option<RemoteUrl>): (g: Gate)
    ensures urlParam.None? || urlParam == Some("") ==> g == Refuse(Response(400, "Missing ?url="))
    ensures g.Refuse? ==> g.response.status == 400
    ensures g.Forward? <==>
      && urlParam.Some? && urlParam.value != ""
      && parse(NormalizeIcsUrl(urlParam.value)).Some?
      && HttpProtocol(parse(NormalizeIcsUrl(urlParam.value)).value.protocol)
      && !IsPrivateHost(parse(NormalizeIcsUrl(urlParam.value)).value.hostname)
    ensures g.Forward? ==> g.remote == parse(NormalizeIcsUrl(urlParam.value)).value
  {
    if urlParam.None? || urlParam.value == "" then Refuse(Response(400, "Missing ?url="))
    else
      match parse(NormalizeIcsUrl(urlParam.value))
      case None => Refuse(Response(400, "Invalid URL"))
      case Some(remote) =>
        if !HttpProtocol(remote.protocol) then Refuse(Response(400, "Only http(s) URLs are allowed"))
        else if IsPrivateHost(remote.hostname) then Refuse(Response(400, "Private/loopback hosts are not allowed"))
        else Forward(remote)
  }

  /** `GET`: the gate, then the upstream answer relayed, mapped to 502, or to 500 on a thrown error. */
  function Get(urlParam: Option<string>, parse: string -> Option<RemoteUrl>, fetch: string -> Upstream): (r: Response)
    ensures Gatekeep(urlParam, parse).Refuse? ==> r == Gatekeep(urlParam, parse).response
    ensures Gatekeep(urlParam, parse).Forward? ==>
      var upstream := fetch(Gatekeep(urlParam, parse).remote.href);
      && (upstream.UpstreamOk? <==> r.status == 200)
      && (upstream.UpstreamOk? ==> r.body == upstream.text)
      && (upstream.UpstreamNotOk? <==> r.status == 502)
      && (upstream.Aborted? ==> r == Response(500, "Upstream timeout"))
      && (upstream.Threw? ==> r.status == 500 && r.body != "")
    ensures r.status in {200, 400, 500, 502}
  {
    match Gatekeep(urlParam, parse)
    case Refuse(response) => response
    case Forward(remote) =>
      match fetch(remote.href)
      case UpstreamOk(text) => Response(200, text)
      case UpstreamNotOk(status, statusText) =>
        Response(502, "Upstream error: " + NatToString(status) + " " + statusText)
      case Aborted => Response(500, "Upstream timeout")
      case Threw(message) => Response(500, if message == "" then "Proxy error" else message)
  }

  /** A private host is refused before anything is fetched: the fetch does not matter. */
  lemma PrivateHostNeverFetched(urlParam: string, parse: string -> Option<RemoteUrl>,
                                fetch1: string -> Upstream, fetch2: string -> Upstream)
    requires urlParam != "" && parse(NormalizeIcsUrl(urlParam)).Some?
    requires HttpProtocol(parse(NormalizeIcsUrl(urlParam)).value.protocol)
    requires IsPrivateHost(parse(NormalizeIcsUrl(urlParam)).value.hostname)
    ensures Get(Some(urlParam), parse, fetch1) == Get(Some(urlParam), parse, fetch2)
      == Response(400, "Private/loopback hosts are not allowed")
  {
  }
}
