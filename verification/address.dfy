/** Resolution of the admission key from an incoming request (`getIpAddress`):
    the first non-empty of the `X-Real-Ip` header, the `X-Forwarded-For` header
    and the transport's remote address, cut at its first ':'. */
module Address {

  const RealIpHeader: string := "X-Real-Ip"
  const ForwardedForHeader: string := "X-Forwarded-For"

  /** The parts of a request the resolution reads. Header names are taken to be
      in canonical form already; each name maps to its values in arrival order. */
  datatype Request = Request(headers: map<string, seq<string>>, remoteAddr: string)

  /** `Header.Get`: the first value stored under `name`, or "" when there is none. */
  function HeaderGet(headers: map<string, seq<string>>, name: string): (v: string)
    ensures v != "" ==> name in headers && |headers[name]| > 0 && v == headers[name][0]
    ensures name in headers && |headers[name]| > 0 ==> v == headers[name][0]
  {
    if name in headers && |headers[name]| > 0 then headers[name][0] else ""
  }

  /** `strings.Split(s, ":")[0]`: the longest prefix of `s` without a ':'.
      The three clauses together determine the result (see `BeforeColonUnique`). */
  function BeforeColon(s: string): (r: string)
    ensures r <= s
    ensures ':' !in r
    ensures |r| < |s| ==> s[|r|] == ':'
  {
    if |s| == 0 || s[0] == ':' then "" else [s[0]] + BeforeColon(s[1..])
  }

  /** The raw string the address is taken from, by header precedence. */
  function Source(req: Request): (src: string)
    ensures src in [HeaderGet(req.headers, RealIpHeader), HeaderGet(req.headers, ForwardedForHeader), req.remoteAddr]
    ensures src == "" <==>
      HeaderGet(req.headers, RealIpHeader) == "" && HeaderGet(req.headers, ForwardedForHeader) == "" && req.remoteAddr == ""
  {
    var realIp := HeaderGet(req.headers, RealIpHeader);
    if realIp != "" then realIp
    else
      var forwarded := HeaderGet(req.headers, ForwardedForHeader);
      if forwarded != "" then forwarded else req.remoteAddr
  }

  /** The admission key of a request. */
  function Resolve(req: Request): (addr: string)
    ensures ':' !in addr
    ensures addr <= Source(req)
    ensures |addr| < |Source(req)| ==> Source(req)[|addr|] == ':'
  {
    BeforeColon(Source(req))
  }

  /** Any prefix with no ':' that stops at a ':' or at the end is the one
      `BeforeColon` returns. */
  lemma {:induction false} BeforeColonUnique(s: string, r: string)
    requires r <= s && ':' !in r
    requires |r| < |s| ==> s[|r|] == ':'
    ensures r == BeforeColon(s)
    decreases |s|
  {
    if |s| > 0 && s[0] != ':' {
      assert |r| > 0;
      BeforeColonUnique(s[1..], r[1..]);
    }
  }

  /** Cutting at the first ':' leaves a string alone exactly when it has none. */
  lemma BeforeColonIdentity(s: string)
    ensures BeforeColon(s) == s <==> ':' !in s
  {
    if ':' !in s {
      BeforeColonUnique(s, s);
    }
  }

  /** Cutting twice is the same as cutting once. */
  lemma BeforeColonIdempotent(s: string)
    ensures BeforeColon(BeforeColon(s)) == BeforeColon(s)
  {
    BeforeColonIdentity(BeforeColon(s));
  }

  /** The header precedence: `X-Real-Ip` wins when non-empty, then a non-empty
      `X-Forwarded-For`, then the remote address. */
  lemma ResolvePrecedence(req: Request)
    ensures HeaderGet(req.headers, RealIpHeader) != "" ==>
      Resolve(req) == BeforeColon(HeaderGet(req.headers, RealIpHeader))
    ensures HeaderGet(req.headers, RealIpHeader) == "" && HeaderGet(req.headers, ForwardedForHeader) != "" ==>
      Resolve(req) == BeforeColon(HeaderGet(req.headers, ForwardedForHeader))
    ensures HeaderGet(req.headers, RealIpHeader) == "" && HeaderGet(req.headers, ForwardedForHeader) == "" ==>
      Resolve(req) == BeforeColon(req.remoteAddr)
  {
  }

  /** A resolved address resolves to itself when it is used as a remote address. */
  lemma ResolveIdempotent(req: Request)
    ensures Resolve(Request(map[], Resolve(req))) == Resolve(req)
  {
    BeforeColonIdempotent(Source(req));
  }

  /** A port in `X-Real-Ip` is cut off. */
  lemma ResolveRealIpExample()
    ensures Resolve(Request(map[RealIpHeader := ["1.2.3.4:9999"]], "")) == "1.2.3.4"
  {
    assert Source(Request(map[RealIpHeader := ["1.2.3.4:9999"]], "")) == "1.2.3.4:9999";
    BeforeColonUnique("1.2.3.4:9999", "1.2.3.4");
  }

  /** With no `X-Real-Ip`, `X-Forwarded-For` is used as it is when it has no port. */
  lemma ResolveForwardedForExample()
    ensures Resolve(Request(map[ForwardedForHeader := ["5.6.7.8"]], "")) == "5.6.7.8"
  {
    var req := Request(map[ForwardedForHeader := ["5.6.7.8"]], "");
    assert RealIpHeader !in req.headers;
    assert Source(req) == "5.6.7.8";
    BeforeColonUnique("5.6.7.8", "5.6.7.8");
  }

  /** With neither header, the port of the remote address is cut off. */
  lemma ResolveRemoteAddrExample()
    ensures Resolve(Request(map[], "9.9.9.9:1234")) == "9.9.9.9"
  {
    assert Source(Request(map[], "9.9.9.9:1234")) == "9.9.9.9:1234";
    BeforeColonUnique("9.9.9.9:1234", "9.9.9.9");
  }

  /** As written, a bracketed IPv6 remote address "[host]:port" is cut at the
      first ':' inside its brackets: "[::1]:8080" resolves to "[". */
  lemma Ipv6RemoteAddressCollapses(host: string, port: string)
    requires ':' in host
    ensures Resolve(Request(map[], "[" + host + "]:" + port)) == "[" + BeforeColon(host)
  {
    var rest := host + ("]:" + port);
    var s := "[" + rest;
    assert s == "[" + host + "]:" + port;
    var b := BeforeColon(host);
    assert b <= rest && |b| < |host|;
    assert rest[|b|] == ':';
    BeforeColonUnique(s, "[" + b);
  }

  /** Hence distinct IPv6 clients without a proxy header whose addresses share
      a first group, such as "2001:db8::7" and "2001:db8::9", share one
      admission key. */
  lemma Ipv6SharedFirstGroupCollide(host1: string, host2: string, port1: string, port2: string)
    requires ':' in host1 && ':' in host2
    requires BeforeColon(host1) == BeforeColon(host2)
    ensures Resolve(Request(map[], "[" + host1 + "]:" + port1)) == Resolve(Request(map[], "[" + host2 + "]:" + port2))
  {
    Ipv6RemoteAddressCollapses(host1, port1);
    Ipv6RemoteAddressCollapses(host2, port2);
  }
}
