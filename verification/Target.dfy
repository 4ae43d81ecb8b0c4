/** The Host header (src/probe.rs) and the authority parser (src/types.rs): what rendering a host and
    port and splitting the result again gives back, and exactly when. */
module Target {
  import opened Types
  import opened Text

  function HostHeader(host: string, port: nat, protocol: ProbeProtocol): string {
    if port == protocol.DefaultPort() then host else host + ":" + RenderNat(port)
  }

  /** The first index from `i` on whose character is in `cs`, or the length. */
  function FindAny(s: string, cs: set<char>, i: nat): (r: nat)
    requires i <= |s|
    ensures i <= r <= |s|
    ensures forall k | i <= k < r :: s[k] !in cs
    ensures r < |s| ==> s[r] in cs
    decreases |s| - i
  {
    if i == |s| || s[i] in cs then i else FindAny(s, cs, i + 1)
  }

  /** `rfind(c)`: the last index of `c` before `end`. */
  function FindLast(s: string, c: char, end: nat): (r: Option<nat>)
    requires end <= |s|
    ensures r.Some? ==> r.value < end && s[r.value] == c && c !in s[r.value + 1..end]
    ensures r.None? ==> c !in s[..end]
  {
    if end == 0 then None
    else if s[end - 1] == c then Some(end - 1)
    else FindLast(s, c, end - 1)
  }

  const PATH_START := {'/', '?'}

  type HostPort = Result<(string, Option<nat>)>

  function WithPort(host: string, port: string): HostPort {
    match ParseU16(port)
    case None => Err("invalid host port: " + port)
    case Some(p) => Ok((host, Some(p)))
  }

  function SplitAuthority(authority: string): HostPort {
    if authority == "" then Err("--host must include host")
    else if authority[0] == '[' then
      var rest := authority[1..];
      var bracketAt := FindAny(rest, {']'}, 0);
      if bracketAt == |rest| then Err("invalid bracketed IPv6 host")
      else
        var tail := rest[bracketAt + 1..];
        if tail == "" then Ok((rest[..bracketAt], None))
        else if tail[0] == ':' then WithPort(rest[..bracketAt], tail[1..])
        else Err("invalid bracketed IPv6 host")
    else
      match FindLast(authority, ':', |authority|)
      case Some(at) =>
        if ':' !in authority[..at] && authority[at + 1..] != "" && AllDigits(authority[at + 1..])
        then WithPort(authority[..at], authority[at + 1..])
        else Ok((authority, None))
      case None => Ok((authority, None))
  }

  type HostPath = Result<(string, Option<nat>, string)>

  function WithPath(authority: HostPort, rest: string): HostPath {
    match authority
    case Err(e) => Err(e)
    case Ok((host, port)) =>
      if host == "" then Err("--host must include host")
      else Ok((host, port, if rest == "" then "/" else if rest[0] == '/' then rest else "/" + rest))
  }

  /** `split_host_path`: host, explicit port, path and query. */
  function SplitHostPath(input: string): HostPath {
    var at := FindAny(input, PATH_START, 0);
    WithPath(SplitAuthority(input[..at]), input[at..])
  }

  /** The port a split target is probed on. */
  function EffectivePort(port: Option<nat>, protocol: ProbeProtocol): nat {
    match port case Some(p) => p case None => protocol.DefaultPort()
  }

  predicate Recovers(host: string, port: nat, protocol: ProbeProtocol) {
    match SplitHostPath(HostHeader(host, port, protocol))
    case Ok((h, p, _)) => h == host && EffectivePort(p, protocol) == port
    case Err(_) => false
  }

  /** One colon, then at least one digit to the end: a name that already looks like host and port. */
  predicate LooksPorted(host: string) {
    exists at | 0 <= at < |host| ::
      host[at] == ':' && ':' !in host[..at] && host[at + 1..] != "" && AllDigits(host[at + 1..])
  }

  /** Hosts whose rendered header can be split again: no path or query character, no leading
      bracket, and no colon, except that at the default port colons do no harm unless the host
      looks like host and port. */
  predicate Renderable(host: string, port: nat, protocol: ProbeProtocol) {
    && host != "" && '/' !in host && '?' !in host && host[0] != '['
    && if port == protocol.DefaultPort() then !LooksPorted(host) else ':' !in host
  }

  lemma {:induction false} FindLastAt(s: string, c: char, end: nat, k: nat)
    requires k < end <= |s| && s[k] == c && forall j | k < j < end :: s[j] != c
    ensures FindLast(s, c, end) == Some(k)
  {
    if k < end - 1 {
      FindLastAt(s, c, end - 1, k);
    }
  }

  lemma {:induction false} PortSplit(host: string, port: nat)
    requires host != "" && host[0] != '[' && port <= 65535
    ensures SplitAuthority(host + ":" + RenderNat(port))
         == if ':' in host then Ok((host + ":" + RenderNat(port), None)) else Ok((host, Some(port)))
  {
    var digits := RenderNat(port);
    var authority := host + ":" + digits;
    FindLastAt(authority, ':', |authority|, |host|);
    assert authority[..|host|] == host && authority[|host| + 1..] == digits;
    ParseOfRender(port);
  }

  lemma {:induction false} PlainSplit(host: string)
    requires host != "" && host[0] != '['
    ensures SplitAuthority(host) == Ok((host, None)) <==> !LooksPorted(host)
    ensures SplitAuthority(host).Ok? && SplitAuthority(host).value.0 == host ==> !LooksPorted(host)
  {
    if LooksPorted(host) {
      var at :| 0 <= at < |host| && host[at] == ':' && AllDigits(host[at + 1..]) && host[at + 1..] != ""
             && ':' !in host[..at];
      forall j | at < j < |host| ensures host[j] != ':' {
        assert host[j] == host[at + 1..][j - at - 1];
      }
      FindLastAt(host, ':', |host|, at);
    }
  }

  lemma SplitNeverGrows(authority: string)
    ensures SplitAuthority(authority).Ok? ==> |SplitAuthority(authority).value.0| <= |authority|
    ensures SplitAuthority(authority).Ok? && authority[0] == '[' ==>
              |SplitAuthority(authority).value.0| < |authority| - 1
  {
  }

  /** A header with a path or query character is cut inside the host. */
  lemma CutHost(host: string, port: nat, protocol: ProbeProtocol)
    requires host != "" && ('/' in host || '?' in host)
    ensures !Recovers(host, port, protocol)
  {
    var input := HostHeader(host, port, protocol);
    var at := FindAny(input, PATH_START, 0);
    assert at < |host| by {
      var k :| 0 <= k < |host| && host[k] in PATH_START;
      assert input[k] == host[k];
    }
    SplitNeverGrows(input[..at]);
  }

  /** Without path and query characters the whole input is the authority. */
  lemma WholeAuthority(input: string)
    requires '/' !in input && '?' !in input
    ensures SplitHostPath(input) == WithPath(SplitAuthority(input), "")
  {
    NoneToFind(input);
    assert input[..|input|] == input;
    assert input[|input|..] == "";
  }

  lemma NoneToFind(input: string)
    requires '/' !in input && '?' !in input
    ensures FindAny(input, PATH_START, 0) == |input|
  {
    assert forall k | 0 <= k < |input| :: input[k] in input;
  }

  lemma DigitsOnly(n: nat)
    ensures '/' !in RenderNat(n) && '?' !in RenderNat(n)
  {
    assert forall k | 0 <= k < |RenderNat(n)| :: IsDigit(RenderNat(n)[k]);
  }

  lemma Uncut(host: string, port: nat, protocol: ProbeProtocol)
    requires '/' !in host && '?' !in host
    ensures '/' !in HostHeader(host, port, protocol) && '?' !in HostHeader(host, port, protocol)
  {
    DigitsOnly(port);
  }

  lemma BracketedHost(host: string, port: nat, protocol: ProbeProtocol)
    requires host != "" && host[0] == '[' && '/' !in host && '?' !in host
    ensures !Recovers(host, port, protocol)
  {
    var input := HostHeader(host, port, protocol);
    Uncut(host, port, protocol);
    WholeAuthority(input);
    SplitNeverGrows(input);
    if port != protocol.DefaultPort() {
      assert input[1..][|host|] == RenderNat(port)[0];
      assert IsDigit(RenderNat(port)[0]);
    }
  }

  /** The round trip of section 7.2 of RFC 9110, exactly: splitting the rendered Host value gives
      back host and effective port if and only if the host is renderable. */
  lemma {:induction false} HostRoundTrip(host: string, port: nat, protocol: ProbeProtocol)
    requires port <= 65535
    ensures Recovers(host, port, protocol) <==> Renderable(host, port, protocol)
  {
    if host == "" {
      EmptyHost(port, protocol);
    } else if '/' in host || '?' in host {
      CutHost(host, port, protocol);
    } else if host[0] == '[' {
      BracketedHost(host, port, protocol);
    } else {
      if port == protocol.DefaultPort() { DefaultPortHost(host, protocol); } else { OtherPortHost(host, port, protocol); }
    }
  }

  lemma UncutSplit(host: string, port: nat, protocol: ProbeProtocol)
    requires '/' !in host && '?' !in host
    ensures SplitHostPath(HostHeader(host, port, protocol)) == WithPath(SplitAuthority(HostHeader(host, port, protocol)), "")
  {
    Uncut(host, port, protocol);
    WholeAuthority(HostHeader(host, port, protocol));
  }

  lemma {:induction false} DefaultPortHost(host: string, protocol: ProbeProtocol)
    requires host != "" && host[0] != '[' && '/' !in host && '?' !in host
    ensures Recovers(host, protocol.DefaultPort(), protocol) <==> !LooksPorted(host)
  {
    UncutSplit(host, protocol.DefaultPort(), protocol);
    PlainSplit(host);
  }

  lemma {:induction false} OtherPortHost(host: string, port: nat, protocol: ProbeProtocol)
    requires host != "" && host[0] != '[' && '/' !in host && '?' !in host
    requires port <= 65535 && port != protocol.DefaultPort()
    ensures Recovers(host, port, protocol) <==> ':' !in host
  {
    UncutSplit(host, port, protocol);
    PortSplit(host, port);
  }

  lemma EmptyHost(port: nat, protocol: ProbeProtocol)
    ensures !Recovers("", port, protocol)
  {
    assert SplitHostPath("").Err?;
  }

  lemma {:induction false} BracketedSplit(host: string, port: nat)
    requires ']' !in host && port <= 65535
    ensures SplitAuthority("[" + host + "]:" + RenderNat(port)) == Ok((host, Some(port)))
  {
    var digits := RenderNat(port);
    BracketPieces(host, digits);
    WithinBrackets("[" + host + "]:" + digits, host, ":" + digits, digits);
    ParseOfRender(port);
  }

  lemma BracketPieces(host: string, digits: string)
    ensures var authority, tail := "[" + host + "]:" + digits, ":" + digits;
            && authority[0] == '[' && authority[1..] == host + "]" + tail
            && tail[0] == ':' && tail[1..] == digits
  {
  }

  lemma {:induction false} WithinBrackets(authority: string, host: string, tail: string, digits: string)
    requires authority != "" && authority[0] == '[' && authority[1..] == host + "]" + tail && ']' !in host
    requires tail != "" && tail[0] == ':' && tail[1..] == digits
    ensures SplitAuthority(authority) == WithPort(host, digits)
  {
    BracketAt(host, tail);
    InBrackets(authority, |host|, tail);
  }

  lemma {:induction false} InBrackets(authority: string, at: nat, tail: string)
    requires authority != "" && authority[0] == '[' && FindAny(authority[1..], {']'}, 0) == at < |authority[1..]|
    requires authority[1..][at + 1..] == tail && tail != "" && tail[0] == ':'
    ensures SplitAuthority(authority) == WithPort(authority[1..][..at], tail[1..])
  {
  }

  lemma {:induction false} BracketAt(host: string, tail: string)
    requires ']' !in host
    ensures var rest := host + "]" + tail;
            FindAny(rest, {']'}, 0) == |host| && rest[..|host|] == host && rest[|host| + 1..] == tail
  {
    var rest := host + "]" + tail;
    assert rest[|host|] == ']';
    assert forall k | 0 <= k < |host| :: rest[k] == host[k];
  }

  /** Bracketed IPv6 literals are accepted with their port, but the header rendered from the stripped
      host at another than the default port never gives the pair back. */
  lemma {:induction false} BracketedPortIsLost(host: string, port: nat, protocol: ProbeProtocol)
    requires host != "" && ']' !in host && '/' !in host && '?' !in host && ':' in host
    requires port <= 65535 && port != protocol.DefaultPort()
    ensures SplitHostPath("[" + host + "]:" + RenderNat(port)) == Ok((host, Some(port), "/"))
    ensures !Recovers(host, port, protocol)
  {
    var input := "[" + host + "]:" + RenderNat(port);
    BracketedSplit(host, port);
    DigitsOnly(port);
    WholeAuthority(input);
    HostRoundTrip(host, port, protocol);
  }

  // Path and query, and what is refused

  /** The authority ends where the path or the query begins. */
  lemma {:induction false} AuthorityThen(authority: string, suffix: string)
    requires '/' !in authority && '?' !in authority && (suffix == "" || suffix[0] == '/' || suffix[0] == '?')
    ensures SplitHostPath(authority + suffix) == WithPath(SplitAuthority(authority), suffix)
  {
    var input := authority + suffix;
    var at := FindAny(input, PATH_START, 0);
    assert forall k | 0 <= k < |authority| :: input[k] == authority[k] && input[k] !in PATH_START;
    assert suffix != "" ==> input[|authority|] == suffix[0];
    assert at == |authority|;
    assert input[..at] == authority && input[at..] == suffix;
  }

  /** The whole target: a renderable host, its port unless it is 80 for plain HTTP or 443 for anything
      else, and a path or query are given back, the path with its leading slash. */
  lemma {:induction false} TargetRoundTrip(host: string, port: nat, protocol: ProbeProtocol, suffix: string)
    requires port <= 65535 && Renderable(host, port, protocol)
    requires suffix == "" || suffix[0] == '/' || suffix[0] == '?'
    ensures var default' := if protocol == HttpPlain then 80 else 443;
            var path := if suffix == "" then "/" else if suffix[0] == '?' then "/" + suffix else suffix;
            SplitHostPath(HostHeader(host, port, protocol) + suffix)
            == Ok((host, if port == default' then None else Some(port), path))
  {
    Uncut(host, port, protocol);
    AuthorityThen(HostHeader(host, port, protocol), suffix);
    if port == protocol.DefaultPort() { PlainSplit(host); } else { PortSplit(host, port); }
  }

  /** A plain authority is refused exactly when it is empty or names a port beyond sixteen bits. */
  lemma {:induction false} PlainRefusedIff(authority: string)
    requires authority == "" || authority[0] != '['
    ensures SplitAuthority(authority).Err? <==>
            authority == "" || exists at: nat :: PortAt(authority, at) && DigitsValue(authority[at + 1..]) > 65535
  {
    if authority != "" {
      var found := FindLast(authority, ':', |authority|);
      forall at: nat | PortAt(authority, at) ensures found == Some(at) {
        assert forall j | at < j < |authority| :: authority[j] == authority[at + 1..][j - at - 1];
        FindLastAt(authority, ':', |authority|, at);
      }
      if found.Some? && ':' !in authority[..found.value] && authority[found.value + 1..] != ""
         && AllDigits(authority[found.value + 1..]) {
        assert PortAt(authority, found.value);
      }
    }
  }

  /** The only colon is at `at`, and digits follow to the end. */
  predicate PortAt(authority: string, at: nat) {
    && at < |authority| && authority[at] == ':' && ':' !in authority[..at]
    && authority[at + 1..] != "" && AllDigits(authority[at + 1..])
  }

  /** A bracketed authority is accepted exactly when the bracket closes and nothing follows it but a
      colon and a port. */
  lemma {:induction false} BracketedAcceptedIff(authority: string)
    requires authority != "" && authority[0] == '['
    ensures SplitAuthority(authority).Ok? <==>
            exists at: nat :: ClosesAt(authority, at)
                              && (at + 1 == |authority|
                                  || (authority[at + 1] == ':' && ParseU16(authority[at + 2..]).Some?))
  {
    var rest := authority[1..];
    var found := FindAny(rest, {']'}, 0);
    forall at: nat | ClosesAt(authority, at) ensures found == at - 1 {
      assert rest[at - 1] == ']';
      assert forall k | 0 <= k < at - 1 :: rest[k] == authority[..at][k + 1];
    }
    if found < |rest| {
      var head := authority[..found + 1];
      assert forall k | 0 <= k < |head| :: head[k] != ']';
      assert ClosesAt(authority, found + 1);
      assert rest[found + 1..] == authority[found + 2..];
      if found + 2 < |authority| {
        assert rest[found + 1..][1..] == authority[found + 3..];
      }
    }
  }

  /** The first closing bracket is at `at`. */
  predicate ClosesAt(authority: string, at: nat) {
    1 <= at < |authority| && authority[at] == ']' && ']' !in authority[..at]
  }
}
