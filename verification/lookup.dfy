/**
 * The lookup hooks of the Docker name-service plugin: list every container as a host,
 * find a container by host or display name, find a container by IPv4 address.
 *
 * The lazily connected daemon client is the parameter `conn`: either the connected
 * `Docker` or the error that connecting gave, which every IPv4 lookup then reports (IPv6
 * queries answer "not found" without consulting it). During one
 * query the daemon's answers are fixed, so the daemon is a value.
 *
 * A `HashMap` is iterated in an unspecified order, which the model represents by an
 * arbitrary choice of key (`AnyKey`); the functions that depend on that choice are ghost,
 * and results about addresses are stated as multisets that never depend on it.
 */
module Lookup {
  import opened Wrappers
  import opened Net
  import opened Nss
  import opened Responses
  import opened DockerApi

  // ---------------------------------------------------------------------------------------
  // The daemon, reached through the shared connection

  /** `get_containers`: list the running containers, or the connection's or the listing's error. */
  function GetContainers(conn: ResponseResult<Docker>): (r: ResponseResult<seq<SmallContainer>>)
    ensures conn.Err? ==> r == Err(conn.error)
    ensures r.Ok? ==> conn.Ok?
  {
    match conn
    case Err(e) => Err(e)
    case Ok(d) => d.containers
  }

  /** `query_container`: fetch the detail of one listed container by its id. */
  function QueryContainer(conn: ResponseResult<Docker>, c: SmallContainer): (r: ResponseResult<Container>)
    ensures conn.Err? ==> r == Err(conn.error)
    ensures r.Ok? ==> conn.Ok?
    ensures conn.Ok? ==> r == conn.value.container(c.id)
  {
    match conn
    case Err(e) => Err(e)
    case Ok(d) => d.container(c.id)
  }

  // ---------------------------------------------------------------------------------------
  // From endpoints to addresses

  /** The endpoints whose address text parses to `a`. */
  function EndpointsWith(networks: map<string, Network>, a: Ipv4Addr): set<string> {
    set k | k in networks && ParseIpv4(networks[k].ipAddress) == Some(a)
  }

  /** The endpoints whose address text parses as an IPv4 address. */
  function ParseableEndpoints(networks: map<string, Network>): set<string> {
    set k | k in networks && ParseIpv4(networks[k].ipAddress).Some?
  }

  predicate HasIpv4(networks: map<string, Network>) {
    exists k :: k in networks && ParseIpv4(networks[k].ipAddress).Some?
  }

  /** The next key `HashMap` iteration visits; which one it is, is left open. */
  ghost function AnyKey(networks: map<string, Network>): (k: string)
    requires networks != map[]
    ensures k in networks
  {
    var k :| k in networks; k
  }

  /** What one endpoint contributes: its address if the text parses, nothing otherwise. */
  function AddressAt(networks: map<string, Network>, k: string): multiset<Ipv4Addr>
    requires k in networks
  {
    match ParseIpv4(networks[k].ipAddress)
    case Some(a) => multiset{a}
    case None => multiset{}
  }

  /** The `filter_map(..).collect()` over all endpoints, in iteration order. */
  ghost function EndpointAddresses(networks: map<string, Network>): (r: multiset<Ipv4Addr>)
    ensures forall a :: a in r ==> exists k :: k in networks && ParseIpv4(networks[k].ipAddress) == Some(a)
    decreases networks.Keys
  {
    if networks == map[] then multiset{}
    else
      var k := AnyKey(networks);
      AddressAt(networks, k) + EndpointAddresses(networks - {k})
  }

  /** Removing one endpoint removes it, and only it, from the endpoints carrying `a`. */
  lemma EndpointsWithRemove(networks: map<string, Network>, k: string, a: Ipv4Addr)
    requires k in networks
    ensures |EndpointsWith(networks, a)|
         == |EndpointsWith(networks - {k}, a)| + AddressAt(networks, k)[a]
  {
    var rest := networks - {k};
    var here := if ParseIpv4(networks[k].ipAddress) == Some(a) then {k} else {};
    forall x ensures x in EndpointsWith(networks, a) <==> x in EndpointsWith(rest, a) + here {
      if x != k && x in networks {
        assert rest[x] == networks[x];
      }
    }
    assert EndpointsWith(networks, a) == EndpointsWith(rest, a) + here;
    assert k !in EndpointsWith(rest, a);
  }

  lemma ParseableRemove(networks: map<string, Network>, k: string)
    requires k in networks
    ensures |ParseableEndpoints(networks)| == |ParseableEndpoints(networks - {k})| + |AddressAt(networks, k)|
  {
    var rest := networks - {k};
    if ParseIpv4(networks[k].ipAddress).Some? {
      assert ParseableEndpoints(networks) == ParseableEndpoints(rest) + {k};
    } else {
      assert ParseableEndpoints(networks) == ParseableEndpoints(rest);
    }
  }

  /** Each address is collected once per endpoint that carries it, whatever the iteration order. */
  lemma {:induction false} EndpointAddressesCount(networks: map<string, Network>)
    ensures forall a :: EndpointAddresses(networks)[a] == |EndpointsWith(networks, a)|
    ensures |EndpointAddresses(networks)| == |ParseableEndpoints(networks)|
    decreases networks.Keys
  {
    if networks == map[] {
      assert ParseableEndpoints(networks) == {};
      forall a ensures EndpointAddresses(networks)[a] == |EndpointsWith(networks, a)| {
        assert EndpointsWith(networks, a) == {};
      }
    } else {
      var k := AnyKey(networks);
      var rest := networks - {k};
      EndpointAddressesCount(rest);
      assert EndpointAddresses(networks) == AddressAt(networks, k) + EndpointAddresses(rest);
      forall a ensures EndpointAddresses(networks)[a] == |EndpointsWith(networks, a)| {
        EndpointsWithRemove(networks, k, a);
      }
      ParseableRemove(networks, k);
    }
  }

  /** `networks_to_addresses`: the IPv4 addresses of all endpoints, or `NotFound` if none parses. */
  ghost function NetworksToAddresses(networks: map<string, Network>): (r: ResponseResult<Addresses>)
    ensures r.Err? <==> !HasIpv4(networks)
    ensures r.Err? ==> r.error == ResponseError.NotFound
    ensures r.Ok? ==> r.value.V4? && |r.value.v4| == |ParseableEndpoints(networks)|
    ensures r.Ok? ==> forall a :: r.value.v4[a] == |EndpointsWith(networks, a)|
  {
    var addrs := EndpointAddresses(networks);
    EndpointAddressesCount(networks);
    assert HasIpv4(networks) ==> ParseableEndpoints(networks) != {} by {
      if HasIpv4(networks) {
        var k :| k in networks && ParseIpv4(networks[k].ipAddress).Some?;
        assert k in ParseableEndpoints(networks);
      }
    }
    if addrs == multiset{} then Err(ResponseError.NotFound) else Ok(Addresses.V4(addrs))
  }

  /** An address is among an endpoint set's addresses exactly when some endpoint spells it. */
  lemma AddressMembership(networks: map<string, Network>, a: Ipv4Addr)
    requires NetworksToAddresses(networks).Ok?
    ensures a in NetworksToAddresses(networks).value.v4
        <==> exists k :: k in networks && networks[k].ipAddress == FormatIpv4(a)
  {
    var addrs := NetworksToAddresses(networks).value.v4;
    if a in addrs {
      assert EndpointsWith(networks, a) != {};
      var k :| k in EndpointsWith(networks, a);
      ParseIffFormat(networks[k].ipAddress, a);
    }
    if exists k :: k in networks && networks[k].ipAddress == FormatIpv4(a) {
      var k :| k in networks && networks[k].ipAddress == FormatIpv4(a);
      ParseIffFormat(networks[k].ipAddress, a);
      assert k in EndpointsWith(networks, a);
    }
  }

  // ---------------------------------------------------------------------------------------
  // Host records

  /** `container_into_host`: hostname as the name, the display name as the only alias. */
  ghost function ContainerIntoHost(c: Container): (r: ResponseResult<Host>)
    ensures r.Ok? <==> HasIpv4(c.networkSettings.networks)
    ensures r.Err? ==> r.error == ResponseError.NotFound
    ensures r.Ok? ==> r.value.name == c.config.hostname && r.value.aliases == [c.name]
    ensures r.Ok? ==> r.value.addresses.V4? && |r.value.addresses.v4| > 0
    ensures r.Ok? ==> forall a :: r.value.addresses.v4[a] == |EndpointsWith(c.networkSettings.networks, a)|
  {
    match NetworksToAddresses(c.networkSettings.networks)
    case Err(e) => Err(e)
    case Ok(addrs) => Ok(Host(c.config.hostname, [c.name], addrs))
  }

  /** `query_container(c).and_then(container_into_host)`. */
  ghost function Resolve(conn: ResponseResult<Docker>, c: SmallContainer): (r: ResponseResult<Host>)
    ensures r.Ok? <==> QueryContainer(conn, c).Ok? && HasIpv4(QueryContainer(conn, c).value.networkSettings.networks)
  {
    match QueryContainer(conn, c)
    case Err(e) => Err(e)
    case Ok(d) => ContainerIntoHost(d)
  }

  // ---------------------------------------------------------------------------------------
  // Listing every host

  /** `filter_map(|r| r.ok())`: the values of the successful results, in order. */
  function OkValues<T>(rs: seq<ResponseResult<T>>): (vs: seq<T>)
    ensures |vs| <= |rs|
    ensures forall v :: v in vs ==> Ok(v) in rs
  {
    if rs == [] then []
    else (if rs[0].Ok? then [rs[0].value] else []) + OkValues(rs[1..])
  }

  /** Each position in `idx` holds a successful result whose value is the matching one of `vs`. */
  ghost predicate Picks<T>(rs: seq<ResponseResult<T>>, vs: seq<T>, idx: seq<nat>) {
    && |idx| == |vs|
    && forall j :: 0 <= j < |idx| ==> idx[j] < |rs| && rs[idx[j]] == Ok(vs[j])
  }

  ghost predicate Increasing(idx: seq<nat>) {
    forall j, j' :: 0 <= j < j' < |idx| ==> idx[j] < idx[j']
  }

  /** Every successful result's position is in `idx`. */
  ghost predicate Covers<T>(rs: seq<ResponseResult<T>>, idx: seq<nat>) {
    forall i :: 0 <= i < |rs| && rs[i].Ok? ==> i in idx
  }

  /**
   * `vs` is the order-preserving selection, through the strictly increasing positions `idx`,
   * of exactly the successful results of `rs`.
   */
  ghost predicate SelectsOk<T>(rs: seq<ResponseResult<T>>, vs: seq<T>, idx: seq<nat>) {
    Picks(rs, vs, idx) && Increasing(idx) && Covers(rs, idx)
  }

  /** Every position moved one place to the right. */
  function Shift(s: seq<nat>): (r: seq<nat>)
    ensures |r| == |s| && forall j :: 0 <= j < |s| ==> r[j] == s[j] + 1
  {
    if s == [] then [] else [s[0] + 1] + Shift(s[1..])
  }

  /** The positions moved one place to the right pick the same values out of `[r0] + tail`. */
  lemma ShiftPicks<T>(r0: ResponseResult<T>, tail: seq<ResponseResult<T>>, vs: seq<T>, rest: seq<nat>)
    requires Picks(tail, vs, rest)
    ensures Picks([r0] + tail, vs, Shift(rest))
  {
    var rs := [r0] + tail;
    var idx := Shift(rest);
    forall j | 0 <= j < |idx| ensures idx[j] < |rs| && rs[idx[j]] == Ok(vs[j]) {
      assert rs[idx[j]] == tail[rest[j]];
    }
  }

  /** Every successful result of `tail` is selected at its position moved one to the right. */
  lemma ShiftComplete<T>(r0: ResponseResult<T>, tail: seq<ResponseResult<T>>, rest: seq<nat>)
    requires Covers(tail, rest)
    ensures forall i :: 1 <= i < |[r0] + tail| && ([r0] + tail)[i].Ok? ==> i in Shift(rest)
  {
    var rs := [r0] + tail;
    var shifted := Shift(rest);
    forall i | 1 <= i < |rs| && rs[i].Ok? ensures i in shifted {
      assert tail[i - 1] == rs[i];
      var j :| 0 <= j < |rest| && rest[j] == i - 1;
      assert shifted[j] == i;
    }
  }

  /** A failed result in front: nothing more is selected, the positions move right. */
  lemma ConsErrSelects<T>(r0: ResponseResult<T>, tail: seq<ResponseResult<T>>, vs: seq<T>, rest: seq<nat>)
    requires r0.Err? && SelectsOk(tail, vs, rest)
    ensures SelectsOk([r0] + tail, vs, Shift(rest))
  {
    var rs := [r0] + tail;
    var idx := Shift(rest);
    ShiftPicks(r0, tail, vs, rest);
    assert Increasing(idx);
    ShiftComplete(r0, tail, rest);
    forall i | 0 <= i < |rs| && rs[i].Ok? ensures i in idx {
      assert i != 0;
    }
  }

  /** A successful result in front is picked at position 0, before the rest. */
  lemma ConsOkPicks<T>(r0: ResponseResult<T>, tail: seq<ResponseResult<T>>, vs: seq<T>, rest: seq<nat>)
    requires r0.Ok? && Picks(tail, vs, rest)
    ensures Picks([r0] + tail, [r0.value] + vs, [0] + Shift(rest))
  {
    var rs := [r0] + tail;
    var vs' := [r0.value] + vs;
    var shifted := Shift(rest);
    var idx := [0] + shifted;
    ShiftPicks(r0, tail, vs, rest);
    forall j | 0 <= j < |idx| ensures idx[j] < |rs| && rs[idx[j]] == Ok(vs'[j]) {
      if j > 0 {
        assert idx[j] == shifted[j - 1] && vs'[j] == vs[j - 1];
      }
    }
  }

  /** A successful result in front is selected first, at position 0. */
  lemma ConsOkSelects<T>(r0: ResponseResult<T>, tail: seq<ResponseResult<T>>, vs: seq<T>, rest: seq<nat>)
    requires r0.Ok? && SelectsOk(tail, vs, rest)
    ensures SelectsOk([r0] + tail, [r0.value] + vs, [0] + Shift(rest))
  {
    var rs := [r0] + tail;
    var shifted := Shift(rest);
    var idx := [0] + shifted;
    ConsOkPicks(r0, tail, vs, rest);
    forall j, j' | 0 <= j < j' < |idx| ensures idx[j] < idx[j'] {
      assert idx[j'] == shifted[j' - 1];
      if j > 0 {
        assert idx[j] == shifted[j - 1];
      }
    }
    ShiftComplete(r0, tail, rest);
    forall i | 0 <= i < |rs| && rs[i].Ok? ensures i in idx {
      if i > 0 {
        assert i in shifted;
      }
    }
  }

  lemma {:induction false} OkValuesSelects<T>(rs: seq<ResponseResult<T>>) returns (idx: seq<nat>)
    ensures SelectsOk(rs, OkValues(rs), idx)
  {
    if rs == [] {
      idx := [];
    } else {
      var rest := OkValuesSelects(rs[1..]);
      assert rs == [rs[0]] + rs[1..];
      if rs[0].Ok? {
        ConsOkSelects(rs[0], rs[1..], OkValues(rs[1..]), rest);
        idx := [0] + Shift(rest);
      } else {
        ConsErrSelects(rs[0], rs[1..], OkValues(rs[1..]), rest);
        idx := Shift(rest);
      }
    }
  }

  /** What resolving each listed container gives, position by position. */
  ghost function Resolutions(conn: ResponseResult<Docker>, cs: seq<SmallContainer>): seq<ResponseResult<Host>> {
    seq(|cs|, i requires 0 <= i < |cs| => Resolve(conn, cs[i]))
  }

  /** The `filter_map(..).collect()` of `get_all_entries`: the records of the containers that resolve. */
  ghost function CollectHosts(conn: ResponseResult<Docker>, cs: seq<SmallContainer>): (hosts: seq<Host>)
    ensures |hosts| <= |cs|
    ensures forall h :: h in hosts ==> h.addresses.V4? && |h.addresses.v4| > 0
  {
    OkValues(Resolutions(conn, cs))
  }

  /** `get_all_entries`: every container that resolves; only a failed listing fails the call. */
  ghost function GetAllEntries(conn: ResponseResult<Docker>): (r: Response<seq<Host>>)
    ensures GetContainers(conn).Err? ==> r == FromError(GetContainers(conn).error)
    ensures GetContainers(conn).Ok? ==> r.Success? && |r.value| <= |GetContainers(conn).value|
    ensures r.Success? ==> forall h :: h in r.value ==> h.addresses.V4? && |h.addresses.v4| > 0
  {
    IntoResponse(
      match GetContainers(conn)
      case Ok(cs) => Ok(CollectHosts(conn, cs))
      case Err(e) => Err(e))
  }

  /** The listed hosts are exactly the resolving containers, in list order. */
  lemma GetAllEntriesExact(conn: ResponseResult<Docker>) returns (idx: seq<nat>)
    requires GetContainers(conn).Ok?
    ensures GetAllEntries(conn).Success?
    ensures SelectsOk(Resolutions(conn, GetContainers(conn).value), GetAllEntries(conn).value, idx)
  {
    idx := OkValuesSelects(Resolutions(conn, GetContainers(conn).value));
  }

  // ---------------------------------------------------------------------------------------
  // Finding by name

  /** Exact comparison with the hostname or the raw display name; nothing is stripped. */
  predicate Matches(d: Container, name: string) {
    d.config.hostname == name || d.name == name
  }

  /** The detail of `c` can be fetched and matches `name`. */
  predicate NameHit(conn: ResponseResult<Docker>, c: SmallContainer, name: string) {
    QueryContainer(conn, c).Ok? && Matches(QueryContainer(conn, c).value, name)
  }

  /** `filter_map(|c| query_container(&c).ok()).find(..)`: details in list order, failures skipped. */
  function FindByName(conn: ResponseResult<Docker>, cs: seq<SmallContainer>, name: string): (r: Option<Container>)
    ensures r.None? <==> forall i :: 0 <= i < |cs| ==> !NameHit(conn, cs[i], name)
    ensures r.Some? ==> Matches(r.value, name)
  {
    if cs == [] then None
    else
      var q := QueryContainer(conn, cs[0]);
      if q.Ok? && Matches(q.value, name) then Some(q.value)
      else
        assert forall i :: 1 <= i < |cs| ==> cs[1..][i - 1] == cs[i];
        FindByName(conn, cs[1..], name)
  }

  /** The container found is the first hit in list order. */
  lemma {:induction false} FindByNameFirst(conn: ResponseResult<Docker>, cs: seq<SmallContainer>, name: string, i: nat)
    requires i < |cs| && NameHit(conn, cs[i], name)
    requires forall j :: 0 <= j < i ==> !NameHit(conn, cs[j], name)
    ensures FindByName(conn, cs, name) == Some(QueryContainer(conn, cs[i]).value)
  {
    if i > 0 {
      assert !NameHit(conn, cs[0], name);
      assert forall j :: 0 <= j < i - 1 ==> cs[1..][j] == cs[j + 1];
      FindByNameFirst(conn, cs[1..], name, i - 1);
    }
  }

  /** `get_host_by_name`. */
  ghost function GetHostByName(conn: ResponseResult<Docker>, name: string, family: AddressFamily): (r: Response<Host>)
    ensures family == IPv6 ==> r == Response.NotFound
    ensures family != IPv6 && GetContainers(conn).Err? ==> r == FromError(GetContainers(conn).error)
    ensures family != IPv6 && GetContainers(conn).Ok? ==> !r.Unavail?
    ensures r.Success? ==> r.value.name == name || r.value.aliases == [name]
    ensures r.Success? ==> r.value.addresses.V4? && |r.value.addresses.v4| > 0
  {
    match family
    case IPv4 | Unspecified =>
      (match GetContainers(conn)
       case Ok(cs) =>
         (match FindByName(conn, cs, name)
          case None => Response.NotFound
          case Some(c) => IntoResponse(ContainerIntoHost(c)))
       case Err(e) => FromError(e))
    case IPv6 => Response.NotFound
  }

  /** The answer is decided by the first hit alone, even when it has no address. */
  lemma GetHostByNameFirstHit(conn: ResponseResult<Docker>, name: string, family: AddressFamily, i: nat)
    requires family != IPv6 && GetContainers(conn).Ok?
    requires i < |GetContainers(conn).value| && NameHit(conn, GetContainers(conn).value[i], name)
    requires forall j :: 0 <= j < i ==> !NameHit(conn, GetContainers(conn).value[j], name)
    ensures GetHostByName(conn, name, family)
         == IntoResponse(ContainerIntoHost(QueryContainer(conn, GetContainers(conn).value[i]).value))
  {
    FindByNameFirst(conn, GetContainers(conn).value, name, i);
  }

  lemma GetHostByNameNoHit(conn: ResponseResult<Docker>, name: string, family: AddressFamily)
    requires GetContainers(conn).Ok?
    requires forall i :: 0 <= i < |GetContainers(conn).value| ==> !NameHit(conn, GetContainers(conn).value[i], name)
    ensures GetHostByName(conn, name, family) == Response.NotFound
  {
  }

  // ---------------------------------------------------------------------------------------
  // Finding by address

  /** The summary-level test: the address is among those the listed endpoints carry. */
  ghost predicate SummaryHas(c: SmallContainer, a: Ipv4Addr)
    ensures SummaryHas(c, a) ==> HasIpv4(c.networkSettings.networks)
  {
    var r := NetworksToAddresses(c.networkSettings.networks);
    r.Ok? && r.value.V4? && a in r.value.v4
  }

  /** The summary test holds exactly when some listed endpoint's address text is that of `a`. */
  lemma SummaryHasIff(c: SmallContainer, a: Ipv4Addr)
    ensures SummaryHas(c, a)
        <==> exists k :: k in c.networkSettings.networks && c.networkSettings.networks[k].ipAddress == FormatIpv4(a)
  {
    var networks := c.networkSettings.networks;
    if NetworksToAddresses(networks).Ok? {
      AddressMembership(networks, a);
    } else if exists k :: k in networks && networks[k].ipAddress == FormatIpv4(a) {
      var k :| k in networks && networks[k].ipAddress == FormatIpv4(a);
      ParseFormat(a);
      assert false;
    }
  }

  /** `Iterator::find`: the first element, in order, that satisfies `p`. */
  function Find<T>(xs: seq<T>, p: T -> bool): (r: Option<T>)
    ensures r.None? <==> forall i :: 0 <= i < |xs| ==> !p(xs[i])
    ensures r.Some? ==> r.value in xs && p(r.value)
  {
    if xs == [] then None
    else if p(xs[0]) then Some(xs[0])
    else
      assert forall i :: 1 <= i < |xs| ==> xs[1..][i - 1] == xs[i];
      Find(xs[1..], p)
  }

  /** The element found is the first one that satisfies `p`. */
  lemma {:induction false} FindFirst<T>(xs: seq<T>, p: T -> bool, i: nat)
    requires i < |xs| && p(xs[i])
    requires forall j :: 0 <= j < i ==> !p(xs[j])
    ensures Find(xs, p) == Some(xs[i])
  {
    if i > 0 {
      var tail := xs[1..];
      assert tail[i - 1] == xs[i];
      forall j | 0 <= j < i - 1 ensures !p(tail[j]) {
        assert tail[j] == xs[j + 1];
      }
      FindFirst(tail, p, i - 1);
    }
  }

  /** `cs.into_iter().find(..)` over summaries: the search reads the listing only, never a detail. */
  ghost function FindByAddr(cs: seq<SmallContainer>, a: Ipv4Addr): (r: Option<SmallContainer>)
    ensures r.None? <==> forall i :: 0 <= i < |cs| ==> !SummaryHas(cs[i], a)
    ensures r.Some? ==> r.value in cs && SummaryHas(r.value, a)
  {
    Find(cs, c => SummaryHas(c, a))
  }

  /** The summary found is the first one in list order that carries the address. */
  lemma FindByAddrFirst(cs: seq<SmallContainer>, a: Ipv4Addr, i: nat)
    requires i < |cs| && SummaryHas(cs[i], a)
    requires forall j :: 0 <= j < i ==> !SummaryHas(cs[j], a)
    ensures FindByAddr(cs, a) == Some(cs[i])
  {
    FindFirst(cs, c => SummaryHas(c, a), i);
  }

  /** `get_host_by_addr`. */
  ghost function GetHostByAddr(conn: ResponseResult<Docker>, addr: IpAddr): (r: Response<Host>)
    ensures addr.V6? ==> r == Response.NotFound
    ensures addr.V4? && GetContainers(conn).Err? ==> r == FromError(GetContainers(conn).error)
    ensures r.Success? ==> r.value.addresses.V4? && |r.value.addresses.v4| > 0
  {
    match addr
    case V4(a) =>
      (match GetContainers(conn)
       case Ok(cs) =>
         (match FindByAddr(cs, a)
          case None => Response.NotFound
          case Some(c) =>
            (match QueryContainer(conn, c)
             case Ok(d) => IntoResponse(ContainerIntoHost(d))
             case Err(e) => FromError(e)))
       case Err(e) => FromError(e))
    case V6(_) => Response.NotFound
  }

  /**
   * The answer is decided by the detail of the first summary carrying the address alone; a
   * failed fetch is reported as its own error, and the record is built from the detail, not
   * the summary.
   */
  lemma GetHostByAddrFirstSummary(conn: ResponseResult<Docker>, a: Ipv4Addr, i: nat)
    requires GetContainers(conn).Ok?
    requires i < |GetContainers(conn).value| && SummaryHas(GetContainers(conn).value[i], a)
    requires forall j :: 0 <= j < i ==> !SummaryHas(GetContainers(conn).value[j], a)
    ensures QueryContainer(conn, GetContainers(conn).value[i]).Err? ==>
      GetHostByAddr(conn, IpAddr.V4(a)) == FromError(QueryContainer(conn, GetContainers(conn).value[i]).error)
    ensures QueryContainer(conn, GetContainers(conn).value[i]).Ok? ==>
      GetHostByAddr(conn, IpAddr.V4(a)) == IntoResponse(ContainerIntoHost(QueryContainer(conn, GetContainers(conn).value[i]).value))
  {
    FindByAddrFirst(GetContainers(conn).value, a, i);
  }

  lemma GetHostByAddrNoSummary(conn: ResponseResult<Docker>, a: Ipv4Addr)
    requires GetContainers(conn).Ok?
    requires forall i :: 0 <= i < |GetContainers(conn).value| ==> !SummaryHas(GetContainers(conn).value[i], a)
    ensures GetHostByAddr(conn, IpAddr.V4(a)) == Response.NotFound
  {
  }

  /**
   * When the detail of the first summary carrying `a` is fetched and shows the same endpoints
   * as the summary, the record found holds `a`.
   */
  lemma GetHostByAddrFindsAddress(conn: ResponseResult<Docker>, a: Ipv4Addr, i: nat)
    requires GetContainers(conn).Ok?
    requires i < |GetContainers(conn).value| && SummaryHas(GetContainers(conn).value[i], a)
    requires forall j :: 0 <= j < i ==> !SummaryHas(GetContainers(conn).value[j], a)
    requires QueryContainer(conn, GetContainers(conn).value[i]).Ok?
    requires QueryContainer(conn, GetContainers(conn).value[i]).value.networkSettings
          == GetContainers(conn).value[i].networkSettings
    ensures GetHostByAddr(conn, IpAddr.V4(a)).Success?
    ensures a in GetHostByAddr(conn, IpAddr.V4(a)).value.addresses.v4
  {
    GetHostByAddrFirstSummary(conn, a, i);
  }
}
