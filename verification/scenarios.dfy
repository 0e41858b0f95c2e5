/**
 * Whole-plugin consequences of the lookup rules: how a failed connection or listing
 * surfaces, what an empty directory gives, and small directories that show the first-match
 * rule, the unnormalised display name and the two-tier address search.
 */
module Scenarios {
  import opened Net
  import opened Nss
  import opened Responses
  import opened DockerApi
  import opened Lookup

  /** A failed connection is reported, as the same error, by every IPv4 query. */
  lemma ConnectionFailure(e: ResponseError, name: string, family: AddressFamily, a: Ipv4Addr)
    requires family != IPv6
    ensures GetAllEntries(Err(e)) == FromError(e)
    ensures GetHostByName(Err(e), name, family) == FromError(e)
    ensures GetHostByAddr(Err(e), IpAddr.V4(a)) == FromError(e)
  {
  }

  /** An unavailable directory makes all three queries unavailable, never "not found". */
  lemma ListingUnavailable(conn: ResponseResult<Docker>, name: string, family: AddressFamily, a: Ipv4Addr)
    requires GetContainers(conn) == Err(ResponseError.Unavail) && family != IPv6
    ensures GetAllEntries(conn) == Response.Unavail
    ensures GetHostByName(conn, name, family) == Response.Unavail
    ensures GetHostByAddr(conn, IpAddr.V4(a)) == Response.Unavail
  {
  }

  /** An empty directory lists no host and finds nothing; it is not an error. */
  lemma EmptyDirectory(conn: ResponseResult<Docker>, name: string, family: AddressFamily, addr: IpAddr)
    requires GetContainers(conn) == Ok([])
    ensures GetAllEntries(conn) == Success([])
    ensures GetHostByName(conn, name, family) == Response.NotFound
    ensures GetHostByAddr(conn, addr) == Response.NotFound
  {
  }

  /** A container whose endpoints all lack a parseable address yields no host record. */
  lemma NoAddressNoRecord(conn: ResponseResult<Docker>, i: nat, idx: seq<nat>)
    requires GetContainers(conn).Ok? && i < |GetContainers(conn).value|
    requires QueryContainer(conn, GetContainers(conn).value[i]).Ok?
    requires !HasIpv4(QueryContainer(conn, GetContainers(conn).value[i]).value.networkSettings.networks)
    requires SelectsOk(Resolutions(conn, GetContainers(conn).value), GetAllEntries(conn).value, idx)
    ensures i !in idx
  {
  }

  // ---------------------------------------------------------------------------------------
  // Small directories

  function Endpoint(a: Ipv4Addr): NetworkSettings {
    NetworkSettings(map["bridge" := Network(FormatIpv4(a))])
  }

  const Unassigned := NetworkSettings(map["bridge" := Network("")])

  lemma EndpointHasAddress(id: string, a: Ipv4Addr)
    ensures HasIpv4(Endpoint(a).networks)
    ensures SummaryHas(SmallContainer(id, Endpoint(a)), a)
  {
    ParseFormat(a);
    SummaryHasIff(SmallContainer(id, Endpoint(a)), a);
    assert Endpoint(a).networks["bridge"].ipAddress == FormatIpv4(a);
  }

  /** The single endpoint carries `a` and no other address. */
  lemma EndpointCarriesOnly(a: Ipv4Addr, b: Ipv4Addr)
    ensures EndpointsWith(Endpoint(a).networks, b) == if a == b then {"bridge"} else {}
  {
    ParseFormat(a);
    assert Endpoint(a).networks.Keys == {"bridge"};
  }

  /** A container with one endpoint carrying `a` becomes a host with exactly that address. */
  lemma SingleEndpointHost(hostname: string, name: string, a: Ipv4Addr)
    ensures ContainerIntoHost(Container(Config(hostname), name, Endpoint(a)))
         == Ok(Host(hostname, [name], Addresses.V4(multiset{a})))
  {
    var c := Container(Config(hostname), name, Endpoint(a));
    EndpointHasAddress("", a);
    var r := ContainerIntoHost(c);
    assert r.Ok?;
    var addrs := r.value.addresses.v4;
    forall b ensures addrs[b] == multiset{a}[b] {
      EndpointCarriesOnly(a, b);
    }
    assert addrs == multiset{a};
    assert r.value == Host(hostname, [name], Addresses.V4(addrs));
  }

  lemma UnassignedHasNoAddress()
    ensures !HasIpv4(Unassigned.networks)
  {
    EmptyDoesNotParse();
    assert Unassigned.networks.Keys == {"bridge"};
  }

  /**
   * Two containers both with hostname "web"; only the second has an address. The name lookup
   * stops at the first and reports "not found"; without the first, the second is found.
   */
  lemma FirstNameMatchDecides(a: Ipv4Addr)
    ensures var first := Container(Config("web"), "/first", Unassigned);
            var second := Container(Config("web"), "/second", Endpoint(a));
            var both := Docker(Ok([SmallContainer("1", Unassigned), SmallContainer("2", Endpoint(a))]),
                               id => if id == "1" then Ok(first) else Ok(second));
            var secondOnly := Docker(Ok([SmallContainer("2", Endpoint(a))]), id => Ok(second));
            && GetHostByName(Ok(both), "web", IPv4) == Response.NotFound
            && GetHostByName(Ok(secondOnly), "web", IPv4) == Success(Host("web", ["/second"], Addresses.V4(multiset{a})))
  {
    var first := Container(Config("web"), "/first", Unassigned);
    var second := Container(Config("web"), "/second", Endpoint(a));
    var both := Docker(Ok([SmallContainer("1", Unassigned), SmallContainer("2", Endpoint(a))]),
                       id => if id == "1" then Ok(first) else Ok(second));
    var secondOnly := Docker(Ok([SmallContainer("2", Endpoint(a))]), id => Ok(second));
    UnassignedHasNoAddress();
    GetHostByNameFirstHit(Ok(both), "web", IPv4, 0);
    GetHostByNameFirstHit(Ok(secondOnly), "web", IPv4, 0);
    SingleEndpointHost("web", "/second", a);
  }

  /**
   * The display name is compared as the daemon reports it, leading '/' included: a container
   * with hostname "web" and display name "/web-1" is found by "web" and "/web-1", not by "web-1".
   */
  lemma DisplayNameNotStripped(a: Ipv4Addr)
    ensures var c := Container(Config("web"), "/web-1", Endpoint(a));
            var conn := Ok(Docker(Ok([SmallContainer("1", Endpoint(a))]), id => Ok(c)));
            && GetHostByName(conn, "web", Unspecified) == Success(Host("web", ["/web-1"], Addresses.V4(multiset{a})))
            && GetHostByName(conn, "/web-1", IPv4) == Success(Host("web", ["/web-1"], Addresses.V4(multiset{a})))
            && GetHostByName(conn, "web-1", IPv4) == Response.NotFound
  {
    var c := Container(Config("web"), "/web-1", Endpoint(a));
    var conn := Ok(Docker(Ok([SmallContainer("1", Endpoint(a))]), id => Ok(c)));
    GetHostByNameFirstHit(conn, "web", Unspecified, 0);
    GetHostByNameFirstHit(conn, "/web-1", IPv4, 0);
    SingleEndpointHost("web", "/web-1", a);
    assert "web" != "web-1" && "/web-1" != "web-1";
    GetHostByNameNoHit(conn, "web-1", IPv4);
  }

  /**
   * A container whose detail cannot be fetched is skipped when listing and when searching
   * by name, but when it is the one the address search picked, the fetch error is the answer.
   */
  lemma DetailFailureAsymmetry(a: Ipv4Addr)
    ensures var conn := Ok(Docker(Ok([SmallContainer("1", Endpoint(a))]), id => Err(ResponseError.Unavail)));
            && GetAllEntries(conn) == Success([])
            && GetHostByName(conn, "web", IPv4) == Response.NotFound
            && GetHostByAddr(conn, IpAddr.V4(a)) == Response.Unavail
  {
    var cs := [SmallContainer("1", Endpoint(a))];
    var conn := Ok(Docker(Ok(cs), id => Err(ResponseError.Unavail)));
    assert Resolutions(conn, cs) == [Err(ResponseError.Unavail)];
    assert OkValues(Resolutions(conn, cs)) == [];
    GetHostByNameNoHit(conn, "web", IPv4);
    EndpointHasAddress("1", a);
    GetHostByAddrFirstSummary(conn, a, 0);
  }

  /**
   * The address search matches on the listing but answers from the detail: when the two
   * disagree, the record returned need not contain the address that was asked for.
   */
  lemma AnswerComesFromDetail(a: Ipv4Addr, b: Ipv4Addr)
    requires a != b
    ensures var c := Container(Config("web"), "/web", Endpoint(b));
            var conn := Ok(Docker(Ok([SmallContainer("1", Endpoint(a))]), id => Ok(c)));
            && GetHostByAddr(conn, IpAddr.V4(a)) == Success(Host("web", ["/web"], Addresses.V4(multiset{b})))
  {
    var c := Container(Config("web"), "/web", Endpoint(b));
    var conn := Ok(Docker(Ok([SmallContainer("1", Endpoint(a))]), id => Ok(c)));
    EndpointHasAddress("1", a);
    GetHostByAddrFirstSummary(conn, a, 0);
    SingleEndpointHost("web", "/web", b);
  }
}
