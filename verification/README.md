# nss-docker lookup core in Dafny

`nss-docker` is a name-service-switch plugin. It lets ordinary host lookups resolve the
containers running under the local Docker daemon. This project models the plugin's three
lookup hooks and proves properties of them:

- list every container as a host record;
- find a container by hostname or display name;
- find a container by IPv4 address.

It also models how the hooks build host records from container detail, how they turn
endpoint address strings into IPv4 addresses, and how they map internal errors onto the
three outcomes `Success`, `NotFound` and `Unavail`.

The daemon is an input. A connected daemon is a `Docker` value. It holds the result of
listing the running containers (summaries: id and endpoints). It also holds a function
from container id to the result of fetching that container's detail (hostname, display
name, endpoints). The lazily created, process-wide connection is the parameter `conn`.
It is either that value or the error that connecting gave. Every IPv4 lookup then reports
that error. IPv6 name queries (`src/lib.rs:83`) and IPv6 address queries (`src/lib.rs:101`)
answer `NotFound` without consulting the connection.

Files:

- `wrappers.dfy`: `Option`.
- `net.dfy`: IPv4 addresses, their canonical text, and the standard library's dotted-quad
  parser.
- `nss.dfy`: the libnss result and host-record shapes.
- `responses.dfy`: the plugin's error kinds and their translation into a response.
- `docker.dfy`: the daemon's records.
- `lookup.dfy`: the hooks.
- `scenarios.dfy`: whole-plugin consequences and small example directories.

Endpoints are kept as a finite map from network name to endpoint. The source collects
endpoint addresses while iterating a `HashMap`, in an order that is not specified. The
model picks the next key arbitrarily. It records the collected addresses as a multiset,
and every property is stated for all orders: `EndpointAddressesCount` shows that each
address occurs exactly once per endpoint whose text parses to it. Because of that
arbitrary choice, the functions that depend on it are ghost.

Some behaviours of the code differ from what one might expect of such a plugin. The model
follows the code:

- One might expect a leading `/` to be stripped from the display name before it is used as
  an alias or compared. The code does not strip it: it compares and returns the raw name
  (`src/lib.rs:79`, `src/lib.rs:113`). So a display name `/web-1` is found by `/web-1`
  and not by `web-1` (`Scenarios.DisplayNameNotStripped`).
- One might expect a failed detail fetch in the address lookup to give `NotFound`. The
  code returns the fetch's own error (`src/lib.rs:96`), which may be `Unavail`
  (`Scenarios.DetailFailureAsymmetry`).
- One might expect the address lookup always to return a record containing the address
  asked for. The code matches on the summary but builds the record from the detail. The
  property holds when the two agree (`Lookup.GetHostByAddrFindsAddress`), and fails when
  they do not (`Scenarios.AnswerComesFromDetail`).
- `Container` in `src/docker.rs:13-16` declares no display name, yet `src/lib.rs:79` and
  `src/lib.rs:113` read `c.name`. The model gives `Container` a `name` field.

## Model

| member | source | states |
|---|---|---|
| `Responses.FromError` | src/lib.rs:139-146 | each error kind becomes the response of the same name; an error never becomes `Success` |
| `Responses.IntoResponse` | src/lib.rs:153-161 | `Ok(x)` becomes `Success(x)`; an error becomes exactly what `FromError` gives; no other outcome is produced |
| `Net.ParseIpv4` | src/lib.rs:123 | a string that parses is exactly the canonical text of the address it yields, so no two strings parse to the same address |
| `Net.ParseIffFormat` | src/lib.rs:123 | a string parses as IPv4 address `a` exactly when it is the canonical dotted-quad text of `a` (four decimal fields 0-255, no leading zeros) |
| `Net.EmptyDoesNotParse` | src/lib.rs:123 | an endpoint with no assigned address (empty text) contributes no address |
| `Net.LeadingZeroDoesNotParse` | src/lib.rs:123 | a field with a leading zero is refused |
| `Net.OverflowDoesNotParse` | src/lib.rs:123 | a field above 255 is refused |
| `Net.ThreeFieldsDoNotParse` | src/lib.rs:123 | fewer than four fields are refused |
| `Lookup.EndpointAddresses` | src/lib.rs:123 | every collected address is the parse of some endpoint's address text |
| `Lookup.EndpointAddressesCount` | src/lib.rs:123 | whatever the map's iteration order, each address is collected once per endpoint whose text parses to it, and the total is the number of parseable endpoints |
| `Lookup.GetContainers` | src/lib.rs:106-108 | a connection failure is returned unchanged as the listing's error; a listing is only obtained from a connected daemon |
| `Lookup.QueryContainer` | src/lib.rs:118-120 | a connection failure is returned unchanged; otherwise the daemon's answer for the summary's id, and only the id decides it |
| `Lookup.NetworksToAddresses` | src/lib.rs:122-129 | `Err(NotFound)` exactly when no endpoint's address parses; otherwise `V4` holding, for every address, as many copies as endpoints that parse to it |
| `Lookup.AddressMembership` | src/lib.rs:122-129 | an address is among the collected ones exactly when some endpoint's address text is that address's canonical text |
| `Lookup.ContainerIntoHost` | src/lib.rs:110-116 | succeeds exactly when some endpoint parses; the host's name is the config hostname, its aliases are exactly `[c.name]`, its addresses are non-empty and are the endpoints' parsed addresses; otherwise `NotFound` |
| `Lookup.Resolve` | src/lib.rs:70 | a container yields a host exactly when its detail fetch succeeds and the detail has a parseable address |
| `Lookup.OkValues` | src/lib.rs:70 | keeping the successful results never makes the list longer, and every kept value came from a successful result |
| `Lookup.OkValuesSelects` | src/lib.rs:70 | the kept values are, in order, exactly the values of the successful results, picked at strictly increasing positions |
| `Lookup.CollectHosts` | src/lib.rs:70 | no more hosts than listed containers, each with a non-empty address set |
| `Lookup.GetAllEntries` | src/lib.rs:68-72 | a listing failure is returned as that error; otherwise the call succeeds (per-container failures never fail it) with at most one host per listed container, each with addresses |
| `Lookup.GetAllEntriesExact` | src/lib.rs:68-72 | after a successful listing, the hosts are exactly the records of the containers that resolve, in list order |
| `Lookup.Matches` | src/lib.rs:79 | no contract; definition only: exact equality with the config hostname or with the raw display name |
| `Lookup.FindByName` | src/lib.rs:77-79 | nothing is found exactly when no listed container both has a fetchable detail and matches by exact hostname or raw display name; what is found matches |
| `Lookup.FindByNameFirst` | src/lib.rs:77-79 | the container found is the first one in list order whose detail fetch succeeds and matches; failed fetches are skipped |
| `Lookup.GetHostByName` | src/lib.rs:74-85 | IPv6 gives `NotFound` whatever the directory holds; a listing failure gives that error; after a successful listing the answer is never `Unavail`; a host returned carries the queried name as its name or its alias, and has addresses |
| `Lookup.GetHostByNameFirstHit` | src/lib.rs:76-80 | the answer is the host record of the first match alone; if that match has no address the answer is `NotFound` even when later matches have addresses |
| `Lookup.GetHostByNameNoHit` | src/lib.rs:80 | with no matching container the answer is `NotFound` |
| `Lookup.SummaryHas` | src/lib.rs:90-92 | only a summary with at least one parseable endpoint can carry an address |
| `Lookup.SummaryHasIff` | src/lib.rs:90-92 | the summary-level filter holds exactly when some listed endpoint's address text is the queried address's canonical text |
| `Lookup.Find` | src/lib.rs:90-93 | `Iterator::find`: nothing is found exactly when no element passes the test; an element found is in the list and passes it |
| `Lookup.FindFirst` | src/lib.rs:90-93 | the element found is the first one in order that passes the test |
| `Lookup.FindByAddr` | src/lib.rs:90-93 | nothing is found exactly when no summary carries the address; a summary found is listed and carries it |
| `Lookup.FindByAddrFirst` | src/lib.rs:90-93 | the summary found is the first in list order that carries the address |
| `Lookup.GetHostByAddr` | src/lib.rs:87-103 | a V6 address gives `NotFound` whatever the directory holds; a listing failure gives that error; a host returned has addresses |
| `Lookup.GetHostByAddrFirstSummary` | src/lib.rs:93-98 | the answer is decided by the first matching summary's detail alone: its fetch error is the answer, or else the host built from the detail record |
| `Lookup.GetHostByAddrNoSummary` | src/lib.rs:93 | with no summary carrying the address the answer is `NotFound` |
| `Lookup.GetHostByAddrFindsAddress` | src/lib.rs:89-98 | when the first matching summary's detail is fetched and shows the same endpoints, the answer succeeds and contains the queried address |
| `Scenarios.ConnectionFailure` | src/lib.rs:50-54 | a failed connection is returned, as the same error, by all three IPv4 queries |
| `Scenarios.ListingUnavailable` | src/lib.rs:68-103 | an unavailable listing makes all three IPv4 queries `Unavail`, never `NotFound` |
| `Scenarios.EmptyDirectory` | src/lib.rs:68-103 | an empty listing gives an empty host list and `NotFound` for both searches |
| `Scenarios.NoAddressNoRecord` | src/lib.rs:70 | a container whose endpoints have no parseable address is absent from the host list |
| `Scenarios.FirstNameMatchDecides` | src/lib.rs:77-80 | two containers named "web", only the second with an address: the name lookup answers `NotFound`; without the first, it finds the second |
| `Scenarios.DisplayNameNotStripped` | src/lib.rs:79 | hostname "web" and display name "/web-1": found by "web" and "/web-1", not by "web-1" |
| `Scenarios.DetailFailureAsymmetry` | src/lib.rs:68-103 | a container whose detail fetch fails is skipped when listing and by the name search, but its error is the answer of the address search that picked it |
| `Scenarios.AnswerComesFromDetail` | src/lib.rs:90-95 | summary endpoint `a` and detail endpoint `b`: the address search for `a` returns a record holding only `b` |

## Left out

- The HTTP client, the unix socket `/var/run/docker.sock`, the request headers and the JSON
  field mapping in `Docker::connect`, `get_containers` and `get_container`
  (`src/docker.rs:44-62`). These are I/O and foreign-library calls. The daemon's answers
  are the input value `Docker`.
- Which error kind a transport failure becomes. The source has no conversion for it:
  `src/lib.rs:50` stores `Docker::connect`'s `Result<_, isahc::Error>` where a
  `ResponseResult<Docker>` is declared, and `src/lib.rs:106-108` and `src/lib.rs:118-120`
  return the `std::io::Result` of the client where a `ResponseResult` is declared, so the
  code as shown does not type-check at those lines. The model lets a failed connection,
  listing or detail fetch carry either kind, `Unavail` or `NotFound`. That choice is the
  model's, not the program's, and `Scenarios.ListingUnavailable` relies on it.
- The `Lazy` static and its thread safety (`src/lib.rs:50-54`). This is concurrency and
  global state. Its outcome is the parameter `conn`.
- The `libnss_host_hooks!` registration and the ABI glue (`src/lib.rs:47-48`). libnss
  status codes other than `Success`, `NotFound` and `Unavail` are never produced by the
  code and are not modelled.
- The order of a host's addresses. It follows `HashMap` iteration order, which is
  unspecified, so addresses are a multiset.
- The contents of IPv6 addresses. The code never inspects them.
- The number and order of requests sent to the daemon. The daemon is a value, so the model
  states which answers decide a query (the first match of the lazy `find` at
  `src/lib.rs:78-79`, the single detail fetch at `src/lib.rs:94`), not which requests
  are made.
- Changes to the daemon between the listing and the detail requests of one query. During
  one query the daemon is a fixed value. The detail of a container is still independent
  of its summary.
- Idempotence of repeated queries. The model's queries are functions, so equal inputs give
  equal answers.
- Whether fields with leading zeros are refused by the IPv4 parser depends on the Rust
  release. The model follows current releases, which refuse them.
