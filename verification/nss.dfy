/**
 * The shapes of the `libnss` host-lookup types the plugin returns to the name-service switch:
 * the three outcomes a hook can report, the requested address family, and the host record.
 */
module Nss {
  import opened Net

  /** The outcomes `src/lib.rs` produces; libnss's other status codes are never returned by it. */
  datatype Response<T> = Success(value: T) | NotFound | Unavail

  /** The family a caller of `gethostbyname2` asks for. */
  datatype AddressFamily = IPv4 | IPv6 | Unspecified

  /**
   * The addresses of a host. The source collects them into a `Vec` in `HashMap` iteration
   * order, which is unspecified, so the model keeps only how often each address occurs.
   */
  datatype Addresses = V4(v4: multiset<Ipv4Addr>) | V6(v6: multiset<Ipv6Addr>)

  /** A host record: canonical name, aliases, addresses. */
  datatype Host = Host(name: string, aliases: seq<string>, addresses: Addresses)
}
