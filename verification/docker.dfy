/**
 * The records the Docker daemon returns, with the daemon itself as a value.
 *
 * The HTTP client, the unix socket and the JSON decoding are outside the model: a connected
 * `Docker` is the answer the daemon would give to the two requests the plugin makes during
 * one query, the list of running containers and the detail of one container by id.
 */
module DockerApi {
  import opened Responses

  /** The result of `GET /containers/{id}/json`. `name` is the raw display name. */
  datatype Container = Container(config: Config, name: string, networkSettings: NetworkSettings)

  /** One element of the result of `GET /containers/json?all=false`. */
  datatype SmallContainer = SmallContainer(id: string, networkSettings: NetworkSettings)

  datatype Config = Config(hostname: string)

  /** The endpoints of a container, by network name. */
  datatype NetworkSettings = NetworkSettings(networks: map<string, Network>)

  /** One endpoint; `ipAddress` is empty when no address is assigned. */
  datatype Network = Network(ipAddress: string)

  /**
   * A connected client: what listing the running containers returns, and what the detail
   * request returns for each id. Transport and decoding failures are already mapped to
   * `ResponseError`.
   */
  datatype Docker = Docker(
    containers: ResponseResult<seq<SmallContainer>>,
    container: string -> ResponseResult<Container>)
}
