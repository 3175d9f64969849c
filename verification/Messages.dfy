/**
  The message a monitor broadcasts when it sees a link to another node change
  state. The record keeps every field the Java class carries except the UUID,
  which is an MD5 digest of the destination computed by library code.
 */
module Messages {

  /** A cluster member's address (Guava's HostAndPort); only its equality is used. */
  datatype Endpoint = Endpoint(host: string, port: int)

  datatype LinkStatus = Up | Down

  /** "src, monitoring dst on ring ringNumber, saw the link to dst become status". */
  datatype LinkUpdateMessage = LinkUpdateMessage(
    src: Endpoint,
    dst: Endpoint,
    status: LinkStatus,
    configurationId: int,
    ringNumber: int)
}
