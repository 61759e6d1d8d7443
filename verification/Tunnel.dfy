/** Rows of the tunnel tables, as far as the generators read them. */
module Tunnel {
  import opened Text

  datatype Flavour = Awg | Wg

  /** AmneziaWG obfuscation parameters; a native WireGuard server prints none of them. */
  datatype Obfuscation = Obfuscation(jc: int64, jmin: int64, jmax: int64,
                                     s1: int64, s2: int64, s3: int64, s4: int64,
                                     h1: string, h2: string, h3: string, h4: string, i1: string)

  datatype Server = Server(
    flavour: Flavour,
    interfaceName: string,
    listenPort: int64,
    mtu: int64,
    privateKey: string,
    ipv4Address: string,
    ipv4Pool: string,
    ipv6Enabled: bool,
    ipv6Address: string,
    obfuscation: Obfuscation,
    externalInterface: string,
    ipv6ExternalInterface: string,
    postUp: string,
    postDown: string,
    routeViaXray: bool,
    xrayTproxyPort: int64)

  datatype Client = Client(
    id: int,
    uuid: string,
    name: string,
    enable: bool,
    publicKey: string,
    presharedKey: string,
    ipv4Address: string,
    ipv6Address: string,
    allowedIPs: string,
    forwardedPorts: string)
}
