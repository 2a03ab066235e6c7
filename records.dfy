/**
 * The rows the core reads and writes. Each Django model becomes a datatype holding the
 * fields the core uses; each table becomes a `seq` of rows (in query order) or, where the
 * key is unique, a `map`.
 */
module Records {
  import opened Wrappers
  import opened Net

  type Asn = nat
  type RouterId = nat
  type GroupId = nat
  type ConnectionId = nat
  type ExchangeId = nat
  type IxLanId = nat
  /** A timestamp; the caller passes the current time in. */
  type Time = int

  const ESTABLISHED: string := "established"
  const IDLE: string := "idle"
  const ACTIVE: string := "active"

  // ---- PeeringDB cache -------------------------------------------------------------

  datatype Network = Network(
    asn: Asn, name: string, irrAsSet: Option<string>, infoPrefixes6: nat, infoPrefixes4: nat)

  datatype NetworkContact = NetworkContact(net: Asn, name: string, email: string)

  /** A member record of an exchange LAN: `ipaddr4`/`ipaddr6` are nullable. */
  datatype NetworkIxLan = NetworkIxLan(asn: Asn, ixlan: IxLanId, ipaddr4: Option<Ip>, ipaddr6: Option<Ip>)

  datatype IxLanPrefix = IxLanPrefix(ixlan: IxLanId, prefix: Prefix)

  /** The local copy of PeeringDB: networks are unique by ASN. */
  datatype PeeringDb = PeeringDb(
    networks: map<Asn, Network>,
    contacts: seq<NetworkContact>,
    netixlans: seq<NetworkIxLan>,
    prefixes: seq<IxLanPrefix>)

  // ---- Local records ---------------------------------------------------------------

  /** The cached IRR prefix lists, keyed "ipv6" and "ipv4". */
  datatype IrrPrefixes = IrrPrefixes(ipv6: seq<string>, ipv4: seq<string>)

  datatype AutonomousSystem = AutonomousSystem(
    asn: Asn,
    name: string, nameSync: bool,
    contactName: string, contactEmail: string,
    irrAsSet: Option<string>, irrAsSetSync: bool,
    ipv6MaxPrefixes: nat, ipv6MaxPrefixesSync: bool,
    ipv4MaxPrefixes: nat, ipv4MaxPrefixesSync: bool,
    prefixes: Option<IrrPrefixes>,
    affiliated: bool)

  datatype DeviceState = Unset | Enabled | Disabled | Maintenance

  datatype Platform = Platform(napalmDriver: string, napalmArgs: map<string, string>)

  datatype Router = Router(
    id: RouterId, name: string, hostname: string,
    platform: Option<Platform>, deviceState: DeviceState,
    napalmUsername: Option<string>, napalmPassword: Option<string>,
    napalmTimeout: nat, napalmArgs: Option<map<string, string>>)

  datatype BgpGroup = BgpGroup(id: GroupId, name: string, checkStates: bool, statesUpdate: Option<Time>)

  datatype InternetExchange = InternetExchange(
    id: ExchangeId, name: string, ixlan: Option<IxLanId>, localAsn: Option<Asn>,
    checkStates: bool, statesUpdate: Option<Time>)

  /**
   * A router's attachment to an exchange; `netixlan` is the ixlan of the linked PeeringDB
   * member record, `None` when the connection is not linked.
   */
  datatype Connection = Connection(
    id: ConnectionId, exchange: ExchangeId, router: Option<RouterId>, netixlan: Option<IxLanId>)

  /** The fields every BGP session has and a poll rewrites. */
  datatype SessionState = SessionState(
    bgpState: Option<string>, received: int, advertised: int, lastEstablished: Option<Time>)

  /** The state of a session that was never polled. */
  const NEW_STATE := SessionState(None, 0, 0, None)

  datatype DirectSession = DirectSession(
    asn: Asn, ip: Ip, group: Option<GroupId>, router: Option<RouterId>, state: SessionState)

  /** `ixp_connection` is nullable, and so is the peer AS of a session built from PeeringDB. */
  datatype IxpSession = IxpSession(
    asn: Option<Asn>, connection: Option<ConnectionId>, ip: Ip, isRouteServer: bool, state: SessionState)

  /** `InternetExchange.get_connections`: the ids of the exchange's connections. */
  function ConnectionIds(connections: seq<Connection>, ix: ExchangeId): set<ConnectionId> {
    set c | c in connections && c.exchange == ix :: c.id
  }
}
