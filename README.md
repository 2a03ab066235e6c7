# Peering Manager: BGP session reconciliation, modelled in Dafny

Peering Manager keeps an inventory of an operator's autonomous systems (AS), Internet
exchanges (IXP), routers and BGP peering sessions. This project models the decision logic of
`peering/models/models.py`:

- the normalisers that turn a router's NAPALM answers into lists of neighbours;
- the state polls. A BGP group or an exchange asks its routers for neighbour details and
  refreshes the state, prefix counters and last-established stamp of the sessions they
  report. A single session can also poll itself;
- session discovery:
  - `import_sessions` creates sessions from what a router reports;
  - `create_from_peeringdb` proposes sessions for a PeeringDB member record;
  - `get_available_peers` and `get_missing_peering_sessions` list PeeringDB member records
    that still lack a session;
- the small rules around these:
  - `is_abandoned` and `link_to_peeringdb`;
  - AS creation and synchronisation from PeeringDB;
  - the IRR prefix selection and the contact list;
  - the router pre-flight checks, the configuration-push guards and the NAPALM argument
    merge.

How the model represents the system:

- Each Django model is a `datatype` holding the fields the logic reads (`records.dfy`).
- A table is a `seq` of rows in query order, or a `map` where the key is unique (ASN).
- An operation that saves rows returns the new rows or the new table.
- A Python exception that escapes is `Err` of a `Result`. Inside `transaction.atomic`, an
  `Err` comes with the tables as they were before.
- Django's `get` is `Queries.Get`. It returns one row, `NotFound` (`DoesNotExist`) or
  `Multiple` (`MultipleObjectsReturned`).
- Outside inputs are parameters:
  - the device answers: `fetch: RouterId -> NeighborsDetail` and `neighbors`;
  - address parsing and printing: `parse` and `format`;
  - the current time: `now`;
  - the IRR resolver: `retrieve`;
  - the PeeringDB shared-exchange query: `shared`;
  - the installed NAPALM drivers: `installed`.
- Loops in the source are `method`s with loop invariants. Each one is proved equal to a
  recursive specification function, and the properties are lemmas about those functions.
- The NAPALM settings are a `class` because the source changes them in place.

Each operation is modelled as the code is written. Where the code looks wrong, a corrected
definition is given next to it, with its property proved (see "## Findings").

## Model

| member | source | states |
|---|---|---|
| Queries.Where | peering/models/models.py:363-365 | `filter` yields exactly the positions of the matching rows, in increasing order |
| Queries.Get | peering/models/models.py:396-398 | `get` finds the one matching row, or reports none (no row matches) or several (two rows match) |
| Queries.GetStable | peering/models/models.py:411-422 | a lookup gives the same answer after rows change in fields the lookup does not read |
| Queries.GetAppend | peering/models/models.py:828-832 | creating a row changes a later `get` only when the row matches: none becomes that row, one becomes several |
| SessionUpdates.ClampCount | peering/models/models.py:413-418 | `count if count > 0 else 0` keeps every non-negative count and turns every negative one into 0 |
| SessionUpdates.OrZero | peering/models/models.py:754-755 | `count or 0` on an integer is the count itself, negative counts included |
| SessionUpdates.Refresh | peering/models/models.py:401-421 | the stored state is the lower-cased `connection_state`; each counter is the reported one when non-negative and 0 otherwise; stamped with `now` exactly when the new state is "established", otherwise the old stamp stays |
| SessionUpdates.IxpRefresh | peering/models/models.py:745-758 | the exchange poll's update: the lower-cased `connection_state` and the same stamp rule as `Refresh`, counters stored as reported |
| SessionUpdates.RefreshIdempotent | peering/models/models.py:411-421 | polling twice with the same record at the same time gives the same state as once |
| SessionUpdates.RefreshForgetsOldState | peering/models/models.py:412-421 | the new state depends on the old one only through the last-established stamp |
| SessionUpdates.RefreshRestampsEstablished | peering/models/models.py:420-421 | a session already established and seen established again gets a new stamp |
| SessionUpdates.IxpRefreshKeepsNegativeCount | peering/models/models.py:754-755 | a reported count of -1 is assigned as -1 by the exchange poll and as 0 by the other polls |
| NeighborDetails.DetailsAsList | peering/models/models.py:1581-1595 | the flattened list is every detail record, VRF after VRF and ASN after ASN; `[]` for an empty answer |
| NeighborDetails.ExtendWithAsns | peering/models/models.py:1592-1593 | the inner loop appends the records of one VRF, ASN after ASN, to the list built so far |
| NeighborDetails.FlattenLength | peering/models/models.py:1591-1593 | the flat list is as long as all inner lists together, and empty without data |
| NeighborDetails.FlattenVrfsLength | peering/models/models.py:1591-1593 | the same count over the VRFs |
| NeighborDetails.FlattenAsnsLength | peering/models/models.py:1592-1593 | the same count over the ASNs of one VRF |
| NeighborDetails.FlattenMembership | peering/models/models.py:1591-1593 | a record is in the flat list exactly when some VRF lists it under some ASN |
| NeighborDetails.FlattenVrfsMembership | peering/models/models.py:1591-1593 | the same, over the VRFs |
| NeighborDetails.FlattenAsnsMembership | peering/models/models.py:1592-1593 | the same, over the ASNs of one VRF |
| NeighborDetails.FindIn | peering/models/models.py:1489-1498 | a found record is in the input and its address is the one sought; `None` exactly when every address parses to another one; an unparsable address raises |
| NeighborDetails.FindNeighborDetail | peering/models/models.py:1477-1498 | `None` for anything but a dictionary; otherwise the first record naming the address, `None` exactly when every address parses to another one, and a raise when a malformed address comes first |
| NeighborDetails.FindCases | peering/models/models.py:1489-1496 | for every position: the first record naming the address is returned, and a malformed address met first raises |
| NeighborDetails.FindReturnsFirst | peering/models/models.py:1489-1496 | the first record with the sought address is returned when every earlier address parses |
| NeighborDetails.FindRaisesOnMalformed | peering/models/models.py:1492-1494 | an unparsable address before any match makes the search raise |
| Neighbors.PeerList | peering/models/models.py:1346-1394 | the peer list is the fold of the admission rule over all peers; `[]` for empty input; no longer than the number of peers; every entry comes from a peer with `remote_as` whose key parses to the entry's address |
| Neighbors.AdmitPeers | peering/models/models.py:1361-1381 | the inner loop over one VRF's peers applies the admission rule to each peer in dictionary order |
| Neighbors.NormalizeBounded | peering/models/models.py:1361-1381 | entries are only appended, at most one per peer |
| Neighbors.NormalizeSound | peering/models/models.py:1362-1381 | every entry comes from a peer that reports `remote_as` and whose key parses to the entry's address |
| Neighbors.NormalizeDistinctWhenCanonical | peering/models/models.py:1369 | when `str` prints every address as it was keyed, no address is listed twice |
| Neighbors.PeerListAgreesWhenCanonical | peering/models/models.py:1369 | when `str` prints every address as it was keyed, the string check and the address check keep the same list |
| Neighbors.PeerListKeepsSpellingDuplicates | peering/models/models.py:1369 | two spellings of 2001:db8::1 both pass the string check, so the list holds the address twice |
| Neighbors.NormalizeByAddressDistinct | peering/models/models.py:1369-1381 | the check on parsed addresses never lists an address twice, keeps earlier entries, takes every entry from a peer, and adds at most one per peer |
| Neighbors.NormalizeByAddressComplete | peering/models/models.py:1361-1381 | every address some usable peer yields is listed |
| Neighbors.NormalizeByAddressFirstWins | peering/models/models.py:1369-1381 | the first usable peer with an address gives that address's entry |
| BgpGroups.GroupSessions | peering/models/models.py:363-365 | the group's sessions are exactly the rows whose group is this one |
| BgpGroups.RoutersOf | peering/models/models.py:372-374 | the routers asked fail with `AttributeError` exactly when some group session has no router |
| BgpGroups.ApplyRecord | peering/models/models.py:390-426 | one reported record raises (the address field rejects the string) exactly when its address does not parse, and `MultipleObjectsReturned` exactly when two rows match; otherwise it refreshes the one row of the group, router and address, and leaves every other row unchanged |
| BgpGroups.QueryRouters | peering/models/models.py:370-381 | each router of the group is asked once, in order of first use; the cache holds each router's flattened answer |
| BgpGroups.ApplyRouterRecords | peering/models/models.py:389-426 | one router's records are applied in order, and the first error stops them |
| BgpGroups.ApplyCached | peering/models/models.py:388-426 | the cached routers' records are applied router after router |
| BgpGroups.PollPeeringSessions | peering/models/models.py:355-432 | the poll answers and writes what `GroupPoll` defines; no router is asked twice; only routers of group sessions are asked; when every group session has a router, every one of those routers is asked |
| BgpGroups.GroupPollDeclines | peering/models/models.py:356-368 | with the check disabled or no session in the group, the poll answers false and writes nothing |
| BgpGroups.ApplyRecordsPerSession | peering/models/models.py:389-426 | after one router's records, each group session on that router holds its own fold of them, and every other row is unchanged |
| BgpGroups.ApplyRoutersPerSession | peering/models/models.py:388-426 | after all routers, each group session holds the fold of its own router's records |
| BgpGroups.RoutersOfSound | peering/models/models.py:372-381 | the routers asked are distinct, and they are exactly the routers of the group's sessions |
| BgpGroups.GroupPollPerSession | peering/models/models.py:387-432 | after a successful poll, each group session holds the fold of its router's records, every other row is untouched, and the group is stamped |
| BgpGroups.StateFoldUnnamed | peering/models/models.py:423-426 | a session that no record names keeps its state |
| BgpGroups.StateFoldLastRecord | peering/models/models.py:411-422 | a named session ends with the last matching record's state and counters, and is stamped exactly when one of its records is established |
| BgpGroups.DuplicateTargetsFail | peering/models/models.py:396-398 | two group sessions on one router with the same address make the poll raise once the router reports that address |
| SessionPolls.Probe | peering/models/models.py:527-530 | the first record naming the address gives the refreshed state; a malformed address met first raises; there is none exactly when the router has no data or names other addresses only |
| SessionPolls.PollDirect | peering/models/models.py:511-543 | no router, no platform or a group without checks answers false and changes nothing; otherwise the session is refreshed from the first record naming its address, raises when a malformed address comes first, and answers false unchanged exactly when no record names it |
| SessionPolls.PollIxp | peering/models/models.py:902-932 | a session without a connection raises; no usable router answers false; otherwise the session is refreshed from the first record naming its address, raises when a malformed address comes first, and answers false unchanged exactly when no record names it |
| SessionPolls.PollDirectAgreesWithGroupPoll | peering/models/models.py:526-541 | when the router names the address once, the single-session poll stores what the group poll stores |
| SessionPolls.PollDirectIdempotent | peering/models/models.py:511-543 | polling the saved session again with the same answer at the same time gives the same answer and changes nothing |
| SessionPolls.PollIxpIdempotent | peering/models/models.py:902-932 | the same for an exchange session |
| ExchangePolls.ConnectedRouters | peering/models/models.py:653-656 | the routers asked are exactly those attached to the exchange by a connection |
| ExchangePolls.ApplyIxRecord | peering/models/models.py:734-763 | a record raises (the address field rejects the string) exactly when its address does not parse, and `MultipleObjectsReturned` exactly when two sessions, of any exchange, have that address; otherwise it refreshes the one session with the address |
| ExchangePolls.ApplyIxRecordsAppend | peering/models/models.py:733-763 | applying two runs of records in turn is applying their concatenation |
| ExchangePolls.PollAsns | peering/models/models.py:731-763 | one VRF's records are applied ASN after ASN |
| ExchangePolls.PollVrfs | peering/models/models.py:730-767 | one router's VRFs are applied in turn, and the exchange is stamped after each VRF |
| ExchangePolls.PollPeeringSessions | peering/models/models.py:703-769 | the poll answers and writes what `ExchangePoll` defines |
| ExchangePolls.IxStateFoldAppend | peering/models/models.py:733-759 | the per-session fold over two runs is the fold over their concatenation |
| ExchangePolls.ApplyIxRecordsPerSession | peering/models/models.py:741-759 | every exchange session, on any exchange, holds its own fold of the records |
| ExchangePolls.RunVrfsPerSession | peering/models/models.py:730-767 | after one router's VRFs every session holds its fold of them, and the exchange is stamped unless there were none |
| ExchangePolls.RunRoutersPerSession | peering/models/models.py:722-769 | after the routers, each session holds the fold of the records before the first router without data; the answer is true exactly when every router gave data |
| ExchangePolls.ExchangePollPerSession | peering/models/models.py:703-769 | a poll that raised nothing leaves every session with the fold of the processed records, and answers true exactly when every connected router gave data |
| ExchangePolls.IxStateFoldUnnamed | peering/models/models.py:760-763 | a session that no processed record names is left as it was |
| ExchangePolls.EmptyRouterKeepsEarlierUpdates | peering/models/models.py:726-728 | a router without data ends the poll with false and keeps what the routers before it wrote |
| ExchangePolls.NoConnectedRouterReportsSuccess | peering/models/models.py:710-720 | because `count() < 0` never holds, an exchange with no connected router answers true and changes nothing |
| AutonomousSystems.PeeringDbNetwork | peering/models/models.py:69-74 | the network found has the AS's number; `None` only when no network has it |
| AutonomousSystems.Resolve | peering/models/models.py:86-103 | `None`, and nothing created, exactly without a PeeringDB network; otherwise the existing row, or a new row from the network; every other row stays |
| AutonomousSystems.ResolveIdempotent | peering/models/models.py:93-101 | `get_or_create` a second time returns the same row and adds nothing |
| AutonomousSystems.Synchronized | peering/models/models.py:212-219 | each field whose sync flag is set takes PeeringDB's value; every other field keeps its value |
| AutonomousSystems.SynchronizeWithPeeringDb | peering/models/models.py:204-225 | false and no change without a network; otherwise true and the synchronised row |
| AutonomousSystems.SynchronizedIdempotent | peering/models/models.py:212-219 | synchronising twice against one network changes nothing more |
| AutonomousSystems.GetIrrAsSetPrefixes | peering/models/models.py:267-286 | the stored prefixes when set, else the resolver's; 6 and 4 select a family, any other value both |
| AutonomousSystems.PeeringDbContacts | peering/models/models.py:76-80 | the contacts of the AS's network, none without a network |
| AutonomousSystems.ContactsOf | peering/models/models.py:79 | the contacts whose network is the AS's |
| AutonomousSystems.Emails | peering/models/models.py:309 | the addresses of the listed entries, in order |
| AutonomousSystems.CollectedExtends | peering/models/models.py:308-317 | the list only grows, and earlier entries stay in place |
| AutonomousSystems.CollectedWellListed | peering/models/models.py:306-317 | no address is listed twice and none is empty |
| AutonomousSystems.CollectedComplete | peering/models/models.py:308-317 | every contact with an address has that address listed |
| AutonomousSystems.CollectedSourced | peering/models/models.py:308-317 | each added entry is the first contact with that address, with its label |
| AutonomousSystems.ContactList | peering/models/models.py:288-319 | the user's contact comes first when set; the rest come from PeeringDB contacts; no duplicates; no address missing |
| AutonomousSystems.GetContactEmailAddresses | peering/models/models.py:288-319 | the list the loops build has the user's contact first, no duplicate or empty address, every later entry from a first contact, and every contact's address |
| AutonomousSystems.AppendContacts | peering/models/models.py:308-317 | the loop over the PeeringDB contacts adds each one with an address not listed yet |
| AutonomousSystems.FilterMissing | peering/models/models.py:191-202 | exactly the records that pass the filter as written |
| AutonomousSystems.GetMissingPeeringSessions | peering/models/models.py:170-202 | nothing when the AS is compared with itself; otherwise this AS's records on the given exchange, or on a shared one, with an address not yet in a session |
| AutonomousSystems.PeeredRecordNotMissing | peering/models/models.py:187-193 | a record with both addresses in sessions on the exchange is not reported |
| ExchangePeers.FamilyIps | peering/models/models.py:684-695 | the addresses of one version among the exchange's sessions |
| ExchangePeers.PartitionSessionIps | peering/models/models.py:685-695 | the loop splits the exchange's session addresses into the IPv6 and the IPv4 list |
| ExchangePeers.FilterAvailable | peering/models/models.py:697-700 | exactly the records that pass the filter, each with its multiplicity |
| ExchangePeers.InsertByAsn | peering/models/models.py:701 | insertion keeps the list sorted by ASN and adds exactly one element |
| ExchangePeers.SortByAsn | peering/models/models.py:701 | `order_by("asn")` is sorted and a permutation |
| ExchangePeers.SortedSelection | peering/models/models.py:697-701 | the sorted selection holds each available record as often as the member list does, and no other |
| ExchangePeers.GetAvailablePeers | peering/models/models.py:676-701 | nothing when not linked; `AttributeError` without a local AS; otherwise, sorted by ASN, exactly the member records of the exchange's LAN, other than the local AS, with an address not used by a session |
| ExchangePeers.PeeredIpv4OnlyMemberListed | peering/models/models.py:700 | a member without IPv6 whose IPv4 address is peered is still listed |
| ExchangePeers.AvailableCorrectedSound | peering/models/models.py:700 | the corrected filter lists exactly the members with an address still unpeered; it implies the written one; the two agree when both addresses are present |
| ExchangePeers.LinkToPeeringDb | peering/models/models.py:613-636 | the LAN is found exactly when some connection is linked and all linked ones agree; it is saved on the exchange; nothing is saved otherwise |
| IxpSessions.PairsOfMembers | peering/models/models.py:873-876 | a connection's pairs are its address of each version the record has |
| IxpSessions.PairsMembers | peering/models/models.py:872-876 | a pair is visited exactly when its connection is on the exchange and its address is the record's |
| IxpSessions.Proposed | peering/models/models.py:872-890 | at most one session per pair; the only error is `MultipleObjectsReturned` |
| IxpSessions.ProposedMembers | peering/models/models.py:886-890 | the proposed sessions are exactly those of the pairs with no stored session |
| IxpSessions.ProposedErr | peering/models/models.py:886-890 | the proposal raises exactly when some pair has two stored sessions |
| IxpSessions.ProposedRaises | peering/models/models.py:886-888 | once a pair raises, any list containing it raises the same way |
| IxpSessions.RaisesForConnection | peering/models/models.py:873-888 | a raising pair makes the whole connection raise |
| IxpSessions.RaisesOnExchange | peering/models/models.py:872-888 | a raising connection makes the whole exchange raise |
| IxpSessions.ProposedAppend | peering/models/models.py:886-890 | one more pair adds its session when none is stored, raises on two, and otherwise changes nothing |
| IxpSessions.TouchedStep | peering/models/models.py:878-881 | resolving the AS again returns the same AS and leaves the table as one resolution does |
| IxpSessions.ProposePair | peering/models/models.py:878-890 | one address: the AS is resolved again and the session is proposed when none is stored |
| IxpSessions.ProposeForConnection | peering/models/models.py:873-890 | the inner loop over [6, 4] proposes the connection's pairs |
| IxpSessions.ProposeVersion | peering/models/models.py:873-890 | one version: nothing for an absent address, else that pair is proposed; a raise raises for the whole connection |
| IxpSessions.ProposeOnExchange | peering/models/models.py:872-890 | the outer loop proposes every pair of the exchange's connections; the AS table is resolved once when there is a pair |
| IxpSessions.CreateFromPeeringDb | peering/models/models.py:860-892 | nothing for no record; an exchange lookup with none or several raises; otherwise the proposal over that exchange's connections |
| IxpSessions.ProposedSessions | peering/models/models.py:860-892 | each proposed session has the record's AS, is new and not a route server, is on a connection of the exchange at one of the record's addresses, and is not stored; every unstored pair is proposed |
| IxpSessions.NoneStoredNotFound | peering/models/models.py:886-888 | the `get` finds nothing for a pair with no stored session of the same AS, connection and address |
| IxpSessions.ExistsInPeeringDb | peering/models/models.py:934-947 | false exactly when no member record lists the address in its version's column; raises when two do |
| IxpSessions.IsAbandoned | peering/models/models.py:949-969 | true exactly when the exchange is linked, checks states, the AS has a PeeringDB network, the address is not in PeeringDB and the state is idle or active; raises on a missing key or on two records |
| IxpSessions.EstablishedNotAbandoned | peering/models/models.py:961-968 | an established or never-polled session is never abandoned |
| ExchangeImports.AllowedPrefixes | peering/models/models.py:638-645 | no prefix when the exchange is not linked; otherwise exactly its LAN's prefixes |
| ExchangeImports.LanPrefixes | peering/models/models.py:645 | exactly the prefixes of the given LAN |
| ExchangeImports.IsValid | peering/models/models.py:782-787 | true exactly when a prefix of the address's version contains it |
| ExchangeImports.Run | peering/models/models.py:789-836 | the loop keeps the AS table keyed, and its only error is `MultipleObjectsReturned` |
| ExchangeImports.ImportSessions | peering/models/models.py:771-838 | `AttributeError` without a router; otherwise the counts and tables of the run over the router's neighbours; any error returns the tables unchanged |
| ExchangeImports.ImportNeighbor | peering/models/models.py:790-835 | one neighbour: skipped when invalid or stored, raises on two stored sessions, otherwise created or its AS ignored |
| ExchangeImports.RunCounts | peering/models/models.py:817-835 | sessions are only appended; the session count and the AS count each equal the number of sessions created |
| ExchangeImports.RunSound | peering/models/models.py:789-835 | every created session is on the connection, at an address inside an allowed prefix of its version, for an AS known to PeeringDB and now in the table, and new; existing ASes stay |
| ExchangeImports.RunIgnored | peering/models/models.py:820-825 | the ignored list has no duplicate and holds only ASNs without a PeeringDB network |
| ExchangeImports.SettledAppend | peering/models/models.py:801-803 | creating a session at a free address keeps every settled neighbour settled |
| ExchangeImports.StepSettles | peering/models/models.py:789-835 | a step settles its own neighbour and keeps the others settled |
| ExchangeImports.RunSettles | peering/models/models.py:789-835 | after a run every neighbour is settled: invalid, stored, or of an AS PeeringDB does not know |
| ExchangeImports.RunOnSettled | peering/models/models.py:800-808 | on settled neighbours a run creates nothing and changes no table |
| ExchangeImports.ImportTwiceCreatesNothing | peering/models/models.py:771-838 | importing again from the same neighbours creates no session and no AS |
| Routers.PreflightFailure | peering/models/models.py:1043-1068 | the checks in order: "not enabled" for a disabled router, then "no assigned platform", then "no NAPALM driver" for an empty driver; no failure exactly when none applies |
| Routers.IsUsableForTask | peering/models/models.py:1035-1068 | usable exactly when not disabled and the platform has a driver; a given job result is marked errored with the failing check's message appended, and is untouched otherwise |
| Routers.PreflightOrder | peering/models/models.py:1043-1068 | a disabled router is reported as not enabled whatever its platform; then a missing platform; then a platform with an empty driver; a router in maintenance is usable when it has a driver |
| Routers.ConfigGuard | peering/models/models.py:1288-1297 | the push goes on exactly when the router is not disabled and the config is a string that `strip()` does not empty; a disabled router gets its own error first |
| Routers.BlankConfigRefused | peering/models/models.py:1294-1297 | any configuration `strip()` empties, separators U+001C to U+001F included, is refused like a missing one; a configuration with text goes on |
| Routers.OrElse | peering/models/models.py:1188-1189 | `a or b`: the router's value when set and non-empty, else the setting |
| Routers.TimeoutOr | peering/models/models.py:1190 | a zero timeout falls back to the setting |
| Routers.ArgsPrecedence | peering/models/models.py:1179-1184 | the router's argument wins over the platform's, the platform's over the global one, and no other key appears |
| Routers.Params | peering/models/models.py:1186-1191 | the driver gets the hostname, the credentials with their fallbacks, and the merged arguments |
| Routers.Settings.NapalmDeviceAsWritten | peering/models/models.py:1165-1199 | no device without a driver or an installed one; otherwise the parameters, and the global arguments become the merged ones |
| Routers.Settings.NapalmDevice | peering/models/models.py:1165-1199 | the same parameters from a copy of the global arguments; the settings are not written |
| Routers.SecondRouterInheritsPort | peering/models/models.py:1179-1184 | after a router with its own `port`, a router without arguments gets that port |

## Left out

- Device access is not modelled. This covers NAPALM and NetBox calls, opening and closing
  devices, `get_bgp_neighbors` and `get_bgp_neighbors_detail`, and the body of
  `set_napalm_configuration` after its guards. The device answers are function parameters.
- Logging, `timezone.now()` (a `now` parameter), e-mail and template rendering are not
  modelled.
- `retrieve_irr_as_set_prefixes` and the PeeringDB helper `get_shared_internet_exchanges`
  are not part of this model. They are parameters (`retrieve`, `shared`).
- Rows are values. An in-place update of a model instance becomes a new row in a returned
  table, so aliasing between two Python objects for one row is not captured.
- Query order is table order. Where `order_by("asn")` leaves ties, they stay in table order.
- AutonomousSystems.SynchronizeWithPeeringDb: does not model `except Exception: return False`
  around `save()`, because database failures are outside the model.
- AutonomousSystems.GetIrrAsSetPrefixes: a stored empty dictionary is falsy, so it is
  modelled as "no stored prefixes".
- IxpSessions.CreateFromPeeringDb: the `affiliated` argument is not modelled, because the
  source never reads it.
- ExchangeImports.ImportSessions: `ignored` is the local list of skipped ASNs, returned only
  so its properties can be stated.
- ExchangeImports.ImportSessions: the neighbours arrive already parsed, as the router's
  normaliser produces them, so a parse failure at line 791 is not modelled.
- IxpSessions.ExistsInPeeringDb: compares addresses as values rather than as
  `str(ip_address)` strings.
- BgpGroups.PollPeeringSessions: the `if not bgp_neighbors_detail` check at line 383 never
  fires once there is a session, because every router gets an entry. This falls out of
  the model rather than being a separate branch.
- ExchangePolls.PollPeeringSessions: the `count() < 0` guard at line 710 never holds. The
  model keeps that behaviour, see `NoConnectedRouterReportsSuccess`.
- Routers.IsUsableForTask: a job result is reduced to its errored flag and message list.
  `mark_errored`'s other effects and the logger are not modelled.
- Routers.Settings.NapalmDeviceAsWritten: a failing driver lookup is modelled as the driver
  name missing from an `installed` set.
- Text is compared as sequences of characters. `strip()` removes exactly the characters `str.isspace` accepts.
- Refresh, IxpRefresh: `lower()` is modelled on ASCII letters only (`Net.Lower`); the BGP
  states NAPALM reports are ASCII words.
- Integers (ASNs, counters, timeouts) are unbounded.
- BgpGroups.ApplyRecord, ExchangePolls.ApplyIxRecord: the reported address goes straight
  into the ORM lookup on the session's address field, and the model treats every string
  that field cannot read as an error. An empty address, which the field maps to NULL so
  that the lookup finds nothing, is treated as malformed too.
- ExchangePolls.PollPeeringSessions, SessionUpdates.IxpRefresh: the model assumes the
  session counter columns accept negative values, so `save()` keeps a -1 and the poll
  succeeds. The session model's column types are not part of this model. A column that
  rejects negatives would make the atomic poll raise and roll back instead.
- SessionPolls.PollDirect: the "group does not check states" path formats the session's
  `name` for the log only. The model assumes that attribute exists, since the abstract
  session class is not part of this model, and answers false without a write.

## Findings

| source | as written | input that shows it | evidently intended | confidence | as-written member | corrected member |
|---|---|---|---|---|---|---|
| peering/models/models.py:1369 | duplicates are detected by comparing the raw key with `str()` of the addresses already kept | one VRF with keys `2001:db8::1` and `2001:DB8::1`, both with `remote_as` | one entry per address | medium, not executed | Neighbors.PeerListKeepsSpellingDuplicates | Neighbors.NormalizeByAddressDistinct |
| peering/models/models.py:754-755 | the exchange poll assigns `received or 0`, so -1 reaches `save()` | a detail record with `received_prefix_count` -1 | counters clamped at zero, as the group poll and both single-session polls do (lines 414-418, 536-537, 925-926) | medium, not executed | SessionUpdates.IxpRefreshKeepsNegativeCount | SessionUpdates.Refresh |
| peering/models/models.py:1179-1184 | `args = settings.NAPALM_ARGS` aliases the global dictionary, and `update` writes the platform's and the router's arguments into it | a router with `{"port": "2222"}`, then a router on a platform without arguments | each device gets the global arguments merged with its own platform's and router's only | high, not executed | Routers.SecondRouterInheritsPort | Routers.Settings.NapalmDevice |
| peering/models/models.py:700 | `~Q(ipaddr6__in=...)` also holds when `ipaddr6` is NULL | a member with no IPv6 address whose IPv4 address already has a session | list only members with an address of their own that has no session | medium, not executed | ExchangePeers.PeeredIpv4OnlyMemberListed | ExchangePeers.AvailableCorrectedSound |
