# DHCP relay and VLAN configuration commands, modelled in Dafny

This project models the part of the SONiC command-line utilities that
manages DHCP relay addresses on VLANs:

- `config dhcp_relay ipv4 helper add|del` and
  `config dhcp_relay ipv6 destination add|del`. These edit a VLAN's list of
  relay addresses. IPv4 helpers sit in the `dhcp_servers` field of the
  `VLAN|Vlan<vid>` row. IPv6 destinations sit in the `dhcpv6_servers`
  field of the `DHCP_RELAY|Vlan<vid>` row.
- `config vlan add|del`, `config vlan proxy_arp`,
  `config vlan member add|del`, and the older single-address
  `config vlan dhcp_relay add|del`.
- `show dhcp_relay ipv4 helper`, `show dhcp_relay ipv6 destination` and
  `show dhcprelay_helper ipv6`. These read the relay lists back.
- `show dhcp6relay_counters counts`, `show dhcp_relay ipv6 counters` and
  `sonic-clear dhcp6relay_counters`. These read and reset the per-interface
  DHCPv6 message counters in the state store.

The configuration store is a class `Store.ConfigDb` holding a map from
(table, key) to a row. Its ghost counters record how many writes were
made and how many relay-service restarts were requested. The state store
is a class `Store.StateDb` with its key list and field maps. Each
configuration command has two parts:

- A pure function gives its decision over the store it read. That is a
  `RelayPlan` or a `Change`: the outcome (`Done`, `Failed` for a usage
  error with exit code 2, or `Aborted` for an uncaught exception), the new
  rows, and the numbers of writes and restarts.
- A method on `ConfigDb` performs the command's steps in order. It is
  proved to have exactly that effect.

Lemmas then prove what the commands promise. They cover:

- which inputs succeed and which guard rejects the rest, in the commands'
  order;
- round trips (add then del restores the store);
- append order;
- an invariant every command keeps: members and interfaces only refer to
  VLANs that exist;
- the show commands showing what the config commands wrote;
- clearing zeroing every count.

Files:

| file | module | content |
|---|---|---|
| `text.dfy` | `Text` | `str(int)`, `join`, `split`, substring search, `s[n:]` |
| `lists.dfy` | `Lists` | `list.remove`, filtering, repetition-freedom |
| `messages.dfy` | `Messages` | every message printed, with its exact text |
| `store.dfy` | `Store` | the two stores, outcomes, parsed addresses |
| `relay_config.dfy` | `RelayConfig` | `config/dhcp_relay.py` |
| `vlan_config.dfy` | `VlanConfig` | `config/vlan.py` |
| `relay_show.dfy` | `RelayShow` | the table and grid parts of `show/dhcp_relay.py` |
| `relay_counters.dfy` | `RelayCounters` | the counter code of `show/dhcp_relay.py` and `show/dhcp6relay_counters.py` |

## Model

| member | source | states |
|---|---|---|
| Store.Outcome.ExitCode | config/dhcp_relay.py:16-24 | exit status 0 exactly for a command that finished normally; a usage failure is not 0 |
| Store.ConfigDb.SetEntry | config/dhcp_relay.py:66 | `set_entry` with None removes the row; with a dictionary, that dictionary becomes the whole row; one write is counted, no restart |
| Store.ConfigDb.ModEntry | config/vlan.py:151-152 | `mod_entry` merges the given fields over the existing row (an empty one if absent), keeping its other fields; one write |
| Store.ConfigDb.RestartDhcpRelay | utilities_common/dhcp_relay_util.py:5-12 | a restart request changes no row and counts one restart |
| Store.StateDb.Set | show/dhcp_relay.py:135-138 | the state store's `set` updates one field of one key, keeps every other field and key, and adds a new key to the listing; key list stays repetition-free and in step with the field maps |
| Store.StateDb.Delete | config/vlan.py:64-69 | `delete` removes the key and its fields and drops it from the listing, other keys in order |
| Text.NatToString | config/dhcp_relay.py:45 | `str(n)` is a non-empty string of decimal digits |
| Text.ParseIntToString | config/vlan.py:50 | the decimal text of an integer (as stored in `vlanid`) reads back as that integer |
| Text.IntToStringInjective | config/dhcp_relay.py:45 | distinct ids give distinct decimal texts, and only they do |
| Text.SplitJoin | show/dhcp_relay.py:65 | joining addresses with a line break and splitting on it gives the addresses back, when none holds a line break |
| Text.Contains | show/dhcp_relay.py:125 | Python's `sub in s` holds exactly when `sub` occurs at some position of `s` |
| Text.DropPrefix | show/dhcp_relay.py:126 | `key[21:]` is what follows the first 21 characters, or empty for a shorter key |
| Lists.FirstIndex | config/dhcp_relay.py:87 | the position `list.remove` acts on: `x` is there and at no earlier position |
| Lists.RemoveFirst | config/dhcp_relay.py:87 | `list.remove(x)` takes exactly one occurrence out (multiset minus one `x`), shortening the list by one; leaves a list without `x` unchanged |
| Lists.RemoveFirstAt | config/dhcp_relay.py:87 | the occurrence removed is the first one, and the elements before and after it keep their order |
| Lists.RemoveFirstKeepsOthers | config/dhcp_relay.py:87 | removing `x` does not change whether any other element is present |
| Lists.RemoveAllNoDup | config/dhcp_relay.py:79-88 | on a repetition-free list, removing each requested address in turn leaves exactly the addresses not requested, in their stored order |
| Lists.RemoveAllKeepsOthers | config/dhcp_relay.py:79-88 | removing the request does not change whether an address outside it is present |
| Lists.FilterOut | config/vlan.py:64-69 | keeps exactly the elements not in the given set |
| Lists.RemoveAllMultiset | config/dhcp_relay.py:80-89 | removing a repetition-free request contained in the list takes each requested address out once, counted with multiplicity |
| Lists.RemoveAllAppended | config/dhcp_relay.py:52-62 | removing the addresses that were just appended gives back the list before the append |
| RelayConfig.VlanNameInjective | config/dhcp_relay.py:45 | `Vlan<vid>` names distinct rows for distinct ids, and the same row for the same id |
| RelayConfig.TableAndField | config/dhcp_relay.py:37-40 | version 6 edits `DHCP_RELAY`/`dhcpv6_servers`; any other version edits `VLAN`/`dhcp_servers` |
| RelayConfig.ValidateIps | config/dhcp_relay.py:16-24 | no complaint exactly when every address parses with the requested version; otherwise the complaint is about the first address that does not, "invalid" if it does not parse at all and "not IPv<n>" if it has the other version |
| RelayConfig.AddScanDecides | config/dhcp_relay.py:50-62 | the add loop appends the whole request in order exactly when the request is repetition-free and shares nothing with the stored list; otherwise it stops at the first position that repeats an earlier request address (duplicate, checked first) or is already stored |
| RelayConfig.DelScanDecides | config/dhcp_relay.py:78-89 | the del loop succeeds exactly when the request is repetition-free and every address is stored, leaving the stored list with each requested address removed once; otherwise it stops at the first duplicate or unstored address |
| RelayConfig.DelLeaves | config/dhcp_relay.py:80-94 | what a successful del leaves plus the request is, as a multiset, the stored list; on a repetition-free list it is the stored addresses not requested, in stored order |
| RelayConfig.AddScanThenDelScan | config/dhcp_relay.py:43-98 | a successful add scan followed by the del scan of the same request gives back the stored list |
| RelayConfig.RelayPlan.Result | config/dhcp_relay.py:55-67 | the command's outcome carries the plan's message; it exits normally exactly for a write or for the "already a DHCP relay" early return |
| RelayConfig.AddRelayDecision | config/dhcp_relay.py:43-68 | every outcome of `add_dhcp_relay`, in the command's order: first invalid address; missing row ("doesn't exist"); write exactly when the request is repetition-free and new, with the list extended by the request in order and the "Added" message; otherwise the first conflict, reported as a duplicate failure or as the "already" message without a write; it never crashes |
| RelayConfig.DelRelayDecision | config/dhcp_relay.py:71-98 | every outcome of `del_dhcp_relay`: first invalid address; missing row; write exactly when the request is repetition-free and stored, and the field is there whenever the request is empty, with the remaining list written back or the field dropped when it empties; an empty request on a row without the field dies with Python's KeyError from `del`, writing nothing; otherwise the first duplicate or not-configured address fails |
| RelayConfig.AddThenDelRestores | config/dhcp_relay.py:43-98 | a successful add followed by a del of the same addresses succeeds and restores the whole store, including an absent field |
| RelayConfig.AddTwiceAppendsInOrder | config/dhcp_relay.py:61-66 | two successful adds leave the stored list followed by the first request, then the second |
| RelayConfig.AddPlanWrites | config/dhcp_relay.py:64-66 | a writing add validated, found the row, and writes it with the scan's list in the field |
| RelayConfig.DelPlanWritten | config/dhcp_relay.py:91-96 | a writing del writes the row with the remaining list, or without the field when nothing remains |
| RelayConfig.AppendRequested | config/dhcp_relay.py:52-62 | the add loop, as a `while` loop, reaches the verdict the add scan defines |
| RelayConfig.RemoveRequested | config/dhcp_relay.py:80-89 | the del loop, as a `while` loop, reaches the verdict the del scan defines |
| RelayConfig.AddDhcpRelay | config/dhcp_relay.py:43-68 | carries out the add decision on the store: same outcome, the row written as planned, one write and one restart exactly when it writes |
| RelayConfig.DelDhcpRelay | config/dhcp_relay.py:71-98 | carries out the del decision on the store, with one write and one restart exactly when it writes, and the KeyError abort before any write |
| Lists.RemoveAllEverything | config/dhcp_relay.py:79-90 | removing a request that names every stored address once, in any order, empties the list |
| VlanConfig.IsDhcpv6RelayConfigExist | config/vlan.py:53-61 | False when `DHCP_RELAY` has no such key, None (falsy) when the row is there with an empty or absent `dhcpv6_servers`, True otherwise |
| VlanConfig.AddVlanOutcome | config/vlan.py:32-50 | `vlan add` succeeds exactly for an id in 1..4094 whose `VLAN` and `DHCP_RELAY` rows are both empty; it then adds one row holding only `vlanid`, equal to `str(vid)` and reading back as the id, and leaves the other rows; failures write nothing and report the first failing guard: id out of range, VLAN already exists, relay configuration already exists |
| VlanConfig.DelVlanGuards | config/vlan.py:72-104 | `vlan del` fails on the first guard that does not hold, in the command's order, each with its own message: id out of range, no such VLAN, relay addresses with the no-restart flag, IP addresses on the VLAN, members on the VLAN; success prints nothing |
| VlanConfig.DelVlanOutcome | config/vlan.py:72-115 | `vlan del` succeeds exactly when the id is in range, the VLAN exists, the flag does not meet relay addresses, and no interface or member refers to it; it removes the `VLAN` row, removes the `DHCP_RELAY` row exactly when the flag is unset and relay addresses exist (two writes then, one otherwise), restarts only then and only if the service runs, and keeps every other row |
| VlanConfig.DependentsBlockDelVlan | config/vlan.py:94-104 | an interface or member of the VLAN makes `vlan del` fail without writing |
| VlanConfig.AddVlanThenDelVlanRestores | config/vlan.py:32-115 | creating an absent VLAN and deleting it again restores the store, with or without the flag |
| VlanConfig.RelayRowWithoutServersOutlivesVlan | config/vlan.py:53-61 | a `DHCP_RELAY` row without addresses survives `vlan del`, and `vlan add` of the same id is then refused |
| VlanConfig.EmptiedRelayIsFalsy | config/dhcp_relay.py:87-96 | a del whose request names every stored IPv6 relay address once, in any order, leaves a row for which `is_dhcpv6_relay_config_exist` answers a falsy None |
| VlanConfig.DeleteStateDbEntry | config/vlan.py:64-69 | the VLAN's counter key leaves the state store if it was there; nothing else changes |
| VlanConfig.AddVlan | config/vlan.py:32-50 | carries out the `vlan add` decision on the store |
| VlanConfig.DelVlan | config/vlan.py:72-115 | carries out the `vlan del` decision on the configuration store; on success the VLAN's counter key leaves the state store, on failure the state store is untouched |
| VlanConfig.ProxyArpOnlyField | config/vlan.py:135-153 | `proxy_arp` fails exactly when the VLAN has no interface row; otherwise it sets only the `proxy_arp` field of that row to the mode's text, keeps every other field and row, and setting it again changes nothing |
| VlanConfig.ConfigProxyArp | config/vlan.py:135-153 | carries out the proxy ARP decision on the store |
| VlanConfig.AddMemberDecision | config/vlan.py:161-212 | `member add` fails on the first guard that does not hold, in the command's order, each with its own message: id out of range, no such VLAN, unknown alias, mirror destination, already a member, no such port, router interface, port-channel member, already untagged elsewhere; it succeeds exactly when every guard holds, silently |
| VlanConfig.AddMemberOutcome | config/vlan.py:161-212 | a successful member add passed the range, existence and alias checks, found the port not yet a member and a port or port channel, and writes exactly one `VLAN_MEMBER` row whose tagging mode is "untagged" exactly when asked; a port that is already a member is refused; failures write nothing |
| VlanConfig.DelMemberOutcome | config/vlan.py:214-242 | `member del` fails with its own message when the id is out of range, the VLAN is missing, the alias is unknown or the port is not a member, and otherwise removes exactly that one `VLAN_MEMBER` row with one write and no restart; failures write nothing |
| VlanConfig.AddMemberThenDelMemberRestores | config/vlan.py:161-242 | adding a member and deleting it again restores the store |
| VlanConfig.MemberBlocksDelVlan | config/vlan.py:101-104 | after a member is added, `vlan del` fails |
| VlanConfig.AddVlanMember | config/vlan.py:161-212 | carries out the member add decision on the store, guards in the command's order |
| VlanConfig.DelVlanMember | config/vlan.py:214-242 | carries out the member del decision on the store: same outcome, rows, write and restart counts as `DelMemberOutcome` describes |
| VlanConfig.LegacyAddOutcome | config/vlan.py:248-284 | the single-address add writes exactly when the address parses, the row exists and neither list holds it; it appends it to the list of its version, keeping every other field; it stops with the "already configured" message exactly when either list holds it; an invalid address and a missing row fail with their own messages; a write reports "Added"; it never crashes |
| VlanConfig.LegacyDelOutcome | config/vlan.py:286-325 | the single-address del dies with Python's ValueError exactly when the address is stored only in the other version's list, writes (reporting "Removed") exactly when it is in its own version's list; an invalid address, a missing row and an address in neither list fail with their own messages |
| VlanConfig.LegacyDelEffects | config/vlan.py:310-321 | a writing single-address del takes one copy out of the list of its version, drops the field exactly when that list had one element, and keeps every other field |
| VlanConfig.LegacyAddThenDelRestores | config/vlan.py:248-325 | a single-address add then del of the same address restores the store |
| VlanConfig.LegacyAddDestination | config/vlan.py:248-284 | carries out the single-address add decision, with one write and one restart exactly when it writes |
| VlanConfig.LegacyDelDestination | config/vlan.py:286-325 | carries out the single-address del decision, with one write and one restart exactly when it writes |
| VlanConfig.AddVlanKeepsAnchored | config/vlan.py:32-50 | `vlan add` keeps every member and interface pointing at an existing VLAN |
| VlanConfig.DelVlanKeepsAnchored | config/vlan.py:94-115 | `vlan del` keeps that invariant: it only removes a VLAN nothing refers to |
| VlanConfig.ProxyArpKeepsAnchored | config/vlan.py:148-152 | `proxy_arp` keeps the invariant |
| VlanConfig.AddMemberKeepsAnchored | config/vlan.py:176-212 | a member is only added to an existing VLAN |
| VlanConfig.DelMemberKeepsAnchored | config/vlan.py:214-242 | `member del` keeps the invariant |
| VlanConfig.RelayEditsKeepAnchored | config/dhcp_relay.py:64-66 | every relay-list edit, old or new, keeps the invariant |
| RelayShow.TableOf | show/dhcp_relay.py:75 | `get_table` lists at most one entry per listed key, each a key with its stored row |
| RelayShow.RowNamedOfTable | show/dhcp_relay.py:40 | looking a VLAN up in the listed table finds its stored row, or an empty one |
| RelayShow.GetDataReadsStore | show/dhcp_relay.py:39-48 | `get_data` on `DHCP_RELAY` gives the empty output exactly when the row has no `dhcpv6_servers` field, and otherwise the stored IPv6 list |
| RelayShow.HelperColumns | show/dhcp_relay.py:26-36 | one column per table key, in key order, each the `dhcpv6_servers` list of that key's row |
| RelayShow.RelayRows | show/dhcp_relay.py:51-67 | the grid has no more lines than the table has entries |
| RelayShow.RelayRowsUnique | show/dhcp_relay.py:51-64 | over a table with distinct keys, no VLAN has two grid lines |
| RelayShow.RelayRowsSound | show/dhcp_relay.py:55-65 | every grid line is a VLAN with a non-empty list, shown joined with line breaks |
| RelayShow.RelayRowsComplete | show/dhcp_relay.py:55-65 | every VLAN with a non-empty list has its grid line |
| RelayShow.RelayRowsAppend | show/dhcp_relay.py:53-64 | grid lines follow table order |
| RelayShow.RelayRowsListed | show/dhcp_relay.py:57-58 | a VLAN is in the grid exactly when its list is non-empty |
| RelayShow.CellSplitsBack | show/dhcp_relay.py:65 | a grid cell split on line breaks gives back the stored list |
| RelayShow.ShownList | show/dhcp_relay.py:105-112 | the IPv4 grid reads the table and field the IPv4 config command edits, and the IPv6 grid those of the IPv6 command |
| RelayShow.ShownAfterAdd | config/dhcp_relay.py:64-66 | after a successful add, the grid shows the VLAN with what it held followed by the added addresses |
| RelayShow.HiddenAfterDelAll | config/dhcp_relay.py:87-96 | after a del whose request names every stored address once, in any order, the VLAN leaves the grid |
| RelayCounters.MessagesDistinct | show/dhcp6relay_counters.py:12 | the twelve DHCPv6 message types are distinct |
| RelayCounters.CounterKeyRoundTrip | show/dhcp_relay.py:119-127 | a counter key contains the table name, and dropping 21 characters gives back the interface |
| RelayCounters.Interfaces | show/dhcp6relay_counters.py:21-27 | at most one interface per state key |
| RelayCounters.InterfacesAppend | show/dhcp6relay_counters.py:24-26 | the listing follows key order |
| RelayCounters.InterfacesOfCounterKeys | show/dhcp6relay_counters.py:21-27 | listing the counter keys of some interfaces gives back those interfaces, in order |
| RelayCounters.InterfacesSkip | show/dhcp6relay_counters.py:25 | a key without the table name adds nothing |
| RelayCounters.CountRows | show/dhcp6relay_counters.py:42-47 | twelve rows, the message types in the fixed order, each with a count exactly when the store has that field, and then the stored value |
| RelayCounters.Counter.constructor | show/dhcp6relay_counters.py:14-18 | the counter reads the given state store |
| RelayCounters.Counter.MsgCount | show/dhcp6relay_counters.py:30-34 | the row names the message and has a count exactly when the store holds that field of the interface's key, and then the stored value |
| RelayCounters.PrintCountRowsAreMsgCounts | show/dhcp6relay_counters.py:42-46 | `print_count` has twelve rows, row `i` being `get_dhcp6relay_msg_count` of the `i`-th message type |
| RelayCounters.Counter.ClearTable | show/dhcp6relay_counters.py:37-40 | the twelve message fields of the interface's key become "0", its other fields and every other key keep their values |
| RelayCounters.ZeroFields | show/dhcp6relay_counters.py:39-40 | setting each field to "0" one at a time is merging the all-"0" map into the key's fields |
| RelayCounters.Targets | show/dhcp6relay_counters.py:71-75 | a non-empty `--interface` is used alone and unchecked; otherwise every listed interface |
| RelayCounters.Counts | show/dhcp6relay_counters.py:62-75 | one report per target interface, in order, each with twelve rows |
| RelayCounters.Clear | show/dhcp6relay_counters.py:79-94 | clears each target interface in order, as listed before clearing began, lists no key less, and prints the single-counter or all-counters message |
| RelayCounters.ClearEach | show/dhcp6relay_counters.py:88-94 | the loop over the listed interfaces clears each in order, reaching the fields `ClearedAll` defines, and lists no key less |
| RelayCounters.ClearedCountsZero | show/dhcp6relay_counters.py:37-47 | after clearing an interface, each of its counts reads "0" |
| RelayCounters.ClearedKeepsOthers | show/dhcp6relay_counters.py:37-40 | clearing changes only the message fields of the interface's key |
| RelayCounters.ClearedIdempotent | show/dhcp6relay_counters.py:37-40 | clearing twice is clearing once |
| RelayCounters.ClearedAllZero | show/dhcp6relay_counters.py:88-94 | after clearing several interfaces, each of their counts reads "0" |
| RelayCounters.ClearedAllKeepsOthers | show/dhcp6relay_counters.py:88-94 | clearing several interfaces leaves every other key and every non-message field alone |
| RelayCounters.ClearThenCountsZero | show/dhcp6relay_counters.py:62-94 | after `clear` with an interface option, `counts` with the same option shows "0" for every message of every interface it reports |

## Left out

- Service control is not modelled. The relay-service restart
  (`systemctl stop/reset-failed/start`) is only counted, by
  `ConfigDb.restarts`. Whether the service is active (`is_dhcp_relay_running`)
  is the `running` parameter of `del_vlan`.
- `restart_ndppd` after `config vlan proxy_arp` is not modelled: it runs
  commands in the switch-state container and only prints.
- Parsing an IP address (`ipaddress.ip_address`, `is_ipaddress`,
  `ipaddress_type`) is the `parse` parameter. It answers "not an
  address", or an address of version 4 or 6.
- The member commands' helpers are the fields of `VlanConfig.PortFacts`:
  the interface naming mode, the alias-to-name table, and the port
  predicates (mirror destination, port, port channel, router interface,
  port-channel membership, untagged member). Their own code is not part of
  this model.
- The helper `is_vlanid_in_range` is not part of this model. It is taken
  to accept 1..4094, as its message says.
- The helper `check_if_vlanid_exist` is not part of this model. It is
  taken to be "the row is non-empty".
- The helper `is_port_vlan_member` is not part of this model. It is taken
  to be "the `VLAN_MEMBER` row is present".
- `config vlan proxy_arp` checks that the VLAN interface is valid. This is
  taken to be "the `VLAN_INTERFACE` row with the VLAN's name is present".
- The order in which the store lists keys (`get_keys`, `get_table`, the
  state store's `keys`) comes from the store. It is the `order` parameter,
  or the `keys` field.
- The state store's key separator is taken to be `|`.
- Table layout, colours, `tabulate`, click's option parsing and logging
  are not modelled. The show commands yield rows and cells, and the
  config commands yield a `Message` whose text `Message.Render` gives.
- A relay field that holds a plain string rather than a list is read as
  an empty list. Python would look for substrings in it.
- `show/dhcp_relay_helper.py` is not part of this model.
- The test files are not part of this model.
- An empty address list never reaches the relay commands: click's
  `nargs=-1, required=True` arguments refuse it. The model still takes
  it, with the code's outcome: an add writes the list unchanged, and a del
  on a row without the field dies with a KeyError.
- The `None` checks on the configuration connector and on `get_table` in
  `get_dhcp_relay` are left out. The connector is always present, and
  `get_table` returns a dictionary.
- `get_data` always reads `dhcpv6_servers`, even on the `VLAN` table.
  `RelayShow.GetData` keeps that. Only the `DHCP_RELAY` use, the only one
  a command reaches, has a lemma.
- Deleting the last relay address of a row drops the field and writes
  the rest of the row back with `set_entry`, even when the rest is empty;
  the row is never deleted. The model therefore keeps such a row's key in
  the store (`Store.ConfigDb.SetEntry`). For a `DHCP_RELAY` row,
  `is_dhcpv6_relay_config_exist` then answers None, which is falsy
  (`VlanConfig.EmptiedRelayIsFalsy`). A row that keeps other fields
  outlives `vlan del` and blocks a later `vlan add`
  (`VlanConfig.RelayRowWithoutServersOutlivesVlan`). How the store
  represents an empty row is not part of this model.
- RelayCounters.Counts: only the length of each report and the interface
  it names are in its contract. The rows themselves are specified by
  `CountRows`.
- Store.StateDb.Set: the store promises no order for its key listing;
  listing a new key last is this model's choice, so only membership of
  the listing reflects the store.
- RelayCounters.Counter.ClearTable: the position of a newly listed counter
  key is this model's choice, as for `Store.StateDb.Set`.
- RelayCounters.Clear: states only that no key leaves the listing, not
  which keys are added or where.
- Lists.RemoveAll: its own contract is only a length bound; what it leaves
  is stated by `Lists.RemoveAllMultiset`, `Lists.RemoveAllNoDup`,
  `Lists.RemoveAllAppended` and `Lists.RemoveAllKeepsOthers`.
