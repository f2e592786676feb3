/** `config vlan add|del`, `config vlan proxy_arp`,
    `config vlan member add|del` and the older single-address
    `config vlan dhcp_relay add|del`. Each command reads the configuration
    store, checks its guards in a fixed order and either fails without
    writing or writes. Each is a pure description of its effect (a Change
    or a RelayPlan) and a method on the store proved to have that effect. */
module VlanConfig {
  import opened Text
  import opened Lists
  import opened Store
  import opened RelayConfig
  import opened Messages

  const VLAN_MEMBER_TABLE := "VLAN_MEMBER"
  const VLAN_INTERFACE_TABLE := "VLAN_INTERFACE"

  /** What a command did: its outcome, the rows afterwards, and the number
      of writes and of relay restarts it made. */
  datatype Change = Change(out: Outcome, rows: Rows, writes: nat, restarts: nat)

  function Refuse(rows: Rows, message: Message): Change
  {
    Change(Failed(message), rows, 0, 0)
  }

  /** VLAN ids accepted by the commands, as the range in their message says. */
  predicate InRange(vid: int)
  {
    1 <= vid <= 4094
  }

  /** A VLAN is present in `table` when its row there is non-empty. */
  predicate VlanExists(rows: Rows, table: string, vlan: string)
  {
    Entry(rows, table, Name(vlan)) != map[]
  }

  /** Python's `len(row.get(field, []))`. */
  function FieldLength(row: Row, field: string): nat
  {
    if field !in row then 0
    else match row[field]
      case Str(s) => |s|
      case List(items) => |items|
  }

  /** `is_dhcpv6_relay_config_exist`: `Some(false)` when the `DHCP_RELAY`
      table has no such key, `Some(true)` when its `dhcpv6_servers` is
      non-empty, and `None` (Python's falsy `None`) when the row is there
      with no addresses. */
  function IsDhcpv6RelayConfigExist(rows: Rows, vlan: string): (r: Option<bool>)
    ensures r == Some(false) <==> RowId(DHCP_RELAY_TABLE, Name(vlan)) !in rows
    ensures r.None? <==>
      RowId(DHCP_RELAY_TABLE, Name(vlan)) in rows && FieldLength(rows[RowId(DHCP_RELAY_TABLE, Name(vlan))], DHCPV6_SERVERS) == 0
  {
    if RowId(DHCP_RELAY_TABLE, Name(vlan)) !in rows then Some(false)
    else if FieldLength(Entry(rows, DHCP_RELAY_TABLE, Name(vlan)), DHCPV6_SERVERS) > 0 then Some(true)
    else None
  }

  /** Python truthiness of that answer. */
  predicate Truthy(answer: Option<bool>)
  {
    answer == Some(true)
  }

  /** The VLAN a `VLAN_INTERFACE` or `VLAN_MEMBER` key belongs to. */
  function KeyVlan(key: Key): string
  {
    match key
    case Name(n) => n
    case Pair(first, _) => first
  }

  /** Some `VLAN_INTERFACE` key is the VLAN or has it first. */
  predicate HasInterface(rows: Rows, vlan: string)
  {
    exists id :: id in rows && id.table == VLAN_INTERFACE_TABLE && KeyVlan(id.key) == vlan
  }

  /** Some `VLAN_MEMBER` key has the VLAN first. */
  predicate HasMembers(rows: Rows, vlan: string)
  {
    exists id :: id in rows && id.table == VLAN_MEMBER_TABLE && id.key.Pair? && id.key.first == vlan
  }

  /** `is_port_vlan_member`. */
  predicate IsMember(rows: Rows, port: string, vlan: string)
  {
    RowId(VLAN_MEMBER_TABLE, Pair(vlan, port)) in rows
  }

  /** Every `VLAN_INTERFACE` key and every `VLAN_MEMBER` pair key names a
      VLAN whose `VLAN` row is present. */
  ghost predicate Anchored(rows: Rows)
  {
    forall id :: id in rows && (id.table == VLAN_INTERFACE_TABLE || (id.table == VLAN_MEMBER_TABLE && id.key.Pair?)) ==>
      RowId(VLAN_TABLE, Name(KeyVlan(id.key))) in rows
  }

  // ---------------------------------------------------------------- vlan add / del

  /** `add_vlan`. */
  function AddVlanChange(rows: Rows, vid: int): Change
  {
    var vlan := VlanName(vid);
    if !InRange(vid) then Refuse(rows, VlanIdOutOfRange(vid))
    else if VlanExists(rows, VLAN_TABLE, vlan) then Refuse(rows, VlanAlreadyExists(vlan))
    else if VlanExists(rows, DHCP_RELAY_TABLE, vlan) then Refuse(rows, RelayConfigAlreadyExists(vlan))
    else Change(Done(Silent), rows[RowId(VLAN_TABLE, Name(vlan)) := map["vlanid" := Str(IntToString(vid))]], 1, 0)
  }

  /** `add_vlan` succeeds exactly for an in-range id whose `VLAN` and
      `DHCP_RELAY` rows are both empty, and then adds one row whose
      `vlanid` reads back as the id; otherwise it fails on the first guard
      in order and writes nothing. */
  lemma AddVlanOutcome(rows: Rows, vid: int)
    ensures
      var c := AddVlanChange(rows, vid);
      var vlan := VlanName(vid);
      && (c.out.Done? <==> InRange(vid) && !VlanExists(rows, VLAN_TABLE, vlan) && !VlanExists(rows, DHCP_RELAY_TABLE, vlan))
      && (c.out.Done? ==>
            && c.rows.Keys == rows.Keys + {RowId(VLAN_TABLE, Name(vlan))}
            && (forall id :: id in rows && id != RowId(VLAN_TABLE, Name(vlan)) ==> c.rows[id] == rows[id])
            && c.rows[RowId(VLAN_TABLE, Name(vlan))].Keys == {"vlanid"}
            && c.rows[RowId(VLAN_TABLE, Name(vlan))]["vlanid"] == Str(IntToString(vid))
            && ParseInt(c.rows[RowId(VLAN_TABLE, Name(vlan))]["vlanid"].s) == vid
            && c.writes == 1 && c.restarts == 0)
      && (!c.out.Done? ==> c.rows == rows && c.writes == 0 && c.out.Failed?)
      && (!InRange(vid) ==> c.out == Failed(VlanIdOutOfRange(vid)))
      && (InRange(vid) && VlanExists(rows, VLAN_TABLE, vlan) ==> c.out == Failed(VlanAlreadyExists(vlan)))
      && (InRange(vid) && !VlanExists(rows, VLAN_TABLE, vlan) && VlanExists(rows, DHCP_RELAY_TABLE, vlan) ==>
            c.out == Failed(RelayConfigAlreadyExists(vlan)))
  {
    ParseIntToString(vid);
  }

  /** `del_vlan` on the configuration store; `running` is whether the
      relay service reports itself active. */
  function DelVlanChange(rows: Rows, vid: int, noRestart: bool, running: bool): Change
  {
    var vlan := VlanName(vid);
    if !InRange(vid) then Refuse(rows, VlanIdOutOfRange(vid))
    else if !VlanExists(rows, VLAN_TABLE, vlan) then Refuse(rows, NoSuchVlan(vlan))
    else if noRestart && Truthy(IsDhcpv6RelayConfigExist(rows, vlan)) then
      Refuse(rows, RelayConfigBlocksDelete(vlan))
    else if HasInterface(rows, vlan) then
      Refuse(rows, VlanHasAddresses(vlan))
    else if HasMembers(rows, vlan) then
      Refuse(rows, VlanHasMembers(vid))
    else
      var without := rows - {RowId(VLAN_TABLE, Name(vlan))};
      if !noRestart && Truthy(IsDhcpv6RelayConfigExist(without, vlan)) then
        Change(Done(Silent), without - {RowId(DHCP_RELAY_TABLE, Name(vlan))}, 2, if running then 1 else 0)
      else Change(Done(Silent), without, 1, 0)
  }

  /** A member or an interface of the VLAN blocks its deletion: the
      command fails and the store is unchanged. */
  lemma DependentsBlockDelVlan(rows: Rows, vid: int, noRestart: bool, running: bool)
    requires HasInterface(rows, VlanName(vid)) || HasMembers(rows, VlanName(vid))
    ensures DelVlanChange(rows, vid, noRestart, running).out.Failed?
    ensures DelVlanChange(rows, vid, noRestart, running).rows == rows
  {
  }

  /** `del_vlan` fails on the first guard that does not hold, in the
      command's order, each with its own message. */
  lemma DelVlanGuards(rows: Rows, vid: int, noRestart: bool, running: bool)
    ensures
      var c := DelVlanChange(rows, vid, noRestart, running);
      var vlan := VlanName(vid);
      var blocked := noRestart && Truthy(IsDhcpv6RelayConfigExist(rows, vlan));
      && (!InRange(vid) ==> c.out == Failed(VlanIdOutOfRange(vid)))
      && (InRange(vid) && !VlanExists(rows, VLAN_TABLE, vlan) ==> c.out == Failed(NoSuchVlan(vlan)))
      && (InRange(vid) && VlanExists(rows, VLAN_TABLE, vlan) && blocked ==>
            c.out == Failed(RelayConfigBlocksDelete(vlan)))
      && (InRange(vid) && VlanExists(rows, VLAN_TABLE, vlan) && !blocked && HasInterface(rows, vlan) ==>
            c.out == Failed(VlanHasAddresses(vlan)))
      && (InRange(vid) && VlanExists(rows, VLAN_TABLE, vlan) && !blocked && !HasInterface(rows, vlan) && HasMembers(rows, vlan) ==>
            c.out == Failed(VlanHasMembers(vid)))
      && (c.out.Done? ==> c.out == Done(Silent))
  {
  }

  /** A successful `del_vlan` removes the `VLAN` row, removes the
      `DHCP_RELAY` row exactly when the flag is unset and relay addresses
      exist, restarts only then and only if the service runs, and changes
      nothing else. */
  lemma DelVlanOutcome(rows: Rows, vid: int, noRestart: bool, running: bool)
    ensures
      var c := DelVlanChange(rows, vid, noRestart, running);
      var vlan := VlanName(vid);
      var relay := RowId(DHCP_RELAY_TABLE, Name(vlan));
      var dropRelay := !noRestart && Truthy(IsDhcpv6RelayConfigExist(rows, vlan));
      && (c.out.Done? <==>
            && InRange(vid) && VlanExists(rows, VLAN_TABLE, vlan)
            && !(noRestart && Truthy(IsDhcpv6RelayConfigExist(rows, vlan)))
            && !HasInterface(rows, vlan) && !HasMembers(rows, vlan))
      && (c.out.Done? ==>
            && RowId(VLAN_TABLE, Name(vlan)) !in c.rows
            && (relay in c.rows <==> relay in rows && !dropRelay)
            && (forall id :: id in rows && id != RowId(VLAN_TABLE, Name(vlan)) && id != relay ==> id in c.rows && c.rows[id] == rows[id])
            && c.rows.Keys <= rows.Keys
            && c.writes == (if dropRelay then 2 else 1)
            && c.restarts == (if dropRelay && running then 1 else 0))
      && (!c.out.Done? ==> c.rows == rows && c.writes == 0 && c.restarts == 0)
  {
    var vlan := VlanName(vid);
    var without := rows - {RowId(VLAN_TABLE, Name(vlan))};
    assert IsDhcpv6RelayConfigExist(without, vlan) == IsDhcpv6RelayConfigExist(rows, vlan) by {
      assert RowId(DHCP_RELAY_TABLE, Name(vlan)) != RowId(VLAN_TABLE, Name(vlan));
    }
  }

  /** Creating a VLAN that had no row, then deleting it, restores the
      store, whatever the flag, as long as every member and interface key
      names a VLAN that has a row. */
  lemma AddVlanThenDelVlanRestores(rows: Rows, vid: int, noRestart: bool, running: bool)
    requires Anchored(rows)
    requires RowId(VLAN_TABLE, Name(VlanName(vid))) !in rows
    requires AddVlanChange(rows, vid).out.Done?
    ensures DelVlanChange(AddVlanChange(rows, vid).rows, vid, noRestart, running).out.Done?
    ensures DelVlanChange(AddVlanChange(rows, vid).rows, vid, noRestart, running).rows == rows
  {
    var vlan := VlanName(vid);
    var id := RowId(VLAN_TABLE, Name(vlan));
    var added := AddVlanChange(rows, vid).rows;
    assert added == rows[id := map["vlanid" := Str(IntToString(vid))]];
    assert VlanExists(added, VLAN_TABLE, vlan) by {
      assert "vlanid" in Entry(added, VLAN_TABLE, Name(vlan));
    }
    assert !HasInterface(added, vlan);
    assert !HasMembers(added, vlan);
    var relay := RowId(DHCP_RELAY_TABLE, Name(vlan));
    assert !Truthy(IsDhcpv6RelayConfigExist(added, vlan)) by {
      if relay in added {
        assert Entry(added, DHCP_RELAY_TABLE, Name(vlan)) == Entry(rows, DHCP_RELAY_TABLE, Name(vlan));
      }
    }
    assert !Truthy(IsDhcpv6RelayConfigExist(added - {id}, vlan)) by {
      if relay in added - {id} {
        assert Entry(added - {id}, DHCP_RELAY_TABLE, Name(vlan)) == Entry(rows, DHCP_RELAY_TABLE, Name(vlan));
      }
    }
    assert added - {id} == rows;
  }

  /** A `DHCP_RELAY` row that keeps other fields but no addresses survives
      `del_vlan`, and then makes `add_vlan` refuse to create the VLAN again. */
  lemma RelayRowWithoutServersOutlivesVlan(rows: Rows, vid: int, noRestart: bool, running: bool)
    requires DelVlanChange(rows, vid, noRestart, running).out.Done?
    requires VlanExists(rows, DHCP_RELAY_TABLE, VlanName(vid))
    requires DHCPV6_SERVERS !in Entry(rows, DHCP_RELAY_TABLE, Name(VlanName(vid)))
    ensures AddVlanChange(DelVlanChange(rows, vid, noRestart, running).rows, vid) ==
      Refuse(DelVlanChange(rows, vid, noRestart, running).rows, RelayConfigAlreadyExists(VlanName(vid)))
  {
    var vlan := VlanName(vid);
    var without := rows - {RowId(VLAN_TABLE, Name(vlan))};
    assert Entry(without, DHCP_RELAY_TABLE, Name(vlan)) == Entry(rows, DHCP_RELAY_TABLE, Name(vlan));
    assert !Truthy(IsDhcpv6RelayConfigExist(without, vlan));
    assert !VlanExists(without, VLAN_TABLE, vlan);
  }

  /** `delete_state_db_entry`: the VLAN's counter entry goes if present. */
  method DeleteStateDbEntry(state: StateDb, vlan: string)
    requires state.Valid()
    modifies state
    ensures state.Valid()
    ensures state.fields == old(state.fields) - {CounterKey(vlan)}
    ensures state.keys == FilterOut(old(state.keys), {CounterKey(vlan)})
  {
    if CounterKey(vlan) in state.fields {
      state.Delete(CounterKey(vlan));
    } else {
      assert CounterKey(vlan) !in state.keys;
      FilterOutNothing(state.keys, {CounterKey(vlan)});
    }
  }

  /** `add_vlan` on the store. */
  method AddVlan(db: ConfigDb, vid: int) returns (out: Outcome)
    modifies db
    ensures
      var c := AddVlanChange(old(db.rows), vid);
      && out == c.out && db.rows == c.rows
      && db.writes == old(db.writes) + c.writes && db.restarts == old(db.restarts) + c.restarts
  {
    if !InRange(vid) {
      return Failed(VlanIdOutOfRange(vid));
    }
    var vlan := VlanName(vid);
    if Entry(db.rows, VLAN_TABLE, Name(vlan)) != map[] {
      return Failed(VlanAlreadyExists(vlan));
    }
    if Entry(db.rows, DHCP_RELAY_TABLE, Name(vlan)) != map[] {
      return Failed(RelayConfigAlreadyExists(vlan));
    }
    db.SetEntry(VLAN_TABLE, Name(vlan), Some(map["vlanid" := Str(IntToString(vid))]));
    out := Done(Silent);
  }

  /** `del_vlan` on both stores: the configuration rows change as
      DelVlanChange says, and on success the VLAN's counter entry leaves
      the state store. */
  method DelVlan(db: ConfigDb, state: StateDb, vid: int, noRestart: bool, running: bool) returns (out: Outcome)
    requires state.Valid()
    modifies db, state
    ensures state.Valid()
    ensures
      var c := DelVlanChange(old(db.rows), vid, noRestart, running);
      && out == c.out && db.rows == c.rows
      && db.writes == old(db.writes) + c.writes && db.restarts == old(db.restarts) + c.restarts
    ensures out.Done? ==> state.fields == old(state.fields) - {CounterKey(VlanName(vid))}
    ensures out.Done? ==> state.keys == FilterOut(old(state.keys), {CounterKey(VlanName(vid))})
    ensures !out.Done? ==> state.fields == old(state.fields) && state.keys == old(state.keys)
  {
    if !InRange(vid) {
      return Failed(VlanIdOutOfRange(vid));
    }
    var vlan := VlanName(vid);
    if Entry(db.rows, VLAN_TABLE, Name(vlan)) == map[] {
      return Failed(NoSuchVlan(vlan));
    }
    if noRestart && Truthy(IsDhcpv6RelayConfigExist(db.rows, vlan)) {
      return Failed(RelayConfigBlocksDelete(vlan));
    }
    if HasInterface(db.rows, vlan) {
      return Failed(VlanHasAddresses(vlan));
    }
    if HasMembers(db.rows, vlan) {
      return Failed(VlanHasMembers(vid));
    }
    db.SetEntry(VLAN_TABLE, Name(vlan), None);
    if !noRestart && Truthy(IsDhcpv6RelayConfigExist(db.rows, vlan)) {
      db.SetEntry(DHCP_RELAY_TABLE, Name(vlan), None);
      if running {
        db.RestartDhcpRelay();
      }
    }
    DeleteStateDbEntry(state, vlan);
    out := Done(Silent);
  }

  // ---------------------------------------------------------------- proxy ARP

  /** The two modes the command accepts. */
  datatype ProxyArpMode = Enabled | Disabled
  {
    function Text(): string
    {
      if Enabled? then "enabled" else "disabled"
    }
  }

  /** `config_proxy_arp` on the store (the neighbour-proxy restart that
      follows is not part of this model). */
  function ProxyArpChange(rows: Rows, vid: int, mode: ProxyArpMode): Change
  {
    var vlan := VlanName(vid);
    var id := RowId(VLAN_INTERFACE_TABLE, Name(vlan));
    if id !in rows then Refuse(rows, NoVlanInterface(vlan))
    else Change(Done(ProxyArpSaved), rows[id := Entry(rows, VLAN_INTERFACE_TABLE, Name(vlan)) + map["proxy_arp" := Str(mode.Text())]], 1, 0)
  }

  /** Only the `proxy_arp` field of the VLAN's interface row changes, and
      setting the same mode again changes nothing more. */
  lemma ProxyArpOnlyField(rows: Rows, vid: int, mode: ProxyArpMode)
    ensures
      var c := ProxyArpChange(rows, vid, mode);
      var id := RowId(VLAN_INTERFACE_TABLE, Name(VlanName(vid)));
      && (c.out.Done? <==> id in rows)
      && (c.out.Done? ==>
            && c.rows.Keys == rows.Keys
            && (forall other :: other in rows && other != id ==> c.rows[other] == rows[other])
            && c.rows[id]["proxy_arp"] == Str(mode.Text())
            && (forall f :: f in rows[id] && f != "proxy_arp" ==> f in c.rows[id] && c.rows[id][f] == rows[id][f])
            && c.rows[id].Keys == rows[id].Keys + {"proxy_arp"}
            && ProxyArpChange(c.rows, vid, mode).rows == c.rows)
      && (!c.out.Done? ==> c.rows == rows && c.out == Failed(NoVlanInterface(VlanName(vid))))
  {
    var id := RowId(VLAN_INTERFACE_TABLE, Name(VlanName(vid)));
    if id in rows {
      var update := map["proxy_arp" := Str(mode.Text())];
      var row := rows[id] + update;
      assert row.Keys == rows[id].Keys + {"proxy_arp"};
      assert row + update == row;
    }
  }

  /** `config_proxy_arp` on the store. */
  method ConfigProxyArp(db: ConfigDb, vid: int, mode: ProxyArpMode) returns (out: Outcome)
    modifies db
    ensures
      var c := ProxyArpChange(old(db.rows), vid, mode);
      && out == c.out && db.rows == c.rows
      && db.writes == old(db.writes) + c.writes && db.restarts == old(db.restarts) + c.restarts
  {
    var vlan := VlanName(vid);
    if RowId(VLAN_INTERFACE_TABLE, Name(vlan)) !in db.rows {
      return Failed(NoVlanInterface(vlan));
    }
    db.ModEntry(VLAN_INTERFACE_TABLE, Name(vlan), map["proxy_arp" := Str(mode.Text())]);
    out := Done(ProxyArpSaved);
  }

  // ---------------------------------------------------------------- members

  /** What the member commands learn from helpers outside this model: the
      interface naming mode and alias table, and the port predicates. */
  datatype PortFacts = PortFacts(
    aliasMode: bool,
    aliasToName: string -> Option<string>,
    isMirrorDestination: string -> bool,
    isPort: string -> bool,
    isPortChannel: string -> bool,
    isPortRouterInterface: string -> bool,
    isPortChannelRouterInterface: string -> bool,
    inPortChannel: string -> bool,
    isUntaggedMember: string -> bool)

  /** The port name the command works on: the alias resolved in alias
      mode, the argument itself otherwise. */
  function ResolvePort(port: string, facts: PortFacts): Option<string>
  {
    if facts.aliasMode then facts.aliasToName(port) else Some(port)
  }

  function TaggingMode(untagged: bool): string
  {
    if untagged then "untagged" else "tagged"
  }

  /** `add_vlan_member`. */
  function AddMemberChange(rows: Rows, vid: int, port: string, untagged: bool, facts: PortFacts): Change
  {
    var vlan := VlanName(vid);
    if !InRange(vid) then Refuse(rows, VlanIdOutOfRange(vid))
    else if !VlanExists(rows, VLAN_TABLE, vlan) then Refuse(rows, NoSuchVlan(vlan))
    else if ResolvePort(port, facts).None? then Refuse(rows, UnknownAlias(port))
    else
      var name := ResolvePort(port, facts).value;
      if facts.isMirrorDestination(name) then Refuse(rows, MirrorDestination(name))
      else if IsMember(rows, name, vlan) then Refuse(rows, AlreadyMember(name, vlan))
      else if !KnownPort(name, facts) then Refuse(rows, NoSuchPort(name))
      else if Routed(name, facts) then Refuse(rows, RouterInterface(name))
      else if Bundled(name, facts) then Refuse(rows, PortChannelMember(name))
      else if facts.isUntaggedMember(name) && untagged then Refuse(rows, AlreadyUntagged(name))
      else Change(Done(Silent), rows[RowId(VLAN_MEMBER_TABLE, Pair(vlan, name)) := map["tagging_mode" := Str(TaggingMode(untagged))]], 1, 0)
  }

  /** `del_vlan_member`. */
  function DelMemberChange(rows: Rows, vid: int, port: string, facts: PortFacts): Change
  {
    var vlan := VlanName(vid);
    if !InRange(vid) then Refuse(rows, VlanIdOutOfRange(vid))
    else if !VlanExists(rows, VLAN_TABLE, vlan) then Refuse(rows, NoSuchVlan(vlan))
    else if ResolvePort(port, facts).None? then Refuse(rows, UnknownAlias(port))
    else
      var name := ResolvePort(port, facts).value;
      if !IsMember(rows, name, vlan) then Refuse(rows, NotMember(name, vlan))
      else Change(Done(Silent), rows - {RowId(VLAN_MEMBER_TABLE, Pair(vlan, name))}, 1, 0)
  }

  /** A successful member add writes exactly one new `VLAN_MEMBER` row,
      tagged "untagged" exactly when asked, and makes the port a member;
      a port that is already a member is refused. */
  lemma AddMemberOutcome(rows: Rows, vid: int, port: string, untagged: bool, facts: PortFacts)
    ensures
      var c := AddMemberChange(rows, vid, port, untagged, facts);
      var vlan := VlanName(vid);
      && (c.out.Done? ==>
            && InRange(vid) && VlanExists(rows, VLAN_TABLE, vlan) && ResolvePort(port, facts).Some?
            && var name := ResolvePort(port, facts).value;
            && !IsMember(rows, name, vlan) && IsMember(c.rows, name, vlan)
            && (facts.isPort(name) || facts.isPortChannel(name))
            && c.rows == rows[RowId(VLAN_MEMBER_TABLE, Pair(vlan, name)) := map["tagging_mode" := Str(TaggingMode(untagged))]]
            && (c.rows[RowId(VLAN_MEMBER_TABLE, Pair(vlan, name))]["tagging_mode"] == Str("untagged") <==> untagged)
            && c.writes == 1)
      && (!c.out.Done? ==> c.out.Failed? && c.rows == rows && c.writes == 0)
      && (InRange(vid) && VlanExists(rows, VLAN_TABLE, vlan) && ResolvePort(port, facts).Some? &&
          !facts.isMirrorDestination(ResolvePort(port, facts).value) && IsMember(rows, ResolvePort(port, facts).value, vlan) ==>
            c.out == Failed(AlreadyMember(ResolvePort(port, facts).value, vlan)))
  {
  }

  /** The port a member command names, as resolved or as given. */
  function MemberName(port: string, facts: PortFacts): string
  {
    if ResolvePort(port, facts).Some? then ResolvePort(port, facts).value else port
  }

  /** The port exists, as a port or as a port channel. */
  predicate KnownPort(name: string, facts: PortFacts)
  {
    facts.isPort(name) || facts.isPortChannel(name)
  }

  /** The port, or the port channel, is a router interface. */
  predicate Routed(name: string, facts: PortFacts)
  {
    if facts.isPort(name) then facts.isPortRouterInterface(name) else facts.isPortChannelRouterInterface(name)
  }

  /** A port that is a port-channel member. */
  predicate Bundled(name: string, facts: PortFacts)
  {
    facts.isPort(name) && facts.inPortChannel(name)
  }

  /** The checks `add_vlan_member` makes once the port name is known. */
  predicate PortAccepted(rows: Rows, vlan: string, name: string, untagged: bool, facts: PortFacts)
  {
    !facts.isMirrorDestination(name) && !IsMember(rows, name, vlan) && KnownPort(name, facts) &&
    !Routed(name, facts) && !Bundled(name, facts) && !(facts.isUntaggedMember(name) && untagged)
  }

  /** `add_vlan_member` fails on the first guard that does not hold, in
      the command's order, each with its own message, and succeeds exactly
      when every guard holds. */
  lemma AddMemberDecision(rows: Rows, vid: int, port: string, untagged: bool, facts: PortFacts)
    ensures
      var c := AddMemberChange(rows, vid, port, untagged, facts);
      var vlan := VlanName(vid);
      var name := MemberName(port, facts);
      var reached := InRange(vid) && VlanExists(rows, VLAN_TABLE, vlan) && ResolvePort(port, facts).Some?;
      && (!InRange(vid) ==> c.out == Failed(VlanIdOutOfRange(vid)))
      && (InRange(vid) && !VlanExists(rows, VLAN_TABLE, vlan) ==> c.out == Failed(NoSuchVlan(vlan)))
      && (InRange(vid) && VlanExists(rows, VLAN_TABLE, vlan) && ResolvePort(port, facts).None? ==>
            c.out == Failed(UnknownAlias(port)))
      && (reached && facts.isMirrorDestination(name) ==> c.out == Failed(MirrorDestination(name)))
      && (reached && !facts.isMirrorDestination(name) && IsMember(rows, name, vlan) ==>
            c.out == Failed(AlreadyMember(name, vlan)))
      && (reached && !facts.isMirrorDestination(name) && !IsMember(rows, name, vlan) && !KnownPort(name, facts) ==>
            c.out == Failed(NoSuchPort(name)))
      && (reached && !facts.isMirrorDestination(name) && !IsMember(rows, name, vlan) && KnownPort(name, facts) &&
          Routed(name, facts) ==>
            c.out == Failed(RouterInterface(name)))
      && (reached && !facts.isMirrorDestination(name) && !IsMember(rows, name, vlan) && KnownPort(name, facts) &&
          !Routed(name, facts) && Bundled(name, facts) ==>
            c.out == Failed(PortChannelMember(name)))
      && (reached && !facts.isMirrorDestination(name) && !IsMember(rows, name, vlan) && KnownPort(name, facts) &&
          !Routed(name, facts) && !Bundled(name, facts) && facts.isUntaggedMember(name) && untagged ==>
            c.out == Failed(AlreadyUntagged(name)))
      && (c.out.Done? <==> reached && PortAccepted(rows, vlan, name, untagged, facts))
      && (c.out.Done? ==> c.out == Done(Silent))
  {
  }

  /** `del_vlan_member` fails unless the VLAN exists and the resolved port
      is a member, each failure with its own message; otherwise it removes
      that one `VLAN_MEMBER` row and nothing else. */
  lemma DelMemberOutcome(rows: Rows, vid: int, port: string, facts: PortFacts)
    ensures
      var c := DelMemberChange(rows, vid, port, facts);
      var vlan := VlanName(vid);
      var resolved := ResolvePort(port, facts);
      var reached := InRange(vid) && VlanExists(rows, VLAN_TABLE, vlan) && resolved.Some?;
      && (!InRange(vid) ==> c.out == Failed(VlanIdOutOfRange(vid)))
      && (InRange(vid) && !VlanExists(rows, VLAN_TABLE, vlan) ==> c.out == Failed(NoSuchVlan(vlan)))
      && (InRange(vid) && VlanExists(rows, VLAN_TABLE, vlan) && resolved.None? ==> c.out == Failed(UnknownAlias(port)))
      && (reached && !IsMember(rows, resolved.value, vlan) ==> c.out == Failed(NotMember(resolved.value, vlan)))
      && (c.out.Done? <==> reached && IsMember(rows, resolved.value, vlan))
      && (c.out.Done? ==>
            && c.out == Done(Silent)
            && c.rows == rows - {RowId(VLAN_MEMBER_TABLE, Pair(vlan, resolved.value))}
            && !IsMember(c.rows, resolved.value, vlan)
            && c.writes == 1 && c.restarts == 0)
      && (!c.out.Done? ==> c.rows == rows && c.writes == 0 && c.restarts == 0)
  {
  }

  /** Adding a member and deleting it again, under the same naming mode
      and aliases, restores the store. */
  lemma AddMemberThenDelMemberRestores(rows: Rows, vid: int, port: string, untagged: bool, facts: PortFacts)
    requires AddMemberChange(rows, vid, port, untagged, facts).out.Done?
    ensures DelMemberChange(AddMemberChange(rows, vid, port, untagged, facts).rows, vid, port, facts).out.Done?
    ensures DelMemberChange(AddMemberChange(rows, vid, port, untagged, facts).rows, vid, port, facts).rows == rows
  {
    var vlan := VlanName(vid);
    var name := ResolvePort(port, facts).value;
    var id := RowId(VLAN_MEMBER_TABLE, Pair(vlan, name));
    var added := AddMemberChange(rows, vid, port, untagged, facts).rows;
    assert Entry(added, VLAN_TABLE, Name(vlan)) == Entry(rows, VLAN_TABLE, Name(vlan));
    assert id !in rows;
    assert added - {id} == rows;
  }

  /** While a port is a member, the VLAN cannot be deleted. */
  lemma MemberBlocksDelVlan(rows: Rows, vid: int, port: string, untagged: bool, facts: PortFacts, noRestart: bool, running: bool)
    requires AddMemberChange(rows, vid, port, untagged, facts).out.Done?
    ensures DelVlanChange(AddMemberChange(rows, vid, port, untagged, facts).rows, vid, noRestart, running).out.Failed?
  {
    var vlan := VlanName(vid);
    var name := ResolvePort(port, facts).value;
    var added := AddMemberChange(rows, vid, port, untagged, facts).rows;
    assert RowId(VLAN_MEMBER_TABLE, Pair(vlan, name)) in added;
    assert HasMembers(added, vlan);
    DependentsBlockDelVlan(added, vid, noRestart, running);
  }

  /** `add_vlan_member` on the store. */
  method AddVlanMember(db: ConfigDb, vid: int, port: string, untagged: bool, facts: PortFacts) returns (out: Outcome)
    modifies db
    ensures
      var c := AddMemberChange(old(db.rows), vid, port, untagged, facts);
      && out == c.out && db.rows == c.rows
      && db.writes == old(db.writes) + c.writes && db.restarts == old(db.restarts) + c.restarts
  {
    if !InRange(vid) {
      return Failed(VlanIdOutOfRange(vid));
    }
    var vlan := VlanName(vid);
    if Entry(db.rows, VLAN_TABLE, Name(vlan)) == map[] {
      return Failed(NoSuchVlan(vlan));
    }
    var name := port;
    if facts.aliasMode {
      var resolved := facts.aliasToName(port);
      if resolved.None? {
        return Failed(UnknownAlias(port));
      }
      name := resolved.value;
    }
    if facts.isMirrorDestination(name) {
      return Failed(MirrorDestination(name));
    }
    if IsMember(db.rows, name, vlan) {
      return Failed(AlreadyMember(name, vlan));
    }
    var isPort: bool;
    if facts.isPort(name) {
      isPort := true;
    } else if facts.isPortChannel(name) {
      isPort := false;
    } else {
      return Failed(NoSuchPort(name));
    }
    if (isPort && facts.isPortRouterInterface(name)) || (!isPort && facts.isPortChannelRouterInterface(name)) {
      return Failed(RouterInterface(name));
    }
    if isPort && facts.inPortChannel(name) {
      return Failed(PortChannelMember(name));
    }
    if facts.isUntaggedMember(name) && untagged {
      return Failed(AlreadyUntagged(name));
    }
    db.SetEntry(VLAN_MEMBER_TABLE, Pair(vlan, name), Some(map["tagging_mode" := Str(TaggingMode(untagged))]));
    out := Done(Silent);
  }

  /** `del_vlan_member` on the store. */
  method DelVlanMember(db: ConfigDb, vid: int, port: string, facts: PortFacts) returns (out: Outcome)
    modifies db
    ensures
      var c := DelMemberChange(old(db.rows), vid, port, facts);
      && out == c.out && db.rows == c.rows
      && db.writes == old(db.writes) + c.writes && db.restarts == old(db.restarts) + c.restarts
  {
    if !InRange(vid) {
      return Failed(VlanIdOutOfRange(vid));
    }
    var vlan := VlanName(vid);
    if Entry(db.rows, VLAN_TABLE, Name(vlan)) == map[] {
      return Failed(NoSuchVlan(vlan));
    }
    var name := port;
    if facts.aliasMode {
      var resolved := facts.aliasToName(port);
      if resolved.None? {
        return Failed(UnknownAlias(port));
      }
      name := resolved.value;
    }
    if !IsMember(db.rows, name, vlan) {
      return Failed(NotMember(name, vlan));
    }
    db.SetEntry(VLAN_MEMBER_TABLE, Pair(vlan, name), None);
    out := Done(Silent);
  }

  // ---------------------------------------------------------------- the legacy relay path

  /** The field of the `VLAN` row the legacy path edits for an address. */
  function LegacyField(ip: string, parse: string -> IpKind): string
  {
    if parse(ip) == Address(6) then DHCPV6_SERVERS else DHCPV4_SERVERS
  }

  /** `add_vlan_dhcp_relay_destination`: both address lists live in the
      `VLAN` row; the address goes to the list of its version. */
  function LegacyAddPlan(rows: Rows, vid: int, ip: string, parse: string -> IpKind): RelayPlan
  {
    var vlan := VlanName(vid);
    if parse(ip).NotAnAddress? then Reject(InvalidIp(ip))
    else
      var row := Entry(rows, VLAN_TABLE, Name(vlan));
      if row == map[] then Reject(NoSuchRow(vlan))
      else if ip in ServersOf(row, DHCPV4_SERVERS) + ServersOf(row, DHCPV6_SERVERS) then
        Keep(DestinationAlreadyConfigured(ip, vlan))
      else
        var field := LegacyField(ip, parse);
        Write(row[field := List(ServersOf(row, field) + [ip])], DestinationAdded(ip, vlan))
  }

  /** `del_vlan_dhcp_relay_destination`. Python's `list.remove` raises when
      the address sits only in the other version's list. */
  function LegacyDelPlan(rows: Rows, vid: int, ip: string, parse: string -> IpKind): RelayPlan
  {
    var vlan := VlanName(vid);
    if parse(ip).NotAnAddress? then Reject(InvalidIp(ip))
    else
      var row := Entry(rows, VLAN_TABLE, Name(vlan));
      if row == map[] then Reject(NoSuchRow(vlan))
      else if ip !in ServersOf(row, DHCPV4_SERVERS) + ServersOf(row, DHCPV6_SERVERS) then
        Reject(DestinationNotConfigured(ip, vlan))
      else
        var field := LegacyField(ip, parse);
        var servers := ServersOf(row, field);
        if ip !in servers then Crash(RemoveMissing)
        else
          var rest := RemoveFirst(servers, ip);
          Write(if rest == [] then row - {field} else row[field := List(rest)], DestinationRemoved(ip, vlan))
  }

  /** The legacy add writes exactly when the address parses, the row is
      non-empty and neither list holds the address; it then appends the
      address to the list of its version and leaves every other field,
      the other list included, as it was. */
  lemma LegacyAddOutcome(rows: Rows, vid: int, ip: string, parse: string -> IpKind)
    ensures
      var plan := LegacyAddPlan(rows, vid, ip, parse);
      var row := Entry(rows, VLAN_TABLE, Name(VlanName(vid)));
      var field := LegacyField(ip, parse);
      && (plan.Write? <==>
            parse(ip).Address? && row != map[] && ip !in ServersOf(row, DHCPV4_SERVERS) && ip !in ServersOf(row, DHCPV6_SERVERS))
      && (plan.Write? ==>
            && ServersOf(plan.row, field) == ServersOf(row, field) + [ip]
            && (forall f :: f in row && f != field ==> f in plan.row && plan.row[f] == row[f])
            && plan.row.Keys == row.Keys + {field})
      && (plan.Keep? <==>
            parse(ip).Address? && row != map[] && (ip in ServersOf(row, DHCPV4_SERVERS) || ip in ServersOf(row, DHCPV6_SERVERS)))
      && (parse(ip).NotAnAddress? ==> plan == Reject(InvalidIp(ip)))
      && (parse(ip).Address? && row == map[] ==> plan == Reject(NoSuchRow(VlanName(vid))))
      && (plan.Keep? ==> plan.message == DestinationAlreadyConfigured(ip, VlanName(vid)))
      && (plan.Write? ==> plan.message == DestinationAdded(ip, VlanName(vid)))
      && !plan.Crash?
  {
  }

  /** The legacy del removes one occurrence from the list of the
      address's version and drops that field when it empties; it dies
      exactly when the address is stored only in the other list. */
  lemma LegacyDelOutcome(rows: Rows, vid: int, ip: string, parse: string -> IpKind)
    ensures
      var plan := LegacyDelPlan(rows, vid, ip, parse);
      var row := Entry(rows, VLAN_TABLE, Name(VlanName(vid)));
      var field := LegacyField(ip, parse);
      var servers := ServersOf(row, field);
      && (plan.Crash? <==>
            && parse(ip).Address? && row != map[] && ip !in servers
            && (ip in ServersOf(row, DHCPV4_SERVERS) || ip in ServersOf(row, DHCPV6_SERVERS)))
      && (plan.Write? <==> parse(ip).Address? && row != map[] && ip in servers)
      && (parse(ip).NotAnAddress? ==> plan == Reject(InvalidIp(ip)))
      && (parse(ip).Address? && row == map[] ==> plan == Reject(NoSuchRow(VlanName(vid))))
      && (parse(ip).Address? && row != map[] && ip !in ServersOf(row, DHCPV4_SERVERS) && ip !in ServersOf(row, DHCPV6_SERVERS) ==>
            plan == Reject(DestinationNotConfigured(ip, VlanName(vid))))
      && (plan.Crash? ==> plan.message == RemoveMissing)
      && (plan.Write? ==> plan.message == DestinationRemoved(ip, VlanName(vid)))
      && !plan.Keep?
  {
    var plan := LegacyDelPlan(rows, vid, ip, parse);
    if plan.Write? {
      assert LegacyField(ip, parse) == DHCPV4_SERVERS || LegacyField(ip, parse) == DHCPV6_SERVERS;
    }
  }

  /** A legacy del that writes takes one copy of the address out of the
      list of its version, drops the field when that empties the list, and
      leaves every other field as it was. */
  lemma LegacyDelEffects(rows: Rows, vid: int, ip: string, parse: string -> IpKind)
    requires LegacyDelPlan(rows, vid, ip, parse).Write?
    ensures
      var plan := LegacyDelPlan(rows, vid, ip, parse);
      var row := Entry(rows, VLAN_TABLE, Name(VlanName(vid)));
      var field := LegacyField(ip, parse);
      var servers := ServersOf(row, field);
      && multiset(ServersOf(plan.row, field)) == multiset(servers) - multiset{ip}
      && (forall f :: f in row && f != field ==> f in plan.row && plan.row[f] == row[f])
      && (field in plan.row <==> |servers| > 1)
  {
    var row := Entry(rows, VLAN_TABLE, Name(VlanName(vid)));
    var field := LegacyField(ip, parse);
    var rest := RemoveFirst(ServersOf(row, field), ip);
    LegacyDelWrites(rows, vid, ip, parse, rest);
    RemovedFromField(row, field, ip);
  }

  lemma RemovedFromField(row: Row, field: string, ip: string)
    requires ip in ServersOf(row, field)
    ensures
      var servers := ServersOf(row, field);
      var rest := RemoveFirst(servers, ip);
      var written := if rest == [] then row - {field} else row[field := List(rest)];
      && multiset(ServersOf(written, field)) == multiset(servers) - multiset{ip}
      && (forall f :: f in row && f != field ==> f in written && written[f] == row[f])
      && (field in written <==> |servers| > 1)
  {
  }

  /** A legacy add followed by a legacy del of the same address restores
      the store, when the target field was absent or a non-empty list. */
  lemma LegacyAddThenDelRestores(rows: Rows, vid: int, ip: string, parse: string -> IpKind)
    requires LegacyAddPlan(rows, vid, ip, parse).Write?
    requires WellFormedList(Entry(rows, VLAN_TABLE, Name(VlanName(vid))), LegacyField(ip, parse))
    ensures
      var vlan := VlanName(vid);
      var added := ApplyPlan(rows, VLAN_TABLE, vlan, LegacyAddPlan(rows, vid, ip, parse));
      var del := LegacyDelPlan(added, vid, ip, parse);
      del.Write? && ApplyPlan(added, VLAN_TABLE, vlan, del) == rows
  {
    var vlan := VlanName(vid);
    var id := RowId(VLAN_TABLE, Name(vlan));
    var field := LegacyField(ip, parse);
    var stored := ServersOf(rows[id], field);
    LegacyAddWrites(rows, vid, ip, parse);
    var added := ApplyPlan(rows, VLAN_TABLE, vlan, LegacyAddPlan(rows, vid, ip, parse));
    RemoveFirstFromSuffix(stored, [ip], ip);
    LegacyDelWrites(added, vid, ip, parse, stored);
    RestoredRows(rows, id, field, stored + [ip]);
  }

  /** What a writing legacy add read and wrote. */
  lemma LegacyAddWrites(rows: Rows, vid: int, ip: string, parse: string -> IpKind)
    requires LegacyAddPlan(rows, vid, ip, parse).Write?
    ensures
      var id := RowId(VLAN_TABLE, Name(VlanName(vid)));
      var field := LegacyField(ip, parse);
      && parse(ip).Address? && id in rows
      && LegacyAddPlan(rows, vid, ip, parse).row == rows[id][field := List(ServersOf(rows[id], field) + [ip])]
  {
  }

  /** A legacy del of an address stored in the list of its version, with
      `rest` left after the removal, writes the row with `rest`, or without
      the field when `rest` is empty. */
  lemma LegacyDelWrites(rows: Rows, vid: int, ip: string, parse: string -> IpKind, rest: seq<string>)
    requires parse(ip).Address?
    requires Entry(rows, VLAN_TABLE, Name(VlanName(vid))) != map[]
    requires ip in ServersOf(Entry(rows, VLAN_TABLE, Name(VlanName(vid))), LegacyField(ip, parse))
    requires RemoveFirst(ServersOf(Entry(rows, VLAN_TABLE, Name(VlanName(vid))), LegacyField(ip, parse)), ip) == rest
    ensures
      var row := Entry(rows, VLAN_TABLE, Name(VlanName(vid)));
      var field := LegacyField(ip, parse);
      LegacyDelPlan(rows, vid, ip, parse) ==
        Write(if rest == [] then row - {field} else row[field := List(rest)], DestinationRemoved(ip, VlanName(vid)))
  {
    var row := Entry(rows, VLAN_TABLE, Name(VlanName(vid)));
    assert LegacyField(ip, parse) == DHCPV4_SERVERS || LegacyField(ip, parse) == DHCPV6_SERVERS;
  }

  /** `add_vlan_dhcp_relay_destination` on the store. */
  method LegacyAddDestination(db: ConfigDb, vid: int, ip: string, parse: string -> IpKind) returns (out: Outcome)
    modifies db
    ensures
      var plan := LegacyAddPlan(old(db.rows), vid, ip, parse);
      && out == plan.Result()
      && db.rows == ApplyPlan(old(db.rows), VLAN_TABLE, VlanName(vid), plan)
      && db.writes == old(db.writes) + plan.Effects()
      && db.restarts == old(db.restarts) + plan.Effects()
  {
    if parse(ip).NotAnAddress? {
      return Failed(InvalidIp(ip));
    }
    var vlan := VlanName(vid);
    var row := Entry(db.rows, VLAN_TABLE, Name(vlan));
    if row == map[] {
      return Failed(NoSuchRow(vlan));
    }
    var servers := ServersOf(row, DHCPV4_SERVERS);
    var servers6 := ServersOf(row, DHCPV6_SERVERS);
    if ip in servers + servers6 {
      return Done(DestinationAlreadyConfigured(ip, vlan));
    }
    if parse(ip) == Address(6) {
      row := row[DHCPV6_SERVERS := List(servers6 + [ip])];
    } else {
      row := row[DHCPV4_SERVERS := List(servers + [ip])];
    }
    db.SetEntry(VLAN_TABLE, Name(vlan), Some(row));
    out := Done(DestinationAdded(ip, vlan));
    db.RestartDhcpRelay();
  }

  /** `del_vlan_dhcp_relay_destination` on the store. */
  method LegacyDelDestination(db: ConfigDb, vid: int, ip: string, parse: string -> IpKind) returns (out: Outcome)
    modifies db
    ensures
      var plan := LegacyDelPlan(old(db.rows), vid, ip, parse);
      && out == plan.Result()
      && db.rows == ApplyPlan(old(db.rows), VLAN_TABLE, VlanName(vid), plan)
      && db.writes == old(db.writes) + plan.Effects()
      && db.restarts == old(db.restarts) + plan.Effects()
  {
    if parse(ip).NotAnAddress? {
      return Failed(InvalidIp(ip));
    }
    var vlan := VlanName(vid);
    var row := Entry(db.rows, VLAN_TABLE, Name(vlan));
    if row == map[] {
      return Failed(NoSuchRow(vlan));
    }
    if ip !in ServersOf(row, DHCPV4_SERVERS) + ServersOf(row, DHCPV6_SERVERS) {
      return Failed(DestinationNotConfigured(ip, vlan));
    }
    var field := LegacyField(ip, parse);
    var servers := ServersOf(row, field);
    if ip !in servers {
      return Aborted(RemoveMissing);
    }
    servers := RemoveFirst(servers, ip);
    var written := if servers == [] then row - {field} else row[field := List(servers)];
    db.SetEntry(VLAN_TABLE, Name(vlan), Some(written));
    out := Done(DestinationRemoved(ip, vlan));
    db.RestartDhcpRelay();
  }

  // ---------------------------------------------------------------- the store invariant

  /** Every command of this module keeps members and interfaces attached
      to an existing `VLAN` row. */
  lemma AddVlanKeepsAnchored(rows: Rows, vid: int)
    requires Anchored(rows)
    ensures Anchored(AddVlanChange(rows, vid).rows)
  {
  }

  /** `del_vlan` removes a `VLAN` row only when nothing is attached to it. */
  lemma DelVlanKeepsAnchored(rows: Rows, vid: int, noRestart: bool, running: bool)
    requires Anchored(rows)
    ensures Anchored(DelVlanChange(rows, vid, noRestart, running).rows)
  {
    var vlan := VlanName(vid);
    var c := DelVlanChange(rows, vid, noRestart, running);
    if c.out.Done? {
      forall id | id in c.rows && (id.table == VLAN_INTERFACE_TABLE || (id.table == VLAN_MEMBER_TABLE && id.key.Pair?))
        ensures RowId(VLAN_TABLE, Name(KeyVlan(id.key))) in c.rows
      {
        assert id in rows;
        assert KeyVlan(id.key) != vlan;
      }
    }
  }

  lemma ProxyArpKeepsAnchored(rows: Rows, vid: int, mode: ProxyArpMode)
    requires Anchored(rows)
    ensures Anchored(ProxyArpChange(rows, vid, mode).rows)
  {
  }

  /** A member is only added to a VLAN whose row is there. */
  lemma AddMemberKeepsAnchored(rows: Rows, vid: int, port: string, untagged: bool, facts: PortFacts)
    requires Anchored(rows)
    ensures Anchored(AddMemberChange(rows, vid, port, untagged, facts).rows)
  {
    var a := AddMemberChange(rows, vid, port, untagged, facts);
    if a.out.Done? {
      assert RowId(VLAN_TABLE, Name(VlanName(vid))) in rows;
    }
  }

  lemma DelMemberKeepsAnchored(rows: Rows, vid: int, port: string, facts: PortFacts)
    requires Anchored(rows)
    ensures Anchored(DelMemberChange(rows, vid, port, facts).rows)
  {
  }

  /** So does every relay-list edit, old or new: they only rewrite a row
      that is already there. */
  lemma RelayEditsKeepAnchored(rows: Rows, vid: int, ips: seq<string>, ip: string, ipVersion: int, parse: string -> IpKind)
    requires Anchored(rows)
    ensures Anchored(ApplyPlan(rows, TableAndField(ipVersion).0, VlanName(vid), AddRelayPlan(rows, vid, ips, ipVersion, parse)))
    ensures Anchored(ApplyPlan(rows, TableAndField(ipVersion).0, VlanName(vid), DelRelayPlan(rows, vid, ips, ipVersion, parse)))
    ensures Anchored(ApplyPlan(rows, VLAN_TABLE, VlanName(vid), LegacyAddPlan(rows, vid, ip, parse)))
    ensures Anchored(ApplyPlan(rows, VLAN_TABLE, VlanName(vid), LegacyDelPlan(rows, vid, ip, parse)))
  {
    var table := TableAndField(ipVersion).0;
    RewriteKeepsAnchored(rows, table, VlanName(vid), AddRelayPlan(rows, vid, ips, ipVersion, parse));
    RewriteKeepsAnchored(rows, table, VlanName(vid), DelRelayPlan(rows, vid, ips, ipVersion, parse));
    RewriteKeepsAnchored(rows, VLAN_TABLE, VlanName(vid), LegacyAddPlan(rows, vid, ip, parse));
    RewriteKeepsAnchored(rows, VLAN_TABLE, VlanName(vid), LegacyDelPlan(rows, vid, ip, parse));
  }

  lemma RewriteKeepsAnchored(rows: Rows, table: string, vlan: string, plan: RelayPlan)
    requires Anchored(rows)
    requires plan.Write? ==> RowId(table, Name(vlan)) in rows
    requires table == VLAN_TABLE || table == DHCP_RELAY_TABLE
    ensures Anchored(ApplyPlan(rows, table, vlan, plan))
  {
  }

  /** Deleting every IPv6 relay address of a VLAN, in any order, leaves its
      `DHCP_RELAY` row, but `is_dhcpv6_relay_config_exist` then answers a
      falsy `None`. */
  lemma EmptiedRelayIsFalsy(rows: Rows, vid: int, ips: seq<string>, parse: string -> IpKind)
    requires DelRelayPlan(rows, vid, ips, 6, parse).Write?
    requires multiset(ips) == multiset(ServersOf(Entry(rows, DHCP_RELAY_TABLE, Name(VlanName(vid))), DHCPV6_SERVERS))
    ensures
      var after := ApplyPlan(rows, DHCP_RELAY_TABLE, VlanName(vid), DelRelayPlan(rows, vid, ips, 6, parse));
      IsDhcpv6RelayConfigExist(after, VlanName(vid)).None?
  {
    DelPlanWritten(rows, vid, ips, 6, parse);
    RemoveAllEverything(ServersOf(Entry(rows, DHCP_RELAY_TABLE, Name(VlanName(vid))), DHCPV6_SERVERS), ips);
  }
}
