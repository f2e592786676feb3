/** `config dhcp_relay ipv4 helper add|del` and
    `config dhcp_relay ipv6 destination add|del`: validated, all-or-nothing
    editing of a VLAN's list of DHCP relay addresses. IPv4 addresses live in
    the `dhcp_servers` field of the `VLAN` row, IPv6 addresses in the
    `dhcpv6_servers` field of the `DHCP_RELAY` row, both keyed `Vlan<vid>`.

    Each command is a pure decision (AddRelayPlan, DelRelayPlan) over the
    store as it was read, and an imperative method that scans the request
    the way the command does and is proved to carry that decision out. */
module RelayConfig {
  import opened Text
  import opened Lists
  import opened Store
  import opened Messages

  const DHCP_RELAY_TABLE := "DHCP_RELAY"
  const DHCPV6_SERVERS := "dhcpv6_servers"
  const VLAN_TABLE := "VLAN"
  const DHCPV4_SERVERS := "dhcp_servers"

  /** The key `Vlan<vid>`. */
  function VlanName(vid: int): string
  {
    "Vlan" + IntToString(vid)
  }

  /** Distinct VLAN ids name distinct rows. */
  lemma VlanNameInjective(a: int, b: int)
    ensures VlanName(a) == VlanName(b) <==> a == b
  {
    IntToStringInjective(a, b);
    if VlanName(a) == VlanName(b) {
      assert IntToString(a) == VlanName(a)[4..];
    }
  }

  /** Which table and field hold the list for an IP version. */
  function TableAndField(ipVersion: int): (target: (string, string))
    ensures ipVersion == 6 ==> target == (DHCP_RELAY_TABLE, DHCPV6_SERVERS)
    ensures ipVersion != 6 ==> target == (VLAN_TABLE, DHCPV4_SERVERS)
  {
    if ipVersion == 6 then (DHCP_RELAY_TABLE, DHCPV6_SERVERS) else (VLAN_TABLE, DHCPV4_SERVERS)
  }

  // ---------------------------------------------------------------- validation

  predicate Accepted(ip: string, ipVersion: int, parse: string -> IpKind)
  {
    parse(ip) == Address(ipVersion)
  }

  /** The failure for an address that is not accepted. */
  function Complaint(ip: string, ipVersion: int, parse: string -> IpKind): Message
  {
    if parse(ip).NotAnAddress? then InvalidIp(ip) else NotVersion(ip, ipVersion)
  }

  /** Position `i` holds the first address that is not accepted. */
  predicate FirstRejected(ips: seq<string>, ipVersion: int, parse: string -> IpKind, i: int)
  {
    0 <= i < |ips| && !Accepted(ips[i], ipVersion, parse) &&
    forall j :: 0 <= j < i ==> Accepted(ips[j], ipVersion, parse)
  }

  /** Checks every address in order; the first one that does not parse, or
      parses with the wrong version, decides the failure. */
  function ValidateIps(ips: seq<string>, ipVersion: int, parse: string -> IpKind): (err: Option<Message>)
    ensures err.None? <==> forall i :: 0 <= i < |ips| ==> Accepted(ips[i], ipVersion, parse)
    ensures err.Some? ==>
      exists i :: FirstRejected(ips, ipVersion, parse, i) && err.value == Complaint(ips[i], ipVersion, parse)
    decreases |ips|
  {
    if ips == [] then None
    else if !Accepted(ips[0], ipVersion, parse) then
      assert FirstRejected(ips, ipVersion, parse, 0);
      Some(Complaint(ips[0], ipVersion, parse))
    else
      var rest := ValidateIps(ips[1..], ipVersion, parse);
      assert rest.Some? ==>
        exists i :: FirstRejected(ips, ipVersion, parse, i) && rest.value == Complaint(ips[i], ipVersion, parse)
      by {
        if rest.Some? {
          var i :| FirstRejected(ips[1..], ipVersion, parse, i) && rest.value == Complaint(ips[1..][i], ipVersion, parse);
          forall j | 0 <= j < i + 1 ensures Accepted(ips[j], ipVersion, parse) {
            if j > 0 { assert ips[j] == ips[1..][j - 1]; }
          }
          assert FirstRejected(ips, ipVersion, parse, i + 1);
        }
      }
      assert rest.None? ==> forall i :: 0 <= i < |ips| ==> Accepted(ips[i], ipVersion, parse) by {
        if rest.None? {
          forall i | 0 <= i < |ips| ensures Accepted(ips[i], ipVersion, parse) {
            if i > 0 { assert ips[i] == ips[1..][i - 1]; }
          }
        }
      }
      rest
  }

  // ---------------------------------------------------------------- the add scan

  datatype AddVerdict = Append(servers: seq<string>) | DuplicateInAdd(ip: string) | AlreadyRelay(ip: string)

  /** The add loop: `servers` is the list built so far, `added` the
      addresses accepted so far, `rest` the addresses still to look at. */
  function AddScan(servers: seq<string>, added: seq<string>, rest: seq<string>): AddVerdict
    decreases |rest|
  {
    if rest == [] then Append(servers)
    else if rest[0] in added then DuplicateInAdd(rest[0])
    else if rest[0] in servers then AlreadyRelay(rest[0])
    else AddScan(servers + [rest[0]], added + [rest[0]], rest[1..])
  }

  /** One step of the add scan, for a request address that is new and not stored. */
  lemma AddScanUnfold(servers: seq<string>, added: seq<string>, rest: seq<string>)
    requires rest != [] && rest[0] !in added && rest[0] !in servers
    ensures AddScan(servers, added, rest) == AddScan(servers + [rest[0]], added + [rest[0]], rest[1..])
  {
  }

  /** Request position `j` is new: not earlier in the request, not stored. */
  predicate Addable(stored: seq<string>, ips: seq<string>, j: int)
    requires 0 <= j < |ips|
  {
    ips[j] !in ips[..j] && ips[j] !in stored
  }

  predicate AddablePrefix(stored: seq<string>, ips: seq<string>, k: int)
  {
    0 <= k <= |ips| && forall j :: 0 <= j < k ==> Addable(stored, ips, j)
  }

  /** Position `k` is the first one of the request that is not new. */
  predicate FirstAddConflict(stored: seq<string>, ips: seq<string>, k: int)
  {
    0 <= k < |ips| && AddablePrefix(stored, ips, k) && !Addable(stored, ips, k)
  }

  lemma {:induction false} AddScanFrom(stored: seq<string>, ips: seq<string>, i: int)
    requires AddablePrefix(stored, ips, i)
    ensures var v := AddScan(stored + ips[..i], ips[..i], ips[i..]);
      && (v.Append? <==> AddablePrefix(stored, ips, |ips|))
      && (v.Append? ==> v.servers == stored + ips)
      && (v.DuplicateInAdd? <==> exists k :: i <= k && FirstAddConflict(stored, ips, k) && ips[k] in ips[..k])
      && (v.AlreadyRelay? <==> exists k :: i <= k && FirstAddConflict(stored, ips, k) && ips[k] !in ips[..k])
      && (!v.Append? ==> exists k :: i <= k && FirstAddConflict(stored, ips, k) && v.ip == ips[k])
    decreases |ips| - i
  {
    var v := AddScan(stored + ips[..i], ips[..i], ips[i..]);
    if i == |ips| {
      assert ips[..i] == ips;
    } else {
      var x := ips[i];
      assert ips[i..][0] == x && ips[i..][1..] == ips[i + 1..];
      if x in ips[..i] || x in stored {
        assert FirstAddConflict(stored, ips, i);
      } else {
        assert x !in stored + ips[..i];
        assert Addable(stored, ips, i);
        assert ips[..i + 1] == ips[..i] + [x];
        assert stored + ips[..i + 1] == stored + ips[..i] + [x];
        AddScanFrom(stored, ips, i + 1);
        assert !FirstAddConflict(stored, ips, i);
      }
    }
  }

  /** The add scan decides exactly as the first position that is not new
      says: with none, the request is appended in order; otherwise that
      position's address is reported, as a duplicate when it occurred
      earlier in the request and as already stored when not. */
  lemma AddScanDecides(stored: seq<string>, ips: seq<string>)
    ensures var v := AddScan(stored, [], ips);
      && (v.Append? <==> NoDup(ips) && forall x :: x in ips ==> x !in stored)
      && (v.Append? ==> v.servers == stored + ips)
      && (v.DuplicateInAdd? <==> exists k :: FirstAddConflict(stored, ips, k) && ips[k] in ips[..k])
      && (v.AlreadyRelay? <==> exists k :: FirstAddConflict(stored, ips, k) && ips[k] !in ips[..k] && ips[k] in stored)
      && (!v.Append? ==> exists k :: FirstAddConflict(stored, ips, k) && v.ip == ips[k])
  {
    assert stored + ips[..0] == stored && ips[..0] == [] && ips[0..] == ips;
    AddScanFrom(stored, ips, 0);
    AddablePrefixNew(stored, ips);
  }

  lemma AddablePrefixNew(stored: seq<string>, ips: seq<string>)
    ensures AddablePrefix(stored, ips, |ips|) <==> NoDup(ips) && forall x :: x in ips ==> x !in stored
  {
    if AddablePrefix(stored, ips, |ips|) {
      forall i, j | 0 <= i < j < |ips| ensures ips[i] != ips[j] {
        assert Addable(stored, ips, j);
        assert ips[i] in ips[..j];
      }
      forall x | x in ips ensures x !in stored {
        var j :| 0 <= j < |ips| && ips[j] == x;
        assert Addable(stored, ips, j);
      }
    }
    if NoDup(ips) && forall x :: x in ips ==> x !in stored {
      forall j | 0 <= j < |ips| ensures Addable(stored, ips, j) {
        assert ips[j] in ips;
        forall i | 0 <= i < j ensures ips[..j][i] != ips[j] {}
      }
    }
  }

  // ---------------------------------------------------------------- the del scan

  datatype DelVerdict = Remaining(servers: seq<string>) | DuplicateInDel(ip: string) | NotRelay(ip: string)

  /** The del loop: `servers` is what is left so far, `removed` the
      addresses removed so far, `rest` the addresses still to look at. */
  function DelScan(servers: seq<string>, removed: seq<string>, rest: seq<string>): DelVerdict
    decreases |rest|
  {
    if rest == [] then Remaining(servers)
    else if rest[0] in removed then DuplicateInDel(rest[0])
    else if rest[0] !in servers then NotRelay(rest[0])
    else DelScan(RemoveFirst(servers, rest[0]), removed + [rest[0]], rest[1..])
  }

  /** One step of the del scan, for a request address that is new and stored. */
  lemma DelScanUnfold(servers: seq<string>, removed: seq<string>, rest: seq<string>)
    requires rest != [] && rest[0] !in removed && rest[0] in servers
    ensures DelScan(servers, removed, rest) == DelScan(RemoveFirst(servers, rest[0]), removed + [rest[0]], rest[1..])
  {
  }

  /** Request position `j` can be removed: not earlier in the request, and
      stored. */
  predicate Removable(stored: seq<string>, ips: seq<string>, j: int)
    requires 0 <= j < |ips|
  {
    ips[j] !in ips[..j] && ips[j] in stored
  }

  predicate RemovablePrefix(stored: seq<string>, ips: seq<string>, k: int)
  {
    0 <= k <= |ips| && forall j :: 0 <= j < k ==> Removable(stored, ips, j)
  }

  /** Position `k` is the first one of the request that cannot be removed. */
  predicate FirstDelConflict(stored: seq<string>, ips: seq<string>, k: int)
  {
    0 <= k < |ips| && RemovablePrefix(stored, ips, k) && !Removable(stored, ips, k)
  }

  /** One step of the del scan, seen from the whole request. */
  lemma DelScanStep(stored: seq<string>, ips: seq<string>, i: int)
    requires 0 <= i < |ips|
    ensures DelScan(RemoveAll(stored, ips[..i]), ips[..i], ips[i..]) ==
      if ips[i] in ips[..i] then DuplicateInDel(ips[i])
      else if ips[i] !in stored then NotRelay(ips[i])
      else DelScan(RemoveAll(stored, ips[..i + 1]), ips[..i + 1], ips[i + 1..])
  {
    var x := ips[i];
    assert ips[i..][0] == x && ips[i..][1..] == ips[i + 1..];
    assert ips[..i + 1] == ips[..i] + [x];
    if x !in ips[..i] {
      RemoveAllKeepsOthers(stored, ips[..i], x);
      RemoveAllSnoc(stored, ips[..i], x);
    }
  }

  lemma {:induction false} DelScanFrom(stored: seq<string>, ips: seq<string>, i: int)
    requires RemovablePrefix(stored, ips, i)
    ensures var v := DelScan(RemoveAll(stored, ips[..i]), ips[..i], ips[i..]);
      && (v.Remaining? <==> RemovablePrefix(stored, ips, |ips|))
      && (v.Remaining? ==> v.servers == RemoveAll(stored, ips))
      && (v.DuplicateInDel? <==> exists k :: i <= k && FirstDelConflict(stored, ips, k) && ips[k] in ips[..k])
      && (v.NotRelay? <==> exists k :: i <= k && FirstDelConflict(stored, ips, k) && ips[k] !in ips[..k])
      && (!v.Remaining? ==> exists k :: i <= k && FirstDelConflict(stored, ips, k) && v.ip == ips[k])
    decreases |ips| - i
  {
    if i == |ips| {
      assert ips[..i] == ips;
    } else {
      DelScanStep(stored, ips, i);
      if Removable(stored, ips, i) {
        DelScanFrom(stored, ips, i + 1);
        assert !FirstDelConflict(stored, ips, i);
      } else {
        assert FirstDelConflict(stored, ips, i);
      }
    }
  }

  /** The del scan decides exactly as the first position that cannot be
      removed says: with none, each requested address is removed once;
      otherwise that position's address is reported, as a duplicate when it
      occurred earlier in the request (checked first) and as not stored
      when not. */
  lemma DelScanDecides(stored: seq<string>, ips: seq<string>)
    ensures var v := DelScan(stored, [], ips);
      && (v.Remaining? <==> NoDup(ips) && forall x :: x in ips ==> x in stored)
      && (v.Remaining? ==> v.servers == RemoveAll(stored, ips))
      && (v.DuplicateInDel? <==> exists k :: FirstDelConflict(stored, ips, k) && ips[k] in ips[..k])
      && (v.NotRelay? <==> exists k :: FirstDelConflict(stored, ips, k) && ips[k] !in ips[..k] && ips[k] !in stored)
      && (!v.Remaining? ==> exists k :: FirstDelConflict(stored, ips, k) && v.ip == ips[k])
  {
    assert ips[..0] == [] && ips[0..] == ips;
    DelScanFrom(stored, ips, 0);
    RemovablePrefixStored(stored, ips);
  }

  lemma RemovablePrefixStored(stored: seq<string>, ips: seq<string>)
    ensures RemovablePrefix(stored, ips, |ips|) <==> NoDup(ips) && forall x :: x in ips ==> x in stored
  {
    if RemovablePrefix(stored, ips, |ips|) {
      forall i, j | 0 <= i < j < |ips| ensures ips[i] != ips[j] {
        assert Removable(stored, ips, j);
        assert ips[i] in ips[..j];
      }
      forall x | x in ips ensures x in stored {
        var j :| 0 <= j < |ips| && ips[j] == x;
        assert Removable(stored, ips, j);
      }
    }
    if NoDup(ips) && forall x :: x in ips ==> x in stored {
      forall j | 0 <= j < |ips| ensures Removable(stored, ips, j) {
        assert ips[j] in ips;
        forall i | 0 <= i < j ensures ips[..j][i] != ips[j] {}
      }
    }
  }

  /** What a successful del leaves: each requested address taken out once,
      counted with multiplicity; on a repetition-free list, exactly the
      addresses not requested, in their stored order. */
  lemma DelLeaves(stored: seq<string>, ips: seq<string>)
    requires NoDup(ips) && forall x :: x in ips ==> x in stored
    ensures multiset(RemoveAll(stored, ips)) + multiset(ips) == multiset(stored)
    ensures NoDup(stored) ==> RemoveAll(stored, ips) == FilterOut(stored, set x | x in ips)
  {
    NoDupMultisetIncluded(stored, ips);
    RemoveAllMultiset(stored, ips);
    if NoDup(stored) {
      RemoveAllNoDup(stored, ips);
    }
  }

  lemma {:induction false} NoDupMultisetIncluded(stored: seq<string>, ips: seq<string>)
    requires NoDup(ips) && forall x :: x in ips ==> x in stored
    ensures multiset(ips) <= multiset(stored)
  {
    forall x | x in multiset(ips) ensures multiset(ips)[x] <= multiset(stored)[x] {
      NoDupCountOne(ips, x);
      assert x in stored;
    }
  }

  lemma {:induction false} NoDupCountOne(s: seq<string>, x: string)
    requires NoDup(s)
    ensures multiset(s)[x] <= 1
    decreases |s|
  {
    if s != [] {
      assert s == [s[0]] + s[1..];
      assert NoDup(s[1..]);
      NoDupCountOne(s[1..], x);
      if s[0] == x {
        assert x !in s[1..];
      }
    }
  }

  /** Adding fresh addresses and deleting the same ones gives the list back. */
  lemma AddScanThenDelScan(stored: seq<string>, ips: seq<string>)
    requires AddScan(stored, [], ips).Append?
    ensures AddScan(stored, [], ips).servers == stored + ips
    ensures DelScan(stored + ips, [], ips) == Remaining(stored)
  {
    AddScanDecides(stored, ips);
    DelScanDecides(stored + ips, ips);
    RemoveAllAppended(stored, ips);
  }

  // ---------------------------------------------------------------- the commands

  /** What a command decided: fail, stop with a message and no write, write
      one row (then restart the relay service), or die of an exception. */
  datatype RelayPlan = Reject(message: Message) | Keep(message: Message) | Write(row: Row, message: Message) | Crash(message: Message)
  {
    function Result(): (out: Outcome)
      ensures out.message == message
      ensures out.Done? <==> Keep? || Write?
    {
      match this
      case Reject(m) => Failed(m)
      case Keep(m) => Done(m)
      case Write(_, m) => Done(m)
      case Crash(m) => Aborted(m)
    }

    /** Number of writes, and of relay restarts, the plan makes. */
    function Effects(): nat
    {
      if Write? then 1 else 0
    }
  }

  /** The store after carrying out a plan on row `RowId(table, Name(vlan))`. */
  function ApplyPlan(rows: Rows, table: string, vlan: string, plan: RelayPlan): Rows
  {
    if plan.Write? then rows[RowId(table, Name(vlan)) := plan.row] else rows
  }

  /** `add_dhcp_relay` as a decision over the store it reads. */
  function AddRelayPlan(rows: Rows, vid: int, ips: seq<string>, ipVersion: int, parse: string -> IpKind): RelayPlan
  {
    var table := TableAndField(ipVersion).0;
    var field := TableAndField(ipVersion).1;
    var vlan := VlanName(vid);
    var invalid := ValidateIps(ips, ipVersion, parse);
    if invalid.Some? then Reject(invalid.value)
    else
      var row := Entry(rows, table, Name(vlan));
      if row == map[] then Reject(NoSuchRow(vlan))
      else AddOutcome(row, field, vlan, ips, AddScan(ServersOf(row, field), [], ips))
  }

  /** What an add does once the scan of an existing row has decided. */
  function AddOutcome(row: Row, field: string, vlan: string, ips: seq<string>, verdict: AddVerdict): RelayPlan
  {
    match verdict
    case DuplicateInAdd(ip) => Reject(DuplicateRequest(ip, "add"))
    case AlreadyRelay(ip) => Keep(AlreadyConfigured(ip, vlan))
    case Append(servers) => Write(row[field := List(servers)], RelaysAdded(ips, vlan))
  }

  /** `del_dhcp_relay` as a decision over the store it reads. */
  function DelRelayPlan(rows: Rows, vid: int, ips: seq<string>, ipVersion: int, parse: string -> IpKind): RelayPlan
  {
    var table := TableAndField(ipVersion).0;
    var field := TableAndField(ipVersion).1;
    var vlan := VlanName(vid);
    var invalid := ValidateIps(ips, ipVersion, parse);
    if invalid.Some? then Reject(invalid.value)
    else
      var row := Entry(rows, table, Name(vlan));
      if row == map[] then Reject(NoSuchRow(vlan))
      else DelOutcome(row, field, vlan, ips, DelScan(ServersOf(row, field), [], ips))
  }

  /** What a del does once the scan of an existing row has decided. */
  function DelOutcome(row: Row, field: string, vlan: string, ips: seq<string>, verdict: DelVerdict): RelayPlan
  {
    match verdict
    case DuplicateInDel(ip) => Reject(DuplicateRequest(ip, "del"))
    case NotRelay(ip) => Reject(NotConfigured(ip, vlan))
    case Remaining(servers) =>
      if servers == [] && field !in row then Crash(DeleteMissing(field))
      else Write(if servers == [] then row - {field} else row[field := List(servers)], RelaysRemoved(ips, vlan))
  }

  /** Everything an add can end in, in the order the command checks. */
  lemma AddRelayDecision(rows: Rows, vid: int, ips: seq<string>, ipVersion: int, parse: string -> IpKind)
    ensures
      var plan := AddRelayPlan(rows, vid, ips, ipVersion, parse);
      var field := TableAndField(ipVersion).1;
      var vlan := VlanName(vid);
      var row := Entry(rows, TableAndField(ipVersion).0, Name(vlan));
      var stored := ServersOf(row, field);
      var valid := ValidateIps(ips, ipVersion, parse).None?;
      && (!valid ==>
            && plan.Reject?
            && exists i :: FirstRejected(ips, ipVersion, parse, i) && plan.message == Complaint(ips[i], ipVersion, parse))
      && (valid && row == map[] ==> plan == Reject(NoSuchRow(vlan)))
      && (plan.Write? <==> valid && row != map[] && NoDup(ips) && forall x :: x in ips ==> x !in stored)
      && (plan.Write? ==> plan.row == row[field := List(stored + ips)] && plan.message == RelaysAdded(ips, vlan))
      && (valid && row != map[] && !plan.Write? ==>
            exists k :: FirstAddConflict(stored, ips, k) &&
              if ips[k] in ips[..k]
              then plan == Reject(DuplicateRequest(ips[k], "add"))
              else plan == Keep(AlreadyConfigured(ips[k], vlan)))
      && !plan.Crash?
  {
    var field := TableAndField(ipVersion).1;
    var row := Entry(rows, TableAndField(ipVersion).0, Name(VlanName(vid)));
    AddScanDecides(ServersOf(row, field), ips);
  }

  /** Everything a del can end in, in the order the command checks. */
  lemma DelRelayDecision(rows: Rows, vid: int, ips: seq<string>, ipVersion: int, parse: string -> IpKind)
    ensures
      var plan := DelRelayPlan(rows, vid, ips, ipVersion, parse);
      var field := TableAndField(ipVersion).1;
      var vlan := VlanName(vid);
      var row := Entry(rows, TableAndField(ipVersion).0, Name(vlan));
      var stored := ServersOf(row, field);
      var valid := ValidateIps(ips, ipVersion, parse).None?;
      var rest := RemoveAll(stored, ips);
      && (!valid ==>
            && plan.Reject?
            && exists i :: FirstRejected(ips, ipVersion, parse, i) && plan.message == Complaint(ips[i], ipVersion, parse))
      && (valid && row == map[] ==> plan == Reject(NoSuchRow(vlan)))
      && (plan.Write? <==> valid && row != map[] && NoDup(ips) && (forall x :: x in ips ==> x in stored) && (ips == [] ==> field in row))
      && (plan.Crash? <==> valid && row != map[] && ips == [] && field !in row)
      && (plan.Crash? ==> plan.message == DeleteMissing(field))
      && (plan.Write? ==>
            && plan.message == RelaysRemoved(ips, vlan)
            && (rest == [] ==> plan.row == row - {field})
            && (rest != [] ==> plan.row == row[field := List(rest)])
            && multiset(rest) + multiset(ips) == multiset(stored)
            && (NoDup(stored) ==> rest == FilterOut(stored, set x | x in ips)))
      && (valid && row != map[] && !plan.Write? && !plan.Crash? ==>
            exists k :: FirstDelConflict(stored, ips, k) &&
              if ips[k] in ips[..k]
              then plan == Reject(DuplicateRequest(ips[k], "del"))
              else plan == Reject(NotConfigured(ips[k], vlan)))
      && !plan.Keep?
  {
    var field := TableAndField(ipVersion).1;
    var row := Entry(rows, TableAndField(ipVersion).0, Name(VlanName(vid)));
    var stored := ServersOf(row, field);
    if ValidateIps(ips, ipVersion, parse).None? && row != map[] {
      var v := DelScan(stored, [], ips);
      assert DelRelayPlan(rows, vid, ips, ipVersion, parse) == DelOutcome(row, field, VlanName(vid), ips, v);
      DelScanDecides(stored, ips);
      if v.Remaining? {
        DelLeaves(stored, ips);
      }
    }
  }

  /** A relay field as the store keeps it: absent, or a non-empty list. */
  predicate WellFormedList(row: Row, field: string)
  {
    field !in row || (row[field].List? && row[field].items != [])
  }

  /** Adding addresses and then deleting the same addresses restores the
      store exactly: the list, the field's absence, and every other row. */
  lemma AddThenDelRestores(rows: Rows, vid: int, ips: seq<string>, ipVersion: int, parse: string -> IpKind)
    requires AddRelayPlan(rows, vid, ips, ipVersion, parse).Write?
    requires WellFormedList(Entry(rows, TableAndField(ipVersion).0, Name(VlanName(vid))), TableAndField(ipVersion).1)
    ensures
      var table := TableAndField(ipVersion).0;
      var vlan := VlanName(vid);
      var added := ApplyPlan(rows, table, vlan, AddRelayPlan(rows, vid, ips, ipVersion, parse));
      var del := DelRelayPlan(added, vid, ips, ipVersion, parse);
      del.Write? && ApplyPlan(added, table, vlan, del) == rows
  {
    var table := TableAndField(ipVersion).0;
    var field := TableAndField(ipVersion).1;
    var vlan := VlanName(vid);
    var row := Entry(rows, table, Name(vlan));
    var stored := ServersOf(row, field);
    AddPlanWrites(rows, vid, ips, ipVersion, parse);
    AddScanThenDelScan(stored, ips);
    var added := ApplyPlan(rows, table, vlan, AddRelayPlan(rows, vid, ips, ipVersion, parse));
    DelPlanWrites(added, vid, ips, ipVersion, parse, stored);
    RestoredRows(rows, RowId(table, Name(vlan)), field, stored + ips);
  }

  /** What a writing add plan read and wrote. */
  lemma AddPlanWrites(rows: Rows, vid: int, ips: seq<string>, ipVersion: int, parse: string -> IpKind)
    requires AddRelayPlan(rows, vid, ips, ipVersion, parse).Write?
    ensures
      var field := TableAndField(ipVersion).1;
      var row := Entry(rows, TableAndField(ipVersion).0, Name(VlanName(vid)));
      var v := AddScan(ServersOf(row, field), [], ips);
      && ValidateIps(ips, ipVersion, parse).None? && row != map[] && v.Append?
      && AddRelayPlan(rows, vid, ips, ipVersion, parse).row == row[field := List(v.servers)]
  {
  }

  /** What a writing del plan read and wrote. */
  lemma DelPlanWritten(rows: Rows, vid: int, ips: seq<string>, ipVersion: int, parse: string -> IpKind)
    requires DelRelayPlan(rows, vid, ips, ipVersion, parse).Write?
    ensures
      var field := TableAndField(ipVersion).1;
      var row := Entry(rows, TableAndField(ipVersion).0, Name(VlanName(vid)));
      var rest := RemoveAll(ServersOf(row, field), ips);
      && ValidateIps(ips, ipVersion, parse).None? && row != map[]
      && DelRelayPlan(rows, vid, ips, ipVersion, parse).row == if rest == [] then row - {field} else row[field := List(rest)]
  {
    var field := TableAndField(ipVersion).1;
    var row := Entry(rows, TableAndField(ipVersion).0, Name(VlanName(vid)));
    DelScanRemaining(ServersOf(row, field), ips);
  }

  lemma DelScanRemaining(stored: seq<string>, ips: seq<string>)
    requires DelScan(stored, [], ips).Remaining?
    ensures DelScan(stored, [], ips).servers == RemoveAll(stored, ips)
  {
    DelScanDecides(stored, ips);
  }

  /** A del plan whose scan leaves `rest` writes the row with `rest`, or
      without the field when `rest` is empty and the field is there to
      drop. */
  lemma DelPlanWrites(rows: Rows, vid: int, ips: seq<string>, ipVersion: int, parse: string -> IpKind, rest: seq<string>)
    requires ValidateIps(ips, ipVersion, parse).None?
    requires Entry(rows, TableAndField(ipVersion).0, Name(VlanName(vid))) != map[]
    requires DelScan(ServersOf(Entry(rows, TableAndField(ipVersion).0, Name(VlanName(vid))), TableAndField(ipVersion).1), [], ips) == Remaining(rest)
    requires rest != [] || TableAndField(ipVersion).1 in Entry(rows, TableAndField(ipVersion).0, Name(VlanName(vid)))
    ensures
      var field := TableAndField(ipVersion).1;
      var row := Entry(rows, TableAndField(ipVersion).0, Name(VlanName(vid)));
      DelRelayPlan(rows, vid, ips, ipVersion, parse) ==
        Write(if rest == [] then row - {field} else row[field := List(rest)], RelaysRemoved(ips, VlanName(vid)))
  {
  }

  /** Growing a well-formed list field and then putting back the list
      that was read (dropping the field if that list was empty) restores
      the store. */
  lemma RestoredRows(rows: Rows, id: RowId, field: string, grown: seq<string>)
    requires id in rows && WellFormedList(rows[id], field)
    ensures
      var row := rows[id];
      var stored := ServersOf(row, field);
      var bigger := row[field := List(grown)];
      rows[id := bigger][id := if stored == [] then bigger - {field} else bigger[field := List(stored)]] == rows
  {
    var row := rows[id];
    var bigger := row[field := List(grown)];
    if ServersOf(row, field) == [] {
      assert bigger - {field} == row;
    } else {
      assert bigger[field := List(ServersOf(row, field))] == row;
    }
  }

  /** Two successful adds in a row store the first request, then the
      second, after what was there. */
  lemma AddTwiceAppendsInOrder(rows: Rows, vid: int, a: seq<string>, b: seq<string>, ipVersion: int, parse: string -> IpKind)
    requires AddRelayPlan(rows, vid, a, ipVersion, parse).Write?
    requires AddRelayPlan(ApplyPlan(rows, TableAndField(ipVersion).0, VlanName(vid), AddRelayPlan(rows, vid, a, ipVersion, parse)),
                          vid, b, ipVersion, parse).Write?
    ensures
      var table := TableAndField(ipVersion).0;
      var field := TableAndField(ipVersion).1;
      var vlan := VlanName(vid);
      var first := ApplyPlan(rows, table, vlan, AddRelayPlan(rows, vid, a, ipVersion, parse));
      var second := ApplyPlan(first, table, vlan, AddRelayPlan(first, vid, b, ipVersion, parse));
      ServersOf(Entry(second, table, Name(vlan)), field) == ServersOf(Entry(rows, table, Name(vlan)), field) + a + b
  {
    var table := TableAndField(ipVersion).0;
    var vlan := VlanName(vid);
    AddRelayDecision(rows, vid, a, ipVersion, parse);
    var first := ApplyPlan(rows, table, vlan, AddRelayPlan(rows, vid, a, ipVersion, parse));
    AddRelayDecision(first, vid, b, ipVersion, parse);
  }

  /** The loop of `add_dhcp_relay`: append each requested address to the
      stored list, stopping at the first one already requested or already
      stored. */
  method AppendRequested(stored: seq<string>, ips: seq<string>) returns (verdict: AddVerdict)
    ensures verdict == AddScan(stored, [], ips)
  {
    var servers := stored;
    var added: seq<string> := [];
    var i := 0;
    while i < |ips|
      invariant 0 <= i <= |ips|
      invariant AddScan(servers, added, ips[i..]) == AddScan(stored, [], ips)
    {
      var ip := ips[i];
      if ip in added {
        return DuplicateInAdd(ip);
      }
      if ip in servers {
        return AlreadyRelay(ip);
      }
      AddScanUnfold(servers, added, ips[i..]);
      servers := servers + [ip];
      added := added + [ip];
      i := i + 1;
    }
    return Append(servers);
  }

  /** `add_dhcp_relay`: validate, read the row, scan the request, then
      write the row once and request one restart. */
  method AddDhcpRelay(db: ConfigDb, vid: int, ips: seq<string>, ipVersion: int, parse: string -> IpKind)
    returns (out: Outcome)
    modifies db
    ensures
      var plan := AddRelayPlan(old(db.rows), vid, ips, ipVersion, parse);
      && out == plan.Result()
      && db.rows == ApplyPlan(old(db.rows), TableAndField(ipVersion).0, VlanName(vid), plan)
      && db.writes == old(db.writes) + plan.Effects()
      && db.restarts == old(db.restarts) + plan.Effects()
  {
    var table := TableAndField(ipVersion).0;
    var field := TableAndField(ipVersion).1;
    var vlan := VlanName(vid);
    var invalid := ValidateIps(ips, ipVersion, parse);
    if invalid.Some? {
      return Failed(invalid.value);
    }
    var row := Entry(db.rows, table, Name(vlan));
    if row == map[] {
      return Failed(NoSuchRow(vlan));
    }
    var verdict := AppendRequested(ServersOf(row, field), ips);
    match verdict
    case DuplicateInAdd(ip) =>
      out := Failed(DuplicateRequest(ip, "add"));
    case AlreadyRelay(ip) =>
      out := Done(AlreadyConfigured(ip, vlan));
    case Append(servers) =>
      db.SetEntry(table, Name(vlan), Some(row[field := List(servers)]));
      db.RestartDhcpRelay();
      out := Done(RelaysAdded(ips, vlan));
  }

  /** The loop of `del_dhcp_relay`: remove one occurrence of each requested
      address from the stored list, stopping at the first one already
      requested or not stored. */
  method RemoveRequested(stored: seq<string>, ips: seq<string>) returns (verdict: DelVerdict)
    ensures verdict == DelScan(stored, [], ips)
  {
    var servers := stored;
    var removed: seq<string> := [];
    var i := 0;
    while i < |ips|
      invariant 0 <= i <= |ips|
      invariant DelScan(servers, removed, ips[i..]) == DelScan(stored, [], ips)
    {
      var ip := ips[i];
      if ip in removed {
        return DuplicateInDel(ip);
      }
      if ip !in servers {
        return NotRelay(ip);
      }
      DelScanUnfold(servers, removed, ips[i..]);
      servers := RemoveFirst(servers, ip);
      removed := removed + [ip];
      i := i + 1;
    }
    return Remaining(servers);
  }

  /** `del_dhcp_relay`: validate, read the row, scan the request, then drop
      the field if the list emptied, write the row once and request one
      restart. */
  method DelDhcpRelay(db: ConfigDb, vid: int, ips: seq<string>, ipVersion: int, parse: string -> IpKind)
    returns (out: Outcome)
    modifies db
    ensures
      var plan := DelRelayPlan(old(db.rows), vid, ips, ipVersion, parse);
      && out == plan.Result()
      && db.rows == ApplyPlan(old(db.rows), TableAndField(ipVersion).0, VlanName(vid), plan)
      && db.writes == old(db.writes) + plan.Effects()
      && db.restarts == old(db.restarts) + plan.Effects()
  {
    var table := TableAndField(ipVersion).0;
    var field := TableAndField(ipVersion).1;
    var vlan := VlanName(vid);
    var invalid := ValidateIps(ips, ipVersion, parse);
    if invalid.Some? {
      return Failed(invalid.value);
    }
    var row := Entry(db.rows, table, Name(vlan));
    if row == map[] {
      return Failed(NoSuchRow(vlan));
    }
    var verdict := RemoveRequested(ServersOf(row, field), ips);
    match verdict
    case DuplicateInDel(ip) =>
      out := Failed(DuplicateRequest(ip, "del"));
    case NotRelay(ip) =>
      out := Failed(NotConfigured(ip, vlan));
    case Remaining(servers) =>
      if servers == [] && field !in row {
        out := Aborted(DeleteMissing(field));
      } else {
        var written := if servers == [] then row - {field} else row[field := List(servers)];
        db.SetEntry(table, Name(vlan), Some(written));
        db.RestartDhcpRelay();
        out := Done(RelaysRemoved(ips, vlan));
      }
  }
}
