/** The read side of the relay configuration (`show dhcp_relay ...` and
    `show dhcprelay_helper ipv6`): a table as the store lists it, the
    per-VLAN helper column, and the grid of VLANs that have relay
    addresses. Only the rows and cells are modelled, not their layout. */
module RelayShow {
  import opened Text
  import opened Store
  import opened RelayConfig

  /** One row of a table as `get_table` returns it: its key and its fields. */
  datatype TableEntry = TableEntry(name: string, row: Row)

  /** A table as a dictionary: every key listed once. */
  predicate UniqueNames(table: seq<TableEntry>)
  {
    forall i, j :: 0 <= i < j < |table| ==> table[i].name != table[j].name
  }

  /** `get_table(table)`: the rows of `table`, in the order `order` in which
      the store lists its keys. */
  function TableOf(rows: Rows, table: string, order: seq<string>): (t: seq<TableEntry>)
    ensures |t| <= |order|
    ensures forall e :: e in t ==> e.name in order && RowId(table, Name(e.name)) in rows && e.row == rows[RowId(table, Name(e.name))]
    decreases |order|
  {
    if order == [] then []
    else
      var id := RowId(table, Name(order[0]));
      (if id in rows then [TableEntry(order[0], rows[id])] else []) + TableOf(rows, table, order[1..])
  }

  /** `table_data.get(vlan, {})`. */
  function RowNamed(table: seq<TableEntry>, vlan: string): Row
    decreases |table|
  {
    if table == [] then map[]
    else if table[0].name == vlan then table[0].row
    else RowNamed(table[1..], vlan)
  }

  /** `row.get(field)` on a list field: None when the field is absent. */
  function FieldList(row: Row, field: string): Option<seq<string>>
  {
    if field in row then Some(ServersOf(row, field)) else None
  }

  /** `get_data(table_data, vlan)`: the column of helper addresses printed
      under `vlan`, or None for the empty output. It always reads
      `dhcpv6_servers`, whatever table it was given. */
  function GetData(table: seq<TableEntry>, vlan: string): Option<seq<string>>
  {
    FieldList(RowNamed(table, vlan), DHCPV6_SERVERS)
  }

  /** Looking a key up in the listed table finds its row in the store, as
      long as the store lists that key. */
  lemma {:induction false} RowNamedOfTable(rows: Rows, table: string, order: seq<string>, vlan: string)
    ensures RowNamed(TableOf(rows, table, order), vlan) == if vlan in order then Entry(rows, table, Name(vlan)) else map[]
    decreases |order|
  {
    if order != [] {
      RowNamedOfTable(rows, table, order[1..], vlan);
      var id := RowId(table, Name(order[0]));
      var t := TableOf(rows, table, order);
      assert vlan in order <==> vlan == order[0] || vlan in order[1..];
      if id in rows {
        assert t[0] == TableEntry(order[0], rows[id]);
        assert t[1..] == TableOf(rows, table, order[1..]);
      } else {
        assert t == TableOf(rows, table, order[1..]);
      }
    }
  }

  /** `get_data` over `DHCP_RELAY` shows the stored IPv6 relay list of a
      listed VLAN, and the empty output when the VLAN has no row or the row
      no `dhcpv6_servers` field. */
  lemma GetDataReadsStore(rows: Rows, order: seq<string>, vlan: string)
    requires vlan in order
    ensures
      var row := Entry(rows, DHCP_RELAY_TABLE, Name(vlan));
      var shown := GetData(TableOf(rows, DHCP_RELAY_TABLE, order), vlan);
      && (shown.None? <==> DHCPV6_SERVERS !in row)
      && (shown.Some? ==> shown.value == ServersOf(row, DHCPV6_SERVERS))
  {
    RowNamedOfTable(rows, DHCP_RELAY_TABLE, order, vlan);
  }

  /** A listed table has one entry per key when the store lists each key once. */
  lemma {:induction false} TableOfUnique(rows: Rows, table: string, order: seq<string>)
    requires forall i, j :: 0 <= i < j < |order| ==> order[i] != order[j]
    ensures UniqueNames(TableOf(rows, table, order))
    decreases |order|
  {
    if order != [] {
      TableOfUnique(rows, table, order[1..]);
      assert order[0] !in order[1..];
    }
  }

  /** In a dictionary, looking up the key of an entry finds that entry. */
  lemma {:induction false} RowNamedUnique(table: seq<TableEntry>, i: int)
    requires UniqueNames(table) && 0 <= i < |table|
    ensures RowNamed(table, table[i].name) == table[i].row
    decreases |table|
  {
    if i > 0 {
      assert table[0].name != table[i].name;
      assert table[1..][i - 1] == table[i];
      RowNamedUnique(table[1..], i - 1);
    }
  }

  /** `show dhcprelay_helper ipv6` and `get_dhcp_relay` without header: one
      `get_data` column per key of the table, in key order. */
  function HelperColumns(table: seq<TableEntry>): (columns: seq<(string, Option<seq<string>>)>)
    ensures |columns| == |table|
    ensures UniqueNames(table) ==>
      forall i :: 0 <= i < |table| ==> columns[i] == (table[i].name, FieldList(table[i].row, DHCPV6_SERVERS))
  {
    var columns := seq(|table|, i requires 0 <= i < |table| => (table[i].name, GetData(table, table[i].name)));
    if UniqueNames(table) then
      assert forall i :: 0 <= i < |table| ==> columns[i].1 == FieldList(table[i].row, DHCPV6_SERVERS) by {
        forall i | 0 <= i < |table| {
          RowNamedUnique(table, i);
        }
      }
      columns
    else columns
  }

  /** One line of the relay grid: the VLAN and its addresses joined with
      line breaks. */
  datatype RelayRow = RelayRow(interface: string, addresses: string)

  /** `get_dhcp_relay_data_with_header(table_data, field)`: the VLANs whose
      `field` list is present and non-empty, in table order. */
  function RelayRows(table: seq<TableEntry>, field: string): (r: seq<RelayRow>)
    ensures |r| <= |table|
    decreases |table|
  {
    if table == [] then []
    else
      var list := ServersOf(table[0].row, field);
      (if list == [] then [] else [RelayRow(table[0].name, Join(list, "\n"))]) + RelayRows(table[1..], field)
  }

  /** `x` is the grid line of entry `i`: its key, and its non-empty list
      joined with line breaks. */
  predicate GridLineOf(table: seq<TableEntry>, field: string, i: int, x: RelayRow)
    requires 0 <= i < |table|
  {
    && x.interface == table[i].name
    && ServersOf(table[i].row, field) != []
    && x.addresses == Join(ServersOf(table[i].row, field), "\n")
  }

  /** Every grid line is an entry of the table with a non-empty list,
      shown as that list joined with line breaks. */
  lemma {:induction false} RelayRowsSound(table: seq<TableEntry>, field: string, x: RelayRow)
    requires x in RelayRows(table, field)
    ensures exists i :: 0 <= i < |table| && GridLineOf(table, field, i, x)
    decreases |table|
  {
    var list := ServersOf(table[0].row, field);
    if list == [] || x != RelayRow(table[0].name, Join(list, "\n")) {
      RelayRowsSound(table[1..], field, x);
      var i :| 0 <= i < |table[1..]| && GridLineOf(table[1..], field, i, x);
      assert table[1..][i] == table[i + 1];
      assert GridLineOf(table, field, i + 1, x);
    } else {
      assert GridLineOf(table, field, 0, x);
    }
  }

  /** Every entry with a non-empty list has its grid line. */
  lemma {:induction false} RelayRowsComplete(table: seq<TableEntry>, field: string, i: int)
    requires 0 <= i < |table| && ServersOf(table[i].row, field) != []
    ensures RelayRow(table[i].name, Join(ServersOf(table[i].row, field), "\n")) in RelayRows(table, field)
    decreases |table|
  {
    if i > 0 {
      assert table[1..][i - 1] == table[i];
      RelayRowsComplete(table[1..], field, i - 1);
    }
  }

  /** The grid keeps table order: a split table gives the grid of its first
      part followed by the grid of its second. */
  lemma {:induction false} RelayRowsAppend(a: seq<TableEntry>, b: seq<TableEntry>, field: string)
    ensures RelayRows(a + b, field) == RelayRows(a, field) + RelayRows(b, field)
    decreases |a|
  {
    if a == [] {
      assert a + b == b;
    } else {
      var t := a[1..];
      assert a + b == [a[0]] + (t + b);
      RelayRowsCons(a[0], t + b, field);
      RelayRowsAppend(t, b, field);
    }
  }

  /** The grid of a table with one more entry in front. */
  lemma RelayRowsCons(e: TableEntry, t: seq<TableEntry>, field: string)
    ensures RelayRows([e] + t, field) ==
      (if ServersOf(e.row, field) == [] then [] else [RelayRow(e.name, Join(ServersOf(e.row, field), "\n"))]) + RelayRows(t, field)
  {
    assert ([e] + t)[0] == e;
    assert ([e] + t)[1..] == t;
  }

  lemma UniqueNamesTail(table: seq<TableEntry>)
    requires UniqueNames(table) && table != []
    ensures UniqueNames(table[1..])
  {
    forall i, j | 0 <= i < j < |table[1..]| ensures table[1..][i].name != table[1..][j].name {
      assert table[1..][i] == table[i + 1] && table[1..][j] == table[j + 1];
    }
  }

  /** Over a dictionary the grid names each VLAN at most once. */
  lemma {:induction false} RelayRowsUnique(table: seq<TableEntry>, field: string)
    requires UniqueNames(table)
    ensures forall i, j :: 0 <= i < j < |RelayRows(table, field)| ==>
      RelayRows(table, field)[i].interface != RelayRows(table, field)[j].interface
    decreases |table|
  {
    if table != [] {
      var r := RelayRows(table, field);
      var rest := RelayRows(table[1..], field);
      UniqueNamesTail(table);
      RelayRowsUnique(table[1..], field);
      var list := ServersOf(table[0].row, field);
      if list == [] {
        assert r == rest;
      } else {
        assert r == [RelayRow(table[0].name, Join(list, "\n"))] + rest;
        forall i, j | 0 <= i < j < |r| ensures r[i].interface != r[j].interface {
          assert r[j] == rest[j - 1];
          if i == 0 {
            RelayRowsSound(table[1..], field, rest[j - 1]);
            var k :| 0 <= k < |table[1..]| && GridLineOf(table[1..], field, k, rest[j - 1]);
            assert table[1..][k] == table[k + 1];
          } else {
            assert r[i] == rest[i - 1];
          }
        }
      }
    }
  }

  /** A VLAN is in the grid exactly when its list is non-empty. */
  lemma {:induction false} RelayRowsListed(table: seq<TableEntry>, field: string, vlan: string)
    requires UniqueNames(table)
    ensures (exists x :: x in RelayRows(table, field) && x.interface == vlan)
        <==> ServersOf(RowNamed(table, vlan), field) != []
    decreases |table|
  {
    if table != [] {
      var r := RelayRows(table, field);
      var rest := RelayRows(table[1..], field);
      UniqueNamesTail(table);
      RelayRowsListed(table[1..], field, vlan);
      if table[0].name == vlan {
        assert forall x :: x in rest ==> x.interface != vlan by {
          forall x | x in rest ensures x.interface != vlan {
            RelayRowsSound(table[1..], field, x);
            var k :| 0 <= k < |table[1..]| && GridLineOf(table[1..], field, k, x);
            assert table[k + 1] == table[1..][k];
          }
        }
      } else {
        assert r == rest || r == [r[0]] + rest;
      }
    }
  }

  /** Splitting a grid cell on line breaks gives back the stored list, as
      long as no address holds a line break. */
  lemma CellSplitsBack(table: seq<TableEntry>, field: string, i: int)
    requires UniqueNames(table) && 0 <= i < |table|
    requires ServersOf(table[i].row, field) != []
    requires forall a :: a in ServersOf(table[i].row, field) ==> '\n' !in a
    ensures exists x :: x in RelayRows(table, field) && x.interface == table[i].name
    ensures forall x :: x in RelayRows(table, field) && x.interface == table[i].name ==>
      Split(x.addresses, '\n') == ServersOf(table[i].row, field)
  {
    var list := ServersOf(table[i].row, field);
    RelayRowsComplete(table, field, i);
    forall x | x in RelayRows(table, field) && x.interface == table[i].name
      ensures Split(x.addresses, '\n') == list
    {
      RelayRowsSound(table, field, x);
      var k :| 0 <= k < |table| && GridLineOf(table, field, k, x);
      assert k == i;
      SplitJoin(list, '\n');
    }
  }

  /** The two grid commands. */
  datatype Family = Ipv4Helper | Ipv6Destination

  /** The table and field each grid command reads: the same ones the
      `config dhcp_relay ipv4|ipv6` commands edit. */
  function ShownList(family: Family): (target: (string, string))
    ensures family.Ipv4Helper? ==> target == TableAndField(4)
    ensures family.Ipv6Destination? ==> target == TableAndField(6)
  {
    match family
    case Ipv4Helper => (VLAN_TABLE, DHCPV4_SERVERS)
    case Ipv6Destination => (DHCP_RELAY_TABLE, DHCPV6_SERVERS)
  }

  /** `show dhcp_relay ipv4 helper` / `show dhcp_relay ipv6 destination`. */
  function ShowRelays(rows: Rows, order: seq<string>, family: Family): seq<RelayRow>
  {
    RelayRows(TableOf(rows, ShownList(family).0, order), ShownList(family).1)
  }

  /** After a successful `config dhcp_relay ... add`, the VLAN is in the
      grid with what it held followed by the added addresses. */
  lemma ShownAfterAdd(rows: Rows, order: seq<string>, vid: int, ips: seq<string>, ipVersion: int, parse: string -> IpKind)
    requires ipVersion == 4 || ipVersion == 6
    requires AddRelayPlan(rows, vid, ips, ipVersion, parse).Write?
    requires VlanName(vid) in order && ips != []
    ensures
      var family := if ipVersion == 4 then Ipv4Helper else Ipv6Destination;
      var target := TableAndField(ipVersion);
      var stored := ServersOf(Entry(rows, target.0, Name(VlanName(vid))), target.1);
      var added := ApplyPlan(rows, target.0, VlanName(vid), AddRelayPlan(rows, vid, ips, ipVersion, parse));
      RelayRow(VlanName(vid), Join(stored + ips, "\n")) in ShowRelays(added, order, family)
  {
    var target := TableAndField(ipVersion);
    var vlan := VlanName(vid);
    var stored := ServersOf(Entry(rows, target.0, Name(vlan)), target.1);
    AddPlanWrites(rows, vid, ips, ipVersion, parse);
    AddScanDecides(stored, ips);
    var added := ApplyPlan(rows, target.0, vlan, AddRelayPlan(rows, vid, ips, ipVersion, parse));
    var t := TableOf(added, target.0, order);
    var e := TableEntry(vlan, added[RowId(target.0, Name(vlan))]);
    assert ServersOf(e.row, target.1) == stored + ips;
    TableOfContains(added, target.0, order, vlan);
    var k :| 0 <= k < |t| && t[k] == e;
    RelayRowsComplete(t, target.1, k);
  }

  /** After a `config dhcp_relay ... del` whose request names every stored
      address once, in any order, the VLAN leaves the grid. */
  lemma HiddenAfterDelAll(rows: Rows, order: seq<string>, vid: int, ips: seq<string>, ipVersion: int, parse: string -> IpKind)
    requires ipVersion == 4 || ipVersion == 6
    requires forall i, j :: 0 <= i < j < |order| ==> order[i] != order[j]
    requires DelRelayPlan(rows, vid, ips, ipVersion, parse).Write?
    requires multiset(ips) == multiset(ServersOf(Entry(rows, TableAndField(ipVersion).0, Name(VlanName(vid))), TableAndField(ipVersion).1))
    ensures
      var family := if ipVersion == 4 then Ipv4Helper else Ipv6Destination;
      var target := TableAndField(ipVersion);
      var after := ApplyPlan(rows, target.0, VlanName(vid), DelRelayPlan(rows, vid, ips, ipVersion, parse));
      forall x :: x in ShowRelays(after, order, family) ==> x.interface != VlanName(vid)
  {
    var target := TableAndField(ipVersion);
    var vlan := VlanName(vid);
    DelPlanWritten(rows, vid, ips, ipVersion, parse);
    Lists.RemoveAllEverything(ServersOf(Entry(rows, target.0, Name(vlan)), target.1), ips);
    var after := ApplyPlan(rows, target.0, vlan, DelRelayPlan(rows, vid, ips, ipVersion, parse));
    assert ServersOf(Entry(after, target.0, Name(vlan)), target.1) == [];
    var t := TableOf(after, target.0, order);
    TableOfUnique(after, target.0, order);
    RowNamedOfTable(after, target.0, order, vlan);
    RelayRowsListed(t, target.1, vlan);
  }

  lemma {:induction false} TableOfContains(rows: Rows, table: string, order: seq<string>, vlan: string)
    requires vlan in order && RowId(table, Name(vlan)) in rows
    ensures TableEntry(vlan, rows[RowId(table, Name(vlan))]) in TableOf(rows, table, order)
    decreases |order|
  {
    if order[0] != vlan {
      TableOfContains(rows, table, order[1..], vlan);
    }
  }
}
