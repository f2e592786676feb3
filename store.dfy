/** The two external stores the commands read and write, reduced to what the
    commands observe of them:
    - the configuration store (rows of named tables, each row a map from
      field name to a string or a list of strings), together with counters
      of the writes made to it and of the DHCP relay service restarts the
      commands request;
    - the state store (keys in the order the store lists them, each key
      holding a map from field name to string).
    Also the outcome of a command and the result of parsing an address. */
module Store {
  import opened Lists
  import opened Messages

  datatype Option<T> = None | Some(value: T)

  /** A configuration-store key: a plain name (`Vlan1000`) or a pair
      (`("Vlan1000", "Ethernet4")`, as in `VLAN_MEMBER`). */
  datatype Key = Name(name: string) | Pair(first: string, second: string)

  /** A field value: a string, or a list of strings (the `@` fields). */
  datatype Value = Str(s: string) | List(items: seq<string>)

  type Row = map<string, Value>

  /** A row's address: table name and key. */
  datatype RowId = RowId(table: string, key: Key)

  type Rows = map<RowId, Row>

  /** How a command ends: `Done` exits 0 with its message, `Failed` is a
      usage error (exit 2) with its message, `Aborted` an uncaught exception
      (exit 1). */
  datatype Outcome = Done(message: Message) | Failed(message: Message) | Aborted(message: Message)
  {
    function ExitCode(): (code: int)
      ensures code == 0 <==> Done?
    {
      match this
      case Done(_) => 0
      case Failed(_) => 2
      case Aborted(_) => 1
    }
  }

  /** What parsing a string as an IP address yields: not an address, or an
      address of IP version 4 or 6. */
  datatype IpKind = NotAnAddress | Address(version: int)

  /** The store's `get_entry(table, key)`: the row, or an empty row when
      there is none. */
  function Entry(rows: Rows, table: string, key: Key): Row
  {
    if RowId(table, key) in rows then rows[RowId(table, key)] else map[]
  }

  /** `row.get(field, [])` for a list field. A field holding a plain string
      is read as the empty list. */
  function ServersOf(row: Row, field: string): seq<string>
  {
    if field in row && row[field].List? then row[field].items else []
  }

  /** The configuration store of one command run. `writes` counts
      `set_entry`/`mod_entry` calls and `restarts` counts requests to
      restart the DHCP relay service. */
  class ConfigDb {
    var rows: Rows
    ghost var writes: nat
    ghost var restarts: nat

    /** `set_entry(table, key, None)` deletes the row; any dictionary,
        even an empty one, becomes the row. */
    method SetEntry(table: string, key: Key, row: Option<Row>)
      modifies this
      ensures row.None? ==> rows == old(rows) - {RowId(table, key)}
      ensures row.Some? ==> rows == old(rows)[RowId(table, key) := row.value]
      ensures writes == old(writes) + 1 && restarts == old(restarts)
    {
      if row.None? {
        rows := rows - {RowId(table, key)};
      } else {
        rows := rows[RowId(table, key) := row.value];
      }
      writes := writes + 1;
    }

    /** `mod_entry(table, key, fields)`: sets the given fields and keeps
        the others. */
    method ModEntry(table: string, key: Key, updates: Row)
      modifies this
      ensures rows == old(rows)[RowId(table, key) := Entry(old(rows), table, key) + updates]
      ensures writes == old(writes) + 1 && restarts == old(restarts)
    {
      rows := rows[RowId(table, key) := Entry(rows, table, key) + updates];
      writes := writes + 1;
    }

    /** A request to restart the DHCP relay service. */
    method RestartDhcpRelay()
      modifies this
      ensures rows == old(rows) && writes == old(writes)
      ensures restarts == old(restarts) + 1
    {
      restarts := restarts + 1;
    }
  }

  /** The state store: `keys` lists every key once, in the order the store
      reports them; `fields` holds each key's field map. */
  class StateDb {
    var keys: seq<string>
    var fields: map<string, map<string, string>>

    ghost predicate Valid()
      reads this
    {
      NoDup(keys) && forall k :: k in fields <==> k in keys
    }

    /** The store's `get(key, field)`: absent fields read as None. */
    function Get(key: string, field: string): Option<string>
      reads this
    {
      Lookup(fields, key, field)
    }

    /** The store's `set(key, field, value)`; a new key is listed last. */
    method Set(key: string, field: string, value: string)
      requires Valid()
      modifies this
      ensures Valid()
      ensures fields == old(fields)[key := FieldsAt(old(fields), key)[field := value]]
      ensures keys == if key in old(fields) then old(keys) else old(keys) + [key]
    {
      if key !in fields {
        keys := keys + [key];
      }
      fields := fields[key := FieldsAt(fields, key)[field := value]];
    }

    /** The store's `delete(key)`. */
    method Delete(key: string)
      requires Valid()
      modifies this
      ensures Valid()
      ensures fields == old(fields) - {key}
      ensures keys == FilterOut(old(keys), {key})
    {
      FilterOutNoDup(keys, {key});
      keys := FilterOut(keys, {key});
      fields := fields - {key};
    }
  }

  /** The field map of `key`, empty when the key is absent. */
  function FieldsAt(fields: map<string, map<string, string>>, key: string): map<string, string>
  {
    if key in fields then fields[key] else map[]
  }

  /** The state-store table of per-interface DHCPv6 counters. */
  const COUNTER_TABLE := "DHCPv6_COUNTER_TABLE"

  /** The state-store key of one interface's counters. */
  function CounterKey(intf: string): string
  {
    COUNTER_TABLE + "|" + intf
  }

  function Lookup(fields: map<string, map<string, string>>, key: string, field: string): Option<string>
  {
    if key in fields && field in fields[key] then Some(fields[key][field]) else None
  }
}
