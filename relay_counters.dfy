/** The DHCPv6 relay counters in the state store: which interfaces have
    counters, the twelve message counts of one interface, and resetting
    them to zero (`show dhcp6relay_counters counts`, `show dhcp_relay ipv6
    counters`, `clear dhcp6relay_counters`). Both command files hold the
    same counter code; it is modelled once here. */
module RelayCounters {
  import opened Text
  import opened Lists
  import opened Store
  import opened Messages

  /** The DHCPv6 message types counted, in the order they are shown. */
  const MESSAGES: seq<string> := ["Unknown", "Solicit", "Advertise", "Request", "Confirm", "Renew",
                                  "Rebind", "Reply", "Release", "Decline", "Relay-Forward", "Relay-Reply"]

  /** How many leading characters of a counter key interface listing drops. */
  const PREFIX_LENGTH: nat := 21

  lemma MessagesDistinct()
    ensures |MESSAGES| == 12 && NoDup(MESSAGES)
  {
  }

  /** The dropped prefix is exactly `DHCPv6_COUNTER_TABLE|`, so listing
      recovers the interface from its counter key. */
  lemma CounterKeyRoundTrip(intf: string)
    ensures Contains(CounterKey(intf), COUNTER_TABLE)
    ensures DropPrefix(CounterKey(intf), PREFIX_LENGTH) == intf
  {
    assert |COUNTER_TABLE + "|"| == PREFIX_LENGTH;
    assert OccursAt(CounterKey(intf), COUNTER_TABLE, 0);
    assert CounterKey(intf)[PREFIX_LENGTH..] == intf;
  }

  /** `get_interface`: for every state key that contains the counter table
      name, in key order, the key without its first 21 characters. */
  function Interfaces(keys: seq<string>): (r: seq<string>)
    ensures |r| <= |keys|
    decreases |keys|
  {
    if keys == [] then [] else Listed(keys[0]) + Interfaces(keys[1..])
  }

  /** What one state key contributes to `get_interface`. */
  function Listed(key: string): (r: seq<string>)
    ensures |r| <= 1
  {
    if Contains(key, COUNTER_TABLE) then [DropPrefix(key, PREFIX_LENGTH)] else []
  }

  /** Listing keeps key order. */
  lemma {:induction false} InterfacesAppend(a: seq<string>, b: seq<string>)
    ensures Interfaces(a + b) == Interfaces(a) + Interfaces(b)
    decreases |a|
  {
    if a == [] {
      assert a + b == b;
    } else {
      assert (a + b)[0] == a[0];
      assert (a + b)[1..] == a[1..] + b;
      InterfacesAppend(a[1..], b);
      assert Interfaces(a + b) == Listed(a[0]) + Interfaces(a[1..] + b);
    }
  }

  /** Listing the counter keys of some interfaces gives back those
      interfaces, in order. */
  lemma {:induction false} InterfacesOfCounterKeys(intfs: seq<string>)
    ensures Interfaces(seq(|intfs|, i requires 0 <= i < |intfs| => CounterKey(intfs[i]))) == intfs
    decreases |intfs|
  {
    var keys := seq(|intfs|, i requires 0 <= i < |intfs| => CounterKey(intfs[i]));
    if intfs != [] {
      CounterKeyRoundTrip(intfs[0]);
      var rest := seq(|intfs[1..]|, i requires 0 <= i < |intfs[1..]| => CounterKey(intfs[1..][i]));
      assert keys[1..] == rest;
      InterfacesOfCounterKeys(intfs[1..]);
      assert [intfs[0]] + intfs[1..] == intfs;
    }
  }

  /** A key without the counter table name adds nothing to the listing. */
  lemma InterfacesSkip(keys: seq<string>, other: string)
    requires !Contains(other, COUNTER_TABLE)
    ensures Interfaces(keys + [other]) == Interfaces(keys)
  {
    InterfacesAppend(keys, [other]);
    assert Interfaces([other]) == [] by {
      assert [other][1..] == [];
    }
  }

  /** One row of the counts table: a message type and its count, None when
      the store has no such field. */
  datatype CountRow = CountRow(message: string, count: Option<string>)

  /** `print_count(counter, intf)`: `[msg, count]` for each message type in
      the fixed order. */
  function CountRows(fields: map<string, map<string, string>>, intf: string): (r: seq<CountRow>)
    ensures |r| == |MESSAGES|
    ensures forall i :: 0 <= i < |r| ==> r[i].message == MESSAGES[i]
    ensures forall i :: 0 <= i < |r| ==>
      (r[i].count.Some? <==> CounterKey(intf) in fields && MESSAGES[i] in fields[CounterKey(intf)])
    ensures forall i :: 0 <= i < |r| && r[i].count.Some? ==>
      r[i].count.value == fields[CounterKey(intf)][MESSAGES[i]]
  {
    seq(|MESSAGES|, i requires 0 <= i < |MESSAGES| => CountRow(MESSAGES[i], Lookup(fields, CounterKey(intf), MESSAGES[i])))
  }

  /** Every message field set to "0". */
  function Zeroes(msgs: seq<string>): (z: map<string, string>)
    ensures forall m :: m in z <==> m in msgs
  {
    map m | m in msgs :: "0"
  }

  lemma ZeroesSnoc(msgs: seq<string>, m: string)
    ensures Zeroes(msgs + [m]) == Zeroes(msgs)[m := "0"]
  {
  }

  /** The counter fields after `clear_table(intf)`: the twelve message
      fields of the interface's key become "0"; its other fields and every
      other key keep their values. */
  function Cleared(fields: map<string, map<string, string>>, intf: string): map<string, map<string, string>>
  {
    fields[CounterKey(intf) := FieldsAt(fields, CounterKey(intf)) + Zeroes(MESSAGES)]
  }

  /** `clear_table` for each interface of `intfs`, in order. */
  function ClearedAll(fields: map<string, map<string, string>>, intfs: seq<string>): map<string, map<string, string>>
    decreases |intfs|
  {
    if intfs == [] then fields else Cleared(ClearedAll(fields, intfs[..|intfs| - 1]), intfs[|intfs| - 1])
  }

  /** After clearing, every count of the interface reads "0". */
  lemma ClearedCountsZero(fields: map<string, map<string, string>>, intf: string)
    ensures forall r :: r in CountRows(Cleared(fields, intf), intf) ==> r.count == Some("0")
  {
  }

  /** Clearing touches only the message fields of the interface's key. */
  lemma ClearedKeepsOthers(fields: map<string, map<string, string>>, intf: string, key: string, field: string)
    requires key != CounterKey(intf) || field !in MESSAGES
    ensures Lookup(Cleared(fields, intf), key, field) == Lookup(fields, key, field)
    ensures key != CounterKey(intf) ==> (key in Cleared(fields, intf) <==> key in fields)
  {
  }

  /** Clearing twice is clearing once. */
  lemma ClearedIdempotent(fields: map<string, map<string, string>>, intf: string)
    ensures Cleared(Cleared(fields, intf), intf) == Cleared(fields, intf)
  {
    var key := CounterKey(intf);
    var once := FieldsAt(fields, key) + Zeroes(MESSAGES);
    assert FieldsAt(Cleared(fields, intf), key) == once;
    assert once + Zeroes(MESSAGES) == once;
  }

  /** After clearing a list of interfaces, every count of each of them
      reads "0", whatever was cleared after it. */
  lemma {:induction false} ClearedAllZero(fields: map<string, map<string, string>>, intfs: seq<string>, intf: string)
    requires intf in intfs
    ensures forall r :: r in CountRows(ClearedAll(fields, intfs), intf) ==> r.count == Some("0")
    decreases |intfs|
  {
    var last := intfs[|intfs| - 1];
    var front := intfs[..|intfs| - 1];
    assert intfs == front + [last];
    if intf == last {
      ClearedCountsZero(ClearedAll(fields, front), intf);
    } else {
      ClearedAllZero(fields, front, intf);
      forall m | m in MESSAGES
        ensures Lookup(ClearedAll(fields, intfs), CounterKey(intf), m) == Some("0")
      {
        if CounterKey(intf) != CounterKey(last) {
          ClearedKeepsOthers(ClearedAll(fields, front), last, CounterKey(intf), m);
        }
        var k :| 0 <= k < |MESSAGES| && MESSAGES[k] == m;
        assert CountRows(ClearedAll(fields, front), intf)[k].count == Lookup(ClearedAll(fields, front), CounterKey(intf), m);
      }
    }
  }

  /** Clearing a list of interfaces leaves alone every key that is not the
      counter key of one of them, and every field that is not a message
      count. */
  lemma {:induction false} ClearedAllKeepsOthers(fields: map<string, map<string, string>>, intfs: seq<string>, key: string, field: string)
    requires field !in MESSAGES || forall x :: x in intfs ==> key != CounterKey(x)
    ensures Lookup(ClearedAll(fields, intfs), key, field) == Lookup(fields, key, field)
    decreases |intfs|
  {
    if intfs != [] {
      var front := intfs[..|intfs| - 1];
      assert forall x :: x in front ==> x in intfs;
      ClearedAllKeepsOthers(fields, front, key, field);
      ClearedKeepsOthers(ClearedAll(fields, front), intfs[|intfs| - 1], key, field);
    }
  }

  /** `if interface:` — an absent or empty option counts as not given. */
  predicate InterfaceGiven(interface: Option<string>)
  {
    interface.Some? && interface.value != ""
  }

  /** The interfaces `counts` and `clear` act on: the given one, unchecked,
      or every interface that has counters. */
  function Targets(keys: seq<string>, interface: Option<string>): (targets: seq<string>)
    ensures InterfaceGiven(interface) ==> targets == [interface.value]
    ensures !InterfaceGiven(interface) ==> targets == Interfaces(keys)
  {
    if InterfaceGiven(interface) then [interface.value] else Interfaces(keys)
  }

  /** `DHCPv6_Counter`: a handle on the state store. */
  class Counter {
    const db: StateDb

    constructor(db: StateDb)
      ensures this.db == db
    {
      this.db := db;
    }

    /** `get_interface()`. */
    function GetInterface(): seq<string>
      reads db
    {
      Interfaces(db.keys)
    }

    /** `get_dhcp6relay_msg_count(intf, msg)`. */
    function MsgCount(intf: string, msg: string): (row: CountRow)
      reads db
      ensures row.message == msg
      ensures row.count.Some? <==> CounterKey(intf) in db.fields && msg in db.fields[CounterKey(intf)]
      ensures row.count.Some? ==> row.count.value == db.fields[CounterKey(intf)][msg]
    {
      CountRow(msg, db.Get(CounterKey(intf), msg))
    }

    /** `clear_table(intf)`: sets each message field of the interface's key
        to "0"; the key is listed last if it is new. */
    method ClearTable(intf: string)
      requires db.Valid()
      modifies db
      ensures db.Valid()
      ensures db.fields == Cleared(old(db.fields), intf)
      ensures db.keys == if CounterKey(intf) in old(db.fields) then old(db.keys) else old(db.keys) + [CounterKey(intf)]
    {
      ZeroFields(db, CounterKey(intf), MESSAGES);
    }
  }

  /** Sets each field of `msgs` under `key` to "0", one field at a time. */
  method ZeroFields(db: StateDb, key: string, msgs: seq<string>)
    requires db.Valid() && msgs != []
    modifies db
    ensures db.Valid()
    ensures db.fields == old(db.fields)[key := FieldsAt(old(db.fields), key) + Zeroes(msgs)]
    ensures db.keys == if key in old(db.fields) then old(db.keys) else old(db.keys) + [key]
  {
    ghost var before := db.fields;
    ghost var start := FieldsAt(before, key);
    ghost var keysBefore := db.keys;
    db.Set(key, msgs[0], "0");
    assert ZeroedRow(start, msgs[..1]) == start[msgs[0] := "0"] by {
      assert msgs[..1][..0] == [];
    }
    for i := 1 to |msgs|
      invariant db.Valid()
      invariant db.fields == before[key := ZeroedRow(start, msgs[..i])]
      invariant db.keys == if key in before then keysBefore else keysBefore + [key]
    {
      assert msgs[..i + 1][..i] == msgs[..i];
      UpdateTwice(before, key, ZeroedRow(start, msgs[..i]), ZeroedRow(start, msgs[..i + 1]));
      db.Set(key, msgs[i], "0");
    }
    assert msgs[..|msgs|] == msgs;
    ZeroedRowMerges(start, msgs);
  }

  /** Replacing a key's field map twice keeps only the second. */
  lemma UpdateTwice(m: map<string, map<string, string>>, key: string, a: map<string, string>, b: map<string, string>)
    ensures FieldsAt(m[key := a], key) == a
    ensures m[key := a][key := b] == m[key := b]
  {
  }

  /** A row with the fields of `msgs` set to "0", one after the other. */
  function ZeroedRow(start: map<string, string>, msgs: seq<string>): map<string, string>
    decreases |msgs|
  {
    if msgs == [] then start else ZeroedRow(start, msgs[..|msgs| - 1])[msgs[|msgs| - 1] := "0"]
  }

  /** Setting the fields one at a time is merging in the all-"0" map. */
  lemma {:induction false} ZeroedRowMerges(start: map<string, string>, msgs: seq<string>)
    ensures ZeroedRow(start, msgs) == start + Zeroes(msgs)
    decreases |msgs|
  {
    if msgs == [] {
      assert Zeroes(msgs) == map[];
      assert start + map[] == start;
    } else {
      var front := msgs[..|msgs| - 1];
      ZeroedRowMerges(start, front);
      assert msgs == front + [msgs[|msgs| - 1]];
      ZeroesSnoc(front, msgs[|msgs| - 1]);
    }
  }

  /** `print_count(counter, intf)` on the counter's store. */
  function PrintCount(counter: Counter, intf: string): seq<CountRow>
    reads counter.db
  {
    CountRows(counter.db.fields, intf)
  }

  /** `print_count` asks the counter for each message type in turn: row `i`
      is `get_dhcp6relay_msg_count(intf, messages[i])`. */
  lemma PrintCountRowsAreMsgCounts(counter: Counter, intf: string)
    ensures |PrintCount(counter, intf)| == |MESSAGES|
    ensures forall i :: 0 <= i < |MESSAGES| ==> PrintCount(counter, intf)[i] == counter.MsgCount(intf, MESSAGES[i])
  {
    var rows := PrintCount(counter, intf);
    forall i | 0 <= i < |MESSAGES|
      ensures rows[i] == counter.MsgCount(intf, MESSAGES[i])
    {
      assert rows[i].message == MESSAGES[i];
    }
  }

  /** `counts`: the count rows of each target interface, in order. */
  function Counts(counter: Counter, interface: Option<string>): (report: seq<(string, seq<CountRow>)>)
    reads counter.db
    ensures |report| == |Targets(counter.db.keys, interface)|
    ensures forall i :: 0 <= i < |report| ==>
      report[i].0 == Targets(counter.db.keys, interface)[i] && |report[i].1| == |MESSAGES|
  {
    var fields := counter.db.fields;
    var targets := Targets(counter.db.keys, interface);
    seq(|targets|, i requires 0 <= i < |targets| => (targets[i], CountRows(fields, targets[i])))
  }

  /** `clear`: clears the given interface, without checking that it has
      counters, or else every interface listed before clearing started. */
  method Clear(counter: Counter, interface: Option<string>) returns (message: Message)
    requires counter.db.Valid()
    modifies counter.db
    ensures counter.db.Valid()
    ensures counter.db.fields == ClearedAll(old(counter.db.fields), Targets(old(counter.db.keys), interface))
    ensures old(counter.db.keys) <= counter.db.keys
    ensures message == if InterfaceGiven(interface) then CounterCleared(interface.value) else CountersCleared
  {
    var targets := Targets(counter.db.keys, interface);
    if InterfaceGiven(interface) {
      counter.ClearTable(interface.value);
      assert targets[..0] == [];
      message := CounterCleared(interface.value);
    } else {
      ClearEach(counter, targets);
      message := CountersCleared;
    }
  }

  /** `clear_table` for each interface of `targets`, in order. */
  method ClearEach(counter: Counter, targets: seq<string>)
    requires counter.db.Valid()
    modifies counter.db
    ensures counter.db.Valid()
    ensures counter.db.fields == ClearedAll(old(counter.db.fields), targets)
    ensures old(counter.db.keys) <= counter.db.keys
  {
    ghost var before := counter.db.fields;
    ghost var keysBefore := counter.db.keys;
    for i := 0 to |targets|
      invariant counter.db.Valid()
      invariant counter.db.fields == ClearedAll(before, targets[..i])
      invariant keysBefore <= counter.db.keys
    {
      assert targets[..i + 1][..i] == targets[..i];
      counter.ClearTable(targets[i]);
    }
    assert targets[..|targets|] == targets;
  }

  /** After `clear` with the same option, `counts` shows "0" for every
      message of every interface it reports. */
  lemma ClearThenCountsZero(fields: map<string, map<string, string>>, keys: seq<string>, interface: Option<string>, intf: string)
    requires intf in Targets(keys, interface)
    ensures forall r :: r in CountRows(ClearedAll(fields, Targets(keys, interface)), intf) ==> r.count == Some("0")
  {
    ClearedAllZero(fields, Targets(keys, interface), intf);
  }
}
