/**
 * The table that maps a UDP port to the name of the Unix-domain socket that
 * stands in for it on Windows (`win32_udp_port_to_uds_name.rs`).
 *
 * The table has one entry per port below 65535. An entry holds two 108-byte
 * name slots and a counter: `set` writes the slot the counter selects and
 * then advances the counter, so the other slot keeps the previously published
 * name. `get` reads the slot written last. The reverse lookup `get_port`
 * scans the entries in port order for a stored name that is a prefix of the
 * query.
 *
 * Only the sequential behaviour is modelled: the table is an array of entry
 * values owned by one object, not a mapping shared between processes.
 */
module PortToUdsName {
  import opened Wrappers

  newtype byte = x: int | 0 <= x < 0x100
  newtype u16 = x: int | 0 <= x < 0x1_0000

  /** The length of a Unix-domain socket name slot. */
  const MAX_UDS_NAME_LEN: nat := 108
  /** The number of entries in the table: ports 0 to 65534. */
  const PORT_COUNT: nat := 65535
  const IS_INITIALIZED: bv64 := 0xaffedeadbeef
  const INITIALIZATION_IN_PROGRESS: bv64 := 0xbebebebebebebebe

  /** n zero bytes. */
  function Zeros(n: nat): (r: seq<byte>)
    ensures |r| == n && forall k :: 0 <= k < n ==> r[k] == 0
  {
    seq(n, _ => 0)
  }

  /** A slot after `*slot = [0; 108]` and `slot[..name.len()].copy_from_slice(name)`. */
  function Padded(name: seq<byte>): (r: seq<byte>)
    requires |name| <= MAX_UDS_NAME_LEN
    ensures |r| == MAX_UDS_NAME_LEN
    ensures r[..|name|] == name
    ensures forall k :: |name| <= k < MAX_UDS_NAME_LEN ==> r[k] == 0
  {
    name + Zeros(MAX_UDS_NAME_LEN - |name|)
  }

  /** `Entry`: the ABA counter and the two name slots of one port. */
  datatype Entry = Entry(abaCounter: nat, value0: seq<byte>, value1: seq<byte>)
  {
    /** Both slots are full-size and the counter has been initialised. */
    predicate Valid()
    {
      abaCounter >= 1 && |value0| == MAX_UDS_NAME_LEN && |value1| == MAX_UDS_NAME_LEN
    }

    /** `value[i]`. */
    function Slot(i: nat): seq<byte>
      requires i < 2
    {
      if i == 0 then value0 else value1
    }

    /** `Entry::initialize`: counter 1, both slots zeroed; it reads back as all zeros. */
    static function Initialized(): (e: Entry)
      ensures e.Valid() && e.abaCounter == 1
      ensures e.Get() == Zeros(MAX_UDS_NAME_LEN)
    {
      Entry(1, Zeros(MAX_UDS_NAME_LEN), Zeros(MAX_UDS_NAME_LEN))
    }

    /**
     * `Entry::set`: zero the slot `counter % 2`, copy `value` into its front,
     * then add one to the counter. The entry then reads back `value` padded
     * with zeros, and the other slot still holds what `get` returned before.
     */
    function Set(value: seq<byte>): (e: Entry)
      requires Valid() && |value| <= MAX_UDS_NAME_LEN
      ensures e.Valid() && e.abaCounter == abaCounter + 1
      ensures e.Get() == Padded(value)
      ensures e.Slot(e.abaCounter % 2) == Get()
    {
      var written := Padded(value);
      if abaCounter % 2 == 0 then Entry(abaCounter + 1, written, value1)
      else Entry(abaCounter + 1, value0, written)
    }

    /** `Entry::get`: the slot `(counter - 1) % 2`, the one the last `set` wrote. */
    function Get(): (r: seq<byte>)
      requires Valid()
      ensures |r| == MAX_UDS_NAME_LEN
      ensures r == Slot((abaCounter - 1) % 2)
    {
      if (abaCounter - 1) % 2 == 0 then value0 else value1
    }
  }

  /** The entry of zero-filled memory, before `initialize`. */
  function Zeroed(): Entry
  {
    Entry(0, Zeros(MAX_UDS_NAME_LEN), Zeros(MAX_UDS_NAME_LEN))
  }

  /** The index of the first zero byte of s, if any (`iter().position(|c| *c == 0)`). */
  function FirstZero(s: seq<byte>): (r: Option<nat>)
    ensures r.Some? ==> r.value < |s| && s[r.value] == 0 && forall k :: 0 <= k < r.value ==> s[k] != 0
    ensures r.None? ==> forall k :: 0 <= k < |s| ==> s[k] != 0
  {
    if s == [] then None
    else if s[0] == 0 then Some(0)
    else match FirstZero(s[1..])
      case None => None
      case Some(k) => Some(k + 1)
  }

  /**
   * The test of `get_port` for one entry: the stored name ends at its first
   * zero byte `pos` (taken as 0 when it has none), and the entry matches when
   * `0 < pos <= |name|` and the stored bytes before `pos` equal the query's.
   */
  predicate Matches(stored: seq<byte>, name: seq<byte>)
    ensures Matches(stored, name) ==> 0 < |name| && 0 < |stored| && stored[0] == name[0] != 0
  {
    var pos := FirstZero(stored).GetOr(0);
    0 < pos <= |name| && stored[..pos] == name[..pos]
  }

  /**
   * How a name written by `set` is found again: if it holds no zero byte,
   * a query matches it exactly when the name is not empty, is shorter than a
   * full slot and is a prefix of the query. In particular a name of exactly
   * 108 bytes is stored but never found.
   */
  lemma PaddedMatches(name: seq<byte>, query: seq<byte>)
    requires |name| <= MAX_UDS_NAME_LEN
    requires forall k :: 0 <= k < |name| ==> name[k] != 0
    ensures Matches(Padded(name), query) <==>
              0 < |name| < MAX_UDS_NAME_LEN && |name| <= |query| && query[..|name|] == name
  {
    var stored := Padded(name);
    if |name| < MAX_UDS_NAME_LEN {
      assert stored[|name|] == 0;
      assert FirstZero(stored) == Some(|name|);
    } else {
      assert stored == name;
    }
  }

  /** A name found by `get_port` starts with the stored name up to its terminator. */
  lemma MatchIsPrefix(stored: seq<byte>, name: seq<byte>)
    requires Matches(stored, name)
    ensures exists pos :: 0 < pos <= |name| && pos < |stored| && stored[pos] == 0 && stored[..pos] == name[..pos]
  {
    var pos := FirstZero(stored).GetOr(0);
    assert 0 < pos <= |name| && pos < |stored| && stored[pos] == 0 && stored[..pos] == name[..pos];
  }

  /** An entry whose first byte is zero, such as one after `reset`, is never matched. */
  lemma LeadingZeroNeverMatches(stored: seq<byte>, name: seq<byte>)
    requires |stored| > 0 && stored[0] == 0
    ensures !Matches(stored, name)
  {}

  /** An entry with no zero byte (all 108 bytes used) is never matched: `unwrap_or(0)` makes its length 0. */
  lemma FullSlotNeverMatches(stored: seq<byte>, name: seq<byte>)
    requires forall k :: 0 <= k < |stored| ==> stored[k] != 0
    ensures !Matches(stored, name)
  {
    assert FirstZero(stored).None?;
  }

  /** The empty query matches no entry, so `get_port(b"")` is 0. */
  lemma EmptyNameNeverMatches(stored: seq<byte>)
    ensures !Matches(stored, [])
  {}

  /** `PortToUdsNameMap`: the initialisation marker and one entry per port. */
  class PortToUdsNameMap {
    var initCheck: bv64
    const udsNames: array<Entry>

    ghost predicate Valid()
      reads this, udsNames
    {
      udsNames.Length == PORT_COUNT &&
      forall i :: 0 <= i < PORT_COUNT ==> udsNames[i].Valid()
    }

    /** The name `get` returns for a port: `Get` below returns it, and contracts speak of it. */
    ghost function Name(port: nat): (r: seq<byte>)
      requires Valid() && port < PORT_COUNT
      reads this, udsNames
      ensures |r| == MAX_UDS_NAME_LEN
    {
      udsNames[port].Get()
    }

    /** A freshly created mapping: zero-filled memory, not yet initialised. */
    constructor ()
      ensures fresh(udsNames) && udsNames.Length == PORT_COUNT && initCheck == 0
      ensures forall i :: 0 <= i < PORT_COUNT ==> udsNames[i] == Zeroed()
    {
      initCheck := 0;
      udsNames := new Entry[PORT_COUNT](_ => Zeroed());
    }

    /**
     * `PortToUdsNameMap::initialize`, for the process that created the
     * mapping: mark initialisation in progress, reset every entry, mark the
     * table initialised. Afterwards every port reads back as all zeros.
     */
    method Initialize()
      requires udsNames.Length == PORT_COUNT
      modifies this, udsNames
      ensures Valid() && initCheck == IS_INITIALIZED
      ensures forall i :: 0 <= i < PORT_COUNT ==> udsNames[i] == Entry.Initialized()
      ensures forall p :: 0 <= p < PORT_COUNT ==> Name(p) == Zeros(MAX_UDS_NAME_LEN)
    {
      initCheck := INITIALIZATION_IN_PROGRESS;
      for i := 0 to udsNames.Length
        invariant forall j :: 0 <= j < i ==> udsNames[j] == Entry.Initialized()
      {
        udsNames[i] := Entry.Initialized();
      }
      initCheck := IS_INITIALIZED;
    }

    /**
     * `PortToUdsNameMap::set`: `Entry::set` on the entry of `port`. Indexing
     * panics for port 65535 and copying panics for a name longer than a slot.
     * No other entry changes.
     */
    method Set(port: u16, name: seq<byte>)
      requires Valid() && (port as nat) < PORT_COUNT && |name| <= MAX_UDS_NAME_LEN
      modifies udsNames
      ensures Valid()
      ensures udsNames[port] == old(udsNames[port]).Set(name)
      ensures Name(port as nat) == Padded(name)
      ensures forall i :: 0 <= i < PORT_COUNT && i != port as nat ==> udsNames[i] == old(udsNames[i])
    {
      udsNames[port] := udsNames[port].Set(name);
    }

    /** `PortToUdsNameMap::get`: the name last set for `port`. */
    method Get(port: u16) returns (r: seq<byte>)
      requires Valid() && (port as nat) < PORT_COUNT
      ensures r == Name(port as nat) && |r| == MAX_UDS_NAME_LEN
    {
      r := udsNames[port].Get();
    }

    /**
     * `PortToUdsNameMap::get_port`: the first port, in increasing order, whose
     * stored name matches `name`; 0 when none does.
     */
    method GetPort(name: seq<byte>) returns (port: u16)
      requires Valid()
      ensures (port as nat) < PORT_COUNT
      ensures forall j :: 0 <= j < port as nat ==> !Matches(Name(j), name)
      ensures Matches(Name(port as nat), name) ||
              (port == 0 && forall j :: 0 <= j < PORT_COUNT ==> !Matches(Name(j), name))
    {
      for i := 0 to udsNames.Length
        invariant forall j :: 0 <= j < i ==> !Matches(Name(j), name)
      {
        var entryName := udsNames[i].Get();
        var pos := FirstZero(entryName).GetOr(0);
        if pos == 0 || pos > |name| {
          continue;
        }
        if entryName[..pos] == name[..pos] {
          return i as u16;
        }
      }
      return 0;
    }
  }

  /** `PortToUds`: a process's handle on the shared table. */
  class PortToUds {
    const table: PortToUdsNameMap

    ghost predicate Valid()
      reads this, table, table.udsNames
    {
      table.Valid()
    }

    /**
     * `PortToUds::new` in the process that creates the mapping: the table is
     * initialised, so every port reads back as all zeros.
     */
    constructor ()
      ensures Valid() && fresh(table) && fresh(table.udsNames)
      ensures forall p :: 0 <= p < PORT_COUNT ==> table.Name(p) == Zeros(MAX_UDS_NAME_LEN)
    {
      var m := new PortToUdsNameMap();
      m.Initialize();
      table := m;
    }

    /**
     * `PortToUds::new` in a process that finds the mapping already created:
     * the handle views the existing table and does not initialise it, so
     * every name stays as it was.
     */
    constructor Open(existing: PortToUdsNameMap)
      requires existing.Valid()
      ensures Valid() && table == existing
    {
      table := existing;
    }

    /** `PortToUds::set`: forwards to the table. */
    method Set(port: u16, name: seq<byte>)
      requires Valid() && (port as nat) < PORT_COUNT && |name| <= MAX_UDS_NAME_LEN
      modifies table.udsNames
      ensures Valid()
      ensures table.Name(port as nat) == Padded(name)
      ensures forall i :: 0 <= i < PORT_COUNT && i != port as nat ==> table.udsNames[i] == old(table.udsNames[i])
      ensures forall i :: 0 <= i < PORT_COUNT && i != port as nat ==> table.Name(i) == old(table.Name(i))
    {
      table.Set(port, name);
    }

    /** `PortToUds::get_port`: forwards to the table. */
    method GetPort(name: seq<byte>) returns (port: u16)
      requires Valid()
      ensures (port as nat) < PORT_COUNT
      ensures forall j :: 0 <= j < port as nat ==> !Matches(table.Name(j), name)
      ensures Matches(table.Name(port as nat), name) ||
              (port == 0 && forall j :: 0 <= j < PORT_COUNT ==> !Matches(table.Name(j), name))
    {
      port := table.GetPort(name);
    }

    /**
     * `PortToUds::reset`: set the port's name to 108 zero bytes. The port
     * then reads back as all zeros (so `get_port` never answers it, by
     * `LeadingZeroNeverMatches`), and no other port changes.
     */
    method Reset(port: u16)
      requires Valid() && (port as nat) < PORT_COUNT
      modifies table.udsNames
      ensures Valid()
      ensures table.Name(port as nat) == Zeros(MAX_UDS_NAME_LEN)
      ensures forall i :: 0 <= i < PORT_COUNT && i != port as nat ==> table.udsNames[i] == old(table.udsNames[i])
    {
      Set(port, Zeros(MAX_UDS_NAME_LEN));
      assert Padded(Zeros(MAX_UDS_NAME_LEN)) == Zeros(MAX_UDS_NAME_LEN);
    }
  }

  /** The bytes of an ASCII string, as a `b"..."` literal gives them. */
  function Bytes(s: string): (r: seq<byte>)
    requires forall k :: 0 <= k < |s| ==> s[k] as int < 0x100
    ensures |r| == |s| && forall k :: 0 <= k < |s| ==> r[k] as int == s[k] as int
  {
    seq(|s|, k requires 0 <= k < |s| => s[k] as int as byte)
  }

  /** The names the first test sets, the query "x", and which of them match which. */
  lemma ScenarioNames()
    ensures var hello, other, fuuu, x := Bytes("hello world"), Bytes("some other test"), Bytes("fuuu"), Bytes("x");
      && |hello| == 11 && |other| == 15 && |fuuu| == 4
      && Matches(Padded(hello), hello) && Matches(Padded(other), other) && Matches(Padded(fuuu), fuuu)
      && !Matches(Padded(fuuu), hello) && !Matches(Padded(fuuu), other) && !Matches(Padded(hello), other)
      && !Matches(Padded(hello), x) && !Matches(Padded(other), x) && !Matches(Padded(fuuu), x)
  {
    var hello, other, fuuu, x := Bytes("hello world"), Bytes("some other test"), Bytes("fuuu"), Bytes("x");
    PaddedMatches(hello, hello);
    PaddedMatches(other, other);
    PaddedMatches(fuuu, fuuu);
    PaddedMatches(fuuu, hello);
    assert hello[..4] != fuuu by { assert hello[0] != fuuu[0]; }
    PaddedMatches(fuuu, other);
    assert other[..4] != fuuu by { assert other[0] != fuuu[0]; }
    PaddedMatches(hello, other);
    assert other[..11] != hello by { assert other[0] != hello[0]; }
    PaddedMatches(hello, x);
    PaddedMatches(other, x);
    PaddedMatches(fuuu, x);
  }

  /** The contract of `get_port` pins its answer to the first matching port. */
  lemma FirstMatchIsAnswer(m: PortToUdsNameMap, name: seq<byte>, p: nat, port: u16)
    requires m.Valid() && p < PORT_COUNT && (port as nat) < PORT_COUNT
    requires Matches(m.Name(p), name)
    requires forall j :: 0 <= j < p ==> !Matches(m.Name(j), name)
    requires forall j :: 0 <= j < port as nat ==> !Matches(m.Name(j), name)
    requires Matches(m.Name(port as nat), name) ||
             (port == 0 && forall j :: 0 <= j < PORT_COUNT ==> !Matches(m.Name(j), name))
    ensures port as nat == p
  {}

  /** What each port reads back after the three `set` calls of the first test. */
  function SetAndGetTable(hello: seq<byte>, other: seq<byte>, fuuu: seq<byte>, j: nat): seq<byte>
    requires |hello| <= MAX_UDS_NAME_LEN && |other| <= MAX_UDS_NAME_LEN && |fuuu| <= MAX_UDS_NAME_LEN
  {
    if j == 12345 then Padded(hello)
    else if j == 54321 then Padded(other)
    else if j == 819 then Padded(fuuu)
    else Zeros(MAX_UDS_NAME_LEN)
  }

  /**
   * The set-up of the test `win32_udp_port_to_uds_name_set_and_get_works`:
   * a new handle, then three names set on three ports.
   */
  method SetThreeNames(hello: seq<byte>, other: seq<byte>, fuuu: seq<byte>) returns (sut: PortToUds)
    requires |hello| <= MAX_UDS_NAME_LEN && |other| <= MAX_UDS_NAME_LEN && |fuuu| <= MAX_UDS_NAME_LEN
    ensures sut.Valid() && fresh(sut.table) && fresh(sut.table.udsNames)
    ensures forall j :: 0 <= j < PORT_COUNT ==> sut.table.Name(j) == SetAndGetTable(hello, other, fuuu, j)
  {
    sut := new PortToUds();
    sut.Set(12345, hello);
    assert forall j :: 0 <= j < PORT_COUNT ==> sut.table.Name(j) == (if j == 12345 then Padded(hello) else Zeros(MAX_UDS_NAME_LEN));
    sut.Set(54321, other);
    assert forall j :: 0 <= j < PORT_COUNT ==>
      sut.table.Name(j) == (if j == 12345 then Padded(hello) else if j == 54321 then Padded(other) else Zeros(MAX_UDS_NAME_LEN));
    sut.Set(819, fuuu);
  }

  /** The reads of that test, for any three names: each port gives back the name set on it. */
  method ReadBackThreeNames(hello: seq<byte>, other: seq<byte>, fuuu: seq<byte>)
      returns (name12345: seq<byte>, name54321: seq<byte>, name819: seq<byte>)
    requires |hello| <= MAX_UDS_NAME_LEN && |other| <= MAX_UDS_NAME_LEN && |fuuu| <= MAX_UDS_NAME_LEN
    ensures |name12345| == |name54321| == |name819| == MAX_UDS_NAME_LEN
    ensures name12345[..|hello|] == hello && name54321[..|other|] == other && name819[..|fuuu|] == fuuu
  {
    var sut := SetThreeNames(hello, other, fuuu);
    name12345 := sut.table.Get(12345);
    name54321 := sut.table.Get(54321);
    name819 := sut.table.Get(819);
  }

  /** The reads of the test `win32_udp_port_to_uds_name_set_and_get_works`. */
  method SetAndGetWorks() returns (name12345: seq<byte>, name54321: seq<byte>, name819: seq<byte>)
    ensures |name12345| == |name54321| == |name819| == MAX_UDS_NAME_LEN
    ensures name12345[..11] == Bytes("hello world")
    ensures name54321[..15] == Bytes("some other test")
    ensures name819[..4] == Bytes("fuuu")
  {
    ScenarioNames();
    name12345, name54321, name819 := ReadBackThreeNames(Bytes("hello world"), Bytes("some other test"), Bytes("fuuu"));
  }

  /** In that table, the ports below p that hold no name match nothing. */
  lemma NoMatchBelow(t: PortToUdsNameMap, hello: seq<byte>, other: seq<byte>, fuuu: seq<byte>, q: seq<byte>, p: nat)
    requires |hello| <= MAX_UDS_NAME_LEN && |other| <= MAX_UDS_NAME_LEN && |fuuu| <= MAX_UDS_NAME_LEN
    requires t.Valid() && p <= PORT_COUNT
    requires forall j :: 0 <= j < PORT_COUNT ==> t.Name(j) == SetAndGetTable(hello, other, fuuu, j)
    requires p > 819 ==> !Matches(Padded(fuuu), q)
    requires p > 12345 ==> !Matches(Padded(hello), q)
    requires p > 54321 ==> !Matches(Padded(other), q)
    ensures forall j :: 0 <= j < p ==> !Matches(t.Name(j), q)
  {
    forall j | 0 <= j < p ensures !Matches(t.Name(j), q) {
      if j != 819 && j != 12345 && j != 54321 {
        LeadingZeroNeverMatches(t.Name(j), q);
      }
    }
  }

  /**
   * One successful lookup of that test: a query whose first match is the
   * name set on port p is answered with p.
   */
  method LookUpSetName(hello: seq<byte>, other: seq<byte>, fuuu: seq<byte>, q: seq<byte>, p: nat) returns (port: u16)
    requires |hello| <= MAX_UDS_NAME_LEN && |other| <= MAX_UDS_NAME_LEN && |fuuu| <= MAX_UDS_NAME_LEN
    requires p == 819 || p == 12345 || p == 54321
    requires Matches(SetAndGetTable(hello, other, fuuu, p), q)
    requires p > 819 ==> !Matches(Padded(fuuu), q)
    requires p > 12345 ==> !Matches(Padded(hello), q)
    ensures port as nat == p
  {
    var sut := SetThreeNames(hello, other, fuuu);
    NoMatchBelow(sut.table, hello, other, fuuu, q, p);
    port := sut.GetPort(q);
    FirstMatchIsAnswer(sut.table, q, p, port);
  }

  /** The failed lookups of that test: the empty name and an unknown name give 0. */
  method LookUpUnknownNames(hello: seq<byte>, other: seq<byte>, fuuu: seq<byte>, x: seq<byte>)
      returns (portOfEmpty: u16, portOfX: u16)
    requires |hello| <= MAX_UDS_NAME_LEN && |other| <= MAX_UDS_NAME_LEN && |fuuu| <= MAX_UDS_NAME_LEN
    requires !Matches(Padded(hello), x) && !Matches(Padded(other), x) && !Matches(Padded(fuuu), x)
    ensures portOfEmpty == 0 && portOfX == 0
  {
    var sut := SetThreeNames(hello, other, fuuu);
    var t := sut.table;
    NoMatchBelow(t, hello, other, fuuu, x, PORT_COUNT);
    portOfEmpty := sut.GetPort([]);
    EmptyNameNeverMatches(t.Name(portOfEmpty as nat));
    portOfX := sut.GetPort(x);
  }

  /**
   * The lookups of the test `win32_udp_port_to_uds_name_set_and_get_works`,
   * in its order: "hello world", "some other test", "fuuu", "" and "x".
   */
  method SetAndGetPortWorks() returns (ports: seq<u16>)
    ensures ports == [12345, 54321, 819, 0, 0]
  {
    ScenarioNames();
    var hello, other, fuuu := Bytes("hello world"), Bytes("some other test"), Bytes("fuuu");
    var p1 := LookUpSetName(hello, other, fuuu, hello, 12345);
    var p2 := LookUpSetName(hello, other, fuuu, other, 54321);
    var p3 := LookUpSetName(hello, other, fuuu, fuuu, 819);
    var p4, p5 := LookUpUnknownNames(hello, other, fuuu, Bytes("x"));
    ports := [p1, p2, p3, p4, p5];
  }

  /**
   * The sharing part of the test
   * `win32_udp_port_to_uds_name_set_and_get_works_with_multiple_instances`:
   * a second handle opened on the same table sees the first handle's names,
   * and the names it sets, and the port it resets, are seen through the first.
   */
  method SetAndGetWorksWithMultipleInstances() returns (name12345: seq<byte>, name123: seq<byte>, name331: seq<byte>)
    ensures |name12345| == |name123| == MAX_UDS_NAME_LEN
    ensures name12345[..11] == Bytes("hello world")
    ensures name123[..9] == Bytes("all glory")
    ensures name331 == Zeros(MAX_UDS_NAME_LEN)
  {
    var hello, prime, glory := Bytes("hello world"), Bytes("i am a prime"), Bytes("all glory");
    var sut := new PortToUds();
    sut.Set(12345, hello);
    sut.Set(331, prime);

    var sut2 := new PortToUds.Open(sut.table);
    sut2.Set(123, glory);
    sut2.Reset(331);

    name12345 := sut2.table.Get(12345);
    name123 := sut.table.Get(123);
    name331 := sut.table.Get(331);
  }
}
