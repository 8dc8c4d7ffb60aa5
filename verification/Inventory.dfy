/** The agent-wide port inventory built from an aggregated heartbeat (`HeartbeatService`). */
module Inventory {
  import opened Common
  import opened Clock

  // ---- from partitions to one union ----

  /** What one server's partition lists: keys into a top-level dictionary, or full objects. */
  datatype Listing<T> = Keys(keys: seq<string>) | Objects(objects: seq<T>)

  /** A key that no dictionary resolves reaches the update as it is. */
  datatype Entry<T> = Resolved(item: T) | BareKey(key: string)

  type Dictionary<T> = map<string, T>

  predicate IsNumeric(key: string) {
    key != "" && forall i :: 0 <= i < |key| ==> '0' <= key[i] <= '9'
  }

  /** The dictionary entry a key stands for; a bare port number also stands for its `tcp:` key. */
  function Lookup<T>(dictionary: Dictionary<T>, key: string, numericFallback: bool): Option<T> {
    if key in dictionary then Some(dictionary[key])
    else if numericFallback && IsNumeric(key) && "tcp:" + key in dictionary then Some(dictionary["tcp:" + key])
    else None
  }

  function ResolvedKeys<T>(keys: seq<string>, dictionary: Dictionary<T>, numericFallback: bool): seq<Entry<T>> {
    var n := |keys|;
    if n == 0 then []
    else
      var found := Lookup(dictionary, keys[n - 1], numericFallback);
      ResolvedKeys(keys[..n - 1], dictionary, numericFallback) + if found.Some? then [Resolved(found.value)] else []
  }

  function Wrapped<T>(objects: seq<T>): seq<Entry<T>> {
    seq(|objects|, i requires 0 <= i < |objects| => Resolved(objects[i]))
  }

  function Bare<T>(keys: seq<string>): seq<Entry<T>> {
    seq(|keys|, i requires 0 <= i < |keys| => BareKey(keys[i]))
  }

  function Entries<T>(listing: Listing<T>, dictionary: Option<Dictionary<T>>, numericFallback: bool): seq<Entry<T>> {
    match listing
    case Objects(objects) => Wrapped(objects)
    case Keys(keys) => if dictionary.Some? then ResolvedKeys(keys, dictionary.value, numericFallback) else Bare(keys)
  }

  function Union<T>(listings: seq<Listing<T>>, dictionary: Option<Dictionary<T>>, numericFallback: bool)
    : seq<Entry<T>>
  {
    var n := |listings|;
    if n == 0 then []
    else Union(listings[..n - 1], dictionary, numericFallback) + Entries(listings[n - 1], dictionary, numericFallback)
  }

  /** The inner loop: keys the dictionary knows, or knows as TCP ports. */
  method AppendResolved<T>(union: seq<Entry<T>>, keys: seq<string>, dictionary: Dictionary<T>, numericFallback: bool)
    returns (longer: seq<Entry<T>>)
    ensures longer == union + ResolvedKeys(keys, dictionary, numericFallback)
  {
    longer := union;
    var j := 0;
    while j < |keys|
      invariant 0 <= j <= |keys|
      invariant longer == union + ResolvedKeys(keys[..j], dictionary, numericFallback)
    {
      assert keys[..j + 1][..j] == keys[..j];
      if keys[j] in dictionary {
        longer := longer + [Resolved(dictionary[keys[j]])];
      } else if numericFallback && IsNumeric(keys[j]) && "tcp:" + keys[j] in dictionary {
        longer := longer + [Resolved(dictionary["tcp:" + keys[j]])];
      }
      j := j + 1;
    }
    assert keys[..j] == keys;
  }

  method BuildUnion<T>(listings: seq<Listing<T>>, dictionary: Option<Dictionary<T>>, numericFallback: bool)
    returns (union: seq<Entry<T>>)
    ensures union == Union(listings, dictionary, numericFallback)
  {
    union := [];
    var i := 0;
    while i < |listings|
      invariant 0 <= i <= |listings|
      invariant union == Union(listings[..i], dictionary, numericFallback)
    {
      assert listings[..i + 1][..i] == listings[..i];
      match listings[i] {
        case Keys(keys) =>
          if dictionary.Some? {
            union := AppendResolved(union, keys, dictionary.value, numericFallback);
          } else {
            union := union + Bare(keys);
          }
        case Objects(objects) =>
          union := union + Wrapped(objects);
      }
      i := i + 1;
    }
    assert listings[..i] == listings;
  }

  predicate AllDigits(s: string) {
    s != "" && forall i :: 0 <= i < |s| ==> s[i] in "0123456789"
  }

  /** The key is the dictionary's for the item, or a bare number whose `tcp:` key is. */
  ghost predicate Finds<T>(dictionary: Dictionary<T>, key: string, numericFallback: bool, item: T) {
    if key in dictionary then dictionary[key] == item
    else numericFallback && AllDigits(key) && "tcp:" + key in dictionary && dictionary["tcp:" + key] == item
  }

  lemma LookupFinds<T>(dictionary: Dictionary<T>, key: string, numericFallback: bool, item: T)
    ensures Lookup(dictionary, key, numericFallback) == Some(item) <==> Finds(dictionary, key, numericFallback, item)
  {
    var digits := "0123456789";
    forall i | 0 <= i < |key|
      ensures '0' <= key[i] <= '9' <==> key[i] in digits
    {
      if '0' <= key[i] <= '9' {
        assert digits[key[i] as int - '0' as int] == key[i];
      }
    }
  }

  /**
   Of listed keys exactly those the dictionary knows reach the union, as
   the objects they stand for; the rest are dropped.
   */
  lemma {:induction false} ResolvedKeysExactly<T>(
    keys: seq<string>, dictionary: Dictionary<T>, numericFallback: bool, e: Entry<T>)
    ensures e in ResolvedKeys(keys, dictionary, numericFallback)
       <==> e.Resolved? && exists k :: k in keys && Finds(dictionary, k, numericFallback, e.item)
  {
    var n := |keys|;
    if n > 0 {
      var front, last := keys[..n - 1], keys[n - 1];
      ResolvedKeysExactly(front, dictionary, numericFallback, e);
      assert keys == front + [last];
      if e.Resolved? {
        LookupFinds(dictionary, last, numericFallback, e.item);
      }
    }
  }

  /**
   What one partition adds: its objects as they are; of its keys what they
   stand for, or the keys themselves without a dictionary.
   */
  ghost predicate Contributes<T>(
    listing: Listing<T>, dictionary: Option<Dictionary<T>>, numericFallback: bool, e: Entry<T>)
  {
    match listing
    case Objects(objects) => e.Resolved? && e.item in objects
    case Keys(keys) =>
      if dictionary.Some? then
        e.Resolved? && exists k :: k in keys && Finds(dictionary.value, k, numericFallback, e.item)
      else e.BareKey? && e.key in keys
  }

  lemma EntriesContribute<T>(
    listing: Listing<T>, dictionary: Option<Dictionary<T>>, numericFallback: bool, e: Entry<T>)
    ensures e in Entries(listing, dictionary, numericFallback) <==> Contributes(listing, dictionary, numericFallback, e)
  {
    match listing
    case Objects(objects) => assert forall i :: 0 <= i < |objects| ==> Wrapped(objects)[i] == Resolved(objects[i]);
    case Keys(keys) =>
      if dictionary.Some? {
        ResolvedKeysExactly(keys, dictionary.value, numericFallback, e);
      } else {
        assert forall i :: 0 <= i < |keys| ==> Bare<T>(keys)[i] == BareKey(keys[i]);
      }
  }

  /** The union holds exactly what some partition adds. */
  lemma {:induction false} UnionExactly<T>(
    listings: seq<Listing<T>>, dictionary: Option<Dictionary<T>>, numericFallback: bool, e: Entry<T>)
    ensures e in Union(listings, dictionary, numericFallback)
       <==> exists i :: 0 <= i < |listings| && Contributes(listings[i], dictionary, numericFallback, e)
  {
    var n := |listings|;
    if n > 0 {
      var front, last := listings[..n - 1], listings[n - 1];
      UnionExactly(front, dictionary, numericFallback, e);
      EntriesContribute(last, dictionary, numericFallback, e);
      assert forall i :: 0 <= i < n ==> listings[i] == if i < n - 1 then front[i] else last;
    }
  }

  /** All keys of a listing resolve to these objects. */
  ghost predicate ResolvesTo<T>(
    listing: Listing<T>, dictionary: Dictionary<T>, numericFallback: bool, objects: seq<T>)
  {
    && listing.Keys?
    && |objects| == |listing.keys|
    && forall i :: 0 <= i < |objects| ==> Finds(dictionary, listing.keys[i], numericFallback, objects[i])
  }

  lemma {:induction false} ResolvedKeysAre<T>(
    keys: seq<string>, dictionary: Dictionary<T>, numericFallback: bool, objects: seq<T>)
    requires ResolvesTo(Keys(keys), dictionary, numericFallback, objects)
    ensures ResolvedKeys(keys, dictionary, numericFallback) == Wrapped(objects)
  {
    var n := |keys|;
    if n > 0 {
      ResolvedKeysAre(keys[..n - 1], dictionary, numericFallback, objects[..n - 1]);
      LookupFinds(dictionary, keys[n - 1], numericFallback, objects[n - 1]);
      assert Wrapped(objects) == Wrapped(objects[..n - 1]) + [Resolved(objects[n - 1])];
    }
  }

  /** Key lists with dictionaries give the union that full objects per server would. */
  lemma {:induction false} KeysAndObjectsGiveTheSameUnion<T>(
    listings: seq<Listing<T>>, dictionary: Dictionary<T>, numericFallback: bool, objects: seq<seq<T>>)
    requires |objects| == |listings|
    requires forall i :: 0 <= i < |listings| ==> ResolvesTo(listings[i], dictionary, numericFallback, objects[i])
    ensures Union(listings, Some(dictionary), numericFallback)
         == Union(seq(|objects|, i requires 0 <= i < |objects| => Objects(objects[i])), None, numericFallback)
  {
    var n := |listings|;
    var full := seq(n, i requires 0 <= i < n => Objects(objects[i]));
    if n > 0 {
      KeysAndObjectsGiveTheSameUnion(listings[..n - 1], dictionary, numericFallback, objects[..n - 1]);
      assert full[..n - 1] == seq(n - 1, i requires 0 <= i < n - 1 => Objects(objects[..n - 1][i]));
      ResolvedKeysAre(listings[n - 1].keys, dictionary, numericFallback, objects[n - 1]);
    }
    assert full == seq(|objects|, i requires 0 <= i < |objects| => Objects(objects[i]));
  }

  // ---- the port table ----

  /** A reported port; absent fields are `None`. */
  datatype Port = Port(port: Option<int>, protocol: Option<string>, state: Option<string>, process: Option<string>)

  datatype PortKey = PortKey(agent: nat, protocol: string, port: int)

  datatype PortRow = PortRow(state: string, process: Option<string>, lastSeen: Stamp)

  type PortTable = map<PortKey, PortRow>

  const CLOSED: string := "closed"

  /** The row an entry reports, if it names a port number. */
  function KeyOf(agent: nat, entry: Entry<Port>): Option<PortKey> {
    if entry.Resolved? && entry.item.port.Some? then
      Some(PortKey(
             agent, if entry.item.protocol.Some? then entry.item.protocol.value else "tcp", entry.item.port.value))
    else None
  }

  function RowOf(entry: Entry<Port>, now: Time): PortRow
    requires entry.Resolved?
  {
    PortRow(if entry.item.state.Some? then entry.item.state.value else "listening", entry.item.process, StampOf(now))
  }

  /** The last entry that reports `key`. */
  function LastReport(agent: nat, entries: seq<Entry<Port>>, key: PortKey): (last: Option<Entry<Port>>)
    ensures last.Some? ==> KeyOf(agent, last.value) == Some(key) && last.value in entries
    ensures last.None? ==> forall e :: e in entries ==> KeyOf(agent, e) != Some(key)
  {
    var n := |entries|;
    if n == 0 then None
    else if KeyOf(agent, entries[n - 1]) == Some(key) then Some(entries[n - 1])
    else LastReport(agent, entries[..n - 1], key)
  }

  function ReportedKeys(agent: nat, entries: seq<Entry<Port>>): set<PortKey> {
    set i | 0 <= i < |entries| && KeyOf(agent, entries[i]).Some? :: KeyOf(agent, entries[i]).value
  }

  /**
   The table after an update: reported ports at their last reported state, the
   agent's other ports closed, no row gone, other agents' rows as they were.
   */
  function Updated(ports: PortTable, agent: nat, entries: seq<Entry<Port>>, now: Time): PortTable {
    map key | key in ports.Keys + ReportedKeys(agent, entries) ::
      match LastReport(agent, entries, key)
      case Some(entry) => RowOf(entry, now)
      case None =>
        if key !in ports then PortRow(CLOSED, None, 0)
        else if key.agent == agent then ports[key].(state := CLOSED)
        else ports[key]
  }

  lemma {:induction false} ReportedIffLastReport(agent: nat, entries: seq<Entry<Port>>, key: PortKey)
    ensures key in ReportedKeys(agent, entries) <==> LastReport(agent, entries, key).Some?
  {
    var last := LastReport(agent, entries, key);
    if last.Some? {
      var i :| 0 <= i < |entries| && entries[i] == last.value;
    }
    if key in ReportedKeys(agent, entries) {
      var i :| 0 <= i < |entries| && KeyOf(agent, entries[i]) == Some(key);
      assert entries[i] in entries;
    }
  }

  class PortInventory {
    var ports: PortTable

    /** `updatePorts`: upserts in order, then closes what was not reported. */
    method UpdatePorts(agent: nat, entries: seq<Entry<Port>>, now: Time)
      modifies this
      ensures ports == Updated(old(ports), agent, entries, now)
    {
      var activeKeys := Upsert(agent, entries, now);
      CloseOthers(agent, activeKeys);
      forall key | key in ports
        ensures ports[key] == Updated(old(ports), agent, entries, now)[key]
      {
        ReportedIffLastReport(agent, entries, key);
      }
    }

    /** The first loop: every reported port is written, and its key is active. */
    method Upsert(agent: nat, entries: seq<Entry<Port>>, now: Time) returns (activeKeys: set<PortKey>)
      modifies this
      ensures activeKeys == ReportedKeys(agent, entries) && ports.Keys == old(ports).Keys + activeKeys
      ensures forall key :: key in ports ==>
                ports[key] == match LastReport(agent, entries, key)
                              case Some(entry) => RowOf(entry, now)
                              case None => old(ports)[key]
    {
      activeKeys := {};
      var i := 0;
      while i < |entries|
        invariant 0 <= i <= |entries|
        invariant activeKeys == ReportedKeys(agent, entries[..i])
        invariant ports.Keys == old(ports).Keys + activeKeys
        invariant forall key :: key in ports ==>
                    ports[key] == match LastReport(agent, entries[..i], key)
                                  case Some(entry) => RowOf(entry, now)
                                  case None => old(ports)[key]
      {
        UpsertStep(agent, entries, i);
        var key := KeyOf(agent, entries[i]);
        if key.Some? {
          activeKeys := activeKeys + {key.value};
          ports := ports[key.value := RowOf(entries[i], now)];
        }
        i := i + 1;
      }
      assert entries[..i] == entries;
    }

    /** The second loop: every row of the agent whose key is not active. */
    method CloseOthers(agent: nat, activeKeys: set<PortKey>)
      modifies this
      ensures ports == map key | key in old(ports) ::
                         if key.agent == agent && key !in activeKeys then old(ports)[key].(state := CLOSED)
                         else old(ports)[key]
    {
      var left := set key | key in ports && key.agent == agent;
      while left != {}
        invariant ports.Keys == old(ports).Keys && left <= ports.Keys
        invariant forall key :: key in left ==> key.agent == agent
        invariant forall key :: key in ports ==>
                    ports[key] == if key.agent == agent && key !in activeKeys && key !in left
                                  then old(ports)[key].(state := CLOSED) else old(ports)[key]
        decreases left
      {
        var key :| key in left;
        if key !in activeKeys {
          ports := ports[key := ports[key].(state := CLOSED)];
        }
        left := left - {key};
      }
    }

    /** The port part of an aggregated heartbeat: nothing is touched when the union is empty. */
    method UpdateFromPartitions(
      agent: nat, listings: seq<Listing<Port>>, dictionary: Option<Dictionary<Port>>, now: Time)
      modifies this
      ensures ports == AfterHeartbeat(old(ports), agent, listings, dictionary, now)
    {
      var union := BuildUnion(listings, dictionary, true);
      if union != [] {
        UpdatePorts(agent, union, now);
      }
    }
  }

  lemma {:induction false} UpsertStep(agent: nat, entries: seq<Entry<Port>>, i: nat)
    requires i < |entries|
    ensures var key := KeyOf(agent, entries[i]);
            && ReportedKeys(agent, entries[..i + 1])
               == ReportedKeys(agent, entries[..i]) + (if key.Some? then {key.value} else {})
            && forall k :: LastReport(agent, entries[..i + 1], k)
                 == if key == Some(k) then Some(entries[i]) else LastReport(agent, entries[..i], k)
  {
    assert entries[..i + 1][..i] == entries[..i];
    var before, after := entries[..i], entries[..i + 1];
    forall k
      ensures k in ReportedKeys(agent, after)
         <==> k in ReportedKeys(agent, before) || KeyOf(agent, entries[i]) == Some(k)
    {
      ReportedIffLastReport(agent, before, k);
      ReportedIffLastReport(agent, after, k);
    }
  }

  function AfterHeartbeat(
    ports: PortTable, agent: nat, listings: seq<Listing<Port>>, dictionary: Option<Dictionary<Port>>, now: Time)
    : PortTable
  {
    var union := Union(listings, dictionary, true);
    if union == [] then ports else Updated(ports, agent, union, now)
  }

  // ---- what an update means ----

  /** No row is deleted, no other agent's row changes, and the only new rows are reported ones. */
  lemma UpdateTouchesOnlyItsAgent(ports: PortTable, agent: nat, entries: seq<Entry<Port>>, now: Time, key: PortKey)
    ensures key in ports ==> key in Updated(ports, agent, entries, now)
    ensures key.agent != agent ==>
              (key in Updated(ports, agent, entries, now) <==> key in ports)
              && (key in ports ==> Updated(ports, agent, entries, now)[key] == ports[key])
    ensures key !in ports && key in Updated(ports, agent, entries, now) ==>
              exists e :: e in entries && KeyOf(agent, e) == Some(key)
  {
    ReportedIffLastReport(agent, entries, key);
  }

  predicate IsOpen(ports: PortTable, key: PortKey) {
    key in ports && ports[key].state != CLOSED
  }

  /** Entry `i` is the last report of `key`, and reports a state other than closed. */
  predicate ReportsOpen(agent: nat, entries: seq<Entry<Port>>, key: PortKey, i: nat)
    requires i < |entries|
  {
    && KeyOf(agent, entries[i]) == Some(key)
    && entries[i].item.state != Some(CLOSED)
    && forall j :: i < j < |entries| ==> KeyOf(agent, entries[j]) != Some(key)
  }

  predicate LeavesOpen(agent: nat, entries: seq<Entry<Port>>, key: PortKey) {
    exists i :: 0 <= i < |entries| && ReportsOpen(agent, entries, key, i)
  }

  lemma {:induction false} LastReportIsLast(agent: nat, entries: seq<Entry<Port>>, key: PortKey, i: nat)
    requires i < |entries| && KeyOf(agent, entries[i]) == Some(key)
    requires forall j :: i < j < |entries| ==> KeyOf(agent, entries[j]) != Some(key)
    ensures LastReport(agent, entries, key) == Some(entries[i])
  {
    var n := |entries|;
    if i < n - 1 {
      LastReportIsLast(agent, entries[..n - 1], key, i);
    }
  }

  lemma {:induction false} LastReportAt(agent: nat, entries: seq<Entry<Port>>, key: PortKey) returns (i: nat)
    requires LastReport(agent, entries, key).Some?
    ensures i < |entries| && LastReport(agent, entries, key) == Some(entries[i])
    ensures forall j :: i < j < |entries| ==> KeyOf(agent, entries[j]) != Some(key)
  {
    var n := |entries|;
    if KeyOf(agent, entries[n - 1]) == Some(key) {
      i := n - 1;
    } else {
      i := LastReportAt(agent, entries[..n - 1], key);
    }
  }

  /**
   After an update an agent's port is open exactly when it was reported,
   and its last report is not of a closed port.
   */
  lemma OpenIffReported(ports: PortTable, agent: nat, entries: seq<Entry<Port>>, now: Time, key: PortKey)
    requires key.agent == agent
    ensures IsOpen(Updated(ports, agent, entries, now), key) <==> LeavesOpen(agent, entries, key)
  {
    ReportedIffLastReport(agent, entries, key);
    if LastReport(agent, entries, key).Some? {
      var k := LastReportAt(agent, entries, key);
      assert IsOpen(Updated(ports, agent, entries, now), key) ==> ReportsOpen(agent, entries, key, k);
    }
    if i :| 0 <= i < |entries| && ReportsOpen(agent, entries, key, i) {
      LastReportIsLast(agent, entries, key, i);
    }
  }

  /** The entry reports this port number under this protocol, `tcp` if it names none. */
  predicate Reports(e: Entry<Port>, protocol: string, port: int) {
    && e.Resolved? && e.item.port == Some(port)
    && (if e.item.protocol.Some? then e.item.protocol.value else "tcp") == protocol
  }

  lemma ReportsIsKeyOf(agent: nat, e: Entry<Port>, protocol: string, port: int)
    ensures Reports(e, protocol, port) <==> KeyOf(agent, e) == Some(PortKey(agent, protocol, port))
  {
  }

  /**
   The row of a port after an update: what its last report says of state
   and process, seen in the second of the update.
   */
  lemma {:induction false} ReportedRowIs(
    ports: PortTable, agent: nat, entries: seq<Entry<Port>>, now: Time, protocol: string, port: int, i: nat)
    requires i < |entries| && Reports(entries[i], protocol, port)
    requires forall j :: i < j < |entries| ==> !Reports(entries[j], protocol, port)
    ensures var key, item := PortKey(agent, protocol, port), entries[i].item;
            && key in Updated(ports, agent, entries, now)
            && Updated(ports, agent, entries, now)[key]
               == PortRow(if item.state.Some? then item.state.value else "listening", item.process, StampOf(now))
  {
    var key := PortKey(agent, protocol, port);
    forall j | i <= j < |entries|
      ensures Reports(entries[j], protocol, port) <==> KeyOf(agent, entries[j]) == Some(key)
    {
      ReportsIsKeyOf(agent, entries[j], protocol, port);
    }
    LastReportIsLast(agent, entries, key, i);
    ReportedIffLastReport(agent, entries, key);
  }

  /**
   A port without a report: the agent's own is closed and keeps its
   process and date, another agent's keeps everything.
   */
  lemma UnreportedRowIs(
    ports: PortTable, agent: nat, entries: seq<Entry<Port>>, now: Time, key: PortKey)
    requires key.agent == agent ==> forall e :: e in entries ==> !Reports(e, key.protocol, key.port)
    ensures key in Updated(ports, agent, entries, now) <==> key in ports
    ensures key in ports ==>
              Updated(ports, agent, entries, now)[key]
              == if key.agent == agent then ports[key].(state := "closed") else ports[key]
  {
    ReportedIffLastReport(agent, entries, key);
    var last := LastReport(agent, entries, key);
    if last.Some? {
      ReportsIsKeyOf(agent, last.value, key.protocol, key.port);
    }
  }

  /** A port one server's partition reports is not closed by another server's partition that leaves it out. */
  lemma {:induction false} UnionProtectsEveryPartition(
    listings: seq<Listing<Port>>, dictionary: Option<Dictionary<Port>>, i: nat, entry: Entry<Port>)
    requires i < |listings| && entry in Entries(listings[i], dictionary, true)
    ensures entry in Union(listings, dictionary, true)
  {
    var n := |listings|;
    if i < n - 1 {
      UnionProtectsEveryPartition(listings[..n - 1], dictionary, i, entry);
    }
  }

  /** Reporting the same thing again changes nothing. */
  lemma UpdateIsIdempotent(ports: PortTable, agent: nat, entries: seq<Entry<Port>>, now: Time)
    ensures var once := Updated(ports, agent, entries, now);
            Updated(once, agent, entries, now) == once
  {
    var once := Updated(ports, agent, entries, now);
    var twice := Updated(once, agent, entries, now);
    forall key
      ensures key in once <==> key in twice
      ensures key in once ==> once[key] == twice[key]
    {
      ReportedIffLastReport(agent, entries, key);
    }
  }

  lemma {:induction false} BareUnion(listings: seq<Listing<Port>>)
    requires forall i :: 0 <= i < |listings| ==> listings[i].Keys?
    ensures forall e :: e in Union(listings, None, true) ==> e.BareKey?
  {
    if listings != [] {
      BareUnion(listings[..|listings| - 1]);
    }
  }

  lemma BareLength<T>(keys: seq<string>)
    ensures |Bare<T>(keys)| == |keys|
  {
  }

  lemma {:induction false} BareUnionIsEmptyWhen(listings: seq<Listing<Port>>)
    requires forall i :: 0 <= i < |listings| ==> listings[i].Keys?
    ensures Union(listings, None, true) == [] <==> forall i :: 0 <= i < |listings| ==> listings[i].keys == []
  {
    var n := |listings|;
    if n > 0 {
      var front, last := listings[..n - 1], listings[n - 1].keys;
      BareUnionIsEmptyWhen(front);
      assert |Union(listings, None, true)| == |Union(front, None, true)| + |Bare<Port>(last)|;
      BareLength<Port>(last);
      assert forall i :: 0 <= i < n ==> listings[i] == if i < n - 1 then front[i] else listings[n - 1];
    }
  }

  /**
   A heartbeat that lists keys but carries no dictionary: if no partition lists a key the
   ports are left alone, and otherwise every port of the agent is closed and nothing else
   changes. So the table stays as it is exactly when there is no key, or nothing to close.
   */
  lemma KeysWithoutDictionaryCloseEverything(ports: PortTable, agent: nat, listings: seq<Listing<Port>>, now: Time)
    requires forall i :: 0 <= i < |listings| ==> listings[i].Keys?
    ensures var after := AfterHeartbeat(ports, agent, listings, None, now);
            var noKeys := forall i :: 0 <= i < |listings| ==> listings[i].keys == [];
            && after.Keys == ports.Keys
            && (forall key :: key in ports ==>
                  after[key] == if !noKeys && key.agent == agent then ports[key].(state := CLOSED) else ports[key])
            && (after == ports <==>
                  noKeys || forall key :: key in ports && key.agent == agent ==> ports[key].state == CLOSED)
  {
    BareUnionIsEmptyWhen(listings);
    BareUnion(listings);
    var union, after := Union(listings, None, true), AfterHeartbeat(ports, agent, listings, None, now);
    if union != [] {
      assert forall e :: e in union ==> KeyOf(agent, e) == None;
      NothingReported(agent, union);
    }
  }

  lemma {:induction false} NothingReported(agent: nat, entries: seq<Entry<Port>>)
    requires forall e :: e in entries ==> KeyOf(agent, e) == None
    ensures ReportedKeys(agent, entries) == {}
    ensures forall key :: LastReport(agent, entries, key).None?
  {
    forall key
      ensures key !in ReportedKeys(agent, entries) && LastReport(agent, entries, key).None?
    {
      ReportedIffLastReport(agent, entries, key);
    }
  }

  // ---- over runs ----

  /** The part of a heartbeat that concerns ports. */
  datatype Report = Report(agent: nat, listings: seq<Listing<Port>>, dictionary: Option<Dictionary<Port>>, now: Time)

  function UnionOf(report: Report): seq<Entry<Port>> {
    Union(report.listings, report.dictionary, true)
  }

  function AfterAll(ports: PortTable, reports: seq<Report>): PortTable {
    var n := |reports|;
    if n == 0 then ports
    else
      var r := reports[n - 1];
      AfterHeartbeat(AfterAll(ports, reports[..n - 1]), r.agent, r.listings, r.dictionary, r.now)
  }

  /** The last heartbeat of the agent that lists any port at all. */
  function LastListing(reports: seq<Report>, agent: nat): Option<Report> {
    var n := |reports|;
    if n == 0 then None
    else if reports[n - 1].agent == agent && UnionOf(reports[n - 1]) != [] then Some(reports[n - 1])
    else LastListing(reports[..n - 1], agent)
  }

  lemma OneReport(ports: PortTable, r: Report, key: PortKey)
    ensures var after := AfterHeartbeat(ports, r.agent, r.listings, r.dictionary, r.now);
            if r.agent == key.agent && UnionOf(r) != [] then
              IsOpen(after, key) <==> LeavesOpen(key.agent, UnionOf(r), key)
            else IsOpen(after, key) <==> IsOpen(ports, key)
  {
    if UnionOf(r) != [] {
      if r.agent == key.agent {
        OpenIffReported(ports, r.agent, UnionOf(r), r.now, key);
      } else {
        UpdateTouchesOnlyItsAgent(ports, r.agent, UnionOf(r), r.now, key);
      }
    }
  }

  /**
   Which ports are open after any heartbeats of any agents: those the agent's last heartbeat
   that listed a port reported open. Heartbeats that list no port change nothing, so an agent
   that stops listing ports leaves them as they were last; without one, the start decides.
   */
  lemma {:induction false} OpenAfterRunExactlyWhen(ports: PortTable, reports: seq<Report>, key: PortKey)
    ensures var last := LastListing(reports, key.agent);
            IsOpen(AfterAll(ports, reports), key)
            <==> if last.None? then IsOpen(ports, key) else LeavesOpen(key.agent, UnionOf(last.value), key)
  {
    var n := |reports|;
    if n > 0 {
      OpenAfterRunExactlyWhen(ports, reports[..n - 1], key);
      OneReport(AfterAll(ports, reports[..n - 1]), reports[n - 1], key);
    }
  }
}
