/** 25-synology-temperature/synology-temperature.py: one SNMP walk per NAS gives a
    list of (OID, value) pairs; those under the disk-name, disk-model and
    disk-temperature columns are grouped per disk and appended, one record per disk,
    to the caller's `outinfo` list. The SNMP transport is not modelled: the reply is
    an input, its values already turned into text by `str`. */
module SynologyTemperature {
  import opened Common

  /** diskID, diskModel and diskTemperature of the Synology disk table. */
  const NamePrefix: string := "1.3.6.1.4.1.6574.2.1.1.2"
  const ModelPrefix: string := "1.3.6.1.4.1.6574.2.1.1.3"
  const TemperaturePrefix: string := "1.3.6.1.4.1.6574.2.1.1.6"

  datatype Varbind = Varbind(oid: string, value: string)

  /** What bulkCmd answers: an error indication, an error status, or the varbinds. */
  datatype Reply = ErrorIndication | ErrorStatus | Varbinds(varbinds: seq<Varbind>)

  /** The disk-table column a varbind belongs to; disk_data stores it under the key
      'name', 'model' or 'temperature'. */
  datatype Field = Name | Model | Temperature

  /** str.startswith */
  predicate StartsWith(s: string, prefix: string) {
    prefix <= s
  }

  /** The first prefix that matches, tested in the order name, model, temperature;
      the prefix is compared as plain text, with no '.' required after it. */
  function Classify(oid: string): Option<Field> {
    if StartsWith(oid, NamePrefix) then Some(Name)
    else if StartsWith(oid, ModelPrefix) then Some(Model)
    else if StartsWith(oid, TemperaturePrefix) then Some(Temperature)
    else None
  }

  /** The three prefixes differ only in their last digit, so an OID matches at most
      one of them; the varbinds kept are exactly those under one of the prefixes. */
  lemma ClassifyExclusive(oid: string)
    ensures Classify(oid).None? <==>
              !StartsWith(oid, NamePrefix) && !StartsWith(oid, ModelPrefix) && !StartsWith(oid, TemperaturePrefix)
    ensures Classify(oid) == Some(Model) ==> StartsWith(oid, ModelPrefix) && !StartsWith(oid, NamePrefix)
    ensures !(StartsWith(oid, NamePrefix) && StartsWith(oid, ModelPrefix))
    ensures !(StartsWith(oid, NamePrefix) && StartsWith(oid, TemperaturePrefix))
    ensures !(StartsWith(oid, ModelPrefix) && StartsWith(oid, TemperaturePrefix))
  {
    var n := |NamePrefix| - 1;
    assert |NamePrefix| == |ModelPrefix| == |TemperaturePrefix|;
    assert NamePrefix[n] == '2' && ModelPrefix[n] == '3' && TemperaturePrefix[n] == '6';
    assert StartsWith(oid, NamePrefix) ==> oid[n] == '2';
    assert StartsWith(oid, ModelPrefix) ==> oid[n] == '3';
    assert StartsWith(oid, TemperaturePrefix) ==> oid[n] == '6';
  }

  /** An OID of another column whose number starts with 2 still counts as a name:
      the tenth column's prefix ...2.1.1.20 is taken for ...2.1.1.2. */
  lemma NoDotBoundary()
    ensures Classify("1.3.6.1.4.1.6574.2.1.1.20.1") == Some(Name)
  {
    assert NamePrefix <= "1.3.6.1.4.1.6574.2.1.1.20.1";
  }

  /** oid_str.split('.')[-1]: the text after the last '.'. */
  function DiskIndex(oid: string): string {
    var pieces := Split(oid, '.');
    pieces[|pieces| - 1]
  }

  /** The disk index is the longest suffix of the OID without a '.'. */
  lemma DiskIndexIsLastComponent(oid: string)
    ensures '.' !in DiskIndex(oid)
    ensures |DiskIndex(oid)| <= |oid| && oid[|oid| - |DiskIndex(oid)|..] == DiskIndex(oid)
    ensures |DiskIndex(oid)| < |oid| ==> oid[|oid| - |DiskIndex(oid)| - 1] == '.'
  {
    var pieces := Split(oid, '.');
    var last := pieces[|pieces| - 1];
    assert DiskIndex(oid) == last && '.' !in last;
    JoinSplit(oid, '.');
    if |pieces| == 1 {
      assert oid == last;
    } else {
      JoinLast(pieces, ".");
      var front := Join(pieces[..|pieces| - 1], ".");
      assert oid == front + "." + last;
      assert |oid| - |last| == |front| + 1;
      assert oid[|front| + 1..] == last;
      assert oid[|front|] == '.';
    }
  }

  /** A join of two or more pieces ends with the separator and the last piece. */
  lemma {:induction false} JoinLast(parts: seq<string>, sep: string)
    requires |parts| >= 2
    ensures Join(parts, sep) == Join(parts[..|parts| - 1], sep) + sep + parts[|parts| - 1]
  {
    var n := |parts|;
    if n == 2 {
      assert Join(parts[1..], sep) == parts[1];
      assert Join(parts[..1], sep) == parts[0];
    } else {
      var tail := parts[1..];
      JoinLast(tail, sep);
      assert tail[..n - 2] == parts[..n - 1][1..];
      assert tail[n - 2] == parts[n - 1];
      var middle := Join(tail[..n - 2], sep);
      assert Join(parts, sep) == parts[0] + sep + (middle + sep + parts[n - 1]);
      assert Join(parts[..n - 1], sep) == parts[0] + sep + middle;
    }
  }

  /** A place in disk_data: a disk index and one of its fields. */
  datatype Slot = Slot(index: string, field: Field)

  /** Where the loop files a varbind: under its disk index and field, or nowhere. */
  function Filing(vb: Varbind): Option<Slot> {
    match Classify(vb.oid)
    case Some(f) => Some(Slot(DiskIndex(vb.oid), f))
    case None => None
  }

  /** Some varbind is filed under disk `index`. */
  predicate Seen(vbs: seq<Varbind>, index: string) {
    exists i :: 0 <= i < |vbs| && Filing(vbs[i]).Some? && Filing(vbs[i]).value.index == index
  }

  lemma SeenSnoc(vbs: seq<Varbind>, vb: Varbind, index: string)
    ensures Seen(vbs + [vb], index) <==> Seen(vbs, index) || (Filing(vb).Some? && Filing(vb).value.index == index)
  {
    var s := vbs + [vb];
    assert forall i :: 0 <= i < |vbs| ==> s[i] == vbs[i];
    assert s[|vbs|] == vb;
  }

  /** The disk indices in the order they are first met (the key order of
      disk_data): no index twice, and exactly the indices something is filed under. */
  function FirstSeen(vbs: seq<Varbind>): (order: seq<string>)
    ensures forall i, j :: 0 <= i < j < |order| ==> order[i] != order[j]
    ensures forall x :: x in order <==> Seen(vbs, x)
  {
    if vbs == [] then []
    else
      var init, vb := vbs[..|vbs| - 1], vbs[|vbs| - 1];
      var prior := FirstSeen(init);
      assert vbs == init + [vb];
      assert forall x :: Seen(vbs, x) <==> Seen(init, x) || (Filing(vb).Some? && Filing(vb).value.index == x) by {
        forall x { SeenSnoc(init, vb, x); }
      }
      match Filing(vb)
      case Some(Slot(index, _)) => if index !in prior then prior + [index] else prior
      case None => prior
  }

  /** disk_data[index]: for each field, the value of the last varbind filed under
      that disk and field (the keys 'name', 'model' and 'temperature' are the three
      fields). */
  function Info(vbs: seq<Varbind>, index: string): map<Field, string> {
    if vbs == [] then map[]
    else
      var prior := Info(vbs[..|vbs| - 1], index);
      var vb := vbs[|vbs| - 1];
      match Filing(vb)
      case Some(Slot(i, f)) => if i == index then prior[f := vb.value] else prior
      case None => prior
  }

  lemma FirstSeenSnoc(vbs: seq<Varbind>, vb: Varbind)
    ensures Filing(vb).None? ==> FirstSeen(vbs + [vb]) == FirstSeen(vbs)
    ensures Filing(vb).Some? ==>
              FirstSeen(vbs + [vb]) == if Filing(vb).value.index in FirstSeen(vbs) then FirstSeen(vbs)
                                       else FirstSeen(vbs) + [Filing(vb).value.index]
    ensures forall x :: Info(vbs + [vb], x) == if Filing(vb).Some? && Filing(vb).value.index == x
                                               then Info(vbs, x)[Filing(vb).value.field := vb.value]
                                               else Info(vbs, x)
  {
    assert (vbs + [vb])[..|vbs|] == vbs;
  }

  /** A disk nothing is filed under has no data. */
  lemma {:induction false} InfoOnlySeen(vbs: seq<Varbind>, index: string)
    requires !Seen(vbs, index)
    ensures Info(vbs, index) == map[]
    decreases |vbs|
  {
    if vbs != [] {
      var init := vbs[..|vbs| - 1];
      SeenSnoc(init, vbs[|vbs| - 1], index);
      assert vbs == init + [vbs[|vbs| - 1]];
      InfoOnlySeen(init, index);
    }
  }

  /** The value kept for a disk and field is that of the last varbind filed there. */
  lemma {:induction false} LaterOverwrites(vbs: seq<Varbind>, i: nat, index: string, f: Field)
    requires i < |vbs| && Filing(vbs[i]) == Some(Slot(index, f))
    requires forall j :: i < j < |vbs| ==> Filing(vbs[j]) != Some(Slot(index, f))
    ensures f in Info(vbs, index) && Info(vbs, index)[f] == vbs[i].value
    decreases |vbs|
  {
    if i < |vbs| - 1 {
      var init := vbs[..|vbs| - 1];
      assert init[i] == vbs[i];
      LaterOverwrites(init, i, index, f);
    }
  }

  /** A disk with no varbind filed under a field has no value for it. */
  lemma {:induction false} NeverFiledAbsent(vbs: seq<Varbind>, index: string, f: Field)
    requires forall j :: 0 <= j < |vbs| ==> Filing(vbs[j]) != Some(Slot(index, f))
    ensures f !in Info(vbs, index)
    decreases |vbs|
  {
    if vbs != [] {
      var init := vbs[..|vbs| - 1];
      assert forall j :: 0 <= j < |init| ==> init[j] == vbs[j];
      NeverFiledAbsent(init, index, f);
    }
  }

  /** info.get(key, 'Unknown') */
  function Get(info: map<Field, string>, f: Field): (v: string)
    ensures f in info ==> v == info[f]
    ensures f !in info ==> v == "Unknown"
  {
    if f in info then info[f] else "Unknown"
  }

  /** The record appended for one disk, sent as a JSON object with the keys
      server_name, ip, disk, name, model and temperature. */
  datatype Record = Record(serverName: string, ip: string, disk: string, name: string, model: string, temperature: string)

  /** The record's value under a field's key. */
  function Value(r: Record, f: Field): string {
    match f
    case Name => r.name
    case Model => r.model
    case Temperature => r.temperature
  }

  /** The record for one disk: each field 'Unknown' when the disk has none. */
  function Entry(serverName: string, ip: string, index: string, info: map<Field, string>): (r: Record)
    ensures r.serverName == serverName && r.ip == ip && r.disk == index
    ensures forall f :: Value(r, f) == Get(info, f)
  {
    Record(serverName, ip, index, Get(info, Name), Get(info, Model), Get(info, Temperature))
  }

  /** The records one successful walk contributes: one per disk, in first-seen order. */
  function Entries(serverName: string, ip: string, vbs: seq<Varbind>): (r: seq<Record>)
    ensures |r| == |FirstSeen(vbs)|
  {
    var order := FirstSeen(vbs);
    seq(|order|, k requires 0 <= k < |order| => Entry(serverName, ip, order[k], Info(vbs, order[k])))
  }

  /** Each disk met in the walk gets exactly one record, and each record is about a
      disk met in the walk. */
  lemma EntriesPerDisk(serverName: string, ip: string, vbs: seq<Varbind>)
    ensures forall i, j :: 0 <= i < j < |Entries(serverName, ip, vbs)| ==>
              Entries(serverName, ip, vbs)[i].disk != Entries(serverName, ip, vbs)[j].disk
    ensures forall k :: 0 <= k < |Entries(serverName, ip, vbs)| ==> Seen(vbs, Entries(serverName, ip, vbs)[k].disk)
    ensures forall x :: Seen(vbs, x) ==>
              exists k :: 0 <= k < |Entries(serverName, ip, vbs)| && Entries(serverName, ip, vbs)[k].disk == x
  {
    var order := FirstSeen(vbs);
    var es := Entries(serverName, ip, vbs);
    assert forall k :: 0 <= k < |es| ==> es[k].disk == order[k];
    forall x | Seen(vbs, x) ensures exists k :: 0 <= k < |es| && es[k].disk == x {
      assert x in order;
      var k :| 0 <= k < |order| && order[k] == x;
      assert es[k].disk == x;
    }
  }

  /** A disk's record reports, for each field, the value of the last varbind filed
      under that disk and field, and 'Unknown' when there is none. */
  lemma EntryReportsLast(serverName: string, ip: string, vbs: seq<Varbind>, index: string, f: Field)
    ensures (forall j :: 0 <= j < |vbs| ==> Filing(vbs[j]) != Some(Slot(index, f))) ==>
              Value(Entry(serverName, ip, index, Info(vbs, index)), f) == "Unknown"
    ensures forall i :: 0 <= i < |vbs| && Filing(vbs[i]) == Some(Slot(index, f)) &&
                        (forall j :: i < j < |vbs| ==> Filing(vbs[j]) != Some(Slot(index, f))) ==>
              Value(Entry(serverName, ip, index, Info(vbs, index)), f) == vbs[i].value
  {
    var r := Entry(serverName, ip, index, Info(vbs, index));
    assert Value(r, f) == Get(Info(vbs, index), f);
    if forall j :: 0 <= j < |vbs| ==> Filing(vbs[j]) != Some(Slot(index, f)) {
      NeverFiledAbsent(vbs, index, f);
    }
    forall i | 0 <= i < |vbs| && Filing(vbs[i]) == Some(Slot(index, f)) &&
               (forall j :: i < j < |vbs| ==> Filing(vbs[j]) != Some(Slot(index, f)))
      ensures Value(r, f) == vbs[i].value
    {
      LaterOverwrites(vbs, i, index, f);
    }
  }

  /** The caller's `outinfo` list, appended to in place. */
  class OutInfo {
    var entries: seq<Record>

    constructor ()
      ensures entries == []
    {
      entries := [];
    }

    method Append(e: Record)
      modifies this
      ensures entries == old(entries) + [e]
    {
      entries := entries + [e];
    }
  }

  /** `order` and `diskData` are what the disk_data loop has built from `vbs`: the
      disks in first-seen order, each with its data. */
  ghost predicate Collected(vbs: seq<Varbind>, order: seq<string>, diskData: map<string, map<Field, string>>) {
    && order == FirstSeen(vbs)
    && (forall x :: x in diskData <==> x in order)
    && (forall x :: x in diskData ==> diskData[x] == Info(vbs, x))
  }

  /** Filing one more varbind: a new disk joins the order with no fields, then the
      varbind's field is set; a varbind filed nowhere changes nothing. */
  lemma CollectedStep(vbs: seq<Varbind>, vb: Varbind, order: seq<string>, diskData: map<string, map<Field, string>>)
    requires Collected(vbs, order, diskData)
    ensures Filing(vb).None? ==> Collected(vbs + [vb], order, diskData)
    ensures Filing(vb).Some? ==>
              var slot := Filing(vb).value;
              var fields := if slot.index in diskData then diskData[slot.index] else map[];
              Collected(vbs + [vb], if slot.index in diskData then order else order + [slot.index],
                        diskData[slot.index := fields[slot.field := vb.value]])
  {
    if Filing(vb).Some? {
      FiledStep(vbs, vb, order, diskData);
    } else {
      FirstSeenSnoc(vbs, vb);
      forall x | x in diskData ensures diskData[x] == Info(vbs + [vb], x) {
        assert Info(vbs + [vb], x) == Info(vbs, x);
      }
    }
  }

  /** CollectedStep for a varbind that is filed. */
  lemma FiledStep(vbs: seq<Varbind>, vb: Varbind, order: seq<string>, diskData: map<string, map<Field, string>>)
    requires Collected(vbs, order, diskData) && Filing(vb).Some?
    ensures var slot := Filing(vb).value;
            var fields := if slot.index in diskData then diskData[slot.index] else map[];
            Collected(vbs + [vb], if slot.index in diskData then order else order + [slot.index],
                      diskData[slot.index := fields[slot.field := vb.value]])
  {
    FirstSeenSnoc(vbs, vb);
    var slot := Filing(vb).value;
    if slot.index !in diskData {
      InfoOnlySeen(vbs, slot.index);
    }
    var fields := if slot.index in diskData then diskData[slot.index] else map[];
    var updated := diskData[slot.index := fields[slot.field := vb.value]];
    var order' := if slot.index in diskData then order else order + [slot.index];
    assert order' == FirstSeen(vbs + [vb]);
    assert forall x :: x in updated <==> x in order';
    forall x | x in updated ensures updated[x] == Info(vbs + [vb], x) {
      if x != slot.index {
        assert updated[x] == diskData[x];
      }
    }
    assert Collected(vbs + [vb], order', updated);
  }

  /** `disk_data[index][field] = value`, creating the disk's entry first (and
      noting its place in the order) when it is new. */
  method FileValue(order: seq<string>, diskData: map<string, map<Field, string>>, index: string, field: Field, value: string)
    returns (order': seq<string>, diskData': map<string, map<Field, string>>)
    ensures order' == if index in diskData then order else order + [index]
    ensures diskData' == diskData[index := (if index in diskData then diskData[index] else map[])[field := value]]
  {
    order', diskData' := order, diskData;
    if index !in diskData' {
      diskData' := diskData'[index := map[]];
      order' := order' + [index];
    }
    diskData' := diskData'[index := diskData'[index][field := value]];
  }

  /** The disk_data loop: every varbind in turn, filed under its disk and field. */
  method CollectDisks(vbs: seq<Varbind>) returns (order: seq<string>, diskData: map<string, map<Field, string>>)
    ensures order == FirstSeen(vbs)
    ensures forall x :: x in diskData <==> x in order
    ensures forall x :: x in diskData ==> diskData[x] == Info(vbs, x)
  {
    order, diskData := [], map[];
    var i := 0;
    while i < |vbs|
      invariant 0 <= i <= |vbs|
      invariant Collected(vbs[..i], order, diskData)
    {
      var vb := vbs[i];
      assert vbs[..i + 1] == vbs[..i] + [vb];
      CollectedStep(vbs[..i], vb, order, diskData);
      var slot := Filing(vb);
      if slot.Some? {
        order, diskData := FileValue(order, diskData, slot.value.index, slot.value.field, vb.value);
      }
      i := i + 1;
    }
    assert vbs[..i] == vbs;
  }

  /** The records for the disks in `order`, each from its entry in `diskData`. */
  function EntriesOf(serverName: string, ip: string, order: seq<string>, diskData: map<string, map<Field, string>>): (r: seq<Record>)
    requires forall x :: x in order ==> x in diskData
    ensures |r| == |order|
    ensures forall k :: 0 <= k < |order| ==> r[k] == Entry(serverName, ip, order[k], diskData[order[k]])
  {
    seq(|order|, k requires 0 <= k < |order| => Entry(serverName, ip, order[k], diskData[order[k]]))
  }

  /** The loop over disk_data.items(): one record per disk appended to `outinfo`. */
  method AppendEntries(serverName: string, ip: string, order: seq<string>, diskData: map<string, map<Field, string>>, outinfo: OutInfo)
    requires forall x :: x in order ==> x in diskData
    modifies outinfo
    ensures outinfo.entries == old(outinfo.entries) + EntriesOf(serverName, ip, order, diskData)
  {
    ghost var expected := EntriesOf(serverName, ip, order, diskData);
    var k := 0;
    while k < |order|
      invariant 0 <= k <= |order|
      invariant outinfo.entries == old(outinfo.entries) + expected[..k]
    {
      var index := order[k];
      outinfo.Append(Entry(serverName, ip, index, diskData[index]));
      assert expected[..k + 1] == expected[..k] + [expected[k]];
      k := k + 1;
    }
    assert expected[..k] == expected;
  }

  /** run: on an error nothing is appended; otherwise one record per disk, in the
      order the disks were first met. */
  method Run(serverName: string, ip: string, reply: Reply, outinfo: OutInfo)
    modifies outinfo
    ensures reply.Varbinds? ==> outinfo.entries == old(outinfo.entries) + Entries(serverName, ip, reply.varbinds)
    ensures !reply.Varbinds? ==> outinfo.entries == old(outinfo.entries)
  {
    if !reply.Varbinds? {
      return;
    }
    var order, diskData := CollectDisks(reply.varbinds);
    AppendEntries(serverName, ip, order, diskData, outinfo);
    assert EntriesOf(serverName, ip, order, diskData) == Entries(serverName, ip, reply.varbinds);
  }

  datatype Server = Server(name: string, ip: string)

  /** What run appends for one server and its reply. */
  function ServerEntries(server: Server, reply: Reply): seq<Record> {
    if reply.Varbinds? then Entries(server.name, server.ip, reply.varbinds) else []
  }

  /** The records of all servers, in server order. */
  function AllEntries(servers: seq<Server>, replies: seq<Reply>): seq<Record>
    requires |replies| == |servers|
  {
    if servers == [] then []
    else
      var n := |servers| - 1;
      AllEntries(servers[..n], replies[..n]) + ServerEntries(servers[n], replies[n])
  }

  /** One round of the main loop up to the sending: a fresh `outinfo`, then run for
      each server with its reply. */
  method PollServers(servers: seq<Server>, replies: seq<Reply>) returns (outinfo: OutInfo)
    requires |replies| == |servers|
    ensures fresh(outinfo)
    ensures outinfo.entries == AllEntries(servers, replies)
  {
    outinfo := new OutInfo();
    var i := 0;
    while i < |servers|
      invariant 0 <= i <= |servers|
      invariant outinfo.entries == AllEntries(servers[..i], replies[..i])
    {
      Run(servers[i].name, servers[i].ip, replies[i], outinfo);
      assert outinfo.entries == AllEntries(servers[..i], replies[..i]) + ServerEntries(servers[i], replies[i]);
      assert servers[..i + 1][..i] == servers[..i] && replies[..i + 1][..i] == replies[..i];
      i := i + 1;
    }
    assert servers[..i] == servers && replies[..i] == replies;
  }

  // wait_until_next_5_min, in integer microseconds.

  const UsPerMinute: int := 60_000_000
  const UsPerFiveMinutes: int := 5 * UsPerMinute

  /** The minute of the hour and the minute of the clock agree modulo 5. */
  lemma MinuteOfHourMod5(m: int)
    ensures m % 60 % 5 == m % 5
  {
    var a, b := m / 60, m % 60;
    var c, d := b / 5, b % 5;
    assert m == 5 * (12 * a + c) + d;
  }

  /** next_5_min: now plus 5 - now.minute % 5 minutes, with seconds and microseconds
      set to zero. It is the first minute divisible by 5 after the current minute. */
  function NextFiveMinuteMark(now: int): (mark: int)
    ensures mark % UsPerFiveMinutes == 0
    ensures now / UsPerMinute * UsPerMinute < mark <= now / UsPerMinute * UsPerMinute + UsPerFiveMinutes
    ensures mark == (now / UsPerMinute / 5 + 1) * UsPerFiveMinutes
  {
    var minute := now / UsPerMinute;
    MinuteOfHourMod5(minute);
    var target := minute + 5 - minute % 60 % 5;
    var q := minute / 5;
    assert target == 5 * q + 5;
    assert target * UsPerMinute == (q + 1) * UsPerFiveMinutes;
    target * UsPerMinute
  }

  /** wait_seconds, in microseconds: positive and at most five minutes; exactly five
      minutes when now is on a five-minute mark. */
  function WaitTime(now: int): (wait: int)
    ensures 0 < wait <= UsPerFiveMinutes
    ensures (now + wait) % UsPerFiveMinutes == 0
    ensures wait == UsPerFiveMinutes <==> now % UsPerFiveMinutes == 0
  {
    var mark := NextFiveMinuteMark(now);
    var m, r := now / UsPerMinute, now % UsPerMinute;
    var q, s := m / 5, m % 5;
    assert now == q * UsPerFiveMinutes + (s * UsPerMinute + r);
    DivModFive(now, q, s * UsPerMinute + r);
    DivModFive(mark, q + 1, 0);
    mark - now
  }

  /** The quotient and remainder by five minutes are the q and x with
      n = q * five minutes + x. */
  lemma DivModFive(n: int, q: int, x: int)
    requires n == q * UsPerFiveMinutes + x && 0 <= x < UsPerFiveMinutes
    ensures n / UsPerFiveMinutes == q && n % UsPerFiveMinutes == x
  {
  }

  /** The wake-up is the first five-minute mark after the current minute: no mark
      lies strictly between the current minute and it. */
  lemma WaitIsLeast(now: int, mark: int)
    requires mark % UsPerFiveMinutes == 0 && now / UsPerMinute * UsPerMinute < mark
    ensures now + WaitTime(now) <= mark
  {
    var a, b := (now + WaitTime(now)) / UsPerFiveMinutes, mark / UsPerFiveMinutes;
    assert now + WaitTime(now) == a * UsPerFiveMinutes;
    assert mark == b * UsPerFiveMinutes;
    var m := now / UsPerMinute;
    assert m * UsPerMinute <= now;
    assert now + WaitTime(now) <= m * UsPerMinute + UsPerFiveMinutes;
    assert a - 1 < b;
  }
}
