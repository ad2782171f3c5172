/** The 2016 resolver: device ids are the largest one plus one, service ids come from a counter,
    and every request is one database transaction over two tables. */
module Resolver {
  import opened Wrappers
  import opened Decimal
  import opened Requests

  datatype DeviceEntry = DeviceEntry(deviceID: string, iface: string, mac: string, ip: string, wifiSSID: string,
                                     relay: string)

  /** The strings that `genServiceID` knows, and all the others. */
  datatype ServiceType = Streaming | Web | Voice | FileTransfer | Game | BestEffort | Unknown(name: string)

  datatype ServiceEntry = ServiceEntry(serviceID: string, deviceID: string, serviceType: ServiceType,
                                       attributes: seq<string>)

  /** The tables and the process-wide counter. */
  datatype Store = Store(manageNum: nat, device: seq<DeviceEntry>, service: seq<ServiceEntry>)

  /** `str` on an int. */
  function StrInt(n: int): string {
    if n < 0 then "-" + Str(-n) else Str(n)
  }

  function IdsOf(device: seq<DeviceEntry>): set<string> {
    set r | r in device :: r.deviceID
  }

  /** `SELECT MAX(CAST(deviceID AS SIGNED))`. */
  function MaxId(device: seq<DeviceEntry>): (m: int)
    requires device != []
    ensures forall r :: r in device ==> Value(r.deviceID) <= m
    ensures exists r :: r in device && Value(r.deviceID) == m
  {
    var last := device[|device| - 1];
    var earlier := device[..|device| - 1];
    assert device == earlier + [last];
    if earlier == [] then
      assert last in device;
      Value(last.deviceID)
    else
      var m := MaxId(earlier);
      if Value(last.deviceID) > m then
        assert last in device;
        Value(last.deviceID)
      else
        var r :| r in earlier && Value(r.deviceID) == m;
        assert r in device;
        m
  }

  function NewDeviceId(device: seq<DeviceEntry>): string {
    if device == [] then "1" else StrInt(MaxId(device) + 1)
  }

  /** Every device id was printed from a positive number. */
  ghost predicate Canonical(device: seq<DeviceEntry>) {
    forall r :: r in device ==> Value(r.deviceID) >= 1 && r.deviceID == Str(Value(r.deviceID))
  }

  lemma {:induction false} NewDeviceIdIsNew(device: seq<DeviceEntry>)
    requires Canonical(device)
    ensures Value(NewDeviceId(device)) >= 1 && NewDeviceId(device) == Str(Value(NewDeviceId(device)))
    ensures forall r :: r in device ==> Value(r.deviceID) < Value(NewDeviceId(device))
    ensures NewDeviceId(device) !in IdsOf(device)
  {
    if device == [] {
      assert Str(1) == "1";
      ValueOfStr(1);
    } else {
      ValueOfStr(MaxId(device) + 1);
    }
  }

  /** It is the next number: "1" for an empty table, else one more than the largest id there. */
  lemma {:induction false} NewDeviceIdIsNext(device: seq<DeviceEntry>)
    ensures device == [] ==> NewDeviceId(device) == "1"
    ensures Canonical(device) && device != [] ==> IsNextAfter(NewDeviceId(device), device)
  {
    if Canonical(device) && device != [] {
      NewDeviceIdIsNew(device);
      ValueOfStr(MaxId(device) + 1);
    }
  }

  /** The printed number that is one more than the largest id. */
  ghost predicate IsNextAfter(id: string, device: seq<DeviceEntry>) {
    && Value(id) >= 0 && id == Str(Value(id))
    && (exists r :: r in device && Value(r.deviceID) + 1 == Value(id))
    && forall r :: r in device ==> Value(r.deviceID) < Value(id)
  }

  /** The id made from the counter value `n`; an unknown type gets the number 1. */
  function ServiceId(serviceType: ServiceType, n: nat): string {
    match serviceType
    case Streaming => "0" + Pad4(n) + "0"
    case Web => "1" + Pad4(n) + "0"
    case Voice => "1" + Pad4(n) + "1"
    case FileTransfer => "0" + Pad4(n) + "1"
    case Game => "0" + Pad4(n) + "0"
    case BestEffort => "0" + Pad4(n) + "0"
    case Unknown(_) => "1"
  }

  lemma {:induction false} ServiceIdMiddle(serviceType: ServiceType, n: nat)
    requires !serviceType.Unknown?
    ensures var s := ServiceId(serviceType, n); |s| >= 6 && Value(s[1..|s| - 1]) == n
  {
    var s := ServiceId(serviceType, n);
    assert s[1..|s| - 1] == Pad4(n);
    ValueOfPad4(n);
  }

  /** An id begins with 1 for Web and Voice and else with 0, ends with 1 for Voice and FileTransfer and else
      with 0, and has the counter in between, in four digits or more. */
  lemma {:induction false} ServiceIdDigits(serviceType: ServiceType, n: nat)
    ensures serviceType.Unknown? ==> ServiceId(serviceType, n) == "1"
    ensures !serviceType.Unknown? ==>
              var s := ServiceId(serviceType, n);
              && |s| >= 6 && Value(s[1..|s| - 1]) == n && (|s| == 6 || s[1..|s| - 1] == Str(n))
              && s[0] == (if serviceType.Web? || serviceType.Voice? then '1' else '0')
              && s[|s| - 1] == (if serviceType.Voice? || serviceType.FileTransfer? then '1' else '0')
  {
    if !serviceType.Unknown? {
      var s := ServiceId(serviceType, n);
      assert s[1..|s| - 1] == Pad4(n);
      ValueOfPad4(n);
    }
  }

  /** The ids of known types made at different counter values differ, whatever the types and also
      past 9999, where the padding ends; and none is an unknown type's "1". */
  lemma {:induction false} ServiceIdsDistinct(t: ServiceType, m: nat, u: ServiceType, n: nat)
    requires !t.Unknown? && m != n
    ensures ServiceId(t, m) != ServiceId(u, n)
  {
    ServiceIdMiddle(t, m);
    if !u.Unknown? { ServiceIdMiddle(u, n); }
  }

  // ---------- transactions ----------

  datatype Step =
    | JoinStep(rows: seq<DeviceEntry>)
    | UpdateStep(id: string, added: seq<ServiceEntry>, calls: nat)
    | LeaveStep(id: string)

  function KeepDevices(rows: seq<DeviceEntry>, id: string): (r: seq<DeviceEntry>)
    ensures forall x :: x in r <==> x in rows && x.deviceID != id
    ensures r == [] <==> forall x :: x in rows ==> x.deviceID == id
  {
    if rows == [] then []
    else
      assert rows == [rows[0]] + rows[1..];
      (if rows[0].deviceID != id then [rows[0]] else []) + KeepDevices(rows[1..], id)
  }

  /** Deleting rows keeps the others in order. */
  function KeepServices(rows: seq<ServiceEntry>, id: string): (r: seq<ServiceEntry>)
    ensures forall x :: x in r <==> x in rows && x.deviceID != id
  {
    if rows == [] then []
    else
      assert rows == [rows[0]] + rows[1..];
      (if rows[0].deviceID != id then [rows[0]] else []) + KeepServices(rows[1..], id)
  }

  /** An entry of device `id` made when the counter stood at `n`. */
  ghost predicate Made(id: string, entry: ServiceEntry, n: nat) {
    entry.deviceID == id && entry.serviceID == ServiceId(entry.serviceType, n)
  }

  /** The entries carry the ids of consecutive counter values. */
  ghost predicate MadeFrom(id: string, entries: seq<ServiceEntry>, n: nat) {
    forall i :: 0 <= i < |entries| ==> Made(id, entries[i], n + i)
  }

  /** One more requested service, with the next counter value. */
  lemma {:induction false} MadeNext(id: string, list: seq<ServiceRequest>, entries: seq<ServiceEntry>, n: nat,
                                    entry: ServiceEntry)
    requires |entries| < |list| && MadeFrom(id, entries, n) && Started(list, entries)
    requires Made(id, entry, n + |entries|) && Matching(list[|entries|], entry)
    ensures MadeFrom(id, entries + [entry], n) && Started(list, entries + [entry])
  {
    var more := entries + [entry];
    forall i | 0 <= i < |more| ensures Made(id, more[i], n + i) && Matching(list[i], more[i]) {
      if i < |entries| { assert more[i] == entries[i]; }
    }
  }

  /** A completed or rolled back transaction. A failing update has already counted up, and may leave
      the entries it made so far behind: its `ALTER TABLE` commits them. */
  ghost predicate Next(s: Store, step: Step, s': Store) {
    match step
    case JoinStep(rows) =>
      && (forall r :: r in rows ==> r.deviceID == NewDeviceId(s.device))
      && s' == s.(device := s.device + rows)
    case UpdateStep(id, added, calls) =>
      && (id in IdsOf(s.device) || (added == [] && calls == 0))
      && |added| <= calls
      && MadeFrom(id, added, s.manageNum + 1)
      && s' == s.(manageNum := s.manageNum + calls, service := s.service + added)
    case LeaveStep(id) =>
      s' == s.(device := KeepDevices(s.device, id), service := KeepServices(s.service, id))
  }

  ghost predicate IsRun(run: seq<Store>, steps: seq<Step>) {
    && |run| == |steps| + 1
    && forall i :: 0 <= i < |steps| ==> Next(run[i], steps[i], run[i + 1])
  }

  /** Every service belongs to a device. */
  ghost predicate Referential(s: Store) {
    forall e :: e in s.service ==> e.deviceID in IdsOf(s.device)
  }

  /** Increasing counter values between `low` and `high` from which the services' ids were made. */
  ghost predicate NumberedRows(rows: seq<ServiceEntry>, numbers: seq<nat>, low: nat, high: nat) {
    && |numbers| == |rows|
    && (forall i :: 0 <= i < |numbers| ==> low <= numbers[i] <= high)
    && (forall i :: 0 <= i < |numbers| ==> rows[i].serviceID == ServiceId(rows[i].serviceType, numbers[i]))
    && (forall i, j :: 0 <= i < j < |numbers| ==> numbers[i] < numbers[j])
  }

  ghost predicate Numbered(s: Store, numbers: seq<nat>) {
    NumberedRows(s.service, numbers, 1, s.manageNum)
  }

  ghost predicate Good(s: Store) {
    Canonical(s.device) && Referential(s)
  }

  lemma {:induction false} StepKeepsGood(s: Store, step: Step, s': Store)
    requires Good(s) && Next(s, step, s')
    ensures Good(s')
  {
    if step.JoinStep? {
      NewDeviceIdIsNew(s.device);
      forall e | e in s'.service ensures e.deviceID in IdsOf(s'.device) {
        var r :| r in s.device && r.deviceID == e.deviceID;
        assert r in s'.device;
      }
    } else if step.LeaveStep? {
      forall e | e in s'.service ensures e.deviceID in IdsOf(s'.device) {
        var r :| r in s.device && r.deviceID == e.deviceID;
        assert r in s'.device;
      }
    }
  }

  /** Referential integrity in every state of every run, with ids reused: from empty tables, or from the
      tables that an earlier process left. */
  lemma {:induction false} AlwaysReferential(run: seq<Store>, steps: seq<Step>, n: nat)
    requires IsRun(run, steps) && n < |run| && Good(run[0])
    ensures Good(run[n])
  {
    if n > 0 {
      AlwaysReferential(run, steps, n - 1);
      StepKeepsGood(run[n - 1], steps[n - 1], run[n]);
    }
  }

  /** A joining device never inherits anything: in every state of every run neither table knows the id
      that the next join hands out. */
  lemma {:induction false} JoinInheritsNothing(run: seq<Store>, steps: seq<Step>, n: nat)
    requires IsRun(run, steps) && n < |run| && Good(run[0])
    ensures NewDeviceId(run[n].device) !in IdsOf(run[n].device)
    ensures forall e :: e in run[n].service ==> e.deviceID != NewDeviceId(run[n].device)
  {
    AlwaysReferential(run, steps, n);
    NewDeviceIdIsNew(run[n].device);
  }

  /** Ids are reused: when the device that joined last leaves, the next join gets its id. */
  lemma {:induction false} LargestIdIsReused(s: Store, rows: seq<DeviceEntry>, s1: Store, s2: Store)
    requires Good(s) && rows != []
    requires Next(s, JoinStep(rows), s1) && Next(s1, LeaveStep(rows[0].deviceID), s2)
    ensures NewDeviceId(s2.device) == rows[0].deviceID
  {
    var id := rows[0].deviceID;
    assert rows[0] in rows;
    NewDeviceIdIsNew(s.device);
    KeepAppended(s.device, rows, id);
  }

  lemma {:induction false} KeepAppended(a: seq<DeviceEntry>, b: seq<DeviceEntry>, id: string)
    requires id !in IdsOf(a) && forall r :: r in b ==> r.deviceID == id
    ensures KeepDevices(a + b, id) == a
  {
    if a == [] {
      assert a + b == b;
    } else {
      assert (a + b)[1..] == a[1..] + b;
      assert a[0].deviceID != id by { assert a[0] in a; }
      assert id !in IdsOf(a[1..]) by { assert forall r :: r in a[1..] ==> r in a; }
      KeepAppended(a[1..], b, id);
    }
  }

  lemma {:induction false} NumberedTail(rows: seq<ServiceEntry>, numbers: seq<nat>, low: nat, high: nat)
    requires rows != [] && NumberedRows(rows, numbers, low, high)
    ensures NumberedRows(rows[1..], numbers[1..], numbers[0] + 1, high)
  {
  }

  lemma {:induction false} NumberedCons(row: ServiceEntry, n: nat, rows: seq<ServiceEntry>, numbers: seq<nat>,
                                        low: nat, high: nat)
    requires NumberedRows(rows, numbers, n + 1, high) && low <= n <= high
    requires row.serviceID == ServiceId(row.serviceType, n)
    ensures NumberedRows([row] + rows, [n] + numbers, low, high)
  {
  }

  lemma {:induction false} KeepNumbered(rows: seq<ServiceEntry>, numbers: seq<nat>, id: string, low: nat, high: nat)
      returns (kept: seq<nat>)
    requires NumberedRows(rows, numbers, low, high)
    ensures NumberedRows(KeepServices(rows, id), kept, low, high)
  {
    if rows == [] {
      kept := [];
    } else {
      NumberedTail(rows, numbers, low, high);
      kept := KeepNumbered(rows[1..], numbers[1..], id, numbers[0] + 1, high);
      if rows[0].deviceID != id {
        NumberedCons(rows[0], numbers[0], KeepServices(rows[1..], id), kept, low, high);
        kept := [numbers[0]] + kept;
      } else {
        assert KeepServices(rows, id) == KeepServices(rows[1..], id);
      }
    }
  }

  lemma {:induction false} NumberedSnoc(rows: seq<ServiceEntry>, numbers: seq<nat>, low: nat, high: nat,
                                        id: string, row: ServiceEntry)
    requires NumberedRows(rows, numbers, low, high) && low <= high + 1 && Made(id, row, high + 1)
    ensures NumberedRows(rows + [row], numbers + [high + 1], low, high + 1)
  {
  }

  lemma {:induction false} MadeAfter(id: string, added: seq<ServiceEntry>, n: nat)
    requires MadeFrom(id, added, n) && added != []
    ensures Made(id, added[0], n) && MadeFrom(id, added[1..], n + 1)
  {
  }

  lemma {:induction false} OneThenRest(rows: seq<ServiceEntry>, added: seq<ServiceEntry>)
    requires added != []
    ensures rows + [added[0]] + added[1..] == rows + added
  {
  }

  /** Entries made from the next counter values on keep the table numbered. */
  lemma {:induction false} AddNumbered(rows: seq<ServiceEntry>, numbers: seq<nat>, high: nat, id: string,
                                       added: seq<ServiceEntry>)
      returns (more: seq<nat>)
    requires NumberedRows(rows, numbers, 1, high) && MadeFrom(id, added, high + 1)
    ensures NumberedRows(rows + added, more, 1, high + |added|)
    decreases |added|
  {
    if added == [] {
      more := numbers;
      assert rows + [] == rows;
    } else {
      MadeAfter(id, added, high + 1);
      NumberedSnoc(rows, numbers, 1, high, id, added[0]);
      more := AddNumbered(rows + [added[0]], numbers + [high + 1], high + 1, id, added[1..]);
      OneThenRest(rows, added);
    }
  }

  lemma {:induction false} NumberedUpTo(rows: seq<ServiceEntry>, numbers: seq<nat>, low: nat, high: nat, higher: nat)
    requires NumberedRows(rows, numbers, low, high) && high <= higher
    ensures NumberedRows(rows, numbers, low, higher)
  {
  }

  lemma {:induction false} StepKeepsNumbered(s: Store, step: Step, s': Store, numbers: seq<nat>)
      returns (numbers': seq<nat>)
    requires Numbered(s, numbers) && Next(s, step, s')
    ensures Numbered(s', numbers')
  {
    match step {
      case JoinStep(_) => numbers' := numbers;
      case LeaveStep(id) => numbers' := KeepNumbered(s.service, numbers, id, 1, s.manageNum);
      case UpdateStep(id, added, calls) =>
        numbers' := AddNumbered(s.service, numbers, s.manageNum, id, added);
        NumberedUpTo(s'.service, numbers', 1, s.manageNum + |added|, s'.manageNum);
    }
  }

  lemma {:induction false} AlwaysNumbered(run: seq<Store>, steps: seq<Step>, n: nat) returns (numbers: seq<nat>)
    requires IsRun(run, steps) && n < |run| && run[0].service == []
    ensures Numbered(run[n], numbers)
  {
    if n == 0 {
      numbers := [];
    } else {
      numbers := AlwaysNumbered(run, steps, n - 1);
      assert Next(run[n - 1], steps[n - 1], run[n]);
      numbers := StepKeepsNumbered(run[n - 1], steps[n - 1], run[n], numbers);
    }
  }

  /** In every state of a process's run that found no services, no two of them of known types share an id. */
  lemma {:induction false} ServiceTableIdsDistinct(run: seq<Store>, steps: seq<Step>, n: nat, i: nat, j: nat)
    requires IsRun(run, steps) && n < |run| && run[0].service == [] && i < j < |run[n].service|
    requires !run[n].service[i].serviceType.Unknown?
    ensures run[n].service[i].serviceID != run[n].service[j].serviceID
  {
    var numbers := AlwaysNumbered(run, steps, n);
    ServiceIdsDistinct(run[n].service[i].serviceType, numbers[i], run[n].service[j].serviceType, numbers[j]);
  }

  // ---------- the program ----------

  /** The `relay` field: `int(relay)` may raise. */
  datatype RelayField = NoRelay | Number(n: int) | Malformed

  datatype ServiceRequest = ServiceRequest(serviceType: Option<ServiceType>, attributes: Option<seq<string>>)

  class FlaskResolver {
    var manageNum: nat
    var device: seq<DeviceEntry>
    var service: seq<ServiceEntry>
    const reliable: bool // whether no SQL statement raises

    ghost function View(): Store
      reads this
    {
      Store(manageNum, device, service)
    }

    constructor (reliable: bool)
      ensures View() == Store(0, [], []) && this.reliable == reliable
    {
      manageNum, device, service, this.reliable := 0, [], [], reliable;
    }

    /** `genServiceID`; every call counts, also for an unknown or missing type. */
    method GenServiceID(serviceType: Option<ServiceType>) returns (id: string)
      modifies this`manageNum
      ensures manageNum == old(manageNum) + 1
      ensures id == ServiceId(serviceType.GetOr(Unknown("")), manageNum)
    {
      manageNum := manageNum + 1;
      var manageStr := Pad4(manageNum);
      if serviceType == Some(Streaming) {
        id := "0" + manageStr + "0";
      } else if serviceType == Some(Web) {
        id := "1" + manageStr + "0";
      } else if serviceType == Some(Voice) {
        id := "1" + manageStr + "1";
      } else if serviceType == Some(FileTransfer) {
        id := "0" + manageStr + "1";
      } else if serviceType == Some(Game) {
        id := "0" + manageStr + "0";
      } else if serviceType == Some(BestEffort) {
        id := "0" + manageStr + "0";
      } else {
        id := "1";
      }
    }

    /** One INSERT of `Join`; a missing hardware address or the statement itself may raise. */
    method MakeRow(id: string, relay: RelayField, code: UniqueCode) returns (made: Option<DeviceEntry>)
      ensures made.Some? ==> code.hwAddress.Some? && Describes(made.value, id, relay, code)
      ensures reliable && code.hwAddress.Some? ==> made.Some?
    {
      var accepted: bool := *;
      if code.hwAddress.None? || !(accepted || reliable) {
        return None;
      }
      var port := if relay.Number? then StrInt(relay.n) else "none";
      made := Some(DeviceEntry(id, code.ifaceType.GetOr("."), code.hwAddress.value, code.ipv4.GetOr("."),
                               code.wifiSSID.GetOr("."), port));
    }

    /** The interface loop of `Join`. */
    method MakeRows(id: string, relay: RelayField, codes: seq<UniqueCode>) returns (ok: bool, pending: seq<DeviceEntry>)
      ensures ok ==> HaveAddresses(codes) && EntriesOf(id, relay, codes, pending)
      ensures reliable && HaveAddresses(codes) ==> ok
    {
      ok, pending := true, [];
      for i := 0 to |codes|
        invariant ok && EntriesOf(id, relay, codes[..i], pending)
        invariant forall x :: 0 <= x < i ==> codes[x].hwAddress.Some?
      {
        assert codes[i] in codes;
        var made := MakeRow(id, relay, codes[i]);
        if made.None? {
          return false, pending;
        }
        pending := pending + [made.value];
      }
      assert codes[..|codes|] == codes;
    }

    /** `Join`. On an error the transaction is rolled back; the id is reported all the same. */
    method Join(relay: RelayField, uniqueCodes: Option<seq<UniqueCode>>)
        returns (error: int, id: string, ghost step: Step)
      modifies this`device
      ensures step.JoinStep? && Next(old(View()), step, View())
      ensures id == NewDeviceId(old(device))
      ensures old(device) == [] ==> id == "1"
      ensures Canonical(old(device)) && old(device) != [] ==> IsNextAfter(id, old(device))
      ensures error == 0 ==>
                && !relay.Malformed? && uniqueCodes.Some?
                && (forall c :: c in uniqueCodes.value ==> c.hwAddress.Some?)
                && EntriesOf(id, relay, uniqueCodes.value, step.rows)
      ensures error != 0 ==> error == 1 && step.rows == []
      ensures reliable && JoinOk(relay, uniqueCodes) ==> error == 0
    {
      id := if device == [] then "1" else StrInt(MaxId(device) + 1);
      NewDeviceIdIsNext(device);
      error, step := 1, JoinStep([]);
      assert device + [] == device;
      if relay.Malformed? || uniqueCodes.None? {
        return;
      }
      var ok, pending := MakeRows(id, relay, uniqueCodes.value);
      if !ok {
        return;
      }
      device := device + pending;
      error, step := 0, JoinStep(pending);
    }

    /** One service of an update: its id and its INSERT, either of which may raise. */
    method MakeEntry(id: string, request: ServiceRequest) returns (made: Option<ServiceEntry>)
      modifies this`manageNum
      ensures manageNum == old(manageNum) + 1
      ensures made.Some? ==> Made(id, made.value, manageNum) && Matching(request, made.value)
      ensures reliable && request.attributes.Some? && request.serviceType.Some? ==> made.Some?
    {
      var serviceID := GenServiceID(request.serviceType);
      var accepted: bool := *;
      if request.attributes.None? || request.serviceType.None? || !(accepted || reliable) {
        return None;
      }
      made := Some(ServiceEntry(serviceID, id, request.serviceType.value, request.attributes.value));
    }

    /** The next service of an update, put behind the earlier ones. */
    method AddEntry(id: string, list: seq<ServiceRequest>, pending: seq<ServiceEntry>, ghost from: nat)
        returns (ok: bool, more: seq<ServiceEntry>)
      requires |pending| < |list| && manageNum == from + |pending|
      requires MadeFrom(id, pending, from + 1) && Started(list, pending)
      modifies this`manageNum
      ensures manageNum == old(manageNum) + 1
      ensures ok ==> |more| == |pending| + 1 && MadeFrom(id, more, from + 1) && Started(list, more)
      ensures reliable && list[|pending|].serviceType.Some? && list[|pending|].attributes.Some? ==> ok
    {
      var made := MakeEntry(id, list[|pending|]);
      ok, more := made.Some?, pending;
      if ok {
        MadeNext(id, list, pending, from + 1, made.value);
        more := pending + [made.value];
      }
    }

    /** The service loop of `Update`: the entries made before something raised, and the number of
        calls of `genServiceID`. */
    method MakeEntries(id: string, list: seq<ServiceRequest>) returns (ok: bool, pending: seq<ServiceEntry>, calls: nat)
      modifies this`manageNum
      ensures manageNum == old(manageNum) + calls && |pending| <= calls
      ensures MadeFrom(id, pending, old(manageNum) + 1)
      ensures ok ==> calls == |list| && Complete(list, pending)
      ensures reliable && ServicesOk(list) ==> ok
    {
      ghost var from := manageNum;
      pending, calls := [], 0;
      for i := 0 to |list|
        invariant manageNum == from + i && |pending| == i
        invariant MadeFrom(id, pending, from + 1) && Started(list, pending)
      {
        assert list[i] in list;
        var fine, more := AddEntry(id, list, pending, from);
        if !fine {
          return false, pending, i + 1;
        }
        pending := more;
      }
      ok, calls := true, |list|;
    }

    /** `Update`, for a `deviceID` that `int` accepts or not. */
    method Update(deviceID: Option<int>, services: Option<seq<ServiceRequest>>) returns (error: int, ghost step: Step)
      modifies this`manageNum, this`service
      ensures step.UpdateStep? && Next(old(View()), step, View())
      ensures error == 0 ==>
                && deviceID.Some? && StrInt(deviceID.value) in IdsOf(device) && step.id == StrInt(deviceID.value)
                && services.Some? && step.calls == |services.value| && Complete(services.value, step.added)
      ensures deviceID.None? || StrInt(deviceID.value) !in IdsOf(device) ==> error == 1 && View() == old(View())
      ensures reliable && deviceID.Some? && StrInt(deviceID.value) in IdsOf(device)
              && services.Some? && ServicesOk(services.value)
              ==> error == 0
    {
      error, step := 1, UpdateStep("", [], 0);
      assert service + [] == service;
      if deviceID.None? {
        return;
      }
      var id := StrInt(deviceID.value);
      if id !in IdsOf(device) || services.None? {
        return;
      }
      var ok, pending, calls := MakeEntries(id, services.value);
      if !ok {
        var committed: int := *;
        pending := if 0 <= committed < |pending| then pending[..committed] else pending;
      }
      service := service + pending;
      error, step := if ok then 0 else 1, UpdateStep(id, pending, calls);
    }

    /** `Leave`. */
    method Leave(deviceID: Option<int>) returns (error: int, ghost step: Step)
      modifies this`device, this`service
      ensures error == 0 ==>
                deviceID.Some? && step == LeaveStep(StrInt(deviceID.value)) && Next(old(View()), step, View())
      ensures error == 0 ==>
                && (forall r :: r in device <==> r in old(device) && r.deviceID != StrInt(deviceID.value))
                && (forall e :: e in service <==> e in old(service) && e.deviceID != StrInt(deviceID.value))
      ensures error != 0 ==> error == 1 && View() == old(View())
      ensures reliable && deviceID.Some? ==> error == 0
    {
      step := LeaveStep("");
      var accepted: bool := *;
      if deviceID.None? || !(accepted || reliable) {
        return 1, step;
      }
      var id := StrInt(deviceID.value);
      step := LeaveStep(id);
      device := KeepDevices(device, id);
      service := KeepServices(service, id);
      error := 0;
    }
  }

  predicate ServicesOk(list: seq<ServiceRequest>) {
    forall s :: s in list ==> s.serviceType.Some? && s.attributes.Some?
  }

  /** `int(relay)` succeeds and every interface has a hardware address. */
  predicate JoinOk(relay: RelayField, uniqueCodes: Option<seq<UniqueCode>>) {
    !relay.Malformed? && uniqueCodes.Some? && HaveAddresses(uniqueCodes.value)
  }

  predicate HaveAddresses(codes: seq<UniqueCode>) {
    forall c :: c in codes ==> c.hwAddress.Some?
  }

  /** A row holds the id, the fields of its interface, "." for a missing one, and the relay's number. */
  ghost predicate Describes(row: DeviceEntry, id: string, relay: RelayField, c: UniqueCode) {
    && row.deviceID == id
    && row.iface == c.ifaceType.GetOr(".")
    && Some(row.mac) == c.hwAddress
    && row.ip == c.ipv4.GetOr(".")
    && row.wifiSSID == c.wifiSSID.GetOr(".")
    && row.relay == (if relay.Number? then StrInt(relay.n) else "none")
  }

  /** One row per interface, in order. */
  ghost predicate EntriesOf(id: string, relay: RelayField, codes: seq<UniqueCode>, rows: seq<DeviceEntry>) {
    |rows| == |codes| && forall i :: 0 <= i < |rows| ==> Describes(rows[i], id, relay, codes[i])
  }

  /** An entry of device `id` for a requested service, with its type, its attributes and the id of counter
      value `n`. */
  ghost predicate EntryFor(entry: ServiceEntry, id: string, request: ServiceRequest, n: nat) {
    && entry.deviceID == id && entry.serviceID == ServiceId(entry.serviceType, n)
    && request.serviceType == Some(entry.serviceType) && request.attributes == Some(entry.attributes)
  }

  lemma {:induction false} EntryMade(entry: ServiceEntry, id: string, request: ServiceRequest, n: nat)
    requires Made(id, entry, n) && Matching(request, entry)
    ensures EntryFor(entry, id, request, n)
  {
  }

  /** A successful update adds one such entry for each requested service, in order, with consecutive counter
      values. */
  lemma {:induction false} UpdateAdds(s: Store, step: Step, s': Store, services: seq<ServiceRequest>, i: nat)
    requires step.UpdateStep? && Next(s, step, s') && Complete(services, step.added)
    ensures s'.device == s.device && |s'.service| == |s.service| + |services|
    ensures s'.service[..|s.service|] == s.service
    ensures i < |services| ==> EntryFor(s'.service[|s.service| + i], step.id, services[i], s.manageNum + 1 + i)
  {
    AddedAt(s.service, step.added);
    if i < |services| {
      assert Made(step.id, step.added[i], s.manageNum + 1 + i);
      EntryMade(step.added[i], step.id, services[i], s.manageNum + 1 + i);
    }
  }

  lemma {:induction false} AddedAt(rows: seq<ServiceEntry>, added: seq<ServiceEntry>)
    ensures (rows + added)[..|rows|] == rows
    ensures forall i :: 0 <= i < |added| ==> (rows + added)[|rows| + i] == added[i]
  {
  }

  predicate Matching(request: ServiceRequest, entry: ServiceEntry) {
    request.serviceType == Some(entry.serviceType) && request.attributes == Some(entry.attributes)
  }

  /** The entries are the first requested services, in order. */
  ghost predicate Started(services: seq<ServiceRequest>, added: seq<ServiceEntry>) {
    |added| <= |services| && forall i :: 0 <= i < |added| ==> Matching(services[i], added[i])
  }

  /** They are all of them. */
  ghost predicate Complete(services: seq<ServiceRequest>, added: seq<ServiceEntry>) {
    |services| == |added| && Started(services, added)
  }
}
