/** The batch of a registration request: one announced identifier and one table row per item.
    Both managers build it; they differ in where the flag goes and in whether the list that
    collects the attributes is emptied between items. */
module Batch {
  import opened Wrappers
  import opened Decimal
  import opened Flags
  import opened Probe
  import opened Tables
  import opened Requests

  /** Whether `attrList` starts empty for every item (local version) or runs on (broker version). */
  datatype Gathering = PerItem | Running

  function AttrKey(i: nat): string {
    "attr" + Str(i + 1)
  }

  /** Column attr`i+1` holds this value. */
  predicate Column(columns: map<string, string>, i: nat, value: string) {
    "attr" + Str(i + 1) in columns && columns["attr" + Str(i + 1)] == value
  }

  lemma {:induction false} AttrKeyInjective(i: nat, j: nat)
    requires AttrKey(i) == AttrKey(j)
    ensures i == j
  {
    assert AttrKey(i)[4..] == Str(i + 1) && AttrKey(j)[4..] == Str(j + 1);
    StrInjective(i + 1, j + 1);
  }

  /** The columns attr1, attr2, ... for a list of attributes. */
  function AttrMap(attrs: seq<string>): map<string, string> {
    if attrs == [] then map[]
    else
      var n := |attrs| - 1;
      AttrMap(attrs[..n])[AttrKey(n) := attrs[n]]
  }

  lemma {:induction false} AttrMapDomain(attrs: seq<string>, key: string)
    requires key in AttrMap(attrs)
    ensures exists i: nat :: i < |attrs| && key == AttrKey(i)
  {
    var n := |attrs| - 1;
    if key != AttrKey(n) {
      AttrMapDomain(attrs[..n], key);
    }
  }

  /** Column attr`i+1` is attribute `i`. */
  lemma {:induction false} AttrMapAt(attrs: seq<string>, i: nat)
    requires i < |attrs|
    ensures Column(AttrMap(attrs), i, attrs[i])
  {
    var n := |attrs| - 1;
    if i < n {
      AttrMapAt(attrs[..n], i);
      if AttrKey(i) == AttrKey(n) { AttrKeyInjective(i, n); }
    }
  }

  /** There are exactly as many columns as attributes. */
  lemma {:induction false} AttrMapSize(attrs: seq<string>)
    ensures |AttrMap(attrs)| == |attrs|
  {
    if attrs != [] {
      var n := |attrs| - 1;
      AttrMapSize(attrs[..n]);
      if AttrKey(n) in AttrMap(attrs[..n]) {
        AttrMapDomain(attrs[..n], AttrKey(n));
        var i: nat :| i < n && AttrKey(n) == AttrKey(i);
        AttrKeyInjective(n, i);
      }
    }
  }

  lemma {:induction false} AttrMapInjective(a: seq<string>, b: seq<string>)
    requires |a| == |b| && AttrMap(a) == AttrMap(b)
    ensures a == b
  {
    forall i | 0 <= i < |a| ensures a[i] == b[i] {
      AttrMapAt(a, i);
      AttrMapAt(b, i);
    }
  }

  /** The loop over the attribute columns. */
  method AttrColumns(attrList: seq<string>, n: nat) returns (columns: map<string, string>)
    requires n <= |attrList|
    ensures columns == AttrMap(attrList[..n])
  {
    columns := map[];
    for i := 0 to n
      invariant columns == AttrMap(attrList[..i])
    {
      columns := columns["attr" + Str(i + 1) := attrList[i]];
      assert attrList[..i + 1][..i] == attrList[..i];
    }
  }

  /** The loop that appends an item's attributes to the list and counts them. */
  method Collect(attrList: seq<string>, attributes: seq<string>) returns (all: seq<string>, n: nat)
    ensures all == attrList + attributes && n == |attributes|
  {
    all, n := attrList, 0;
    for i := 0 to |attributes|
      invariant all == attrList + attributes[..i] && n == i
    {
      all := all + [attributes[i]];
      n := n + 1;
    }
  }

  predicate ItemOk(item: Item) {
    item.index.Some? && item.hash.Some? && item.attributes.Some?
  }

  function ItemFlag(item: Item): nat {
    GenFlag(item.cacheBit, item.segment, 0).value
  }

  function ItemId(order: Order, item: Item, probes: nat): string
    requires ItemOk(item)
  {
    Candidate(order, item.hash.value, ItemFlag(item), if item.collisionAvoid then probes else 0)
  }

  /** The attributes of all items, one after the other. */
  function Gathered(items: seq<Item>): seq<string> {
    if items == [] then [] else Gathered(items[..|items| - 1]) + items[|items| - 1].attributes.GetOr([])
  }

  /** Attribute `k` of item `i` comes after all attributes of the items before. */
  lemma {:induction false} GatheredAt(items: seq<Item>, i: nat, k: nat)
    requires i < |items| && items[i].attributes.Some? && k < |items[i].attributes.value|
    ensures |Gathered(items[..i])| + k < |Gathered(items)|
    ensures Gathered(items)[|Gathered(items[..i])| + k] == items[i].attributes.value[k]
  {
    var n := |items| - 1;
    if i < n {
      GatheredAt(items[..n], i, k);
      assert items[..n][..i] == items[..i];
    }
  }

  function RowAttrs(g: Gathering, items: seq<Item>, i: nat): (r: seq<string>)
    requires i < |items| && ItemOk(items[i])
    ensures |r| == |items[i].attributes.value|
  {
    var own := items[i].attributes.value;
    match g
    case PerItem => own
    case Running =>
      assert items[..i + 1][..i] == items[..i];
      Gathered(items[..i + 1])[..|own|]
  }

  /** A collision-avoiding item is probed up to the first identifier that is not in the table or whose
      select fails; a failed select passes for "free". `failed` are the probes whose selects fail. */
  ghost predicate ProbesRight(order: Order, item: Item, taken: set<string>, probes: nat, failed: set<nat>)
    requires ItemOk(item)
  {
    item.collisionAvoid ==>
      && (forall j :: 0 <= j < probes ==> j !in failed && Candidate(order, item.hash.value, ItemFlag(item), j) in taken)
      && (probes in failed || Candidate(order, item.hash.value, ItemFlag(item), probes) !in taken)
  }

  datatype Built = Built(idList: seq<(string, string)>, rows: seq<RegisterRow>, probes: seq<nat>, failed: seq<set<nat>>)

  /** `idList` and `rows` match the items one to one and in order. */
  ghost predicate BatchBuilt(order: Order, g: Gathering, device: string, items: seq<Item>, taken: set<string>,
                             b: Built) {
    && |b.idList| == |b.rows| == |b.probes| == |b.failed| == |items|
    && forall i :: 0 <= i < |items| ==> RowBuilt(order, g, device, items, taken, b, i)
  }

  ghost predicate RowBuilt(order: Order, g: Gathering, device: string, items: seq<Item>, taken: set<string>, b: Built,
                           i: nat)
    requires |b.idList| == |b.rows| == |b.probes| == |b.failed| && i < |b.rows| && i < |items|
  {
    var item := items[i];
    && ItemOk(item)
    && ProbesRight(order, item, taken, b.probes[i], b.failed[i])
    && b.idList[i] == (item.index.value, ItemId(order, item, b.probes[i]))
    && b.rows[i] == RegisterRow(device, ItemId(order, item, b.probes[i]), item.hash.value, item.registerType,
                                item.category, AttrMap(RowAttrs(g, items, i)))
  }

  /** One more row: the rows built so far stay as they are. */
  lemma {:induction false} RowAdded(order: Order, g: Gathering, device: string, items: seq<Item>, taken: set<string>,
                                    b: Built, id: (string, string), row: RegisterRow, probes: nat, failed: set<nat>)
    requires |b.idList| == |b.rows| == |b.probes| == |b.failed| < |items|
    requires forall x :: 0 <= x < |b.rows| ==> RowBuilt(order, g, device, items, taken, b, x)
    requires ItemOk(items[|b.rows|])
    requires ProbesRight(order, items[|b.rows|], taken, probes, failed)
    requires id == (items[|b.rows|].index.value, ItemId(order, items[|b.rows|], probes))
    requires row == RegisterRow(device, id.1, items[|b.rows|].hash.value, items[|b.rows|].registerType,
                                items[|b.rows|].category, AttrMap(RowAttrs(g, items, |b.rows|)))
    ensures var b' := Built(b.idList + [id], b.rows + [row], b.probes + [probes], b.failed + [failed]);
            forall x :: 0 <= x < |b'.rows| ==> RowBuilt(order, g, device, items, taken, b', x)
  {
    var b' := Built(b.idList + [id], b.rows + [row], b.probes + [probes], b.failed + [failed]);
    forall x | 0 <= x < |b'.rows| ensures RowBuilt(order, g, device, items, taken, b', x) {
      if x < |b.rows| { assert RowBuilt(order, g, device, items, taken, b, x); }
    }
  }

  /** Row `i` carries the identifier announced for item `i` and names the requesting device; a
      collision-avoiding identifier was not in the table before the request. */
  lemma {:induction false} BatchIds(order: Order, g: Gathering, device: string, items: seq<Item>, taken: set<string>,
                                    b: Built, i: nat)
    requires BatchBuilt(order, g, device, items, taken, b) && i < |items|
    ensures items[i].index == Some(b.idList[i].0)
    ensures b.rows[i].providingId == b.idList[i].1 && b.rows[i].deviceId == device
    ensures items[i].collisionAvoid && b.probes[i] !in b.failed[i] ==>
              && b.rows[i].providingId !in taken
              && items[i].hash.Some?
              && LeastFree(order, items[i].hash.value, ItemFlag(items[i]), taken, b.probes[i])
  {
    assert RowBuilt(order, g, device, items, taken, b, i);
  }

  /** What a collision-avoiding item gets was absent before the request if and only if no select about
      a probe before the least free one fails. */
  lemma {:induction false} FreshIff(order: Order, g: Gathering, device: string, items: seq<Item>, taken: set<string>,
                                    b: Built, i: nat, least: nat)
    requires BatchBuilt(order, g, device, items, taken, b) && i < |items|
    requires items[i].collisionAvoid && items[i].hash.Some?
    requires LeastFree(order, items[i].hash.value, ItemFlag(items[i]), taken, least)
    ensures b.rows[i].providingId !in taken <==> forall j :: j in b.failed[i] ==> least <= j
  {
    assert RowBuilt(order, g, device, items, taken, b, i);
    var hash, flag := items[i].hash.value, ItemFlag(items[i]);
    if b.rows[i].providingId !in taken {
      LeastFreeUnique(order, hash, flag, taken, least, b.probes[i]);
    }
  }

  /** Request, table and failing selects determine the probing. */
  lemma {:induction false} ProbesUnique(order: Order, item: Item, taken: set<string>, m: nat, n: nat, failed: set<nat>)
    requires ItemOk(item) && item.collisionAvoid
    requires ProbesRight(order, item, taken, m, failed) && ProbesRight(order, item, taken, n, failed)
    ensures m == n
  {
  }

  /** Request, table and failing selects determine the batch. */
  lemma {:induction false} BatchUnique(order: Order, g: Gathering, device: string, items: seq<Item>, taken: set<string>,
                                       b: Built, b': Built)
    requires BatchBuilt(order, g, device, items, taken, b) && BatchBuilt(order, g, device, items, taken, b')
    requires b.failed == b'.failed
    ensures b.rows == b'.rows && b.idList == b'.idList
  {
    forall i | 0 <= i < |items| ensures b.rows[i] == b'.rows[i] && b.idList[i] == b'.idList[i] {
      assert RowBuilt(order, g, device, items, taken, b, i) && RowBuilt(order, g, device, items, taken, b', i);
      if items[i].collisionAvoid {
        ProbesUnique(order, items[i], taken, b.probes[i], b'.probes[i], b.failed[i]);
      }
    }
  }

  /** An item as it is announced and entered: its own fields, and the identifier made of its hash and a flag
      that begins with its cache and segment bits and has gone up by 4 for each of `k` collisions. */
  ghost predicate ItemEntered(order: Order, device: string, item: Item, announced: (string, string), row: RegisterRow,
                              k: nat) {
    && item.hash.Some?
    && var flag := (if item.cacheBit then 128 else 0) + (if item.segment then 64 else 0) + 4 * k;
       && announced.1 == (if order.BaseFirst? then item.hash.value + Str(flag) else Str(flag) + item.hash.value)
       && (!item.collisionAvoid ==> k == 0)
       && item.index == Some(announced.0)
       && row.deviceId == device && row.providingId == announced.1 && row.hash == item.hash.value
       && row.registerType == item.registerType && row.category == item.category
  }

  ghost predicate Entered(order: Order, device: string, item: Item, announced: (string, string), row: RegisterRow) {
    exists k: nat :: ItemEntered(order, device, item, announced, row, k)
  }

  /** So are all items of a batch. */
  ghost predicate ItemsEntered(order: Order, device: string, items: seq<Item>, idList: seq<(string, string)>,
                               rows: seq<RegisterRow>) {
    && |idList| == |rows| == |items|
    && forall i :: 0 <= i < |items| ==> Entered(order, device, items[i], idList[i], rows[i])
  }

  lemma {:induction false} BatchEntered(order: Order, g: Gathering, device: string, items: seq<Item>,
                                        taken: set<string>, b: Built)
    requires BatchBuilt(order, g, device, items, taken, b)
    ensures ItemsEntered(order, device, items, b.idList, b.rows)
  {
    forall i | 0 <= i < |items| ensures Entered(order, device, items[i], b.idList[i], b.rows[i]) {
      RowEntered(order, g, device, items, taken, b, i);
    }
  }

  lemma {:induction false} BatchNames(order: Order, g: Gathering, device: string, items: seq<Item>, taken: set<string>,
                                      b: Built)
    requires BatchBuilt(order, g, device, items, taken, b)
    ensures forall r :: r in b.rows ==> r.deviceId == device
  {
    forall r | r in b.rows ensures r.deviceId == device {
      var i :| 0 <= i < |b.rows| && b.rows[i] == r;
      assert RowBuilt(order, g, device, items, taken, b, i);
    }
  }

  lemma {:induction false} RowEntered(order: Order, g: Gathering, device: string, items: seq<Item>, taken: set<string>,
                                      b: Built, i: nat)
    requires BatchBuilt(order, g, device, items, taken, b) && i < |items|
    ensures ItemEntered(order, device, items[i], b.idList[i], b.rows[i],
                        if items[i].collisionAvoid then b.probes[i] else 0)
  {
    assert RowBuilt(order, g, device, items, taken, b, i);
  }

  /** In the broker version a failed select passes for "free": if the first identifier of an item that
      avoids collisions is registered and the select about it fails, the item gets it all the same. */
  lemma {:induction false} FailedSelectRepeatsId(device: string, item: Item, taken: set<string>) returns (b: Built)
    requires ItemOk(item) && item.collisionAvoid && ItemId(BaseFirst, item, 0) in taken
    ensures BatchBuilt(BaseFirst, Running, device, [item], taken, b)
    ensures b.failed == [{0}] && b.rows[0].providingId in taken
  {
    var id := ItemId(BaseFirst, item, 0);
    var row := RegisterRow(device, id, item.hash.value, item.registerType, item.category,
                           AttrMap(RowAttrs(Running, [item], 0)));
    b := Built([(item.index.value, id)], [row], [0], [{0}]);
    assert RowBuilt(BaseFirst, Running, device, [item], taken, b, 0);
  }

  /** With the list emptied per item, the attribute columns of row `i` are exactly item `i`'s. */
  lemma {:induction false} PerItemAttrs(order: Order, device: string, items: seq<Item>, taken: set<string>, b: Built,
                                        i: nat)
    requires BatchBuilt(order, PerItem, device, items, taken, b) && i < |items|
    ensures items[i].attributes.Some? && |b.rows[i].attrs| == |items[i].attributes.value|
    ensures forall k :: 0 <= k < |items[i].attributes.value| ==>
              Column(b.rows[i].attrs, k, items[i].attributes.value[k])
  {
    assert RowBuilt(order, PerItem, device, items, taken, b, i);
    var own := items[i].attributes.value;
    assert b.rows[i].attrs == AttrMap(own);
    AttrMapSize(own);
    forall k | 0 <= k < |own| ensures Column(AttrMap(own), k, own[k]) {
      AttrMapAt(own, k);
    }
  }

  lemma {:induction false} GatheredPrefix(items: seq<Item>, n: nat)
    requires n <= |items|
    ensures Gathered(items[..n]) <= Gathered(items)
  {
    if n == |items| {
      assert items[..n] == items;
    } else {
      var m := |items| - 1;
      GatheredPrefix(items[..m], n);
      assert items[..m][..n] == items[..n];
    }
  }

  lemma {:induction false} RunningPrefix(items: seq<Item>, i: nat)
    requires i < |items| && ItemOk(items[i])
    ensures |items[i].attributes.value| <= |Gathered(items)|
    ensures RowAttrs(Running, items, i) == Gathered(items)[..|items[i].attributes.value|]
  {
    assert items[..i + 1][..i] == items[..i];
    GatheredPrefix(items, i + 1);
  }

  lemma {:induction false} PrefixColumns(own: seq<string>, all: seq<string>)
    requires |own| <= |all|
    ensures AttrMap(all[..|own|]) == AttrMap(own) <==> own <= all
  {
    if AttrMap(all[..|own|]) == AttrMap(own) { AttrMapInjective(all[..|own|], own); }
    if own <= all { assert all[..|own|] == own; }
  }

  /** With the list running on, the rows carry their own item's attributes if and only if every
      item's attributes are a prefix of the attributes of the whole request. */
  lemma {:induction false} RunningAttrs(order: Order, device: string, items: seq<Item>, taken: set<string>, b: Built)
    requires BatchBuilt(order, Running, device, items, taken, b)
    ensures (forall i :: 0 <= i < |items| ==> b.rows[i].attrs == AttrMap(items[i].attributes.GetOr([])))
            <==> (forall i :: 0 <= i < |items| ==> items[i].attributes.GetOr([]) <= Gathered(items))
  {
    forall i | 0 <= i < |items|
      ensures b.rows[i].attrs == AttrMap(items[i].attributes.GetOr([]))
              <==> items[i].attributes.GetOr([]) <= Gathered(items)
    {
      assert RowBuilt(order, Running, device, items, taken, b, i);
      RunningPrefix(items, i);
      PrefixColumns(items[i].attributes.value, Gathered(items));
    }
  }

  /** In the broker version the second of two items gets the first one's attribute. */
  lemma {:induction false} RunningAttrsMixUp(order: Order, device: string, first: Item, second: Item,
                                             taken: set<string>, b: Built)
    requires BatchBuilt(order, Running, device, [first, second], taken, b)
    requires first.attributes == Some(["video"]) && second.attributes == Some(["audio"])
    ensures b.rows[1].attrs == map["attr1" := "video"]
  {
    var items := [first, second];
    assert RowBuilt(order, Running, device, items, taken, b, 1);
    assert items[..2] == items && items[..1] == [first] && [first][..0] == [];
    assert Gathered([first]) == ["video"];
    assert RowAttrs(Running, items, 1) == ["video"];
    assert ["video"][..0] == [];
    assert AttrKey(0) == "attr1";
  }

  lemma {:induction false} DifferentItemIds(order: Order, x: Item, m: nat, y: Item, n: nat)
    requires ItemOk(x) && ItemOk(y) && x.hash != y.hash && |x.hash.value| == |y.hash.value|
    ensures ItemId(order, x, m) != ItemId(order, y, n)
  {
    var f := ItemFlag(x) + COLLISION_INC * (if x.collisionAvoid then m else 0);
    var g := ItemFlag(y) + COLLISION_INC * (if y.collisionAvoid then n else 0);
    assert ItemId(order, x, m) == Id(order, x.hash.value, f) && ItemId(order, y, n) == Id(order, y.hash.value, g);
    DifferentBases(order, x.hash.value, y.hash.value, f, g);
  }

  lemma {:induction false} RowId(order: Order, g: Gathering, device: string, items: seq<Item>, taken: set<string>,
                                 b: Built, i: nat)
    requires BatchBuilt(order, g, device, items, taken, b) && i < |items|
    ensures ItemOk(items[i]) && b.rows[i].providingId == ItemId(order, items[i], b.probes[i])
  {
    assert RowBuilt(order, g, device, items, taken, b, i);
  }

  /** Items with different hashes of equal length get different identifiers, whatever their flags
      and however many probe steps they took, although no row is inserted while the batch is built. */
  lemma {:induction false} DistinctHashes(order: Order, g: Gathering, device: string, items: seq<Item>,
                                          taken: set<string>, b: Built)
    requires BatchBuilt(order, g, device, items, taken, b)
    requires forall i, j :: 0 <= i < j < |items| ==>
               items[i].hash != items[j].hash && |items[i].hash.GetOr("")| == |items[j].hash.GetOr("")|
    ensures forall i, j :: 0 <= i < j < |items| ==> b.rows[i].providingId != b.rows[j].providingId
  {
    forall i, j | 0 <= i < j < |items| ensures b.rows[i].providingId != b.rows[j].providingId {
      RowId(order, g, device, items, taken, b, i);
      RowId(order, g, device, items, taken, b, j);
      DifferentItemIds(order, items[i], b.probes[i], items[j], b.probes[j]);
    }
  }

  /** The flag an item's probing ends at. */
  function EndFlag(item: Item, probes: nat): nat {
    ItemFlag(item) + COLLISION_INC * (if item.collisionAvoid then probes else 0)
  }

  /** The flags items start from are multiples of the probe step. */
  lemma {:induction false} ItemFlags(item: Item)
    ensures ItemFlag(item) in {0, 64, 128, 192}
  {
  }

  /** Two items whose hashes are equally long get the same identifier just when they have the same
      hash and their probing ends at the same flag. */
  lemma {:induction false} RowsMeetIff(order: Order, g: Gathering, device: string, items: seq<Item>,
                                       taken: set<string>, b: Built, i: nat, j: nat)
    requires BatchBuilt(order, g, device, items, taken, b) && i < |items| && j < |items|
    requires |items[i].hash.GetOr("")| == |items[j].hash.GetOr("")|
    ensures b.rows[i].providingId == b.rows[j].providingId
            <==> items[i].hash == items[j].hash && EndFlag(items[i], b.probes[i]) == EndFlag(items[j], b.probes[j])
  {
    RowId(order, g, device, items, taken, b, i);
    RowId(order, g, device, items, taken, b, j);
    IdsMeetIff(order, items[i].hash.value, items[j].hash.value, EndFlag(items[i], b.probes[i]),
               EndFlag(items[j], b.probes[j]));
  }

  /** In the broker version, for hashes of any length: the longer hash goes on where the shorter one ends. */
  lemma {:induction false} RowsMeetIffLonger(g: Gathering, device: string, items: seq<Item>, taken: set<string>,
                                             b: Built, i: nat, j: nat)
    requires BatchBuilt(BaseFirst, g, device, items, taken, b) && i < |items| && j < |items|
    requires |items[i].hash.GetOr("")| <= |items[j].hash.GetOr("")|
    ensures b.rows[i].providingId == b.rows[j].providingId
            <==> && items[i].hash.GetOr("") <= items[j].hash.GetOr("")
                 && Str(EndFlag(items[i], b.probes[i]))
                    == items[j].hash.GetOr("")[|items[i].hash.GetOr("")|..] + Str(EndFlag(items[j], b.probes[j]))
  {
    RowId(BaseFirst, g, device, items, taken, b, i);
    RowId(BaseFirst, g, device, items, taken, b, j);
    IdsMeetIffLonger(items[i].hash.value, items[j].hash.value, EndFlag(items[i], b.probes[i]),
                     EndFlag(items[j], b.probes[j]));
  }

  /** Every identifier that probing from one flag passes on its way to another is taken. */
  ghost predicate AllTaken(order: Order, hash: string, from: nat, to: nat, taken: set<string>) {
    forall n: nat :: from + COLLISION_INC * n < to ==> Candidate(order, hash, from, n) in taken
  }

  lemma {:induction false} StepsBetween(x: Item, y: Item) returns (n: nat)
    requires ItemFlag(x) <= ItemFlag(y)
    ensures ItemFlag(y) == ItemFlag(x) + COLLISION_INC * n
  {
    ItemFlags(x);
    ItemFlags(y);
    n := (ItemFlag(y) - ItemFlag(x)) / COLLISION_INC;
  }

  lemma {:induction false} AllTakenSteps(order: Order, hash: string, from: nat, n: nat, taken: set<string>)
    ensures AllTaken(order, hash, from, from + COLLISION_INC * n, taken)
            <==> forall m :: 0 <= m < n ==> Candidate(order, hash, from, m) in taken
  {
  }

  /** Two items that avoid collisions, the second with the higher flag or the same, get the same
      identifier just when they have the same hash and everything from the lower flag up to the
      higher one was registered before. So avoiding collisions with the table does not avoid
      collisions in the batch. */
  lemma {:induction false} AvoidingRowsMeetIff(order: Order, g: Gathering, device: string, items: seq<Item>,
                                               taken: set<string>, b: Built, i: nat, j: nat)
    requires BatchBuilt(order, g, device, items, taken, b) && i < |items| && j < |items|
    requires |items[i].hash.GetOr("")| == |items[j].hash.GetOr("")|
    requires items[i].collisionAvoid && items[j].collisionAvoid
    requires b.probes[i] !in b.failed[i] && b.probes[j] !in b.failed[j]
    requires ItemFlag(items[i]) <= ItemFlag(items[j])
    ensures b.rows[i].providingId == b.rows[j].providingId
            <==> && items[i].hash == items[j].hash
                 && AllTaken(order, items[i].hash.GetOr(""), ItemFlag(items[i]), ItemFlag(items[j]), taken)
  {
    RowsMeetIff(order, g, device, items, taken, b, i, j);
    BatchIds(order, g, device, items, taken, b, i);
    BatchIds(order, g, device, items, taken, b, j);
    if items[i].hash == items[j].hash {
      var hash, flag := items[i].hash.value, ItemFlag(items[i]);
      var n := StepsBetween(items[i], items[j]);
      ProbesMeetIff(order, hash, flag, n, taken, b.probes[i], b.probes[j]);
      AllTakenSteps(order, hash, flag, n, taken);
    }
  }

  /** A probing ends at step `n` just when everything before is taken and step `n` is free. */
  lemma {:induction false} EndsAtIff(order: Order, hash: string, flag: nat, n: nat, taken: set<string>, k: nat)
    requires LeastFree(order, hash, flag, taken, k)
    ensures k == n <==> && AllTaken(order, hash, flag, flag + COLLISION_INC * n, taken)
                        && Candidate(order, hash, flag, n) !in taken
  {
    AllTakenSteps(order, hash, flag, n, taken);
  }

  /** An item that avoids collisions gets the identifier of one that does not just when they have the
      same hash, probing from the first one's flag gets to the second one's, and that one is free. */
  lemma {:induction false} MixedRowsMeetIff(order: Order, g: Gathering, device: string, items: seq<Item>,
                                            taken: set<string>, b: Built, i: nat, j: nat)
    requires BatchBuilt(order, g, device, items, taken, b) && i < |items| && j < |items|
    requires |items[i].hash.GetOr("")| == |items[j].hash.GetOr("")|
    requires items[i].collisionAvoid && !items[j].collisionAvoid && b.probes[i] !in b.failed[i]
    ensures b.rows[i].providingId == b.rows[j].providingId
            <==> && items[i].hash == items[j].hash && ItemFlag(items[i]) <= ItemFlag(items[j])
                 && AllTaken(order, items[i].hash.GetOr(""), ItemFlag(items[i]), ItemFlag(items[j]), taken)
                 && b.rows[j].providingId !in taken
  {
    RowsMeetIff(order, g, device, items, taken, b, i, j);
    RowId(order, g, device, items, taken, b, j);
    BatchIds(order, g, device, items, taken, b, i);
    if items[i].hash == items[j].hash && ItemFlag(items[i]) <= ItemFlag(items[j]) {
      var hash, flag := items[i].hash.value, ItemFlag(items[i]);
      var n := StepsBetween(items[i], items[j]);
      EndsAtIff(order, hash, flag, n, taken, b.probes[i]);
      assert Candidate(order, hash, flag, n) == b.rows[j].providingId;
    }
  }

  /** The announced identifiers are pairwise different, and none was registered for the device before. */
  ghost predicate IdsNew(device: string, b: Built, db: Db) {
    && (forall i, j :: 0 <= i < j < |b.idList| ==> b.idList[i].1 != b.idList[j].1)
    && (forall i :: 0 <= i < |b.idList| ==> (b.idList[i].1, device) !in RegisterKeys(db))
  }

  /** The columns for a list of attributes exist just when there are at most three of them. */
  lemma {:induction false} ColumnsExistIff(attrs: seq<string>)
    ensures ColumnsExist(AttrMap(attrs)) <==> |attrs| <= 3
  {
    assert AttrKey(0) == "attr1" && AttrKey(1) == "attr2" && AttrKey(2) == "attr3" && AttrKey(3) == "attr4";
    if |attrs| <= 3 {
      forall key | key in AttrMap(attrs) ensures key in {"attr1", "attr2", "attr3"} {
        AttrMapDomain(attrs, key);
      }
    } else {
      AttrMapAt(attrs, 3);
    }
  }

  /** The schema lets a batch in just when every item has at most three attributes, the batch is empty
      or its device exists, and its identifiers are new. */
  lemma {:induction false} BatchAllowedIff(order: Order, g: Gathering, device: string, items: seq<Item>, db: Db,
                                           b: Built)
    requires BatchBuilt(order, g, device, items, ProvidingIds(db), b)
    ensures SchemaAllows(db, InsertRegister(b.rows))
            <==> && (forall item :: item in items ==> |item.attributes.GetOr([])| <= 3)
                 && (items == [] || device in DeviceIds(db)) && IdsNew(device, b, db)
  {
    forall i | 0 <= i < |items|
      ensures RegisterKey(b.rows[i]) == (b.idList[i].1, device)
      ensures ColumnsExist(b.rows[i].attrs) <==> |items[i].attributes.GetOr([])| <= 3
    {
      RowKey(order, g, device, items, ProvidingIds(db), b, i);
    }
    RowsAllowedIff(device, items, db, b);
  }

  lemma {:induction false} RowKey(order: Order, g: Gathering, device: string, items: seq<Item>, taken: set<string>,
                                  b: Built, i: nat)
    requires BatchBuilt(order, g, device, items, taken, b) && i < |items|
    ensures RegisterKey(b.rows[i]) == (b.idList[i].1, device)
    ensures ColumnsExist(b.rows[i].attrs) <==> |items[i].attributes.GetOr([])| <= 3
  {
    assert RowBuilt(order, g, device, items, taken, b, i);
    ColumnsExistIff(RowAttrs(g, items, i));
  }

  lemma {:induction false} RowsAllowedIff(device: string, items: seq<Item>, db: Db, b: Built)
    requires |b.rows| == |b.idList| == |items|
    requires forall i :: 0 <= i < |items| ==> RegisterKey(b.rows[i]) == (b.idList[i].1, device)
    requires forall i :: 0 <= i < |items| ==>
               (ColumnsExist(b.rows[i].attrs) <==> |items[i].attributes.GetOr([])| <= 3)
    ensures RegistersAllowed(db, b.rows)
            <==> && (forall item :: item in items ==> |item.attributes.GetOr([])| <= 3)
                 && (items == [] || device in DeviceIds(db)) && IdsNew(device, b, db)
  {
    if RegistersAllowed(db, b.rows) {
      forall i | 0 <= i < |items|
        ensures |items[i].attributes.GetOr([])| <= 3 && device in DeviceIds(db)
        ensures (b.idList[i].1, device) !in RegisterKeys(db)
      {
        assert b.rows[i] in b.rows && b.rows[i].deviceId == RegisterKey(b.rows[i]).1;
      }
      assert items != [] ==> |items[0].attributes.GetOr([])| <= 3;
    }
  }

  /** Every select made for the batch was answered. */
  predicate AllAnswered(b: Built) {
    forall f :: f in b.failed ==> f == {}
  }

  /** What the items that avoid collisions got is in no row, for whatever device. */
  ghost predicate AvoidingIdsFresh(items: seq<Item>, b: Built, db: Db) {
    && |items| == |b.idList|
    && forall i :: 0 <= i < |items| && items[i].collisionAvoid ==> b.idList[i].1 !in ProvidingIds(db)
  }

  /** With all selects answered every collision-avoiding identifier was absent before the request. */
  lemma {:induction false} AvoidingIdsAreFresh(order: Order, g: Gathering, device: string, items: seq<Item>, db: Db,
                                               b: Built)
    requires BatchBuilt(order, g, device, items, ProvidingIds(db), b) && AllAnswered(b)
    ensures AvoidingIdsFresh(items, b, db)
  {
    forall i | 0 <= i < |items| && items[i].collisionAvoid ensures b.idList[i].1 !in ProvidingIds(db) {
      assert b.failed[i] in b.failed;
      BatchIds(order, g, device, items, ProvidingIds(db), b, i);
    }
  }

  /** Collision avoidance does not look at the batch itself: two items with the same hash and bits
      get the same identifier. */
  lemma {:induction false} SameItemSameId(order: Order, g: Gathering, device: string, items: seq<Item>,
                                          taken: set<string>, b: Built, i: nat, j: nat)
    requires BatchBuilt(order, g, device, items, taken, b) && i < |items| && j < |items|
    requires items[i].hash == items[j].hash && items[i].collisionAvoid == items[j].collisionAvoid
    requires items[i].cacheBit == items[j].cacheBit && items[i].segment == items[j].segment
    requires b.failed[i] == b.failed[j]
    ensures b.rows[i].providingId == b.rows[j].providingId
  {
    assert RowBuilt(order, g, device, items, taken, b, i) && RowBuilt(order, g, device, items, taken, b, j);
    if items[i].collisionAvoid {
      ProbesUnique(order, items[i], taken, b.probes[i], b.probes[j], b.failed[i]);
    }
  }
}
