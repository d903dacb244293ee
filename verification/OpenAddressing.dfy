/** OpenAddressingHashMap: linear probing with tombstones, growing at 0.7 of its capacity. */
module OpenAddressing {
  import opened Words

  type Key = int
  type Value = int

  datatype Option<T> = None | Some(value: T)
  datatype Status = EMPTY | OCCUPIED | DELETED
  datatype Slot = Slot(status: Status, key: Key, value: Value)

  const DEFAULT: Value := 0

  predicate Holds(slot: Slot, key: Key) {
    slot.status == OCCUPIED && slot.key == key
  }

  // ----- One probe path: the table read from a key's home slot on, once around ------------------

  /** Where find, contains and erase stop on a path. */
  function Search(path: seq<Slot>, key: Key): (d: nat)
    ensures d <= |path|
    ensures d < |path| ==> path[d].status == EMPTY || Holds(path[d], key)
    ensures forall e :: 0 <= e < d ==> path[e].status != EMPTY && !Holds(path[e], key)
  {
    if path == [] || path[0].status == EMPTY || Holds(path[0], key) then 0 else 1 + Search(path[1..], key)
  }

  /** Where insert and operator[] stop: at the first slot that is not occupied by another key. */
  function Vacancy(path: seq<Slot>, key: Key): (d: nat)
    ensures d <= |path|
    ensures d < |path| ==> path[d].status == OCCUPIED ==> path[d].key == key
    ensures forall e :: 0 <= e < d ==> path[e].status == OCCUPIED && path[e].key != key
  {
    if path == [] || path[0].status != OCCUPIED || path[0].key == key then 0 else 1 + Vacancy(path[1..], key)
  }

  function Lookup(path: seq<Slot>, key: Key): Option<Value> {
    var d := Search(path, key);
    if d < |path| && path[d].status == OCCUPIED then Some(path[d].value) else None
  }

  /** No empty slot comes before one that holds the key. */
  predicate Reach(path: seq<Slot>, key: Key) {
    forall d, e :: 0 <= e < d < |path| && Holds(path[d], key) ==> path[e].status != EMPTY
  }

  predicate Once(path: seq<Slot>, key: Key) {
    forall d, e :: 0 <= e < d < |path| && Holds(path[d], key) ==> !Holds(path[e], key)
  }

  /** With nothing out of reach, a failed search means the key is nowhere. */
  lemma SearchIsExact(path: seq<Slot>, key: Key)
    requires Reach(path, key)
    ensures Lookup(path, key) == None <==> forall d :: 0 <= d < |path| ==> !Holds(path[d], key)
  {
    var d := Search(path, key);
    if d < |path| {
      assert path[d].status == OCCUPIED ==> Holds(path[d], key);
    }
  }

  lemma PlaceOnOwnPath(path: seq<Slot>, key: Key, value: Value)
    requires Vacancy(path, key) < |path|
    ensures var path' := path[Vacancy(path, key) := Slot(OCCUPIED, key, value)];
      && Lookup(path', key) == Some(value)
      && (Reach(path, key) ==> Reach(path', key))
  {
    var v := Vacancy(path, key);
    var path' := path[v := Slot(OCCUPIED, key, value)];
    assert Holds(path'[v], key);
    assert Search(path', key) == v;
  }

  /** A key's path hardly notices a slot that comes to hold another key. */
  lemma PlaceOnOtherPath(path: seq<Slot>, d: nat, slot: Slot, other: Key)
    requires d < |path| && slot.status == OCCUPIED && slot.key != other && !Holds(path[d], other) && Reach(path, other)
    ensures Lookup(path[d := slot], other) == Lookup(path, other) && Reach(path[d := slot], other)
  {
    var path' := path[d := slot];
    var s, s' := Search(path, other), Search(path', other);
    assert forall e :: 0 <= e < |path| && e != d ==> path'[e] == path[e];
    assert !Holds(path'[d], other);
    SearchIsExact(path, other);
    if s < |path| && Holds(path[s], other) {
      assert s' == s;
    }
  }

  lemma BuryOnOtherPath(path: seq<Slot>, d: nat, slot: Slot, other: Key)
    requires d < |path| && slot.status == DELETED && path[d].status == OCCUPIED && path[d].key != other
    ensures Lookup(path[d := slot], other) == Lookup(path, other)
    ensures Reach(path, other) ==> Reach(path[d := slot], other)
  {
    var path' := path[d := slot];
    assert forall e :: 0 <= e < |path| && e != d ==> path'[e] == path[e];
    assert Search(path', other) == Search(path, other);
  }

  lemma BuryOnOwnPath(path: seq<Slot>, key: Key, slot: Slot)
    requires slot.status == DELETED && Reach(path, key)
    requires Search(path, key) < |path| && path[Search(path, key)].status == OCCUPIED
    ensures var path' := path[Search(path, key) := slot];
      && Reach(path', key) && (Once(path, key) ==> Lookup(path', key) == None)
  {
    var d := Search(path, key);
    var path' := path[d := slot];
    assert Holds(path[d], key);
    var d' := Search(path', key);
    assert forall e :: 0 <= e < |path| && e != d ==> path'[e] == path[e];
    assert d' < |path| && Holds(path'[d'], key) ==> d' > d && Holds(path[d'], key);
  }

  /** Placing on one's own path keeps the key single exactly when it was absent or is overwritten. */
  lemma PlaceKeepsOnceIff(path: seq<Slot>, key: Key, value: Value)
    requires Vacancy(path, key) < |path| && Once(path, key) && Reach(path, key)
    ensures var v := Vacancy(path, key);
      Once(path[v := Slot(OCCUPIED, key, value)], key) <==> Lookup(path, key) == None || path[v].status == OCCUPIED
  {
    var v := Vacancy(path, key);
    var path' := path[v := Slot(OCCUPIED, key, value)];
    SearchIsExact(path, key);
    assert forall e :: 0 <= e < |path| && e != v ==> path'[e] == path[e];
    assert Holds(path'[v], key);
    var s := Search(path, key);
    if Lookup(path, key) != None && path[v].status != OCCUPIED {
      assert s != v && Holds(path'[s], key);
      assert !Once(path', key);
    }
  }

  // ----- The table ------------------------------------------------------------------------------

  function Home(hash: Key -> nat, key: Key, capacity: nat): (h: nat)
    requires PowerOfTwo(capacity)
    ensures h < capacity
  {
    Masked(hash(key), capacity)
  }

  function Rotated(table: seq<Slot>, home: nat): (path: seq<Slot>)
    requires home < |table|
    ensures |path| == |table|
    ensures forall d :: 0 <= d < |table| ==> path[d] == table[Ring(home + d, |table|)]
  {
    seq(|table|, d requires 0 <= d < |table| => table[Ring(home + d, |table|)])
  }

  function Path(hash: Key -> nat, table: seq<Slot>, key: Key): (path: seq<Slot>)
    requires PowerOfTwo(|table|)
    ensures |path| == |table|
  {
    Rotated(table, Home(hash, key, |table|))
  }

  /** How far along the path from `home` slot i lies. */
  function Distance(i: nat, home: nat, capacity: nat): (d: nat)
    requires i < capacity && home < capacity
    ensures d < capacity
  {
    if i >= home then i - home else i - home + capacity
  }

  lemma DistanceIs(i: nat, home: nat, capacity: nat, d: nat)
    requires i < capacity && home < capacity && d < capacity
    ensures Ring(home + d, capacity) == i <==> d == Distance(i, home, capacity)
  {
    var e := Distance(i, home, capacity);
    RingSmall(i, capacity);
    RingLap(i, capacity);
    if d != e { RingDistinct(home + d, home + e, capacity); }
  }

  lemma RotatedUpdate(table: seq<Slot>, i: nat, slot: Slot, home: nat)
    requires i < |table| && home < |table|
    ensures Rotated(table, home)[Distance(i, home, |table|)] == table[i]
    ensures Rotated(table[i := slot], home) == Rotated(table, home)[Distance(i, home, |table|) := slot]
  {
    hide Ring, Distance;
    var after := Rotated(table[i := slot], home);
    forall d | 0 <= d < |table| ensures after[d] == Rotated(table, home)[Distance(i, home, |table|) := slot][d] {
      DistanceIs(i, home, |table|, d);
    }
    DistanceIs(i, home, |table|, Distance(i, home, |table|));
  }

  /** The invariant the probe loops rely on, for every key. */
  ghost predicate ProbeInvariant(hash: Key -> nat, table: seq<Slot>) {
    PowerOfTwo(|table|) && forall key :: Reach(Path(hash, table, key), key)
  }

  /** No two occupied slots hold the same key. */
  predicate Unique(table: seq<Slot>) {
    forall i, j :: 0 <= i < j < |table| && table[i].status == OCCUPIED && table[j].status == OCCUPIED ==>
      table[i].key != table[j].key
  }

  function Occupied(table: seq<Slot>): (n: nat)
    ensures n <= |table|
  {
    if table == [] then 0
    else Occupied(table[..|table| - 1]) + if table[|table| - 1].status == OCCUPIED then 1 else 0
  }

  function One(slot: Slot): nat {
    if slot.status == OCCUPIED then 1 else 0
  }

  lemma {:induction false} OccupiedUpdate(table: seq<Slot>, i: nat, slot: Slot)
    requires i < |table|
    ensures Occupied(table[i := slot]) == Occupied(table) - One(table[i]) + One(slot)
  {
    var k := |table| - 1;
    if i < k {
      OccupiedUpdate(table[..k], i, slot);
      assert table[i := slot][..k] == table[..k][i := slot];
    } else {
      assert table[i := slot][..k] == table[..k];
    }
  }

  lemma {:induction false} FullTable(table: seq<Slot>)
    requires forall i :: 0 <= i < |table| ==> table[i].status == OCCUPIED
    ensures Occupied(table) == |table|
  {
    if table != [] {
      FullTable(table[..|table| - 1]);
    }
  }

  /** With a slot to spare, insert's unguarded loop ends before it has been around. */
  lemma VacancyExists(hash: Key -> nat, table: seq<Slot>, key: Key)
    requires PowerOfTwo(|table|) && Occupied(table) < |table|
    ensures Vacancy(Path(hash, table, key), key) < |table|
  {
    if forall i :: 0 <= i < |table| ==> table[i].status == OCCUPIED {
      FullTable(table);
    } else {
      var i :| 0 <= i < |table| && table[i].status != OCCUPIED;
      hide PowerOfTwo, Home;
      RotatedUpdate(table, i, table[i], Home(hash, key, |table|));
    }
  }

  lemma UniqueIsOnce(hash: Key -> nat, table: seq<Slot>)
    requires PowerOfTwo(|table|)
    ensures Unique(table) <==> forall key :: Once(Path(hash, table, key), key)
  {
    hide PowerOfTwo, Home;
    if Unique(table) {
      forall key ensures Once(Path(hash, table, key), key) {
        OnceOf(table, Home(hash, key, |table|), key);
      }
    }
    forall i, j | 0 <= i < j < |table| && table[i].status == OCCUPIED && table[j].status == OCCUPIED &&
        table[i].key == table[j].key
      ensures !Once(Path(hash, table, table[i].key), table[i].key)
    {
      NotOnce(table, Home(hash, table[i].key, |table|), i, j);
    }
  }

  lemma OnceOf(table: seq<Slot>, home: nat, key: Key)
    requires home < |table| && Unique(table)
    ensures Once(Rotated(table, home), key)
  {
    var path := Rotated(table, home);
    forall d, e | 0 <= e < d < |path| && Holds(path[d], key) ensures !Holds(path[e], key) {
      RingDistinct(home + d, home + e, |table|);
      hide Ring;
      assert path[d] == table[Ring(home + d, |table|)] && path[e] == table[Ring(home + e, |table|)];
    }
  }

  lemma NotOnce(table: seq<Slot>, home: nat, i: nat, j: nat)
    requires home < |table| && i < j < |table| && table[i].status == OCCUPIED && table[j].status == OCCUPIED
    requires table[i].key == table[j].key
    ensures !Once(Rotated(table, home), table[i].key)
  {
    var path, d, e := Rotated(table, home), Distance(i, home, |table|), Distance(j, home, |table|);
    RotatedUpdate(table, i, table[i], home);
    RotatedUpdate(table, j, table[j], home);
    assert Holds(path[d], table[i].key) && Holds(path[e], table[i].key);
    assert d != e;
  }

  function LookupIn(hash: Key -> nat, table: seq<Slot>, key: Key): Option<Value>
    requires PowerOfTwo(|table|)
  {
    Lookup(Path(hash, table, key), key)
  }

  function Found(m: map<Key, Value>, key: Key): Option<Value> {
    if key in m then Some(m[key]) else None
  }

  /** The table is this map: no duplicates, nothing out of reach, and every look-up agrees. */
  ghost predicate Represents(hash: Key -> nat, table: seq<Slot>, m: map<Key, Value>) {
    && ProbeInvariant(hash, table) && Unique(table)
    && forall key :: LookupIn(hash, table, key) == Found(m, key)
  }

  /** The slot where a key's search or insertion stopped after d steps. */
  function SlotAt(hash: Key -> nat, capacity: nat, key: Key, d: nat): (i: nat)
    requires PowerOfTwo(capacity)
    ensures i < capacity
  {
    Ring(Home(hash, key, capacity) + d, capacity)
  }

  /** The key written where insert stops, if it stops. */
  function Placed(hash: Key -> nat, table: seq<Slot>, key: Key, value: Value): (after: seq<Slot>)
    requires PowerOfTwo(|table|)
    ensures |after| == |table|
  {
    var v := Vacancy(Path(hash, table, key), key);
    if v < |table| then table[SlotAt(hash, |table|, key, v) := Slot(OCCUPIED, key, value)] else table
  }

  /** The first match turned into a tombstone. */
  function Buried(hash: Key -> nat, table: seq<Slot>, key: Key): (after: seq<Slot>)
    requires PowerOfTwo(|table|)
    ensures |after| == |table|
  {
    var path := Path(hash, table, key);
    var d := Search(path, key);
    if d < |table| && path[d].status == OCCUPIED then
      var i := SlotAt(hash, |table|, key, d);
      table[i := table[i].(status := DELETED)]
    else table
  }

  /** Writing one slot, as every key's path sees it. */
  lemma PathUpdate(hash: Key -> nat, table: seq<Slot>, key: Key, d: nat, slot: Slot, other: Key)
    requires PowerOfTwo(|table|) && d < |table|
    ensures var i, after := SlotAt(hash, |table|, key, d), table[SlotAt(hash, |table|, key, d) := slot];
      var d' := Distance(i, Home(hash, other, |table|), |table|);
      && table[i] == Path(hash, table, key)[d] == Path(hash, table, other)[d']
      && Path(hash, after, other) == Path(hash, table, other)[d' := slot]
      && (Home(hash, other, |table|) == Home(hash, key, |table|) ==> d' == d)
  {
    hide PowerOfTwo, Home, Ring, Distance;
    var i, home := SlotAt(hash, |table|, key, d), Home(hash, other, |table|);
    RotatedUpdate(table, i, slot, home);
    DistanceIs(i, home, |table|, d);
  }

  /** An insertion is seen by find at once, disturbs no other key, tombstones and duplicates or not. */
  lemma PlacedKeeps(hash: Key -> nat, table: seq<Slot>, key: Key, value: Value)
    requires ProbeInvariant(hash, table) && Occupied(table) < |table|
    ensures var path, after := Path(hash, table, key), Placed(hash, table, key, value);
      && Vacancy(path, key) < |table| && ProbeInvariant(hash, after)
      && Occupied(after) == Occupied(table) + 1 - One(path[Vacancy(path, key)])
      && forall other ::
           LookupIn(hash, after, other) == if other == key then Some(value) else LookupIn(hash, table, other)
  {
    var path := Path(hash, table, key);
    VacancyExists(hash, table, key);
    var v := Vacancy(path, key);
    var slot := Slot(OCCUPIED, key, value);
    var after := Placed(hash, table, key, value);
    hide PowerOfTwo, Home, Ring, Distance, Path, Search, Vacancy, Lookup, Occupied, Reach;
    forall other
      ensures Reach(Path(hash, after, other), other)
      ensures LookupIn(hash, after, other) == if other == key then Some(value) else LookupIn(hash, table, other)
    {
      assert Reach(Path(hash, table, other), other) && Reach(path, key);
      PathUpdate(hash, table, key, v, slot, other);
      if other == key {
        PlaceOnOwnPath(path, key, value);
      } else {
        var d := Distance(SlotAt(hash, |table|, key, v), Home(hash, other, |table|), |table|);
        PlaceOnOtherPath(Path(hash, table, other), d, slot, other);
      }
    }
    PathUpdate(hash, table, key, v, slot, key);
    OccupiedUpdate(table, SlotAt(hash, |table|, key, v), slot);
  }

  lemma BuriedKeeps(hash: Key -> nat, table: seq<Slot>, key: Key)
    requires ProbeInvariant(hash, table)
    ensures var after := Buried(hash, table, key);
      && ProbeInvariant(hash, after)
      && Occupied(after) == Occupied(table) - (if LookupIn(hash, table, key) == None then 0 else 1)
      && forall other :: other != key ==> LookupIn(hash, after, other) == LookupIn(hash, table, other)
    ensures Once(Path(hash, table, key), key) ==> LookupIn(hash, Buried(hash, table, key), key) == None
  {
    var path := Path(hash, table, key);
    var s := Search(path, key);
    var after := Buried(hash, table, key);
    if s < |table| && path[s].status == OCCUPIED {
      var slot := path[s].(status := DELETED);
      assert Holds(path[s], key);
      PathUpdate(hash, table, key, s, slot, key);
      hide PowerOfTwo, Home, Ring, Distance, Path, Search, Vacancy, Lookup, Occupied, Reach, Once;
      forall other
        ensures Reach(Path(hash, after, other), other)
        ensures other != key ==> LookupIn(hash, after, other) == LookupIn(hash, table, other)
      {
        assert Reach(Path(hash, table, other), other) && Reach(path, key);
        PathUpdate(hash, table, key, s, slot, other);
        if other == key {
          BuryOnOwnPath(path, key, slot);
        } else {
          var d := Distance(SlotAt(hash, |table|, key, s), Home(hash, other, |table|), |table|);
          BuryOnOtherPath(Path(hash, table, other), d, slot, other);
        }
      }
      BuryOnOwnPath(path, key, slot);
      OccupiedUpdate(table, SlotAt(hash, |table|, key, s), slot);
    }
  }

  /** What a caller can see before an insertion: the key is there, but a tombstone comes before it. */
  predicate Shadowed(hash: Key -> nat, table: seq<Slot>, key: Key)
    requires PowerOfTwo(|table|)
  {
    var path := Path(hash, table, key);
    var v := Vacancy(path, key);
    LookupIn(hash, table, key) != None && v < |path| && path[v].status == DELETED
  }

  lemma PlacedUniqueIff(hash: Key -> nat, table: seq<Slot>, key: Key, value: Value)
    requires ProbeInvariant(hash, table) && Unique(table) && Occupied(table) < |table|
    ensures Unique(Placed(hash, table, key, value)) <==> !Shadowed(hash, table, key)
  {
    var path := Path(hash, table, key);
    VacancyExists(hash, table, key);
    var v := Vacancy(path, key);
    var slot := Slot(OCCUPIED, key, value);
    var after := Placed(hash, table, key, value);
    UniqueIsOnce(hash, table);
    UniqueIsOnce(hash, after);
    assert Reach(path, key) && Once(path, key);
    PlaceKeepsOnceIff(path, key, value);
    PathUpdate(hash, table, key, v, slot, key);
    EmptyMeansAbsent(path, key);
    hide PowerOfTwo, Home, Ring, Distance, Path, Search, Vacancy, Lookup, Occupied, Reach, Unique;
    assert Once(Path(hash, after, key), key) <==> !Shadowed(hash, table, key);
    forall other | other != key ensures Once(Path(hash, after, other), other) {
      assert Once(Path(hash, table, other), other);
      PathUpdate(hash, table, key, v, slot, other);
      OnceUpdate(Path(hash, table, other),
                 Distance(SlotAt(hash, |table|, key, v), Home(hash, other, |table|), |table|), slot, other);
    }
  }

  lemma OnceUpdate(path: seq<Slot>, d: nat, slot: Slot, key: Key)
    requires d < |path| && Once(path, key) && !Holds(slot, key)
    ensures Once(path[d := slot], key)
  {
  }

  lemma EmptyMeansAbsent(path: seq<Slot>, key: Key)
    requires Reach(path, key)
    ensures var v := Vacancy(path, key); v < |path| && path[v].status == EMPTY ==> Lookup(path, key) == None
  {
    var v := Vacancy(path, key);
    assert v < |path| && path[v].status == EMPTY ==> Search(path, key) == v;
  }

  /** Insert updates the map exactly when no tombstone shadows the key. */
  lemma InsertRefinesIff(hash: Key -> nat, table: seq<Slot>, m: map<Key, Value>, key: Key, value: Value)
    requires Represents(hash, table, m) && Occupied(table) < |table|
    ensures Represents(hash, Placed(hash, table, key, value), m[key := value]) <==> !Shadowed(hash, table, key)
    ensures Shadowed(hash, table, key) ==>
      key in m && forall m' :: !Represents(hash, Placed(hash, table, key, value), m')
  {
    PlacedKeeps(hash, table, key, value);
    PlacedUniqueIff(hash, table, key, value);
    assert LookupIn(hash, table, key) == Found(m, key);
    var after := Placed(hash, table, key, value);
    hide PowerOfTwo, Placed, ProbeInvariant, Unique, Lookup, Path, Occupied, Vacancy, Found;
    forall other ensures LookupIn(hash, after, other) == Found(m[key := value], other) {
      assert LookupIn(hash, table, other) == Found(m, other);
      FoundUpdate(m, key, value, other);
    }
    FoundUpdate(m, key, value, key);
  }

  lemma FoundUpdate(m: map<Key, Value>, key: Key, value: Value, other: Key)
    ensures Found(m[key := value], other) == if other == key then Some(value) else Found(m, other)
    ensures Found(m, key) != None <==> key in m
  {
  }

  lemma EraseRefines(hash: Key -> nat, table: seq<Slot>, m: map<Key, Value>, key: Key)
    requires Represents(hash, table, m)
    ensures Represents(hash, Buried(hash, table, key), m - {key})
  {
    assert PowerOfTwo(|table|);
    hide PowerOfTwo, Buried, ProbeInvariant, Unique, LookupIn, Occupied, Path, Once;
    UniqueIsOnce(hash, table);
    assert Once(Path(hash, table, key), key);
    BuriedKeeps(hash, table, key);
    var after := Buried(hash, table, key);
    BuriedUnique(hash, table, key);
    forall other ensures LookupIn(hash, after, other) == Found(m - {key}, other) {
      assert LookupIn(hash, table, other) == Found(m, other);
    }
  }

  lemma BuriedUnique(hash: Key -> nat, table: seq<Slot>, key: Key)
    requires PowerOfTwo(|table|) && Unique(table)
    ensures Unique(Buried(hash, table, key))
  {
    hide PowerOfTwo, Path, SlotAt, Search;
    var after := Buried(hash, table, key);
    assert forall i :: 0 <= i < |table| && after[i].status == OCCUPIED ==> after[i] == table[i];
  }

  /** What a shadowed insertion costs: after erasing the key, the old value is found again. */
  lemma ShadowedKeyComesBack(hash: Key -> nat, table: seq<Slot>, m: map<Key, Value>, key: Key, value: Value)
    requires Represents(hash, table, m) && Occupied(table) < |table| && Shadowed(hash, table, key)
    ensures key in m && LookupIn(hash, Buried(hash, Placed(hash, table, key, value), key), key) == Some(m[key])
  {
    assert LookupIn(hash, table, key) == Found(m, key);
    var path := Path(hash, table, key);
    var v := Vacancy(path, key);
    var slot, grave := Slot(OCCUPIED, key, value), Slot(DELETED, key, value);
    var after := Placed(hash, table, key, value);
    BuriedAgain(path, key, slot, grave);
    PathUpdate(hash, table, key, v, slot, key);
    PathUpdate(hash, after, key, v, grave, key);
    hide PowerOfTwo, Home, Ring, Distance, Path, Occupied, ProbeInvariant, Unique, Search, Vacancy, Lookup;
    assert Path(hash, after, key) == path[v := slot];
    assert Path(hash, Buried(hash, after, key), key) == path[v := grave];
  }

  lemma BuriedAgain(path: seq<Slot>, key: Key, slot: Slot, grave: Slot)
    requires Vacancy(path, key) < |path| && path[Vacancy(path, key)].status == DELETED
    requires Holds(slot, key) && grave.status == DELETED
    ensures var v := Vacancy(path, key);
      && Search(path[v := slot], key) == v
      && path[v := slot][v := grave] == path[v := grave]
      && Lookup(path[v := grave], key) == Lookup(path, key)
  {
    var v := Vacancy(path, key);
    var placed, buried := path[v := slot], path[v := grave];
    assert Search(placed, key) == v by { assert Holds(placed[v], key); }
    assert forall e :: 0 <= e < |path| && e != v ==> buried[e] == path[e];
    assert Search(buried, key) == Search(path, key);
  }

  // ----- Growing --------------------------------------------------------------------------------

  function EmptyTable(n: nat): (table: seq<Slot>)
    ensures |table| == n && forall i :: 0 <= i < n ==> table[i] == Slot(EMPTY, 0, DEFAULT)
  {
    seq(n, _ => Slot(EMPTY, 0, DEFAULT))
  }

  predicate TombstoneFree(table: seq<Slot>) {
    forall i :: 0 <= i < |table| ==> table[i].status != DELETED
  }

  /** The occupied slots of a table inserted one after the other into another. */
  function Reinserted(hash: Key -> nat, target: seq<Slot>, slots: seq<Slot>): (after: seq<Slot>)
    requires PowerOfTwo(|target|)
    ensures |after| == |target|
  {
    if slots == [] then target
    else
      var last := slots[|slots| - 1];
      var before := Reinserted(hash, target, slots[..|slots| - 1]);
      if last.status == OCCUPIED then Placed(hash, before, last.key, last.value) else before
  }

  /** The last occupied slot with the key, in table order. */
  function LastValue(slots: seq<Slot>, key: Key): Option<Value> {
    if slots == [] then None
    else if Holds(slots[|slots| - 1], key) then Some(slots[|slots| - 1].value)
    else LastValue(slots[..|slots| - 1], key)
  }

  lemma {:induction false} EmptyTableFacts(hash: Key -> nat, n: nat)
    requires PowerOfTwo(n)
    ensures Represents(hash, EmptyTable(n), map[]) && TombstoneFree(EmptyTable(n)) && Occupied(EmptyTable(n)) == 0
  {
    var table := EmptyTable(n);
    NoneOccupied(table);
    hide PowerOfTwo, Home, Ring;
    forall key ensures Reach(Path(hash, table, key), key) && LookupIn(hash, table, key) == None {
      assert forall d :: 0 <= d < n ==> Path(hash, table, key)[d].status == EMPTY;
    }
  }

  lemma {:induction false} NoneOccupied(table: seq<Slot>)
    requires forall i :: 0 <= i < |table| ==> table[i].status != OCCUPIED
    ensures Occupied(table) == 0
  {
    if table != [] {
      NoneOccupied(table[..|table| - 1]);
    }
  }

  lemma TombstoneFreeIsUnshadowed(hash: Key -> nat, table: seq<Slot>, key: Key, value: Value)
    requires PowerOfTwo(|table|) && TombstoneFree(table)
    ensures !Shadowed(hash, table, key) && TombstoneFree(Placed(hash, table, key, value))
  {
    hide PowerOfTwo, Home, Ring;
  }

  /** Reinsertion into an empty table with room keeps the last value of every key, drops the
      tombstones and leaves no duplicates, whatever the old table looked like. */
  lemma {:induction false} ReinsertedFacts(hash: Key -> nat, n: nat, slots: seq<Slot>)
    requires PowerOfTwo(n) && Occupied(slots) < n
    ensures var after := Reinserted(hash, EmptyTable(n), slots);
      && ProbeInvariant(hash, after) && Unique(after) && TombstoneFree(after) && Occupied(after) <= Occupied(slots)
      && forall key :: LookupIn(hash, after, key) == LastValue(slots, key)
  {
    if slots == [] {
      EmptyTableFacts(hash, n);
    } else {
      var last, front := slots[|slots| - 1], slots[..|slots| - 1];
      ReinsertedFacts(hash, n, front);
      var before := Reinserted(hash, EmptyTable(n), front);
      if last.status == OCCUPIED {
        PlacedKeeps(hash, before, last.key, last.value);
        PlacedUniqueIff(hash, before, last.key, last.value);
        TombstoneFreeIsUnshadowed(hash, before, last.key, last.value);
      }
    }
  }

  /** Without duplicates, the last value in table order is the one find returns. */
  lemma LastValueIsLookup(hash: Key -> nat, table: seq<Slot>, key: Key)
    requires ProbeInvariant(hash, table) && Unique(table)
    ensures LastValue(table, key) == LookupIn(hash, table, key)
  {
    var path := Path(hash, table, key);
    assert Reach(path, key);
    SearchIsExact(path, key);
    LastValueFacts(table, key);
    UniqueIsOnce(hash, table);
    assert Once(path, key);
    hide PowerOfTwo, Home, Ring, Occupied, LastValue, Reach, Distance, Once, Unique;
    if i :| 0 <= i < |table| && Holds(table[i], key) {
      RotatedUpdate(table, i, table[i], Home(hash, key, |table|));
      OnceIsFirst(path, key, Distance(i, Home(hash, key, |table|), |table|));
    } else {
      NowhereOnPath(hash, table, key);
    }
  }

  lemma OnceIsFirst(path: seq<Slot>, key: Key, d: nat)
    requires Reach(path, key) && Once(path, key) && d < |path| && Holds(path[d], key)
    ensures Lookup(path, key) == Some(path[d].value)
  {
    assert Search(path, key) == d;
  }

  lemma NowhereOnPath(hash: Key -> nat, table: seq<Slot>, key: Key)
    requires PowerOfTwo(|table|) && forall i :: 0 <= i < |table| ==> !Holds(table[i], key)
    ensures LookupIn(hash, table, key) == None
  {
    hide PowerOfTwo, Home, Ring;
    var path := Path(hash, table, key);
    assert forall d :: 0 <= d < |table| ==> path[d] == table[Ring(Home(hash, key, |table|) + d, |table|)];
  }

  lemma {:induction false} LastValueFacts(slots: seq<Slot>, key: Key)
    ensures LastValue(slots, key) == None <==> forall i :: 0 <= i < |slots| ==> !Holds(slots[i], key)
    ensures Unique(slots) ==>
      forall i :: 0 <= i < |slots| && Holds(slots[i], key) ==> LastValue(slots, key) == Some(slots[i].value)
  {
    if slots != [] {
      LastValueFacts(slots[..|slots| - 1], key);
    }
  }

  /** The table an insertion works on: grown first if one more would exceed the load factor. */
  function Grown(hash: Key -> nat, table: seq<Slot>): (after: seq<Slot>)
    requires PowerOfTwo(|table|)
    ensures PowerOfTwo(|after|) && |after| == 2 * |table|
  {
    TwiceIsPower(|table|);
    Reinserted(hash, EmptyTable(2 * |table|), table)
  }

  /** Growing keeps the map, and its result is ready for one more insertion without growing. */
  lemma GrownFacts(hash: Key -> nat, table: seq<Slot>)
    requires ProbeInvariant(hash, table) && 10 * Occupied(table) <= 7 * |table|
    ensures var after := Grown(hash, table);
      && ProbeInvariant(hash, after) && Unique(after) && TombstoneFree(after)
      && Occupied(after) <= Occupied(table) && !Overloaded(Occupied(after), |after|)
      && (forall key :: LookupIn(hash, after, key) == LastValue(table, key))
      && forall m :: Represents(hash, table, m) ==> Represents(hash, after, m)
  {
    TwiceIsPower(|table|);
    ReinsertedFacts(hash, 2 * |table|, table);
    var after := Grown(hash, table);
    hide Reinserted, EmptyTable, LastValue, LookupIn, Occupied, Unique, TombstoneFree;
    if Unique(table) {
      forall key ensures LookupIn(hash, after, key) == LookupIn(hash, table, key) {
        LastValueIsLookup(hash, table, key);
      }
    }
  }

  predicate Overloaded(size: nat, capacity: nat) {
    10 * (size + 1) > 7 * capacity
  }

  /** The table as insert leaves it. */
  function InsertedInto(hash: Key -> nat, table: seq<Slot>, key: Key, value: Value): (after: seq<Slot>)
    requires PowerOfTwo(|table|)
    ensures PowerOfTwo(|after|)
  {
    var base := if Overloaded(Occupied(table), |table|) then Grown(hash, table) else table;
    Placed(hash, base, key, value)
  }

  /** The table as operator[] leaves it: it grows only when it has to place the key. */
  function IndexedInto(hash: Key -> nat, table: seq<Slot>, key: Key): (after: seq<Slot>)
    requires PowerOfTwo(|table|)
    ensures PowerOfTwo(|after|)
  {
    if Occupies(hash, table, key) then table
    else if !Overloaded(Occupied(table), |table|) then Placed(hash, table, key, DEFAULT)
    else
      var base := Grown(hash, table);
      if Occupies(hash, base, key) then base else Placed(hash, base, key, DEFAULT)
  }

  /** The key is met before any free slot. */
  predicate Occupies(hash: Key -> nat, table: seq<Slot>, key: Key)
    requires PowerOfTwo(|table|)
  {
    var path := Path(hash, table, key);
    var v := Vacancy(path, key);
    v < |path| && path[v].status == OCCUPIED
  }

  ghost predicate WithinLoad(hash: Key -> nat, table: seq<Slot>) {
    ProbeInvariant(hash, table) && 10 * Occupied(table) <= 7 * |table|
  }

  /** Find after insert returns the value, from every reachable table, and the load stays within bounds. */
  lemma InsertIsFound(hash: Key -> nat, table: seq<Slot>, key: Key, value: Value)
    requires WithinLoad(hash, table)
    ensures var after := InsertedInto(hash, table, key, value);
      && WithinLoad(hash, after) && LookupIn(hash, after, key) == Some(value)
      && |after| == if 10 * (Occupied(table) + 1) > 7 * |table| then 2 * |table| else |table|
  {
    GrownFacts(hash, table);
    var base := if Overloaded(Occupied(table), |table|) then Grown(hash, table) else table;
    hide Grown, Unique, TombstoneFree, Placed, LookupIn;
    PlacedKeeps(hash, base, key, value);
  }

  /** Over the whole insert, growth included: a map update exactly when the table grows or no tombstone
      shadows the key. In particular for an absent key, and in a tombstone-free table. */
  lemma InsertedRefinesIff(hash: Key -> nat, table: seq<Slot>, m: map<Key, Value>, key: Key, value: Value)
    requires Represents(hash, table, m) && WithinLoad(hash, table)
    ensures Represents(hash, InsertedInto(hash, table, key, value), m[key := value]) <==>
      Overloaded(Occupied(table), |table|) || !Shadowed(hash, table, key)
    ensures key !in m || TombstoneFree(table) ==> !Shadowed(hash, table, key)
  {
    GrownFacts(hash, table);
    var base := if Overloaded(Occupied(table), |table|) then Grown(hash, table) else table;
    assert LookupIn(hash, table, key) == Found(m, key);
    if TombstoneFree(base) { TombstoneFreeIsUnshadowed(hash, base, key, value); }
    InsertRefinesIff(hash, base, m, key, value);
  }

  /** The same for operator[], which leaves the default value under an absent key. */
  lemma IndexedRefinesIff(hash: Key -> nat, table: seq<Slot>, m: map<Key, Value>, key: Key)
    requires Represents(hash, table, m) && WithinLoad(hash, table)
    ensures Represents(hash, IndexedInto(hash, table, key), if key in m then m else m[key := 0]) <==>
      Overloaded(Occupied(table), |table|) || !Shadowed(hash, table, key)
  {
    GrownFacts(hash, table);
    OccupiesIff(hash, table, m, key);
    if !Occupies(hash, table, key) {
      if Overloaded(Occupied(table), |table|) {
        var base := Grown(hash, table);
        TombstoneFreeIsUnshadowed(hash, base, key, DEFAULT);
        OccupiesIff(hash, base, m, key);
        InsertRefinesIff(hash, base, m, key, DEFAULT);
      } else {
        InsertRefinesIff(hash, table, m, key, DEFAULT);
      }
    }
  }

  lemma OccupiesIff(hash: Key -> nat, table: seq<Slot>, m: map<Key, Value>, key: Key)
    requires Represents(hash, table, m) && Occupied(table) < |table|
    ensures Occupies(hash, table, key) <==> key in m && !Shadowed(hash, table, key)
  {
    var path := Path(hash, table, key);
    VacancyExists(hash, table, key);
    assert Reach(path, key) && LookupIn(hash, table, key) == Found(m, key);
    EmptyMeansAbsent(path, key);
    var v := Vacancy(path, key);
    assert path[v].status == OCCUPIED ==> Search(path, key) == v;
  }

  /** The size is the number of keys. */
  lemma SizeIsKeyCount(hash: Key -> nat, table: seq<Slot>, m: map<Key, Value>)
    requires Represents(hash, table, m)
    ensures Occupied(table) == |m|
  {
    KeysCount(table);
    forall key ensures key in m <==> key in Keys(table) {
      LastValueIsLookup(hash, table, key);
      LastValueFacts(table, key);
      assert LookupIn(hash, table, key) == Found(m, key);
    }
    assert m.Keys == Keys(table);
  }

  function Keys(table: seq<Slot>): set<Key> {
    set i | 0 <= i < |table| && table[i].status == OCCUPIED :: table[i].key
  }

  lemma {:induction false} KeysCount(table: seq<Slot>)
    requires Unique(table)
    ensures |Keys(table)| == Occupied(table)
  {
    if table != [] {
      var last, front := table[|table| - 1], table[..|table| - 1];
      KeysCount(front);
      assert forall i :: 0 <= i < |front| ==> front[i] == table[i];
      if last.status == OCCUPIED {
        forall key ensures key in Keys(table) <==> key in Keys(front) || key == last.key {
          if key in Keys(table) {
            var i :| 0 <= i < |table| && table[i].status == OCCUPIED && table[i].key == key;
            assert i < |front| ==> front[i].key == key;
          }
        }
        assert Keys(table) == Keys(front) + {last.key};
      } else {
        assert Keys(table) == Keys(front);
      }
    }
  }

  lemma HomeZero(hash: Key -> nat, table: seq<Slot>, key: Key)
    requires PowerOfTwo(|table|) && hash(key) % |table| == 0
    ensures Path(hash, table, key) == table && forall d :: 0 <= d < |table| ==> SlotAt(hash, |table|, key, d) == d
  {
    forall d | 0 <= d < |table| ensures SlotAt(hash, |table|, key, d) == d && Path(hash, table, key)[d] == table[d] {
      RingSmall(d, |table|);
    }
  }

  lemma InsertFromZero(hash: Key -> nat, table: seq<Slot>, key: Key, value: Value)
    requires PowerOfTwo(|table|) && hash(key) % |table| == 0 && !Overloaded(Occupied(table), |table|)
    requires Vacancy(table, key) < |table|
    ensures InsertedInto(hash, table, key, value) == table[Vacancy(table, key) := Slot(OCCUPIED, key, value)]
    ensures InsertedInto(hash, table, key, value) == Placed(hash, table, key, value)
  {
    hide PowerOfTwo, Occupied, Path, SlotAt;
    HomeZero(hash, table, key);
  }

  /** The table after insert(0), insert(4), erase(0) when both keys have slot 0 as their home. */
  function ShadowedTable(hash: Key -> nat): (table: seq<Slot>)
    requires PowerOfTwo(4)
  {
    Buried(hash, InsertedInto(hash, InsertedInto(hash, EmptyTable(4), 0, 7), 4, 8), 0)
  }

  lemma ShadowedTableIs(hash: Key -> nat)
    requires PowerOfTwo(4) && hash(0) == 0 && hash(4) == 4
    ensures var free := Slot(EMPTY, 0, DEFAULT);
      ShadowedTable(hash) == [Slot(DELETED, 0, 7), Slot(OCCUPIED, 4, 8), free, free]
  {
    var free, zero, four := Slot(EMPTY, 0, DEFAULT), Slot(OCCUPIED, 0, 7), Slot(OCCUPIED, 4, 8);
    var t1, t2 := [zero, free, free, free], [zero, four, free, free];
    assert EmptyTable(4) == [free, free, free, free];
    OneOfFour(zero, free);
    hide PowerOfTwo, Path, SlotAt, Occupied, EmptyTable, InsertedInto, Placed, Vacancy, Search, Buried;
    FirstInsert(hash);
    assert Vacancy(t1, 4) == 1;
    InsertFromZero(hash, t1, 4, 8);
    EraseFromZero(hash, t2, 0);
  }

  lemma OneOfFour(slot: Slot, free: Slot)
    requires slot.status == OCCUPIED && free.status == EMPTY
    ensures Occupied([free, free, free, free]) == 0 && Occupied([slot, free, free, free]) == 1
  {
    var table := [free, free, free, free];
    NoneOccupied(table);
    OccupiedUpdate(table, 0, slot);
    assert table[0 := slot] == [slot, free, free, free];
  }

  lemma FirstInsert(hash: Key -> nat)
    requires PowerOfTwo(4) && hash(0) == 0
    ensures var free := Slot(EMPTY, 0, DEFAULT);
      InsertedInto(hash, [free, free, free, free], 0, 7) == [Slot(OCCUPIED, 0, 7), free, free, free]
  {
    var free := Slot(EMPTY, 0, DEFAULT);
    var table := [free, free, free, free];
    OneOfFour(Slot(OCCUPIED, 0, 7), free);
    hide PowerOfTwo, Path, SlotAt, Occupied, InsertedInto, Placed, Vacancy;
    assert Vacancy(table, 0) == 0;
    InsertFromZero(hash, table, 0, 7);
  }

  lemma EraseFromZero(hash: Key -> nat, table: seq<Slot>, key: Key)
    requires PowerOfTwo(|table|) && hash(key) % |table| == 0 && Holds(table[0], key)
    ensures Buried(hash, table, key) == table[0 := table[0].(status := DELETED)]
  {
    hide PowerOfTwo, Path, SlotAt, Search;
    HomeZero(hash, table, key);
    assert Search(table, key) == 0;
    assert Path(hash, table, key) == table && SlotAt(hash, |table|, key, 0) == 0;
  }

  lemma ShadowedTableRepresents(hash: Key -> nat)
    requires PowerOfTwo(4)
    ensures Represents(hash, ShadowedTable(hash), map[4 := 8]) && WithinLoad(hash, ShadowedTable(hash))
  {
    hide PowerOfTwo, Represents, ProbeInvariant, Occupied, Shadowed, TombstoneFree, InsertedInto, Buried;
    EmptyTableFacts(hash, 4);
    var t0 := EmptyTable(4);
    var t1 := InsertedInto(hash, t0, 0, 7);
    var t2 := InsertedInto(hash, t1, 4, 8);
    assert WithinLoad(hash, t0) by { IsWithinLoad(hash, t0, map[]); }
    InsertIsFound(hash, t0, 0, 7);
    InsertedRefinesIff(hash, t0, map[], 0, 7);
    InsertIsFound(hash, t1, 4, 8);
    InsertedRefinesIff(hash, t1, map[0 := 7], 4, 8);
    EraseRefines(hash, t2, map[0 := 7][4 := 8], 0);
    BuriedKeeps(hash, t2, 0);
    assert map[0 := 7][4 := 8] - {0} == map[4 := 8];
    assert map[][0 := 7] == map[0 := 7];
  }

  lemma IsWithinLoad(hash: Key -> nat, table: seq<Slot>, m: map<Key, Value>)
    requires Represents(hash, table, m) && 10 * Occupied(table) <= 7 * |table|
    ensures WithinLoad(hash, table)
  {
  }

  /** A shadowed key is two insertions and an erasure away from an empty table; after one more
      insertion and erasure of that key its old value is back. */
  lemma ShadowingIsReachable(hash: Key -> nat)
    requires hash(0) == 0 && hash(4) == 4
    ensures PowerOfTwo(4)
    ensures Represents(hash, ShadowedTable(hash), map[4 := 8]) && Shadowed(hash, ShadowedTable(hash), 4)
    ensures LookupIn(hash, Buried(hash, InsertedInto(hash, ShadowedTable(hash), 4, 9), 4), 4) == Some(8)
  {
    FourIsPower();
    var table := ShadowedTable(hash);
    ShadowedTableIs(hash);
    ShadowedTableRepresents(hash);
    HomeZero(hash, table, 4);
    assert Vacancy(table, 4) == 0 && LookupIn(hash, table, 4) == Found(map[4 := 8], 4);
    SizeIsKeyCount(hash, table, map[4 := 8]);
    hide PowerOfTwo, Occupied, ProbeInvariant, Path, Placed, InsertedInto, ShadowedTable, Unique, Buried;
    InsertFromZero(hash, table, 4, 9);
    ShadowedKeyComesBack(hash, table, map[4 := 8], 4, 9);
  }

  lemma PlacedIsMet(hash: Key -> nat, table: seq<Slot>, key: Key, value: Value)
    requires PowerOfTwo(|table|) && Vacancy(Path(hash, table, key), key) < |table|
    ensures Search(Path(hash, Placed(hash, table, key, value), key), key) == Vacancy(Path(hash, table, key), key)
  {
    var path := Path(hash, table, key);
    var v, slot := Vacancy(path, key), Slot(OCCUPIED, key, value);
    PathUpdate(hash, table, key, v, slot, key);
    assert Holds(path[v := slot][v], key);
    hide PowerOfTwo, Path;
    assert Search(path[v := slot], key) == v;
  }

  lemma MetIsFound(path: seq<Slot>, key: Key)
    ensures var v := Vacancy(path, key); v < |path| && path[v].status == OCCUPIED ==> Search(path, key) == v
  {
  }

  /** One probe step. */
  lemma NextSlot(hash: Key -> nat, capacity: nat, key: Key, d: nat)
    requires PowerOfTwo(capacity) && d < capacity
    ensures Masked(SlotAt(hash, capacity, key, d) + 1, capacity) ==
      if d + 1 < capacity then SlotAt(hash, capacity, key, d + 1) else Home(hash, key, capacity)
    ensures d + 1 < capacity ==> SlotAt(hash, capacity, key, d + 1) != Home(hash, key, capacity)
    ensures SlotAt(hash, capacity, key, 0) == Home(hash, key, capacity)
  {
    var home := Home(hash, key, capacity);
    RingAdd(home + d, 1, capacity);
    RingSmall(home, capacity);
    RingLap(home, capacity);
    if d + 1 < capacity { RingDistinct(home + d + 1, home, capacity); }
    hide Ring, Home, PowerOfTwo;
    assert home + d + 1 == home + (d + 1);
  }

  // ----- The map itself -------------------------------------------------------------------------

  class OpenAddressingHashMap {
    const hash: Key -> nat
    var table: seq<Slot>
    var size: nat
    var mask: nat

    ghost predicate Valid()
      reads this
    {
      WithinLoad(hash, table) && size == Occupied(table) && mask + 1 == |table|
    }

    constructor (hash: Key -> nat, initBuckets: nat)
      requires PowerOfTwo(initBuckets)
      ensures Valid() && this.hash == hash && |table| == initBuckets && Represents(hash, table, map[])
    {
      this.hash := hash;
      table := EmptyTable(initBuckets);
      size := 0;
      mask := initBuckets - 1;
      EmptyTableFacts(hash, initBuckets);
    }

    function GetHash(key: Key): (h: nat)
      reads this
      requires Valid()
      ensures h == Home(hash, key, |table|) == SlotAt(hash, |table|, key, 0)
    {
      MaskIsRing(hash(key), |table|);
      NextSlot(hash, |table|, key, 0);
      BitAnd(hash(key), mask)
    }

    method Contains(key: Key) returns (found: bool)
      requires Valid()
      ensures found <==> LookupIn(hash, table, key) != None
    {
      var index := GetHash(key);
      var originalIndex := index;
      ghost var path, d := Path(hash, table, key), 0;
      hide WithinLoad, Occupied, PowerOfTwo, Home, Ring, SlotAt, BitAnd, Search;
      while table[index].status != EMPTY
        invariant 0 <= d < |table| && index == SlotAt(hash, |table|, key, d)
        invariant forall e :: 0 <= e < d ==> path[e].status != EMPTY && !Holds(path[e], key)
        decreases |table| - d
      {
        SlotOnPath(hash, table, key, d);
        if table[index].status == OCCUPIED && table[index].key == key {
          assert Search(path, key) == d;
          return true;
        }
        NextSlot(hash, |table|, key, d);
        MaskIsRing(index + 1, |table|);
        index := BitAnd(index + 1, mask);
        d := d + 1;
        if index == originalIndex {
          break;
        }
      }
      if d < |table| { SlotOnPath(hash, table, key, d); }
      assert Search(path, key) == d;
      return false;
    }

    /** The slot of the first match. */
    method Find(key: Key) returns (found: Option<nat>)
      requires Valid()
      ensures found == None <==> LookupIn(hash, table, key) == None
      ensures found.Some? ==>
        found.value < |table| && Holds(table[found.value], key) &&
        LookupIn(hash, table, key) == Some(table[found.value].value)
      ensures found.Some? ==> found.value == SlotAt(hash, |table|, key, Search(Path(hash, table, key), key))
    {
      var index := GetHash(key);
      var originalIndex := index;
      ghost var path, d := Path(hash, table, key), 0;
      hide WithinLoad, Occupied, PowerOfTwo, Home, Ring, SlotAt, BitAnd, Search;
      while table[index].status != EMPTY
        invariant 0 <= d < |table| && index == SlotAt(hash, |table|, key, d)
        invariant forall e :: 0 <= e < d ==> path[e].status != EMPTY && !Holds(path[e], key)
        decreases |table| - d
      {
        SlotOnPath(hash, table, key, d);
        if table[index].status == OCCUPIED && table[index].key == key {
          assert Search(path, key) == d;
          return Some(index);
        }
        NextSlot(hash, |table|, key, d);
        MaskIsRing(index + 1, |table|);
        index := BitAnd(index + 1, mask);
        d := d + 1;
        if index == originalIndex {
          break;
        }
      }
      if d < |table| { SlotOnPath(hash, table, key, d); }
      assert Search(path, key) == d;
      return None;
    }

    method Erase(key: Key) returns (erased: bool)
      requires Valid()
      modifies this
      ensures Valid() && table == Buried(hash, old(table), key)
      ensures erased <==> LookupIn(hash, old(table), key) != None
    {
      BuriedKeeps(hash, table, key);
      var found := Find(key);
      hide ProbeInvariant, Occupied, PowerOfTwo, Home, Ring, SlotAt, BitAnd, Search;
      if found == None {
        return false;
      }
      var index := found.value;
      table := table[index := table[index].(status := DELETED)];
      size := size - 1;
      return true;
    }

    /** Insert's probe loop. It has no guard against going around, and never needs one. */
    method ProbeForInsert(key: Key) returns (index: nat)
      requires Valid() && Occupied(table) < |table|
      ensures Vacancy(Path(hash, table, key), key) < |table|
      ensures index == SlotAt(hash, |table|, key, Vacancy(Path(hash, table, key), key))
    {
      VacancyExists(hash, table, key);
      ghost var path, d := Path(hash, table, key), 0;
      index := GetHash(key);
      hide WithinLoad, ProbeInvariant, Occupied, PowerOfTwo, Home, Ring, SlotAt, BitAnd, Vacancy;
      while table[index].status == OCCUPIED
        invariant 0 <= d < |table| && index == SlotAt(hash, |table|, key, d)
        invariant forall e :: 0 <= e < d ==> path[e].status == OCCUPIED && path[e].key != key
        decreases |table| - d
      {
        SlotOnPath(hash, table, key, d);
        if table[index].key == key {
          assert Vacancy(path, key) == d;
          return;
        }
        NextSlot(hash, |table|, key, d);
        MaskIsRing(index + 1, |table|);
        index := BitAnd(index + 1, mask);
        d := d + 1;
      }
      SlotOnPath(hash, table, key, d);
      assert Vacancy(path, key) == d;
    }

    method Insert(key: Key, value: Value)
      requires Valid()
      modifies this
      ensures Valid() && table == InsertedInto(hash, old(table), key, value)
      decreases if Overloaded(size, |table|) then 2 else 0
    {
      GrownFacts(hash, table);
      InsertIsFound(hash, table, key, value);
      if Overloaded(size, |table|) {
        ReHash();
      }
      PlacedKeeps(hash, table, key, value);
      hide ProbeInvariant, Grown, LookupIn, Unique, TombstoneFree, PowerOfTwo, Occupied, SlotAt, Vacancy;
      var index := ProbeForInsert(key);
      SlotOnPath(hash, table, key, Vacancy(Path(hash, table, key), key));
      if table[index].status == OCCUPIED {
        table := table[index := table[index].(value := value)];
      } else {
        table := table[index := Slot(OCCUPIED, key, value)];
        size := size + 1;
      }
    }

    lemma SomeVacancy(key: Key)
      requires Valid()
      ensures PowerOfTwo(|table|) && mask + 1 == |table|
      ensures Vacancy(Path(hash, table, key), key) < |table|
    {
      VacancyExists(hash, table, key);
    }

    /** The probe loop of operator[]; None is the exception that says the map is full. */
    method ProbeForIndex(key: Key) returns (r: Option<nat>)
      requires Valid()
      ensures Vacancy(Path(hash, table, key), key) < |table|
      ensures r == Some(SlotAt(hash, |table|, key, Vacancy(Path(hash, table, key), key)))
    {
      hide *;
      SomeVacancy(key);
      ghost var path, d := Path(hash, table, key), 0;
      var index := GetHash(key);
      var originalIndex := index;
      while true
        invariant 0 <= d < |table| && index == SlotAt(hash, |table|, key, d)
        invariant forall e :: 0 <= e < d ==> path[e].status == OCCUPIED && path[e].key != key
        decreases |table| - d
      {
        SlotOnPath(hash, table, key, d);
        if table[index].status == EMPTY || table[index].status == DELETED {
          assert Vacancy(path, key) == d;
          return Some(index);
        } else if table[index].status == OCCUPIED && table[index].key == key {
          assert Vacancy(path, key) == d;
          return Some(index);
        }
        NextSlot(hash, |table|, key, d);
        MaskIsRing(index + 1, |table|);
        index := BitAnd(index + 1, mask);
        d := d + 1;
        if index == originalIndex {
          return None;
        }
      }
    }

    /** operator[]: the slot of the key, whose value the caller may write. The exception is never thrown. */
    method Index(key: Key) returns (r: Option<nat>)
      requires Valid()
      modifies this
      ensures Valid() && table == IndexedInto(hash, old(table), key)
      ensures r.Some? && r.value < |table| && Holds(table[r.value], key)
      ensures r.value == SlotAt(hash, |table|, key, Search(Path(hash, table, key), key))
      decreases if Overloaded(size, |table|) then 2 else 0
    {
      GrownFacts(hash, table);
      PlacedKeeps(hash, table, key, DEFAULT);
      PlacedIsMet(hash, table, key, DEFAULT);
      MetIsFound(Path(hash, table, key), key);
      var probe := ProbeForIndex(key);
      SlotOnPath(hash, table, key, Vacancy(Path(hash, table, key), key));
      hide ProbeInvariant, Grown, LookupIn, Unique, TombstoneFree, PowerOfTwo, Occupied, SlotAt, Vacancy, Search, Path;
      if probe == None {
        return None;
      }
      var index := probe.value;
      if table[index].status == EMPTY || table[index].status == DELETED {
        if Overloaded(size, |table|) {
          ReHash();
          r := Index(key);
          return;
        }
        table := table[index := Slot(OCCUPIED, key, DEFAULT)];
        size := size + 1;
      }
      return Some(index);
    }

    /** Doubles the table and reinserts; it is never re-entered from its own insertions. */
    method ReHash()
      requires Valid()
      modifies this
      ensures Valid() && table == Grown(hash, old(table))
      decreases 1
    {
      var oldTable := table;
      var newSize := |oldTable| * 2;
      TwiceIsPower(|oldTable|);
      mask := newSize - 1;
      table := EmptyTable(newSize);
      size := 0;
      EmptyTableFacts(hash, newSize);
      assert Grown(hash, oldTable) == Reinserted(hash, EmptyTable(newSize), oldTable);
      hide *;
      for i := 0 to |oldTable|
        invariant Valid() && |table| == newSize && table == Reinserted(hash, EmptyTable(newSize), oldTable[..i])
        invariant size <= Occupied(oldTable[..i])
      {
        SizeIsCount();
        ReinsertOne(hash, EmptyTable(newSize), oldTable, i, table);
        if oldTable[i].status == OCCUPIED {
          Insert(oldTable[i].key, oldTable[i].value);
        }
        SizeIsCount();
      }
      assert oldTable[..|oldTable|] == oldTable;
    }

    lemma SizeIsCount()
      requires Valid()
      ensures size == Occupied(table)
    {
    }
  }

  lemma ReinsertOne(hash: Key -> nat, target: seq<Slot>, slots: seq<Slot>, i: nat, table: seq<Slot>)
    requires PowerOfTwo(|target|) && |target| == 2 * |slots| && i < |slots| && 10 * Occupied(slots) <= 7 * |slots|
    requires ProbeInvariant(hash, table) && table == Reinserted(hash, target, slots[..i])
    requires Occupied(table) <= Occupied(slots[..i])
    ensures var after := Reinserted(hash, target, slots[..i + 1]);
      && PowerOfTwo(|table|) && Occupied(after) <= Occupied(slots[..i + 1])
      && if slots[i].status != OCCUPIED then after == table
         else
           && !Overloaded(Occupied(table), |table|)
           && after == InsertedInto(hash, table, slots[i].key, slots[i].value)
  {
    OccupiedPrefix(slots, i);
    assert slots[..i + 1][..i] == slots[..i];
    hide PowerOfTwo, ProbeInvariant, Occupied, Path, Vacancy, LookupIn, Placed;
    if slots[i].status == OCCUPIED { PlacedKeeps(hash, table, slots[i].key, slots[i].value); }
  }

  lemma {:induction false} OccupiedPrefix(table: seq<Slot>, i: nat)
    requires i < |table|
    ensures Occupied(table[..i + 1]) == Occupied(table[..i]) + One(table[i])
    ensures Occupied(table[..i + 1]) <= Occupied(table)
    decreases |table|
  {
    assert table[..i + 1][..i] == table[..i];
    if i + 1 < |table| {
      var front := table[..|table| - 1];
      OccupiedPrefix(front, i);
      assert front[..i + 1] == table[..i + 1];
    } else {
      assert table[..i + 1] == table;
    }
  }

  lemma SlotOnPath(hash: Key -> nat, table: seq<Slot>, key: Key, d: nat)
    requires PowerOfTwo(|table|) && d < |table|
    ensures Path(hash, table, key)[d] == table[SlotAt(hash, |table|, key, d)]
  {
    hide PowerOfTwo, Ring;
  }
}
