/** SharedPtr and WeakPtr: handles, control blocks and objects as three kinds of memory. A handle is a
    variable of the program; null is None. */
module SharedPtr {
  datatype Option<T> = None | Some(value: T)

  datatype Block = Block(target: Option<nat>, shared: int, weak: int)

  /** `adopted` are the objects ever given to a SharedPtr; `deleted` and `freed` record the deletions of
      objects and control blocks in order. */
  datatype Heap = Heap(blocks: map<nat, Block>, objects: set<nat>,
                       shared: map<nat, Option<nat>>, weak: map<nat, Option<nat>>,
                       adopted: set<nat>, deleted: seq<nat>, freed: seq<nat>, next: nat)

  // ----- Counting handles -----------------------------------------------------------------------

  function Holders(handles: map<nat, Option<nat>>, a: nat): set<nat> {
    set h | h in handles && handles[h] == Some(a)
  }

  function Refs(handles: map<nat, Option<nat>>, a: nat): nat {
    |Holders(handles, a)|
  }

  lemma RefsUpdate(handles: map<nat, Option<nat>>, h: nat, ref: Option<nat>, a: nat)
    ensures Refs(handles[h := ref], a) ==
      Refs(handles, a) - (if h in handles && handles[h] == Some(a) then 1 else 0) + (if ref == Some(a) then 1 else 0)
  {
    if ref == Some(a) {
      assert Holders(handles[h := ref], a) == Holders(handles, a) + {h};
    } else {
      assert Holders(handles[h := ref], a) == Holders(handles, a) - {h};
    }
  }

  lemma RefsRemove(handles: map<nat, Option<nat>>, h: nat, a: nat)
    requires h in handles && handles[h] == None
    ensures Refs(handles - {h}, a) == Refs(handles, a)
  {
    assert Holders(handles - {h}, a) == Holders(handles, a);
  }

  lemma RefsPositive(handles: map<nat, Option<nat>>, h: nat)
    requires h in handles && handles[h].Some?
    ensures Refs(handles, handles[h].value) > 0
  {
    assert h in Holders(handles, handles[h].value);
  }

  lemma RefsZero(handles: map<nat, Option<nat>>, a: nat)
    requires Refs(handles, a) == 0
    ensures forall h :: h in handles ==> handles[h] != Some(a)
  {
    forall h | h in handles ensures handles[h] != Some(a) {
      assert h !in Holders(handles, a);
    }
  }

  // ----- The invariant --------------------------------------------------------------------------

  predicate BlockSound(m: Heap, a: nat)
    requires a in m.blocks
  {
    var b := m.blocks[a];
    && a < m.next
    && b.shared == Refs(m.shared, a)
    && b.weak == Refs(m.weak, a) + (if b.shared > 0 then 1 else 0)
    && b.weak > 0
    && (b.target.Some? ==> b.shared > 0 && b.target.value in m.objects && b.target.value in m.adopted)
  }

  predicate Attached(m: Heap, handles: map<nat, Option<nat>>) {
    forall h :: h in handles && handles[h].Some? ==> handles[h].value in m.blocks
  }

  predicate NoRepeats(log: seq<nat>) {
    forall i, j :: 0 <= i < j < |log| ==> log[i] != log[j]
  }

  /** Adopted objects are owned by exactly one block or deleted, exactly once. */
  ghost predicate Owned(m: Heap) {
    && NoRepeats(m.deleted)
    && (forall o :: o in m.deleted ==> o in m.adopted && o !in m.objects)
    && (forall o :: o in m.adopted && o !in m.deleted ==> exists a :: a in m.blocks && m.blocks[a].target == Some(o))
    && (forall a, b :: a in m.blocks && b in m.blocks && a != b && m.blocks[a].target.Some? ==>
          m.blocks[a].target != m.blocks[b].target)
  }

  predicate BlocksFreedOnce(m: Heap) {
    && NoRepeats(m.freed)
    && (forall a :: a in m.freed ==> a < m.next && a !in m.blocks)
    && (forall a: nat :: a < m.next ==> a in m.blocks || a in m.freed)
  }

  /** No handle dangles and every count is exact. */
  predicate Counted(m: Heap) {
    && (forall a :: a in m.blocks ==> BlockSound(m, a))
    && Attached(m, m.shared) && Attached(m, m.weak)
  }

  ghost predicate Sound(m: Heap) {
    Counted(m) && Owned(m) && BlocksFreedOnce(m)
  }

  // ----- The steps every operation is made of ---------------------------------------------------

  /** SharedPtr::release. */
  function ReleasedShared(m: Heap, h: nat): (after: Heap)
    requires h in m.shared && (m.shared[h].Some? ==> m.shared[h].value in m.blocks)
    ensures after.shared == m.shared[h := None] && after.weak == m.weak
  {
    if m.shared[h] == None then m
    else
      var a := m.shared[h].value;
      var b := m.blocks[a];
      var m' := m.(shared := m.shared[h := None]);
      if b.shared != 1 then m'.(blocks := m.blocks[a := b.(shared := b.shared - 1)])
      else
        var m'' := if b.target == None then m' else
          m'.(objects := m.objects - {b.target.value}, deleted := m.deleted + [b.target.value]);
        if b.weak == 1 then m''.(blocks := m.blocks - {a}, freed := m.freed + [a])
        else m''.(blocks := m.blocks[a := Block(None, 0, b.weak - 1)])
  }

  lemma ReleasedNull(m: Heap, h: nat)
    requires h in m.shared && m.shared[h] == None
    ensures ReleasedShared(m, h) == m
  {
  }

  lemma ReleasedSharedIs(m: Heap, h: nat, after: Heap)
    requires h in m.shared && m.shared[h].Some? && m.shared[h].value in m.blocks
    requires after.shared == m.shared[h := None] && after.weak == m.weak
    requires after.adopted == m.adopted && after.next == m.next
    requires var a := m.shared[h].value;
      var b := m.blocks[a];
      if b.shared != 1 then
        after.blocks == m.blocks[a := b.(shared := b.shared - 1)]
        && after.objects == m.objects && after.deleted == m.deleted && after.freed == m.freed
      else
        && after.blocks == (if b.weak == 1 then m.blocks - {a} else m.blocks[a := Block(None, 0, b.weak - 1)])
        && after.freed == (if b.weak == 1 then m.freed + [a] else m.freed)
        && after.objects == (if b.target.Some? then m.objects - {b.target.value} else m.objects)
        && after.deleted == (if b.target.Some? then m.deleted + [b.target.value] else m.deleted)
    ensures after == ReleasedShared(m, h)
  {
  }

  lemma ReplaceTwice(blocks: map<nat, Block>, a: nat, first: Block, second: Block)
    requires a in blocks
    ensures blocks[a := first][a := second] == blocks[a := second]
    ensures blocks[a := first] - {a} == blocks - {a}
  {
  }

  /** WeakPtr::release. */
  function ReleasedWeak(m: Heap, h: nat): (after: Heap)
    requires h in m.weak && (m.weak[h].Some? ==> m.weak[h].value in m.blocks)
    ensures after.weak == m.weak[h := None] && after.shared == m.shared
  {
    if m.weak[h] == None then m
    else
      var a := m.weak[h].value;
      var b := m.blocks[a];
      var m' := m.(weak := m.weak[h := None]);
      if b.shared == 0 && b.weak == 1 then m'.(blocks := m.blocks - {a}, freed := m.freed + [a])
      else m'.(blocks := m.blocks[a := b.(weak := b.weak - 1)])
  }

  /** A null or new handle starts to share a control block. */
  function AttachedShared(m: Heap, h: nat, ref: Option<nat>): (after: Heap)
    requires ref.Some? ==> ref.value in m.blocks
  {
    var m' := m.(shared := m.shared[h := ref]);
    if ref == None then m'
    else m'.(blocks := m.blocks[ref.value := m.blocks[ref.value].(shared := m.blocks[ref.value].shared + 1)])
  }

  function AttachedWeak(m: Heap, h: nat, ref: Option<nat>): (after: Heap)
    requires ref.Some? ==> ref.value in m.blocks
  {
    var m' := m.(weak := m.weak[h := ref]);
    if ref == None then m'
    else m'.(blocks := m.blocks[ref.value := m.blocks[ref.value].(weak := m.blocks[ref.value].weak + 1)])
  }

  /** The control pointer taken over, the source left null. */
  function Moved(m: Heap, h: nat, from: nat): (after: Heap)
    requires from in m.shared
  {
    m.(shared := m.shared[h := m.shared[from]][from := None])
  }

  /** `new T` given to a new control block. */
  function Adopted(m: Heap, h: nat, target: Option<nat>): (after: Heap) {
    m.(blocks := m.blocks[m.next := Block(target, 1, 1)], shared := m.shared[h := Some(m.next)], next := m.next + 1,
       adopted := m.adopted + if target.Some? then {target.value} else {})
  }

  /** Ownership looks at the blocks' targets only. */
  lemma SameTargets(m: Heap, after: Heap)
    requires Owned(m) && BlocksFreedOnce(m) && after.blocks.Keys == m.blocks.Keys
    requires forall a :: a in m.blocks ==> after.blocks[a].target == m.blocks[a].target
    requires after.objects == m.objects && after.adopted == m.adopted && after.deleted == m.deleted
    requires after.freed == m.freed && after.next == m.next
    ensures Owned(after) && BlocksFreedOnce(after)
  {
    forall o | o in after.adopted && o !in after.deleted
      ensures exists a :: a in after.blocks && after.blocks[a].target == Some(o)
    {
      var a :| a in m.blocks && m.blocks[a].target == Some(o);
      assert after.blocks[a].target == Some(o);
    }
  }

  lemma AttachedSharedCounts(m: Heap, h: nat, ref: Option<nat>)
    requires Counted(m) && (h in m.shared ==> m.shared[h] == None)
    requires ref.Some? ==> ref.value in m.blocks && m.blocks[ref.value].shared > 0
    ensures Counted(AttachedShared(m, h, ref))
  {
    var after := AttachedShared(m, h, ref);
    hide Refs;
    forall a | a in after.blocks ensures BlockSound(after, a) {
      assert BlockSound(m, a);
      RefsUpdate(m.shared, h, ref, a);
    }
  }

  lemma AttachedSharedKeeps(m: Heap, h: nat, ref: Option<nat>)
    requires Sound(m) && (h in m.shared ==> m.shared[h] == None)
    requires ref.Some? ==> ref.value in m.blocks && m.blocks[ref.value].shared > 0
    ensures Sound(AttachedShared(m, h, ref))
  {
    hide Counted, Owned, BlocksFreedOnce;
    AttachedSharedCounts(m, h, ref);
    SameTargets(m, AttachedShared(m, h, ref));
  }

  lemma AttachedWeakCounts(m: Heap, h: nat, ref: Option<nat>)
    requires Counted(m) && (h in m.weak ==> m.weak[h] == None)
    requires ref.Some? ==> ref.value in m.blocks
    ensures Counted(AttachedWeak(m, h, ref))
  {
    var after := AttachedWeak(m, h, ref);
    hide Refs;
    forall a | a in after.blocks ensures BlockSound(after, a) {
      assert BlockSound(m, a);
      RefsUpdate(m.weak, h, ref, a);
    }
  }

  lemma AttachedWeakKeeps(m: Heap, h: nat, ref: Option<nat>)
    requires Sound(m) && (h in m.weak ==> m.weak[h] == None)
    requires ref.Some? ==> ref.value in m.blocks
    ensures Sound(AttachedWeak(m, h, ref))
  {
    hide Counted, Owned, BlocksFreedOnce;
    AttachedWeakCounts(m, h, ref);
    SameTargets(m, AttachedWeak(m, h, ref));
  }

  lemma MovedKeeps(m: Heap, h: nat, from: nat)
    requires Sound(m) && from in m.shared && h != from && (h in m.shared ==> m.shared[h] == None)
    ensures Sound(Moved(m, h, from))
  {
    var after := Moved(m, h, from);
    forall a | a in after.blocks ensures BlockSound(after, a) {
      assert BlockSound(m, a);
      RefsUpdate(m.shared, h, m.shared[from], a);
      RefsUpdate(m.shared[h := m.shared[from]], from, None, a);
    }
  }

  lemma AdoptedKeeps(m: Heap, h: nat, target: Option<nat>)
    requires Sound(m) && h !in m.shared
    requires target.Some? ==> target.value in m.objects && target.value !in m.adopted
    ensures Sound(Adopted(m, h, target))
  {
    var after := Adopted(m, h, target);
    NobodyAt(m, m.next);
    forall a | a in after.blocks ensures BlockSound(after, a) {
      assert a != m.next ==> BlockSound(m, a);
      RefsUpdate(m.shared, h, Some(m.next), a);
    }
    AdoptedOwned(m, h, target);
  }

  /** No handle points at an address without a block. */
  lemma NobodyAt(m: Heap, a: nat)
    requires Attached(m, m.shared) && Attached(m, m.weak) && a !in m.blocks
    ensures Refs(m.shared, a) == 0 && Refs(m.weak, a) == 0
  {
    assert Holders(m.shared, a) == {};
    assert Holders(m.weak, a) == {};
  }

  lemma AdoptedOwned(m: Heap, h: nat, target: Option<nat>)
    requires Sound(m) && (target.Some? ==> target.value in m.objects && target.value !in m.adopted)
    ensures Owned(Adopted(m, h, target)) && BlocksFreedOnce(Adopted(m, h, target))
  {
    var after := Adopted(m, h, target);
    forall a | a in m.blocks
      ensures a != m.next && after.blocks[a] == m.blocks[a] && (target.Some? ==> m.blocks[a].target != target)
    {
      assert BlockSound(m, a);
    }
    forall o | o in after.adopted && o !in after.deleted
      ensures exists a :: a in after.blocks && after.blocks[a].target == Some(o)
    {
      if target == Some(o) {
        assert after.blocks[m.next].target == Some(o);
      } else {
        var a :| a in m.blocks && m.blocks[a].target == Some(o);
        assert after.blocks[a].target == Some(o);
      }
    }
  }

  /** The last SharedPtr of a block lets go of its object, which nobody else owns. */
  lemma DeletedOnce(m: Heap, a: nat, after: Heap)
    requires Owned(m) && a in m.blocks
    requires || after.blocks == m.blocks - {a}
             || (a in after.blocks && after.blocks[a].target == None && after.blocks - {a} == m.blocks - {a})
    requires after.adopted == m.adopted
    requires var t := m.blocks[a].target;
      if t == None then after.deleted == m.deleted && after.objects == m.objects
      else
        && after.deleted == m.deleted + [t.value] && after.objects == m.objects - {t.value}
        && t.value in m.objects && t.value in m.adopted
    ensures Owned(after)
    ensures forall c :: c in after.blocks && c != a ==>
      c in m.blocks && after.blocks[c] == m.blocks[c] &&
      (m.blocks[c].target.Some? ==> m.blocks[c].target != m.blocks[a].target)
  {
    forall c | c in after.blocks && c != a ensures c in m.blocks && after.blocks[c] == m.blocks[c] {
      assert c in after.blocks - {a};
    }
    forall o | o in after.adopted && o !in after.deleted
      ensures exists c :: c in after.blocks && after.blocks[c].target == Some(o)
    {
      assert o !in m.deleted;
      var c :| c in m.blocks && m.blocks[c].target == Some(o);
      assert c != a;
      assert c in m.blocks - {a} && c in after.blocks && after.blocks[c].target == Some(o);
    }
  }

  lemma FreedOnce(m: Heap, a: nat, after: Heap)
    requires BlocksFreedOnce(m) && a in m.blocks && a < m.next && after.next == m.next
    requires after.blocks.Keys == m.blocks.Keys - {a} && after.freed == m.freed + [a]
    ensures BlocksFreedOnce(after)
  {
  }

  lemma HandleFacts(m: Heap, h: nat)
    requires Counted(m)
    ensures h in m.shared && m.shared[h].Some? ==>
      var a := m.shared[h].value;
      && a in m.blocks && BlockSound(m, a) && m.blocks[a].shared > 0
      && Refs(m.shared[h := None], a) == m.blocks[a].shared - 1
    ensures h in m.weak && m.weak[h].Some? ==>
      var a := m.weak[h].value;
      && a in m.blocks && BlockSound(m, a) && Refs(m.weak, a) > 0
      && Refs(m.weak[h := None], a) == Refs(m.weak, a) - 1
  {
    if h in m.shared && m.shared[h].Some? {
      RefsPositive(m.shared, h);
      RefsUpdate(m.shared, h, None, m.shared[h].value);
    }
    if h in m.weak && m.weak[h].Some? {
      RefsPositive(m.weak, h);
      RefsUpdate(m.weak, h, None, m.weak[h].value);
    }
  }

  lemma ReleasedSharedBlock(m: Heap, h: nat, c: nat)
    requires Counted(m) && Owned(m) && h in m.shared && m.shared[h].Some? && m.shared[h].value in m.blocks
    requires c in ReleasedShared(m, h).blocks
    ensures BlockSound(ReleasedShared(m, h), c)
  {
    HandleFacts(m, h);
    assert BlockSound(m, c);
    RefsUpdate(m.shared, h, None, c);
    hide Refs, Attached;
  }

  lemma ReleasedSharedAttached(m: Heap, h: nat)
    requires Counted(m) && h in m.shared && m.shared[h].Some?
    ensures m.shared[h].value in m.blocks
    ensures Attached(ReleasedShared(m, h), m.shared[h := None]) && Attached(ReleasedShared(m, h), m.weak)
  {
    var a := m.shared[h].value;
    HandleFacts(m, h);
    if m.blocks[a].shared == 1 && m.blocks[a].weak == 1 {
      RefsZero(m.shared[h := None], a);
      RefsZero(m.weak, a);
    }
    hide BlockSound, Refs;
  }

  lemma ReleasedSharedCounts(m: Heap, h: nat)
    requires Counted(m) && Owned(m) && h in m.shared && m.shared[h].Some?
    ensures m.shared[h].value in m.blocks && Counted(ReleasedShared(m, h))
  {
    ReleasedSharedAttached(m, h);
    var after := ReleasedShared(m, h);
    assert after.shared == m.shared[h := None] && after.weak == m.weak;
    forall c | c in after.blocks ensures BlockSound(after, c) {
      ReleasedSharedBlock(m, h, c);
    }
    hide BlockSound, Refs, ReleasedShared, Owned, Attached;
  }

  lemma LastReleaseOwned(m: Heap, h: nat)
    requires Sound(m) && h in m.shared && m.shared[h].Some? && m.shared[h].value in m.blocks
    requires m.blocks[m.shared[h].value].shared == 1
    ensures Owned(ReleasedShared(m, h)) && BlocksFreedOnce(ReleasedShared(m, h))
  {
    var a := m.shared[h].value;
    var after := ReleasedShared(m, h);
    assert BlockSound(m, a);
    var b := m.blocks[a];
    assert after.adopted == m.adopted && after.next == m.next;
    assert after.blocks == if b.weak == 1 then m.blocks - {a} else m.blocks[a := Block(None, 0, b.weak - 1)];
    assert after.freed == if b.weak == 1 then m.freed + [a] else m.freed;
    assert if b.target == None then after.deleted == m.deleted && after.objects == m.objects
           else after.deleted == m.deleted + [b.target.value] && after.objects == m.objects - {b.target.value};
    hide Counted, Owned, BlocksFreedOnce, Refs, ReleasedShared;
    DeletedOnce(m, a, after);
    if m.blocks[a].weak == 1 { FreedOnce(m, a, after); } else { SameFreed(m, after); }
  }

  lemma ReleasedSharedKeeps(m: Heap, h: nat)
    requires Sound(m) && h in m.shared
    ensures m.shared[h].Some? ==> m.shared[h].value in m.blocks
    ensures Sound(ReleasedShared(m, h))
  {
    if m.shared[h].Some? {
      ReleasedSharedCounts(m, h);
      hide Counted, Owned, BlocksFreedOnce;
      if m.blocks[m.shared[h].value].shared == 1 {
        LastReleaseOwned(m, h);
      } else {
        SameTargets(m, ReleasedShared(m, h));
      }
    }
  }

  lemma SameFreed(m: Heap, after: Heap)
    requires BlocksFreedOnce(m) && after.blocks.Keys == m.blocks.Keys && after.freed == m.freed && after.next == m.next
    ensures BlocksFreedOnce(after)
  {
  }

  lemma ReleasedWeakBlock(m: Heap, h: nat, c: nat)
    requires Counted(m) && h in m.weak && m.weak[h].Some? && m.weak[h].value in m.blocks
    requires c in ReleasedWeak(m, h).blocks
    ensures BlockSound(ReleasedWeak(m, h), c)
  {
    HandleFacts(m, h);
    assert BlockSound(m, c);
    RefsUpdate(m.weak, h, None, c);
    hide Refs, Attached;
  }

  lemma ReleasedWeakCounts(m: Heap, h: nat)
    requires Counted(m) && h in m.weak && m.weak[h].Some?
    ensures m.weak[h].value in m.blocks && Counted(ReleasedWeak(m, h))
  {
    var a := m.weak[h].value;
    HandleFacts(m, h);
    var after := ReleasedWeak(m, h);
    forall c | c in after.blocks ensures BlockSound(after, c) {
      ReleasedWeakBlock(m, h, c);
    }
    if a !in after.blocks {
      RefsZero(m.weak[h := None], a);
      RefsZero(m.shared, a);
    }
    hide BlockSound, Refs;
  }

  lemma ReleasedWeakKeeps(m: Heap, h: nat)
    requires Sound(m) && h in m.weak
    ensures m.weak[h].Some? ==> m.weak[h].value in m.blocks
    ensures Sound(ReleasedWeak(m, h))
  {
    if m.weak[h].Some? {
      var a := m.weak[h].value;
      HandleFacts(m, h);
      ReleasedWeakCounts(m, h);
      var after := ReleasedWeak(m, h);
      hide Counted, Owned, BlocksFreedOnce, Refs;
      if m.blocks[a].shared == 0 && m.blocks[a].weak == 1 {
        DeletedOnce(m, a, after);
        FreedOnce(m, a, after);
      } else {
        SameTargets(m, after);
      }
    }
  }

  // ----- The operations -------------------------------------------------------------------------

  datatype Op =
    | Create(target: nat)
    | NewShared(h: nat, given: Option<nat>) | DefaultShared(h: nat)
    | CopyShared(h: nat, from: nat) | MoveShared(h: nat, from: nat)
    | AssignShared(h: nat, from: nat) | MoveAssignShared(h: nat, from: nat)
    | DestroyShared(h: nat)
    | DefaultWeak(w: nat) | WeakOfShared(w: nat, from: nat)
    | CopyWeak(w: nat, from: nat) | AssignWeak(w: nat, from: nat)
    | DestroyWeak(w: nat)
    | Lock(h: nat, w: nat)

  /** What the language asks of a program: constructors make new handles, everything else names existing
      ones, and each raw pointer goes to one SharedPtr only. */
  predicate Legal(m: Heap, op: Op) {
    match op
    case Create(o) => o !in m.objects && o !in m.adopted
    case NewShared(h, given) =>
      h !in m.shared && (given.Some? ==> given.value in m.objects && given.value !in m.adopted)
    case DefaultShared(h) => h !in m.shared
    case CopyShared(h, from) => h !in m.shared && from in m.shared
    case MoveShared(h, from) => h !in m.shared && from in m.shared
    case AssignShared(h, from) => h in m.shared && from in m.shared
    case MoveAssignShared(h, from) => h in m.shared && from in m.shared
    case DestroyShared(h) => h in m.shared
    case DefaultWeak(w) => w !in m.weak
    case WeakOfShared(w, from) => w !in m.weak && from in m.shared
    case CopyWeak(w, from) => w !in m.weak && from in m.weak
    case AssignWeak(w, from) => w in m.weak && from in m.weak
    case DestroyWeak(w) => w in m.weak
    case Lock(h, w) => h !in m.shared && w in m.weak
  }

  predicate Expired(m: Heap, w: nat)
    requires Attached(m, m.weak) && w in m.weak
  {
    m.weak[w] == None || m.blocks[m.weak[w].value].shared == 0
  }

  /** Copying a handle, into a new one or one that was released. */
  ghost function CopiedShared(m: Heap, h: nat, from: nat): (after: Heap)
    requires Sound(m) && from in m.shared && (h in m.shared ==> m.shared[h] == None)
    ensures Sound(after)
  {
    HandleFacts(m, from);
    AttachedSharedKeeps(m, h, m.shared[from]);
    AttachedShared(m, h, m.shared[from])
  }

  ghost function WeakenedShared(m: Heap, w: nat, from: nat): (after: Heap)
    requires Sound(m) && from in m.shared && w !in m.weak
    ensures Sound(after)
  {
    HandleFacts(m, from);
    AttachedWeakKeeps(m, w, m.shared[from]);
    AttachedWeak(m, w, m.shared[from])
  }

  ghost function CopiedWeak(m: Heap, w: nat, from: nat): (after: Heap)
    requires Sound(m) && from in m.weak && (w in m.weak ==> m.weak[w] == None)
    ensures Sound(after)
  {
    HandleFacts(m, from);
    AttachedWeakKeeps(m, w, m.weak[from]);
    AttachedWeak(m, w, m.weak[from])
  }

  /** SharedPtr::release on a sound memory. */
  ghost function Released(m: Heap, h: nat): (after: Heap)
    requires Sound(m) && h in m.shared
    ensures Sound(after) && after.shared == m.shared[h := None] && after.weak == m.weak
  {
    ReleasedSharedKeeps(m, h);
    ReleasedShared(m, h)
  }

  ghost function WeakReleased(m: Heap, w: nat): (after: Heap)
    requires Sound(m) && w in m.weak
    ensures Sound(after) && after.weak == m.weak[w := None] && after.shared == m.shared
  {
    ReleasedWeakKeeps(m, w);
    ReleasedWeak(m, w)
  }

  ghost function MovedShared(m: Heap, h: nat, from: nat): (after: Heap)
    requires Sound(m) && from in m.shared && h != from && (h in m.shared ==> m.shared[h] == None)
    ensures Sound(after)
  {
    MovedKeeps(m, h, from);
    Moved(m, h, from)
  }

  ghost function Locked(m: Heap, h: nat, w: nat): (after: Heap)
    requires Sound(m) && h !in m.shared && w in m.weak
    ensures Sound(after)
  {
    LockKeeps(m, h, w);
    AttachedShared(m, h, if Expired(m, w) then None else m.weak[w])
  }

  ghost function NewBlock(m: Heap, h: nat, given: Option<nat>): (after: Heap)
    requires Sound(m) && h !in m.shared
    requires given.Some? ==> given.value in m.objects && given.value !in m.adopted
    ensures Sound(after)
  {
    AdoptedKeeps(m, h, given);
    Adopted(m, h, given)
  }

  ghost function NewObject(m: Heap, o: nat): (after: Heap)
    requires Sound(m) && o !in m.objects && o !in m.adopted
    ensures Sound(after)
  {
    CreateKeeps(m, o);
    m.(objects := m.objects + {o})
  }

  ghost function NullShared(m: Heap, h: nat): (after: Heap)
    requires Sound(m) && h !in m.shared
    ensures Sound(after)
  {
    AttachedSharedKeeps(m, h, None);
    AttachedShared(m, h, None)
  }

  ghost function NullWeak(m: Heap, w: nat): (after: Heap)
    requires Sound(m) && w !in m.weak
    ensures Sound(after)
  {
    AttachedWeakKeeps(m, w, None);
    AttachedWeak(m, w, None)
  }

  ghost function DestroyedShared(m: Heap, h: nat): (after: Heap)
    requires Sound(m) && h in m.shared
    ensures Sound(after)
  {
    DropSharedKeeps(Released(m, h), h);
    DroppedShared(Released(m, h), h)
  }

  ghost function DestroyedWeak(m: Heap, w: nat): (after: Heap)
    requires Sound(m) && w in m.weak
    ensures Sound(after)
  {
    DropWeakKeeps(WeakReleased(m, w), w);
    DroppedWeak(WeakReleased(m, w), w)
  }

  ghost function Step(m: Heap, op: Op): (after: Heap)
    requires Sound(m) && Legal(m, op)
    ensures Sound(after)
  {
    match op
    case Create(o) => NewObject(m, o)
    case NewShared(h, given) => NewBlock(m, h, given)
    case DefaultShared(h) => NullShared(m, h)
    case CopyShared(h, from) => CopiedShared(m, h, from)
    case MoveShared(h, from) => MovedShared(m, h, from)
    case AssignShared(h, from) => if h == from then m else CopiedShared(Released(m, h), h, from)
    case MoveAssignShared(h, from) => if h == from then m else MovedShared(Released(m, h), h, from)
    case DestroyShared(h) => DestroyedShared(m, h)
    case DefaultWeak(w) => NullWeak(m, w)
    case WeakOfShared(w, from) => WeakenedShared(m, w, from)
    case CopyWeak(w, from) => CopiedWeak(m, w, from)
    case AssignWeak(w, from) => if w == from then m else CopiedWeak(WeakReleased(m, w), w, from)
    case DestroyWeak(w) => DestroyedWeak(m, w)
    case Lock(h, w) => Locked(m, h, w)
  }

  function DroppedShared(m: Heap, h: nat): Heap {
    m.(shared := m.shared - {h})
  }

  function DroppedWeak(m: Heap, w: nat): Heap {
    m.(weak := m.weak - {w})
  }

  lemma CreateKeeps(m: Heap, o: nat)
    requires Sound(m) && o !in m.objects && o !in m.adopted
    ensures Sound(m.(objects := m.objects + {o}))
  {
    var after := m.(objects := m.objects + {o});
    forall a | a in after.blocks ensures BlockSound(after, a) {
      assert BlockSound(m, a);
    }
  }

  lemma DropSharedKeeps(m: Heap, h: nat)
    requires Sound(m) && h in m.shared && m.shared[h] == None
    ensures Sound(DroppedShared(m, h))
  {
    var after := DroppedShared(m, h);
    SameTargets(m, after);
    hide Owned, BlocksFreedOnce, Refs;
    forall a | a in after.blocks ensures BlockSound(after, a) {
      assert BlockSound(m, a);
      RefsRemove(m.shared, h, a);
    }
  }

  lemma DropWeakKeeps(m: Heap, w: nat)
    requires Sound(m) && w in m.weak && m.weak[w] == None
    ensures Sound(DroppedWeak(m, w))
  {
    var after := DroppedWeak(m, w);
    SameTargets(m, after);
    hide Owned, BlocksFreedOnce, Refs;
    forall a | a in after.blocks ensures BlockSound(after, a) {
      assert BlockSound(m, a);
      RefsRemove(m.weak, w, a);
    }
  }

  lemma LockKeeps(m: Heap, h: nat, w: nat)
    requires Sound(m) && h !in m.shared && w in m.weak
    ensures var ref := if Expired(m, w) then None else m.weak[w];
      (ref.Some? ==> ref.value in m.blocks) && Sound(AttachedShared(m, h, ref))
  {
    HandleFacts(m, w);
    if !Expired(m, w) {
      assert BlockSound(m, m.weak[w].value);
      AttachedSharedKeeps(m, h, m.weak[w]);
    } else {
      AttachedSharedKeeps(m, h, None);
    }
  }

  function Init(): Heap {
    Heap(map[], {}, map[], map[], {}, [], [], 0)
  }

  /** Any sequence of operations, those the language forbids left out. */
  ghost function Run(ops: seq<Op>): (m: Heap)
    ensures Sound(m)
  {
    if ops == [] then Init()
    else
      var m := Run(ops[..|ops| - 1]);
      var op := ops[|ops| - 1];
      if Legal(m, op) then Step(m, op) else m
  }

  // ----- What every run keeps -------------------------------------------------------------------

  /** Some SharedPtr points at a block that owns the object. */
  predicate Held(m: Heap, o: nat) {
    exists h ::
      h in m.shared && m.shared[h].Some? && m.shared[h].value in m.blocks &&
      m.blocks[m.shared[h].value].target == Some(o)
  }

  lemma SoundAliveIffHeld(m: Heap, o: nat)
    requires Sound(m) && o in m.adopted
    ensures o !in m.deleted <==> Held(m, o)
    ensures Held(m, o) ==> o in m.objects
  {
    if o !in m.deleted {
      var a :| a in m.blocks && m.blocks[a].target == Some(o);
      assert BlockSound(m, a);
      SomeHolder(m.shared, a);
    }
    if h :|
        h in m.shared && m.shared[h].Some? && m.shared[h].value in m.blocks &&
        m.blocks[m.shared[h].value].target == Some(o) {
      assert BlockSound(m, m.shared[h].value);
    }
  }

  lemma SomeHolder(handles: map<nat, Option<nat>>, a: nat)
    requires Refs(handles, a) > 0
    ensures exists h :: h in handles && handles[h] == Some(a)
  {
    var h :| h in Holders(handles, a);
  }

  /** A control block exists just as long as some handle of either kind points at it, is freed once, and its
      counts are the numbers of its handles. */
  lemma BlockLivesWithItsHandles(ops: seq<Op>, a: nat)
    requires a < Run(ops).next
    ensures var m := Run(ops);
      && (a in m.blocks <==> Refs(m.shared, a) + Refs(m.weak, a) > 0)
      && (a in m.freed <==> a !in m.blocks) && NoRepeats(m.freed)
      && (a in m.blocks ==> m.blocks[a].shared == Refs(m.shared, a))
      && (a in m.blocks ==> m.blocks[a].weak == Refs(m.weak, a) + if Refs(m.shared, a) > 0 then 1 else 0)
  {
    var m := Run(ops);
    if a in m.blocks {
      assert BlockSound(m, a);
    } else {
      NobodyAt(m, a);
    }
  }

  /** No handle dangles: neither at a freed control block nor, for a SharedPtr, at a deleted object. */
  lemma NoHandleDangles(ops: seq<Op>)
    ensures var m := Run(ops);
      && (forall w :: w in m.weak && m.weak[w].Some? ==> m.weak[w].value in m.blocks)
      && (forall h :: h in m.shared && m.shared[h].Some? ==>
            && m.shared[h].value in m.blocks
            && (m.blocks[m.shared[h].value].target.Some? ==> m.blocks[m.shared[h].value].target.value in m.objects))
  {
    var m := Run(ops);
    forall h | h in m.shared && m.shared[h].Some?
      ensures m.shared[h].value in m.blocks && BlockSound(m, m.shared[h].value)
    {}
  }

  /** lock succeeds exactly when some SharedPtr keeps the object's block, and then shares that block. */
  lemma LockSucceedsIffAlive(ops: seq<Op>, h: nat, w: nat)
    requires Legal(Run(ops), Lock(h, w))
    ensures var m := Run(ops);
      var after := Step(m, Lock(h, w));
      && after.shared[h] == (if m.weak[w].Some? && Refs(m.shared, m.weak[w].value) > 0 then m.weak[w] else None)
      && after.objects == m.objects && after.deleted == m.deleted && after.freed == m.freed && after.weak == m.weak
  {
    var m := Run(ops);
    HandleFacts(m, w);
  }

  // ----- What each operation does to the handles --------------------------------------------------

  /** Where the SharedPtr variables point after an operation. */
  function SharedAfter(m: Heap, op: Op): map<nat, Option<nat>>
    requires Legal(m, op)
  {
    match op
    case NewShared(h, _) => m.shared[h := Some(m.next)]
    case DefaultShared(h) => m.shared[h := None]
    case CopyShared(h, from) => m.shared[h := m.shared[from]]
    case AssignShared(h, from) => m.shared[h := m.shared[from]]
    case MoveShared(h, from) => m.shared[h := m.shared[from]][from := None]
    case MoveAssignShared(h, from) => if h == from then m.shared else m.shared[h := m.shared[from]][from := None]
    case DestroyShared(h) => m.shared - {h}
    case Lock(h, w) => m.shared[h := if m.weak[w] in m.shared.Values then m.weak[w] else None]
    case _ => m.shared
  }

  /** Where the WeakPtr variables point after an operation. */
  function WeakAfter(m: Heap, op: Op): map<nat, Option<nat>>
    requires Legal(m, op)
  {
    match op
    case DefaultWeak(w) => m.weak[w := None]
    case WeakOfShared(w, from) => m.weak[w := m.shared[from]]
    case CopyWeak(w, from) => m.weak[w := m.weak[from]]
    case AssignWeak(w, from) => m.weak[w := m.weak[from]]
    case DestroyWeak(w) => m.weak - {w}
    case _ => m.weak
  }

  /** No block is made, none that a SharedPtr still holds changes its object, and nothing is adopted. */
  predicate KeepsTargets(m: Heap, after: Heap) {
    && after.next == m.next && after.adopted == m.adopted
    && after.blocks.Keys <= m.blocks.Keys
    && (forall a :: a in after.blocks && after.blocks[a].shared > 0 ==>
          m.blocks[a].shared > 0 && after.blocks[a].target == m.blocks[a].target)
  }

  lemma ReleaseKeepsTargets(m: Heap, h: nat)
    requires Sound(m) && h in m.shared
    ensures KeepsTargets(m, Released(m, h))
  {
    hide *;
    ReleasedFacts(m, h);
    ReleasedTargets(m, h);
  }

  lemma ReleasedTargets(m: Heap, h: nat)
    requires h in m.shared && (m.shared[h].Some? ==> m.shared[h].value in m.blocks)
    ensures KeepsTargets(m, ReleasedShared(m, h))
  {
  }

  lemma WeakReleaseKeepsTargets(m: Heap, w: nat)
    requires Sound(m) && w in m.weak
    ensures KeepsTargets(m, WeakReleased(m, w))
  {
    WeakReleasedFacts(m, w);
    hide Sound, WeakReleased;
  }

  lemma AttachKeepsTargets(m: Heap, h: nat, ref: Option<nat>)
    requires ref.Some? ==> ref.value in m.blocks
    ensures AttachedWeak(m, h, ref).shared == m.shared && AttachedWeak(m, h, ref).weak == m.weak[h := ref]
    ensures AttachedShared(m, h, ref).shared == m.shared[h := ref] && AttachedShared(m, h, ref).weak == m.weak
    ensures KeepsTargets(m, AttachedWeak(m, h, ref))
    ensures (ref.Some? ==> m.blocks[ref.value].shared > 0) ==> KeepsTargets(m, AttachedShared(m, h, ref))
  {
  }

  /** Sharing a block that is held already keeps what came before. */
  lemma KeepsOn(m: Heap, mid: Heap, after: Heap)
    requires KeepsTargets(m, mid) && KeepsTargets(mid, after)
    ensures KeepsTargets(m, after)
  {
  }

  /** Every operation points the handles it names where the source does, changes no other handle, and a
      block that a SharedPtr still holds keeps its object. */
  ghost predicate OnHandles(m: Heap, op: Op)
    requires Sound(m) && Legal(m, op)
  {
    && Step(m, op).shared == SharedAfter(m, op) && Step(m, op).weak == WeakAfter(m, op)
    && (!op.NewShared? ==> KeepsTargets(m, Step(m, op)))
    && (op.NewShared? ==>
          && m.next !in m.blocks
          && Step(m, op).blocks == m.blocks[m.next := Block(op.given, 1, 1)] && Step(m, op).next == m.next + 1
          && Step(m, op).adopted == m.adopted + if op.given.Some? then {op.given.value} else {})
  }

  lemma StepOnHandles(m: Heap, op: Op)
    requires Sound(m) && Legal(m, op)
    ensures OnHandles(m, op)
  {
    hide *;
    match op
    case NewShared(_, _) => NewOnHandles(m, op);
    case AssignShared(_, _) => AssignOnHandles(m, op);
    case AssignWeak(_, _) => AssignOnHandles(m, op);
    case MoveAssignShared(_, _) => MoveOnHandles(m, op);
    case MoveShared(_, _) => MoveOnHandles(m, op);
    case Lock(_, _) => LockOnHandles(m, op);
    case DestroyShared(_) => DestroyOnHandles(m, op);
    case DestroyWeak(_) => DestroyOnHandles(m, op);
    case Create(_) => CreateOnHandles(m, op);
    case _ => CopyOnHandles(m, op);
  }

  lemma NewOnHandles(m: Heap, op: Op)
    requires Sound(m) && Legal(m, op) && op.NewShared?
    ensures OnHandles(m, op)
  {
    assert m.next in m.blocks ==> BlockSound(m, m.next);
    hide Sound;
  }

  lemma CreateOnHandles(m: Heap, op: Op)
    requires Sound(m) && Legal(m, op) && op.Create?
    ensures OnHandles(m, op)
  {
    hide Sound;
  }

  lemma CopyOnHandles(m: Heap, op: Op)
    requires Sound(m) && Legal(m, op)
    requires op.DefaultShared? || op.DefaultWeak? || op.CopyShared? || op.WeakOfShared? || op.CopyWeak?
    ensures OnHandles(m, op)
  {
    hide Sound, AttachedShared, AttachedWeak, KeepsTargets;
    match op {
      case DefaultShared(h) => AttachKeepsTargets(m, h, None);
      case DefaultWeak(w) => AttachKeepsTargets(m, w, None);
      case CopyShared(h, from) => CopyKeepsTargets(m, h, from);
      case CopyWeak(w, from) => CopyWeakKeepsTargets(m, w, from);
      case WeakOfShared(w, from) =>
        WeakenedSharedFacts(m, w, from);
        AttachKeepsTargets(m, w, m.shared[from]);
    }
  }

  lemma AssignOnHandles(m: Heap, op: Op)
    requires Sound(m) && Legal(m, op) && (op.AssignShared? || op.AssignWeak?)
    ensures OnHandles(m, op)
  {
    if op.AssignShared? {
      if op.h != op.from { ReassignedShared(m, op.h, op.from); } else { hide Sound; }
    } else if op.w != op.from {
      ReassignedWeak(m, op.w, op.from);
    }
    hide Sound, CopiedShared, CopiedWeak, Released, WeakReleased;
  }

  lemma CopyKeepsTargets(m: Heap, h: nat, from: nat)
    requires Sound(m) && from in m.shared && (h in m.shared ==> m.shared[h] == None)
    ensures var after := CopiedShared(m, h, from);
      && after.shared == m.shared[h := m.shared[from]] && after.weak == m.weak
      && KeepsTargets(m, after)
  {
    CopiedSharedFacts(m, h, from);
    if m.shared[from].Some? { SharedIsHeld(m, from); }
    hide Sound, CopiedShared;
    AttachKeepsTargets(m, h, m.shared[from]);
  }

  lemma SharedIsHeld(m: Heap, h: nat)
    requires Sound(m) && h in m.shared && m.shared[h].Some?
    ensures m.shared[h].value in m.blocks && m.blocks[m.shared[h].value].shared > 0
  {
    assert BlockSound(m, m.shared[h].value);
    RefsPositive(m.shared, h);
  }

  lemma CopyWeakKeepsTargets(m: Heap, w: nat, from: nat)
    requires Sound(m) && from in m.weak && (w in m.weak ==> m.weak[w] == None)
    ensures var after := CopiedWeak(m, w, from);
      && after.weak == m.weak[w := m.weak[from]] && after.shared == m.shared
      && KeepsTargets(m, after)
  {
    CopiedWeakFacts(m, w, from);
    if m.weak[from].Some? { HandleFacts(m, from); assert BlockSound(m, m.weak[from].value); }
    hide Sound, CopiedWeak;
    AttachKeepsTargets(m, w, m.weak[from]);
  }

  lemma ReassignedShared(m: Heap, h: nat, from: nat)
    requires Sound(m) && h in m.shared && from in m.shared && h != from
    ensures var after := CopiedShared(Released(m, h), h, from);
      KeepsTargets(m, after) && after.shared == m.shared[h := m.shared[from]] && after.weak == m.weak
  {
    hide *;
    ReleaseKeepsTargets(m, h);
    CopyKeepsTargets(Released(m, h), h, from);
    KeepsOn(m, Released(m, h), CopiedShared(Released(m, h), h, from));
    UpdateTwice(m.shared, h, m.shared[from]);
  }

  lemma ReassignedWeak(m: Heap, w: nat, from: nat)
    requires Sound(m) && w in m.weak && from in m.weak && w != from
    ensures var after := CopiedWeak(WeakReleased(m, w), w, from);
      KeepsTargets(m, after) && after.weak == m.weak[w := m.weak[from]] && after.shared == m.shared
  {
    hide *;
    WeakReleaseKeepsTargets(m, w);
    CopyWeakKeepsTargets(WeakReleased(m, w), w, from);
    KeepsOn(m, WeakReleased(m, w), CopiedWeak(WeakReleased(m, w), w, from));
    UpdateTwice(m.weak, w, m.weak[from]);
  }

  lemma UpdateTwice(handles: map<nat, Option<nat>>, h: nat, ref: Option<nat>)
    ensures handles[h := None][h := ref] == handles[h := ref]
    ensures handles[h := None] - {h} == handles - {h}
  {
  }

  lemma MoveOnHandles(m: Heap, op: Op)
    requires Sound(m) && Legal(m, op) && (op.MoveShared? || op.MoveAssignShared?)
    ensures OnHandles(m, op)
  {
    assert Step(m, op) ==
      if op.h == op.from then m else MovedShared(if op.MoveShared? then m else Released(m, op.h), op.h, op.from);
    hide Sound, Step, Released, MovedShared, KeepsTargets;
    if op.h != op.from {
      if op.MoveAssignShared? {
        ReleaseKeepsTargets(m, op.h);
        MoveKeepsTargets(Released(m, op.h), op.h, op.from);
        KeepsOn(m, Released(m, op.h), Step(m, op));
        UpdateTwice(m.shared, op.h, m.shared[op.from]);
      } else {
        MoveKeepsTargets(m, op.h, op.from);
      }
    } else {
      KeepsItself(m);
    }
  }

  lemma MoveKeepsTargets(m: Heap, h: nat, from: nat)
    requires Sound(m) && from in m.shared && h != from && (h in m.shared ==> m.shared[h] == None)
    ensures var after := MovedShared(m, h, from);
      && after.shared == m.shared[h := m.shared[from]][from := None] && after.weak == m.weak
      && KeepsTargets(m, after) && after.blocks == m.blocks
  {
    hide Sound;
  }

  lemma KeepsItself(m: Heap)
    ensures KeepsTargets(m, m)
  {
  }

  lemma DestroyOnHandles(m: Heap, op: Op)
    requires Sound(m) && Legal(m, op) && (op.DestroyShared? || op.DestroyWeak?)
    ensures OnHandles(m, op)
  {
    hide Sound, Released, WeakReleased;
    if op.DestroyShared? {
      ReleaseKeepsTargets(m, op.h);
      UpdateTwice(m.shared, op.h, None);
    } else {
      WeakReleaseKeepsTargets(m, op.w);
      UpdateTwice(m.weak, op.w, None);
    }
  }

  lemma LockOnHandles(m: Heap, op: Op)
    requires Sound(m) && Legal(m, op) && op.Lock?
    ensures OnHandles(m, op)
  {
    hide Sound, Step, AttachedShared, AttachedWeak, KeepsTargets;
    LockFacts(m, op.h, op.w);
    if m.weak[op.w].Some? { HeldIff(m, op.w); }
    var ref := m.weak[op.w];
    AttachKeepsTargets(m, op.h, if ref == None || m.blocks[ref.value].shared == 0 then None else ref);
  }

  lemma HeldIff(m: Heap, w: nat)
    requires Sound(m) && w in m.weak && m.weak[w].Some?
    ensures m.weak[w].value in m.blocks && (m.blocks[m.weak[w].value].shared > 0 <==> m.weak[w] in m.shared.Values)
    ensures m.blocks[m.weak[w].value].shared >= 0
  {
    var a := m.weak[w].value;
    HandleFacts(m, w);
    assert BlockSound(m, a);
    hide Sound;
    if m.blocks[a].shared > 0 { SomeHolder(m.shared, a); }
    if h :| h in m.shared && m.shared[h] == Some(a) { RefsPositive(m.shared, h); }
  }

  /** An object appears when it is created, and only one given to a SharedPtr can go. */
  lemma StepOnObjects(m: Heap, op: Op)
    requires Sound(m) && Legal(m, op)
    ensures var after := Step(m, op);
      if op.Create? then after.objects == m.objects + {op.target}
      else m.objects - m.adopted <= after.objects <= m.objects
  {
    hide Sound, Released, WeakReleased, AttachedShared, AttachedWeak;
    match op
    case AssignShared(h, from) =>
      if h != from {
        ReleaseOnObjects(m, h);
        CopiedSharedFacts(Released(m, h), h, from);
        AttachOnObjects(Released(m, h), h, m.shared[from]);
      }
    case MoveAssignShared(h, _) => ReleaseOnObjects(m, h);
    case DestroyShared(h) => ReleaseOnObjects(m, h);
    case CopyShared(h, from) => CopiedSharedFacts(m, h, from); AttachOnObjects(m, h, m.shared[from]);
    case WeakOfShared(w, from) => WeakenedSharedFacts(m, w, from); AttachOnObjects(m, w, m.shared[from]);
    case CopyWeak(w, from) => CopiedWeakFacts(m, w, from); AttachOnObjects(m, w, m.weak[from]);
    case AssignWeak(w, from) =>
      if w != from {
        WeakReleaseOnObjects(m, w);
        CopiedWeakFacts(WeakReleased(m, w), w, from);
        AttachOnObjects(WeakReleased(m, w), w, m.weak[from]);
      }
    case DestroyWeak(w) => WeakReleaseOnObjects(m, w);
    case DefaultShared(h) => AttachOnObjects(m, h, None);
    case DefaultWeak(w) => AttachOnObjects(m, w, None);
    case Lock(h, w) => LockFacts(m, h, w); AttachOnObjects(m, h, m.weak[w]); AttachOnObjects(m, h, None);
    case _ =>
  }

  lemma ReleaseOnObjects(m: Heap, h: nat)
    requires Sound(m) && h in m.shared
    ensures m.objects - m.adopted <= Released(m, h).objects <= m.objects
  {
    ReleasedFacts(m, h);
    if m.shared[h].Some? { assert BlockSound(m, m.shared[h].value); }
    hide Sound;
  }

  lemma WeakReleaseOnObjects(m: Heap, w: nat)
    requires Sound(m) && w in m.weak
    ensures WeakReleased(m, w).objects == m.objects
  {
    WeakReleasedFacts(m, w);
    hide Sound;
  }

  lemma AttachOnObjects(m: Heap, h: nat, ref: Option<nat>)
    requires ref.Some? ==> ref.value in m.blocks
    ensures AttachedShared(m, h, ref).objects == AttachedWeak(m, h, ref).objects == m.objects
  {
  }

  // ----- What the program gave and where it is ----------------------------------------------------

  lemma RunMore(ops: seq<Op>, op: Op)
    ensures Run(ops + [op]) == if Legal(Run(ops), op) then Step(Run(ops), op) else Run(ops)
  {
    assert (ops + [op])[..|ops|] == ops;
  }

  /** The raw pointers the program gave to a SharedPtr. */
  ghost function Given(ops: seq<Op>): set<nat> {
    if ops == [] then {}
    else
      var before, op := ops[..|ops| - 1], ops[|ops| - 1];
      Given(before) + if Legal(Run(before), op) && op.NewShared? && op.given.Some? then {op.given.value} else {}
  }

  /** The objects the program made. */
  ghost function Created(ops: seq<Op>): set<nat> {
    if ops == [] then {}
    else
      var before, op := ops[..|ops| - 1], ops[|ops| - 1];
      Created(before) + if Legal(Run(before), op) && op.Create? then {op.target} else {}
  }

  lemma {:induction false} ObjectsAreCreated(ops: seq<Op>)
    ensures Run(ops).objects <= Created(ops) && Given(ops) <= Created(ops)
    ensures Created(ops) - Given(ops) <= Run(ops).objects
  {
    hide Sound, Step;
    HeldBlocksKeepTheirObject(ops);
    if ops != [] {
      var before, op := ops[..|ops| - 1], ops[|ops| - 1];
      HeldBlocksKeepTheirObject(before);
      ObjectsAreCreated(before);
      if Legal(Run(before), op) { StepOnObjects(Run(before), op); }
    }
  }

  /** The raw pointer with which control block `a` was made; blocks are numbered as they are made. */
  ghost function GivenTo(ops: seq<Op>, a: nat): Option<nat> {
    if ops == [] then None
    else
      var before, op := ops[..|ops| - 1], ops[|ops| - 1];
      if Legal(Run(before), op) && op.NewShared? && Run(before).next == a then op.given else GivenTo(before, a)
  }

  /** A block that some SharedPtr holds has the object it was made with, whatever happened since. */
  lemma {:induction false} HeldBlocksKeepTheirObject(ops: seq<Op>)
    ensures Run(ops).adopted == Given(ops)
    ensures forall a :: a in Run(ops).blocks && Run(ops).blocks[a].shared > 0 ==>
      Run(ops).blocks[a].target == GivenTo(ops, a)
  {
    hide Sound, Step, Legal;
    if ops != [] {
      var before, op := ops[..|ops| - 1], ops[|ops| - 1];
      HeldBlocksKeepTheirObject(before);
      if Legal(Run(before), op) { StepOnTargets(Run(before), op); }
    }
  }

  lemma StepOnTargets(m: Heap, op: Op)
    requires Sound(m) && Legal(m, op)
    ensures Step(m, op).adopted == m.adopted + if op.NewShared? && op.given.Some? then {op.given.value} else {}
    ensures forall a :: a in Step(m, op).blocks && Step(m, op).blocks[a].shared > 0 ==>
      if op.NewShared? && a == m.next then Step(m, op).blocks[a].target == op.given
      else a in m.blocks && m.blocks[a].shared > 0 && Step(m, op).blocks[a].target == m.blocks[a].target
  {
    StepOnHandles(m, op);
    hide Step, Legal, SharedAfter, WeakAfter, Sound;
  }

  lemma StepOnPointers(m: Heap, op: Op, h: nat, w: nat)
    requires Sound(m) && Legal(m, op) && h in m.shared && w in m.weak && !Writes(op, h, w)
    ensures h in Step(m, op).shared && Step(m, op).shared[h] == m.shared[h]
    ensures w in Step(m, op).weak && Step(m, op).weak[w] == m.weak[w]
  {
    StepOnHandles(m, op);
    hide Step, Sound, KeepsTargets;
  }

  /** An object is alive from its creation on, and once it was given to a SharedPtr just as long as some
      SharedPtr points at the block that was made for it; it is deleted once, with the last of them. */
  lemma AliveIffHeld(ops: seq<Op>, o: nat)
    ensures var m := Run(ops);
      && (o in m.objects <==>
            && o in Created(ops)
            && (o in Given(ops) ==>
                  exists h :: h in m.shared && m.shared[h].Some? && GivenTo(ops, m.shared[h].value) == Some(o)))
      && (o in m.deleted <==> o in Created(ops) && o !in m.objects) && NoRepeats(m.deleted)
  {
    var m := Run(ops);
    HeldBlocksKeepTheirObject(ops);
    ObjectsAreCreated(ops);
    if o in Given(ops) { SoundAliveIffHeld(m, o); }
    forall h | h in m.shared && m.shared[h].Some?
      ensures m.shared[h].value in m.blocks && m.blocks[m.shared[h].value].shared > 0
    {
      SharedIsHeld(m, h);
    }
    assert o in m.deleted ==> o in m.adopted && o !in m.objects;
    assert NoRepeats(m.deleted);
    hide Run, Given, GivenTo, Created, Sound, NoRepeats;
  }

  /** The handles an operation writes. */
  predicate Writes(op: Op, h: nat, w: nat) {
    match op
    case MoveShared(g, from) => g == h || from == h
    case MoveAssignShared(g, from) => g == h || from == h
    case AssignShared(g, _) => g == h
    case DestroyShared(g) => g == h
    case AssignWeak(x, _) => x == w
    case DestroyWeak(x) => x == w
    case _ => false
  }

  /** A WeakPtr made from a SharedPtr locks to that one's block as long as neither handle is written. */
  lemma LockSharesTheOwner(ops: seq<Op>, w: nat, from: nat, more: seq<Op>, h: nat)
    requires Legal(Run(ops), WeakOfShared(w, from))
    requires forall i :: 0 <= i < |more| ==> !Writes(more[i], from, w)
    requires Legal(Run(ops + [WeakOfShared(w, from)] + more), Lock(h, w))
    ensures var m := Run(ops + [WeakOfShared(w, from)] + more + [Lock(h, w)]);
      h in m.shared && m.shared[h] == Run(ops).shared[from]
  {
    hide Run, Step, Sound, Writes;
    var made := ops + [WeakOfShared(w, from)];
    RunMore(ops, WeakOfShared(w, from));
    WeakPoints(Run(ops), w, from);
    PointersStay(made, from, w, more);
    RunMore(made + more, Lock(h, w));
    LockPoints(Run(made + more), h, w, from);
  }

  lemma WeakPoints(m: Heap, w: nat, from: nat)
    requires Sound(m) && Legal(m, WeakOfShared(w, from))
    ensures var after := Step(m, WeakOfShared(w, from));
      && from in after.shared && after.shared[from] == m.shared[from]
      && w in after.weak && after.weak[w] == m.shared[from]
  {
    StepOnHandles(m, WeakOfShared(w, from));
    hide Step, Sound, KeepsTargets;
  }

  lemma LockPoints(m: Heap, h: nat, w: nat, from: nat)
    requires Sound(m) && Legal(m, Lock(h, w)) && from in m.shared && m.shared[from] == m.weak[w]
    ensures h in Step(m, Lock(h, w)).shared && Step(m, Lock(h, w)).shared[h] == m.shared[from]
  {
    StepOnHandles(m, Lock(h, w));
    hide Step, Sound, KeepsTargets;
  }

  lemma {:induction false} PointersStay(ops: seq<Op>, h: nat, w: nat, more: seq<Op>)
    requires h in Run(ops).shared && w in Run(ops).weak
    requires forall i :: 0 <= i < |more| ==> !Writes(more[i], h, w)
    ensures var m, m' := Run(ops), Run(ops + more);
      h in m'.shared && w in m'.weak && m'.shared[h] == m.shared[h] && m'.weak[w] == m.weak[w]
    decreases |more|
  {
    hide Run, Step, Sound, Writes, Legal;
    if more == [] {
      assert ops + more == ops;
    } else {
      var k := |more| - 1;
      var before := ops + more[..k];
      PointersStay(ops, h, w, more[..k]);
      assert ops + more == before + [more[k]];
      RunMore(before, more[k]);
      if Legal(Run(before), more[k]) { StepOnPointers(Run(before), more[k], h, w); }
    }
  }

  /** Once no handle points anywhere nothing is left: every block is freed, every adopted object deleted. */
  lemma NothingLeaks(ops: seq<Op>)
    requires forall h :: h in Run(ops).shared ==> Run(ops).shared[h] == None
    requires forall w :: w in Run(ops).weak ==> Run(ops).weak[w] == None
    ensures Run(ops).blocks == map[] && forall o :: o in Run(ops).adopted <==> o in Run(ops).deleted
  {
    var m := Run(ops);
    if m.blocks != map[] {
      var a :| a in m.blocks;
      HasHandle(m, a);
    }
  }

  lemma HasHandle(m: Heap, a: nat)
    requires Counted(m) && a in m.blocks
    ensures (exists h :: h in m.shared && m.shared[h] == Some(a)) || (exists w :: w in m.weak && m.weak[w] == Some(a))
  {
    assert BlockSound(m, a);
    if Refs(m.shared, a) > 0 { SomeHolder(m.shared, a); } else { SomeHolder(m.weak, a); }
  }

  // ----- The memory itself ----------------------------------------------------------------------

  /** All handles of a program, and what they point at. */
  class Memory {
    var blocks: map<nat, Block>
    var objects: set<nat>
    var shared: map<nat, Option<nat>>
    var weak: map<nat, Option<nat>>
    var next: nat
    ghost var adopted: set<nat>
    ghost var deleted: seq<nat>
    ghost var freed: seq<nat>

    ghost function View(): Heap
      reads this
    {
      Heap(blocks, objects, shared, weak, adopted, deleted, freed, next)
    }

    ghost predicate Valid()
      reads this
    {
      Sound(View())
    }

    constructor ()
      ensures Valid() && View() == Init()
    {
      blocks, objects, shared, weak, next := map[], {}, map[], map[], 0;
      adopted, deleted, freed := {}, [], [];
    }

    /** An object allocated by the program. */
    method Create(o: nat)
      requires Valid() && Legal(View(), Op.Create(o))
      modifies this
      ensures View() == Step(old(View()), Op.Create(o)) && Valid()
    {
      ghost var goal := Step(View(), Op.Create(o));
      hide Sound;
      objects := objects + {o};
    }

    method NewShared(h: nat, given: Option<nat>)
      requires Valid() && Legal(View(), Op.NewShared(h, given))
      modifies this
      ensures View() == Step(old(View()), Op.NewShared(h, given)) && Valid()
    {
      ghost var goal := Step(View(), Op.NewShared(h, given));
      hide Sound;
      blocks := blocks[next := Block(given, 1, 1)];
      shared := shared[h := Some(next)];
      next := next + 1;
      adopted := adopted + if given.Some? then {given.value} else {};
    }

    method DefaultShared(h: nat)
      requires Valid() && Legal(View(), Op.DefaultShared(h))
      modifies this
      ensures View() == Step(old(View()), Op.DefaultShared(h)) && Valid()
    {
      ghost var goal := Step(View(), Op.DefaultShared(h));
      hide Sound;
      shared := shared[h := None];
    }

    method DefaultWeak(w: nat)
      requires Valid() && Legal(View(), Op.DefaultWeak(w))
      modifies this
      ensures View() == Step(old(View()), Op.DefaultWeak(w)) && Valid()
    {
      ghost var goal := Step(View(), Op.DefaultWeak(w));
      hide Sound;
      weak := weak[w := None];
    }

    method CopyShared(h: nat, from: nat)
      requires Valid() && Legal(View(), Op.CopyShared(h, from))
      modifies this
      ensures View() == Step(old(View()), Op.CopyShared(h, from)) && Valid()
    {
      ghost var goal := Step(View(), Op.CopyShared(h, from));
      CopiedSharedFacts(View(), h, from);
      assert goal == CopiedShared(View(), h, from);
      hide Sound, Step, Legal, CopiedShared, AttachedShared;
      PointShared(h, shared[from]);
    }

    /** `control = ref; if (control) control->shared_count++`. */
    method PointShared(h: nat, ref: Option<nat>)
      requires ref.Some? ==> ref.value in blocks
      modifies this`shared, this`blocks
      ensures View() == AttachedShared(old(View()), h, ref)
    {
      shared := shared[h := ref];
      if ref.Some? {
        blocks := blocks[ref.value := blocks[ref.value].(shared := blocks[ref.value].shared + 1)];
      }
    }

    method PointWeak(w: nat, ref: Option<nat>)
      requires ref.Some? ==> ref.value in blocks
      modifies this`weak, this`blocks
      ensures View() == AttachedWeak(old(View()), w, ref)
    {
      weak := weak[w := ref];
      if ref.Some? {
        blocks := blocks[ref.value := blocks[ref.value].(weak := blocks[ref.value].weak + 1)];
      }
    }

    method MoveShared(h: nat, from: nat)
      requires Valid() && Legal(View(), Op.MoveShared(h, from))
      modifies this
      ensures View() == Step(old(View()), Op.MoveShared(h, from)) && Valid()
    {
      ghost var goal := Step(View(), Op.MoveShared(h, from));
      hide Sound;
      shared := shared[h := shared[from]];
      shared := shared[from := None];
    }

    method AssignShared(h: nat, from: nat)
      requires Valid() && Legal(View(), Op.AssignShared(h, from))
      modifies this
      ensures View() == Step(old(View()), Op.AssignShared(h, from)) && Valid()
    {
      ghost var goal := Step(View(), Op.AssignShared(h, from));
      assert goal == if h == from then View() else CopiedShared(Released(View(), h), h, from);
      hide Sound, Step, Legal, CopiedShared, Released, AttachedShared;
      if h != from {
        ReleaseShared(h);
        CopiedSharedFacts(View(), h, from);
        PointShared(h, shared[from]);
      }
    }

    method MoveAssignShared(h: nat, from: nat)
      requires Valid() && Legal(View(), Op.MoveAssignShared(h, from))
      modifies this
      ensures View() == Step(old(View()), Op.MoveAssignShared(h, from)) && Valid()
    {
      ghost var goal := Step(View(), Op.MoveAssignShared(h, from));
      if h != from {
        ReleaseShared(h);
        hide Sound;
        shared := shared[h := shared[from]];
        shared := shared[from := None];
      }
    }

    method DestroyShared(h: nat)
      requires Valid() && Legal(View(), Op.DestroyShared(h))
      modifies this
      ensures View() == Step(old(View()), Op.DestroyShared(h)) && Valid()
    {
      ghost var goal := Step(View(), Op.DestroyShared(h));
      ReleaseShared(h);
      hide Sound;
      shared := shared - {h};
    }

    method ReleaseShared(h: nat)
      requires Valid() && h in shared
      modifies this
      ensures View() == Released(old(View()), h) && Valid()
    {
      ghost var m := View();
      ReleasedFacts(m, h);
      hide Sound, Released, ReleasedShared, Refs;
      var control := shared[h];
      if control.Some? {
        var a := control.value;
        blocks := blocks[a := blocks[a].(shared := blocks[a].shared - 1)];
        ReplaceTwice(m.blocks, a, blocks[a], Block(None, 0, blocks[a].weak - 1));
        if blocks[a].shared == 0 {
          ReleaseLast(a);
        }
        shared := shared[h := None];
        ReleasedSharedIs(m, h, View());
      } else {
        ReleasedNull(m, h);
      }
    }

    /** Deletes the object, and the control block too if no WeakPtr is left. */
    method ReleaseLast(a: nat)
      requires a in blocks && blocks[a].shared == 0
      modifies this`blocks, this`objects, this`deleted, this`freed
      ensures var b := old(blocks[a]);
        && blocks == (if b.weak == 1 then old(blocks) - {a} else old(blocks)[a := Block(None, 0, b.weak - 1)])
        && freed == (if b.weak == 1 then old(freed) + [a] else old(freed))
        && objects == (if b.target.Some? then old(objects) - {b.target.value} else old(objects))
        && deleted == (if b.target.Some? then old(deleted) + [b.target.value] else old(deleted))
    {
      if blocks[a].target.Some? {
        objects := objects - {blocks[a].target.value};
        deleted := deleted + [blocks[a].target.value];
      }
      blocks := blocks[a := blocks[a].(target := None)];
      blocks := blocks[a := blocks[a].(weak := blocks[a].weak - 1)];
      if blocks[a].weak == 0 {
        blocks := blocks - {a};
        freed := freed + [a];
      }
    }

    method WeakOfShared(w: nat, from: nat)
      requires Valid() && Legal(View(), Op.WeakOfShared(w, from))
      modifies this
      ensures View() == Step(old(View()), Op.WeakOfShared(w, from)) && Valid()
    {
      ghost var goal := Step(View(), Op.WeakOfShared(w, from));
      WeakenedSharedFacts(View(), w, from);
      assert goal == WeakenedShared(View(), w, from);
      hide Sound, Step, Legal, WeakenedShared, AttachedWeak;
      PointWeak(w, shared[from]);
    }

    method CopyWeak(w: nat, from: nat)
      requires Valid() && Legal(View(), Op.CopyWeak(w, from))
      modifies this
      ensures View() == Step(old(View()), Op.CopyWeak(w, from)) && Valid()
    {
      ghost var goal := Step(View(), Op.CopyWeak(w, from));
      CopiedWeakFacts(View(), w, from);
      assert goal == CopiedWeak(View(), w, from);
      hide Sound, Step, Legal, CopiedWeak, AttachedWeak;
      PointWeak(w, weak[from]);
    }

    method AssignWeak(w: nat, from: nat)
      requires Valid() && Legal(View(), Op.AssignWeak(w, from))
      modifies this
      ensures View() == Step(old(View()), Op.AssignWeak(w, from)) && Valid()
    {
      ghost var goal := Step(View(), Op.AssignWeak(w, from));
      assert goal == if w == from then View() else CopiedWeak(WeakReleased(View(), w), w, from);
      hide Sound, Step, Legal, CopiedWeak, WeakReleased, AttachedWeak;
      if w != from {
        ReleaseWeak(w);
        CopiedWeakFacts(View(), w, from);
        PointWeak(w, weak[from]);
      }
    }

    method DestroyWeak(w: nat)
      requires Valid() && Legal(View(), Op.DestroyWeak(w))
      modifies this
      ensures View() == Step(old(View()), Op.DestroyWeak(w)) && Valid()
    {
      ghost var goal := Step(View(), Op.DestroyWeak(w));
      ReleaseWeak(w);
      hide Sound;
      weak := weak - {w};
    }

    method ReleaseWeak(w: nat)
      requires Valid() && w in weak
      modifies this
      ensures View() == WeakReleased(old(View()), w) && Valid()
    {
      ghost var m := View();
      WeakReleasedFacts(m, w);
      hide Sound, WeakReleased, ReleasedWeak;
      var control := weak[w];
      if control.Some? {
        var a := control.value;
        blocks := blocks[a := blocks[a].(weak := blocks[a].weak - 1)];
        ReplaceTwice(m.blocks, a, blocks[a], blocks[a]);
        if blocks[a].shared == 0 && blocks[a].weak == 0 {
          blocks := blocks - {a};
          freed := freed + [a];
        }
        weak := weak[w := None];
      }
      ReleasedWeakIs(m, w, View());
    }

    /** lock: an empty handle if the object has expired, else one made by the private constructor. */
    method Lock(h: nat, w: nat)
      requires Valid() && Legal(View(), Op.Lock(h, w))
      modifies this
      ensures View() == Step(old(View()), Op.Lock(h, w)) && Valid()
    {
      ghost var goal := Step(View(), Op.Lock(h, w));
      LockFacts(View(), h, w);
      hide Sound, Step, AttachedShared, Legal;
      if weak[w] == None || blocks[weak[w].value].shared == 0 {
        NullIs(View(), h);
        shared := shared[h := None];
      } else {
        SharedOfWeak(h, w);
      }
    }

    /** The private constructor of SharedPtr, which tests the count once more. */
    method SharedOfWeak(h: nat, w: nat)
      requires w in weak && (weak[w].Some? ==> weak[w].value in blocks)
      modifies this`shared, this`blocks
      ensures View() == AttachedShared(old(View()), h,
        if weak[w].Some? && old(blocks)[weak[w].value].shared > 0 then weak[w] else None)
    {
      if weak[w].Some? && blocks[weak[w].value].shared > 0 {
        PointShared(h, weak[w]);
      } else {
        PointShared(h, None);
      }
    }

    /** `expired`. */
    method IsExpired(w: nat) returns (expired: bool)
      requires Valid() && w in weak
      ensures expired <==> weak[w] == None || Holders(shared, weak[w].value) == {}
    {
      HandleFacts(View(), w);
      expired := weak[w] == None || blocks[weak[w].value].shared == 0;
    }

    /** `unique`. */
    method Unique(h: nat) returns (unique: bool)
      requires Valid() && h in shared
      ensures unique <==> shared[h].Some? && Holders(shared, shared[h].value) == {h}
    {
      HandleFacts(View(), h);
      unique := shared[h].Some? && blocks[shared[h].value].shared == 1;
      if shared[h].Some? {
        OnlyHolder(shared, h);
      }
    }
  }

  lemma ReleasedFacts(m: Heap, h: nat)
    requires Sound(m) && h in m.shared
    ensures m.shared[h].Some? ==> m.shared[h].value in m.blocks
    ensures Released(m, h) == ReleasedShared(m, h) && Sound(Released(m, h))
  {
  }

  lemma WeakReleasedFacts(m: Heap, w: nat)
    requires Sound(m) && w in m.weak
    ensures m.weak[w].Some? ==> m.weak[w].value in m.blocks
    ensures WeakReleased(m, w) == ReleasedWeak(m, w) && Sound(WeakReleased(m, w))
  {
  }

  lemma ReleasedWeakIs(m: Heap, w: nat, after: Heap)
    requires w in m.weak && (m.weak[w].Some? ==> m.weak[w].value in m.blocks)
    requires if m.weak[w] == None then after == m else
      var a := m.weak[w].value;
      var b := m.blocks[a];
      after == m.(weak := m.weak[w := None], blocks := after.blocks, freed := after.freed) &&
      if b.shared == 0 && b.weak == 1 then after.blocks == m.blocks - {a} && after.freed == m.freed + [a]
      else after.blocks == m.blocks[a := b.(weak := b.weak - 1)] && after.freed == m.freed
    ensures after == ReleasedWeak(m, w)
  {
  }

  lemma CopiedSharedFacts(m: Heap, h: nat, from: nat)
    requires Sound(m) && from in m.shared && (h in m.shared ==> m.shared[h] == None)
    ensures m.shared[from].Some? ==> m.shared[from].value in m.blocks
    ensures CopiedShared(m, h, from) == AttachedShared(m, h, m.shared[from]) && Sound(CopiedShared(m, h, from))
  {
  }

  lemma WeakenedSharedFacts(m: Heap, w: nat, from: nat)
    requires Sound(m) && from in m.shared && w !in m.weak
    ensures m.shared[from].Some? ==> m.shared[from].value in m.blocks
    ensures WeakenedShared(m, w, from) == AttachedWeak(m, w, m.shared[from]) && Sound(WeakenedShared(m, w, from))
  {
  }

  lemma CopiedWeakFacts(m: Heap, w: nat, from: nat)
    requires Sound(m) && from in m.weak && (w in m.weak ==> m.weak[w] == None)
    ensures m.weak[from].Some? ==> m.weak[from].value in m.blocks
    ensures CopiedWeak(m, w, from) == AttachedWeak(m, w, m.weak[from]) && Sound(CopiedWeak(m, w, from))
  {
  }

  lemma NullIs(m: Heap, h: nat)
    ensures AttachedShared(m, h, None) == m.(shared := m.shared[h := None])
  {
  }

  lemma LockFacts(m: Heap, h: nat, w: nat)
    requires Sound(m) && Legal(m, Op.Lock(h, w))
    ensures m.weak[w].Some? ==> m.weak[w].value in m.blocks && m.blocks[m.weak[w].value].shared >= 0
    ensures Step(m, Op.Lock(h, w)) ==
      AttachedShared(m, h, if m.weak[w] == None || m.blocks[m.weak[w].value].shared == 0 then None else m.weak[w])
  {
    HandleFacts(m, w);
  }

  lemma OnlyHolder(handles: map<nat, Option<nat>>, h: nat)
    requires h in handles && handles[h].Some?
    ensures Refs(handles, handles[h].value) == 1 <==> Holders(handles, handles[h].value) == {h}
  {
    var holders := Holders(handles, handles[h].value);
    assert holders == (holders - {h}) + {h};
    assert |holders| == |holders - {h}| + 1;
  }
}
