/** The component store of `won::ecs`: a dense array per component type
    with swap-remove and two index maps, and a manager that keys those
    arrays by type name. Component values of every type are drawn from one
    type parameter `T`; `typeid(T).name()` becomes an explicit name. */
module ComponentManager {
  import opened Common
  import opened Entities

  /** `ComponentArray<T>`: the packed values, where each entity's value
      sits, and which entity owns each position. */
  datatype ComponentArray<T> = ComponentArray(
    data: seq<T>,
    entityToIndex: map<Entity, nat>,
    indexToEntity: map<nat, Entity>)

  function EmptyArray<T>(): (a: ComponentArray<T>)
    ensures Valid(a) && |a.data| == 0
  {
    ComponentArray([], map[], map[])
  }

  /** The two maps are mutually inverse and the positions they mention are
      exactly `[0, size)`; one entity per position. */
  predicate Valid<T>(a: ComponentArray<T>) {
    && (forall i :: i in a.indexToEntity ==> i < |a.data|)
    && (forall i :: 0 <= i < |a.data| ==> i in a.indexToEntity)
    && (forall e :: e in a.entityToIndex ==>
          a.entityToIndex[e] in a.indexToEntity && a.indexToEntity[a.entityToIndex[e]] == e)
    && (forall i :: i in a.indexToEntity ==>
          a.indexToEntity[i] in a.entityToIndex && a.entityToIndex[a.indexToEntity[i]] == i)
  }

  /** What the array stores, entity by entity: the reference view the
      operations are stated against. */
  function Contents<T>(a: ComponentArray<T>): (m: map<Entity, T>)
    requires Valid(a)
    ensures m.Keys == a.entityToIndex.Keys
  {
    map e | e in a.entityToIndex :: a.data[a.entityToIndex[e]]
  }

  /** `HasData`. */
  predicate HasData<T>(a: ComponentArray<T>, e: Entity) {
    e in a.entityToIndex
  }

  /** `GetData`: the entity's value. Reading an absent entity inserts a
      zero index and reads position 0 in C++; callers check `HasData`
      first, and so does this model. */
  function GetData<T>(a: ComponentArray<T>, e: Entity): (r: T)
    requires Valid(a) && HasData(a, e)
    ensures e in Contents(a) && Contents(a)[e] == r
  {
    a.data[a.entityToIndex[e]]
  }

  /** `Insert`: point both maps at the next position and append. It does
      not check for an existing entry; see `InsertPresentBreaksMaps`. */
  function Insert<T>(a: ComponentArray<T>, e: Entity, c: T): (r: ComponentArray<T>)
    ensures |r.data| == |a.data| + 1 && r.data[|a.data|] == c
    ensures Valid(a) && !HasData(a, e) ==>
      Valid(r) && Contents(r) == Contents(a)[e := c]
  {
    var n := |a.data|;
    var r := ComponentArray(a.data + [c], a.entityToIndex[e := n], a.indexToEntity[n := e]);
    if Valid(a) && !HasData(a, e) then
      InsertKeeps(a, e, c);
      r
    else r
  }

  lemma InsertKeeps<T>(a: ComponentArray<T>, e: Entity, c: T)
    requires Valid(a) && !HasData(a, e)
    ensures var n := |a.data|;
      var r := ComponentArray(a.data + [c], a.entityToIndex[e := n], a.indexToEntity[n := e]);
      Valid(r) && Contents(r) == Contents(a)[e := c]
  {
    var n := |a.data|;
    var r := ComponentArray(a.data + [c], a.entityToIndex[e := n], a.indexToEntity[n := e]);
    assert n !in a.indexToEntity;
    forall x | x in a.entityToIndex
      ensures a.entityToIndex[x] < n && r.data[a.entityToIndex[x]] == a.data[a.entityToIndex[x]]
    {
    }
  }

  /** Inserting an entity that is already present leaves its old position
      pointing at it while the entity points at the new one. */
  lemma InsertPresentBreaksMaps<T>(a: ComponentArray<T>, e: Entity, c: T)
    requires Valid(a) && HasData(a, e)
    ensures !Valid(Insert(a, e, c))
  {
    var r := Insert(a, e, c);
    var old_ := a.entityToIndex[e];
    assert old_ < |a.data|;
    assert old_ in r.indexToEntity && r.indexToEntity[old_] == e;
    assert r.entityToIndex[e] == |a.data| != old_;
  }

  /** `Remove`: an absent entity is ignored; otherwise the entity's slot is
      filled from the back. */
  function Remove<T>(a: ComponentArray<T>, e: Entity): (r: ComponentArray<T>)
    requires Valid(a)
    ensures !HasData(a, e) ==> r == a
    ensures HasData(a, e) ==>
      && Valid(r) && |r.data| == |a.data| - 1
      && Contents(r) == Contents(a) - {e}
  {
    if !HasData(a, e) then a
    else
      SwapRemoveValid(a, e);
      SwapRemoveContents(a, e);
      SwapRemove(a, e)
  }

  /** The removal proper: the last value moves into the hole, the last
      entity is re-pointed at it, and the tail position and the entity's
      entry are dropped. */
  function SwapRemove<T>(a: ComponentArray<T>, e: Entity): (r: ComponentArray<T>)
    requires Valid(a) && HasData(a, e)
  {
    var idx := a.entityToIndex[e];
    var last := |a.data| - 1;
    var lastEntity := a.indexToEntity[last];
    ComponentArray(
      a.data[idx := a.data[last]][..last],
      a.entityToIndex[lastEntity := idx] - {e},
      a.indexToEntity[idx := lastEntity] - {last})
  }

  lemma SwapRemoveValid<T>(a: ComponentArray<T>, e: Entity)
    requires Valid(a) && HasData(a, e)
    ensures Valid(SwapRemove(a, e)) && |SwapRemove(a, e).data| == |a.data| - 1
  {
    var idx := a.entityToIndex[e];
    var last := |a.data| - 1;
    var lastEntity := a.indexToEntity[last];
    var r := SwapRemove(a, e);
    assert r.entityToIndex == a.entityToIndex[lastEntity := idx] - {e};
    assert r.indexToEntity == a.indexToEntity[idx := lastEntity] - {last};
    forall x | x in r.entityToIndex
      ensures r.entityToIndex[x] in r.indexToEntity && r.indexToEntity[r.entityToIndex[x]] == x
    {
      if x != lastEntity {
        var j := a.entityToIndex[x];
        assert a.indexToEntity[j] == x;
      }
    }
    forall i | i in r.indexToEntity
      ensures r.indexToEntity[i] in r.entityToIndex && r.entityToIndex[r.indexToEntity[i]] == i
    {
      if i != idx {
        var x := a.indexToEntity[i];
        assert a.entityToIndex[x] == i;
      }
    }
  }

  lemma SwapRemoveContents<T>(a: ComponentArray<T>, e: Entity)
    requires Valid(a) && HasData(a, e)
    ensures Valid(SwapRemove(a, e)) && Contents(SwapRemove(a, e)) == Contents(a) - {e}
  {
    SwapRemoveValid(a, e);
    var idx := a.entityToIndex[e];
    var last := |a.data| - 1;
    var lastEntity := a.indexToEntity[last];
    var r := SwapRemove(a, e);
    forall x | x in r.entityToIndex
      ensures r.data[r.entityToIndex[x]] == a.data[a.entityToIndex[x]]
    {
      if x != lastEntity {
        var j := a.entityToIndex[x];
        assert a.indexToEntity[j] == x;
        assert j != idx && j != last;
      }
    }
  }

  /** `EntityDestroyed` on one array: remove the entity if it is there. */
  function ArrayEntityDestroyed<T>(a: ComponentArray<T>, e: Entity): (r: ComponentArray<T>)
    requires Valid(a)
    ensures Valid(r) && Contents(r) == Contents(a) - {e}
  {
    if HasData(a, e) then Remove(a, e)
    else
      assert Contents(a) - {e} == Contents(a);
      a
  }

  // ---------------------------------------------------------------------
  // The manager

  /** `typeid(T).name()`. */
  type TypeName = string

  /** The type-keyed table of arrays. A null array is never stored: every
      path that inserts into the table inserts a fresh array. */
  datatype Manager<T> = Manager(arrays: map<TypeName, ComponentArray<T>>)

  predicate ManagerOk<T>(m: Manager<T>) {
    forall t :: t in m.arrays ==> Valid(m.arrays[t])
  }

  /** `RegisterComponent<T>`: an existing array is kept; otherwise a fresh
      empty one is installed. */
  function RegisterComponent<T>(m: Manager<T>, t: TypeName): (r: Manager<T>)
    requires ManagerOk(m)
    ensures ManagerOk(r) && t in r.arrays
    ensures t in m.arrays ==> r == m
    ensures t !in m.arrays ==> r.arrays == m.arrays[t := EmptyArray()]
  {
    if t in m.arrays then m else Manager(m.arrays[t := EmptyArray()])
  }

  /** The entries of type `t`, as a map; nothing for an unregistered type. */
  function ContentsOf<T>(m: Manager<T>, t: TypeName): (c: map<Entity, T>)
    requires ManagerOk(m)
  {
    if t in m.arrays then Contents(m.arrays[t]) else map[]
  }

  /** `AddComponent<T>`: register on first use, then overwrite in place or
      append; the result is the stored value. */
  function AddComponent<T>(m: Manager<T>, t: TypeName, e: Entity, c: T): (r: (T, Manager<T>))
    requires ManagerOk(m)
    ensures ManagerOk(r.1) && r.0 == c
    ensures ContentsOf(r.1, t) == ContentsOf(m, t)[e := c]
    ensures r.1.arrays.Keys == m.arrays.Keys + {t}
    ensures forall u :: u in m.arrays && u != t ==> r.1.arrays[u] == m.arrays[u]
  {
    var m1 := RegisterComponent(m, t);
    var a' := Put(m1.arrays[t], e, c);
    (GetData(a', e), Manager(m1.arrays[t := a']))
  }

  /** An overwrite keeps the array's size; a new entity grows it by one. */
  lemma AddComponentSize<T>(m: Manager<T>, t: TypeName, e: Entity, c: T)
    requires ManagerOk(m)
    ensures var n := if t in m.arrays then |m.arrays[t].data| else 0;
      |AddComponent(m, t, e, c).1.arrays[t].data| == if HasComponent(m, t, e) then n else n + 1
  {
    var m1 := RegisterComponent(m, t);
    assert AddComponent(m, t, e, c).1.arrays[t] == Put(m1.arrays[t], e, c);
  }

  /** The array update inside `AddComponent`: overwrite in place when the
      entity is present, append otherwise. */
  function Put<T>(a: ComponentArray<T>, e: Entity, c: T): (r: ComponentArray<T>)
    requires Valid(a)
    ensures Valid(r) && Contents(r) == Contents(a)[e := c]
    ensures |r.data| == if HasData(a, e) then |a.data| else |a.data| + 1
  {
    if HasData(a, e) then Overwrite(a, e, c) else Insert(a, e, c)
  }

  /** `GetData(entity) = component`: replace the value at the entity's
      position. */
  function Overwrite<T>(a: ComponentArray<T>, e: Entity, c: T): (r: ComponentArray<T>)
    requires Valid(a) && HasData(a, e)
    ensures Valid(r) && |r.data| == |a.data| && Contents(r) == Contents(a)[e := c]
  {
    var i := a.entityToIndex[e];
    var r := a.(data := a.data[i := c]);
    forall x | x in a.entityToIndex && x != e
      ensures a.entityToIndex[x] != i
    {
      assert a.indexToEntity[a.entityToIndex[x]] == x;
    }
    r
  }

  /** `RemoveComponent<T>`: nothing for an unregistered type. */
  function RemoveComponent<T>(m: Manager<T>, t: TypeName, e: Entity): (r: Manager<T>)
    requires ManagerOk(m)
    ensures ManagerOk(r) && r.arrays.Keys == m.arrays.Keys
    ensures ContentsOf(r, t) == ContentsOf(m, t) - {e}
    ensures forall u :: u in m.arrays && u != t ==> r.arrays[u] == m.arrays[u]
  {
    if t !in m.arrays then
      assert ContentsOf(m, t) - {e} == ContentsOf(m, t);
      m
    else Manager(m.arrays[t := Remove(m.arrays[t], e)])
  }

  /** `GetComponent<T>`: null unless the type is registered and the entity
      has a value of it. */
  function GetComponent<T>(m: Manager<T>, t: TypeName, e: Entity): (r: Option<T>)
    requires ManagerOk(m)
    ensures r == None <==> e !in ContentsOf(m, t)
    ensures r != None ==> r.value == ContentsOf(m, t)[e]
  {
    if t !in m.arrays || !HasData(m.arrays[t], e) then None
    else Some(GetData(m.arrays[t], e))
  }

  /** `HasComponent<T>`. */
  function HasComponent<T>(m: Manager<T>, t: TypeName, e: Entity): (r: bool)
    requires ManagerOk(m)
    ensures r <==> e in ContentsOf(m, t)
  {
    t in m.arrays && HasData(m.arrays[t], e)
  }

  /** `EntityDestroyed`: every registered array drops the entity. */
  function EntityDestroyed<T>(m: Manager<T>, e: Entity): (r: Manager<T>)
    requires ManagerOk(m)
    ensures ManagerOk(r) && r.arrays.Keys == m.arrays.Keys
    ensures forall t :: ContentsOf(r, t) == ContentsOf(m, t) - {e}
  {
    var r := Manager(map t | t in m.arrays :: ArrayEntityDestroyed(m.arrays[t], e));
    assert forall t :: t !in m.arrays ==> ContentsOf(m, t) - {e} == map[];
    r
  }

  /** A value just added is the one read back, and has-component agrees. */
  lemma AddThenGet<T>(m: Manager<T>, t: TypeName, e: Entity, c: T)
    requires ManagerOk(m)
    ensures var m' := AddComponent(m, t, e, c).1;
      GetComponent(m', t, e) == Some(c) && HasComponent(m', t, e)
  {
  }

  /** Adding to one entity leaves every other entity's values of every type
      as they were. */
  lemma AddLeavesOthers<T>(m: Manager<T>, t: TypeName, e: Entity, c: T, u: TypeName, x: Entity)
    requires ManagerOk(m) && (u != t || x != e)
    ensures GetComponent(AddComponent(m, t, e, c).1, u, x) == GetComponent(m, u, x)
  {
    var m' := AddComponent(m, t, e, c).1;
    if u == t {
      var before := ContentsOf(m, t);
      assert ContentsOf(m', t) == before[e := c];
      assert x in before[e := c] <==> x in before;
    } else if u in m.arrays {
      assert m'.arrays[u] == m.arrays[u];
    } else {
      assert u !in m'.arrays;
    }
  }

  /** A destroyed entity has no component of any type, and every other
      entity keeps every value it had. */
  lemma DestroyedHasNothing<T>(m: Manager<T>, e: Entity, t: TypeName, x: Entity)
    requires ManagerOk(m)
    ensures !HasComponent(EntityDestroyed(m, e), t, e)
    ensures x != e ==> GetComponent(EntityDestroyed(m, e), t, x) == GetComponent(m, t, x)
  {
    var m' := EntityDestroyed(m, e);
    assert ContentsOf(m', t) == ContentsOf(m, t) - {e};
  }
}
