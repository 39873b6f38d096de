/** `won::ecs::Scene`: the list of live entities, the component store and
    the registered systems. Systems are opaque handles; a null
    `shared_ptr<System>` is `None`. */
module Scene {
  import opened Common
  import opened Entities
  import CM = ComponentManager

  type SystemRef = nat

  datatype Scene<T> = Scene(
    components: CM.Manager<T>,
    entities: seq<Entity>,
    systems: seq<SystemRef>)

  predicate SceneOk<T>(s: Scene<T>) {
    CM.ManagerOk(s.components)
  }

  function EmptyScene<T>(): (s: Scene<T>)
    ensures SceneOk(s) && |s.entities| == 0 && |s.systems| == 0
  {
    Scene(CM.Manager(map[]), [], [])
  }

  /** The scene's entity ids are distinct, valid, and below the generator's
      next id, so any id the generator hands out next is new. */
  predicate FreshIds<T>(s: Scene<T>, g: IdSource) {
    && (forall i :: 0 <= i < |s.entities| ==> InvalidEntity < s.entities[i] < g.next)
    && Distinct(s.entities)
  }

  predicate Distinct(xs: seq<Entity>) {
    forall i, j :: 0 <= i < j < |xs| ==> xs[i] != xs[j]
  }

  /** `CreateEntity`: take the next id and append it. */
  function CreateEntity<T>(s: Scene<T>, g: IdSource): (r: (Entity, Scene<T>, IdSource))
    requires g.next < U64
    ensures (r.0, r.2) == Entities.CreateEntity(g)
    ensures r.1.entities == s.entities + [r.0]
    ensures r.1.components == s.components && r.1.systems == s.systems
  {
    var (e, g') := Entities.CreateEntity(g);
    (e, s.(entities := s.entities + [e]), g')
  }

  /** Until the generator wraps, creating an entity keeps the ids fresh. */
  lemma CreateKeepsFresh<T>(s: Scene<T>, g: IdSource)
    requires InvalidEntity < g.next && g.next + 1 < U64 && FreshIds(s, g)
    ensures var (_, s', g') := CreateEntity(s, g); FreshIds(s', g')
  {
    var (e, s', g') := CreateEntity(s, g);
    assert g'.next == g.next + 1;
    forall i, j | 0 <= i < j < |s'.entities|
      ensures s'.entities[i] != s'.entities[j]
    {
      if j == |s.entities| {
        assert s'.entities[i] == s.entities[i] < g.next == e;
      }
    }
  }

  /** `entities.erase(remove_if(...))`: drop every occurrence of `e`,
      keeping the others in order. */
  function Without(xs: seq<Entity>, e: Entity): (r: seq<Entity>)
    ensures e !in r
    ensures multiset(r) == multiset(xs)[e := 0]
  {
    if |xs| == 0 then []
    else
      var rest := Without(xs[1..], e);
      assert xs == [xs[0]] + xs[1..];
      if xs[0] == e then rest else [xs[0]] + rest
  }

  /** Removal works piecewise, which is what keeping the order means: the
      survivors of a concatenation are the survivors of each part, in
      sequence. */
  lemma {:induction false} WithoutAppend(xs: seq<Entity>, ys: seq<Entity>, e: Entity)
    ensures Without(xs + ys, e) == Without(xs, e) + Without(ys, e)
    decreases |xs|
  {
    if |xs| > 0 {
      assert (xs + ys)[1..] == xs[1..] + ys;
      WithoutAppend(xs[1..], ys, e);
    } else {
      assert xs + ys == ys;
    }
  }

  /** An entity not in the list leaves it as it is. */
  lemma {:induction false} WithoutAbsent(xs: seq<Entity>, e: Entity)
    requires e !in xs
    ensures Without(xs, e) == xs
    decreases |xs|
  {
    if |xs| > 0 {
      assert xs[0] != e;
      assert e !in xs[1..];
      WithoutAbsent(xs[1..], e);
      assert xs == [xs[0]] + xs[1..];
    }
  }

  /** An id is in the list after removal exactly when it was in it before
      and is not the removed one. */
  lemma {:induction false} WithoutMembership(xs: seq<Entity>, e: Entity)
    ensures forall x :: x in Without(xs, e) <==> x in xs && x != e
  {
    forall x
      ensures x in Without(xs, e) <==> x in xs && x != e
    {
      var r := Without(xs, e);
      assert x in r <==> multiset(r)[x] > 0;
      assert x in xs <==> multiset(xs)[x] > 0;
    }
  }

  /** `DestroyEntity`: strip every component of the entity, then drop it
      from the entity list. */
  function DestroyEntity<T>(s: Scene<T>, e: Entity): (r: Scene<T>)
    requires SceneOk(s)
    ensures SceneOk(r) && r.systems == s.systems
    ensures r.entities == Without(s.entities, e)
    ensures forall t :: !CM.HasComponent(r.components, t, e)
    ensures forall t, x :: x != e ==>
      CM.GetComponent(r.components, t, x) == CM.GetComponent(s.components, t, x)
  {
    var m := CM.EntityDestroyed(s.components, e);
    forall t, x | x != e
      ensures CM.GetComponent(m, t, x) == CM.GetComponent(s.components, t, x)
      ensures !CM.HasComponent(m, t, e)
    {
      CM.DestroyedHasNothing(s.components, e, t, x);
    }
    s.(components := m, entities := Without(s.entities, e))
  }

  /** Destroying an entity keeps the remaining ids fresh. */
  lemma DestroyKeepsFresh<T>(s: Scene<T>, g: IdSource, e: Entity)
    requires SceneOk(s) && FreshIds(s, g)
    ensures FreshIds(DestroyEntity(s, e), g)
  {
    var r := DestroyEntity(s, e).entities;
    WithoutPreservesDistinct(s.entities, e);
    WithoutMembership(s.entities, e);
    forall i | 0 <= i < |r|
      ensures InvalidEntity < r[i] < g.next
    {
      assert r[i] in s.entities;
    }
  }

  lemma {:induction false} WithoutPreservesDistinct(xs: seq<Entity>, e: Entity)
    requires Distinct(xs)
    ensures Distinct(Without(xs, e))
    decreases |xs|
  {
    if |xs| > 0 {
      var rest := Without(xs[1..], e);
      assert Distinct(xs[1..]) by {
        forall i, j | 0 <= i < j < |xs| - 1
          ensures xs[1..][i] != xs[1..][j]
        {
          assert xs[1..][i] == xs[i + 1] && xs[1..][j] == xs[j + 1];
        }
      }
      WithoutPreservesDistinct(xs[1..], e);
      assert xs == [xs[0]] + xs[1..];
      if xs[0] != e {
        assert Without(xs, e) == [xs[0]] + rest;
        forall k | 0 <= k < |xs| - 1
          ensures xs[1..][k] != xs[0]
        {
          assert xs[1..][k] == xs[k + 1];
        }
        assert multiset(xs[1..])[xs[0]] == 0;
        assert multiset(rest)[xs[0]] == 0;
        var r := [xs[0]] + rest;
        forall i, j | 0 <= i < j < |r|
          ensures r[i] != r[j]
        {
          if i == 0 {
            assert r[j] == rest[j - 1] && r[j] in multiset(rest);
          } else {
            assert r[i] == rest[i - 1] && r[j] == rest[j - 1];
          }
        }
      } else {
        assert Without(xs, e) == rest;
      }
    }
  }

  /** `AddComponent`: build the value and hand it to the component store. */
  function AddComponent<T>(s: Scene<T>, t: CM.TypeName, e: Entity, c: T): (r: (T, Scene<T>))
    requires SceneOk(s)
    ensures SceneOk(r.1) && r.0 == c
    ensures r.1.entities == s.entities && r.1.systems == s.systems
    ensures CM.GetComponent(r.1.components, t, e) == Some(c)
  {
    CM.AddThenGet(s.components, t, e, c);
    var (stored, m) := CM.AddComponent(s.components, t, e, c);
    (stored, s.(components := m))
  }

  /** `GetComponent`: null unless the entity has a value of that type. */
  function GetComponent<T>(s: Scene<T>, t: CM.TypeName, e: Entity): (r: Option<T>)
    requires SceneOk(s)
    ensures r == None <==> e !in CM.ContentsOf(s.components, t)
    ensures r != None ==> r.value == CM.ContentsOf(s.components, t)[e]
  {
    CM.GetComponent(s.components, t, e)
  }

  function HasComponent<T>(s: Scene<T>, t: CM.TypeName, e: Entity): (r: bool)
    requires SceneOk(s)
    ensures r <==> GetComponent(s, t, e) != None
  {
    CM.HasComponent(s.components, t, e)
  }

  /** `AddSystem`: a null system is ignored; any other one is appended. */
  function AddSystem<T>(s: Scene<T>, sys: Option<SystemRef>): (r: Scene<T>)
    ensures sys == None ==> r == s
    ensures sys != None ==>
      |r.systems| == |s.systems| + 1 && r.systems[..|s.systems|] == s.systems && r.systems[|s.systems|] == sys.value
    ensures r.components == s.components && r.entities == s.entities
  {
    if sys == None then s else s.(systems := s.systems + [sys.value])
  }
}
