/** The process-wide entity id source of `won::ecs`: an atomic `uint64`
    counter that starts one past `INVALID_ENTITY` and hands out its value
    before incrementing. The atomic is modelled as an explicit state. */
module Entities {
  import opened Common

  /** `Entity` is a `uint64`. */
  type Entity = nat

  const InvalidEntity: Entity := 0

  /** The counter behind `CreateEntity`: the next id it will return. */
  datatype IdSource = IdSource(next: nat)

  /** The counter as the program starts. */
  const FirstSource: IdSource := IdSource(InvalidEntity + 1)

  /** `CreateEntity`: `fetch_add(1)` returns the current value and moves
      the counter on by one, wrapping at 2^64. */
  function CreateEntity(g: IdSource): (r: (Entity, IdSource))
    requires g.next < U64
    ensures r.0 == g.next && r.1.next < U64
    ensures r.1.next % U64 == (g.next + 1) % U64
    // only the wrap brings the counter back to the invalid id
    ensures r.1.next == InvalidEntity <==> g.next == U64 - 1
  {
    (g.next, IdSource((g.next + 1) % U64))
  }

  /** The ids of `n` successive calls, in call order. */
  function CreateMany(g: IdSource, n: nat): (r: (seq<Entity>, IdSource))
    requires g.next < U64
    ensures |r.0| == n && r.1.next < U64
    decreases n
  {
    if n == 0 then ([], g)
    else
      var (e, g1) := CreateEntity(g);
      var (rest, g2) := CreateMany(g1, n - 1);
      ([e] + rest, g2)
  }

  /** Before the counter wraps, `n` calls return the `n` consecutive ids
      from the current value on, each one more than the last. */
  lemma {:induction false} CreateManyConsecutive(g: IdSource, n: nat)
    requires g.next + n < U64
    ensures CreateMany(g, n).0 == Range(g.next, g.next + n)
    ensures CreateMany(g, n).1.next == g.next + n
    decreases n
  {
    if n > 0 {
      var g1 := CreateEntity(g).1;
      assert g1.next == g.next + 1;
      CreateManyConsecutive(g1, n - 1);
      assert Range(g.next, g.next + n) == [g.next] + Range(g.next + 1, g.next + n);
    }
  }

  /** From program start, fewer than 2^64 - 1 calls never return the
      invalid id, and return pairwise distinct ids; the first is 1. */
  lemma FreshIdsFromStart(n: nat)
    requires n < U64 - 1
    ensures var ids := CreateMany(FirstSource, n).0;
      && InvalidEntity !in ids
      && (forall i, j :: 0 <= i < j < n ==> ids[i] < ids[j])
      && (n > 0 ==> ids[0] == InvalidEntity + 1)
  {
    CreateManyConsecutive(FirstSource, n);
  }
}
