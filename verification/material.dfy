/** `won::ecs::MaterialComponent`: a list of material slots with a fallback
    to the first slot. The float fields are held as reals; the component
    only stores them. */
module Material {
  import opened Common

  datatype Color = Color(r: real, g: real, b: real, a: real)

  datatype MaterialSlot = MaterialSlot(baseColor: Color, metallic: real, roughness: real, doubleSided: bool)

  /** A default slot: opaque white, not metallic, fully rough, one-sided. */
  const DefaultSlot: MaterialSlot := MaterialSlot(Color(1.0, 1.0, 1.0, 1.0), 0.0, 1.0, false)

  datatype MaterialComponent = MaterialComponent(slots: seq<MaterialSlot>)

  /** A default component holds exactly one default slot. */
  const DefaultComponent: MaterialComponent := MaterialComponent([DefaultSlot])

  /** `GetMaterial(slot_index)`: the slot at the index, or the first slot
      when the index is past the end. The fallback reads slot 0, so the
      list must not be empty; the index is a `uint32`. */
  function GetMaterial(c: MaterialComponent, index: nat): (r: MaterialSlot)
    requires |c.slots| > 0 && index < U32
    ensures r in c.slots
    ensures index < |c.slots| ==> r == c.slots[index]
    ensures index >= |c.slots| ==> r == c.slots[0]
  {
    if index >= |c.slots| then c.slots[0] else c.slots[index]
  }

  /** The default component answers every index with the default slot, whose
      metallic is 0, roughness 1 and which is not double-sided. */
  lemma DefaultMaterial(index: nat)
    requires index < U32
    ensures |DefaultComponent.slots| == 1
    ensures var s := GetMaterial(DefaultComponent, index);
      s == DefaultSlot && s.metallic == 0.0 && s.roughness == 1.0 && !s.doubleSided
  {
  }

  /** The fallback makes the lookup agree with a bounds-checked one: it
      equals the list's own element when there is one, and the first slot
      otherwise, so each index past the end reads the same slot. */
  lemma FallbackIsFirst(c: MaterialComponent, i: nat, j: nat)
    requires |c.slots| > 0 && i < U32 && j < U32
    requires i >= |c.slots| && j >= |c.slots|
    ensures GetMaterial(c, i) == GetMaterial(c, j) == GetMaterial(c, 0)
  {
  }
}
