/** `won::profiler`: named ranges keyed by a hash of the name, opened and
    closed each frame. Timers and the averaged times are left out; a range
    is its in-use flag and its name (the name's bytes). Range ids are
    `Size` values: naturals below 2^64, whose hash arithmetic is done in
    `bv64`, which wraps at 2^64 as `Size` does. */
module Profiler {
  import opened Common
  import StringUtils

  type RangeId = x: nat | x < U64

  datatype Range = Range(inUse: bool, name: seq<Byte>)

  datatype Profiler = Profiler(
    enabled: bool,
    request: bool,
    cpuFrame: RangeId,
    ranges: map<RangeId, Range>)

  /** The statics at start-up: disabled, nothing requested, no ranges. */
  const Initial: Profiler := Profiler(false, false, 0, map[])

  /** `utils::Hash`: 64-bit FNV-1a of the name. */
  function HashName(name: seq<Byte>): RangeId {
    StringUtils.FnvFold(StringUtils.FnvOffsetBasis, name) as nat
  }

  /** The name of the range every enabled frame opens. */
  const CpuFrameName: seq<Byte> := [0x43, 0x50, 0x55, 0x20, 0x46, 0x72, 0x61, 0x6d, 0x65]

  lemma CpuFrameNameSpellsIt()
    ensures IsByteString("CPU Frame") && CpuFrameName == Bytes("CPU Frame")
  {
  }

  /** `ranges[id].in_use`; `operator[]` default-constructs a missing range,
      which is not in use. */
  predicate InUse(ranges: map<RangeId, Range>, id: RangeId) {
    id in ranges && ranges[id].inUse
  }

  const Golden: bv64 := 0x9e3779b97f4a7c15

  /** `CombineHash`, every sum taken modulo 2^64. */
  function CombineHash(base: RangeId, value: bv64): RangeId {
    ToId(Mix(base as bv64, value))
  }

  function Mix(b: bv64, value: bv64): bv64 {
    b ^ (value + Golden + (b << 6) + (b >> 2))
  }

  function ToId(x: bv64): RangeId {
    x as nat
  }

  /** The probe loop of `BeginRangeCPU`: from `id`, step with `CombineHash`
      and a growing differentiator until an id is free. The loop has no
      bound of its own, so the model gives up (`None`) after `fuel` steps. */
  function Probe(ranges: map<RangeId, Range>, id: RangeId, differentiator: bv64, fuel: nat): (r: Option<RangeId>)
    ensures r != None ==> !InUse(ranges, r.value)
    ensures !InUse(ranges, id) ==> r == Some(id)
    decreases fuel
  {
    if !InUse(ranges, id) then Some(id)
    else if fuel == 0 then None
    else Probe(ranges, CombineHash(id, differentiator), differentiator + 1, fuel - 1)
  }

  /** `BeginRangeCPU(name)`: 0 while disabled; otherwise the first free id
      of the probe from the name's hash, which is marked in use under that
      name. `None` means the probe did not finish within `fuel` steps. */
  function BeginRange(p: Profiler, name: seq<Byte>, fuel: nat): (r: (Option<RangeId>, Profiler))
    ensures !p.enabled ==> r == (Some(0), p)
    ensures r.0 == None ==> r.1 == p
    ensures r.1.enabled == p.enabled && r.1.request == p.request && r.1.cpuFrame == p.cpuFrame
    ensures p.enabled && r.0 != None ==>
      var id := r.0.value;
      && !InUse(p.ranges, id)
      && InUse(r.1.ranges, id) && r.1.ranges[id].name == name
      && r.1.ranges.Keys == p.ranges.Keys + {id}
      && forall k :: k in p.ranges && k != id ==> r.1.ranges[k] == p.ranges[k]
    // the name's own hash is used whenever it is free
    ensures p.enabled && !InUse(p.ranges, HashName(name)) ==> r.0 == Some(HashName(name))
  {
    if !p.enabled then (Some(0), p)
    else
      match Probe(p.ranges, HashName(name), 0, fuel)
      case None => (None, p)
      case Some(id) => (Some(id), p.(ranges := p.ranges[id := Range(true, name)]))
  }

  /** Two ranges opened one after the other, and both still open, never
      share an id, even under the same name. */
  lemma OpenRangesAreDistinct(p: Profiler, a: seq<Byte>, b: seq<Byte>, fuel: nat)
    requires p.enabled
    requires BeginRange(p, a, fuel).0 != None
    requires BeginRange(BeginRange(p, a, fuel).1, b, fuel).0 != None
    ensures var (id1, p1) := BeginRange(p, a, fuel);
      var (id2, p2) := BeginRange(p1, b, fuel);
      id1.value != id2.value && InUse(p2.ranges, id1.value) && InUse(p2.ranges, id2.value)
  {
  }

  /** `EndRange(id)`: while enabled, a range in the map has its time
      recorded (the time itself is outside the model); otherwise, and for
      an unknown id, nothing happens. The answer is whether a time was
      recorded. */
  function EndRange(p: Profiler, id: RangeId): (r: (bool, Profiler))
    ensures r.1 == p
    ensures r.0 <==> p.enabled && id in p.ranges
  {
    if !p.enabled then (false, p)
    else if id !in p.ranges then (false, p)
    else (true, p)
  }

  /** `EndFrame`: close the frame range, if enabled. */
  function EndFrame(p: Profiler): (r: (bool, Profiler))
    ensures r.1 == p
    ensures r.0 <==> p.enabled && p.cpuFrame in p.ranges
  {
    if !p.enabled then (false, p) else EndRange(p, p.cpuFrame)
  }

  /** Every range closed, keeping its name. */
  function CloseAll(ranges: map<RangeId, Range>): (r: map<RangeId, Range>)
    ensures r.Keys == ranges.Keys
    ensures forall id :: id in r ==> !r[id].inUse && r[id].name == ranges[id].name
  {
    map id | id in ranges :: ranges[id].(inUse := false)
  }

  /** `BeginFrame`: apply a pending enable or disable, dropping every range
      when the state flips; while enabled, close every range and open the
      frame range, which then lands on its name's own hash since nothing
      else is in use. The frame range's name is a parameter here;
      `BeginFrame` passes "CPU Frame". */
  function BeginFrameNamed(p: Profiler, frameName: seq<Byte>): (r: Profiler)
    ensures r.enabled == p.request && r.request == p.request
    ensures !r.enabled ==> r.ranges == (if p.request != p.enabled then map[] else p.ranges)
    ensures r.enabled ==>
      && r.cpuFrame == HashName(frameName)
      && InUse(r.ranges, r.cpuFrame) && r.ranges[r.cpuFrame].name == frameName
      && (forall id :: id != r.cpuFrame ==> !InUse(r.ranges, id))
      && r.ranges.Keys == (if p.request != p.enabled then {} else p.ranges.Keys) + {r.cpuFrame}
  {
    var p1 := if p.request != p.enabled then p.(ranges := map[], enabled := p.request) else p;
    if !p1.enabled then p1
    else
      var p2 := p1.(ranges := CloseAll(p1.ranges));
      FrameRangeOpens(p2, frameName);
      var (id, p3) := BeginRange(p2, frameName, 0);
      p3.(cpuFrame := id.value)
  }

  /** With every range closed, the frame range opens on its own hash. */
  lemma FrameRangeOpens(p: Profiler, frameName: seq<Byte>)
    requires p.enabled && forall id :: !InUse(p.ranges, id)
    ensures var h := HashName(frameName);
      BeginRange(p, frameName, 0) == (Some(h), p.(ranges := p.ranges[h := Range(true, frameName)]))
  {
    var h := HashName(frameName);
    assert !InUse(p.ranges, h);
    assert Probe(p.ranges, h, 0, 0) == Some(h);
  }

  function BeginFrame(p: Profiler): (r: Profiler)
    ensures r.enabled == p.request
    ensures r.enabled ==> InUse(r.ranges, r.cpuFrame) && r.ranges[r.cpuFrame].name == CpuFrameName
  {
    BeginFrameNamed(p, CpuFrameName)
  }

  /** `SetEnabled`: only a request; nothing else changes until the next
      frame. */
  function SetEnabled(p: Profiler, value: bool): (r: Profiler)
    ensures r.request == value && IsEnabled(r) == IsEnabled(p) && r.ranges == p.ranges
  {
    p.(request := value)
  }

  function IsEnabled(p: Profiler): bool {
    p.enabled
  }

  /** Enabling takes effect at the next frame, which starts from an empty
      set of ranges plus the frame range. */
  lemma EnableAtNextFrame(p: Profiler, frameName: seq<Byte>)
    requires !p.enabled
    ensures !IsEnabled(SetEnabled(p, true))
    ensures var r := BeginFrameNamed(SetEnabled(p, true), frameName);
      IsEnabled(r) && r.ranges == map[HashName(frameName) := Range(true, frameName)]
  {
    var r := BeginFrameNamed(SetEnabled(p, true), frameName);
    assert r.ranges.Keys == {HashName(frameName)};
  }

  /** The ids of the open ranges other than the frame range. */
  function OpenIds(p: Profiler): set<RangeId> {
    set id | id in p.ranges && p.ranges[id].inUse && id != p.cpuFrame
  }

  /** How many open ranges (other than the frame range) carry `name`. */
  function Hits(p: Profiler, name: seq<Byte>): nat {
    |Named(p, name)|
  }

  function Named(p: Profiler, name: seq<Byte>): set<RangeId> {
    set id | id in OpenIds(p) && p.ranges[id].name == name
  }

  /** An open range's name has at least one hit. */
  lemma HitsOfOpen(p: Profiler, id: RangeId)
    requires id in OpenIds(p)
    ensures Hits(p, p.ranges[id].name) >= 1
  {
    assert id in Named(p, p.ranges[id].name);
  }

  /** The names of the open ranges other than the frame range. */
  function OpenNames(p: Profiler): set<seq<Byte>> {
    set id | id in OpenIds(p) :: p.ranges[id].name
  }

  /** The bookkeeping `GetProfileInfo` prints: the frame range's name if
      it is in the map, and the hit count of every name with an open range.
      The timings and their formatting are outside the model, and the
      resource profile is always cleared. */
  datatype Report = Report(frame: Option<seq<Byte>>, hits: map<seq<Byte>, nat>)

  /** `GetProfileInfo`: nothing (both outputs cleared) unless enabled with
      no disable pending. */
  function GetProfileInfo(p: Profiler): (r: Option<Report>)
    ensures r == None <==> !p.enabled || !p.request
    ensures r != None ==> (r.value.frame != None <==> p.cpuFrame in p.ranges)
    ensures r != None ==> forall name :: name in r.value.hits ==> r.value.hits[name] >= 1
    ensures r != None ==> forall id :: id in OpenIds(p) ==> p.ranges[id].name in r.value.hits
    // the report lists exactly the names of the open ranges, each with the
    // number of open ranges that carry it
    ensures r != None ==> r.value.hits.Keys == OpenNames(p)
    ensures r != None ==> forall name :: name in r.value.hits ==> r.value.hits[name] == Hits(p, name)
    ensures r != None && p.cpuFrame in p.ranges ==> r.value.frame == Some(p.ranges[p.cpuFrame].name)
  {
    if !p.enabled || !p.request then None
    else
      var hits := map name | name in OpenNames(p) :: Hits(p, name);
      forall name | name in hits
        ensures hits[name] >= 1
      {
        var id :| id in OpenIds(p) && p.ranges[id].name == name;
        HitsOfOpen(p, id);
      }
      forall id | id in OpenIds(p)
        ensures p.ranges[id].name in hits
      {
        assert p.ranges[id].name in OpenNames(p);
      }
      Some(Report(if p.cpuFrame in p.ranges then Some(p.ranges[p.cpuFrame].name) else None, hits))
  }
}
