/** `won::resource::Mesh`: four vertex streams packed back to back into one
    upload buffer, and the render data describing where each landed. Each
    stream element is given by its object bytes (`sizeof(float3)` is 12,
    `sizeof(float2)` 8, `sizeof(uint32)` 4); the device's buffer is an
    opaque handle it may or may not return. */
module Mesh {
  import opened Common

  const Float3Size: nat := 12
  const Float2Size: nat := 8
  const IndexSize: nat := 4

  /** A `Vector<T>` as the object bytes of its elements. */
  type Stream = seq<seq<Byte>>

  predicate Sized(xs: Stream, stride: nat) {
    forall i :: 0 <= i < |xs| ==> |xs[i]| == stride
  }

  /** The stream's bytes in memory order, as `source.data()` holds them. */
  function Flatten(xs: Stream): (r: seq<Byte>)
  {
    if |xs| == 0 then [] else xs[0] + Flatten(xs[1..])
  }

  lemma {:induction false} FlattenLength(xs: Stream, stride: nat)
    requires Sized(xs, stride)
    ensures |Flatten(xs)| == |xs| * stride
    decreases |xs|
  {
    if |xs| > 0 {
      FlattenLength(xs[1..], stride);
      assert |xs| * stride == stride + (|xs| - 1) * stride;
    }
  }

  /** `VBSubresource`: a byte range of the buffer and its element stride. */
  datatype VBSubresource = VBSubresource(offset: nat, size: nat, stride: nat)

  const DefaultSubresource: VBSubresource := VBSubresource(0, 0, 0)

  predicate SubresourceIsValid(v: VBSubresource) {
    v.size > 0 && v.stride > 0
  }

  /** `RenderData`: the buffer handle (`None` for null) and the four ranges. */
  datatype RenderData = RenderData(
    buffer: Option<nat>,
    positions: VBSubresource,
    normals: VBSubresource,
    texcoords: VBSubresource,
    indices: VBSubresource)

  const DefaultRenderData: RenderData :=
    RenderData(None, DefaultSubresource, DefaultSubresource, DefaultSubresource, DefaultSubresource)

  /** Normals and texture coordinates are optional. */
  predicate RenderDataIsValid(d: RenderData) {
    d.buffer != None && SubresourceIsValid(d.positions) && SubresourceIsValid(d.indices)
  }

  /** The defaults describe nothing: neither a default range nor default
      render data is valid. */
  lemma DefaultsInvalid(v: VBSubresource)
    requires v.size == 0 || v.stride == 0 || v == DefaultSubresource
    ensures !SubresourceIsValid(v) && !RenderDataIsValid(DefaultRenderData)
  {
  }

  datatype Mesh = Mesh(
    positions: Stream,
    normals: Stream,
    texcoords: Stream,
    indices: Stream,
    renderData: RenderData)

  /** Every element has its type's size. */
  predicate MeshOk(m: Mesh) {
    && Sized(m.positions, Float3Size) && Sized(m.normals, Float3Size)
    && Sized(m.texcoords, Float2Size) && Sized(m.indices, IndexSize)
  }

  /** `Mesh::IsValid`: positions and indices are both non-empty. */
  predicate MeshIsValid(m: Mesh) {
    |m.positions| > 0 && |m.indices| > 0
  }

  /** `PackBufferSubresource`: record the range, then copy the stream into
      the buffer at the running offset and move the offset past it; an
      empty stream only records its (empty) range. */
  function PackBufferSubresource(source: Stream, stride: nat, dest: seq<Byte>, offset: nat)
    : (r: (VBSubresource, seq<Byte>, nat))
    requires Sized(source, stride) && offset + |source| * stride <= |dest|
    ensures r.0 == VBSubresource(offset, |source| * stride, stride)
    ensures r.0.size == 0 ==> r.1 == dest && r.2 == offset
    ensures r.0.size > 0 ==> r.2 == offset + r.0.size
    ensures |r.1| == |dest| && r.1[..offset] == dest[..offset] && r.1[r.2..] == dest[r.2..]
    ensures r.1[offset..r.2] == Flatten(source)
  {
    var size := |source| * stride;
    FlattenLength(source, stride);
    if size == 0 then
      (VBSubresource(offset, size, stride), dest, offset)
    else
      var dest' := dest[..offset] + Flatten(source) + dest[offset + size..];
      assert dest'[offset..offset + size] == Flatten(source);
      (VBSubresource(offset, size, stride), dest', offset + size)
  }

  /** The four stream sizes added up. */
  function TotalSize(m: Mesh): nat {
    |m.positions| * Float3Size + |m.normals| * Float3Size + |m.texcoords| * Float2Size + |m.indices| * IndexSize
  }

  /** The packing step of `CreateRenderData`: the four ranges (with a null
      buffer) and the bytes handed to the device. */
  function Pack(m: Mesh): (r: (RenderData, seq<Byte>))
    requires MeshOk(m)
    ensures var d := r.0;
      && d.buffer == None
      // back to back, in stream order, filling the buffer exactly
      && d.positions.offset == 0
      && d.normals.offset == d.positions.offset + d.positions.size
      && d.texcoords.offset == d.normals.offset + d.normals.size
      && d.indices.offset == d.texcoords.offset + d.texcoords.size
      && d.indices.offset + d.indices.size == TotalSize(m) == |r.1|
    ensures r.0.positions.stride == Float3Size && r.0.normals.stride == Float3Size
    ensures r.0.texcoords.stride == Float2Size && r.0.indices.stride == IndexSize
  {
    var (p, b1, o1) := PackBufferSubresource(m.positions, Float3Size, Zeros(TotalSize(m)), 0);
    var (n, b2, o2) := PackBufferSubresource(m.normals, Float3Size, b1, o1);
    var (t, b3, o3) := PackBufferSubresource(m.texcoords, Float2Size, b2, o2);
    var (i, b4, o4) := PackBufferSubresource(m.indices, IndexSize, b3, o3);
    (RenderData(None, p, n, t, i), b4)
  }

  /** `packed_data.resize(total_size)`. */
  function Zeros(n: nat): (r: seq<Byte>)
    ensures |r| == n
  {
    if n == 0 then [] else [0] + Zeros(n - 1)
  }

  /** Each range holds its stream's bytes, so the buffer handed to the
      device is the four streams' bytes in order. */
  lemma PackBytes(m: Mesh)
    requires MeshOk(m)
    ensures Pack(m).1 == Flatten(m.positions) + Flatten(m.normals) + Flatten(m.texcoords) + Flatten(m.indices)
  {
    var z := Zeros(TotalSize(m));
    var (p, b1, o1) := PackBufferSubresource(m.positions, Float3Size, z, 0);
    var (n, b2, o2) := PackBufferSubresource(m.normals, Float3Size, b1, o1);
    var (t, b3, o3) := PackBufferSubresource(m.texcoords, Float2Size, b2, o2);
    var (i, b4, o4) := PackBufferSubresource(m.indices, IndexSize, b3, o3);
    assert b4 == Pack(m).1;
    PackStep(m.positions, Float3Size, z, 0, []);
    PackStep(m.normals, Float3Size, b1, o1, Flatten(m.positions));
    PackStep(m.texcoords, Float2Size, b2, o2, Flatten(m.positions) + Flatten(m.normals));
    PackStep(m.indices, IndexSize, b3, o3, Flatten(m.positions) + Flatten(m.normals) + Flatten(m.texcoords));
    assert b4 == b4[..o4];
  }

  /** One packing step extends the filled prefix of the buffer by the
      stream's bytes. */
  lemma PackStep(source: Stream, stride: nat, dest: seq<Byte>, offset: nat, prefix: seq<Byte>)
    requires Sized(source, stride) && offset + |source| * stride <= |dest|
    requires dest[..offset] == prefix
    ensures var (_, dest', offset') := PackBufferSubresource(source, stride, dest, offset);
      dest'[..offset'] == prefix + Flatten(source)
  {
    var (_, dest', offset') := PackBufferSubresource(source, stride, dest, offset);
    assert dest'[..offset'] == dest'[..offset] + dest'[offset..offset'];
  }

  /** `CreateRenderData`: nothing to do when the render data is already
      valid; no change without a device or with an invalid mesh; otherwise
      pack, and keep the result only if the device returns a buffer.
      `device` is whether a device was passed, `created` the device's
      answer to `CreateBuffer` with `Pack(m).1`. */
  function CreateRenderData(m: Mesh, device: bool, created: Option<nat>): (r: (bool, Mesh))
    requires MeshOk(m)
    ensures RenderDataIsValid(m.renderData) ==> r == (true, m)
    ensures !RenderDataIsValid(m.renderData) ==>
      (r.0 <==> device && MeshIsValid(m) && created != None)
    ensures !r.0 ==> r.1 == m
    ensures r.1.positions == m.positions && r.1.normals == m.normals
    ensures r.1.texcoords == m.texcoords && r.1.indices == m.indices
    // success always leaves valid render data behind
    ensures r.0 ==> RenderDataIsValid(r.1.renderData)
    ensures r.0 && !RenderDataIsValid(m.renderData) ==>
      r.1.renderData == Pack(m).0.(buffer := created)
  {
    if RenderDataIsValid(m.renderData) then (true, m)
    else if !device || !MeshIsValid(m) then (false, m)
    else
      var total := TotalSize(m);
      if total == 0 then (false, m)
      else
        var (d, bytes) := Pack(m);
        if created == None then (false, m)
        else (true, m.(renderData := d.(buffer := created)))
  }

  /** `GetRenderData`: null unless the render data is valid. */
  function GetRenderData(m: Mesh): (r: Option<RenderData>)
    ensures r == None <==> !RenderDataIsValid(m.renderData)
    ensures r != None ==> r.value == m.renderData
  {
    if RenderDataIsValid(m.renderData) then Some(m.renderData) else None
  }

  /** `ClearRenderData`: back to the default, which is invalid, so the
      render data can be created again. */
  function ClearRenderData(m: Mesh): (r: Mesh)
    ensures r.renderData == DefaultRenderData && GetRenderData(r) == None
    ensures r.positions == m.positions && r.indices == m.indices
    ensures r.normals == m.normals && r.texcoords == m.texcoords
  {
    m.(renderData := DefaultRenderData)
  }

  /** After a clear, creation runs again from scratch: with a device, a
      valid mesh and a buffer it succeeds with the freshly packed layout. */
  lemma ClearThenCreate(m: Mesh, b: nat)
    requires MeshOk(m) && MeshIsValid(m)
    ensures var r := CreateRenderData(ClearRenderData(m), true, Some(b));
      r.0 && r.1.renderData == Pack(m).0.(buffer := Some(b))
  {
    var c := ClearRenderData(m);
    assert Pack(c) == Pack(m) by {
      assert c.positions == m.positions && c.normals == m.normals;
      assert c.texcoords == m.texcoords && c.indices == m.indices;
    }
  }
}
