/** `won::rendering::RHIShader`: a stage tag, a private copy of the compiled
    bytecode and a debug name. A `const void*` argument is the bytes it
    points at, `None` for a null pointer. */
module RHIShader {
  import opened Common

  datatype ShaderStage = Vertex | Pixel | Compute

  datatype Shader = Shader(stage: ShaderStage, bytecode: seq<Byte>, name: string)

  /** The default constructor: a vertex shader with no bytecode and no name. */
  const DefaultShader: Shader := Shader(Vertex, [], "")

  /** `memcpy` reads `size` bytes, so a non-null source must hold that many. */
  predicate Readable(data: Option<seq<Byte>>, size: nat) {
    data != None ==> size <= |data.value|
  }

  /** `SetBytecode`: drop the old bytecode; keep it empty for a null pointer
      or a zero size, otherwise copy the first `size` bytes. */
  function SetBytecode(s: Shader, data: Option<seq<Byte>>, size: nat): (r: Shader)
    requires Readable(data, size)
    ensures r.stage == s.stage && r.name == s.name
    ensures data == None || size == 0 ==> |r.bytecode| == 0
    ensures data != None && size != 0 ==>
      |r.bytecode| == size && forall i :: 0 <= i < size ==> r.bytecode[i] == data.value[i]
  {
    if data == None || size == 0 then s.(bytecode := [])
    else s.(bytecode := data.value[..size])
  }

  /** The constructor with a stage and bytecode: the default shader with the
      stage set and the bytecode run through `SetBytecode`. */
  function New(stage: ShaderStage, data: Option<seq<Byte>>, size: nat): (r: Shader)
    requires Readable(data, size)
    ensures r.stage == stage && r.name == ""
    ensures r.bytecode == SetBytecode(DefaultShader, data, size).bytecode
  {
    SetBytecode(DefaultShader.(stage := stage), data, size)
  }

  /** `GetBytecode`: a null pointer exactly when there is no bytecode. */
  function GetBytecode(s: Shader): (r: Option<seq<Byte>>)
    ensures r == None <==> GetBytecodeSize(s) == 0
    ensures r != None ==> r.value == s.bytecode
  {
    if |s.bytecode| == 0 then None else Some(s.bytecode)
  }

  /** `GetBytecodeSize`: the number of bytes held. */
  function GetBytecodeSize(s: Shader): (n: nat)
    ensures n == |s.bytecode|
    ensures n == 0 <==> s.bytecode == []
  {
    |s.bytecode|
  }

  function SetStage(s: Shader, stage: ShaderStage): (r: Shader)
    ensures GetStage(r) == stage && r.bytecode == s.bytecode && r.name == s.name
  {
    s.(stage := stage)
  }

  function GetStage(s: Shader): ShaderStage {
    s.stage
  }

  function SetName(s: Shader, name: string): (r: Shader)
    ensures GetName(r) == name && r.bytecode == s.bytecode && r.stage == s.stage
  {
    s.(name := name)
  }

  function GetName(s: Shader): string {
    s.name
  }

  /** Handing a buffer's full length to `SetBytecode` and reading it back
      gives the buffer again, or null when it was empty. */
  lemma BytecodeRoundTrip(s: Shader, data: seq<Byte>)
    ensures var r := SetBytecode(s, Some(data), |data|);
      && GetBytecodeSize(r) == |data|
      && GetBytecode(r) == (if |data| == 0 then None else Some(data))
  {
    var r := SetBytecode(s, Some(data), |data|);
    if |data| != 0 {
      assert r.bytecode == data;
    }
  }

  /** A shorter size keeps only that prefix: the bytecode is the first
      `size` bytes and nothing of what was stored before. */
  lemma BytecodeIsPrefix(s: Shader, data: seq<Byte>, size: nat)
    requires 0 < size <= |data|
    ensures GetBytecode(SetBytecode(s, Some(data), size)) == Some(data[..size])
  {
    var r := SetBytecode(s, Some(data), size);
    assert r.bytecode == data[..size];
  }

  /** Setting the bytecode twice keeps only the second: the result does not
      depend on the first call. */
  lemma SetBytecodeOverwrites(s: Shader, d1: Option<seq<Byte>>, n1: nat, d2: Option<seq<Byte>>, n2: nat)
    requires Readable(d1, n1) && Readable(d2, n2)
    ensures SetBytecode(SetBytecode(s, d1, n1), d2, n2) == SetBytecode(s, d2, n2)
  {
  }
}
