/** `won::resource::DXCShaderCompiler`: the target-profile string and the
    checks `Compile` makes before it hands a source to DXC. `ShaderFormat`
    and `ShaderModel` are `uint8_t` enums, so a cast can produce a value
    past the last enumerator; they are modelled as their raw codes. Reading
    the source file, the build platform, the DXC instance and DXC's output
    are parameters. */
module ShaderCompiler {
  import opened Common
  import opened RHIShader

  type FormatCode = x: nat | x < U8
  type ModelCode = x: nat | x < U8

  const FormatNone: FormatCode := 0
  const FormatHlsl6: FormatCode := 1

  /** `SM_6_0` .. `SM_6_7` are the codes 0 .. 7. */
  const SM_6_0: ModelCode := 0
  const SM_6_7: ModelCode := 7

  /** `ShaderCompileDesc`. */
  datatype CompileDesc = CompileDesc(
    stage: ShaderStage,
    format: FormatCode,
    model: ModelCode,
    sourcePath: string,
    entryPoint: string)

  const DefaultDesc: CompileDesc := CompileDesc(Vertex, FormatHlsl6, SM_6_0, "", "main")

  /** `GetShaderModelSuffix`: "6_<minor>" for a known model, null otherwise. */
  function ModelSuffix(m: ModelCode): (r: Option<string>)
    ensures r != None <==> m <= SM_6_7
    ensures r != None ==> r.value == "6_" + [Digit(m)]
  {
    if m == 0 then Some("6_0")
    else if m == 1 then Some("6_1")
    else if m == 2 then Some("6_2")
    else if m == 3 then Some("6_3")
    else if m == 4 then Some("6_4")
    else if m == 5 then Some("6_5")
    else if m == 6 then Some("6_6")
    else if m == 7 then Some("6_7")
    else None
  }

  /** The decimal digit of a value below ten. */
  function Digit(d: nat): (c: char)
    requires d < 10
  {
    ('0' as int + d) as char
  }

  /** `GetShaderStagePrefix`: every stage has a two-letter prefix. */
  function StagePrefix(s: ShaderStage): (r: string)
    ensures |r| == 2 && r[1] == 's'
    ensures r[0] == match s case Vertex => 'v' case Pixel => 'p' case Compute => 'c'
  {
    match s
    case Vertex => "vs"
    case Pixel => "ps"
    case Compute => "cs"
  }

  /** `GetDefaultTargetProfile`: empty unless the format is HLSL 6 and the
      model is known; otherwise "<stage>_<model>", such as "vs_6_0". */
  function TargetProfile(d: CompileDesc): (r: string)
    ensures r == "" <==> d.format != FormatHlsl6 || d.model > SM_6_7
    ensures r != "" ==> r == StagePrefix(d.stage) + "_" + ModelSuffix(d.model).value
    ensures r != "" ==> |r| == 6
  {
    if d.format != FormatHlsl6 then ""
    else
      var suffix := ModelSuffix(d.model);
      if suffix == None then ""
      else StagePrefix(d.stage) + "_" + suffix.value
  }

  /** The default description asks for "vs_6_0"; a pixel shader for model
      6.7 for "ps_6_7". */
  lemma ProfileExamples()
    ensures TargetProfile(DefaultDesc) == "vs_6_0"
    ensures TargetProfile(DefaultDesc.(stage := Pixel, model := SM_6_7)) == "ps_6_7"
  {
  }

  /** The profile names its stage and model uniquely: two descriptions with
      the same non-empty profile ask for the same stage and model. */
  lemma ProfileDeterminesTarget(a: CompileDesc, b: CompileDesc)
    requires TargetProfile(a) != "" && TargetProfile(a) == TargetProfile(b)
    ensures a.stage == b.stage && a.model == b.model
  {
    var p := TargetProfile(a);
    assert p[0] == StagePrefix(a.stage)[0] == StagePrefix(b.stage)[0];
    assert p[5] == Digit(a.model) == Digit(b.model);
  }

  /** What `Compile` does before DXC runs: give up with empty bytecode, or
      pass DXC the source bytes with an entry point and a profile. */
  datatype Prepared = GiveUp | Invoke(source: seq<Byte>, entry: string, profile: string)

  /** The bytes `Compile` works from: none without a path, otherwise what
      reading the file gave (`None` for a failed read). */
  function SourceBytes(d: CompileDesc, read: Option<seq<Byte>>): Option<seq<Byte>> {
    if d.sourcePath == "" then Some([]) else read
  }

  /** The checks of `Compile` in order: the file must be readable, the
      source non-empty and the profile non-empty; only Windows builds have
      DXC, and it must have been created. An empty entry point means "main".
      `read` is the result of reading the resolved path, `windows` the
      build platform, `dxcReady` whether both DXC instances exist. */
  function Prepare(d: CompileDesc, read: Option<seq<Byte>>, windows: bool, dxcReady: bool): (r: Prepared)
    ensures r != GiveUp <==>
      && SourceBytes(d, read) != None && SourceBytes(d, read).value != []
      && TargetProfile(d) != "" && windows && dxcReady
    // a description without a source path never compiles
    ensures d.sourcePath == "" ==> r == GiveUp
    ensures r != GiveUp ==>
      && r.source == read.value
      && r.profile == TargetProfile(d)
      && r.entry == (if d.entryPoint == "" then "main" else d.entryPoint)
      && r.entry != ""
  {
    var source := SourceBytes(d, read);
    if source == None then GiveUp
    else if source.value == [] then GiveUp
    else
      var entry := if d.entryPoint == "" then "main" else d.entryPoint;
      var profile := TargetProfile(d);
      if profile == "" then GiveUp
      else if !windows then GiveUp
      else if !dxcReady then GiveUp
      else Invoke(source.value, entry, profile)
  }

  /** `Compile`: empty bytecode when a check fails, otherwise what DXC
      produced from the request (`dxc`, empty when DXC itself fails). */
  function Compile(d: CompileDesc, read: Option<seq<Byte>>, windows: bool, dxcReady: bool,
                   dxc: Prepared -> seq<Byte>): (r: seq<Byte>)
    ensures !windows ==> r == []
    ensures Prepare(d, read, windows, dxcReady) == GiveUp ==> r == []
    ensures Prepare(d, read, windows, dxcReady) != GiveUp ==> r == dxc(Prepare(d, read, windows, dxcReady))
  {
    var p := Prepare(d, read, windows, dxcReady);
    if p == GiveUp then [] else dxc(p)
  }
}
