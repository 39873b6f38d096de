/** `won::resource::ShaderLibrary`: one slot per known shader, filled by
    compiling a description. The compiler is an oracle from a description to
    bytecode (empty on failure); `hasCompiler` is whether
    `CreateShaderCompiler` returned one. */
module ShaderLibrary {
  import opened Common
  import opened RHIShader
  import SC = ShaderCompiler

  datatype ShaderId = TestTriangleVS | TestRedPS | Count

  /** The number of real shader ids, the ordinal of `Count`. */
  const SlotCount: nat := 2

  datatype Library = Library(hasCompiler: bool, shaders: seq<Option<Shader>>)

  /** The slot table always has one entry per real id. */
  predicate LibraryOk(l: Library) {
    |l.shaders| == SlotCount
  }

  /** `ToIndex`: the enumerator's ordinal. */
  function ToIndex(id: ShaderId): (i: nat)
    ensures id != Count ==> i < SlotCount
    ensures id == Count ==> i == SlotCount
  {
    match id
    case TestTriangleVS => 0
    case TestRedPS => 1
    case Count => 2
  }

  /** `ToName`: the enumerator's name, "UnknownShader" for anything else. */
  function ToName(id: ShaderId): (n: string)
    ensures id == Count <==> n == "UnknownShader"
  {
    match id
    case TestTriangleVS => "TestTriangleVS"
    case TestRedPS => "TestRedPS"
    case Count => "UnknownShader"
  }

  /** Distinct real ids have distinct slots and distinct names. */
  lemma IdsAreDistinct(a: ShaderId, b: ShaderId)
    requires a != Count && b != Count && a != b
    ensures ToIndex(a) != ToIndex(b) && ToName(a) != ToName(b)
  {
  }

  function EmptySlots(n: nat): (r: seq<Option<Shader>>)
    ensures |r| == n && forall i :: 0 <= i < n ==> r[i] == None
  {
    if n == 0 then [] else [None] + EmptySlots(n - 1)
  }

  /** The constructor: every slot empty. */
  function New(hasCompiler: bool): (l: Library)
    ensures LibraryOk(l) && GetShaderCount(l) == 0 && l.hasCompiler == hasCompiler
  {
    ClearedCountsNone(EmptySlots(SlotCount));
    Library(hasCompiler, EmptySlots(SlotCount))
  }

  /** `LoadShader(id, desc)`: fail without change when there is no compiler,
      the id is `Count`, or the bytecode comes back empty; otherwise store a
      shader of the description's stage with that bytecode and the id's
      name in the id's slot. */
  function LoadShader(l: Library, id: ShaderId, d: SC.CompileDesc, compile: SC.CompileDesc -> seq<Byte>)
    : (r: (bool, Library))
    requires LibraryOk(l)
    ensures LibraryOk(r.1) && r.1.hasCompiler == l.hasCompiler
    ensures r.0 <==> l.hasCompiler && id != Count && compile(d) != []
    ensures !r.0 ==> r.1 == l
    ensures r.0 ==> GetShader(r.1, id) == Some(Shader(d.stage, compile(d), ToName(id)))
    ensures forall other :: other != id ==> GetShader(r.1, other) == GetShader(l, other)
  {
    if !l.hasCompiler then (false, l)
    else if id == Count then (false, l)
    else
      var bytes := compile(d);
      if bytes == [] then (false, l)
      else
        var shader := SetName(RHIShader.New(d.stage, Some(bytes), |bytes|), ToName(id));
        assert shader.bytecode == bytes;
        (true, l.(shaders := l.shaders[ToIndex(id) := Some(shader)]))
  }

  /** The five-argument `LoadShader`: a description with the given stage,
      path, entry point, model and format. */
  function LoadShaderFrom(l: Library, id: ShaderId, stage: ShaderStage, path: string, entry: string,
                          model: SC.ModelCode, format: SC.FormatCode, compile: SC.CompileDesc -> seq<Byte>)
    : (r: (bool, Library))
    requires LibraryOk(l)
    ensures r == LoadShader(l, id, SC.CompileDesc(stage, format, model, path, entry), compile)
  {
    LoadShader(l, id, SC.DefaultDesc.(stage := stage, sourcePath := path, entryPoint := entry,
      model := model, format := format), compile)
  }

  /** The descriptions `LoadAllShaders` compiles, with the default entry
      point, model and format. */
  const TriangleDesc: SC.CompileDesc := SC.CompileDesc(Vertex, SC.FormatHlsl6, SC.SM_6_0, "TestTriangleVS.hlsl", "main")
  const RedDesc: SC.CompileDesc := SC.CompileDesc(Pixel, SC.FormatHlsl6, SC.SM_6_0, "TestRedPS.hlsl", "main")

  /** `LoadAllShaders`: the vertex shader, then the pixel shader, stopping at
      the first failure. */
  function LoadAllShaders(l: Library, compile: SC.CompileDesc -> seq<Byte>): (r: (bool, Library))
    requires LibraryOk(l)
    ensures LibraryOk(r.1)
    ensures r.0 <==> l.hasCompiler && compile(TriangleDesc) != [] && compile(RedDesc) != []
    // a failed vertex shader stops before the pixel shader is tried
    ensures !LoadShader(l, TestTriangleVS, TriangleDesc, compile).0 ==> r == (false, l)
    ensures r.0 ==> GetShaderCount(r.1) == SlotCount
    ensures r.0 ==>
      && GetShader(r.1, TestTriangleVS) == Some(Shader(Vertex, compile(TriangleDesc), "TestTriangleVS"))
      && GetShader(r.1, TestRedPS) == Some(Shader(Pixel, compile(RedDesc), "TestRedPS"))
  {
    var (ok1, l1) := LoadShaderFrom(l, TestTriangleVS, Vertex, "TestTriangleVS.hlsl", "main", SC.SM_6_0, SC.FormatHlsl6, compile);
    if !ok1 then (false, l)
    else
      var (ok2, l2) := LoadShaderFrom(l1, TestRedPS, Pixel, "TestRedPS.hlsl", "main", SC.SM_6_0, SC.FormatHlsl6, compile);
      if !ok2 then (false, l2)
      else
        FullCount(l2);
        (true, l2)
  }

  /** `GetShader`: null for `Count`, otherwise the slot's contents. */
  function GetShader(l: Library, id: ShaderId): (r: Option<Shader>)
    requires LibraryOk(l)
    ensures id == Count ==> r == None
    ensures id != Count ==> r == l.shaders[ToIndex(id)]
  {
    if id == Count then None else l.shaders[ToIndex(id)]
  }

  /** `Clear`: every slot becomes null. */
  function Clear(l: Library): (r: Library)
    requires LibraryOk(l)
    ensures LibraryOk(r) && r.hasCompiler == l.hasCompiler
    ensures forall id :: GetShader(r, id) == None
    ensures GetShaderCount(r) == 0
  {
    ClearedCountsNone(EmptySlots(SlotCount));
    l.(shaders := EmptySlots(SlotCount))
  }

  /** The number of non-null entries of a slot list. */
  function CountPresent(s: seq<Option<Shader>>): (n: nat)
    ensures n <= |s|
  {
    if |s| == 0 then 0 else (if s[0] != None then 1 else 0) + CountPresent(s[1..])
  }

  /** `GetShaderCount`: the loaded shaders. */
  function GetShaderCount(l: Library): (n: nat)
    ensures n <= |l.shaders|
  {
    CountPresent(l.shaders)
  }

  /** The count is zero exactly when every slot is null. */
  lemma {:induction false} ClearedCountsNone(s: seq<Option<Shader>>)
    ensures CountPresent(s) == 0 <==> forall i :: 0 <= i < |s| ==> s[i] == None
    decreases |s|
  {
    if |s| > 0 {
      ClearedCountsNone(s[1..]);
      assert forall i :: 1 <= i < |s| ==> s[i] == s[1..][i - 1];
    }
  }

  /** The count is the length exactly when every slot is filled. */
  lemma {:induction false} CountFull(s: seq<Option<Shader>>)
    ensures CountPresent(s) == |s| <==> forall i :: 0 <= i < |s| ==> s[i] != None
    decreases |s|
  {
    if |s| > 0 {
      CountFull(s[1..]);
      assert forall i :: 1 <= i < |s| ==> s[i] == s[1..][i - 1];
    }
  }

  lemma FullCount(l: Library)
    requires LibraryOk(l) && GetShader(l, TestTriangleVS) != None && GetShader(l, TestRedPS) != None
    ensures GetShaderCount(l) == SlotCount
  {
    CountFull(l.shaders);
  }

  /** Filling a slot: the count goes up by one if the slot was empty, and
      stays the same if a shader is replaced. */
  lemma {:induction false} CountAfterStore(s: seq<Option<Shader>>, i: nat, x: Shader)
    requires i < |s|
    ensures CountPresent(s[i := Some(x)]) == CountPresent(s) + (if s[i] == None then 1 else 0)
    decreases |s|
  {
    if i == 0 {
      assert s[i := Some(x)][1..] == s[1..];
    } else {
      CountAfterStore(s[1..], i - 1, x);
      assert s[i := Some(x)][1..] == s[1..][i - 1 := Some(x)];
    }
  }

  /** A successful load raises the count by one exactly when the slot was
      empty before. */
  lemma LoadCount(l: Library, id: ShaderId, d: SC.CompileDesc, compile: SC.CompileDesc -> seq<Byte>)
    requires LibraryOk(l) && LoadShader(l, id, d, compile).0
    ensures GetShaderCount(LoadShader(l, id, d, compile).1)
      == GetShaderCount(l) + (if GetShader(l, id) == None then 1 else 0)
  {
    var r := LoadShader(l, id, d, compile).1;
    var x := GetShader(r, id).value;
    assert r.shaders == l.shaders[ToIndex(id) := Some(x)];
    CountAfterStore(l.shaders, ToIndex(id), x);
  }
}
