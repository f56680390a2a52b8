/**
 * `createInstancedFoliage` of `threejs/wind/main.js`: the wind patch its
 * material's `onBeforeCompile` applies (uniform defaults, `WIND_OCTAVES`,
 * the uniform block before `#include <common>` and the projection that
 * replaces `#include <project_vertex>`), the `onBeforeRender` hook that
 * advances `uTime`, and the loop that writes one matrix per instance.
 */
module WindFoliage {
  import opened Wrappers
  import opened ThreeModel
  import ShaderTools
  import WindShaderUtils

  /** The default of the `count` parameter */
  const DefaultCount: nat := 10

  /** What `onBeforeRender` adds to `uTime` on every call */
  const TimeStep: real := 1.0 / 60.0

  const OctavesKey: string := "WIND_OCTAVES"
  const Octaves: real := 4.0

  const CommonMarker: string := "#include <common>"
  const ProjectVertexMarker: string := "#include <project_vertex>"

  // ---------------------------------------------------------------------
  // onBeforeCompile
  // ---------------------------------------------------------------------

  /** The wind uniforms at the values every compile installs */
  function WindDefaults(): map<string, Uniform> {
    map[
      "uTime" := UNum(0.0),
      "uWindSize" := UNum(1.0),
      "uWindFrequence" := UNum(1.0),
      "uWindBending" := UNum(2.0),
      "uWindDirection" := UVec([1.0, 0.0, 1.0]),
      "uWindNormal" := UVec([1.0, 0.0, -1.0]),
      "uWindAmplitude" := UNum(0.02),
      "uWindOctaveSizeRatio" := UNum(0.63209),
      "uWindOctaveAmplitudeDecay" := UNum(0.78567)
    ]
  }

  predicate HasNum(u: map<string, Uniform>, key: string) {
    key in u && u[key].UNum?
  }

  /** The uniforms `onBeforeRender` destructures, each a number */
  predicate WindInstalled(u: map<string, Uniform>) {
    && HasNum(u, "uTime") && HasNum(u, "uWindSize") && HasNum(u, "uWindFrequence")
    && HasNum(u, "uWindBending") && HasNum(u, "uWindAmplitude")
    && HasNum(u, "uWindOctaveSizeRatio") && HasNum(u, "uWindOctaveAmplitudeDecay")
  }

  /**
   * The uniforms after a compile: every wind uniform at its default, `uTime`
   * from 0, the material's other uniforms kept.
   */
  function CompiledUniforms(uniforms: map<string, Uniform>): (r: map<string, Uniform>)
    ensures WindInstalled(r)
    ensures r["uTime"] == UNum(0.0)
    ensures r.Keys == uniforms.Keys + WindDefaults().Keys
    ensures forall k :: k in WindDefaults() ==> r[k] == WindDefaults()[k]
    ensures forall k :: k in uniforms && k !in WindDefaults() ==> r[k] == uniforms[k]
  {
    uniforms + WindDefaults()
  }

  /** The defines after a compile: `WIND_OCTAVES` is 4, nothing else changes */
  function CompiledDefines(defines: map<string, DefineValue>): (r: map<string, DefineValue>)
    ensures OctavesKey in r && r[OctavesKey] == Num(Octaves)
    ensures r.Keys == defines.Keys + {OctavesKey}
    ensures forall k :: k in defines && k != OctavesKey ==> r[k] == defines[k]
  {
    defines[OctavesKey := Num(Octaves)]
  }

  /** The GLSL the patch injects */
  datatype WindGlsl = WindGlsl(uniformDeclarations: string, projection: string)

  predicate Literal(g: WindGlsl) {
    ShaderTools.NoDollar(g.uniformDeclarations) && ShaderTools.NoDollar(g.projection)
  }

  /** Step 1: the uniform block before `#include <common>` */
  function VertexWithDeclarations(vertexShader: string, g: WindGlsl): string {
    WindShaderUtils.InjectBefore(vertexShader, CommonMarker, g.uniformDeclarations)
  }

  /** Step 2: `vertexShader.replace('#include <project_vertex>', projection)` */
  function FoliageVertex(vertexShader: string, g: WindGlsl): string {
    ShaderTools.Replace(VertexWithDeclarations(vertexShader, g), ProjectVertexMarker, g.projection)
  }

  /** The uniform block and a newline sit immediately before the first `#include <common>` */
  lemma DeclarationsBeforeCommon(vertexShader: string, g: WindGlsl, k: nat)
    requires ShaderTools.FirstAt(vertexShader, CommonMarker, k) && Literal(g)
    ensures VertexWithDeclarations(vertexShader, g)
            == vertexShader[..k] + g.uniformDeclarations + "\n" + CommonMarker + vertexShader[k + |CommonMarker|..]
  {
    WindShaderUtils.InjectBeforePlacement(vertexShader, CommonMarker, g.uniformDeclarations, k);
  }

  /**
   * The first `#include <project_vertex>` is replaced by the projection
   * text: the marker itself is not kept there.
   */
  lemma ProjectionReplacesMarker(vertexShader: string, g: WindGlsl, k: nat)
    requires ShaderTools.FirstAt(VertexWithDeclarations(vertexShader, g), ProjectVertexMarker, k) && Literal(g)
    ensures var v := VertexWithDeclarations(vertexShader, g);
            FoliageVertex(vertexShader, g) == v[..k] + g.projection + v[k + |ProjectVertexMarker|..]
    ensures var v := VertexWithDeclarations(vertexShader, g);
            |FoliageVertex(vertexShader, g)| == |v| - |ProjectVertexMarker| + |g.projection|
  {
    ShaderTools.ReplaceFirst(VertexWithDeclarations(vertexShader, g), ProjectVertexMarker, g.projection, k);
  }

  /** Without `#include <project_vertex>` the second step changes nothing */
  lemma NoProjectVertexKeepsSource(vertexShader: string, g: WindGlsl)
    requires !ShaderTools.Contains(VertexWithDeclarations(vertexShader, g), ProjectVertexMarker)
    ensures FoliageVertex(vertexShader, g) == VertexWithDeclarations(vertexShader, g)
  {
    ShaderTools.ReplaceAbsent(VertexWithDeclarations(vertexShader, g), ProjectVertexMarker, g.projection);
  }

  // ---------------------------------------------------------------------
  // onBeforeRender
  // ---------------------------------------------------------------------

  /** The values `onBeforeRender` reads from the on-screen controls on one call */
  datatype WindTunables = WindTunables(
    size: real, frequence: real, bending: real, amplitude: real,
    octaveSizeRatio: real, octaveAmplitudeDecay: real)

  /**
   * The uniforms after one call: `uTime` grows by exactly 1/60, the six
   * tunable uniforms take the control values, and every other uniform,
   * the wind direction and normal among them, is kept.
   */
  function RenderUniforms(u: map<string, Uniform>, ui: WindTunables): (r: map<string, Uniform>)
    requires WindInstalled(u)
    ensures WindInstalled(r) && r.Keys == u.Keys
    ensures r["uTime"] == UNum(u["uTime"].n + TimeStep)
    ensures r["uWindSize"] == UNum(ui.size) && r["uWindFrequence"] == UNum(ui.frequence)
    ensures r["uWindBending"] == UNum(ui.bending) && r["uWindAmplitude"] == UNum(ui.amplitude)
    ensures r["uWindOctaveSizeRatio"] == UNum(ui.octaveSizeRatio)
    ensures r["uWindOctaveAmplitudeDecay"] == UNum(ui.octaveAmplitudeDecay)
    ensures forall k :: k in u && k !in RenderKeys ==> r[k] == u[k]
  {
    u["uTime" := UNum(u["uTime"].n + TimeStep)]
     ["uWindSize" := UNum(ui.size)]
     ["uWindFrequence" := UNum(ui.frequence)]
     ["uWindBending" := UNum(ui.bending)]
     ["uWindAmplitude" := UNum(ui.amplitude)]
     ["uWindOctaveSizeRatio" := UNum(ui.octaveSizeRatio)]
     ["uWindOctaveAmplitudeDecay" := UNum(ui.octaveAmplitudeDecay)]
  }

  /** The uniforms `onBeforeRender` writes */
  const RenderKeys: set<string> := {
    "uTime", "uWindSize", "uWindFrequence", "uWindBending", "uWindAmplitude",
    "uWindOctaveSizeRatio", "uWindOctaveAmplitudeDecay"
  }

  /** The uniforms after one call per entry of `uis` */
  function RendersUniforms(u: map<string, Uniform>, uis: seq<WindTunables>): (r: map<string, Uniform>)
    requires WindInstalled(u)
    ensures WindInstalled(r)
    decreases |uis|
  {
    if uis == [] then u else RendersUniforms(RenderUniforms(u, uis[0]), uis[1..])
  }

  /** After n render calls `uTime` has grown by n/60 */
  lemma {:induction false} TimeCountsRenders(u: map<string, Uniform>, uis: seq<WindTunables>)
    requires WindInstalled(u)
    ensures RendersUniforms(u, uis)["uTime"] == UNum(u["uTime"].n + |uis| as real * TimeStep)
    decreases |uis|
  {
    if uis != [] {
      TimeCountsRenders(RenderUniforms(u, uis[0]), uis[1..]);
    }
  }

  class FoliageMaterial {
    /** The shader of the last compile; null until the first */
    var shader: Shader?

    ghost predicate Valid()
      reads this, shader
    {
      shader != null ==> WindInstalled(shader.uniforms)
    }

    constructor ()
      ensures shader == null && Valid()
    {
      shader := null;
    }

    /** `material.onBeforeCompile`: the uniforms, the define, then the two text steps */
    method OnBeforeCompile(s: Shader, g: WindGlsl)
      modifies this`shader, s
      ensures shader == s && Valid()
      ensures s.uniforms == CompiledUniforms(old(s.uniforms))
      ensures s.defines == CompiledDefines(old(s.defines))
      ensures s.vertexShader == FoliageVertex(old(s.vertexShader), g)
      ensures s.fragmentShader == old(s.fragmentShader)
    {
      shader := s;
      s.uniforms := s.uniforms + WindDefaults();
      s.defines := s.defines[OctavesKey := Num(Octaves)];
      s.vertexShader := WindShaderUtils.InjectBefore(s.vertexShader, CommonMarker, g.uniformDeclarations);
      s.vertexShader := ShaderTools.Replace(s.vertexShader, ProjectVertexMarker, g.projection);
    }

    /** `instancedMesh.onBeforeRender`: nothing before the first compile, then one time step */
    method OnBeforeRender(ui: WindTunables)
      requires Valid()
      modifies shader
      ensures Valid()
      ensures shader != null ==>
                && shader.uniforms == RenderUniforms(old(shader.uniforms), ui)
                && shader.defines == old(shader.defines)
                && shader.vertexShader == old(shader.vertexShader)
                && shader.fragmentShader == old(shader.fragmentShader)
    {
      if shader != null {
        var u := shader.uniforms;
        u := u["uTime" := UNum(u["uTime"].n + TimeStep)];
        u := u["uWindSize" := UNum(ui.size)];
        u := u["uWindFrequence" := UNum(ui.frequence)];
        u := u["uWindBending" := UNum(ui.bending)];
        u := u["uWindAmplitude" := UNum(ui.amplitude)];
        u := u["uWindOctaveSizeRatio" := UNum(ui.octaveSizeRatio)];
        u := u["uWindOctaveAmplitudeDecay" := UNum(ui.octaveAmplitudeDecay)];
        shader.uniforms := u;
      }
    }
  }

  // ---------------------------------------------------------------------
  // Instance matrices
  // ---------------------------------------------------------------------

  /** The `position`, `rotation` and `scale` objects the loop hands to `initMatrix` */
  datatype Placement = Placement(position: Vec3, rotation: Euler, scale: Vec3)

  /** What the loop resets them to before every call */
  const ResetPlacement: Placement := Placement(Vec3(0.0, 0.0, 0.0), Euler(0.0, 0.0, 0.0), Vec3(1.0, 1.0, 1.0))

  /** `matrix.compose(position, quaternion.setFromEuler(rotation), scale)` */
  function InstanceMatrix(p: Placement): Mat4 {
    Compose(p.position, FromEuler(p.rotation), p.scale)
  }

  /**
   * `initMatrix(position, rotation, scale, index)` with whatever state the
   * callback keeps between calls (a seeded random generator, say): it
   * returns the placement and its next state.
   */
  type InitMatrix<!S> = (Placement, nat, S) -> (Placement, S)

  /** The callback's state before its call for `index` */
  function StateBefore<S>(initMatrix: InitMatrix<S>, seed: S, index: nat): S
    decreases index
  {
    if index == 0 then seed else initMatrix(ResetPlacement, index - 1, StateBefore(initMatrix, seed, index - 1)).1
  }

  /** The matrix the loop writes for `index` */
  function MatrixFor<S>(initMatrix: InitMatrix<S>, seed: S, index: nat): Mat4 {
    InstanceMatrix(initMatrix(ResetPlacement, index, StateBefore(initMatrix, seed, index)).0)
  }

  class InstancedMesh {
    const count: nat
    /** `instanceMatrix`, one matrix per instance */
    const instanceMatrix: array<Mat4>

    /** `new InstancedMesh(geometry, material, count)`: every instance at the identity */
    constructor (count: nat)
      ensures this.count == count && instanceMatrix.Length == count && fresh(instanceMatrix)
      ensures forall i :: 0 <= i < count ==> instanceMatrix[i] == Identity4
    {
      this.count := count;
      instanceMatrix := new Mat4[count](_ => Identity4);
    }

    /** `setMatrixAt(index, matrix)` */
    method SetMatrixAt(index: nat, matrix: Mat4)
      requires index < instanceMatrix.Length
      modifies instanceMatrix
      ensures instanceMatrix[..] == old(instanceMatrix[..])[index := matrix]
    {
      instanceMatrix[index] := matrix;
    }
  }

  /**
   * The loop over `0 <= index < count`: each index is written once, in
   * increasing order, with the matrix of the callback's placement for it.
   * Because the placement is reset before every call, an instance's matrix
   * depends only on its index and the callback's own state, never on the
   * placement of the instance before it.
   */
  method InitInstances<S>(mesh: InstancedMesh, initMatrix: InitMatrix<S>, seed: S) returns (written: seq<nat>)
    requires mesh.instanceMatrix.Length == mesh.count
    modifies mesh.instanceMatrix
    ensures |written| == mesh.count && forall i :: 0 <= i < |written| ==> written[i] == i
    ensures forall i :: 0 <= i < mesh.count ==> mesh.instanceMatrix[i] == MatrixFor(initMatrix, seed, i)
  {
    written := [];
    var state := seed;
    var index := 0;
    while index < mesh.count
      invariant 0 <= index <= mesh.count
      invariant state == StateBefore(initMatrix, seed, index)
      invariant |written| == index && forall i :: 0 <= i < index ==> written[i] == i
      invariant forall i :: 0 <= i < index ==> mesh.instanceMatrix[i] == MatrixFor(initMatrix, seed, i)
    {
      var placement := ResetPlacement;
      var result := initMatrix(placement, index, state);
      placement, state := result.0, result.1;
      var matrix := Compose(placement.position, FromEuler(placement.rotation), placement.scale);
      mesh.SetMatrixAt(index, matrix);
      written := written + [index];
      index := index + 1;
    }
  }

  /**
   * `createInstancedFoliage({ count, initMatrix })`: a fresh material not
   * yet compiled, and a fresh mesh of `count` instances (10 when absent)
   * whose matrices the loop has written.
   */
  method CreateInstancedFoliage<S>(count: Option<nat>, initMatrix: InitMatrix<S>, seed: S)
    returns (material: FoliageMaterial, mesh: InstancedMesh)
    ensures fresh(material) && fresh(mesh) && fresh(mesh.instanceMatrix)
    ensures material.shader == null && material.Valid()
    ensures mesh.count == count.GetOr(DefaultCount) && mesh.instanceMatrix.Length == mesh.count
    ensures forall i :: 0 <= i < mesh.count ==> mesh.instanceMatrix[i] == MatrixFor(initMatrix, seed, i)
  {
    material := new FoliageMaterial();
    mesh := new InstancedMesh(count.GetOr(DefaultCount));
    var _ := InitInstances(mesh, initMatrix, seed);
  }
}
