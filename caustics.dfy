/**
 * `createCausticsMaterial` of `threejs/caustics/main.js`: the patch its
 * `onBeforeCompile` applies to a physical material's shader (defines,
 * uniform defaults, the sequence of text injections), the per-frame
 * closure that advances the time uniform and the shared water transform,
 * and the two control handlers that force a recompile.
 *
 * The GLSL text the recipe injects is a parameter (`CausticsGlsl`); the
 * values read from the on-screen controls are a parameter
 * (`CausticsTunables`).
 */
module Caustics {
  import opened Wrappers
  import opened ThreeModel
  import ShaderTools
  import FrameClock
  import CommonStage

  // ---------------------------------------------------------------------
  // #1. defines
  // ---------------------------------------------------------------------

  const PowerKey: string := "CAUSTICS_POWER"
  const CameraOrientationKey: string := "CAUSTICS_USE_CAMERA_ORIENTATION"
  /** The key the control handlers overwrite to change the program's cache key */
  const UpdateKey: string := "update"

  const DefaultPower: real := 2.0
  const DefaultUseCameraOrientation: bool := false

  /** The powers the shader has a branch for */
  predicate PowerSupported(power: real) {
    2.0 <= power <= 6.0
  }

  /**
   * The defines after step #1: `CAUSTICS_POWER` is set to the power exactly
   * when it is supported and deleted otherwise, the camera-orientation flag
   * is `''` when on and deleted when off, and no other key is touched.
   */
  function CompiledDefines(defines: map<string, DefineValue>, power: real, useCameraOrientation: bool)
    : (r: map<string, DefineValue>)
    ensures PowerKey in r <==> PowerSupported(power)
    ensures PowerKey in r ==> r[PowerKey] == Num(power)
    ensures CameraOrientationKey in r <==> useCameraOrientation
    ensures CameraOrientationKey in r ==> r[CameraOrientationKey] == Str("")
    ensures forall k :: k != PowerKey && k != CameraOrientationKey ==>
              (k in r <==> k in defines) && (k in r ==> r[k] == defines[k])
  {
    var withPower := if PowerSupported(power) then defines[PowerKey := Num(power)] else defines - {PowerKey};
    if useCameraOrientation then withPower[CameraOrientationKey := Str("")]
    else withPower - {CameraOrientationKey}
  }

  /** Step #1 depends only on the current settings: the last compile wins */
  lemma LastCompileWins(defines: map<string, DefineValue>, p1: real, f1: bool, p2: real, f2: bool)
    ensures CompiledDefines(CompiledDefines(defines, p1, f1), p2, f2) == CompiledDefines(defines, p2, f2)
  {
    var a := CompiledDefines(CompiledDefines(defines, p1, f1), p2, f2);
    var b := CompiledDefines(defines, p2, f2);
    assert a.Keys == b.Keys;
  }

  /**
   * Of the values the POWER control offers (1 to 6 in steps of 1), only 1
   * compiles without `CAUSTICS_POWER`.
   */
  lemma PowerControlValues(defines: map<string, DefineValue>, value: int, useCameraOrientation: bool)
    requires 1 <= value <= 6
    ensures PowerKey !in CompiledDefines(defines, value as real, useCameraOrientation) <==> value == 1
  {
  }

  // ---------------------------------------------------------------------
  // #2. uniforms
  // ---------------------------------------------------------------------

  /** Step #2: every uniform the recipe installs, at its default */
  function CausticsDefaults(causticsMap: nat): map<string, Uniform> {
    map[
      "uTime" := UNum(0.0),
      "uCausticsParams" := UVec([1.0, 1.0, 1.0, 1.0]),
      "uCausticsColor" := UColor("#fff"),
      "uCausticsScale" := UVec([1.15, 0.95, 1.0]),
      "uCausticsWaterLevel" := UVec([0.5, 0.5]),
      "uCausticsDirection" := UVec([0.0, 1.0, 0.0]),
      "uCausticsTransform" := UMat4(Identity4),
      "uCausticsTransformInverse" := UMat4(Identity4),
      "uCausticsNormalAttenuation" := UVec([0.75, -0.5]),
      "uCausticsShadowAttenuation" := UNum(0.666),
      "uCausticsColorShift" := UVec([1.0, 1.0, 1.0, 1.4]),
      "uCausticsMap" := UTexture(causticsMap),
      "uCausticsCameraOrientation" := UMat3(Identity3)
    ]
  }

  predicate HasVec(u: map<string, Uniform>, key: string, n: nat) {
    key in u && u[key].UVec? && |u[key].xs| == n
  }

  predicate HasNum(u: map<string, Uniform>, key: string) {
    key in u && u[key].UNum?
  }

  /** The uniforms the per-frame closure destructures, each of the kind it updates */
  predicate Installed(u: map<string, Uniform>) {
    && HasNum(u, "uTime")
    && HasVec(u, "uCausticsScale", 3)
    && HasVec(u, "uCausticsParams", 4)
    && HasVec(u, "uCausticsColorShift", 4)
    && HasVec(u, "uCausticsNormalAttenuation", 2)
    && HasNum(u, "uCausticsShadowAttenuation")
    && "uCausticsCameraOrientation" in u && u["uCausticsCameraOrientation"].UMat3?
    && "uCausticsTransform" in u && u["uCausticsTransform"].UMat4?
    && "uCausticsTransformInverse" in u && u["uCausticsTransformInverse"].UMat4?
    && "uCausticsColor" in u
  }

  /**
   * The uniforms after step #2: every recipe uniform holds its default,
   * `uTime` in particular starts again from 0, and other uniforms of the
   * host material are kept.
   */
  function CompiledUniforms(uniforms: map<string, Uniform>, causticsMap: nat): (r: map<string, Uniform>)
    ensures Installed(r)
    ensures r["uTime"] == UNum(0.0)
    ensures r.Keys == uniforms.Keys + CausticsDefaults(causticsMap).Keys
    ensures forall k :: k in CausticsDefaults(causticsMap) ==> r[k] == CausticsDefaults(causticsMap)[k]
    ensures forall k :: k in uniforms && k !in CausticsDefaults(causticsMap) ==> r[k] == uniforms[k]
  {
    uniforms + CausticsDefaults(causticsMap)
  }

  // ---------------------------------------------------------------------
  // #3. program
  // ---------------------------------------------------------------------

  /** The GLSL texts the recipe injects, in the order it injects them */
  datatype CausticsGlsl = CausticsGlsl(
    varyings: string,
    worldPositionCapture: string,
    fragmentDeclarations: string,
    lightDeclaration: string,
    lightBeforeCapture: string,
    lightAfterCapture: string,
    outputContribution: string)

  /** None of the injected texts holds a `$` replacement pattern */
  predicate Literal(g: CausticsGlsl) {
    && ShaderTools.NoDollar(g.varyings) && ShaderTools.NoDollar(g.worldPositionCapture)
    && ShaderTools.NoDollar(g.fragmentDeclarations) && ShaderTools.NoDollar(g.lightDeclaration)
    && ShaderTools.NoDollar(g.lightBeforeCapture) && ShaderTools.NoDollar(g.lightAfterCapture)
    && ShaderTools.NoDollar(g.outputContribution)
  }

  const CommonMarker: string := "#include <common>"
  const WorldposMarker: string := "#include <worldpos_vertex>"
  const OutputMarker: string := "#include <output_fragment>"

  /** Vertex step 1: the varyings after `#include <common>` */
  function VertexWithVaryings(vertexShader: string, g: CausticsGlsl): string {
    ShaderTools.InjectAfter(vertexShader, CommonMarker, g.varyings)
  }

  /** Vertex step 2: the world-position capture after `#include <worldpos_vertex>` */
  function CausticsVertex(vertexShader: string, g: CausticsGlsl): string {
    ShaderTools.InjectAfter(VertexWithVaryings(vertexShader, g), WorldposMarker, g.worldPositionCapture)
  }

  /** Fragment steps 1 and 2: the uniform block, then the light variables, both after `#include <common>` */
  function FragmentWithDeclarations(fragmentShader: string, g: CausticsGlsl): string {
    ShaderTools.InjectAfterChunk(
      ShaderTools.InjectAfter(fragmentShader, CommonMarker, g.fragmentDeclarations),
      "common", g.lightDeclaration)
  }

  /** Fragment steps 3 and 4: the light captures after the lighting chunks */
  function FragmentWithLightCapture(fragmentShader: string, g: CausticsGlsl): string {
    ShaderTools.InjectAfterChunk(
      ShaderTools.InjectAfterChunk(FragmentWithDeclarations(fragmentShader, g), "lights_fragment_begin", g.lightBeforeCapture),
      "lights_fragment_end", g.lightAfterCapture)
  }

  /** Fragment step 5: the caustics contribution before `#include <output_fragment>` */
  function CausticsFragment(fragmentShader: string, g: CausticsGlsl): string {
    ShaderTools.InjectBeforeChunk(FragmentWithLightCapture(fragmentShader, g), "output_fragment", g.outputContribution)
  }

  /**
   * Both fragment injections at `#include <common>` land right behind it,
   * so the one made second, the light variables, comes first and the
   * uniform block follows it.
   */
  lemma DeclarationOrder(fragmentShader: string, g: CausticsGlsl, k: nat)
    requires ShaderTools.FirstAt(fragmentShader, CommonMarker, k) && Literal(g)
    ensures FragmentWithDeclarations(fragmentShader, g)
            == fragmentShader[..k] + CommonMarker + "\n" + g.lightDeclaration + "\n"
               + g.fragmentDeclarations + fragmentShader[k + |CommonMarker|..]
  {
    assert ShaderTools.ChunkMarker("common") == CommonMarker;
    ShaderTools.InjectAfterTwice(fragmentShader, CommonMarker, g.fragmentDeclarations, g.lightDeclaration, k);
  }

  /** The caustics contribution sits immediately before the first `#include <output_fragment>` */
  lemma ContributionBeforeOutput(fragmentShader: string, g: CausticsGlsl, k: nat)
    requires ShaderTools.FirstAt(FragmentWithLightCapture(fragmentShader, g), OutputMarker, k) && Literal(g)
    ensures var lit := FragmentWithLightCapture(fragmentShader, g);
            CausticsFragment(fragmentShader, g)
            == lit[..k] + g.outputContribution + "\n" + OutputMarker + lit[k + |OutputMarker|..]
  {
    assert ShaderTools.ChunkMarker("output_fragment") == OutputMarker;
    ShaderTools.InjectBeforeFirst(FragmentWithLightCapture(fragmentShader, g), OutputMarker, g.outputContribution, k);
  }

  /** The varyings sit immediately after the first `#include <common>` of the vertex source */
  lemma VaryingsAfterCommon(vertexShader: string, g: CausticsGlsl, k: nat)
    requires ShaderTools.FirstAt(vertexShader, CommonMarker, k) && Literal(g)
    ensures VertexWithVaryings(vertexShader, g)
            == vertexShader[..k] + CommonMarker + "\n" + g.varyings + vertexShader[k + |CommonMarker|..]
  {
    ShaderTools.InjectAfterFirst(vertexShader, CommonMarker, g.varyings, k);
  }

  /** The world-position capture sits immediately after the first `#include <worldpos_vertex>` */
  lemma CaptureAfterWorldpos(vertexShader: string, g: CausticsGlsl, k: nat)
    requires ShaderTools.FirstAt(VertexWithVaryings(vertexShader, g), WorldposMarker, k) && Literal(g)
    ensures var v := VertexWithVaryings(vertexShader, g);
            CausticsVertex(vertexShader, g)
            == v[..k] + WorldposMarker + "\n" + g.worldPositionCapture + v[k + |WorldposMarker|..]
  {
    ShaderTools.InjectAfterFirst(VertexWithVaryings(vertexShader, g), WorldposMarker, g.worldPositionCapture, k);
  }

  /** A source without the output chunk gets no caustics contribution */
  lemma NoOutputChunkNoContribution(fragmentShader: string, g: CausticsGlsl)
    requires !ShaderTools.Contains(FragmentWithLightCapture(fragmentShader, g), OutputMarker)
    ensures CausticsFragment(fragmentShader, g) == FragmentWithLightCapture(fragmentShader, g)
  {
    assert ShaderTools.ChunkMarker("output_fragment") == OutputMarker;
    ShaderTools.ReplaceAbsent(FragmentWithLightCapture(fragmentShader, g), OutputMarker,
                              g.outputContribution + "\n" + OutputMarker);
  }

  // ---------------------------------------------------------------------
  // The per-frame closure
  // ---------------------------------------------------------------------

  /** What the closure adds to `uTime` on every call */
  const TimeStep: real := 1.0 / 60.0

  /**
   * `uCausticsCameraOrientation.value.set(me[0], me[1], me[2], me[4], ...)`:
   * `set` takes rows while `elements` holds columns, so the uniform is the
   * transpose of the camera's rotation block.
   */
  function CameraOrientation(me: seq<real>): (rows: seq<real>)
    requires |me| == 16
    ensures |rows| == 9
    ensures forall i :: 0 <= i < 9 ==> rows[i] == me[4 * (i / 3) + i % 3]
    ensures forall r: nat, c: nat :: r < 3 && c < 3 ==> Mat3Entry(rows, r, c) == Mat4Entry(me, c, r)
  {
    var rows := [me[0], me[1], me[2], me[4], me[5], me[6], me[8], me[9], me[10]];
    assert forall i :: 0 <= i < 9 ==> rows[i] == me[4 * (i / 3) + i % 3] by {
      assert rows[3] == me[4] && rows[6] == me[8];
    }
    rows
  }

  /** The values the closure reads from the on-screen controls on one frame */
  datatype CausticsTunables = CausticsTunables(
    scale: Vec3, scaleZ: real,
    timeScale: real, intensity: real,
    colorShift: Vec3, colorShiftW: real,
    normalAttenuation: real, lowerBound: real,
    shadowAttenuation: real)

  /**
   * The uniforms after one call of the closure, given the camera's world
   * matrix and the water transform it composed: `uTime` grows by exactly
   * 1/60 whatever the frame's time step, the transform uniforms are that
   * matrix and its inverse, the control values are copied in, and no
   * uniform is added or dropped.
   */
  function FrameUniforms(u: map<string, Uniform>, me: seq<real>, transform: Mat4, ui: CausticsTunables)
    : (r: map<string, Uniform>)
    requires Installed(u) && |me| == 16
    ensures Installed(r) && r.Keys == u.Keys
    ensures r["uTime"] == UNum(u["uTime"].n + TimeStep)
    ensures r["uCausticsCameraOrientation"] == UMat3(CameraOrientation(me))
    ensures r["uCausticsTransform"] == UMat4(transform)
    ensures r["uCausticsTransformInverse"] == UMat4(Inverse(transform))
    ensures r["uCausticsScale"] == UVec([ui.scale.x, ui.scale.y, ui.scaleZ])
    ensures r["uCausticsParams"].xs[..2] == [ui.timeScale, ui.intensity]
    ensures r["uCausticsParams"].xs[2..] == u["uCausticsParams"].xs[2..]
    ensures r["uCausticsColorShift"] == UVec([ui.colorShift.x, ui.colorShift.y, ui.colorShift.z, ui.colorShiftW])
    ensures r["uCausticsNormalAttenuation"] == UVec([ui.normalAttenuation, ui.lowerBound])
    ensures r["uCausticsShadowAttenuation"] == UNum(ui.shadowAttenuation)
    ensures r["uCausticsColor"] == u["uCausticsColor"]
    ensures forall k :: k in u && k !in FrameKeys ==> r[k] == u[k]
  {
    var params := u["uCausticsParams"].xs;
    u["uTime" := UNum(u["uTime"].n + TimeStep)]
     ["uCausticsCameraOrientation" := UMat3(CameraOrientation(me))]
     ["uCausticsTransform" := UMat4(transform)]
     ["uCausticsTransformInverse" := UMat4(Inverse(transform))]
     ["uCausticsScale" := UVec([ui.scale.x, ui.scale.y, ui.scaleZ])]
     ["uCausticsParams" := UVec([ui.timeScale, ui.intensity, params[2], params[3]])]
     ["uCausticsColorShift" := UVec([ui.colorShift.x, ui.colorShift.y, ui.colorShift.z, ui.colorShiftW])]
     ["uCausticsNormalAttenuation" := UVec([ui.normalAttenuation, ui.lowerBound])]
     ["uCausticsShadowAttenuation" := UNum(ui.shadowAttenuation)]
  }

  /** The uniforms the closure writes */
  const FrameKeys: set<string> := {
    "uTime", "uCausticsCameraOrientation", "uCausticsTransform", "uCausticsTransformInverse",
    "uCausticsScale", "uCausticsParams", "uCausticsColorShift", "uCausticsNormalAttenuation",
    "uCausticsShadowAttenuation"
  }

  /** The camera matrix, the composed water transform and the control values of one frame */
  datatype FrameSample = FrameSample(cameraWorld: seq<real>, transform: Mat4, ui: CausticsTunables)

  predicate SamplesWellFormed(frames: seq<FrameSample>) {
    forall i :: 0 <= i < |frames| ==> |frames[i].cameraWorld| == 16
  }

  /** The uniforms after the closure has run once per frame */
  function FramesUniforms(u: map<string, Uniform>, frames: seq<FrameSample>): (r: map<string, Uniform>)
    requires Installed(u) && SamplesWellFormed(frames)
    ensures Installed(r)
    decreases |frames|
  {
    if frames == [] then u
    else FramesUniforms(FrameUniforms(u, frames[0].cameraWorld, frames[0].transform, frames[0].ui), frames[1..])
  }

  /**
   * `uTime` counts calls of the closure, not seconds: after n frames it has
   * grown by n/60, whatever the frames' time steps.
   */
  lemma {:induction false} TimeCountsFrames(u: map<string, Uniform>, frames: seq<FrameSample>)
    requires Installed(u) && SamplesWellFormed(frames)
    ensures FramesUniforms(u, frames)["uTime"] == UNum(u["uTime"].n + |frames| as real * TimeStep)
    decreases |frames|
  {
    if frames != [] {
      var next := FrameUniforms(u, frames[0].cameraWorld, frames[0].transform, frames[0].ui);
      assert SamplesWellFormed(frames[1..]) by {
        forall i | 0 <= i < |frames[1..]| ensures |frames[1..][i].cameraWorld| == 16 {
          assert frames[1..][i] == frames[i + 1];
        }
      }
      TimeCountsFrames(next, frames[1..]);
    }
  }

  /** A recompile after any number of frames puts `uTime` back to 0 */
  lemma RecompileResetsTime(u: map<string, Uniform>, frames: seq<FrameSample>, causticsMap: nat)
    requires SamplesWellFormed(frames)
    ensures Installed(CompiledUniforms(u, causticsMap))
    ensures CompiledUniforms(FramesUniforms(CompiledUniforms(u, causticsMap), frames), causticsMap)["uTime"] == UNum(0.0)
  {
  }

  /** `waterTransform`: one object shared by every caustics material */
  class WaterTransform {
    var position: Vec3
    var velocity: Vec3
    var scale: Vec3
    var rotation: Euler
    var quaternion: Quat

    constructor ()
      ensures position == Vec3(0.0, 0.0, 0.0) && velocity == Vec3(0.15, 0.0, 0.0)
      ensures scale == Vec3(1.0, 1.0, 1.0) && rotation == Euler(0.0, 0.0, 0.0)
      ensures quaternion == IdentityQuat
    {
      position := Vec3(0.0, 0.0, 0.0);
      velocity := Vec3(0.15, 0.0, 0.0);
      scale := Vec3(1.0, 1.0, 1.0);
      rotation := Euler(0.0, 0.0, 0.0);
      quaternion := IdentityQuat;
    }
  }

  // ---------------------------------------------------------------------
  // The material
  // ---------------------------------------------------------------------

  class CausticsMaterial {
    /** `causticsPower`, which the POWER control reassigns */
    var power: real
    /** `causticsUseCameraOrientation`, which the USE_CAMERA_ORIENTATION control reassigns */
    var useCameraOrientation: bool
    /** The shader of the last compile; null until the first */
    var shader: Shader?
    /** `material.needsUpdate` */
    var needsUpdate: bool
    /** The identity of the material object */
    const materialId: nat
    /** The texture loaded for `uCausticsMap` */
    const causticsMap: nat

    ghost predicate Valid()
      reads this, shader
    {
      shader != null ==> Installed(shader.uniforms)
    }

    /** `createCausticsMaterial(parameters)`: absent parameters take their defaults */
    constructor (causticsPower: Option<real>, causticsUseCameraOrientation: Option<bool>,
                 materialId: nat, causticsMap: nat)
      ensures Valid()
      ensures power == causticsPower.GetOr(DefaultPower)
      ensures useCameraOrientation == causticsUseCameraOrientation.GetOr(DefaultUseCameraOrientation)
      ensures shader == null && !needsUpdate
      ensures this.materialId == materialId && this.causticsMap == causticsMap
    {
      power := causticsPower.GetOr(DefaultPower);
      useCameraOrientation := causticsUseCameraOrientation.GetOr(DefaultUseCameraOrientation);
      shader := null;
      needsUpdate := false;
      this.materialId := materialId;
      this.causticsMap := causticsMap;
    }

    /** Steps #1 to #3 of `onBeforeCompile`, in order, on the shader three.js passes in */
    method Patch(s: Shader, g: CausticsGlsl)
      modifies this`shader, s
      ensures shader == s && Valid()
      ensures s.defines == CompiledDefines(old(s.defines), power, useCameraOrientation)
      ensures s.uniforms == CompiledUniforms(old(s.uniforms), causticsMap)
      ensures s.vertexShader == CausticsVertex(old(s.vertexShader), g)
      ensures s.fragmentShader == CausticsFragment(old(s.fragmentShader), g)
    {
      shader := s;
      ghost var uniforms0, vertex0, fragment0 := s.uniforms, s.vertexShader, s.fragmentShader;
      PatchDefines(s);
      PatchUniforms(s);
      assert s.uniforms == CompiledUniforms(uniforms0, causticsMap);
      PatchVertex(s, g);
      PatchFragment(s, g);
      assert s.vertexShader == CausticsVertex(vertex0, g);
    }

    /** #1. defines */
    method PatchDefines(s: Shader)
      modifies s`defines
      ensures s.defines == CompiledDefines(old(s.defines), power, useCameraOrientation)
    {
      if PowerSupported(power) {
        s.defines := s.defines[PowerKey := Num(power)];
      } else {
        s.defines := s.defines - {PowerKey};
      }
      if useCameraOrientation {
        s.defines := s.defines[CameraOrientationKey := Str("")];
      } else {
        s.defines := s.defines - {CameraOrientationKey};
      }
    }

    /** #2. uniforms */
    method PatchUniforms(s: Shader)
      modifies s`uniforms
      ensures s.uniforms == CompiledUniforms(old(s.uniforms), causticsMap)
    {
      s.uniforms := s.uniforms + CausticsDefaults(causticsMap);
    }

    /** #3. program, vertex half */
    method PatchVertex(s: Shader, g: CausticsGlsl)
      modifies s`vertexShader
      ensures s.vertexShader == CausticsVertex(old(s.vertexShader), g)
    {
      s.vertexShader := ShaderTools.InjectAfter(s.vertexShader, CommonMarker, g.varyings);
      s.vertexShader := ShaderTools.InjectAfter(s.vertexShader, WorldposMarker, g.worldPositionCapture);
    }

    /** #3. program, fragment half */
    method PatchFragment(s: Shader, g: CausticsGlsl)
      modifies s`fragmentShader
      ensures s.fragmentShader == CausticsFragment(old(s.fragmentShader), g)
    {
      s.fragmentShader := ShaderTools.InjectAfter(s.fragmentShader, CommonMarker, g.fragmentDeclarations);
      s.fragmentShader := ShaderTools.InjectAfterChunk(s.fragmentShader, "common", g.lightDeclaration);
      s.fragmentShader := ShaderTools.InjectAfterChunk(s.fragmentShader, "lights_fragment_begin", g.lightBeforeCapture);
      s.fragmentShader := ShaderTools.InjectAfterChunk(s.fragmentShader, "lights_fragment_end", g.lightAfterCapture);
      s.fragmentShader := ShaderTools.InjectBeforeChunk(s.fragmentShader, "output_fragment", g.outputContribution);
    }

    /**
     * `onBeforeCompile` as written: after the patch it calls
     * `onBeforeRender(material, closure)`, and the stage's one-parameter
     * `onBeforeRender` registers the material object, not the closure.
     */
    method OnBeforeCompileAsWritten(s: Shader, g: CausticsGlsl, stage: CommonStage.Stage)
      requires stage.Valid()
      modifies this`shader, s, stage`registry
      ensures shader == s && Valid() && stage.Valid()
      ensures s.defines == CompiledDefines(old(s.defines), power, useCameraOrientation)
      ensures s.uniforms == CompiledUniforms(old(s.uniforms), causticsMap)
      ensures s.vertexShader == CausticsVertex(old(s.vertexShader), g)
      ensures s.fragmentShader == CausticsFragment(old(s.fragmentShader), g)
      ensures stage.registry == CommonStage.SetAdd(old(stage.registry), FrameClock.Object(materialId))
    {
      Patch(s, g);
      var _ := stage.OnBeforeRender(FrameClock.Object(materialId));
    }

    /**
     * `onBeforeCompile` with the closure registered, as `onBeforeRender(closure)`
     * would. Every compile creates a new arrow function, `closure`, which no
     * registration has seen yet, so every recompile registers one closure more.
     */
    method OnBeforeCompile(s: Shader, g: CausticsGlsl, stage: CommonStage.Stage, closure: nat)
      requires stage.Valid() && FrameClock.Function(closure) !in stage.registry
      modifies this`shader, s, stage`registry
      ensures shader == s && Valid() && stage.Valid()
      ensures s.defines == CompiledDefines(old(s.defines), power, useCameraOrientation)
      ensures s.uniforms == CompiledUniforms(old(s.uniforms), causticsMap)
      ensures s.vertexShader == CausticsVertex(old(s.vertexShader), g)
      ensures s.fragmentShader == CausticsFragment(old(s.fragmentShader), g)
      ensures stage.registry == old(stage.registry) + [FrameClock.Function(closure)]
      ensures |stage.registry| == |old(stage.registry)| + 1
    {
      Patch(s, g);
      var _ := stage.OnBeforeRender(FrameClock.Function(closure));
    }

    /**
     * The per-frame closure: nothing happens before the first compile;
     * afterwards the water moves by its velocity times the frame's time
     * step, its rotation is turned into a quaternion, and the uniforms are
     * updated from the camera, the new water transform and the controls.
     */
    method OnFrame(deltaTime: real, cameraWorld: seq<real>, ui: CausticsTunables, water: WaterTransform)
      requires Valid() && |cameraWorld| == 16
      modifies shader, water`position, water`quaternion
      ensures Valid()
      ensures shader == null ==> unchanged(water)
      ensures shader != null ==>
                && water.position == old(water.position).AddScaled(water.velocity, deltaTime)
                && water.quaternion == FromEuler(water.rotation)
                && shader.uniforms == FrameUniforms(old(shader.uniforms), cameraWorld,
                                                    Compose(water.position, water.quaternion, water.scale), ui)
                && shader.defines == old(shader.defines)
                && shader.vertexShader == old(shader.vertexShader)
                && shader.fragmentShader == old(shader.fragmentShader)
    {
      if shader != null {
        var u := shader.uniforms;
        u := u["uTime" := UNum(u["uTime"].n + TimeStep)];
        u := u["uCausticsCameraOrientation" := UMat3(CameraOrientation(cameraWorld))];

        water.position := water.position.AddScaled(water.velocity, deltaTime);
        water.quaternion := FromEuler(water.rotation);
        var transform := Compose(water.position, water.quaternion, water.scale);
        u := u["uCausticsTransform" := UMat4(transform)];
        u := u["uCausticsTransformInverse" := UMat4(Inverse(transform))];

        var params := u["uCausticsParams"].xs;
        u := u["uCausticsScale" := UVec([ui.scale.x, ui.scale.y, ui.scaleZ])];
        u := u["uCausticsParams" := UVec([ui.timeScale, ui.intensity, params[2], params[3]])];
        u := u["uCausticsColorShift" := UVec([ui.colorShift.x, ui.colorShift.y, ui.colorShift.z, ui.colorShiftW])];
        u := u["uCausticsNormalAttenuation" := UVec([ui.normalAttenuation, ui.lowerBound])];
        u := u["uCausticsShadowAttenuation" := UNum(ui.shadowAttenuation)];
        shader.uniforms := u;
      }
    }

    /**
     * The POWER control's handler: stores the value and forces a
     * recompile; `CAUSTICS_POWER` itself changes only on that recompile.
     */
    method OnPowerChange(value: real, random: real)
      requires Valid() && shader != null
      modifies this`power, this`needsUpdate, shader`defines
      ensures Valid()
      ensures power == value && needsUpdate && useCameraOrientation == old(useCameraOrientation)
      ensures shader.defines == old(shader.defines)[UpdateKey := Num(random)]
    {
      power := value;
      shader.defines := shader.defines[UpdateKey := Num(random)];
      needsUpdate := true;
    }

    /** The USE_CAMERA_ORIENTATION control's handler, the same way */
    method OnCameraOrientationChange(value: bool, random: real)
      requires Valid() && shader != null
      modifies this`useCameraOrientation, this`needsUpdate, shader`defines
      ensures Valid()
      ensures useCameraOrientation == value && needsUpdate && power == old(power)
      ensures shader.defines == old(shader.defines)[UpdateKey := Num(random)]
    {
      useCameraOrientation := value;
      shader.defines := shader.defines[UpdateKey := Num(random)];
      needsUpdate := true;
    }
  }

  /**
   * After a control change and the recompile it forces, the defines follow
   * the new setting, and the `update` value the handler wrote is kept.
   */
  lemma ControlChangeTakesEffect(defines: map<string, DefineValue>, value: real, flag: bool, random: real)
    ensures var r := CompiledDefines(defines[UpdateKey := Num(random)], value, flag);
            && (PowerKey in r <==> PowerSupported(value))
            && (CameraOrientationKey in r <==> flag)
            && UpdateKey in r && r[UpdateKey] == Num(random)
  {
  }

  // ---------------------------------------------------------------------
  // Registrations made at start-up
  // ---------------------------------------------------------------------

  /**
   * The registry when the loop starts, as written: `createWater` calls
   * `onBeforeRender(water, closure)` and `createPlasterObjects` calls
   * `onBeforeRender(geometry, closure)`, then `onBeforeRender(closure)` for
   * the cube. The materials register on their first compile, after the
   * first tick.
   */
  function StartupRegistry(water: nat, capsuleGeometry: nat, cubeClosure: nat): seq<FrameClock.Value> {
    CommonStage.SetAdd(CommonStage.SetAdd(CommonStage.SetAdd(
      [], FrameClock.Object(water)), FrameClock.Object(capsuleGeometry)), FrameClock.Function(cubeClosure))
  }

  /** As written, the animation loop stops after its first frame, whatever the scene does */
  lemma StartupHaltsAfterFirstFrame(water: nat, capsuleGeometry: nat, cubeClosure: nat,
                                    frames: seq<FrameClock.FrameInput>)
    requires water != capsuleGeometry && frames != []
    ensures StartupRegistry(water, capsuleGeometry, cubeClosure)
            == [FrameClock.Object(water), FrameClock.Object(capsuleGeometry), FrameClock.Function(cubeClosure)]
    ensures CommonStage.TicksRun(StartupRegistry(water, capsuleGeometry, cubeClosure), frames) == 1
  {
    var reg := StartupRegistry(water, capsuleGeometry, cubeClosure);
    assert CommonStage.SetAdd([], FrameClock.Object(water)) == [FrameClock.Object(water)];
    assert FrameClock.Object(capsuleGeometry) !in [FrameClock.Object(water)];
    assert CommonStage.SetAdd([FrameClock.Object(water)], FrameClock.Object(capsuleGeometry))
           == [FrameClock.Object(water), FrameClock.Object(capsuleGeometry)];
    assert FrameClock.Function(cubeClosure) !in [FrameClock.Object(water), FrameClock.Object(capsuleGeometry)];
    assert reg == [FrameClock.Object(water), FrameClock.Object(capsuleGeometry), FrameClock.Function(cubeClosure)];
    CommonStage.NonCallableEntryHalts(reg, frames, 0);
  }

  /** The registry with the closures registered instead of the objects */
  function IntendedStartupRegistry(waterClosure: nat, capsuleClosure: nat, cubeClosure: nat): seq<FrameClock.Value> {
    CommonStage.SetAdd(CommonStage.SetAdd(CommonStage.SetAdd(
      [], FrameClock.Function(waterClosure)), FrameClock.Function(capsuleClosure)), FrameClock.Function(cubeClosure))
  }

  /** With the closures registered, the loop runs on every frame as long as no hook throws */
  lemma {:induction false} IntendedStartupKeepsRunning(waterClosure: nat, capsuleClosure: nat, cubeClosure: nat,
                                    frames: seq<FrameClock.FrameInput>)
    requires forall j :: 0 <= j < |frames| ==>
               && !FrameClock.CallInOrder(frames[j].nodes, frames[j].failing, true).threw
               && waterClosure !in frames[j].failing
               && capsuleClosure !in frames[j].failing
               && cubeClosure !in frames[j].failing
    ensures CommonStage.TicksRun(IntendedStartupRegistry(waterClosure, capsuleClosure, cubeClosure), frames) == |frames|
  {
    var reg := IntendedStartupRegistry(waterClosure, capsuleClosure, cubeClosure);
    assert forall i :: 0 <= i < |reg| ==>
             reg[i] == FrameClock.Function(waterClosure) || reg[i] == FrameClock.Function(capsuleClosure)
             || reg[i] == FrameClock.Function(cubeClosure);
    forall j | 0 <= j < |frames|
      ensures !CommonStage.AnimateDispatch(frames[j].nodes, reg, frames[j].failing).threw
    {
      FrameClock.CallInOrderSpec(reg, frames[j].failing, false);
      CommonStage.PresentAll(reg);
    }
    CommonStage.NoThrowKeepsRunning(reg, frames);
  }
}
