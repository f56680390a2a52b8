# Shader patching and frame loops of the three.js sketches

This project models the sequential core of a set of three.js demo sketches
and proves properties of it. The core has three parts.

- **The shader text patcher.** `shaderTools` in `common/three/utils.js` and
  its copy in `threejs/wind/setup/utils-shader.js` rewrite GLSL source text.
  Each rewrite is one `String.prototype.replace` with a string pattern, as
  described in section 22.1.3.19 of ECMA-262. The model follows that
  algorithm, including its first-occurrence search (StringIndexOf) and the
  `$` patterns of GetSubstitution. `shaderTools.replace` uses a global
  `RegExp`; the model covers it for literal patterns only.
- **The frame loops.** `common/three/stage.js` keeps the clock state
  (`time`, `deltaTime`, `frame`, `oldMs`) and an insertion-ordered,
  de-duplicating `Set` of `onBeforeRender` callbacks. Its `animate` tick
  runs every hook inside a `try` and stops the loop on the first exception.
  The two wind stages instead request the next frame before they dispatch,
  so an exception costs only the render of that frame.
- **The material recipes.** `threejs/caustics/main.js` and
  `threejs/wind/main.js` each patch a physical material's shader when it is
  compiled: they select defines, install uniform defaults and inject text in
  a fixed order. Their per-frame hooks advance `uTime` and, for the
  caustics, the shared water transform. The wind recipe also has a loop that
  writes one matrix per foliage instance.

Modules, one file each:

- `ShaderTools` models `common/three/utils.js`.
- `WindShaderUtils` models `threejs/wind/setup/utils-shader.js`.
- `FrameClock` holds what the three loops share: the clamped time step and
  in-order hook dispatch.
- `CommonStage` models `common/three/stage.js`.
- `WindStage` models both wind stage files. They are textually the same
  loop, so one class models both.
- `ThreeModel` holds the three.js values: vectors, uninterpreted matrices
  and the `Shader` object.
- `Caustics` and `WindFoliage` model the two recipes.
- `Wrappers` holds the optional-value datatype.

Hook values are `Undefined`, `Function(id)` or `Object(id)`. Calling one
throws if it is not a function, or if its id is in the frame's `failing`
set. That set is a parameter.

Points where the code behaves differently from what one might expect:

- **The first tick is not a baseline.** `oldMs` starts at -1, so ticks at 0,
  10 and 40 ms take steps of 0.001, 0.01 and 0.03 s, and `frame` is 3
  afterwards (`FrameClock.FirstTicksExample`).
- **Only the common loop is fail-stop.** It requests the next frame as the
  last statement of its `try`, after all hooks have run.
- **A recompile resets `uTime`.** Every compile reinstalls the uniforms with
  `uTime = 0` (`Caustics.RecompileResetsTime`).
- **The camera orientation is recomputed on every frame.** This happens
  whether or not `CAUSTICS_USE_CAMERA_ORIENTATION` is on.

## Model

| member | source | states |
|---|---|---|
| `ShaderTools.Substitute` | common/three/utils.js:34 | GetSubstitution for a match without capture groups, as section 22.1.3.19 of ECMA-262 defines it for `replace`. `SubstituteLiteral` states what it does on the texts used here. |
| `ShaderTools.Replace` | common/three/utils.js:34 | Definition of `replace` with a string pattern: the first occurrence that `IndexOf` finds is rewritten. `ReplaceFirst` and `ReplaceAbsent` state its properties. |
| `ShaderTools.InjectBefore` | common/three/utils.js:33-35 | Definition of `injectBefore`. Its shape is stated by `InjectBeforeFirst`. |
| `ShaderTools.InjectAfter` | common/three/utils.js:53-55 | Definition of `injectAfter`. Its shape is stated by `InjectAfterFirst`. |
| `ShaderTools.InjectBeforeChunk` | common/three/utils.js:43-45 | Definition of `injectBeforeChunk` through `injectBefore`. Its shape is stated by `InjectBeforeChunkFirst`. |
| `ShaderTools.InjectAfterChunk` | common/three/utils.js:63-65 | Definition of `injectAfterChunk` through `injectAfter`. Its shape is stated by `InjectAfterChunkFirst`. |
| `ShaderTools.ReplaceAllFrom` | common/three/utils.js:74 | The scan of a global `replace`: search from `lastIndex`, copy from `nextPos`, and step one further after an empty match. `ReplaceAllFromIsJoin` and `ReplaceAllEmptyFrom` state what it computes. |
| `ShaderTools.ReplaceAll` | common/three/utils.js:73-75 | Definition of `shaderTools.replace` for a literal pattern. `ReplaceAllLiteral`, `ReplaceAllEmpty` and `ReplaceAllAbsent` state its properties. |
| `ShaderTools.IndexOf` | common/three/utils.js:34 | The result is the least index at or after `from` where the pattern occurs; None means there is no such index. |
| `ShaderTools.SubstituteLiteral` | common/three/utils.js:34 | A replacement text with no `$` is inserted exactly as written. |
| `ShaderTools.ReplaceFirst` | common/three/utils.js:54 | A string-pattern `replace` rewrites only the first occurrence and keeps the text before and after it. |
| `ShaderTools.ReplaceAbsent` | common/three/utils.js:34 | With the pattern absent, `replace` returns the source unchanged. |
| `ShaderTools.InjectBeforeFirst` | common/three/utils.js:33-35 | `injectBefore` gives prefix + code + newline + pattern + suffix around the first occurrence. The length grows by the code's length plus one. |
| `ShaderTools.InjectAfterFirst` | common/three/utils.js:53-55 | `injectAfter` gives prefix + pattern + newline + code + suffix around the first occurrence. The length grows by the code's length plus one. |
| `ShaderTools.InjectIdentityIffAbsent` | common/three/utils.js:33-55 | Each injection returns the source unchanged if and only if the pattern does not occur in it. Both directions are proved. |
| `ShaderTools.InjectKeepsLaterOccurrences` | common/three/utils.js:33-55 | Every later occurrence that does not overlap the first one survives an injection, shifted by the inserted length. An overlapping occurrence need not survive. |
| `ShaderTools.InjectBeforeKeepsMarker` | common/three/utils.js:33-35 | After `injectBefore` the marker still occurs, right after the inserted code, so a second injection finds it. |
| `ShaderTools.InjectAfterKeepsFirst` | common/three/utils.js:53-55 | After `injectAfter` the marker's first occurrence is still at the same index. |
| `ShaderTools.InjectAfterTwice` | common/three/utils.js:53-55 | Two `injectAfter` calls at one marker put the later code nearer the marker. |
| `ShaderTools.InjectBeforeChunkFirst` | common/three/utils.js:43-45 | `injectBeforeChunk` is `injectBefore` at `#include <name>`, with the same shape. |
| `ShaderTools.InjectAfterChunkFirst` | common/three/utils.js:63-65 | `injectAfterChunk` is `injectAfter` at `#include <name>`, with the same shape. |
| `ShaderTools.ReplaceAllFromIsJoin` | common/three/utils.js:74 | For a non-empty pattern, from any start position, the global scan equals splitting the rest of the source at the pattern and joining the pieces with the new code. |
| `ShaderTools.ReplaceAllLiteral` | common/three/utils.js:73-75 | For a non-empty literal pattern, `replace` splits the source into pattern-free pieces, left to right, that rejoin to the source, and puts the new code between them. Every non-overlapping occurrence is replaced. |
| `ShaderTools.ReplaceAllAbsent` | common/three/utils.js:73-75 | With no occurrence, `replace` is the identity. |
| `ShaderTools.ReplaceAllEmptyFrom` | common/three/utils.js:74 | After an empty match at i, the global scan with the empty pattern gives the rest of the text with the new code after each character. |
| `ShaderTools.ReplaceAllEmpty` | common/three/utils.js:73-75 | With the empty pattern, which is literal, `replace` puts the new code in front of every character and once more at the end. The length grows by the code's length times one more than the text's length. |
| `ShaderTools.FollowEachLength` | common/three/utils.js:74 | Following each of n characters with the code gives n times (1 + the code's length) characters. |
| `WindShaderUtils.InjectBefore` | threejs/wind/setup/utils-shader.js:2-4 | It equals `shaderTools.injectBefore` on every input. |
| `WindShaderUtils.InjectAfter` | threejs/wind/setup/utils-shader.js:6-8 | It equals `shaderTools.injectAfter` on every input. |
| `WindShaderUtils.InjectBeforePlacement` | threejs/wind/setup/utils-shader.js:3 | The code and a newline sit immediately before the first occurrence. |
| `WindShaderUtils.InjectAfterPlacement` | threejs/wind/setup/utils-shader.js:7 | A newline and the code sit immediately after the first occurrence. |
| `WindShaderUtils.AbsentIsIdentity` | threejs/wind/setup/utils-shader.js:2-8 | With the pattern absent, both functions return the source. |
| `FrameClock.DeltaTime` | common/three/stage.js:41-73 | The step never exceeds 1/20 s. It equals the elapsed time exactly when that is at most 1/20 s, and is 1/20 s otherwise. An earlier timestamp gives a negative step, because there is no lower clamp. |
| `FrameClock.Advance` | common/three/stage.js:73-78 | Definition of one tick's update: the clamped step is stored as `deltaTime` and added to `time`, and `frame` grows by one. `TicksAccumulate` states what a run of them does. |
| `FrameClock.TicksAccumulate` | common/three/stage.js:73-78 | Over any run of ticks, `time` grows by the sum of the clamped steps, every step is at most 1/20 s, `frame` counts the ticks, and `deltaTime` is the last step. |
| `FrameClock.FirstTicksExample` | common/three/stage.js:70-78 | Ticks at 0, 10 and 40 ms after `oldMs = -1` take steps 0.001, 0.01 and 0.03 s, ending at time 0.041 and frame 3. |
| `FrameClock.TicksSnoc` | common/three/stage.js:71-78 | One more tick after a run advances the state the run left, measured from the run's last timestamp. |
| `FrameClock.CallInOrder` | common/three/stage.js:82-88 | Definition of in-order dispatch: call each hook in turn and stop at the first throw, skipping Undefined hooks when the call is optional. `CallInOrderSpec` states its properties. |
| `FrameClock.Present` | threejs/wind/setup/stage.js:64-66 | The hooks that are called when none throws. `PresentSkipsUndefined`, `PresentInOrder` and `PresentAll` state what it keeps. |
| `FrameClock.CallInOrderSpec` | common/three/stage.js:82-88 | If nothing throws, every present hook is called in order and none fails. If something throws, the calls are a prefix of the hooks that ends at the first failing one, and the rest are skipped. |
| `FrameClock.PresentSkipsUndefined` | threejs/wind/setup/stage.js:64-66 | `hook?.()` skips exactly the absent hooks: no Undefined is left, and every other hook stays as often as it occurs. |
| `FrameClock.PresentInOrder` | threejs/wind/setup/stage.js:64-66 | The present hooks keep their order: they are the hooks at a strictly increasing run of positions, and that run holds every position that is not Undefined. |
| `FrameClock.CallHooks` | common/three/stage.js:86-88 | The dispatch loop makes the same calls, with the same throw outcome, as the in-order specification, and hands each hook the state it was given. |
| `CommonStage.SetAdd` | common/three/stage.js:65 | Definition of `Set.prototype.add` on the registry in insertion order. `SetAddSpec` states its properties. |
| `CommonStage.SetDelete` | common/three/stage.js:66 | Definition of `Set.prototype.delete`. `SetDeleteAt`, `SetDeleteAbsent` and `SetDeleteSpec` state its properties. |
| `CommonStage.SetAddSpec` | common/three/stage.js:58-65 | `add` keeps the registry free of duplicates and appends a new callback last. Adding twice equals adding once. Membership is the old set plus the callback. |
| `CommonStage.SetDeleteAt` | common/three/stage.js:66 | `delete` cuts out exactly that one entry and keeps the rest in order. |
| `CommonStage.SetDeleteAbsent` | common/three/stage.js:66 | Deleting an unregistered value changes nothing. |
| `CommonStage.DestroyUndoesAdd` | common/three/stage.js:64-67 | `destroy()` after registering a new callback restores the registry exactly. |
| `CommonStage.SetDeleteSpec` | common/three/stage.js:66 | `delete` keeps the registry free of duplicates and removes exactly that value. |
| `CommonStage.AnimateDispatch` | common/three/stage.js:80-88 | Definition of one tick's dispatch: the scene's optional node hooks, then the registry's callbacks, which are always called. `NodesBeforeRegistry` and `NonCallableEntryThrows` state its properties. |
| `CommonStage.TicksRun` | common/three/stage.js:80-99 | How many frames run `animate` when a tick that throws requests no further frame. `FailStop` and `NoThrowKeepsRunning` state its properties. |
| `CommonStage.NodesBeforeRegistry` | common/three/stage.js:82-88 | If no scene-node hook throws, every node hook is called before any registered callback. |
| `CommonStage.NonCallableEntryThrows` | common/three/stage.js:86-88 | A registry entry that is not a function makes every tick throw. |
| `CommonStage.FailStop` | common/three/stage.js:80-94 | The first tick that throws is the last tick that runs. |
| `CommonStage.NoThrowKeepsRunning` | common/three/stage.js:80-90 | Without a throw, the loop runs on every frame. |
| `CommonStage.NonCallableEntryHalts` | common/three/stage.js:64-94 | With a non-callable entry registered, the loop stops after its first frame. |
| `CommonStage.Stage.constructor` | common/three/stage.js:51-58 | The initial state is zero time, `deltaTime` and `frame`, `oldMs = -1`, an empty registry and the first frame requested. |
| `CommonStage.Stage.OnBeforeRender` | common/three/stage.js:64-68 | Only the single argument is added, with set semantics, and a handle for it is returned. |
| `CommonStage.Stage.Destroy` | common/three/stage.js:66 | The handle's value is deleted and nothing else changes. The result says whether the value was present. |
| `CommonStage.Stage.Tick` | common/three/stage.js:71-97 | The clock advances before any hook runs: every call is handed the advanced time state. The node hooks are dispatched, then the registry. The next frame is requested exactly when nothing threw. The frame is rendered either way. |
| `CommonStage.Stage.Run` | common/three/stage.js:90-99 | Over a sequence of display frames, `animate` runs while a frame is requested. The number of ticks is `TicksRun`, the fail-stop count, and the clock is that of those ticks. The loop is still requested at the end exactly when every frame ran and the last one did not throw. |
| `WindStage.OnUpdateOncePerNode` | threejs/wind/stage/stage.js:49-51 | In a tick without a throw, `onUpdate` is called exactly on the nodes that have one, once each. The calls follow a strictly increasing run of node positions, so they are in traversal order. |
| `WindStage.Stage.constructor` | threejs/wind/setup/stage.js:43-51 | The initial state is zero time, `deltaTime` and `frame`, `oldMs = -1` and the first frame requested. |
| `WindStage.Stage.Tick` | threejs/wind/setup/stage.js:52-69 | The clock advances and the next frame is requested before the hooks run, and every call is handed the advanced time state. The render happens only if no hook threw. |
| `WindStage.Stage.Run` | threejs/wind/setup/stage.js:52-71 | Over a sequence of display frames, `animate` runs while a frame is requested, and every frame is reached. Frame i is rendered exactly when none of its hooks threw. The clock is that of all the ticks, and a frame is still requested at the end. |
| `Caustics.CompiledDefines` | threejs/caustics/main.js:51-61 | `CAUSTICS_POWER` is present, with value p, exactly when 2 ≤ p ≤ 6. The camera flag is `''` exactly when it is on. Both directions are proved, and no other key is touched. |
| `Caustics.LastCompileWins` | threejs/caustics/main.js:50-61 | The defines after a compile depend only on the current settings, not on an earlier compile. |
| `Caustics.PowerControlValues` | threejs/caustics/main.js:273 | Of the control's values 1 to 6, only 1 compiles without `CAUSTICS_POWER`. |
| `Caustics.CompiledUniforms` | threejs/caustics/main.js:64-76 | Every recipe uniform holds its listed default, including `uTime = 0`. Other uniforms are kept. |
| `Caustics.RecompileResetsTime` | threejs/caustics/main.js:64 | A recompile after any number of frames puts `uTime` back to 0. |
| `Caustics.VertexWithVaryings` | threejs/caustics/main.js:79-88 | Definition of the first vertex injection. `VaryingsAfterCommon` states where the text lands. |
| `Caustics.CausticsVertex` | threejs/caustics/main.js:79-99 | Definition of the patched vertex shader: both injections in source order. `VaryingsAfterCommon` and `CaptureAfterWorldpos` state where the texts land. |
| `Caustics.FragmentWithDeclarations` | threejs/caustics/main.js:101-204 | Definition of the first two fragment injections. `DeclarationOrder` states their layout. |
| `Caustics.FragmentWithLightCapture` | threejs/caustics/main.js:208-213 | Definition of the two light-capture injections after the lighting chunks. |
| `Caustics.CausticsFragment` | threejs/caustics/main.js:101-222 | Definition of the patched fragment shader: the five injections in source order. `DeclarationOrder`, `ContributionBeforeOutput` and `NoOutputChunkNoContribution` state its properties. |
| `Caustics.VaryingsAfterCommon` | threejs/caustics/main.js:79-88 | The vertex varyings sit immediately after the first `#include <common>`. |
| `Caustics.CaptureAfterWorldpos` | threejs/caustics/main.js:90-99 | The world-position capture sits immediately after the first `#include <worldpos_vertex>`. |
| `Caustics.DeclarationOrder` | threejs/caustics/main.js:101-204 | The light variables land right after `#include <common>`, ahead of the uniform block that was injected before them. |
| `Caustics.ContributionBeforeOutput` | threejs/caustics/main.js:214-222 | The caustics contribution and a newline sit immediately before the first `#include <output_fragment>`. |
| `Caustics.NoOutputChunkNoContribution` | threejs/caustics/main.js:214-216 | A source without the output chunk gets no contribution. |
| `Caustics.CameraOrientation` | threejs/caustics/main.js:240-244 | The uniform takes world-matrix entries 0, 1, 2, 4, 5, 6, 8, 9 and 10 in that order: entry i is `me[4*(i/3) + i%3]`. Because `set` is row-major and `elements` is column-major, the result is the transpose of the camera's rotation block. |
| `Caustics.FrameUniforms` | threejs/caustics/main.js:226-264 | See the note below the table. |
| `Caustics.TimeCountsFrames` | threejs/caustics/main.js:239 | After n frames, `uTime` has grown by n/60, whatever the frames' time steps. |
| `Caustics.WaterTransform.constructor` | threejs/caustics/main.js:8-14 | The initial water transform is position 0, velocity (0.15, 0, 0), scale 1, zero rotation and the identity quaternion. |
| `Caustics.CausticsMaterial.constructor` | threejs/caustics/main.js:39-46 | An absent power defaults to 2 and an absent flag to false. There is no shader yet. |
| `Caustics.CausticsMaterial.Patch` | threejs/caustics/main.js:47-222 | The shader's defines, uniforms, vertex text and fragment text become exactly steps #1 to #3 applied to what three.js passed in. |
| `Caustics.CausticsMaterial.PatchDefines` | threejs/caustics/main.js:51-61 | The defines become `CompiledDefines` of the old defines. |
| `Caustics.CausticsMaterial.PatchUniforms` | threejs/caustics/main.js:64-76 | The uniforms become `CompiledUniforms` of the old uniforms. |
| `Caustics.CausticsMaterial.PatchVertex` | threejs/caustics/main.js:79-99 | There are two vertex injections, in source order. |
| `Caustics.CausticsMaterial.PatchFragment` | threejs/caustics/main.js:101-222 | There are five fragment injections, in source order. |
| `Caustics.CausticsMaterial.OnBeforeCompileAsWritten` | threejs/caustics/main.js:224 | After the patch, it registers the material object itself in the common loop's registry. |
| `Caustics.CausticsMaterial.OnBeforeCompile` | threejs/caustics/main.js:224-270 | After the patch, it registers the new per-frame closure of this compile. This is the corrected registration. Each compile's closure is a new function, so every recompile adds one more registry entry. |
| `Caustics.CausticsMaterial.OnFrame` | threejs/caustics/main.js:224-270 | See the note below the table. |
| `Caustics.CausticsMaterial.OnPowerChange` | threejs/caustics/main.js:273-277 | It stores the value, writes `defines.update` and sets `needsUpdate`, without touching the power define itself. |
| `Caustics.CausticsMaterial.OnCameraOrientationChange` | threejs/caustics/main.js:279-283 | This handler behaves the same way for the camera flag. |
| `Caustics.ControlChangeTakesEffect` | threejs/caustics/main.js:273-283 | After a change and the recompile it forces, the defines follow the new setting and the `update` key survives. |
| `Caustics.StartupHaltsAfterFirstFrame` | threejs/caustics/main.js:341-395 | The start-up registry is exactly [water object, geometry object, cube closure]. As written, the loop therefore runs one frame. |
| `Caustics.IntendedStartupKeepsRunning` | threejs/caustics/main.js:351-354 | With closures registered instead, the loop runs on every frame as long as no hook throws. |
| `WindFoliage.CompiledUniforms` | threejs/wind/main.js:42-50 | `uTime` is 0 and every wind uniform holds its listed default. Other uniforms are kept. |
| `WindFoliage.CompiledDefines` | threejs/wind/main.js:51 | `WIND_OCTAVES` is 4 and the other defines are unchanged. |
| `WindFoliage.VertexWithDeclarations` | threejs/wind/main.js:52-62 | Definition of the first vertex step, the uniform block before `#include <common>`. `DeclarationsBeforeCommon` states its shape. |
| `WindFoliage.FoliageVertex` | threejs/wind/main.js:52-95 | Definition of the patched vertex shader: the uniform block, then the projection in place of `#include <project_vertex>`. `ProjectionReplacesMarker` and `NoProjectVertexKeepsSource` state its properties. |
| `WindFoliage.DeclarationsBeforeCommon` | threejs/wind/main.js:52-62 | The uniform block and a newline sit immediately before the first `#include <common>`. |
| `WindFoliage.ProjectionReplacesMarker` | threejs/wind/main.js:64-95 | The first `#include <project_vertex>` is replaced by the projection, not kept, and the length changes by the difference. |
| `WindFoliage.NoProjectVertexKeepsSource` | threejs/wind/main.js:64 | Without that chunk, the replace step changes nothing. |
| `WindFoliage.RenderUniforms` | threejs/wind/main.js:100-111 | `uTime` grows by exactly 1/60. The six tunables take the control values. Every other uniform is kept, and no key is added or dropped. |
| `WindFoliage.TimeCountsRenders` | threejs/wind/main.js:103 | After n render calls, `uTime` has grown by n/60. |
| `WindFoliage.FoliageMaterial.constructor` | threejs/wind/main.js:39 | There is no shader before the first compile. |
| `WindFoliage.FoliageMaterial.OnBeforeCompile` | threejs/wind/main.js:40-96 | The uniforms, defines and vertex text become the compiled forms, and the fragment text is untouched. |
| `WindFoliage.FoliageMaterial.OnBeforeRender` | threejs/wind/main.js:100-111 | The hook does nothing before the first compile. Afterwards it updates exactly the uniforms, by one time step. |
| `WindFoliage.InstancedMesh.constructor` | threejs/wind/main.js:98 | The mesh has `count` instances, each at the identity matrix. |
| `WindFoliage.InstancedMesh.SetMatrixAt` | threejs/wind/main.js:129 | Only that one instance's matrix changes. |
| `WindFoliage.MatrixFor` | threejs/wind/main.js:123-129 | The matrix written for an index: the reset placement, passed through the callback with the state its earlier calls left, then composed. `InitInstances` states that the loop writes it. |
| `WindFoliage.InitInstances` | threejs/wind/main.js:118-130 | Each index in 0..count-1 is written once, in increasing order. Matrix i is composed from the callback's placement for index i, starting from the reset placement, so no placement leaks between instances. |
| `WindFoliage.CreateInstancedFoliage` | threejs/wind/main.js:6-133 | The count defaults to 10. The material is fresh and not yet compiled. Every instance matrix is written by the loop. |

Two rows are too long for the table:

- **`Caustics.FrameUniforms`** keeps every uniform the closure expects. No key is added or dropped. `uTime` grows by exactly 1/60. The orientation uniform is the transposed rotation block. The transform uniforms hold the water matrix and its inverse. The control values are copied in: the scale, `params.x` and `params.y` (time scale and intensity), the colour shift, the normal attenuation and the shadow attenuation. `params.z` and `params.w` are kept, and so is every uniform the closure does not write.
- **`Caustics.CausticsMaterial.OnFrame`** does nothing before the first compile. Afterwards:
  - the water position moves by velocity × the frame's `deltaTime`;
  - the quaternion is re-derived from the Euler angles;
  - the uniforms are `FrameUniforms` of the camera matrix, the new water matrix and the control values;
  - the defines and the shader text are unchanged.

## Left out

- **The on-screen control library.** Its `range`, `vector`, `toggle` and `group` calls are not modelled. Each value they return is a parameter (`CausticsTunables`, `WindTunables`, the handlers' `value`). The listeners that `onUserChange` keeps, and the water-transform controls of `threejs/caustics/main.js:16-27`, are not modelled.
- **three.js math.** `Matrix4.compose` and `invert`, and `Quaternion.setFromEuler`, are uninterpreted constructors. A `Matrix3` is kept as the nine arguments of its `set` call. Euler rotation orders are not modelled.
- **GLSL bodies.** The injected GLSL texts are parameters. The lemmas assume they contain no `$`, which is true of the texts in the source.
- **`ShaderTools.ReplaceAll`** is modelled only for patterns without regular-expression metacharacters. A general `RegExp` source is not.
- **The browser.**
  - `requestAnimationFrame` is the `scheduled` flag.
  - `renderer.render` is the `rendered` result.
  - The following are not modelled: resizing, the texture and environment loaders, `console.error` and `Object.assign(window, …)`.
- **Scene traversal.** The traversal order of `scene.traverse` is an input, the list of node hooks. Hooks are callable or not; what a callable hook does is not modelled beyond whether it throws.
- **Registry changes during dispatch.** A callback that adds or deletes registry entries while the registry is being iterated is not modelled.
- **The `renderState.camera` field.** It is not modelled. `OnFrame` takes the camera's world matrix as a parameter.
- **Numbers.** JavaScript doubles are modelled as exact reals: there is no rounding and no NaN. `causticsPower` is modelled as a number.
- **Randomness.** `Math.random()` in the control handlers is a parameter.
- **The foliage placement callback.** `createFoliage`'s callback uses `seededRandom`. It is modelled as a callback with its own threaded state, not as that generator.
- **Start-up glue.** The bodies of the rotating-mesh and water-visibility closures (`threejs/caustics/main.js:341-343,395-399`) are not modelled, and neither are the scene set-up functions of both sketches.
- `Caustics.CausticsMaterial.OnBeforeCompile` states that every recompile adds one more closure to the registry. The model does not follow registry entries back to the closures they stand for. So it has no lemma that k registered closures advance `uTime` by k/60, and move the water k times, per frame. `Caustics.TimeCountsFrames` gives the growth per closure call.
- **The shared water transform.** Four materials share one `waterTransform`; the model describes one closure call at a time. It does not state how an intended registration of all four closures would advance the water four times per frame.
- **Fragment layout.** `Caustics.DeclarationOrder`, `ContributionBeforeOutput` and `CaptureAfterWorldpos` are stated against the text each step receives, not as one layout of the whole final source. Across different markers, that layout would depend on where the markers first occur.

## Findings

| source | as written | input that shows it | evidently intended | confidence | as-written member | corrected member |
|---|---|---|---|---|---|---|
| threejs/caustics/main.js:224 | `onBeforeRender(material, closure)` passes two arguments, and so do lines 341 and 395. The stage's `onBeforeRender` (common/three/stage.js:64) keeps only the first, an object, so `cb(renderState)` throws a TypeError. | The first frame after start-up: the registry is [water, geometry, cube closure] and its first entry is not callable. The loop logs the error and never requests another frame. | Register the closure, as line 351 does: `onBeforeRender(closure)` | not executed | `Caustics.StartupHaltsAfterFirstFrame` | `Caustics.IntendedStartupKeepsRunning` |
