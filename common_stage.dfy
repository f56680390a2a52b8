/**
 * The animation loop of `common/three/stage.js`: the module-level
 * `renderState` and `oldMs`, the `onBeforeRender` registry (a JavaScript
 * `Set` of callbacks with a `destroy` handle per registration) and the
 * `animate` tick, which dispatches inside a `try` and renews its
 * `requestAnimationFrame` request only when no hook threw.
 *
 * The scene is given to a tick as the list of its nodes' `onBeforeRender`
 * values in traversal order; the renderer, the camera and the browser's
 * frame scheduling are not modelled beyond the `scheduled` flag.
 */
module CommonStage {
  import opened FrameClock

  /** No value is in the registry twice */
  ghost predicate Distinct(s: seq<Value>) {
    forall i, j :: 0 <= i < j < |s| ==> s[i] != s[j]
  }

  /** `Set.prototype.add`: a new value goes last, a present one changes nothing */
  function SetAdd(s: seq<Value>, v: Value): seq<Value> {
    if v in s then s else s + [v]
  }

  /** `Set.prototype.delete` */
  function SetDelete(s: seq<Value>, v: Value): seq<Value>
    decreases |s|
  {
    if s == [] then []
    else if s[0] == v then SetDelete(s[1..], v)
    else [s[0]] + SetDelete(s[1..], v)
  }

  /**
   * Registering keeps the registry free of duplicates, appends a new
   * callback after all earlier ones, and registering it again has no
   * further effect.
   */
  lemma SetAddSpec(s: seq<Value>, v: Value)
    requires Distinct(s)
    ensures Distinct(SetAdd(s, v))
    ensures SetAdd(SetAdd(s, v), v) == SetAdd(s, v)
    ensures forall x :: x in SetAdd(s, v) <==> x in s || x == v
    ensures v !in s ==> SetAdd(s, v) == s + [v]
    ensures v in s ==> SetAdd(s, v) == s
  {
  }

  /** Deleting is the registry with that one entry cut out, the rest in order */
  lemma {:induction false} SetDeleteAt(s: seq<Value>, v: Value, i: nat)
    requires Distinct(s) && i < |s| && s[i] == v
    ensures SetDelete(s, v) == s[..i] + s[i + 1..]
    decreases |s|
  {
    if i > 0 {
      assert s[0] != v;
      SetDeleteAt(s[1..], v, i - 1);
      assert s[1..][..i - 1] + s[1..][i..] == s[1..i] + s[i + 1..];
      assert [s[0]] + s[1..i] == s[..i];
    } else {
      assert v !in s[1..] by {
        forall j | 0 <= j < |s[1..]| ensures s[1..][j] != v {
          assert s[1..][j] == s[j + 1];
        }
      }
      SetDeleteAbsent(s[1..], v);
    }
  }

  /** Deleting a value that is not registered changes nothing */
  lemma {:induction false} SetDeleteAbsent(s: seq<Value>, v: Value)
    requires v !in s
    ensures SetDelete(s, v) == s
    decreases |s|
  {
    if s != [] {
      assert v !in s[1..];
      SetDeleteAbsent(s[1..], v);
      assert [s[0]] + s[1..] == s;
    }
  }

  /** `destroy()` undoes the registration of a callback that was not yet registered */
  lemma DestroyUndoesAdd(s: seq<Value>, v: Value)
    requires Distinct(s) && v !in s
    ensures SetDelete(SetAdd(s, v), v) == s
  {
    SetAddSpec(s, v);
    SetDeleteAt(s + [v], v, |s|);
    assert (s + [v])[..|s|] == s;
  }

  /** Cutting one entry out keeps the rest free of duplicates */
  lemma CutDistinct(s: seq<Value>, i: nat)
    requires Distinct(s) && i < |s|
    ensures Distinct(s[..i] + s[i + 1..])
  {
    var r := s[..i] + s[i + 1..];
    forall a, b | 0 <= a < b < |r| ensures r[a] != r[b] {
      var a', b' := if a < i then a else a + 1, if b < i then b else b + 1;
      assert r[a] == s[a'] && r[b] == s[b'];
    }
  }

  /** Cutting entry i out leaves exactly the other values */
  lemma CutMembers(s: seq<Value>, i: nat)
    requires Distinct(s) && i < |s|
    ensures forall x :: x in s[..i] + s[i + 1..] <==> x in s && x != s[i]
  {
    var r := s[..i] + s[i + 1..];
    forall x ensures x in r <==> x in s && x != s[i] {
      if x in s && x != s[i] {
        var j :| 0 <= j < |s| && s[j] == x;
        if j < i { assert r[j] == x; } else { assert r[j - 1] == x; }
      }
      if x in r {
        var j :| 0 <= j < |r| && r[j] == x;
        if j < i { assert s[j] == x; } else { assert s[j + 1] == x; }
      }
    }
  }

  /** Removing one value keeps the registry free of duplicates and removes exactly that value */
  lemma SetDeleteSpec(s: seq<Value>, v: Value)
    requires Distinct(s)
    ensures Distinct(SetDelete(s, v))
    ensures forall x :: x in SetDelete(s, v) <==> x in s && x != v
  {
    if v in s {
      var i :| 0 <= i < |s| && s[i] == v;
      SetDeleteAt(s, v, i);
      CutDistinct(s, i);
      CutMembers(s, i);
    } else {
      SetDeleteAbsent(s, v);
    }
  }

  /**
   * What one `animate` call dispatches: every scene node's
   * `onBeforeRender?.(renderState)` first, then the registered callbacks in
   * insertion order; a throw anywhere ends the dispatch.
   */
  function AnimateDispatch(nodes: seq<Value>, registry: seq<Value>, failing: set<nat>): Dispatch {
    var fromNodes := CallInOrder(nodes, failing, true);
    if fromNodes.threw then fromNodes
    else Prepend(fromNodes.calls, CallInOrder(registry, failing, false))
  }

  /**
   * Scene-node hooks run before the registry callbacks: when no node hook
   * throws, all of them are called first, then the registry in order.
   */
  lemma NodesBeforeRegistry(nodes: seq<Value>, registry: seq<Value>, failing: set<nat>)
    requires forall i :: 0 <= i < |Present(nodes, true)| ==> !Throws(Present(nodes, true)[i], failing)
    ensures AnimateDispatch(nodes, registry, failing).calls
            == Present(nodes, true) + CallInOrder(registry, failing, false).calls
  {
    CallInOrderSpec(nodes, failing, true);
  }

  /**
   * A registry entry that is not a function (an object, or `undefined`)
   * makes `cb(renderState)` throw on every tick that reaches it, so every
   * tick fails.
   */
  lemma NonCallableEntryThrows(nodes: seq<Value>, registry: seq<Value>, failing: set<nat>, i: nat)
    requires i < |registry| && !registry[i].Function?
    ensures AnimateDispatch(nodes, registry, failing).threw
  {
    CallInOrderSpec(nodes, failing, true);
    CallInOrderSpec(registry, failing, false);
    PresentAll(registry);
    assert Throws(registry[i], failing);
  }

  /** Without `optional`, every hook is present */
  lemma {:induction false} PresentAll(hooks: seq<Value>)
    ensures Present(hooks, false) == hooks
    decreases |hooks|
  {
    if hooks != [] {
      PresentAll(hooks[1..]);
      assert [hooks[0]] + hooks[1..] == hooks;
    }
  }

  /**
   * How many of the display frames run `animate`, with the loop scheduled
   * before the first: a tick that throws does not request the next frame.
   */
  function TicksRun(registry: seq<Value>, frames: seq<FrameInput>): nat
    decreases |frames|
  {
    if frames == [] then 0
    else if AnimateDispatch(frames[0].nodes, registry, frames[0].failing).threw then 1
    else 1 + TicksRun(registry, frames[1..])
  }

  /** Fail-stop: the first tick that throws is the last tick that runs */
  lemma {:induction false} FailStop(registry: seq<Value>, frames: seq<FrameInput>, i: nat)
    requires i < |frames|
    requires AnimateDispatch(frames[i].nodes, registry, frames[i].failing).threw
    requires forall j :: 0 <= j < i ==> !AnimateDispatch(frames[j].nodes, registry, frames[j].failing).threw
    ensures TicksRun(registry, frames) == i + 1
    decreases i
  {
    if i > 0 {
      assert !AnimateDispatch(frames[0].nodes, registry, frames[0].failing).threw;
      FailStop(registry, frames[1..], i - 1);
    }
  }

  /** Without a throw the loop runs on every frame */
  lemma {:induction false} NoThrowKeepsRunning(registry: seq<Value>, frames: seq<FrameInput>)
    requires forall j :: 0 <= j < |frames| ==> !AnimateDispatch(frames[j].nodes, registry, frames[j].failing).threw
    ensures TicksRun(registry, frames) == |frames|
    decreases |frames|
  {
    if frames != [] {
      assert !AnimateDispatch(frames[0].nodes, registry, frames[0].failing).threw;
      NoThrowKeepsRunning(registry, frames[1..]);
    }
  }

  /** A registry that holds a non-callable entry halts the loop after its first frame */
  lemma NonCallableEntryHalts(registry: seq<Value>, frames: seq<FrameInput>, i: nat)
    requires i < |registry| && !registry[i].Function? && frames != []
    ensures TicksRun(registry, frames) == 1
  {
    NonCallableEntryThrows(frames[0].nodes, registry, frames[0].failing, i);
  }

  /** What `onBeforeRender` returns: `{ destroy }`, a closure over the registered value */
  datatype Handle = Handle(cb: Value)

  class Stage {
    // renderState (its `camera` field is not modelled)
    var time: real
    var deltaTime: real
    var frame: nat
    /** The timestamp of the previous tick */
    var oldMs: real
    /** onBeforeRenderStack, in insertion order */
    var registry: seq<Value>
    /** A `requestAnimationFrame(animate)` request is pending */
    var scheduled: bool

    ghost predicate Valid()
      reads this
    {
      Distinct(registry)
    }

    function RenderState(): TimeState
      reads this
    {
      TimeState(time, deltaTime, frame)
    }

    /** The module's initial state, with the first frame requested */
    constructor ()
      ensures Valid()
      ensures RenderState() == InitialTimeState && oldMs == InitialOldMs
      ensures registry == [] && scheduled
    {
      time, deltaTime, frame := 0.0, 0.0, 0;
      oldMs := InitialOldMs;
      registry := [];
      scheduled := true;
    }

    /**
     * `onBeforeRender(cb)`: adds its one argument to the registry. A second
     * argument in JavaScript is ignored, so only `cb` counts here.
     */
    method OnBeforeRender(cb: Value) returns (handle: Handle)
      requires Valid()
      modifies this`registry
      ensures Valid()
      ensures registry == SetAdd(old(registry), cb)
      ensures handle == Handle(cb)
    {
      SetAddSpec(registry, cb);
      registry := if cb in registry then registry else registry + [cb];
      handle := Handle(cb);
    }

    /** `handle.destroy()`: deletes the value from the registry and says whether it was there */
    method Destroy(handle: Handle) returns (removed: bool)
      requires Valid()
      modifies this`registry
      ensures Valid()
      ensures registry == SetDelete(old(registry), handle.cb)
      ensures removed == (handle.cb in old(registry))
    {
      SetDeleteSpec(registry, handle.cb);
      removed := handle.cb in registry;
      registry := SetDelete(registry, handle.cb);
    }

    /**
     * `animate(ms)`: the time state advances before any hook runs, so every
     * hook is handed the new state; the hooks are dispatched inside `try`;
     * the next frame is requested only if none threw; the frame is rendered
     * in either case.
     */
    method Tick(ms: real, nodes: seq<Value>, failing: set<nat>) returns (calls: seq<Call>, rendered: bool)
      requires Valid()
      modifies this`time, this`deltaTime, this`frame, this`oldMs, this`scheduled
      ensures Valid()
      ensures RenderState() == Advance(old(RenderState()), old(oldMs), ms) && oldMs == ms
      ensures calls == Stamped(AnimateDispatch(nodes, registry, failing).calls, RenderState())
      ensures forall i :: 0 <= i < |calls| ==> calls[i].state == Advance(old(RenderState()), old(oldMs), ms)
      ensures scheduled == !AnimateDispatch(nodes, registry, failing).threw
      ensures rendered
    {
      var dt := DeltaTime(oldMs, ms);
      oldMs := ms;
      deltaTime := dt;
      time := time + dt;
      frame := frame + 1;

      var nodeCalls, threw := CallHooks(nodes, failing, true, RenderState());
      calls := nodeCalls;
      if !threw {
        var registryCalls;
        registryCalls, threw := CallHooks(registry, failing, false, RenderState());
        ghost var d := AnimateDispatch(nodes, registry, failing);
        ghost var fromNodes := CallInOrder(nodes, failing, true).calls;
        assert Stamped(fromNodes + CallInOrder(registry, failing, false).calls, RenderState())
               == nodeCalls + registryCalls;
        calls := calls + registryCalls;
      }
      // requestAnimationFrame(animate) is the last statement of the `try`
      scheduled := !threw;
      // renderer.render(scene, camera) follows the `try`/`catch`
      rendered := true;
    }

    /**
     * The browser running the loop over a sequence of display frames:
     * `animate` is called on a frame only while a request is pending. The
     * number of ticks is the fail-stop count, and the time state is that of
     * those ticks.
     */
    method Run(frames: seq<FrameInput>) returns (ran: nat)
      requires Valid() && scheduled
      modifies this`time, this`deltaTime, this`frame, this`oldMs, this`scheduled
      ensures Valid()
      ensures ran == TicksRun(registry, frames) && ran <= |frames|
      ensures RenderState() == Ticks(old(RenderState()), old(oldMs), Stamps(frames[..ran]))
      ensures oldMs == LastStamp(old(oldMs), Stamps(frames[..ran]))
      ensures scheduled <==> ran == |frames| && (frames == [] || !AnimateDispatch(frames[ran - 1].nodes, registry, frames[ran - 1].failing).threw)
    {
      ran := 0;
      while ran < |frames| && scheduled
        invariant Valid() && ran <= |frames| && registry == old(registry)
        invariant scheduled ==> TicksRun(registry, frames) == ran + TicksRun(registry, frames[ran..])
        invariant !scheduled ==> ran > 0 && TicksRun(registry, frames) == ran
                                 && AnimateDispatch(frames[ran - 1].nodes, registry, frames[ran - 1].failing).threw
        invariant scheduled ==> ran == 0 || !AnimateDispatch(frames[ran - 1].nodes, registry, frames[ran - 1].failing).threw
        invariant RenderState() == Ticks(old(RenderState()), old(oldMs), Stamps(frames[..ran]))
        invariant oldMs == LastStamp(old(oldMs), Stamps(frames[..ran]))
      {
        var f := frames[ran];
        assert frames[ran..][0] == f && frames[ran..][1..] == frames[ran + 1..];
        StampsSnoc(frames, ran);
        TicksSnoc(old(RenderState()), old(oldMs), Stamps(frames[..ran]), f.ms);
        var _, _ := Tick(f.ms, f.nodes, f.failing);
        ran := ran + 1;
      }
      if scheduled {
        assert frames[ran..] == [];
      }
    }
  }
}
