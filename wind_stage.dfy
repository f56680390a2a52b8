/**
 * The animation loop shared by `threejs/wind/setup/stage.js` and
 * `threejs/wind/stage/stage.js`: the two files hold the same module-level
 * `timeState` and `oldMs` and the same `animate`, which requests the next
 * frame before it calls `child.onUpdate?.(timeState)` over the scene. An
 * exception thrown by a hook leaves `animate` before `renderer.render`, but
 * the next frame is already requested.
 */
module WindStage {
  import opened FrameClock

  /**
   * A tick with no throwing hook calls `onUpdate` on exactly the nodes that
   * have one, each once, in traversal order.
   */
  lemma OnUpdateOncePerNode(nodes: seq<Value>, failing: set<nat>) returns (idx: seq<nat>)
    requires !CallInOrder(nodes, failing, true).threw
    ensures |idx| == |CallInOrder(nodes, failing, true).calls|
    ensures forall i :: 0 <= i < |idx| ==>
              idx[i] < |nodes| && CallInOrder(nodes, failing, true).calls[i] == nodes[idx[i]]
    ensures forall i, j :: 0 <= i < j < |idx| ==> idx[i] < idx[j]
    ensures forall p :: 0 <= p < |nodes| && nodes[p] != Undefined ==> p in idx
    ensures forall i :: 0 <= i < |CallInOrder(nodes, failing, true).calls| ==>
              CallInOrder(nodes, failing, true).calls[i] != Undefined
    ensures forall v :: v != Undefined ==>
              multiset(CallInOrder(nodes, failing, true).calls)[v] == multiset(nodes)[v]
  {
    CallInOrderSpec(nodes, failing, true);
    PresentSkipsUndefined(nodes);
    idx := PresentInOrder(nodes);
  }

  class Stage {
    // timeState
    var time: real
    var deltaTime: real
    var frame: nat
    /** The timestamp of the previous tick */
    var oldMs: real
    /** A `requestAnimationFrame(animate)` request is pending */
    var scheduled: bool

    function TimeStateOf(): TimeState
      reads this
    {
      TimeState(time, deltaTime, frame)
    }

    /** The module's initial state, with the first frame requested */
    constructor ()
      ensures TimeStateOf() == InitialTimeState && oldMs == InitialOldMs && scheduled
    {
      time, deltaTime, frame := 0.0, 0.0, 0;
      oldMs := InitialOldMs;
      scheduled := true;
    }

    /**
     * `animate(ms)`: the time state advances and the next frame is requested,
     * then the `onUpdate` hooks run, each handed the new state; the frame is
     * rendered only if none threw.
     */
    method Tick(ms: real, nodes: seq<Value>, failing: set<nat>) returns (calls: seq<Call>, rendered: bool)
      modifies this
      ensures TimeStateOf() == Advance(old(TimeStateOf()), old(oldMs), ms) && oldMs == ms
      ensures scheduled
      ensures calls == Stamped(CallInOrder(nodes, failing, true).calls, TimeStateOf())
      ensures forall i :: 0 <= i < |calls| ==> calls[i].state == Advance(old(TimeStateOf()), old(oldMs), ms)
      ensures rendered == !CallInOrder(nodes, failing, true).threw
    {
      var dt := DeltaTime(oldMs, ms);
      oldMs := ms;
      deltaTime := dt;
      time := time + dt;
      frame := frame + 1;

      scheduled := true;

      var threw;
      calls, threw := CallHooks(nodes, failing, true, TimeStateOf());
      // an exception leaves `animate` before renderer.render(scene, camera)
      rendered := !threw;
    }

    /**
     * The browser running the loop over a sequence of display frames:
     * `animate` is called on a frame only while a request is pending. Every
     * frame is reached, because each tick requests the next before its
     * hooks can throw; a throw costs only the render of its own frame.
     */
    method Run(frames: seq<FrameInput>) returns (rendered: seq<bool>)
      requires scheduled
      modifies this
      ensures |rendered| == |frames|
      ensures forall i :: 0 <= i < |frames| ==>
                (rendered[i] <==> !CallInOrder(frames[i].nodes, frames[i].failing, true).threw)
      ensures TimeStateOf() == Ticks(old(TimeStateOf()), old(oldMs), Stamps(frames))
      ensures oldMs == LastStamp(old(oldMs), Stamps(frames))
      ensures scheduled
    {
      rendered := [];
      while |rendered| < |frames| && scheduled
        invariant |rendered| <= |frames| && scheduled
        invariant forall i :: 0 <= i < |rendered| ==>
                    (rendered[i] <==> !CallInOrder(frames[i].nodes, frames[i].failing, true).threw)
        invariant TimeStateOf() == Ticks(old(TimeStateOf()), old(oldMs), Stamps(frames[..|rendered|]))
        invariant oldMs == LastStamp(old(oldMs), Stamps(frames[..|rendered|]))
      {
        var f := frames[|rendered|];
        StampsSnoc(frames, |rendered|);
        TicksSnoc(old(TimeStateOf()), old(oldMs), Stamps(frames[..|rendered|]), f.ms);
        var _, r := Tick(f.ms, f.nodes, f.failing);
        rendered := rendered + [r];
      }
      assert frames[..|rendered|] == frames;
    }
  }
}
