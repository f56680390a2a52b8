/**
 * What the three animation loops (`common/three/stage.js`,
 * `threejs/wind/setup/stage.js`, `threejs/wind/stage/stage.js`) share:
 * the clamped time step, the time state it advances, and calling a list of
 * hooks in order until one throws. Time is modelled over `real`.
 */
module FrameClock {

  /** MAX_DELTA_TIME: the longest step one tick may take, in seconds */
  const MaxDeltaTime: real := 1.0 / 20.0

  /** The value of `oldMs` before the first tick */
  const InitialOldMs: real := -1.0

  /**
   * `Math.min((ms - oldMs) / 1e3, MAX_DELTA_TIME)`: the elapsed time in
   * seconds, capped above and not below.
   */
  function DeltaTime(oldMs: real, ms: real): (d: real)
    ensures d <= MaxDeltaTime
    ensures d == (ms - oldMs) / 1000.0 <==> (ms - oldMs) / 1000.0 <= MaxDeltaTime
    ensures (ms - oldMs) / 1000.0 > MaxDeltaTime ==> d == MaxDeltaTime
    ensures ms < oldMs ==> d < 0.0
  {
    var elapsed := (ms - oldMs) / 1000.0;
    if elapsed < MaxDeltaTime then elapsed else MaxDeltaTime
  }

  /** The `time`, `deltaTime` and `frame` fields every loop keeps */
  datatype TimeState = TimeState(time: real, deltaTime: real, frame: nat)

  const InitialTimeState := TimeState(0.0, 0.0, 0)

  /** One tick at timestamp `ms` after a tick at `oldMs` */
  function Advance(st: TimeState, oldMs: real, ms: real): TimeState {
    var d := DeltaTime(oldMs, ms);
    TimeState(st.time + d, d, st.frame + 1)
  }

  /** The state after a tick at each timestamp in turn */
  function Ticks(st: TimeState, oldMs: real, stamps: seq<real>): TimeState
    decreases |stamps|
  {
    if stamps == [] then st else Ticks(Advance(st, oldMs, stamps[0]), stamps[0], stamps[1..])
  }

  /** The clamped steps those ticks take */
  function Deltas(oldMs: real, stamps: seq<real>): seq<real>
    decreases |stamps|
  {
    if stamps == [] then [] else [DeltaTime(oldMs, stamps[0])] + Deltas(stamps[0], stamps[1..])
  }

  function Sum(xs: seq<real>): real
    decreases |xs|
  {
    if xs == [] then 0.0 else xs[0] + Sum(xs[1..])
  }

  /**
   * Over a run of ticks, `time` grows by the sum of the clamped steps, no
   * step exceeds MAX_DELTA_TIME, and `frame` counts the ticks.
   */
  lemma {:induction false} TicksAccumulate(st: TimeState, oldMs: real, stamps: seq<real>)
    ensures Ticks(st, oldMs, stamps).time == st.time + Sum(Deltas(oldMs, stamps))
    ensures Ticks(st, oldMs, stamps).frame == st.frame + |stamps|
    ensures |Deltas(oldMs, stamps)| == |stamps|
    ensures forall i :: 0 <= i < |stamps| ==> Deltas(oldMs, stamps)[i] <= MaxDeltaTime
    ensures stamps != [] ==> Ticks(st, oldMs, stamps).deltaTime == Deltas(oldMs, stamps)[|stamps| - 1]
    decreases |stamps|
  {
    if stamps != [] {
      var next := Advance(st, oldMs, stamps[0]);
      TicksAccumulate(next, stamps[0], stamps[1..]);
      var rest := Deltas(stamps[0], stamps[1..]);
      assert Deltas(oldMs, stamps) == [DeltaTime(oldMs, stamps[0])] + rest;
      forall i | 0 <= i < |stamps| ensures Deltas(oldMs, stamps)[i] <= MaxDeltaTime {
        if i > 0 {
          assert Deltas(oldMs, stamps)[i] == rest[i - 1];
        }
      }
    }
  }

  /** The timestamp of the latest tick, `oldMs` if there was none */
  function LastStamp(oldMs: real, stamps: seq<real>): real {
    if stamps == [] then oldMs else stamps[|stamps| - 1]
  }

  /** One more tick after a run advances the state the run left, from its last timestamp */
  lemma {:induction false} TicksSnoc(st: TimeState, oldMs: real, stamps: seq<real>, ms: real)
    ensures Ticks(st, oldMs, stamps + [ms]) == Advance(Ticks(st, oldMs, stamps), LastStamp(oldMs, stamps), ms)
    decreases |stamps|
  {
    if stamps != [] {
      assert (stamps + [ms])[0] == stamps[0];
      assert (stamps + [ms])[1..] == stamps[1..] + [ms];
      TicksSnoc(Advance(st, oldMs, stamps[0]), stamps[0], stamps[1..], ms);
      if |stamps| > 1 {
        assert stamps[1..][|stamps| - 2] == stamps[|stamps| - 1];
      }
    } else {
      assert [ms][1..] == [];
    }
  }

  /**
   * The first tick measures from `oldMs = -1`, not from a baseline: ticks
   * at 0, 10 and 40 ms take steps of 1, 10 and 30 ms.
   */
  lemma FirstTicksExample()
    ensures Deltas(InitialOldMs, [0.0, 10.0, 40.0]) == [0.001, 0.01, 0.03]
    ensures Ticks(InitialTimeState, InitialOldMs, [0.0, 10.0, 40.0]) == TimeState(0.041, 0.03, 3)
  {
  }

  /** A JavaScript value found where a hook is expected */
  datatype Value = Undefined | Function(id: nat) | Object(id: nat)

  /**
   * Calling `v` throws: a value that is not a function always does (a
   * TypeError), a function does when it is one of `failing`.
   */
  predicate Throws(v: Value, failing: set<nat>) {
    match v
    case Function(id) => id in failing
    case _ => true
  }

  /** The hooks that were called, in order, and whether the last of them threw */
  datatype Dispatch = Dispatch(calls: seq<Value>, threw: bool)

  /**
   * Calling each hook in turn until one throws. With `optional`, an
   * Undefined hook is skipped, as `hook?.(state)` does.
   */
  function CallInOrder(hooks: seq<Value>, failing: set<nat>, optional: bool): Dispatch
    decreases |hooks|
  {
    if hooks == [] then Dispatch([], false)
    else if optional && hooks[0] == Undefined then CallInOrder(hooks[1..], failing, optional)
    else if Throws(hooks[0], failing) then Dispatch([hooks[0]], true)
    else
      var rest := CallInOrder(hooks[1..], failing, optional);
      Dispatch([hooks[0]] + rest.calls, rest.threw)
  }

  /** The hooks that would be called if none threw */
  function Present(hooks: seq<Value>, optional: bool): seq<Value>
    decreases |hooks|
  {
    if hooks == [] then []
    else if optional && hooks[0] == Undefined then Present(hooks[1..], optional)
    else [hooks[0]] + Present(hooks[1..], optional)
  }

  /**
   * Without a throw every present hook is called in order; with one, the
   * calls stop at the first hook that throws and the rest are skipped.
   */
  lemma {:induction false} CallInOrderSpec(hooks: seq<Value>, failing: set<nat>, optional: bool)
    ensures var d, live := CallInOrder(hooks, failing, optional), Present(hooks, optional);
            !d.threw ==> d.calls == live && forall i :: 0 <= i < |live| ==> !Throws(live[i], failing)
    ensures var d, live := CallInOrder(hooks, failing, optional), Present(hooks, optional);
            d.threw ==> && 0 < |d.calls| <= |live|
                        && d.calls == live[..|d.calls|]
                        && Throws(live[|d.calls| - 1], failing)
                        && forall i :: 0 <= i < |d.calls| - 1 ==> !Throws(live[i], failing)
    decreases |hooks|
  {
    if hooks != [] {
      CallInOrderSpec(hooks[1..], failing, optional);
      if !(optional && hooks[0] == Undefined) {
        var live := Present(hooks, optional);
        var rest := Present(hooks[1..], optional);
        assert live == [hooks[0]] + rest;
        if !Throws(hooks[0], failing) {
          var d := CallInOrder(hooks[1..], failing, optional);
          if d.threw {
            assert live[..|d.calls| + 1] == [hooks[0]] + rest[..|d.calls|];
          }
          forall i | 0 <= i < |live| && !d.threw ensures !Throws(live[i], failing) {
            if i > 0 {
              assert live[i] == rest[i - 1];
            }
          }
        }
      }
    }
  }

  /**
   * `hook?.(state)` skips exactly the absent hooks: every other hook is
   * present as often as it occurs in the list, in the same order.
   */
  lemma {:induction false} PresentSkipsUndefined(hooks: seq<Value>)
    ensures forall i :: 0 <= i < |Present(hooks, true)| ==> Present(hooks, true)[i] != Undefined
    ensures forall v :: v != Undefined ==> multiset(Present(hooks, true))[v] == multiset(hooks)[v]
    decreases |hooks|
  {
    if hooks != [] {
      PresentSkipsUndefined(hooks[1..]);
      assert hooks == [hooks[0]] + hooks[1..];
      assert multiset(hooks) == multiset([hooks[0]]) + multiset(hooks[1..]);
      if hooks[0] != Undefined {
        var rest := Present(hooks[1..], true);
        assert multiset([hooks[0]] + rest) == multiset([hooks[0]]) + multiset(rest);
        forall i | 0 <= i < |[hooks[0]] + rest| ensures ([hooks[0]] + rest)[i] != Undefined {
          if i > 0 { assert ([hooks[0]] + rest)[i] == rest[i - 1]; }
        }
      }
    }
  }

  /** `idx` lists, in increasing order, the positions of `hooks` that `live` keeps, and every position that is not Undefined */
  ghost predicate PicksPresent(hooks: seq<Value>, live: seq<Value>, idx: seq<nat>) {
    && |idx| == |live|
    && (forall i :: 0 <= i < |idx| ==> idx[i] < |hooks| && live[i] == hooks[idx[i]])
    && (forall i, j :: 0 <= i < j < |idx| ==> idx[i] < idx[j])
    && (forall p :: 0 <= p < |hooks| && hooks[p] != Undefined ==> p in idx)
  }

  /**
   * `hook?.(state)` keeps the order of the hooks: the present hooks are the
   * hooks at a strictly increasing run of positions, which are exactly the
   * positions that do not hold Undefined.
   */
  lemma {:induction false} PresentInOrder(hooks: seq<Value>) returns (idx: seq<nat>)
    ensures |idx| == |Present(hooks, true)|
    ensures forall i :: 0 <= i < |idx| ==> idx[i] < |hooks| && Present(hooks, true)[i] == hooks[idx[i]]
    ensures forall i, j :: 0 <= i < j < |idx| ==> idx[i] < idx[j]
    ensures forall p :: 0 <= p < |hooks| && hooks[p] != Undefined ==> p in idx
    decreases |hooks|
  {
    if hooks == [] {
      idx := [];
    } else {
      var tail := PresentInOrder(hooks[1..]);
      var shifted := ShiftPicks(hooks, tail);
      if hooks[0] == Undefined {
        idx := shifted;
      } else {
        idx := ConsPick(hooks, shifted);
      }
    }
  }

  /** The positions of the tail's picks, one further on in the whole list */
  lemma ShiftPicks(hooks: seq<Value>, tail: seq<nat>) returns (shifted: seq<nat>)
    requires hooks != [] && PicksPresent(hooks[1..], Present(hooks[1..], true), tail)
    ensures |shifted| == |tail|
    ensures forall i :: 0 <= i < |shifted| ==> 1 <= shifted[i] < |hooks| && Present(hooks[1..], true)[i] == hooks[shifted[i]]
    ensures forall i, j :: 0 <= i < j < |shifted| ==> shifted[i] < shifted[j]
    ensures forall p :: 1 <= p < |hooks| && hooks[p] != Undefined ==> p in shifted
  {
    shifted := seq(|tail|, i requires 0 <= i < |tail| => tail[i] + 1);
    forall i | 0 <= i < |shifted|
      ensures 1 <= shifted[i] < |hooks| && Present(hooks[1..], true)[i] == hooks[shifted[i]]
    {
      assert hooks[1..][tail[i]] == hooks[shifted[i]];
    }
    forall p | 1 <= p < |hooks| && hooks[p] != Undefined ensures p in shifted {
      assert hooks[1..][p - 1] == hooks[p];
      assert p - 1 in tail;
      var i :| 0 <= i < |tail| && tail[i] == p - 1;
      assert shifted[i] == p;
    }
  }

  /** A present first hook goes in front of the tail's picks */
  lemma ConsPick(hooks: seq<Value>, shifted: seq<nat>) returns (idx: seq<nat>)
    requires hooks != [] && hooks[0] != Undefined
    requires |shifted| == |Present(hooks[1..], true)|
    requires forall i :: 0 <= i < |shifted| ==> 1 <= shifted[i] < |hooks| && Present(hooks[1..], true)[i] == hooks[shifted[i]]
    requires forall i, j :: 0 <= i < j < |shifted| ==> shifted[i] < shifted[j]
    requires forall p :: 1 <= p < |hooks| && hooks[p] != Undefined ==> p in shifted
    ensures PicksPresent(hooks, Present(hooks, true), idx)
  {
    idx := [0] + shifted;
    var live := Present(hooks, true);
    assert live == [hooks[0]] + Present(hooks[1..], true);
    forall i | 0 < i < |idx| ensures idx[i] < |hooks| && live[i] == hooks[idx[i]] {
      assert idx[i] == shifted[i - 1];
    }
    forall p | 0 <= p < |hooks| && hooks[p] != Undefined ensures p in idx {
      if p > 0 { assert p in shifted; }
    }
  }

  /** The timestamp, the scene's hooks and the failing hooks of one display frame */
  datatype FrameInput = FrameInput(ms: real, nodes: seq<Value>, failing: set<nat>)

  /** The timestamps of the frames */
  function Stamps(frames: seq<FrameInput>): (stamps: seq<real>)
    ensures |stamps| == |frames|
    ensures forall i :: 0 <= i < |frames| ==> stamps[i] == frames[i].ms
  {
    seq(|frames|, i requires 0 <= i < |frames| => frames[i].ms)
  }

  /** One more frame adds its timestamp */
  lemma StampsSnoc(frames: seq<FrameInput>, n: nat)
    requires n < |frames|
    ensures Stamps(frames[..n + 1]) == Stamps(frames[..n]) + [frames[n].ms]
  {
    assert Stamps(frames[..n + 1]) == Stamps(frames[..n]) + [frames[n].ms];
  }

  /** Dispatch `d` preceded by calls that did not throw */
  function Prepend(calls: seq<Value>, d: Dispatch): Dispatch {
    Dispatch(calls + d.calls, d.threw)
  }

  /** A hook call, with the time state the hook was handed */
  datatype Call = Call(hook: Value, state: TimeState)

  /** The calls `calls` made, each handed `state` */
  function Stamped(calls: seq<Value>, state: TimeState): seq<Call> {
    seq(|calls|, i requires 0 <= i < |calls| => Call(calls[i], state))
  }

  /**
   * The dispatch loops of the stages (`for (const cb of ...) cb(state)`
   * and the `scene.traverse` callback): call each hook with the state,
   * leave at the first exception.
   */
  method CallHooks(hooks: seq<Value>, failing: set<nat>, optional: bool, state: TimeState)
    returns (calls: seq<Call>, threw: bool)
    ensures calls == Stamped(CallInOrder(hooks, failing, optional).calls, state)
    ensures threw == CallInOrder(hooks, failing, optional).threw
  {
    calls, threw := [], false;
    ghost var called: seq<Value> := [];
    var i := 0;
    while i < |hooks| && !threw
      invariant 0 <= i <= |hooks|
      invariant calls == Stamped(called, state)
      invariant !threw ==> CallInOrder(hooks, failing, optional) == Prepend(called, CallInOrder(hooks[i..], failing, optional))
      invariant threw ==> CallInOrder(hooks, failing, optional) == Dispatch(called, true)
    {
      var hook := hooks[i];
      assert hooks[i..][1..] == hooks[i + 1..];
      if optional && hook == Undefined {
        // `hook?.(state)` does nothing
      } else {
        assert Stamped(called + [hook], state) == Stamped(called, state) + [Call(hook, state)];
        if Throws(hook, failing) {
          threw := true;
        } else {
          assert called + ([hook] + CallInOrder(hooks[i + 1..], failing, optional).calls)
                 == (called + [hook]) + CallInOrder(hooks[i + 1..], failing, optional).calls;
        }
        calls, called := calls + [Call(hook, state)], called + [hook];
      }
      i := i + 1;
    }
    if !threw {
      assert hooks[i..] == [];
    }
  }
}
