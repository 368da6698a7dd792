/** HoldLoadScene: hold a key (or the pad's B button) for HoldSeconds to
    load a scene.  The load is an output; whether a scene is in the build
    (Application.CanStreamedLevelBeLoaded) is a parameter. */
module HoldLoad {
  import opened Optional

  datatype HoldConfig = HoldConfig(holdSeconds: real, fireOnce: bool, sceneName: string,
                                   useUnscaledTime: bool, resetOnEnable: bool)

  datatype HoldState = HoldState(holdTimer: real, fired: bool)

  /** CanLoadByName: false for an empty name; otherwise the build check's
      answer is ORed with true, so every non-empty name passes. */
  function CanLoadByName(name: string, canStreamedLevelBeLoaded: string -> bool): (ok: bool)
    ensures ok <==> name != ""
  {
    if name == "" then false
    else
      var streamed := canStreamedLevelBeLoaded(name);
      streamed || true
  }

  /** TryLoadScene: the scene to load, if any. */
  function TryLoadScene(name: string, canStreamedLevelBeLoaded: string -> bool): (load: Option<string>)
    ensures load.Some? <==> name != ""
    ensures load.Some? ==> load.value == name
  {
    if name == "" then None
    else if !CanLoadByName(name, canStreamedLevelBeLoaded) then None
    else Some(name)
  }

  /** OnEnable: with ResetOnEnable the timer and the fired flag are cleared. */
  function OnEnable(st: HoldState, cfg: HoldConfig): (r: HoldState)
    ensures cfg.resetOnEnable ==> r == HoldState(0.0, false)
    ensures !cfg.resetOnEnable ==> r == st
  {
    if cfg.resetOnEnable then HoldState(0.0, false) else st
  }

  /** Update: nothing once fired with FireOnce; while held the timer grows
      by this frame's (scaled or unscaled) delta time and, once it reaches
      HoldSeconds, the load is attempted and the timer restarts; on release
      the timer is reset. */
  function Update(st: HoldState, cfg: HoldConfig, held: bool, deltaTime: real, unscaledDeltaTime: real,
                  canStreamedLevelBeLoaded: string -> bool): (r: (HoldState, Option<string>))
    ensures cfg.fireOnce && st.fired ==> r == (st, None)
    ensures !(cfg.fireOnce && st.fired) ==>
              var dt := if cfg.useUnscaledTime then unscaledDeltaTime else deltaTime;
              var reached := held && st.holdTimer + dt >= cfg.holdSeconds;
              (r.1.Some? <==> reached && cfg.sceneName != "")
              && (reached ==> r.0 == HoldState(0.0, st.fired || cfg.fireOnce))
              && (held && !reached ==> r.0 == HoldState(st.holdTimer + dt, st.fired))
              && (!held ==> r.0.fired == st.fired && r.0.holdTimer == (if st.holdTimer > 0.0 then 0.0 else st.holdTimer))
    ensures r.1.Some? ==> r.1.value == cfg.sceneName && r.0.holdTimer == 0.0
  {
    if cfg.fireOnce && st.fired then (st, None)
    else
      var dt := if cfg.useUnscaledTime then unscaledDeltaTime else deltaTime;
      if held then
        var timer := st.holdTimer + dt;
        if timer >= cfg.holdSeconds then
          var load := TryLoadScene(cfg.sceneName, canStreamedLevelBeLoaded);
          (HoldState(0.0, if cfg.fireOnce then true else st.fired), load)
        else (HoldState(timer, st.fired), None)
      else if st.holdTimer > 0.0 then (HoldState(0.0, st.fired), None)
      else (st, None)
  }

  /** With a positive HoldSeconds and a timer below it, the timer stays
      below it: a frame that reaches it restarts the timer. */
  lemma TimerStaysBelowHold(st: HoldState, cfg: HoldConfig, held: bool, dt: real, udt: real, can: string -> bool)
    requires cfg.holdSeconds > 0.0 && st.holdTimer < cfg.holdSeconds
    ensures Update(st, cfg, held, dt, udt, can).0.holdTimer < cfg.holdSeconds
  {
  }

  /** One frame's input: held, Time.deltaTime, Time.unscaledDeltaTime. */
  datatype Frame = Frame(held: bool, deltaTime: real, unscaledDeltaTime: real)

  function Run(st: HoldState, cfg: HoldConfig, frames: seq<Frame>, can: string -> bool): (r: (HoldState, nat))
    decreases |frames|
  {
    if |frames| == 0 then (st, 0)
    else
      var (next, load) := Update(st, cfg, frames[0].held, frames[0].deltaTime, frames[0].unscaledDeltaTime, can);
      var (last, loads) := Run(next, cfg, frames[1..], can);
      (last, loads + (if load.Some? then 1 else 0))
  }

  /** With FireOnce a run loads at most once, and after a load every later
      frame is ignored. */
  lemma {:induction false} FireOnceLoadsAtMostOnce(st: HoldState, cfg: HoldConfig, frames: seq<Frame>,
                                                   can: string -> bool)
    requires cfg.fireOnce
    ensures Run(st, cfg, frames, can).1 <= 1
    ensures st.fired ==> Run(st, cfg, frames, can) == (st, 0)
    decreases |frames|
  {
    if |frames| > 0 {
      var (next, load) := Update(st, cfg, frames[0].held, frames[0].deltaTime, frames[0].unscaledDeltaTime, can);
      FireOnceLoadsAtMostOnce(next, cfg, frames[1..], can);
      if load.Some? {
        assert next.fired;
      }
    }
  }
}
