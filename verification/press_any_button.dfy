/** PressAnyButton: the title's "press any button" prompt.  The prompt's
    alpha loops between two bounds; a trigger loads the next scene unless
    the exit menu is shown or was closed only moments ago.  Time.time and
    Time.unscaledTime are inputs; the load is an output. */
module PressAnyButton {
  import opened Geometry
  import opened Angles
  import opened Optional

  datatype PromptConfig = PromptConfig(fadeSpeed: real, minAlpha: real, maxAlpha: real, sceneName: string,
                                       ignoreSecondsAfterMenuClose: real)

  datatype PromptState = PromptState(lastMenuVisible: bool, inputResumeTime: real)

  /** Mathf.PingPong(t, length): t bounced back and forth over [0, length]. */
  function PingPong(t: real, length: real): (r: real)
    requires length > 0.0
    ensures 0.0 <= r <= length
  {
    var u := Repeat(t, length * 2.0);
    length - Abs(u - length)
  }

  /** Mathf.Lerp: a + (b - a) * Clamp01(t). */
  function Lerp(a: real, b: real, t: real): (r: real)
    ensures a <= b ==> a <= r <= b
    ensures b <= a ==> b <= r <= a
    ensures t <= 0.0 ==> r == a
    ensures t >= 1.0 ==> r == b
  {
    var c := Clamp01(t);
    var p := (b - a) * c;
    LerpBounds(a, b, c, p);
    a + p
  }

  /** A fraction c in [0, 1] of the way from a to b lies between a and b. */
  lemma LerpBounds(a: real, b: real, c: real, p: real)
    requires 0.0 <= c <= 1.0 && p == (b - a) * c
    ensures a <= b ==> a <= a + p <= b
    ensures b <= a ==> b <= a + p <= a
  {
    if a <= b {
      ScaleWithin(b - a, c, p);
    } else {
      ScaleWithin(a - b, c, -p);
    }
  }

  lemma ScaleWithin(d: real, c: real, p: real)
    requires d >= 0.0 && 0.0 <= c <= 1.0 && p == d * c
    ensures 0.0 <= p <= d
  {
    assert d * c <= d * 1.0;
  }

  /** LoopFade's alpha: within [min(Min, Max), max(Min, Max)] at every
      time, however the bounds are ordered. */
  function FadeAlpha(cfg: PromptConfig, time: real): (alpha: real)
    ensures Min(cfg.minAlpha, cfg.maxAlpha) <= alpha <= Max(cfg.minAlpha, cfg.maxAlpha)
  {
    var lo := Min(cfg.minAlpha, cfg.maxAlpha);
    var hi := Max(cfg.minAlpha, cfg.maxAlpha);
    var t := PingPong(time * Max(0.0, cfg.fadeSpeed), 1.0);
    Lerp(lo, hi, t)
  }

  /** Awake: remembers whether the menu is shown; input is not held back. */
  function Awake(menuVisible: bool): (st: PromptState)
    ensures st.lastMenuVisible == menuVisible && st.inputResumeTime == 0.0
  {
    PromptState(menuVisible, 0.0)
  }

  /** Update: on the menu's shown-to-hidden edge input is held back for
      max(0, IgnoreSeconds); nothing loads while the menu is shown or before
      the resume time; otherwise a trigger loads a non-empty scene name. */
  function Update(st: PromptState, cfg: PromptConfig, menuVisible: bool, unscaledTime: real, triggered: bool)
    : (r: (PromptState, Option<string>))
    ensures r.0.lastMenuVisible == menuVisible
    ensures st.lastMenuVisible && !menuVisible ==>
              r.0.inputResumeTime == unscaledTime + Max(0.0, cfg.ignoreSecondsAfterMenuClose)
    ensures !(st.lastMenuVisible && !menuVisible) ==> r.0.inputResumeTime == st.inputResumeTime
    ensures r.1.Some? <==> !menuVisible && unscaledTime >= r.0.inputResumeTime && triggered && cfg.sceneName != ""
    ensures r.1.Some? ==> r.1.value == cfg.sceneName
  {
    var resume := if st.lastMenuVisible && !menuVisible
                  then unscaledTime + Max(0.0, cfg.ignoreSecondsAfterMenuClose)
                  else st.inputResumeTime;
    var s := PromptState(menuVisible, resume);
    if menuVisible then (s, None)
    else if unscaledTime < resume then (s, None)
    else if triggered && cfg.sceneName != "" then (s, Some(cfg.sceneName))
    else (s, None)
  }

  /** The frame that closes the menu never loads when the ignore time is
      positive. */
  lemma ClosingFrameNeverLoads(st: PromptState, cfg: PromptConfig, now: real, triggered: bool)
    requires st.lastMenuVisible && cfg.ignoreSecondsAfterMenuClose > 0.0
    ensures Update(st, cfg, false, now, triggered).1 == None
  {
  }
}
