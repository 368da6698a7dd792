/** BackgroundFadePos: RawImages that fade out when the base model's x
    crosses a threshold going left and fade back in when it crosses
    another going right.  Images are integer handles; each image's alpha
    and its running fade (the FadeRoutine coroutine, at most one per image)
    are maps.  Time.deltaTime (or unscaledDeltaTime) is an input. */
module BackgroundFade {
  import opened Geometry
  import opened Optional

  datatype FadeRule = FadeRule(image: Option<int>, fadeOutAtX: real, fadeInAtX: real,
                               fadeOutDuration: real, fadeInDuration: real)

  /** A FadeRoutine suspended at its yield: start alpha, target, duration,
      elapsed time. */
  datatype Fade = Fade(start: real, target: real, duration: real, t: real)

  datatype Images = Images(alpha: map<int, real>, fades: map<int, Fade>)

  datatype FadeState = FadeState(prevX: real, images: Images)

  /** Mathf.SmoothStep(from, to, t): Hermite easing between the two values. */
  function SmoothStep(from: real, to: real, t: real): (r: real)
    ensures Min(from, to) <= r <= Max(from, to)
    ensures t <= 0.0 ==> r == from
    ensures t >= 1.0 ==> r == to
  {
    var u := Clamp01(t);
    var h := -2.0 * u * u * u + 3.0 * u * u;
    HermiteWithin(u);
    ConvexWithin(from, to, h);
    to * h + from * (1.0 - h)
  }

  lemma MulNonneg(a: real, b: real)
    requires a >= 0.0 && b >= 0.0
    ensures a * b >= 0.0
  {
  }

  lemma HermiteWithin(u: real)
    requires 0.0 <= u <= 1.0
    ensures 0.0 <= -2.0 * u * u * u + 3.0 * u * u <= 1.0
  {
    var v := 1.0 - u;
    MulNonneg(u, u);
    MulNonneg(u * u, 3.0 - 2.0 * u);
    assert -2.0 * u * u * u + 3.0 * u * u == (u * u) * (3.0 - 2.0 * u);
    MulNonneg(v, v);
    MulNonneg(v * v, 1.0 + 2.0 * u);
    assert 1.0 - (-2.0 * u * u * u + 3.0 * u * u) == (v * v) * (1.0 + 2.0 * u);
  }

  lemma ConvexWithin(a: real, b: real, h: real)
    requires 0.0 <= h <= 1.0
    ensures Min(a, b) <= b * h + a * (1.0 - h) <= Max(a, b)
  {
    assert b * h + a * (1.0 - h) == a + (b - a) * h;
    assert b * h + a * (1.0 - h) == b - (b - a) * (1.0 - h);
    if a <= b {
      MulNonneg(b - a, h);
      MulNonneg(b - a, 1.0 - h);
    } else {
      MulNonneg(a - b, h);
      MulNonneg(a - b, 1.0 - h);
      assert (b - a) * h == -((a - b) * h);
      assert (b - a) * (1.0 - h) == -((a - b) * (1.0 - h));
    }
  }

  /** One resumption of FadeRoutine: once the elapsed time has reached the
      duration the target is set (clamped) and the routine ends; otherwise
      time advances, the alpha is eased toward the target, and it yields. */
  function Resume(f: Fade, dt: real): (r: (Option<Fade>, real))
    requires f.duration > 0.0
    ensures f.t >= f.duration ==> r == (None, Clamp01(f.target))
    ensures f.t < f.duration ==>
              r.0 == Some(f.(t := f.t + dt))
              && Min(f.start, f.target) <= r.1 <= Max(f.start, f.target)
  {
    if f.t >= f.duration then (None, Clamp01(f.target))
    else
      var t := f.t + dt;
      (Some(f.(t := t)), SmoothStep(f.start, f.target, Clamp01(t / f.duration)))
  }

  /** StartFade: any running fade of the image is replaced.  A zero or
      negative duration sets the clamped target at once; otherwise the new
      routine starts from the current alpha and runs its first step now. */
  function StartFade(im: Images, img: int, target: real, duration: real, dt: real): (r: Images)
    requires img in im.alpha
    ensures r.alpha.Keys == im.alpha.Keys
    ensures forall j :: j != img ==> (j in r.fades <==> j in im.fades) && (j in r.fades ==> r.fades[j] == im.fades[j])
    ensures forall j :: j in im.alpha && j != img ==> r.alpha[j] == im.alpha[j]
    ensures duration <= 0.0 ==> r.alpha[img] == Clamp01(target) && img !in r.fades
    ensures duration > 0.0 ==>
              img in r.fades && r.fades[img] == Fade(im.alpha[img], target, duration, dt)
              && Min(im.alpha[img], target) <= r.alpha[img] <= Max(im.alpha[img], target)
  {
    if duration <= 0.0 then
      Images(im.alpha[img := Clamp01(target)], im.fades - {img})
    else
      var (rest, a) := Resume(Fade(im.alpha[img], target, duration, 0.0), dt);
      Images(im.alpha[img := a], im.fades[img := rest.value])
  }

  /** The out trigger: the previous x was right of FadeOutAtX and x is at
      or left of it. */
  predicate CrossedOut(prevX: real, x: real, rule: FadeRule) { prevX > rule.fadeOutAtX && x <= rule.fadeOutAtX }

  /** The in trigger: the previous x was left of FadeInAtX and x is at or
      right of it. */
  predicate CrossedIn(prevX: real, x: real, rule: FadeRule) { prevX < rule.fadeInAtX && x >= rule.fadeInAtX }

  /** The image a rule slot drives: none for a null rule or a rule
      without an image. */
  function ImageOf(rule: Option<FadeRule>): Option<int>
  {
    if rule.Some? then rule.value.image else None
  }

  predicate Covers(rules: seq<Option<FadeRule>>, im: Images)
  {
    forall i :: 0 <= i < |rules| && ImageOf(rules[i]).Some? ==> ImageOf(rules[i]).value in im.alpha
  }

  /** No two rule slots drive the same image. */
  predicate DistinctImages(rules: seq<Option<FadeRule>>)
  {
    forall k, l :: 0 <= k < l < |rules| && ImageOf(rules[k]).Some? ==> ImageOf(rules[k]) != ImageOf(rules[l])
  }

  /** Two image states agree on image img: same presence and alpha, same
      running fade. */
  predicate SameAt(a: Images, b: Images, img: int)
  {
    (img in a.alpha <==> img in b.alpha) && (img in a.alpha ==> a.alpha[img] == b.alpha[img])
    && (img in a.fades <==> img in b.fades) && (img in a.fades ==> a.fades[img] == b.fades[img])
  }

  /** The image is heading for alpha a: its running fade targets a, or no
      fade runs and its alpha already is a. */
  predicate FadingTo(im: Images, img: int, a: real)
  {
    (img in im.fades && im.fades[img].target == a)
    || (img !in im.fades && img in im.alpha && im.alpha[img] == a)
  }

  /** A fade started toward a target in [0, 1] heads for that target. */
  lemma StartFadeHeadsForTarget(im: Images, img: int, target: real, duration: real, dt: real)
    requires img in im.alpha && 0.0 <= target <= 1.0
    ensures FadingTo(StartFade(im, img, target, duration, dt), img, target)
  {
  }

  /** The out and in triggers never fire together: the out crossing puts
      FadeInAtX at or below x and x below prevX, while the in crossing
      needs prevX below FadeInAtX. */
  lemma CrossingsExclusive(prevX: real, x: real, rule: FadeRule)
    ensures !(CrossedOut(prevX, x, rule) && CrossedIn(prevX, x, rule))
  {
  }

  /** One rule of the Update loop: fade out on the out crossing, then fade
      in on the in crossing if the image is (nearly) transparent. */
  function ApplyRule(im: Images, rule: FadeRule, prevX: real, x: real, alphaZeroEps: real, dt: real): (r: Images)
    requires rule.image.Some? && rule.image.value in im.alpha
    ensures r.alpha.Keys == im.alpha.Keys
    ensures CrossedOut(prevX, x, rule) ==>
              r == StartFade(im, rule.image.value, 0.0, rule.fadeOutDuration, dt) && FadingTo(r, rule.image.value, 0.0)
    ensures CrossedIn(prevX, x, rule) && im.alpha[rule.image.value] <= alphaZeroEps ==>
              r == StartFade(im, rule.image.value, 1.0, rule.fadeInDuration, dt) && FadingTo(r, rule.image.value, 1.0)
    ensures !CrossedOut(prevX, x, rule) && (!CrossedIn(prevX, x, rule) || im.alpha[rule.image.value] > alphaZeroEps) ==> r == im
    ensures forall j :: j != rule.image.value ==> SameAt(r, im, j)
  {
    var img := rule.image.value;
    var afterOut := if CrossedOut(prevX, x, rule) then StartFade(im, img, 0.0, rule.fadeOutDuration, dt) else im;
    CrossingsExclusive(prevX, x, rule);
    StartFadeHeadsForTarget(im, img, 0.0, rule.fadeOutDuration, dt);
    StartFadeHeadsForTarget(im, img, 1.0, rule.fadeInDuration, dt);
    if afterOut.alpha[img] <= alphaZeroEps && CrossedIn(prevX, x, rule)
    then StartFade(afterOut, img, 1.0, rule.fadeInDuration, dt)
    else afterOut
  }

  /** StartFade only reads the image it starts: two states that agree on it
      still agree on it afterwards. */
  lemma StartFadeLocal(a: Images, b: Images, img: int, target: real, duration: real, dt: real)
    requires img in a.alpha && SameAt(a, b, img)
    ensures SameAt(StartFade(a, img, target, duration, dt), StartFade(b, img, target, duration, dt), img)
  {
  }

  /** ApplyRule only reads its own image. */
  lemma ApplyRuleLocal(a: Images, b: Images, rule: FadeRule, prevX: real, x: real, eps: real, dt: real)
    requires rule.image.Some? && rule.image.value in a.alpha && SameAt(a, b, rule.image.value)
    ensures SameAt(ApplyRule(a, rule, prevX, x, eps, dt), ApplyRule(b, rule, prevX, x, eps, dt), rule.image.value)
  {
    var img := rule.image.value;
    StartFadeLocal(a, b, img, 0.0, rule.fadeOutDuration, dt);
    StartFadeLocal(a, b, img, 1.0, rule.fadeInDuration, dt);
  }

  /** ApplyRuleLocal for every rule slot from i on. */
  lemma ApplyRuleLocalFrom(a: Images, b: Images, rules: seq<Option<FadeRule>>, i: nat, prevX: real, x: real,
                           eps: real, dt: real)
    requires i <= |rules| && Covers(rules, a) && Covers(rules, b)
    requires forall k :: i <= k < |rules| && ImageOf(rules[k]).Some? ==> SameAt(a, b, ImageOf(rules[k]).value)
    ensures forall k :: i <= k < |rules| && ImageOf(rules[k]).Some? ==>
              SameAt(ApplyRule(a, rules[k].value, prevX, x, eps, dt), ApplyRule(b, rules[k].value, prevX, x, eps, dt),
                     ImageOf(rules[k]).value)
  {
    forall k | i <= k < |rules| && ImageOf(rules[k]).Some?
      ensures SameAt(ApplyRule(a, rules[k].value, prevX, x, eps, dt), ApplyRule(b, rules[k].value, prevX, x, eps, dt),
                     ImageOf(rules[k]).value)
    {
      ApplyRuleLocal(a, b, rules[k].value, prevX, x, eps, dt);
    }
  }

  /** The rules from index i on, in order, skipping null rules and rules
      without an image.  An image no rule drives is untouched; when no two
      rules drive the same image, each driven image ends exactly as its own
      rule alone would leave it. */
  function ApplyRules(im: Images, rules: seq<Option<FadeRule>>, i: nat, prevX: real, x: real,
                      alphaZeroEps: real, dt: real): (r: Images)
    requires i <= |rules| && Covers(rules, im)
    ensures r.alpha.Keys == im.alpha.Keys && Covers(rules, r)
    ensures (forall k :: i <= k < |rules| && ImageOf(rules[k]).Some? ==>
               !CrossedOut(prevX, x, rules[k].value) && !CrossedIn(prevX, x, rules[k].value)) ==> r == im
    ensures forall j :: (forall k :: i <= k < |rules| ==> ImageOf(rules[k]) != Some(j)) ==> SameAt(r, im, j)
    ensures DistinctImages(rules) ==>
              forall k :: i <= k < |rules| && ImageOf(rules[k]).Some? ==>
                SameAt(r, ApplyRule(im, rules[k].value, prevX, x, alphaZeroEps, dt), ImageOf(rules[k]).value)
    decreases |rules| - i
  {
    if i == |rules| then im
    else
      var rule := rules[i];
      var next := if ImageOf(rule).None? then im
                  else ApplyRule(im, rule.value, prevX, x, alphaZeroEps, dt);
      var res := ApplyRules(next, rules, i + 1, prevX, x, alphaZeroEps, dt);
      if DistinctImages(rules) then
        ApplyRuleLocalFrom(next, im, rules, i + 1, prevX, x, alphaZeroEps, dt);
        res
      else res
  }

  /** Update: with no rules or no base nothing happens (not even the
      previous x); otherwise the rules run against the previous x and the
      current one, and the current one is stored. */
  function Update(st: FadeState, rules: seq<Option<FadeRule>>, baseX: Option<real>, alphaZeroEps: real, dt: real)
    : (r: FadeState)
    requires Covers(rules, st.images)
    ensures |rules| == 0 || baseX.None? ==> r == st
    ensures |rules| > 0 && baseX.Some? ==>
              r.prevX == baseX.value && r.images == ApplyRules(st.images, rules, 0, st.prevX, baseX.value, alphaZeroEps, dt)
    ensures Covers(rules, r.images)
  {
    if |rules| == 0 || baseX.None? then st
    else FadeState(baseX.value, ApplyRules(st.images, rules, 0, st.prevX, baseX.value, alphaZeroEps, dt))
  }

  /** The frame's effect on one rule's image, when no two rules share an
      image: an out crossing sends it toward 0, an in crossing of a
      (nearly) transparent image sends it toward 1, and without a crossing
      it is left as it was. */
  lemma UpdateDrivesImage(st: FadeState, rules: seq<Option<FadeRule>>, baseX: real, eps: real, dt: real, k: nat)
    requires Covers(rules, st.images) && DistinctImages(rules)
    requires k < |rules| && ImageOf(rules[k]).Some?
    ensures var img := ImageOf(rules[k]).value;
            var r := Update(st, rules, Some(baseX), eps, dt);
            && (CrossedOut(st.prevX, baseX, rules[k].value) ==> FadingTo(r.images, img, 0.0))
            && (CrossedIn(st.prevX, baseX, rules[k].value) && st.images.alpha[img] <= eps ==> FadingTo(r.images, img, 1.0))
            && (!CrossedOut(st.prevX, baseX, rules[k].value) && !CrossedIn(st.prevX, baseX, rules[k].value) ==>
                  SameAt(r.images, st.images, img))
  {
  }

  /** Holding still triggers nothing: with x equal to the previous x no
      crossing happens, so no fade starts. */
  lemma StillBaseStartsNothing(st: FadeState, rules: seq<Option<FadeRule>>, eps: real, dt: real)
    requires Covers(rules, st.images) && |rules| > 0
    ensures Update(st, rules, Some(st.prevX), eps, dt) == st
  {
  }

  /** Alphas in [0, 1], and every running fade between [0, 1] values. */
  predicate InRange(im: Images)
  {
    (forall j :: j in im.alpha ==> 0.0 <= im.alpha[j] <= 1.0)
    && (forall j :: j in im.fades ==> 0.0 <= im.fades[j].start <= 1.0 && 0.0 <= im.fades[j].target <= 1.0
                                      && im.fades[j].duration > 0.0)
  }

  /** Fading never takes an alpha out of [0, 1]. */
  lemma {:induction false} ApplyRulesInRange(im: Images, rules: seq<Option<FadeRule>>, i: nat, prevX: real, x: real,
                                             eps: real, dt: real)
    requires i <= |rules| && Covers(rules, im) && InRange(im)
    ensures InRange(ApplyRules(im, rules, i, prevX, x, eps, dt))
    decreases |rules| - i
  {
    if i < |rules| {
      var rule := rules[i];
      var next := if ImageOf(rule).None? then im
                  else ApplyRule(im, rule.value, prevX, x, eps, dt);
      if ImageOf(rule).Some? {
        var img := rule.value.image.value;
        var afterOut := if CrossedOut(prevX, x, rule.value) then StartFade(im, img, 0.0, rule.value.fadeOutDuration, dt) else im;
        assert InRange(afterOut);
        if afterOut.alpha[img] <= eps && CrossedIn(prevX, x, rule.value) {
          assert InRange(StartFade(afterOut, img, 1.0, rule.value.fadeInDuration, dt));
        }
      }
      assert InRange(next);
      ApplyRulesInRange(next, rules, i + 1, prevX, x, eps, dt);
    }
  }

  /** The coroutines' frame step: every running fade resumes once. */
  function ResumeAll(im: Images, dt: real): (r: Images)
    requires forall j :: j in im.fades ==> im.fades[j].duration > 0.0
    ensures r.fades.Keys <= im.fades.Keys
    ensures forall j :: j in im.alpha && j !in im.fades ==> j in r.alpha && r.alpha[j] == im.alpha[j]
    ensures InRange(im) && im.fades.Keys <= im.alpha.Keys ==> InRange(r)
  {
    var fades := map j | j in im.fades && Resume(im.fades[j], dt).0.Some? :: Resume(im.fades[j], dt).0.value;
    var alpha := map j | j in im.alpha :: if j in im.fades then Resume(im.fades[j], dt).1 else im.alpha[j];
    Images(alpha, fades)
  }

  /** OnDisable: every running fade is stopped. */
  function OnDisable(st: FadeState): (r: FadeState)
    ensures r.images.fades == map[] && r.images.alpha == st.images.alpha && r.prevX == st.prevX
  {
    st.(images := st.images.(fades := map[]))
  }

  /** Awake: the previous x starts at the base's x. */
  function Awake(baseX: real, im: Images): (r: FadeState)
    ensures r.prevX == baseX && r.images == im
  {
    FadeState(baseX, im)
  }
}
