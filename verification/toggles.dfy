/** The on/off bookkeeping shared by CollisionManager and CollisionManager2:
    the default-state cache, the StopAfterApply cut within one mirror's rule
    list, the desired-state resolution (defaults, then enables, then
    disables) and the final write of only the differing objects.

    Colliders and GameObjects are handles of two kinds; one map keyed by
    Target stands for the source's two dictionaries.  `alive` is the set
    of handles for which Unity's `!obj` test is false (not null, not
    destroyed); `current` is the engine's enabled/activeSelf flag of each
    live handle. */
module Toggles {
  import opened Optional

  datatype Target = ColliderT(id: int) | ObjectT(id: int)

  /** A ToggleGroup's Colliders and Objects arrays, flattened to one list
      (a null array is an empty one). */
  type Group = seq<Target>

  predicate Covers(current: map<Target, bool>, alive: set<Target>)
  {
    forall t :: t in alive ==> t in current
  }

  // ---------------------------------------------------------------------
  // Default cache

  /** CacheToggleGroup: every live member not yet cached records its current
      state; entries already present are kept (first seen wins). */
  function CacheToggleGroup(defaults: map<Target, bool>, group: Group, alive: set<Target>, current: map<Target, bool>)
    : (r: map<Target, bool>)
    requires Covers(current, alive)
    ensures forall t :: t in r <==> t in defaults || (t in group && t in alive)
    ensures forall t :: t in defaults ==> r[t] == defaults[t]
    ensures forall t :: t in r && t !in defaults ==> r[t] == current[t]
    decreases |group|
  {
    if |group| == 0 then defaults
    else
      var t := group[0];
      var d := if t in alive && t !in defaults then defaults[t := current[t]] else defaults;
      CacheToggleGroup(d, group[1..], alive, current)
  }

  /** CacheDefaultStates: the cache is cleared and then filled from every
      group in order. */
  function CacheGroups(defaults: map<Target, bool>, groups: seq<Group>, alive: set<Target>, current: map<Target, bool>)
    : (r: map<Target, bool>)
    requires Covers(current, alive)
    ensures forall t :: t in r <==> t in defaults || InAny(t, groups, alive)
    ensures forall t :: t in defaults ==> r[t] == defaults[t]
    ensures forall t :: t in r && t !in defaults ==> t in alive && r[t] == current[t]
    decreases |groups|
  {
    if |groups| == 0 then defaults
    else CacheGroups(CacheToggleGroup(defaults, groups[0], alive, current), groups[1..], alive, current)
  }

  /** t is a live member of one of the groups. */
  predicate InAny(t: Target, groups: seq<Group>, alive: set<Target>)
  {
    t in alive && exists i :: 0 <= i < |groups| && t in groups[i]
  }

  /** Filling an empty cache records exactly the live members of the groups,
      each with the state it had when the cache was built. */
  lemma CacheDefaultStatesRecordsCurrent(groups: seq<Group>, alive: set<Target>, current: map<Target, bool>)
    requires Covers(current, alive)
    ensures var d := CacheGroups(map[], groups, alive, current);
            (forall t :: t in d <==> InAny(t, groups, alive)) && (forall t :: t in d ==> d[t] == current[t])
  {
  }

  // ---------------------------------------------------------------------
  // StopAfterApply

  /** One rule slot of a mirror: a null rule, or the rule's evaluation
      result together with its StopAfterApply flag. */
  datatype RuleEval = NullRule | Evaluated(isMatch: bool, stopAfterApply: bool)
  {
    predicate Stops() { Evaluated? && isMatch && stopAfterApply }
  }

  /** The index of the first matching StopAfterApply rule, or -1. */
  function FirstStop(evals: seq<RuleEval>): (k: int)
    ensures -1 <= k < |evals|
    ensures k >= 0 ==> evals[k].Stops() && forall j :: 0 <= j < k ==> !evals[j].Stops()
    ensures k == -1 ==> forall j :: 0 <= j < |evals| ==> !evals[j].Stops()
    decreases |evals|
  {
    if |evals| == 0 then -1
    else
      var n := |evals| - 1;
      var k := FirstStop(evals[..n]);
      assert forall j :: 0 <= j < n ==> evals[..n][j] == evals[j];
      if k >= 0 then k else if evals[n].Stops() then n else -1
  }

  /** The matched flags of one mirror's rules: the evaluation results, with
      every rule after the first matching StopAfterApply rule forced false. */
  method MatchFlags(evals: seq<RuleEval>) returns (matched: seq<bool>)
    ensures |matched| == |evals|
    ensures forall r :: 0 <= r < |evals| ==>
              (matched[r] <==> evals[r].Evaluated? && evals[r].isMatch && (FirstStop(evals) < 0 || r <= FirstStop(evals)))
  {
    var n := |evals|;
    matched := seq(n, _ => false);
    var firstStopIndex := -1;
    var r := 0;
    while r < n
      invariant 0 <= r <= n && |matched| == n
      invariant forall j :: 0 <= j < r ==> (matched[j] <==> evals[j].Evaluated? && evals[j].isMatch)
      invariant forall j :: r <= j < n ==> !matched[j]
      invariant firstStopIndex == FirstStop(evals[..r])
    {
      FirstStopPrefix(evals, r);
      if evals[r].Evaluated? {
        matched := matched[r := evals[r].isMatch];
        if firstStopIndex < 0 && evals[r].isMatch && evals[r].stopAfterApply {
          firstStopIndex := r;
        }
      }
      assert matched[r] <==> evals[r].Evaluated? && evals[r].isMatch;
      r := r + 1;
    }
    assert evals[..n] == evals;
    if firstStopIndex >= 0 {
      r := firstStopIndex + 1;
      while r < n
        invariant firstStopIndex + 1 <= r <= n && |matched| == n
        invariant forall j :: 0 <= j < r ==> (matched[j] <==> evals[j].Evaluated? && evals[j].isMatch && j <= firstStopIndex)
        invariant forall j :: r <= j < n ==> (matched[j] <==> evals[j].Evaluated? && evals[j].isMatch)
      {
        matched := matched[r := false];
        r := r + 1;
      }
    }
  }

  /** FirstStop of the prefix of length r + 1, from that of length r. */
  lemma FirstStopPrefix(evals: seq<RuleEval>, r: int)
    requires 0 <= r < |evals|
    ensures FirstStop(evals[..r + 1]) == if FirstStop(evals[..r]) >= 0 then FirstStop(evals[..r])
                                         else if evals[r].Stops() then r else -1
  {
    var upTo := evals[..r + 1];
    assert upTo[..r] == evals[..r] && upTo[r] == evals[r];
  }

  lemma FirstStopUnique(s: seq<RuleEval>, a: int, b: int)
    requires -1 <= a < |s| && -1 <= b < |s|
    requires a >= 0 ==> s[a].Stops() && forall j :: 0 <= j < a ==> !s[j].Stops()
    requires a == -1 ==> forall j :: 0 <= j < |s| ==> !s[j].Stops()
    requires b >= 0 ==> s[b].Stops() && forall j :: 0 <= j < b ==> !s[j].Stops()
    requires b == -1 ==> forall j :: 0 <= j < |s| ==> !s[j].Stops()
    ensures a == b
  {
  }

  // ---------------------------------------------------------------------
  // Desired state

  /** Writes v for every live member of one group. */
  function SetGroup(m: map<Target, bool>, group: Group, alive: set<Target>, v: bool): (r: map<Target, bool>)
    ensures forall t :: t in r <==> t in m || (t in group && t in alive)
    ensures forall t :: t in r ==> r[t] == if t in group && t in alive then v else m[t]
    decreases |group|
  {
    if |group| == 0 then m
    else
      var t := group[0];
      SetGroup(if t in alive then m[t := v] else m, group[1..], alive, v)
  }

  /** Writes v for every live member of every group. */
  function SetGroups(m: map<Target, bool>, groups: seq<Group>, alive: set<Target>, v: bool): (r: map<Target, bool>)
    ensures forall t :: t in r <==> t in m || InAny(t, groups, alive)
    ensures forall t :: t in r ==> r[t] == if InAny(t, groups, alive) then v else m[t]
    decreases |groups|
  {
    if |groups| == 0 then m
    else
      var r := SetGroups(SetGroup(m, groups[0], alive, v), groups[1..], alive, v);
      assert forall t :: InAny(t, groups, alive) <==> (t in alive && t in groups[0]) || InAny(t, groups[1..], alive) by {
        forall t ensures InAny(t, groups, alive) <==> (t in alive && t in groups[0]) || InAny(t, groups[1..], alive) {
          if InAny(t, groups, alive) {
            var i :| 0 <= i < |groups| && t in groups[i];
            if i > 0 { assert groups[1..][i - 1] == groups[i]; }
          }
          if InAny(t, groups[1..], alive) {
            var i :| 0 <= i < |groups[1..]| && t in groups[1..][i];
            assert groups[i + 1] == groups[1..][i];
          }
        }
      }
      r
  }

  /** Update's steps 2-4: start from the defaults, switch on the live members
      of the matched enable groups, then switch off those of the matched
      disable groups. */
  function Desired(defaults: map<Target, bool>, enables: seq<Group>, disables: seq<Group>, alive: set<Target>)
    : (d: map<Target, bool>)
    ensures forall t :: t in d <==> t in defaults || InAny(t, enables, alive) || InAny(t, disables, alive)
    ensures forall t :: InAny(t, disables, alive) ==> !d[t]
    ensures forall t :: !InAny(t, disables, alive) && InAny(t, enables, alive) ==> d[t]
    ensures forall t :: t in defaults && !InAny(t, disables, alive) && !InAny(t, enables, alive) ==> d[t] == defaults[t]
  {
    SetGroups(SetGroups(defaults, enables, alive, true), disables, alive, false)
  }

  // ---------------------------------------------------------------------
  // Apply

  /** The engine state after writing the desired flags, and the set of
      handles actually written. */
  datatype Applied = Applied(current: map<Target, bool>, writes: set<Target>)

  /** Update's step 5: every live key of the desired map is written when its
      flag differs from the desired one. */
  function ApplyDesired(current: map<Target, bool>, desired: map<Target, bool>, alive: set<Target>): (a: Applied)
    requires Covers(current, alive)
    ensures a.current.Keys == current.Keys
    ensures forall t :: t in desired && t in alive ==> a.current[t] == desired[t]
    ensures forall t :: t in current && !(t in desired && t in alive) ==> a.current[t] == current[t]
    ensures forall t :: t in a.writes <==> t in current && a.current[t] != current[t]
  {
    var cur := map t | t in current :: if t in desired && t in alive then desired[t] else current[t];
    var w := set t | t in desired && t in alive && current[t] != desired[t];
    Applied(cur, w)
  }

  /** Applying the same desired state a second time writes nothing. */
  lemma ApplyDesiredIdempotent(current: map<Target, bool>, desired: map<Target, bool>, alive: set<Target>)
    requires Covers(current, alive)
    ensures var a := ApplyDesired(current, desired, alive);
            var b := ApplyDesired(a.current, desired, alive);
            b.writes == {} && b.current == a.current
  {
    var a := ApplyDesired(current, desired, alive);
    var b := ApplyDesired(a.current, desired, alive);
    assert forall t :: t !in b.writes;
  }

  /** Rules whose results collected into the matched-rule list, mirror by
      mirror: the rules whose flag is set. */
  function Matched<R(!new)>(rules: seq<Option<R>>, flags: seq<bool>): (r: seq<R>)
    requires |flags| == |rules|
    ensures |r| <= |rules|
    ensures forall x :: x in r <==> exists i :: 0 <= i < |rules| && flags[i] && rules[i] == Some(x)
    decreases |rules|
  {
    if |rules| == 0 then []
    else
      var rest := Matched(rules[1..], flags[1..]);
      assert forall x :: (exists i :: 0 <= i < |rules[1..]| && flags[1..][i] && rules[1..][i] == Some(x))
                     <==> (exists i :: 1 <= i < |rules| && flags[i] && rules[i] == Some(x)) by {
        forall x ensures (exists i :: 0 <= i < |rules[1..]| && flags[1..][i] && rules[1..][i] == Some(x))
                     <==> (exists i :: 1 <= i < |rules| && flags[i] && rules[i] == Some(x)) {
          if exists i :: 1 <= i < |rules| && flags[i] && rules[i] == Some(x) {
            var i :| 1 <= i < |rules| && flags[i] && rules[i] == Some(x);
            assert flags[1..][i - 1] && rules[1..][i - 1] == Some(x);
          }
        }
      }
      if flags[0] && rules[0].Some? then [rules[0].value] + rest else rest
  }

  // ---------------------------------------------------------------------
  // Collecting the matched rules of every mirror

  /** A MirrorEntry: the mirror's pose (None when unassigned) and its rule
      slots (None for a null rule; a null Rules array is an empty one). */
  datatype Entry<P, R> = Entry(mirror: Option<P>, rules: seq<Option<R>>)

  /** The evaluation slots of one mirror's rules. */
  function Evals<P, R>(rules: seq<Option<R>>, pose: P, eval: (R, P) -> bool, stop: R -> bool): (e: seq<RuleEval>)
    ensures |e| == |rules|
    ensures forall i :: 0 <= i < |rules| ==>
              e[i] == (if rules[i].None? then NullRule else Evaluated(eval(rules[i].value, pose), stop(rules[i].value)))
  {
    seq(|rules|, i requires 0 <= i < |rules| =>
      if rules[i].None? then NullRule else Evaluated(eval(rules[i].value, pose), stop(rules[i].value)))
  }

  /** Rule r of mirror i counts as matched this frame: the mirror is
      assigned, the rule is non-null and evaluates true, and no earlier rule
      of the same mirror matched with StopAfterApply. */
  predicate MatchesAt<P, R>(mirrors: seq<Option<Entry<P, R>>>, eval: (R, P) -> bool, stop: R -> bool, i: int, r: int)
  {
    0 <= i < |mirrors| && mirrors[i].Some? && mirrors[i].value.mirror.Some?
    && 0 <= r < |mirrors[i].value.rules| && mirrors[i].value.rules[r].Some?
    && eval(mirrors[i].value.rules[r].value, mirrors[i].value.mirror.value)
    && var k := FirstStop(Evals(mirrors[i].value.rules, mirrors[i].value.mirror.value, eval, stop));
       k < 0 || r <= k
  }

  /** The rules one mirror contributes are exactly its matches. */
  lemma MirrorContribution<P, R(!new)>(mirrors: seq<Option<Entry<P, R>>>, eval: (R, P) -> bool, stop: R -> bool,
                                      i: int, flags: seq<bool>)
    requires 0 <= i < |mirrors| && mirrors[i].Some? && mirrors[i].value.mirror.Some?
    requires var entry := mirrors[i].value;
             var evals := Evals(entry.rules, entry.mirror.value, eval, stop);
             |flags| == |evals|
             && forall r :: 0 <= r < |evals| ==>
                  (flags[r] <==> evals[r].Evaluated? && evals[r].isMatch && (FirstStop(evals) < 0 || r <= FirstStop(evals)))
    ensures forall x :: x in Matched(mirrors[i].value.rules, flags) <==>
              exists r :: MatchesAt(mirrors, eval, stop, i, r) && mirrors[i].value.rules[r] == Some(x)
  {
    var entry := mirrors[i].value;
    forall x ensures x in Matched(entry.rules, flags) <==>
                       exists r :: MatchesAt(mirrors, eval, stop, i, r) && mirrors[i].value.rules[r] == Some(x)
    {
      if x in Matched(entry.rules, flags) {
        var r :| 0 <= r < |entry.rules| && flags[r] && entry.rules[r] == Some(x);
        assert MatchesAt(mirrors, eval, stop, i, r);
      }
      if exists r :: MatchesAt(mirrors, eval, stop, i, r) && mirrors[i].value.rules[r] == Some(x) {
        var r :| MatchesAt(mirrors, eval, stop, i, r) && mirrors[i].value.rules[r] == Some(x);
        assert flags[r];
      }
    }
  }

  /** Step 1 of both managers' Update: the rules that match this frame,
      mirror by mirror, with StopAfterApply applied within each mirror. */
  method MatchedRules<P, R(==, !new)>(mirrors: seq<Option<Entry<P, R>>>, eval: (R, P) -> bool, stop: R -> bool)
    returns (matched: seq<R>)
    ensures forall x :: x in matched <==>
              exists i, r :: MatchesAt(mirrors, eval, stop, i, r) && mirrors[i].value.rules[r] == Some(x)
  {
    matched := [];
    for i := 0 to |mirrors|
      invariant forall x :: x in matched <==>
              exists j, r :: j < i && MatchesAt(mirrors, eval, stop, j, r) && mirrors[j].value.rules[r] == Some(x)
    {
      if mirrors[i].None? || mirrors[i].value.mirror.None? || |mirrors[i].value.rules| == 0 {
        continue;
      }
      var entry := mirrors[i].value;
      var evals := Evals(entry.rules, entry.mirror.value, eval, stop);
      var flags := MatchFlags(evals);
      var add := Matched(entry.rules, flags);
      MirrorContribution(mirrors, eval, stop, i, flags);
      matched := matched + add;
    }
  }

  /** The groups a list of rules selects, one per rule. */
  function GroupsOf<R>(rules: seq<R>, groupOf: R -> Group): (g: seq<Group>)
    ensures |g| == |rules| && forall i :: 0 <= i < |rules| ==> g[i] == groupOf(rules[i])
  {
    seq(|rules|, i requires 0 <= i < |rules| => groupOf(rules[i]))
  }

  /** t is a live member of the selected group of some rule in the list. */
  predicate Touched<R(==, !new)>(rules: seq<R>, groupOf: R -> Group, t: Target, alive: set<Target>)
  {
    t in alive && exists x :: x in rules && t in groupOf(x)
  }

  lemma TouchedIsInAny<R(!new)>(rules: seq<R>, groupOf: R -> Group, alive: set<Target>)
    ensures forall t :: Touched(rules, groupOf, t, alive) <==> InAny(t, GroupsOf(rules, groupOf), alive)
  {
    forall t ensures Touched(rules, groupOf, t, alive) <==> InAny(t, GroupsOf(rules, groupOf), alive) {
      if Touched(rules, groupOf, t, alive) {
        var x :| x in rules && t in groupOf(x);
        var k :| 0 <= k < |rules| && rules[k] == x;
        assert t in GroupsOf(rules, groupOf)[k];
      }
      if InAny(t, GroupsOf(rules, groupOf), alive) {
        var k :| 0 <= k < |GroupsOf(rules, groupOf)| && t in GroupsOf(rules, groupOf)[k];
        assert rules[k] in rules;
      }
    }
  }
}
