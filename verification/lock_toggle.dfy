/** NewCollisionManager: each entry watches one ObjectClampMover's lock flag
    (optionally inverted) and, when that state needs applying, switches one
    group of colliders/objects on and another off. */
module LockToggle {
  import opened Optional
  import opened Toggles

  /** A LockToggleEntry.  `source` is the watched mover's handle (None when
      unassigned); `initialized` and `last` are m_Initialized and m_Last.
      A null ToggleGroup is None. */
  datatype LockEntry = LockEntry(source: Option<int>, invert: bool,
                                 onWhenTrue: Option<Group>, offWhenTrue: Option<Group>,
                                 initialized: bool, last: bool)

  /** GetCurrentState: the mover's IsLocked flag (false without a source),
      flipped when Invert is set.  IsLocked lives outside this component and
      is a parameter. */
  function GetCurrentState(e: LockEntry, isLocked: int -> bool): (s: bool)
    ensures e.source.None? ==> s == e.invert
    ensures e.source.Some? ==> (s <==> isLocked(e.source.value) != e.invert)
  {
    var locked := if e.source.Some? then isLocked(e.source.value) else false;
    if e.invert then !locked else locked
  }

  /** RefreshAll's apply condition. */
  predicate ShouldApply(e: LockEntry, applyAlways: bool, state: bool)
  {
    applyAlways || !e.initialized || state != e.last
  }

  /** ToggleGroup.SetEnabled: every live collider and object of the group
      gets the flag; dead or null members are skipped and nothing else
      changes. */
  function SetEnabled(m: map<Target, bool>, group: Group, alive: set<Target>, enabled: bool): (r: map<Target, bool>)
    requires Covers(m, alive)
    ensures r.Keys == m.Keys
    ensures forall t :: t in m ==> r[t] == if t in group && t in alive then enabled else m[t]
  {
    SetGroup(m, group, alive, enabled)
  }

  /** The entry mentions t in one of its two groups. */
  predicate Touches(e: LockEntry, t: Target)
  {
    (e.onWhenTrue.Some? && t in e.onWhenTrue.value) || (e.offWhenTrue.Some? && t in e.offWhenTrue.value)
  }

  /** The flag ApplyEntry leaves on t: members of OffWhenTrue get !state
      (that group is written second, so it wins), the other members of
      OnWhenTrue get state. */
  function Effect(e: LockEntry, state: bool, t: Target): (v: bool)
    requires Touches(e, t)
  {
    if e.offWhenTrue.Some? && t in e.offWhenTrue.value then !state else state
  }

  /** ApplyEntry: state true enables OnWhenTrue and disables OffWhenTrue;
      state false does the reverse. */
  function ApplyEntry(m: map<Target, bool>, e: LockEntry, state: bool, alive: set<Target>): (r: map<Target, bool>)
    requires Covers(m, alive)
    ensures r.Keys == m.Keys
    ensures forall t :: t in m && t in alive && Touches(e, t) ==> r[t] == Effect(e, state, t)
    ensures forall t :: t in m && !(t in alive && Touches(e, t)) ==> r[t] == m[t]
    ensures forall t :: t in alive && e.offWhenTrue.Some? && t in e.offWhenTrue.value ==> r[t] == !state
  {
    var on := if e.onWhenTrue.Some? then SetEnabled(m, e.onWhenTrue.value, alive, state) else m;
    if e.offWhenTrue.Some? then SetEnabled(on, e.offWhenTrue.value, alive, !state) else on
  }

  /** An entry after RefreshAll has visited it. */
  function Refreshed(e: LockEntry, isLocked: int -> bool): (r: LockEntry)
    ensures r.initialized && r.last == GetCurrentState(e, isLocked)
    ensures r.source == e.source && r.invert == e.invert
    ensures r.onWhenTrue == e.onWhenTrue && r.offWhenTrue == e.offWhenTrue
  {
    e.(initialized := true, last := GetCurrentState(e, isLocked))
  }

  /** Every entry has been applied and remembers its current state, as
      after a refresh with unchanged lock flags. */
  predicate Settled(entries: seq<Option<LockEntry>>, isLocked: int -> bool)
  {
    forall i :: 0 <= i < |entries| && entries[i].Some? ==>
      entries[i].value.initialized && entries[i].value.last == GetCurrentState(entries[i].value, isLocked)
  }

  /** Entry i was applied and writes t. */
  predicate Writes(entries: seq<Option<LockEntry>>, applied: set<int>, alive: set<Target>, t: Target, i: int)
  {
    i in applied && 0 <= i < |entries| && entries[i].Some? && t in alive && Touches(entries[i].value, t)
  }

  /** The flag entry i leaves on t when applied. */
  function EffectAt(entries: seq<Option<LockEntry>>, isLocked: int -> bool, t: Target, i: int): bool
    requires 0 <= i < |entries| && entries[i].Some? && Touches(entries[i].value, t)
  {
    Effect(entries[i].value, GetCurrentState(entries[i].value, isLocked), t)
  }

  /** RefreshAll: null entries are skipped; every other entry is applied
      when applyAlways holds, it has never been applied, or its state
      changed; afterwards every entry is initialized and remembers its
      state.  Each flag ends as the last applied entry writing it left it,
      and flags no applied entry writes are untouched. */
  method RefreshAll(entries: seq<Option<LockEntry>>, applyAlways: bool, isLocked: int -> bool,
                    current: map<Target, bool>, alive: set<Target>)
    returns (out: seq<Option<LockEntry>>, engine: map<Target, bool>, applied: set<int>)
    requires Covers(current, alive)
    ensures |out| == |entries|
    ensures forall i :: 0 <= i < |entries| ==>
              out[i] == if entries[i].None? then None else Some(Refreshed(entries[i].value, isLocked))
    ensures forall i :: i in applied <==>
              0 <= i < |entries| && entries[i].Some?
              && ShouldApply(entries[i].value, applyAlways, GetCurrentState(entries[i].value, isLocked))
    ensures engine.Keys == current.Keys
    ensures forall t, i :: t in current && Writes(entries, applied, alive, t, i)
              && (forall j :: Writes(entries, applied, alive, t, j) ==> j <= i)
              ==> engine[t] == EffectAt(entries, isLocked, t, i)
    ensures forall t :: t in current && (forall i :: !Writes(entries, applied, alive, t, i)) ==> engine[t] == current[t]
    ensures !applyAlways && Settled(entries, isLocked) ==> applied == {} && engine == current && out == entries
  {
    out := entries;
    engine := current;
    applied := {};
    for k := 0 to |entries|
      invariant |out| == |entries|
      invariant forall i :: 0 <= i < k ==>
                  out[i] == if entries[i].None? then None else Some(Refreshed(entries[i].value, isLocked))
      invariant forall i :: k <= i < |entries| ==> out[i] == entries[i]
      invariant forall i :: i in applied <==>
                  0 <= i < k && entries[i].Some?
                  && ShouldApply(entries[i].value, applyAlways, GetCurrentState(entries[i].value, isLocked))
      invariant engine.Keys == current.Keys
      invariant forall t, i :: t in current && Writes(entries, applied, alive, t, i)
                  && (forall j :: Writes(entries, applied, alive, t, j) ==> j <= i)
                  ==> engine[t] == EffectAt(entries, isLocked, t, i)
      invariant forall t :: t in current && (forall i :: !Writes(entries, applied, alive, t, i)) ==> engine[t] == current[t]
    {
      if entries[k].None? {
        continue;
      }
      var e := entries[k].value;
      var state := GetCurrentState(e, isLocked);
      if ShouldApply(e, applyAlways, state) {
        var before := engine;
        var applied0 := applied;
        engine := ApplyEntry(engine, e, state, alive);
        applied := applied + {k};
        forall t | t in current
          ensures forall i ::
                    Writes(entries, applied, alive, t, i)
                    && (forall j :: Writes(entries, applied, alive, t, j) ==> j <= i)
                    ==> engine[t] == EffectAt(entries, isLocked, t, i)
          ensures (forall i :: !Writes(entries, applied, alive, t, i)) ==> engine[t] == current[t]
        {
          if t in alive && Touches(e, t) {
            assert Writes(entries, applied, alive, t, k);
          } else {
            assert forall i :: Writes(entries, applied, alive, t, i) <==> Writes(entries, applied0, alive, t, i);
            assert engine[t] == before[t];
          }
        }
      }
      out := out[k := Some(e.(initialized := true, last := state))];
    }
    if !applyAlways && Settled(entries, isLocked) {
      assert forall i :: i !in applied;
      assert forall t :: t in current ==> engine[t] == current[t];
      assert out == entries;
    }
  }

  /** OnEnable: with ApplyOnEnable every entry is applied; without it
      nothing happens.  (Update is RefreshAll with applyAlways false and
      ManualRefresh is RefreshAll with applyAlways true.) */
  method OnEnable(entries: seq<Option<LockEntry>>, applyOnEnable: bool, isLocked: int -> bool,
                  current: map<Target, bool>, alive: set<Target>)
    returns (out: seq<Option<LockEntry>>, engine: map<Target, bool>, applied: set<int>)
    requires Covers(current, alive)
    ensures !applyOnEnable ==> out == entries && engine == current && applied == {}
    ensures applyOnEnable ==> forall i :: i in applied <==> 0 <= i < |entries| && entries[i].Some?
  {
    if applyOnEnable {
      out, engine, applied := RefreshAll(entries, true, isLocked, current, alive);
    } else {
      out, engine, applied := entries, current, {};
    }
  }
}
