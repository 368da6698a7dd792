/** PlanarProbeKeywordBinder: switches a material's shader keywords so that
    exactly one of the four probe-slot keywords is on.  A material is
    modelled as the set of its enabled keywords. */
module KeywordBinder {
  import opened Optional

  datatype ProbeSlot = One | Two | Three | Four
  {
    /** The enum's underlying value, (int)slot. */
    function Index(): (i: int)
      ensures 0 <= i < 4
    {
      match this
      case One => 0
      case Two => 1
      case Three => 2
      case Four => 3
    }
  }

  const Keys: seq<string> := ["_PRID_ONE", "_PRID_TWO", "_PRID_THREE", "_PRID_FOUR"]

  lemma KeysDistinct()
    ensures forall i, j :: 0 <= i < j < |Keys| ==> Keys[i] != Keys[j]
  {
    assert Keys[0][6] == 'O' && Keys[1][6] == 'T' && Keys[2][6] == 'T' && Keys[3][6] == 'F';
    assert Keys[1][7] == 'W' && Keys[2][7] == 'H';
  }

  /** The loop of Apply: key i enabled iff i is the slot, for i < n. */
  function ApplyKeys(m: set<string>, slot: ProbeSlot, n: nat): (r: set<string>)
    requires n <= |Keys|
    ensures forall k :: k !in Keys[..n] ==> (k in r <==> k in m)
    decreases n
  {
    if n == 0 then m
    else
      var prev := ApplyKeys(m, slot, n - 1);
      if n - 1 == slot.Index() then prev + {Keys[n - 1]} else prev - {Keys[n - 1]}
  }

  /** Apply on the renderer's shared material (None when there is no
      renderer or no material). */
  function Apply(material: Option<set<string>>, slot: ProbeSlot): (r: Option<set<string>>)
    ensures material.None? ==> r == material
    ensures material.Some? ==> r.Some?
    ensures material.Some? ==> forall i :: 0 <= i < |Keys| ==> (Keys[i] in r.value <==> i == slot.Index())
    ensures material.Some? ==> forall k :: k !in Keys ==> (k in r.value <==> k in material.value)
  {
    match material
    case None => None
    case Some(m) =>
      var r := ApplyKeys(m, slot, |Keys|);
      ApplyKeysDecides(m, slot, |Keys|);
      assert Keys[..|Keys|] == Keys;
      Some(r)
  }

  lemma {:induction false} ApplyKeysDecides(m: set<string>, slot: ProbeSlot, n: nat)
    requires n <= |Keys|
    ensures forall i :: 0 <= i < n ==> (Keys[i] in ApplyKeys(m, slot, n) <==> i == slot.Index())
    decreases n
  {
    KeysDistinct();
    if n > 0 {
      ApplyKeysDecides(m, slot, n - 1);
    }
  }

  /** Exactly one slot keyword is on after Apply: the set of enabled slot
      keywords is the singleton of the selected one. */
  lemma ApplyEnablesExactlyOne(m: set<string>, slot: ProbeSlot)
    ensures var r := Apply(Some(m), slot).value;
            (set k | k in Keys && k in r) == {Keys[slot.Index()]}
  {
    var r := Apply(Some(m), slot).value;
    KeysDistinct();
    forall k | k in Keys && k in r ensures k == Keys[slot.Index()] {
      var i :| 0 <= i < |Keys| && Keys[i] == k;
    }
  }

  /** Applying twice with the same slot gives the state of applying once. */
  lemma ApplyIdempotent(material: Option<set<string>>, slot: ProbeSlot)
    ensures Apply(Apply(material, slot), slot) == Apply(material, slot)
  {
    if material.Some? {
      var once := Apply(material, slot).value;
      var twice := Apply(Apply(material, slot), slot).value;
      forall k ensures k in twice <==> k in once {
        if k in Keys {
          var i :| 0 <= i < |Keys| && Keys[i] == k;
        }
      }
      assert twice == once;
    }
  }
}
