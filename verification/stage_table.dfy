/** STAGE_STATE: the target mirror pose of each stage, as a position and an
    Euler rotation in degrees.  The table literals are single-precision
    floats in the game; here they are the decimal values written there. */
module StageTable {
  import opened Geometry

  /** StageId is a C# enum, so any int can reach TryGet; the named members
      are the codes 0..8. */
  type StageId = int

  const STAGE1: StageId := 0
  const STAGE2: StageId := 1
  const STAGE3: StageId := 2
  const STAGE4: StageId := 3
  const STAGE5: StageId := 4
  const STAGE6: StageId := 5
  const STAGE6_2: StageId := 6
  const STAGE6_21: StageId := 7
  const STAGE6_22: StageId := 8

  predicate IsNamedStage(id: StageId) { STAGE1 <= id <= STAGE6_22 }

  /** Index of the position and of the rotation in a stage's table. */
  const POS := 0
  const ROTATE := 1

  /** The stage tables, in enum order. */
  const Tables: seq<seq<Vec3>> := [
    [Vec3(5.58, 1.6, -1.9), Vec3(0.0, 0.0, 90.0)],
    [Vec3(6.15, 1.0, 3.0), Vec3(0.0, -45.0, 90.0)],
    [Vec3(8.55, 1.6, -0.7), Vec3(-90.0, 0.0, 90.0)],
    [Vec3(13.07, 1.68, 3.4), Vec3(-90.0, 0.0, 45.0)],
    [Vec3(6.45, 0.6, 3.09), Vec3(-90.0, 0.0, 45.0)],
    [Vec3(9.26, 0.6, 0.15), Vec3(0.0, -90.0, 90.0)],
    [Vec3(8.98, 1.58, 2.12), Vec3(-90.0, 0.0, 45.0)],
    [Vec3(6.48, 1.58, -2.88), Vec3(0.0, 0.0, 90.0)],
    [Vec3(6.48, 1.58, -1.63), Vec3(-90.0, 90.0, 0.0)]
  ]

  /** Every named stage has a table of exactly two entries. */
  lemma TablesShape()
    ensures |Tables| == 9
    ensures forall i :: 0 <= i < |Tables| ==> |Tables[i]| == 2
  {
  }

  datatype Lookup = Lookup(found: bool, pos: Vec3, eulerDeg: Vec3)

  /** TryGet: the switch over the enum; an unnamed code falls through to
      false with default (zero) outputs. */
  function TryGet(id: StageId): (r: Lookup)
    ensures r.found <==> IsNamedStage(id)
    ensures r.found ==> r.pos == Tables[id][POS] && r.eulerDeg == Tables[id][ROTATE]
    ensures !r.found ==> r.pos == Zero && r.eulerDeg == Zero
  {
    if id == STAGE1 then Lookup(true, Vec3(5.58, 1.6, -1.9), Vec3(0.0, 0.0, 90.0))
    else if id == STAGE2 then Lookup(true, Vec3(6.15, 1.0, 3.0), Vec3(0.0, -45.0, 90.0))
    else if id == STAGE3 then Lookup(true, Vec3(8.55, 1.6, -0.7), Vec3(-90.0, 0.0, 90.0))
    else if id == STAGE4 then Lookup(true, Vec3(13.07, 1.68, 3.4), Vec3(-90.0, 0.0, 45.0))
    else if id == STAGE5 then Lookup(true, Vec3(6.45, 0.6, 3.09), Vec3(-90.0, 0.0, 45.0))
    else if id == STAGE6 then Lookup(true, Vec3(9.26, 0.6, 0.15), Vec3(0.0, -90.0, 90.0))
    else if id == STAGE6_2 then Lookup(true, Vec3(8.98, 1.58, 2.12), Vec3(-90.0, 0.0, 45.0))
    else if id == STAGE6_21 then Lookup(true, Vec3(6.48, 1.58, -2.88), Vec3(0.0, 0.0, 90.0))
    else if id == STAGE6_22 then Lookup(true, Vec3(6.48, 1.58, -1.63), Vec3(-90.0, 90.0, 0.0))
    else Lookup(false, Zero, Zero)
  }

  /** Distinct stages have distinct target positions. */
  lemma StagePositionsDistinct(a: StageId, b: StageId)
    requires IsNamedStage(a) && IsNamedStage(b) && a != b
    ensures TryGet(a).pos != TryGet(b).pos
  {
  }
}
