/** The four screen directions shared by the input code (PadBool, SpriteMover,
    CatSelect), per-direction boolean flags, and edge detection of a held
    flag against the previous frame's value. */
module Directions {

  datatype Dir = None | Right | Left | Up | Down

  /** One flag per direction. */
  datatype Dirs = Dirs(r: bool, l: bool, u: bool, d: bool)

  const NoDirs := Dirs(false, false, false, false)

  /** The flag of direction d (None has none). */
  function Has(ds: Dirs, d: Dir): bool
  {
    match d
    case None => false
    case Right => ds.r
    case Left => ds.l
    case Up => ds.u
    case Down => ds.d
  }

  function Or(a: Dirs, b: Dirs): (c: Dirs)
    ensures forall d: Dir :: Has(c, d) == (Has(a, d) || Has(b, d))
  {
    Dirs(a.r || b.r, a.l || b.l, a.u || b.u, a.d || b.d)
  }

  datatype Edge = Edge(held: bool, down: bool, up: bool)

  /** Down is now-and-not-before, Up is before-and-not-now. */
  function StepEdge(prev: bool, now: bool): (e: Edge)
    ensures e.held == now
    ensures !(e.down && e.up)
    ensures (e.down || e.up) <==> prev != now
    ensures e.down ==> now
    ensures e.up ==> prev
  {
    Edge(now, now && !prev, !now && prev)
  }

  datatype DirEdges = DirEdges(held: Dirs, down: Dirs, up: Dirs)

  /** StepEdge on every direction. */
  function StepDirs(prev: Dirs, now: Dirs): (e: DirEdges)
    ensures e.held == now
    ensures forall d: Dir :: Has(e.down, d) == StepEdge(Has(prev, d), Has(now, d)).down
    ensures forall d: Dir :: Has(e.up, d) == StepEdge(Has(prev, d), Has(now, d)).up
  {
    var r := StepEdge(prev.r, now.r);
    var l := StepEdge(prev.l, now.l);
    var u := StepEdge(prev.u, now.u);
    var d := StepEdge(prev.d, now.d);
    DirEdges(now, Dirs(r.down, l.down, u.down, d.down), Dirs(r.up, l.up, u.up, d.up))
  }

  /** Down and Up of one direction are never both set, and one of them is
      set exactly when Held changed. */
  predicate CleanEdges(prev: Dirs, e: DirEdges)
  {
    forall d: Dir :: !(Has(e.down, d) && Has(e.up, d))
                     && ((Has(e.down, d) || Has(e.up, d)) <==> Has(prev, d) != Has(e.held, d))
  }

  lemma StepDirsClean(prev: Dirs, now: Dirs)
    ensures CleanEdges(prev, StepDirs(prev, now))
  {
  }

  /** The opposite direction (None stays None). */
  function Opposite(d: Dir): Dir
  {
    match d
    case None => None
    case Right => Left
    case Left => Right
    case Up => Down
    case Down => Up
  }

  /** A quarter turn counter-clockwise: Right, Up, Left, Down in cycle. */
  function TurnLeft(d: Dir): Dir
  {
    match d
    case None => None
    case Right => Up
    case Up => Left
    case Left => Down
    case Down => Right
  }
}
