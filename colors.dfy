/**
 * The block colours of the puzzle (`Color` in blocks_game/engine.py).
 * Only the identity of each case matters; the RGB payloads are not modelled.
 */
module Colors {

  /** NULL marks an empty slot; YELLOW and GRAY are the two border colours. */
  datatype Color = NULL | WHITE | RED | GREEN | BLUE | ORANGE | CYAN | YELLOW | GRAY

  /** The members of the enumeration in declaration order (`Color.list()`). */
  const ALL: seq<Color> := [NULL, WHITE, RED, GREEN, BLUE, ORANGE, CYAN, YELLOW, GRAY]

  /** Number of block colours dealt in a new game (`NUM_COLORS`). */
  const NUM_COLORS: nat := 6

  /** `Color.get_color(i)`: the i-th member of the enumeration. */
  function GetColor(i: nat): (c: Color)
    requires i < |ALL|
    ensures (c == NULL) <==> i == 0
    ensures 1 <= i <= NUM_COLORS ==> c == Palette()[i - 1]
  {
    ALL[i]
  }

  /** The colours a new game deals: `get_color(1)` .. `get_color(6)`. */
  function Palette(): (p: seq<Color>)
    ensures |p| == NUM_COLORS
    ensures NULL !in p
    ensures forall a, b :: 0 <= a < b < |p| ==> p[a] != p[b]
  {
    ALL[1..NUM_COLORS + 1]
  }
}
