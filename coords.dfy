/** check_coords: equality of two coordinate pairs (game.py, line 86). */
module Coords {

  /** True when both components of the two pairs are equal. The game calls it on
      pairs of selected texts, so the component type is left open. */
  function CheckCoords<T(==)>(coord1: (T, T), coord2: (T, T)): (r: bool)
    ensures r <==> coord1.0 == coord2.0 && coord1.1 == coord2.1
  {
    coord1 == coord2
  }

  lemma CheckCoordsReflexive<T>(c: (T, T))
    ensures CheckCoords(c, c)
  {
  }

  lemma CheckCoordsSymmetric<T>(c1: (T, T), c2: (T, T))
    ensures CheckCoords(c1, c2) == CheckCoords(c2, c1)
  {
  }

  lemma CheckCoordsTransitive<T>(c1: (T, T), c2: (T, T), c3: (T, T))
    requires CheckCoords(c1, c2) && CheckCoords(c2, c3)
    ensures CheckCoords(c1, c3)
  {
  }
}
