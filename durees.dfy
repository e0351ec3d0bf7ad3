/**
 * Turn counters shared by timed objects: the cooldown of a food effect
 * (Nourriture.coolDown) and the lifetime of a toxic cloud (NuageToxique.duree).
 */
module Durees {

  /** decrementerDuree: a positive counter loses one turn, any other value stays put. */
  function Decremente(d: int): (r: int)
    ensures d > 0 ==> r == d - 1
    ensures d <= 0 ==> r == d
    ensures d >= 0 ==> r >= 0
    ensures r <= d
  {
    if d > 0 then d - 1 else d
  }

  /** estActif: the counter has turns left. */
  predicate Actif(d: int)
  {
    d > 0
  }

  /**
   * A counter is active exactly when the next decrementerDuree still takes
   * a turn off it; an inactive counter is left as it is.
   */
  lemma ActifSsiDecompte(d: int)
    ensures Actif(d) <==> Decremente(d) == d - 1
    ensures !Actif(d) ==> Decremente(d) == d
  {
  }

  /** A counter is still active after one more turn exactly when it had more than one left. */
  lemma ActifApresTour(d: int)
    ensures Actif(Decremente(d)) <==> d > 1
  {
  }
}
