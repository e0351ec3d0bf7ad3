/**
 * Loup.combattre: a melee attack within distAttMax * sqrt(2), followed,
 * inside the same range test, by the defender's death check.
 */
module Loups {
  import opened Geometrie
  import opened Listes
  import opened Creatures
  import opened Combat

  /**
   * l attacks c. Out of range, or with either fighter dead, nothing happens.
   * Otherwise the defender takes the exchange's outcome and dies exactly
   * when its hit points are gone, which frees its cell and removes it from
   * the creature list.
   */
  method Combattre(l: Creature, c: Creature, w: Monde, rollAtt: int, rollPar: int)
    requires l.espece.Loup?
    modifies c`ptVie, c`ptPar, c`etat, w`positions, w`creatures
    ensures !old(Engage(l, c)) ==>
      c.ptVie == old(c.ptVie) && c.ptPar == old(c.ptPar) && c.etat == old(c.etat)
    ensures old(Engage(l, c)) ==>
      Defense(c.ptVie, c.ptPar)
        == Assaut(old(Defense(c.ptVie, c.ptPar)), old(l.degAtt), old(l.pageAtt), old(c.pagePar), rollAtt, rollPar)
    ensures old(Engage(l, c)) ==> (c.etat <==> c.ptVie > 0)
    ensures old(Engage(l, c)) && c.ptVie <= 0 ==>
      w.positions == old(w.positions) - {c.pos} && w.creatures == RetirerPremier(old(w.creatures), c)
    ensures !old(Engage(l, c)) || c.ptVie > 0 ==>
      w.positions == old(w.positions) && w.creatures == old(w.creatures)
  {
    if DansPortee(l.pos, c.pos, l.distAttMax) && c.etat && l.etat {
      if Reussit(l.pageAtt, rollAtt) {
        Frapper(c, l.degAtt, Reussit(c.pagePar, rollPar));
      }
      c.MourirSiVaincue(w);
    }
  }
}
