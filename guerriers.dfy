/**
 * Guerrier.combattre: a melee attack within distAttMax * sqrt(2), followed,
 * inside the same range test, by the defender's death check.
 */
module Guerriers {
  import opened Geometrie
  import opened Listes
  import opened Creatures
  import opened Combat

  /**
   * g attacks c. Out of range, or with either fighter dead, nothing happens.
   * Otherwise the defender takes the exchange's outcome and dies exactly
   * when its hit points are gone, which frees its cell and removes it from
   * the creature list.
   */
  method Combattre(g: Creature, c: Creature, w: Monde, rollAtt: int, rollPar: int)
    requires g.espece.Guerrier?
    modifies c`ptVie, c`ptPar, c`etat, w`positions, w`creatures
    ensures !old(Engage(g, c)) ==>
      c.ptVie == old(c.ptVie) && c.ptPar == old(c.ptPar) && c.etat == old(c.etat)
    ensures old(Engage(g, c)) ==>
      Defense(c.ptVie, c.ptPar)
        == Assaut(old(Defense(c.ptVie, c.ptPar)), old(g.degAtt), old(g.pageAtt), old(c.pagePar), rollAtt, rollPar)
    ensures old(Engage(g, c)) ==> (c.etat <==> c.ptVie > 0)
    ensures old(Engage(g, c)) && c.ptVie <= 0 ==>
      w.positions == old(w.positions) - {c.pos} && w.creatures == RetirerPremier(old(w.creatures), c)
    ensures !old(Engage(g, c)) || c.ptVie > 0 ==>
      w.positions == old(w.positions) && w.creatures == old(w.creatures)
  {
    if DansPortee(g.pos, c.pos, g.distAttMax) && c.etat && g.etat {
      if Reussit(g.pageAtt, rollAtt) {
        Frapper(c, g.degAtt, Reussit(c.pagePar, rollPar));
      }
      c.MourirSiVaincue(w);
    }
  }
}
