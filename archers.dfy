/**
 * Archer.combattre: a melee band (distance <= sqrt(2)) in which the archer
 * switches to a fixed 10 damage and strikes like a Guerrier, and a ranged
 * band (up to distAttMax * sqrt(2)) in which an arrow ignores the parry
 * and is spent whether or not it hits. The death check runs whenever both
 * fighters started alive, whichever band applied.
 */
module Archers {
  import opened Geometrie
  import opened Listes
  import opened Creatures
  import opened Combat

  /** The damage the archer deals in the melee band. */
  const DegatsCorpsACorps := 10

  /**
   * The ranged band: beyond contact, within range, with an arrow left. It
   * is empty for an archer whose range does not reach past the contact
   * cells, and never holds a target on the archer's own cell.
   */
  predicate ADistance(a: Creature, c: Creature): (r: bool)
    reads a, c
    ensures r ==> a.distAttMax >= 2 && a.nbFleches >= 1
    ensures r ==> a.pos != c.pos
  {
    !AuContact(a.pos, c.pos) && DansPortee(a.pos, c.pos, a.distAttMax) && a.nbFleches > 0
  }

  method Combattre(a: Creature, c: Creature, w: Monde, rollAtt: int, rollPar: int)
    requires a.espece.Archer?
    modifies a`degAtt, a`nbFleches, c`ptVie, c`ptPar, c`etat, w`positions, w`creatures
    // Either fighter dead: an early return that changes nothing.
    ensures !old(a.etat && c.etat) ==>
      a.degAtt == old(a.degAtt) && a.nbFleches == old(a.nbFleches)
      && c.ptVie == old(c.ptVie) && c.ptPar == old(c.ptPar) && c.etat == old(c.etat)
      && w.positions == old(w.positions) && w.creatures == old(w.creatures)
    // Melee band.
    ensures old(a.etat && c.etat && AuContact(a.pos, c.pos)) ==>
      a.degAtt == DegatsCorpsACorps && a.nbFleches == old(a.nbFleches)
      && Defense(c.ptVie, c.ptPar)
           == Assaut(old(Defense(c.ptVie, c.ptPar)), DegatsCorpsACorps, old(a.pageAtt), old(c.pagePar), rollAtt, rollPar)
    // Ranged band: one arrow spent; a hit takes degAtt off the hit points, parry untouched.
    ensures old(a.etat && c.etat && ADistance(a, c)) ==>
      a.degAtt == old(a.degAtt) && a.nbFleches == old(a.nbFleches) - 1
      && c.ptPar == old(c.ptPar)
      && c.ptVie == old(c.ptVie) - (if Reussit(old(a.pageAtt), rollAtt) then old(a.degAtt) else 0)
    // Neither band: no blow, no arrow.
    ensures old(a.etat && c.etat && !AuContact(a.pos, c.pos) && !ADistance(a, c)) ==>
      a.degAtt == old(a.degAtt) && a.nbFleches == old(a.nbFleches)
      && c.ptVie == old(c.ptVie) && c.ptPar == old(c.ptPar)
    // The death check, in every band.
    ensures old(a.etat && c.etat) ==> (c.etat <==> c.ptVie > 0)
    ensures old(a.etat && c.etat) && c.ptVie <= 0 ==>
      w.positions == old(w.positions) - {c.pos} && w.creatures == RetirerPremier(old(w.creatures), c)
    ensures c.ptVie > 0 ==> w.positions == old(w.positions) && w.creatures == old(w.creatures)
    // Against another creature, the archer's own cell, hit points, parry points and state stay.
    ensures a != c ==>
      a.pos == old(a.pos) && a.ptVie == old(a.ptVie) && a.ptPar == old(a.ptPar) && a.etat == old(a.etat)
    // The arrow count never drops below zero and loses at most one arrow.
    ensures old(a.nbFleches) >= 0 ==> a.nbFleches >= 0
    ensures old(a.nbFleches) - 1 <= a.nbFleches <= old(a.nbFleches)
  {
    if !a.etat || !c.etat {
      return;
    }
    if AuContact(a.pos, c.pos) {
      a.degAtt := DegatsCorpsACorps;
      if Reussit(a.pageAtt, rollAtt) {
        Frapper(c, a.degAtt, Reussit(c.pagePar, rollPar));
      }
    } else if DansPortee(a.pos, c.pos, a.distAttMax) && a.nbFleches > 0 {
      if Reussit(a.pageAtt, rollAtt) {
        c.ptVie := c.ptVie - a.degAtt;
      }
      a.nbFleches := a.nbFleches - 1;
    }
    c.MourirSiVaincue(w);
  }
}
