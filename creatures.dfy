/**
 * Creatures and the shared world state they act on.
 *
 * The Java hierarchy ElementDeJeu > Creature > Personnage/Monstre > Guerrier,
 * Archer, Paysan, Loup, Lapin is flattened into one class tagged with its
 * concrete kind (Espece). The stat fields are updated in place by combat,
 * food effects and pickups; the world's occupancy set and creature list are
 * updated in place by death and movement.
 */
module Creatures {
  import opened Geometrie
  import opened Listes

  /** Monstre.Dangerosite */
  datatype Dangerosite = Docile | Moyenne | Dangereux

  /** The concrete class a creature was built as. */
  datatype Espece =
    | CreatureSimple
    | PersonnageSimple
    | Guerrier
    | Archer
    | Paysan
    | MonstreSimple(dangerosite: Dangerosite)
    | Loup(dangerosite: Dangerosite)
    | Lapin(dangerosite: Dangerosite)
  {
    /** A subclass of Personnage. */
    predicate EstPersonnage()
    {
      PersonnageSimple? || Guerrier? || Archer? || Paysan?
    }

    /** Implements the Combattant interface. */
    predicate EstCombattant()
    {
      Guerrier? || Archer? || Loup?
    }
  }

  /** The two collections every action mutates: occupied cells and live creatures. */
  class Monde {
    var positions: set<Point>
    var creatures: seq<Creature>

    constructor (positions: set<Point>, creatures: seq<Creature>)
      ensures this.positions == positions && this.creatures == creatures
    {
      this.positions := positions;
      this.creatures := creatures;
    }
  }

  class Creature {
    const espece: Espece
    var pos: Point
    var etat: bool
    var ptVie: int
    var degAtt: int
    var ptPar: int
    var pageAtt: int
    var pagePar: int
    var distAttMax: int
    var distanceVision: int
    /** Archer.nbFleches; the other kinds keep 0. */
    var nbFleches: int

    /** The full constructor of every creature class. */
    constructor (espece: Espece, etat: bool, pVie: int, dAtt: int, pPar: int, paAtt: int, paPar: int,
                 p: Point, distAttMax: int, distanceVision: int, nbFleches: int)
      ensures this.espece == espece && this.etat == etat && pos == p
      ensures ptVie == pVie && degAtt == dAtt && ptPar == pPar
      ensures pageAtt == paAtt && pagePar == paPar
      ensures this.distAttMax == distAttMax && this.distanceVision == distanceVision
      ensures this.nbFleches == nbFleches
    {
      this.espece := espece;
      this.etat := etat;
      pos := p;
      ptVie := pVie;
      degAtt := dAtt;
      ptPar := pPar;
      pageAtt := paAtt;
      pagePar := paPar;
      this.distAttMax := distAttMax;
      this.distanceVision := distanceVision;
      this.nbFleches := nbFleches;
    }

    /** The default constructor: a live creature at the origin with the stock stats. */
    constructor Default(espece: Espece)
      ensures this.espece == espece && etat && pos == Origine()
      ensures ptVie == 50 && degAtt == 5 && ptPar == 2
      ensures pageAtt == 50 && pagePar == 30
      ensures distAttMax == 1 && distanceVision == 1
      ensures nbFleches == 0
    {
      this.espece := espece;
      etat := true;
      pos := Origine();
      ptVie := 50;
      degAtt := 5;
      ptPar := 2;
      pageAtt := 50;
      pagePar := 30;
      distAttMax := 1;
      distanceVision := 1;
      nbFleches := 0;
    }

    /**
     * The copy constructor of the creature's own kind (Archer, Paysan,
     * Guerrier, Lapin, Loup), which copies the Creature part and, for an
     * Archer, the arrows: a new creature with the same kind, position,
     * stats and arrows.
     */
    constructor Copie(c: Creature)
      ensures espece == c.espece && etat == c.etat && pos == c.pos
      ensures ptVie == c.ptVie && degAtt == c.degAtt && ptPar == c.ptPar
      ensures pageAtt == c.pageAtt && pagePar == c.pagePar
      ensures distAttMax == c.distAttMax && distanceVision == c.distanceVision
      ensures nbFleches == c.nbFleches
    {
      espece := c.espece;
      etat := c.etat;
      pos := c.pos;
      ptVie := c.ptVie;
      degAtt := c.degAtt;
      ptPar := c.ptPar;
      pageAtt := c.pageAtt;
      pagePar := c.pagePar;
      distAttMax := c.distAttMax;
      distanceVision := c.distanceVision;
      nbFleches := c.nbFleches;
    }

    /** deplacer: shifts the position by (dx, dy); the occupancy set is not touched. */
    method Deplacer(dx: int, dy: int)
      modifies this`pos
      ensures pos == old(pos).Translate(dx, dy)
    {
      pos := pos.Translate(dx, dy);
    }

    /**
     * deplaceAleatoire: a live creature steps to one of its 8 neighbouring
     * cells, with no bounds or occupancy check; a dead one stays put.
     * (dx, dy) is the first non-zero draw of the random loop.
     */
    method DeplaceAleatoire(dx: int, dy: int)
      requires PasUnitaire(dx, dy) && (dx, dy) != (0, 0)
      modifies this`pos
      ensures !etat ==> pos == old(pos)
      ensures etat ==> pos == old(pos).Translate(dx, dy)
      ensures etat ==> AuContact(old(pos), pos) && pos != old(pos)
    {
      if etat {
        PasVersVoisin(pos, dx, dy);
        pos := pos.Translate(dx, dy);
      }
    }

    /**
     * deplacementAleatoire(Set, int), whose creature-side body is not part of
     * this model: an opaque step that may change only the position and the
     * occupancy set. Its outcome is supplied by the caller.
     */
    method Errer(w: Monde, destination: Point, occupees: set<Point>)
      modifies this`pos, w`positions
      ensures pos == destination && w.positions == occupees
    {
      pos := destination;
      w.positions := occupees;
    }

    /**
     * mourir: marks the creature dead, frees its cell and removes it from
     * the creature list (List.remove: its first occurrence).
     */
    method Mourir(w: Monde)
      modifies this`etat, w`positions, w`creatures
      ensures !etat
      ensures w.positions == old(w.positions) - {pos}
      ensures w.creatures == RetirerPremier(old(w.creatures), this)
      ensures ptVie == old(ptVie) && degAtt == old(degAtt) && ptPar == old(ptPar)
      ensures pageAtt == old(pageAtt) && pagePar == old(pagePar) && pos == old(pos)
    {
      etat := false;
      w.positions := w.positions - {pos};
      w.creatures := RetirerPremier(w.creatures, this);
    }

    /** The check that ends every attack: a creature with no hit points left dies. */
    method MourirSiVaincue(w: Monde)
      modifies this`etat, w`positions, w`creatures
      ensures ptVie <= 0 ==> !etat
      ensures ptVie <= 0 ==> w.positions == old(w.positions) - {pos}
      ensures ptVie <= 0 ==> w.creatures == RetirerPremier(old(w.creatures), this)
      ensures ptVie > 0 ==> etat == old(etat) && w.positions == old(w.positions) && w.creatures == old(w.creatures)
    {
      if ptVie <= 0 {
        Mourir(w);
      }
    }
  }
}
