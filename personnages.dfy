/**
 * Personnage: a creature that picks up objects, carries timed food effects
 * and, on its turn, wanders, attacks an adjacent creature or waits.
 *
 * The character's creature state lives in corps (a Creature whose kind is
 * one of the Personnage kinds); the Personnage object adds the list of
 * active effects.
 */
module Personnages {
  import opened Geometrie
  import opened Listes
  import opened Durees
  import opened Creatures
  import opened Combat
  import opened Nourritures
  import Guerriers
  import Archers

  /** The objects prendObjet distinguishes. */
  datatype Objet =
    | PotionSoin(pos: Point, pVie: int)
    | Epee(pos: Point, pAtt: int)
    | Utilisable(n: Nourriture)
    | Inerte(pos: Point)
  {
    function Position(): Point
    {
      if Utilisable? then n.pos else pos
    }
  }

  /** The outcome of analyzer's random choice. */
  datatype Decision = Errance | Attaque(cible: Creature) | Rien

  /** The coolDown of every effect, in list order. */
  function DureesDe(es: seq<Nourriture>): (ds: seq<int>)
    reads es
    ensures |ds| == |es|
    ensures forall k :: 0 <= k < |es| ==> ds[k] == es[k].coolDown
  {
    if es == [] then []
    else DureesDe(es[..|es| - 1]) + [es[|es| - 1].coolDown]
  }

  /** An effect whose counter was d before the update is still active after it. */
  predicate Reste(d: int)
  {
    Actif(Decremente(d))
  }

  /**
   * The effects mettreAJourEffets keeps among the first n, in order: those
   * still active once their counter ds[k] has been decremented.
   */
  function Garder(es: seq<Nourriture>, ds: seq<int>, n: nat): (r: seq<Nourriture>)
    requires |es| == |ds| && n <= |es|
    ensures |r| <= n
  {
    if n == 0 then []
    else Garder(es, ds, n - 1) + (if Reste(ds[n - 1]) then [es[n - 1]] else [])
  }

  /** When no effect expires, the update keeps the whole list. */
  lemma {:induction false} GarderTout(es: seq<Nourriture>, ds: seq<int>, n: nat)
    requires |es| == |ds| && n <= |es|
    requires forall k :: 0 <= k < n ==> Reste(ds[k])
    ensures Garder(es, ds, n) == es[..n]
  {
    if n > 0 {
      GarderTout(es, ds, n - 1);
      assert es[..n] == es[..n - 1] + [es[n - 1]];
    }
  }

  /** When every effect expires, the list ends empty. */
  lemma {:induction false} GarderRien(es: seq<Nourriture>, ds: seq<int>, n: nat)
    requires |es| == |ds| && n <= |es|
    requires forall k :: 0 <= k < n ==> !Reste(ds[k])
    ensures Garder(es, ds, n) == []
  {
    if n > 0 {
      GarderRien(es, ds, n - 1);
    }
  }

  /**
   * The kept effects are effects of the list, and a list without
   * duplicates stays without duplicates.
   */
  lemma {:induction false} GarderDistinct(es: seq<Nourriture>, ds: seq<int>, n: nat)
    requires |es| == |ds| && n <= |es|
    requires Distinct(es)
    ensures forall k :: 0 <= k < |Garder(es, ds, n)| ==> Garder(es, ds, n)[k] in es[..n]
    ensures Distinct(Garder(es, ds, n))
  {
    if n > 0 {
      GarderDistinct(es, ds, n - 1);
      var avant := Garder(es, ds, n - 1);
      assert forall k :: 0 <= k < |avant| ==> avant[k] in es[..n - 1];
      assert es[n - 1] !in es[..n - 1];
      assert es[..n] == es[..n - 1] + [es[n - 1]];
    }
  }

  /** Once every counter has been decremented, every kept effect is active. */
  lemma {:induction false} GarderActifs(es: seq<Nourriture>, ds: seq<int>, n: nat)
    requires |es| == |ds| && n <= |es|
    requires forall k :: 0 <= k < |es| ==> es[k].coolDown == Decremente(ds[k])
    ensures forall k :: 0 <= k < |Garder(es, ds, n)| ==> Garder(es, ds, n)[k].EstActif()
  {
    if n > 0 {
      GarderActifs(es, ds, n - 1);
    }
  }

  /**
   * The percentages after mettreAJourEffets has removed, in list order,
   * every effect among the first n that expires in this update.
   */
  function RetireExpires(v: Pourcentages, es: seq<Nourriture>, ds: seq<int>, n: nat): (r: Pourcentages)
    requires |es| == |ds| && n <= |es|
    ensures (forall k :: 0 <= k < n ==> Reste(ds[k])) ==> r == v
    ensures (exists k :: 0 <= k < n && !Reste(ds[k])) ==> EnBornes(r)
  {
    if n == 0 then v
    else
      var avant := RetireExpires(v, es, ds, n - 1);
      if Reste(ds[n - 1]) then avant else Retire(es[n - 1].typeNourriture, avant)
  }

  /** A target of analyzer: another creature, on another cell, within distAttMax on both axes. */
  predicate EstCible(moi: Creature, c: Creature)
    reads moi, c
  {
    c != moi && DansCarre(moi.pos, c.pos, moi.distAttMax) && c.pos != moi.pos
  }

  /** The creatures of cs that are targets, in list order. */
  function Adjacentes(moi: Creature, cs: seq<Creature>): (r: seq<Creature>)
    reads moi, cs
    ensures |r| <= |cs|
    ensures forall k :: 0 <= k < |r| ==> r[k] in cs && EstCible(moi, r[k])
    ensures forall k :: 0 <= k < |cs| && EstCible(moi, cs[k]) ==> cs[k] in r
  {
    if cs == [] then []
    else
      var n := |cs| - 1;
      assert cs == cs[..n] + [cs[n]];
      Adjacentes(moi, cs[..n]) + (if EstCible(moi, cs[n]) then [cs[n]] else [])
  }

  /**
   * Every target is within the attacker's combat range distAttMax * sqrt(2),
   * so a Guerrier or an Archer attacking one only ever fails the range test
   * when a fighter is dead.
   */
  lemma {:induction false} CibleAPortee(moi: Creature, c: Creature)
    requires EstCible(moi, c)
    ensures DansPortee(moi.pos, c.pos, moi.distAttMax)
    ensures DistanceCarree(moi.pos, c.pos) > 0
  {
    CarreDansPortee(moi.pos, c.pos, moi.distAttMax);
  }

  /** The list analyzer builds: one pass over the creatures, in order. */
  method CiblesAdjacentes(moi: Creature, cs: seq<Creature>) returns (cibles: seq<Creature>)
    ensures cibles == Adjacentes(moi, cs)
  {
    cibles := [];
    var i := 0;
    while i < |cs|
      invariant 0 <= i <= |cs|
      invariant cibles == Adjacentes(moi, cs[..i])
    {
      assert cs[..i + 1][..i] == cs[..i];
      if EstCible(moi, cs[i]) {
        cibles := cibles + [cs[i]];
      }
      i := i + 1;
    }
    assert cs[..i] == cs;
  }

  class Personnage {
    const corps: Creature
    /** The food effects currently applied, in the order they were picked up. */
    var effetsActifs: seq<Nourriture>

    /** A character with no active effect. */
    constructor (corps: Creature)
      requires corps.espece.EstPersonnage()
      ensures this.corps == corps && effetsActifs == []
    {
      this.corps := corps;
      effetsActifs := [];
    }

    /**
     * The copy constructor: the creature part is copied as by its own kind's
     * copy constructor (Creature.Copie), and the effect list is copied,
     * sharing the effect objects.
     */
    constructor Copie(p: Personnage)
      ensures fresh(corps)
      ensures corps.espece == p.corps.espece && corps.etat == p.corps.etat && corps.pos == p.corps.pos
      ensures corps.ptVie == p.corps.ptVie && corps.degAtt == p.corps.degAtt && corps.ptPar == p.corps.ptPar
      ensures corps.pageAtt == p.corps.pageAtt && corps.pagePar == p.corps.pagePar
      ensures corps.distAttMax == p.corps.distAttMax && corps.distanceVision == p.corps.distanceVision
      ensures corps.nbFleches == p.corps.nbFleches
      ensures effetsActifs == p.effetsActifs
    {
      corps := new Creature.Copie(p.corps);
      effetsActifs := p.effetsActifs;
    }

    /**
     * prendObjet: on the object's cell, a potion heals, a sword adds its
     * attack, a usable object applies its effect and joins the active
     * effects; in each of these cases and for any other object, the
     * object's cell is freed. Elsewhere nothing happens.
     */
    method PrendObjet(o: Objet, w: Monde)
      requires corps.espece.EstPersonnage()
      modifies corps`ptVie, corps`degAtt, corps`pageAtt, corps`pagePar, this`effetsActifs, w`positions
      ensures corps.pos != o.Position() ==>
        corps.ptVie == old(corps.ptVie) && corps.degAtt == old(corps.degAtt)
        && corps.pageAtt == old(corps.pageAtt) && corps.pagePar == old(corps.pagePar)
        && effetsActifs == old(effetsActifs) && w.positions == old(w.positions)
      ensures corps.pos == o.Position() ==> w.positions == old(w.positions) - {o.Position()}
      ensures corps.pos == o.Position() && o.PotionSoin? ==>
        corps.ptVie == old(corps.ptVie) + o.pVie && corps.degAtt == old(corps.degAtt)
        && corps.pageAtt == old(corps.pageAtt) && corps.pagePar == old(corps.pagePar)
        && effetsActifs == old(effetsActifs)
      ensures corps.pos == o.Position() && o.Epee? ==>
        corps.degAtt == old(corps.degAtt) + o.pAtt && corps.ptVie == old(corps.ptVie)
        && corps.pageAtt == old(corps.pageAtt) && corps.pagePar == old(corps.pagePar)
        && effetsActifs == old(effetsActifs)
      ensures corps.pos == o.Position() && o.Utilisable? ==>
        Pourcentages(corps.pageAtt, corps.pagePar)
          == Applique(o.n.typeNourriture, old(Pourcentages(corps.pageAtt, corps.pagePar)))
        && corps.ptVie == old(corps.ptVie) && corps.degAtt == old(corps.degAtt)
        && effetsActifs == old(effetsActifs) + [o.n]
      ensures o.Inerte? ==>
        corps.ptVie == old(corps.ptVie) && corps.degAtt == old(corps.degAtt)
        && corps.pageAtt == old(corps.pageAtt) && corps.pagePar == old(corps.pagePar)
        && effetsActifs == old(effetsActifs)
    {
      if corps.pos == o.Position() {
        match o {
          case PotionSoin(_, pVie) =>
            corps.ptVie := corps.ptVie + pVie;
          case Epee(_, pAtt) =>
            corps.degAtt := corps.degAtt + pAtt;
          case Utilisable(n) =>
            n.AppliquerEffet(corps);
            effetsActifs := effetsActifs + [n];
          case Inerte(_) =>
        }
        w.positions := w.positions - {o.Position()};
      }
    }

    /**
     * mettreAJourEffets: every effect loses one turn; an effect that is no
     * longer active is removed from the character, in list order, and
     * dropped from the list. Afterwards every remaining effect is active.
     */
    method MettreAJourEffets()
      requires corps.espece.EstPersonnage()
      requires Distinct(effetsActifs)
      modifies this`effetsActifs, corps`pageAtt, corps`pagePar, effetsActifs
      ensures effetsActifs == Garder(old(effetsActifs), old(DureesDe(effetsActifs)), |old(effetsActifs)|)
      ensures forall k :: 0 <= k < |old(effetsActifs)| ==>
        old(effetsActifs)[k].coolDown == Decremente(old(effetsActifs[k].coolDown))
      ensures Pourcentages(corps.pageAtt, corps.pagePar)
        == RetireExpires(old(Pourcentages(corps.pageAtt, corps.pagePar)), old(effetsActifs), old(DureesDe(effetsActifs)), |old(effetsActifs)|)
      ensures forall k :: 0 <= k < |effetsActifs| ==> effetsActifs[k].EstActif()
    {
      var es := effetsActifs;
      ghost var ds := DureesDe(es);
      ghost var v0 := Pourcentages(corps.pageAtt, corps.pagePar);
      var gardes: seq<Nourriture> := [];
      var i := 0;
      while i < |es|
        invariant 0 <= i <= |es|
        invariant MiseAJourJusqua(es, ds, v0, gardes, i)
      {
        assert forall k :: 0 <= k < |es| && k != i ==> es[k] != es[i];
        gardes := EtapeMiseAJour(es, ds, v0, gardes, i, es[i]);
        i := i + 1;
      }
      GarderActifs(es, ds, |es|);
      effetsActifs := gardes;
    }

    /**
     * The state of mettreAJourEffets after its first n effects, against the
     * counters ds and the percentages v0 it started from: the kept list is
     * Garder, those n counters have lost a turn, and the character's
     * percentages have had the expired effects among them withdrawn.
     */
    ghost predicate MiseAJourJusqua(es: seq<Nourriture>, ds: seq<int>, v0: Pourcentages, gardes: seq<Nourriture>, n: nat)
      reads es, corps
    {
      |ds| == |es| && n <= |es|
      && gardes == Garder(es, ds, n)
      && (forall k :: 0 <= k < |es| ==> es[k].coolDown == if k < n then Decremente(ds[k]) else ds[k])
      && Pourcentages(corps.pageAtt, corps.pagePar) == RetireExpires(v0, es, ds, n)
    }

    /**
     * The i-th iteration of mettreAJourEffets: the effects before i have
     * been processed, and afterwards the effects up to i have.
     */
    method EtapeMiseAJour(es: seq<Nourriture>, ghost ds: seq<int>, ghost v0: Pourcentages, gardes: seq<Nourriture>,
                          i: nat, effet: Nourriture)
      returns (gardes2: seq<Nourriture>)
      requires corps.espece.EstPersonnage()
      requires |ds| == |es| && i < |es| && effet == es[i]
      requires forall k :: 0 <= k < |es| && k != i ==> es[k] != es[i]
      requires MiseAJourJusqua(es, ds, v0, gardes, i)
      modifies effet`coolDown, corps`pageAtt, corps`pagePar
      ensures MiseAJourJusqua(es, ds, v0, gardes2, i + 1)
    {
      var garde := TraiterEffet(effet);
      gardes2 := if garde then gardes + [effet] else gardes;
    }

    /**
     * One step of mettreAJourEffets: the effect loses a turn and, once no
     * longer active, is removed from the character; garde says whether it
     * stays in the list.
     */
    method TraiterEffet(effet: Nourriture) returns (garde: bool)
      requires corps.espece.EstPersonnage()
      modifies effet`coolDown, corps`pageAtt, corps`pagePar
      ensures effet.coolDown == Decremente(old(effet.coolDown))
      ensures garde <==> Reste(old(effet.coolDown))
      ensures garde ==> corps.pageAtt == old(corps.pageAtt) && corps.pagePar == old(corps.pagePar)
      ensures !garde ==>
        Pourcentages(corps.pageAtt, corps.pagePar)
          == Retire(effet.typeNourriture, old(Pourcentages(corps.pageAtt, corps.pagePar)))
    {
      effet.DecrementerDuree();
      garde := effet.EstActif();
      if !garde {
        effet.RetirerEffet(corps);
      }
    }

    /**
     * Guerrier.combattre, between the state before it and the state after:
     * the attacker is untouched; the target takes the exchange only when
     * both are alive, and then dies exactly when its hit points are gone,
     * leaving the list and freeing its cell.
     */
    twostate predicate AttaqueGuerrier(cible: Creature, w: Monde, rollAtt: int, rollPar: int)
      reads this, corps, cible, w
    {
      unchanged(corps)
      && (!old(Engage(corps, cible)) ==>
            unchanged(cible) && w.positions == old(w.positions) && w.creatures == old(w.creatures))
      && (old(corps.etat && cible.etat) ==>
            Defense(cible.ptVie, cible.ptPar)
              == Assaut(old(Defense(cible.ptVie, cible.ptPar)), old(corps.degAtt), old(corps.pageAtt),
                        old(cible.pagePar), rollAtt, rollPar)
            && (cible.etat <==> cible.ptVie > 0))
      && (old(corps.etat && cible.etat) && cible.ptVie <= 0 ==>
            w.positions == old(w.positions) - {old(cible.pos)} && w.creatures == RetirerPremier(old(w.creatures), cible))
      && (cible.ptVie > 0 ==> w.positions == old(w.positions) && w.creatures == old(w.creatures))
    }

    /**
     * Archer.combattre, between the state before it and the state after:
     * nothing if either is dead; the melee band with 10 damage; the ranged
     * band spending one arrow against the hit points only; no blow outside
     * both bands. The archer's own position, hit points, parry points and
     * state never change, and the target dies exactly when its hit points
     * are gone, leaving the list and freeing its cell.
     */
    twostate predicate AttaqueArcher(cible: Creature, w: Monde, rollAtt: int, rollPar: int)
      reads this, corps, cible, w
    {
      (!old(corps.etat && cible.etat) ==>
          corps.degAtt == old(corps.degAtt) && corps.nbFleches == old(corps.nbFleches)
          && cible.ptVie == old(cible.ptVie) && cible.ptPar == old(cible.ptPar) && cible.etat == old(cible.etat)
          && w.positions == old(w.positions) && w.creatures == old(w.creatures))
      && (old(corps.etat && cible.etat && AuContact(corps.pos, cible.pos)) ==>
          corps.degAtt == Archers.DegatsCorpsACorps && corps.nbFleches == old(corps.nbFleches)
          && Defense(cible.ptVie, cible.ptPar)
               == Assaut(old(Defense(cible.ptVie, cible.ptPar)), Archers.DegatsCorpsACorps, old(corps.pageAtt),
                         old(cible.pagePar), rollAtt, rollPar))
      && (old(corps.etat && cible.etat && Archers.ADistance(corps, cible)) ==>
          corps.degAtt == old(corps.degAtt) && corps.nbFleches == old(corps.nbFleches) - 1
          && cible.ptPar == old(cible.ptPar)
          && cible.ptVie == old(cible.ptVie) - (if Reussit(old(corps.pageAtt), rollAtt) then old(corps.degAtt) else 0))
      && (old(corps.etat && cible.etat && !AuContact(corps.pos, cible.pos) && !Archers.ADistance(corps, cible)) ==>
          corps.degAtt == old(corps.degAtt) && corps.nbFleches == old(corps.nbFleches)
          && cible.ptVie == old(cible.ptVie) && cible.ptPar == old(cible.ptPar))
      && corps.pos == old(corps.pos) && corps.ptVie == old(corps.ptVie) && corps.ptPar == old(corps.ptPar)
      && corps.etat == old(corps.etat)
      && (old(corps.etat && cible.etat) ==> (cible.etat <==> cible.ptVie > 0))
      && (old(corps.etat && cible.etat) && cible.ptVie <= 0 ==>
            w.positions == old(w.positions) - {old(cible.pos)} && w.creatures == RetirerPremier(old(w.creatures), cible))
      && (cible.ptVie > 0 ==> w.positions == old(w.positions) && w.creatures == old(w.creatures))
    }

    /**
     * What the attack of analyzer's action 1 does: Guerrier.combattre for a
     * Guerrier, Archer.combattre for an Archer, nothing for a character that
     * cannot fight.
     */
    twostate predicate AttaqueConforme(cible: Creature, w: Monde, rollAtt: int, rollPar: int)
      reads this, corps, cible, w
    {
      (!corps.espece.EstCombattant() ==>
          unchanged(corps) && unchanged(cible) && w.positions == old(w.positions) && w.creatures == old(w.creatures))
      && (corps.espece.Guerrier? ==> AttaqueGuerrier(cible, w, rollAtt, rollPar))
      && (corps.espece.Archer? ==> AttaqueArcher(cible, w, rollAtt, rollPar))
    }

    /** A Guerrier's attack on a target in range is Guerrier.combattre. */
    method AttaquerEnGuerrier(cible: Creature, w: Monde, rollAtt: int, rollPar: int)
      requires corps.espece.Guerrier?
      requires cible != corps && DansPortee(corps.pos, cible.pos, corps.distAttMax)
      modifies cible`ptVie, cible`ptPar, cible`etat, w`positions, w`creatures
      ensures AttaqueGuerrier(cible, w, rollAtt, rollPar)
    {
      Guerriers.Combattre(corps, cible, w, rollAtt, rollPar);
    }

    /** An Archer's attack on a target is Archer.combattre. */
    method AttaquerEnArcher(cible: Creature, w: Monde, rollAtt: int, rollPar: int)
      requires corps.espece.Archer?
      requires cible != corps
      modifies corps`degAtt, corps`nbFleches, cible`ptVie, cible`ptPar, cible`etat, w`positions, w`creatures
      ensures AttaqueArcher(cible, w, rollAtt, rollPar)
    {
      Archers.Combattre(corps, cible, w, rollAtt, rollPar);
    }

    /**
     * The attack of analyzer's action 1 on the chosen target: Guerrier.combattre
     * for a Guerrier, Archer.combattre for an Archer, nothing for any other kind.
     */
    method Attaquer(cible: Creature, w: Monde, rollAtt: int, rollPar: int)
      requires corps.espece.EstPersonnage()
      requires cible != corps && DansPortee(corps.pos, cible.pos, corps.distAttMax)
      modifies corps`degAtt, corps`nbFleches, cible`ptVie, cible`ptPar, cible`etat, w`positions, w`creatures
      ensures AttaqueConforme(cible, w, rollAtt, rollPar)
    {
      if corps.espece.Guerrier? {
        AttaquerEnGuerrier(cible, w, rollAtt, rollPar);
      } else if corps.espece.Archer? {
        AttaquerEnArcher(cible, w, rollAtt, rollPar);
      }
    }

    /**
     * analyzer: a Paysan only wanders. Any other character draws an action:
     * 0 wanders, 1 attacks the choix-th target if there is one (and only a
     * Guerrier or an Archer can actually fight), anything else waits.
     * The wander step's outcome is (destination, occupees); the draws are
     * action = nextInt(3), choix = nextInt(number of targets) and the
     * combat draws.
     */
    method Analyzer(w: Monde, action: int, choix: int, rollAtt: int, rollPar: int,
                    destination: Point, occupees: set<Point>) returns (d: Decision)
      requires corps.espece.EstPersonnage()
      requires 0 <= action < 3
      requires 0 <= choix
      requires Adjacentes(corps, w.creatures) != [] ==> choix < |Adjacentes(corps, w.creatures)|
      modifies corps`pos, corps`degAtt, corps`nbFleches, w`positions, w`creatures,
        w.creatures`ptVie, w.creatures`ptPar, w.creatures`etat
      ensures corps.espece.Paysan? || action == 0 ==> d == Errance
      ensures !corps.espece.Paysan? && action == 1 && old(Adjacentes(corps, w.creatures)) != [] ==>
        d == Attaque(old(Adjacentes(corps, w.creatures))[choix])
      ensures !corps.espece.Paysan? && (action == 2 || (action == 1 && old(Adjacentes(corps, w.creatures)) == [])) ==>
        d == Rien
      // Wandering moves the character and sets the occupancy set, and changes nothing else.
      ensures d.Errance? ==>
        corps.pos == destination && w.positions == occupees && w.creatures == old(w.creatures)
      ensures d.Errance? ==>
        corps.ptVie == old(corps.ptVie) && corps.ptPar == old(corps.ptPar) && corps.etat == old(corps.etat)
        && corps.degAtt == old(corps.degAtt) && corps.nbFleches == old(corps.nbFleches)
      ensures d.Errance? ==>
        forall k :: 0 <= k < |old(w.creatures)| && old(w.creatures)[k] != corps ==> unchanged(old(w.creatures)[k])
      // Waiting, or an attack by a character that cannot fight, changes nothing.
      ensures d.Rien? || (d.Attaque? && !corps.espece.EstCombattant()) ==>
        w.positions == old(w.positions) && w.creatures == old(w.creatures) && unchanged(corps)
        && forall k :: 0 <= k < |old(w.creatures)| ==> unchanged(old(w.creatures)[k])
      // An attack aims at one listed creature in range, and touches no other creature.
      ensures d.Attaque? ==>
        d.cible in old(w.creatures) && d.cible != corps && old(DansPortee(corps.pos, d.cible.pos, corps.distAttMax))
      ensures d.Attaque? ==>
        forall k :: 0 <= k < |old(w.creatures)| && old(w.creatures)[k] != d.cible && old(w.creatures)[k] != corps ==>
          unchanged(old(w.creatures)[k])
      ensures d.Attaque? ==> AttaqueConforme(d.cible, w, rollAtt, rollPar)
    {
      if corps.espece.Paysan? {
        corps.Errer(w, destination, occupees);
        return Errance;
      }
      var cibles := CiblesAdjacentes(corps, w.creatures);
      if action == 0 {
        corps.Errer(w, destination, occupees);
        d := Errance;
      } else if action == 1 {
        if cibles != [] {
          var cible := cibles[choix];
          CibleAPortee(corps, cible);
          Attaquer(cible, w, rollAtt, rollPar);
          d := Attaque(cible);
        } else {
          d := Rien;
        }
      } else {
        d := Rien;
      }
    }
  }
}
