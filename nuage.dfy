/**
 * NuageToxique: a toxic cloud that drifts across the grid and, while its
 * duration lasts, damages every live creature inside the square zone of
 * half-width taille/2 around it.
 *
 * The cloud's random draws are supplied by the caller: the nine (dx, dy)
 * pairs deplacementAleatoire may draw, each nextInt(3) - 1.
 */
module Nuages {
  import opened Geometrie
  import opened Listes
  import opened Durees
  import opened Creatures

  datatype Option<T> = None | Some(value: T)

  /** MAX_ESSAIS: the walk gives up after this many draws. */
  const MaxEssais := 9

  /** One draw of the walk. */
  datatype Tirage = Tirage(dx: int, dy: int)

  /** Every draw has both offsets in {-1, 0, 1}. */
  predicate TiragesUnitaires(tirages: seq<Tirage>)
  {
    forall k :: 0 <= k < |tirages| ==> PasUnitaire(tirages[k].dx, tirages[k].dy)
  }

  /** Inside the tailleMonde x tailleMonde grid. */
  predicate DansMonde(p: Point, tailleMonde: int)
  {
    0 <= p.x < tailleMonde && 0 <= p.y < tailleMonde
  }

  /** A draw the walk accepts: a non-zero offset to a free cell of the grid. */
  predicate Accepte(depart: Point, occ: set<Point>, tailleMonde: int, t: Tirage)
  {
    (t.dx, t.dy) != (0, 0)
    && DansMonde(depart.Translate(t.dx, t.dy), tailleMonde)
    && depart.Translate(t.dx, t.dy) !in occ
  }

  /** Draw k is accepted and no earlier draw is. */
  predicate PremierAccepte(depart: Point, occ: set<Point>, tailleMonde: int, tirages: seq<Tirage>, k: int)
  {
    0 <= k < |tirages| && Accepte(depart, occ, tailleMonde, tirages[k])
    && forall j :: 0 <= j < k ==> !Accepte(depart, occ, tailleMonde, tirages[j])
  }

  /**
   * deplacementAleatoire's search: the cell reached by the first accepted
   * draw, or None when every draw is rejected. A (0, 0) draw, a draw off
   * the grid and a draw onto an occupied cell each use up one try.
   * That the cell comes from the first accepted draw is the lemma
   * MarchePremierAccepte.
   */
  function Marche(depart: Point, occ: set<Point>, tailleMonde: int, tirages: seq<Tirage>): (r: Option<Point>)
    requires TiragesUnitaires(tirages)
    ensures r.Some? ==> DansMonde(r.value, tailleMonde) && r.value !in occ
    ensures r.Some? ==> AuContact(depart, r.value) && r.value != depart
    ensures r.None? <==> forall k :: 0 <= k < |tirages| ==> !Accepte(depart, occ, tailleMonde, tirages[k])
  {
    if tirages == [] then None
    else
      var t := tirages[0];
      assert forall k :: 1 <= k < |tirages| ==> tirages[k] == tirages[1..][k - 1];
      if Accepte(depart, occ, tailleMonde, t) then
        PasVersVoisin(depart, t.dx, t.dy);
        Some(depart.Translate(t.dx, t.dy))
      else
        Marche(depart, occ, tailleMonde, tirages[1..])
  }

  /** A cell found by the search is the start moved by the first accepted draw. */
  lemma {:induction false} MarchePremierAccepte(depart: Point, occ: set<Point>, tailleMonde: int, tirages: seq<Tirage>)
    requires TiragesUnitaires(tirages)
    ensures Marche(depart, occ, tailleMonde, tirages).Some? ==>
      exists k :: PremierAccepte(depart, occ, tailleMonde, tirages, k)
        && Marche(depart, occ, tailleMonde, tirages).value == depart.Translate(tirages[k].dx, tirages[k].dy)
  {
    if tirages != [] && !Accepte(depart, occ, tailleMonde, tirages[0]) {
      assert TiragesUnitaires(tirages[1..]);
      MarchePremierAccepte(depart, occ, tailleMonde, tirages[1..]);
      if Marche(depart, occ, tailleMonde, tirages).Some? {
        var k :| PremierAccepte(depart, occ, tailleMonde, tirages[1..], k)
          && Marche(depart, occ, tailleMonde, tirages[1..]).value == depart.Translate(tirages[1..][k].dx, tirages[1..][k].dy);
        assert PremierAccepte(depart, occ, tailleMonde, tirages, k + 1);
      }
    } else if tirages != [] {
      assert PremierAccepte(depart, occ, tailleMonde, tirages, 0);
    }
  }

  /**
   * The search as the source runs it: Point2D defines no equals, so the
   * occupancy test compares references, and the point just built for the
   * candidate cell is never one of the set's elements. Every non-zero draw
   * that stays on the grid is taken, occupied or not.
   * The first such draw decides: lemma MarcheParReferencePremierAccepte.
   */
  function MarcheParReference(depart: Point, tailleMonde: int, tirages: seq<Tirage>): (r: Option<Point>)
    requires TiragesUnitaires(tirages)
    ensures r.Some? ==> DansMonde(r.value, tailleMonde) && AuContact(depart, r.value) && r.value != depart
    ensures r.None? <==> forall k :: 0 <= k < |tirages| ==> !Accepte(depart, {}, tailleMonde, tirages[k])
  {
    if tirages == [] then None
    else
      var t := tirages[0];
      assert forall k :: 1 <= k < |tirages| ==> tirages[k] == tirages[1..][k - 1];
      if Accepte(depart, {}, tailleMonde, t) then
        PasVersVoisin(depart, t.dx, t.dy);
        Some(depart.Translate(t.dx, t.dy))
      else
        MarcheParReference(depart, tailleMonde, tirages[1..])
  }

  /**
   * A cell found by the reference search is the start moved by the first
   * non-zero draw that stays on the grid.
   */
  lemma {:induction false} MarcheParReferencePremierAccepte(depart: Point, tailleMonde: int, tirages: seq<Tirage>)
    requires TiragesUnitaires(tirages)
    ensures MarcheParReference(depart, tailleMonde, tirages).Some? ==>
      exists k :: PremierAccepte(depart, {}, tailleMonde, tirages, k)
        && MarcheParReference(depart, tailleMonde, tirages).value == depart.Translate(tirages[k].dx, tirages[k].dy)
  {
    if tirages != [] && !Accepte(depart, {}, tailleMonde, tirages[0]) {
      assert TiragesUnitaires(tirages[1..]);
      MarcheParReferencePremierAccepte(depart, tailleMonde, tirages[1..]);
      if MarcheParReference(depart, tailleMonde, tirages).Some? {
        var k :| PremierAccepte(depart, {}, tailleMonde, tirages[1..], k)
          && MarcheParReference(depart, tailleMonde, tirages[1..]).value
             == depart.Translate(tirages[1..][k].dx, tirages[1..][k].dy);
        assert PremierAccepte(depart, {}, tailleMonde, tirages, k + 1);
      }
    } else if tirages != [] {
      assert PremierAccepte(depart, {}, tailleMonde, tirages, 0);
    }
  }

  /**
   * A cloud at (0, 0) on a 2 x 2 grid whose neighbour (1, 0) is occupied:
   * with the draws (1, 0) then eight (0, 0), the reference comparison moves
   * the cloud onto the occupied cell, while the value comparison rejects it
   * and leaves the cloud in place.
   */
  lemma MarcheParReferenceEcrase()
    ensures var tirages := [Tirage(1, 0)] + seq(8, _ => Tirage(0, 0));
      TiragesUnitaires(tirages)
      && MarcheParReference(Point(0, 0), 2, tirages) == Some(Point(1, 0))
      && Point(1, 0) in {Point(0, 0), Point(1, 0)}
      && Marche(Point(0, 0), {Point(0, 0), Point(1, 0)}, 2, tirages) == None
  {
    var tirages := [Tirage(1, 0)] + seq(8, _ => Tirage(0, 0));
    assert forall k :: 1 <= k < |tirages| ==> tirages[k] == Tirage(0, 0);
    assert !Accepte(Point(0, 0), {Point(0, 0), Point(1, 0)}, 2, tirages[0]);
  }

  /** The cloud's position after the walk. */
  function Destination(depart: Point, occ: set<Point>, tailleMonde: int, tirages: seq<Tirage>): Point
    requires TiragesUnitaires(tirages)
  {
    match Marche(depart, occ, tailleMonde, tirages)
    case Some(p) => p
    case None => depart
  }

  /** The occupancy set after the walk. */
  function OccupationApres(depart: Point, occ: set<Point>, tailleMonde: int, tirages: seq<Tirage>): set<Point>
    requires TiragesUnitaires(tirages)
  {
    match Marche(depart, occ, tailleMonde, tirages)
    case Some(p) => occ - {depart} + {p}
    case None => occ
  }

  /** A successful move from an occupied cell keeps the number of occupied cells. */
  lemma {:induction false} OccupationConservee(depart: Point, occ: set<Point>, tailleMonde: int, tirages: seq<Tirage>)
    requires TiragesUnitaires(tirages)
    requires depart in occ
    ensures |OccupationApres(depart, occ, tailleMonde, tirages)| == |occ|
  {
    match Marche(depart, occ, tailleMonde, tirages)
    case Some(p) =>
      assert p !in occ - {depart};
    case None =>
  }

  /** taille / 2 with Java's truncation toward zero. */
  function DemiTaille(taille: int): (r: int)
    ensures taille >= 0 ==> 0 <= r && 2 * r <= taille <= 2 * r + 1
    ensures taille < 0 ==> r <= 0 && 2 * r - 1 <= taille <= 2 * r
  {
    if taille >= 0 then taille / 2 else -((-taille) / 2)
  }

  /** The halving is symmetric around zero, unlike Dafny's own division. */
  lemma DemiTailleSymetrique(taille: int)
    ensures DemiTaille(-taille) == -DemiTaille(taille)
  {
  }

  /**
   * The zone's side, 2 * (taille / 2) + 1 cells, is taille exactly when
   * taille is odd; an even taille gives one cell more (the default taille 2
   * hits a 3 x 3 square).
   */
  lemma CoteZone(taille: nat)
    ensures 2 * DemiTaille(taille) + 1 == taille <==> taille % 2 == 1
    ensures taille % 2 == 0 ==> 2 * DemiTaille(taille) + 1 == taille + 1
    ensures 2 * DemiTaille(2) + 1 == 3
  {
  }

  /** Alive and inside [x - demi, x + demi] x [y - demi, y + demi] around the centre. */
  predicate Touchee(centre: Point, demi: int, c: Creature)
    reads c
  {
    c.etat
    && centre.x - demi <= c.pos.x <= centre.x + demi
    && centre.y - demi <= c.pos.y <= centre.y + demi
  }

  /** The zone is the Chebyshev square of half-width demi, hence within demi * sqrt(2). */
  lemma {:induction false} ZoneDansPortee(centre: Point, demi: int, c: Creature)
    requires Touchee(centre, demi, c)
    ensures DansCarre(centre, c.pos, demi)
    ensures DansPortee(centre, c.pos, demi)
  {
    CarreDansPortee(centre, c.pos, demi);
  }

  /** The snapshot analyzer takes: the first n creatures that are hit, in list order. */
  function Touchees(centre: Point, demi: int, cs: seq<Creature>, n: nat): (r: seq<Creature>)
    requires n <= |cs|
    reads cs
    ensures |r| <= n
  {
    if n == 0 then []
    else Touchees(centre, demi, cs, n - 1) + (if Touchee(centre, demi, cs[n - 1]) then [cs[n - 1]] else [])
  }

  /**
   * The snapshot holds exactly the hit creatures of the list, each once
   * when the list has no duplicates.
   */
  lemma {:induction false} ToucheesExactes(centre: Point, demi: int, cs: seq<Creature>, n: nat)
    requires n <= |cs|
    requires Distinct(cs)
    ensures forall c :: c in Touchees(centre, demi, cs, n) <==> c in cs[..n] && Touchee(centre, demi, c)
    ensures Distinct(Touchees(centre, demi, cs, n))
  {
    if n > 0 {
      ToucheesExactes(centre, demi, cs, n - 1);
      assert cs[n - 1] !in cs[..n - 1];
      assert cs[..n] == cs[..n - 1] + [cs[n - 1]];
    }
  }

  /** The cells of a set of creatures. */
  function Cellules(cs: set<Creature>): set<Point>
    reads cs`pos
  {
    set c | c in cs :: c.pos
  }

  lemma CellulesAjout(cs: set<Creature>, c: Creature)
    ensures Cellules(cs + {c}) == Cellules(cs) + {c.pos}
  {
  }

  class NuageToxique {
    var pos: Point
    var degatParTour: int
    var taille: int
    var duree: int

    /** The default constructor: 5 damage per turn, size 2, 10 turns, at the origin. */
    constructor Default()
      ensures pos == Origine() && degatParTour == 5 && taille == 2 && duree == 10
    {
      pos := Origine();
      degatParTour := 5;
      taille := 2;
      duree := 10;
    }

    constructor (p: Point, degat: int, taille: int, duree: int)
      ensures pos == p && degatParTour == degat && this.taille == taille && this.duree == duree
    {
      pos := p;
      degatParTour := degat;
      this.taille := taille;
      this.duree := duree;
    }

    /** decrementerDuree: one turn less, never below 0 from a non-negative start. */
    method DecrementerDuree()
      modifies this`duree
      ensures duree == Decremente(old(duree))
    {
      if duree > 0 {
        duree := duree - 1;
      }
    }

    /** estActif: the cloud lasts while decrementerDuree still takes a turn off. */
    predicate EstActif(): (r: bool)
      reads this
      ensures r <==> Decremente(duree) == duree - 1
    {
      Actif(duree)
    }

    /** deplacer: shifts the cloud by (dx, dy); the occupancy set is not touched. */
    method Deplacer(dx: int, dy: int)
      modifies this`pos
      ensures pos == old(pos).Translate(dx, dy)
    {
      pos := pos.Translate(dx, dy);
    }

    /**
     * deplacementAleatoire: at most MaxEssais draws; the first accepted one
     * moves the cloud and swaps its cell in the occupancy set. After nine
     * rejected draws nothing changes.
     */
    method DeplacementAleatoire(w: Monde, tailleMonde: int, tirages: seq<Tirage>)
      requires |tirages| == MaxEssais && TiragesUnitaires(tirages)
      modifies this`pos, w`positions
      ensures pos == Destination(old(pos), old(w.positions), tailleMonde, tirages)
      ensures w.positions == OccupationApres(old(pos), old(w.positions), tailleMonde, tirages)
    {
      var essais := 0;
      var anciennePos := pos;
      while essais < MaxEssais
        invariant 0 <= essais <= MaxEssais
        invariant pos == anciennePos && w.positions == old(w.positions)
        invariant TiragesUnitaires(tirages[essais..])
        invariant Marche(anciennePos, w.positions, tailleMonde, tirages)
          == Marche(anciennePos, w.positions, tailleMonde, tirages[essais..])
      {
        assert tirages[essais..][1..] == tirages[essais + 1..];
        var dx := tirages[essais].dx;
        var dy := tirages[essais].dy;
        if dx == 0 && dy == 0 {
          essais := essais + 1;
          continue;
        }
        var nouvellePos := Point(anciennePos.x + dx, anciennePos.y + dy);
        var dansMonde := nouvellePos.x >= 0 && nouvellePos.x < tailleMonde
          && nouvellePos.y >= 0 && nouvellePos.y < tailleMonde;
        if !dansMonde {
          essais := essais + 1;
          continue;
        }
        var occupee := nouvellePos in w.positions;
        if !occupee {
          w.positions := w.positions - {anciennePos};
          w.positions := w.positions + {nouvellePos};
          pos := nouvellePos;
          return;
        }
        essais := essais + 1;
      }
    }

    /**
     * combattre: an inactive cloud does nothing; an active one takes
     * degatParTour off the creature's hit points, with no zone or life
     * check, and the creature dies exactly when its hit points are gone.
     */
    method Combattre(c: Creature, w: Monde)
      modifies c`ptVie, c`etat, w`positions, w`creatures
      ensures !old(EstActif()) ==>
        c.ptVie == old(c.ptVie) && c.etat == old(c.etat)
        && w.positions == old(w.positions) && w.creatures == old(w.creatures)
      ensures old(EstActif()) ==> c.ptVie == old(c.ptVie) - degatParTour
      ensures old(EstActif()) && c.ptVie <= 0 ==>
        !c.etat && w.positions == old(w.positions) - {c.pos}
        && w.creatures == RetirerPremier(old(w.creatures), c)
      ensures old(EstActif()) && c.ptVie > 0 ==>
        c.etat == old(c.etat) && w.positions == old(w.positions) && w.creatures == old(w.creatures)
    {
      if !EstActif() {
        return;
      }
      c.ptVie := c.ptVie - degatParTour;
      c.MourirSiVaincue(w);
    }

    /** The snapshot loop of analyzer, which reads the creatures and changes nothing. */
    method CreaturesAffectees(cs: seq<Creature>, demi: int) returns (aff: seq<Creature>)
      ensures aff == Touchees(pos, demi, cs, |cs|)
    {
      aff := [];
      var i := 0;
      while i < |cs|
        invariant 0 <= i <= |cs|
        invariant aff == Touchees(pos, demi, cs, i)
      {
        var c := cs[i];
        if c.etat && c.pos.x >= pos.x - demi && c.pos.x <= pos.x + demi
           && c.pos.y >= pos.y - demi && c.pos.y <= pos.y + demi {
          aff := aff + [c];
        }
        i := i + 1;
      }
    }

    /**
     * One pass of analyzer's damage loop on a creature that was alive in the
     * snapshot: combattre, and the creature joins the dead exactly when it
     * died, leaving the list and freeing its cell.
     */
    method Toucher(c: Creature, w: Monde, ghost cs: seq<Creature>, ghost morts: set<Creature>)
      returns (ghost morts2: set<Creature>)
      requires Distinct(cs) && c in cs && c !in morts && c.etat
      requires w.creatures == Retirer(cs, morts)
      modifies c`ptVie, c`etat, w`positions, w`creatures
      ensures c.ptVie == old(c.ptVie) - (if EstActif() then degatParTour else 0)
      ensures c.etat <==> !EstActif() || c.ptVie > 0
      ensures morts2 == if c.etat then morts else morts + {c}
      ensures w.creatures == Retirer(cs, morts2)
      ensures w.positions == old(w.positions) - (if c.etat then {} else {c.pos})
    {
      Combattre(c, w);
      morts2 := morts;
      if !c.etat {
        RetirerPremierEtape(cs, morts, c);
        morts2 := morts + {c};
      }
    }

    /**
     * analyzer's damage loop over the snapshot: each creature is hit once,
     * in order; those that die (morts) leave the list and free their cells.
     */
    method Empoisonner(w: Monde, aff: seq<Creature>, ghost cs: seq<Creature>, ghost cibles: set<Creature>)
      returns (ghost morts: set<Creature>)
      requires Distinct(cs) && Distinct(aff) && w.creatures == cs
      requires forall k :: 0 <= k < |aff| ==> aff[k] in cs && aff[k].etat && aff[k] in cibles
      modifies w`positions, w`creatures, cibles`ptVie, cibles`etat
      ensures forall k :: 0 <= k < |aff| ==> aff[k].ptVie == old(aff[k].ptVie) - (if EstActif() then degatParTour else 0)
      ensures forall k :: 0 <= k < |aff| ==> (aff[k].etat <==> !EstActif() || aff[k].ptVie > 0)
      ensures forall k :: 0 <= k < |aff| ==> (aff[k] in morts <==> !aff[k].etat)
      ensures forall m :: m in morts ==> m in aff
      ensures w.creatures == Retirer(cs, morts)
      ensures w.positions == old(w.positions) - Cellules(morts)
    {
      ghost var vies := seq(|aff|, k requires 0 <= k < |aff| reads aff => aff[k].ptVie);
      ghost var occ0 := w.positions;
      morts := {};
      RetirerRien(cs);
      var j := 0;
      while j < |aff|
        invariant 0 <= j <= |aff|
        invariant forall k :: 0 <= k < |aff| ==> aff[k].ptVie == vies[k] - (if k < j && EstActif() then degatParTour else 0)
        invariant forall k :: 0 <= k < |aff| ==> (aff[k].etat <==> j <= k || !EstActif() || aff[k].ptVie > 0)
        invariant forall k :: 0 <= k < |aff| ==> (aff[k] in morts <==> k < j && !aff[k].etat)
        invariant forall m :: m in morts ==> m in aff
        invariant w.creatures == Retirer(cs, morts)
        invariant w.positions == occ0 - Cellules(morts)
      {
        morts := EtapePoison(w, aff, vies, cs, occ0, morts, j, aff[j]);
        j := j + 1;
      }
    }

    /** One turn of Empoisonner's loop: the invariant at j gives the invariant at j + 1. */
    method EtapePoison(w: Monde, aff: seq<Creature>, ghost vies: seq<int>, ghost cs: seq<Creature>, ghost occ0: set<Point>,
                       ghost morts: set<Creature>, j: nat, c: Creature)
      returns (ghost morts2: set<Creature>)
      requires Distinct(cs) && Distinct(aff) && |vies| == |aff| && j < |aff| && c == aff[j] && c in cs
      requires forall k :: 0 <= k < |aff| ==> aff[k].ptVie == vies[k] - (if k < j && EstActif() then degatParTour else 0)
      requires forall k :: 0 <= k < |aff| ==> (aff[k].etat <==> j <= k || !EstActif() || aff[k].ptVie > 0)
      requires forall k :: 0 <= k < |aff| ==> (aff[k] in morts <==> k < j && !aff[k].etat)
      requires forall m :: m in morts ==> m in aff
      requires w.creatures == Retirer(cs, morts)
      requires w.positions == occ0 - Cellules(morts)
      modifies c`ptVie, c`etat, w`positions, w`creatures
      ensures forall k :: 0 <= k < |aff| ==> aff[k].ptVie == vies[k] - (if k < j + 1 && EstActif() then degatParTour else 0)
      ensures forall k :: 0 <= k < |aff| ==> (aff[k].etat <==> j + 1 <= k || !EstActif() || aff[k].ptVie > 0)
      ensures forall k :: 0 <= k < |aff| ==> (aff[k] in morts2 <==> k < j + 1 && !aff[k].etat)
      ensures forall m :: m in morts2 ==> m in aff
      ensures w.creatures == Retirer(cs, morts2)
      ensures w.positions == occ0 - Cellules(morts2)
    {
      assert forall k :: 0 <= k < |aff| && k != j ==> aff[k] != c;
      morts2 := Toucher(c, w, cs, morts);
      CellulesAjout(morts, c);
    }

    /**
     * The part of analyzer after the walk: every creature alive and inside
     * the zone around the cloud's current cell is hit once, in list order;
     * those that die leave the list and free their cells.
     */
    method FrapperZone(w: Monde) returns (ghost touchees: seq<Creature>, ghost morts: set<Creature>)
      requires Distinct(w.creatures)
      modifies w`positions, w`creatures, w.creatures`ptVie, w.creatures`etat
      ensures touchees == old(Touchees(pos, DemiTaille(taille), w.creatures, |w.creatures|))
      ensures forall k :: 0 <= k < |touchees| ==> touchees[k] in old(w.creatures)
      ensures forall k :: 0 <= k < |touchees| ==> touchees[k].ptVie == old(touchees[k].ptVie) - (if EstActif() then degatParTour else 0)
      ensures forall k :: 0 <= k < |touchees| ==> (touchees[k] in morts <==> !touchees[k].etat)
      ensures forall k :: 0 <= k < |touchees| ==> (touchees[k].etat <==> !EstActif() || touchees[k].ptVie > 0)
      ensures forall m :: m in morts ==> m in touchees
      ensures w.creatures == Retirer(old(w.creatures), morts)
      ensures w.positions == old(w.positions) - Cellules(morts)
      ensures forall k :: 0 <= k < |old(w.creatures)| && old(w.creatures)[k] !in touchees ==> unchanged(old(w.creatures)[k])
    {
      var demi := DemiTaille(taille);
      var aff := CreaturesAffectees(w.creatures, demi);
      touchees := aff;
      ToucheesExactes(pos, demi, w.creatures, |w.creatures|);
      assert w.creatures[..|w.creatures|] == w.creatures;
      assert forall k :: 0 <= k < |aff| ==> aff[k] in aff;
      morts := Empoisonner(w, aff, w.creatures, set k | 0 <= k < |aff| :: aff[k]);
    }

    /**
     * analyzer: the cloud walks, then every creature alive and inside its
     * zone at that moment (touchees) is hit once, in list order. Those that
     * die (morts) leave the creature list and free their cells; every
     * other creature and the cloud's own counters are unchanged.
     */
    method Analyzer(w: Monde, tailleMonde: int, tirages: seq<Tirage>)
      returns (ghost touchees: seq<Creature>, ghost morts: set<Creature>)
      requires |tirages| == MaxEssais && TiragesUnitaires(tirages)
      requires Distinct(w.creatures)
      modifies this`pos, w`positions, w`creatures, w.creatures`ptVie, w.creatures`etat
      ensures pos == Destination(old(pos), old(w.positions), tailleMonde, tirages)
      ensures duree == old(duree) && degatParTour == old(degatParTour) && taille == old(taille)
      ensures touchees == old(Touchees(Destination(pos, w.positions, tailleMonde, tirages), DemiTaille(taille), w.creatures, |w.creatures|))
      ensures forall k :: 0 <= k < |touchees| ==> touchees[k] in old(w.creatures)
      ensures forall k :: 0 <= k < |touchees| ==> touchees[k].ptVie == old(touchees[k].ptVie) - (if old(EstActif()) then degatParTour else 0)
      ensures forall k :: 0 <= k < |touchees| ==> (touchees[k] in morts <==> !touchees[k].etat)
      ensures forall k :: 0 <= k < |touchees| ==> (touchees[k].etat <==> !old(EstActif()) || touchees[k].ptVie > 0)
      ensures forall m :: m in morts ==> m in touchees
      ensures w.creatures == Retirer(old(w.creatures), morts)
      ensures w.positions == OccupationApres(old(pos), old(w.positions), tailleMonde, tirages) - Cellules(morts)
      ensures forall k :: 0 <= k < |old(w.creatures)| && old(w.creatures)[k] !in touchees ==> unchanged(old(w.creatures)[k])
    {
      DeplacementAleatoire(w, tailleMonde, tirages);
      touchees, morts := FrapperZone(w);
    }
  }
}
