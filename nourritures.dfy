/**
 * Food (Nourriture): a usable object whose effect changes a character's
 * attack and parry percentages (pageAtt, pagePar) for coolDown turns.
 * Applying clamps at the limits the source tests for; removing undoes the
 * nominal change and clamps both percentages into [0, 100].
 */
module Nourritures {
  import opened Geometrie
  import opened Durees
  import opened Creatures

  /** Nourriture.Nourritures */
  datatype TypeNourriture = Alcoohol | Legumbre | BoissonRiche | PommeDor

  /** A (pageAtt, pagePar) pair. */
  datatype Pourcentages = Pourcentages(att: int, par: int)

  predicate EnBornes(v: Pourcentages)
  {
    0 <= v.att <= 100 && 0 <= v.par <= 100
  }

  /** Clamps one percentage into [0, 100]. */
  function Borne(n: int): (r: int)
    ensures 0 <= r <= 100
    ensures 0 <= n <= 100 ==> r == n
  {
    if n < 0 then 0 else if n > 100 then 100 else n
  }

  /**
   * The nominal change of each kind: ALCOHOOL -20 attack / +20 parry,
   * LEGUMBRE +30 / +30, BOISSONRICHE parry -20 only, POMMEDOR +40 / +40.
   */
  function Delta(k: TypeNourriture): Pourcentages
  {
    match k
    case Alcoohol => Pourcentages(-20, 20)
    case Legumbre => Pourcentages(30, 30)
    case BoissonRiche => Pourcentages(0, -20)
    case PommeDor => Pourcentages(40, 40)
  }

  function Plus(v: Pourcentages, d: Pourcentages): Pourcentages
  {
    Pourcentages(v.att + d.att, v.par + d.par)
  }

  function Moins(v: Pourcentages, d: Pourcentages): Pourcentages
  {
    Pourcentages(v.att - d.att, v.par - d.par)
  }

  /** appliquerEffet on the two percentages, branch by branch as the source tests them. */
  function Applique(k: TypeNourriture, v: Pourcentages): (r: Pourcentages)
    ensures EnBornes(v) ==> EnBornes(r)
    ensures k == BoissonRiche ==> r.att == v.att
  {
    match k
    case Alcoohol =>
      Pourcentages(if v.att > 20 then v.att - 20 else 0,
                   if v.par > 80 then 100 else v.par + 20)
    case Legumbre =>
      Pourcentages(if v.att <= 70 then v.att + 30 else 100,
                   if v.par <= 70 then v.par + 30 else 100)
    case BoissonRiche =>
      Pourcentages(v.att, if v.par >= 20 then v.par - 20 else 0)
    case PommeDor =>
      Pourcentages(if v.att <= 60 then v.att + 40 else 100,
                   if v.par <= 60 then v.par + 40 else 100)
  }

  /** retirerEffet: undo the nominal change, then clamp both percentages. */
  function Retire(k: TypeNourriture, v: Pourcentages): (r: Pourcentages)
    ensures EnBornes(r)
    ensures k == BoissonRiche && 0 <= v.att <= 100 ==> r.att == v.att
  {
    var brut := Moins(v, Delta(k));
    Pourcentages(Borne(brut.att), Borne(brut.par))
  }

  /** Within [0, 100], applying is adding the nominal change and clamping. */
  lemma AppliqueEstBorne(k: TypeNourriture, v: Pourcentages)
    requires EnBornes(v)
    ensures Applique(k, v) == Pourcentages(Borne(v.att + Delta(k).att), Borne(v.par + Delta(k).par))
  {
  }

  /**
   * Apply then remove restores both percentages exactly when applying
   * did not clamp, i.e. when it added the full nominal change.
   */
  lemma AllerRetour(k: TypeNourriture, v: Pourcentages)
    requires EnBornes(v)
    ensures Retire(k, Applique(k, v)) == v <==> Applique(k, v) == Plus(v, Delta(k))
  {
  }

  /** The kind-by-kind form of the exact round trip. */
  lemma AllerRetourParType(k: TypeNourriture, v: Pourcentages)
    requires EnBornes(v)
    ensures k == Alcoohol ==> (Retire(k, Applique(k, v)) == v <==> v.att >= 20 && v.par <= 80)
    ensures k == Legumbre ==> (Retire(k, Applique(k, v)) == v <==> v.att <= 70 && v.par <= 70)
    ensures k == BoissonRiche ==> (Retire(k, Applique(k, v)) == v <==> v.par >= 20)
    ensures k == PommeDor ==> (Retire(k, Applique(k, v)) == v <==> v.att <= 60 && v.par <= 60)
  {
    AllerRetour(k, v);
  }

  /** A clamped application does not round-trip: ALCOHOOL at attack 10 ends at 20. */
  lemma AlcoolSature()
    ensures Applique(Alcoohol, Pourcentages(10, 50)) == Pourcentages(0, 70)
    ensures Retire(Alcoohol, Pourcentages(0, 70)) == Pourcentages(20, 50)
  {
  }

  class Nourriture {
    /** Turns left before the effect is removed. */
    var coolDown: int
    const typeNourriture: TypeNourriture
    const pos: Point

    constructor (coolDown: int, typeNourriture: TypeNourriture, pos: Point)
      ensures this.coolDown == coolDown && this.typeNourriture == typeNourriture && this.pos == pos
    {
      this.coolDown := coolDown;
      this.typeNourriture := typeNourriture;
      this.pos := pos;
    }

    /** appliquerEffet: changes only the character's pageAtt and pagePar. */
    method AppliquerEffet(p: Creature)
      requires p.espece.EstPersonnage()
      modifies p`pageAtt, p`pagePar
      ensures Pourcentages(p.pageAtt, p.pagePar) == Applique(typeNourriture, old(Pourcentages(p.pageAtt, p.pagePar)))
    {
      match typeNourriture
      case Alcoohol =>
        if p.pageAtt > 20 { p.pageAtt := p.pageAtt - 20; } else { p.pageAtt := 0; }
        if p.pagePar > 80 { p.pagePar := 100; } else { p.pagePar := p.pagePar + 20; }
      case Legumbre =>
        if p.pageAtt <= 70 { p.pageAtt := p.pageAtt + 30; } else { p.pageAtt := 100; }
        if p.pagePar <= 70 { p.pagePar := p.pagePar + 30; } else { p.pagePar := 100; }
      case BoissonRiche =>
        if p.pagePar >= 20 { p.pagePar := p.pagePar - 20; } else { p.pagePar := 0; }
      case PommeDor =>
        if p.pageAtt <= 60 { p.pageAtt := p.pageAtt + 40; } else { p.pageAtt := 100; }
        if p.pagePar <= 60 { p.pagePar := p.pagePar + 40; } else { p.pagePar := 100; }
    }

    /** retirerEffet: changes only pageAtt and pagePar, and leaves both in [0, 100]. */
    method RetirerEffet(p: Creature)
      requires p.espece.EstPersonnage()
      modifies p`pageAtt, p`pagePar
      ensures Pourcentages(p.pageAtt, p.pagePar) == Retire(typeNourriture, old(Pourcentages(p.pageAtt, p.pagePar)))
      ensures 0 <= p.pageAtt <= 100 && 0 <= p.pagePar <= 100
    {
      match typeNourriture {
        case Alcoohol =>
          p.pageAtt := p.pageAtt + 20;
          p.pagePar := p.pagePar - 20;
        case Legumbre =>
          p.pageAtt := p.pageAtt - 30;
          p.pagePar := p.pagePar - 30;
        case BoissonRiche =>
          p.pagePar := p.pagePar + 20;
        case PommeDor =>
          p.pageAtt := p.pageAtt - 40;
          p.pagePar := p.pagePar - 40;
      }
      if p.pageAtt < 0 { p.pageAtt := 0; }
      if p.pagePar < 0 { p.pagePar := 0; }
      if p.pageAtt > 100 { p.pageAtt := 100; }
      if p.pagePar > 100 { p.pagePar := 100; }
    }

    /** decrementerDuree: one turn less, never below 0 from a non-negative start. */
    method DecrementerDuree()
      modifies this`coolDown
      ensures coolDown == Decremente(old(coolDown))
    {
      if coolDown > 0 {
        coolDown := coolDown - 1;
      }
    }

    /** estActif: the effect lasts while decrementerDuree still takes a turn off. */
    predicate EstActif(): (r: bool)
      reads this
      ensures r <==> Decremente(coolDown) == coolDown - 1
    {
      Actif(coolDown)
    }
  }
}
