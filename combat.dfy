/**
 * The combat rules shared by Guerrier, Loup and Archer: the two percentage
 * draws (jeuDeAtt, jeuDeDe) and the parry absorption applied to the
 * defender when an attack lands.
 *
 * Each draw is Random.nextInt(100), supplied by the caller as an integer.
 */
module Combat {
  import opened Geometrie
  import opened Creatures

  /** A value Random.nextInt(100) can return. */
  predicate De100(roll: int)
  {
    0 <= roll < 100
  }

  /**
   * jeuDeAtt / jeuDeDe: a draw succeeds when it is strictly below the
   * percentage; on a draw of nextInt(100), 100 % always succeeds and 0 %
   * never does.
   */
  predicate Reussit(pourcentage: int, roll: int): (r: bool)
    ensures De100(roll) && pourcentage >= 100 ==> r
    ensures De100(roll) && pourcentage <= 0 ==> !r
  {
    roll < pourcentage
  }

  /**
   * How many of the draws 0 .. n-1 succeed against the percentage: exactly
   * the percentage clamped into [0, n]. With n = 100, the chance of success
   * of a nextInt(100) draw is the percentage itself for a percentage in
   * [0, 100].
   */
  function NbReussites(pourcentage: int, n: nat): (r: nat)
    ensures r == (if pourcentage <= 0 then 0 else if pourcentage >= n then n else pourcentage)
  {
    if n == 0 then 0
    else NbReussites(pourcentage, n - 1) + (if Reussit(pourcentage, n - 1) then 1 else 0)
  }

  /** The defender's hit points and parry points. */
  datatype Defense = Defense(ptVie: int, ptPar: int)
  {
    function Total(): int
    {
      ptVie + ptPar
    }
  }

  /**
   * A landed blow of deg damage. Unparried, or parried with no parry points
   * left, it comes off the hit points; parried, the parry points absorb
   * it first and only the excess reaches the hit points.
   */
  function Coup(d: Defense, deg: int, pare: bool): (r: Defense)
    ensures r.Total() == d.Total() - deg
    ensures !pare || d.ptPar <= 0 ==> r.ptPar == d.ptPar
    ensures pare && 0 < d.ptPar && deg < d.ptPar ==> r.ptVie == d.ptVie
    ensures pare && 0 < d.ptPar <= deg ==> r.ptPar == 0
    ensures d.ptPar >= 0 ==> r.ptPar >= 0
    ensures deg >= 0 ==> r.ptVie <= d.ptVie && r.ptPar <= d.ptPar
  {
    if !pare || d.ptPar <= 0 then Defense(d.ptVie - deg, d.ptPar)
    else
      var reste := d.ptPar - deg;
      if reste <= 0 then Defense(d.ptVie + reste, 0)
      else Defense(d.ptVie, reste)
  }

  /** A parry never costs the defender more hit points than no parry. */
  lemma ParadeProtege(d: Defense, deg: int)
    requires deg >= 0
    ensures Coup(d, deg, true).ptVie >= Coup(d, deg, false).ptVie
  {
  }

  /**
   * The outcome of one melee exchange: a missed attack leaves the defender
   * as it was; a landed one is a Coup, parried when the parry draw succeeds.
   */
  function Assaut(d: Defense, deg: int, pageAtt: int, pagePar: int, rollAtt: int, rollPar: int): (r: Defense)
    ensures !Reussit(pageAtt, rollAtt) ==> r == d
    ensures Reussit(pageAtt, rollAtt) ==> r.Total() == d.Total() - deg
    ensures deg >= 0 ==> r.ptVie <= d.ptVie && r.ptPar <= d.ptPar
    ensures d.ptPar >= 0 ==> r.ptPar >= 0
  {
    if Reussit(pageAtt, rollAtt) then Coup(d, deg, Reussit(pagePar, rollPar)) else d
  }

  /**
   * Both fighters alive and the target within distAttMax * sqrt(2): only
   * live fighters engage, and a live fighter with a range of at least one
   * always engages a live target on a contact cell.
   */
  predicate Engage(a: Creature, c: Creature): (r: bool)
    reads a, c
    ensures r ==> a.etat && c.etat
    ensures a.etat && c.etat && a.distAttMax >= 1 && AuContact(a.pos, c.pos) ==> r
  {
    DansPortee(a.pos, c.pos, a.distAttMax) && c.etat && a.etat
  }

  /** The absorption code of every combattre, on the defender's fields. */
  method Frapper(c: Creature, deg: int, pare: bool)
    modifies c`ptVie, c`ptPar
    ensures Defense(c.ptVie, c.ptPar) == Coup(old(Defense(c.ptVie, c.ptPar)), deg, pare)
  {
    if pare {
      if c.ptPar <= 0 {
        c.ptVie := c.ptVie - deg;
      } else {
        var eDef := c.ptPar - deg;
        if eDef <= 0 {
          c.ptPar := 0;
          c.ptVie := c.ptVie + eDef;
        } else {
          c.ptPar := eDef;
        }
      }
    } else {
      c.ptVie := c.ptVie - deg;
    }
  }
}
