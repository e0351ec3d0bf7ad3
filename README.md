# World of ECN — simulation engine in Dafny

This project models the turn engine of the grid game *World of ECN*
(package `org.centrale.objet.woe.projettp`). Creatures live on a square grid.
The world is two shared collections: the set of occupied cells and the list
of live creatures. The model covers:

- **Combat** (`Guerrier`, `Loup`, `Archer`). The hit and parry draws, then
  parry-point absorption.
- **Death cleanup** (`Creature.mourir`). The creature is marked dead, its
  cell is freed and it is removed from the creature list.
- **The toxic cloud** (`NuageToxique`). A bounded random walk over free
  cells, a square damage zone of half-width `taille / 2`, and a duration
  counter.
- **Food effects** (`Nourriture`). Effects on the attack and parry
  percentages, with clamping, and their expiry
  (`Personnage.mettreAJourEffets`).
- **The character's turn.** Object pickup (`Personnage.prendObjet`) and the
  wander / attack / wait policy (`Personnage.analyzer`).

Modules follow the source classes:

- `Geometrie`: Point2D.
- `Listes`: the `List.remove` operations used.
- `Durees`: the shared turn counters.
- `Creatures`: Creature and the world state.
- `Combat`: the draws and absorption shared by all fighters.
- `Guerriers`, `Loups`, `Archers`.
- `Nourritures`.
- `Nuages`: NuageToxique.
- `Personnages`.

Modelling choices:

- **Positions are values.** `Point(x, y)` is compared by value. A move
  assigns a new point to a creature instead of mutating a shared `Point2D`.
  The source clearly intends value semantics, but `Point2D` defines no
  `equals`; see "## Findings".
- **Distances are squared integers.** "distance ≤ k·√2" becomes
  dx² + dy² ≤ 2k², and the melee test "distance ≤ √2" becomes dx² + dy² ≤ 2.
- **One creature class.** The Java hierarchy (Creature, Personnage,
  Monstre, Guerrier, Archer, Paysan, Loup, Lapin) becomes one `Creature`
  class tagged with its kind (`Espece`). The tag decides which `combattre`
  applies and whether a character is a Paysan.
- **The cloud's zone follows the code.** The documentation of
  `NuageToxique` describes a `taille × taille` square; the code hits every
  cell within `taille / 2` of the centre on both axes, a square of side
  `2 · (taille / 2) + 1`, which is one cell wider for an even `taille`
  (see Nuages.CoteZone). The model follows the code.
- **Personnage is a composition.** `Personnage` holds its creature (`corps`)
  and the list of active effects.
- **Randomness is a parameter.** Every `java.util.Random` draw is passed in
  by the caller:
  - the hit and parry rolls (values of `nextInt(100)`);
  - the cloud's nine `(dx, dy)` draws;
  - the action (`nextInt(3)`) and the target index;
  - for the creature's wander step, its resulting position and occupancy set.

## Model

| member | source | states |
|---|---|---|
| Geometrie.Point.Translate | src/main/java/org/centrale/objet/woe/projettp/Point2D.java:91-94 | translate adds dx to x and dy to y |
| Geometrie.Point.SetPosition | src/main/java/org/centrale/objet/woe/projettp/Point2D.java:80-83 | setPosition sets both coordinates exactly |
| Geometrie.Origine | src/main/java/org/centrale/objet/woe/projettp/Point2D.java:30-33 | the default point is (0, 0) |
| Geometrie.Copie | src/main/java/org/centrale/objet/woe/projettp/Point2D.java:51-54 | the copy has the same coordinates and equals the original |
| Geometrie.DistanceCarree | src/main/java/org/centrale/objet/woe/projettp/Point2D.java:109-113 | the squared distance is zero exactly when the points coincide |
| Geometrie.TranslateInverse | src/main/java/org/centrale/objet/woe/projettp/Point2D.java:91-94 | translate(dx, dy) then translate(-dx, -dy) restores the point |
| Geometrie.SetPositionEstTranslation | src/main/java/org/centrale/objet/woe/projettp/Point2D.java:80-94 | setPosition is the translation by the offset to the target; the distance moved is that offset's length |
| Geometrie.DistanceSymetrique | src/main/java/org/centrale/objet/woe/projettp/Point2D.java:109-113 | distance is symmetric |
| Geometrie.ContactEstVoisinage | src/main/java/org/centrale/objet/woe/projettp/Archer.java:113 | distance ≤ √2 holds exactly when both offsets are in {-1, 0, 1} (the 3×3 neighbourhood) |
| Geometrie.CarreDansPortee | src/main/java/org/centrale/objet/woe/projettp/Personnage.java:155-164 | a cell within k on both axes is within k·√2 |
| Geometrie.PasVersVoisin | src/main/java/org/centrale/objet/woe/projettp/Creature.java:211-221 | a non-zero step with offsets in {-1, 0, 1} reaches one of the 8 neighbours, never the same cell |
| Listes.PremierIndice | src/main/java/org/centrale/objet/woe/projettp/Creature.java:233 | the index found holds x and no earlier position does |
| Listes.RetirerPremier | src/main/java/org/centrale/objet/woe/projettp/Creature.java:233 | List.remove drops exactly one occurrence of x (as multisets); a list without x is unchanged |
| Listes.RetirerPremierForme | src/main/java/org/centrale/objet/woe/projettp/Creature.java:233 | List.remove deletes the first occurrence and keeps all other elements in order |
| Listes.AbsentApresRetrait | src/main/java/org/centrale/objet/woe/projettp/Creature.java:233 | an element occurring at most once is absent after removal |
| Listes.RetirerExact | src/main/java/org/centrale/objet/woe/projettp/NuageToxique.java:333-335 | after removing a set of creatures, exactly the others remain |
| Listes.RetirerPremierEtape | src/main/java/org/centrale/objet/woe/projettp/NuageToxique.java:333-335 | in a list without duplicates, one more List.remove extends the removed set by that element |
| Listes.RetirerDistinct | src/main/java/org/centrale/objet/woe/projettp/NuageToxique.java:333-335 | removals keep a list free of duplicates |
| Durees.Decremente | src/main/java/org/centrale/objet/woe/projettp/NuageToxique.java:175-179 | a positive counter loses exactly one; a counter ≤ 0 stays; a non-negative counter never becomes negative |
| Durees.ActifSsiDecompte | src/main/java/org/centrale/objet/woe/projettp/Nourriture.java:201-203 | a counter is active exactly when the next decrementerDuree still takes a turn off; an inactive one is frozen |
| Durees.ActifApresTour | src/main/java/org/centrale/objet/woe/projettp/Nourriture.java:193-203 | a counter is still active after decrementing exactly when it was above 1 |
| Creatures.Creature.constructor | src/main/java/org/centrale/objet/woe/projettp/Creature.java:67-77 | every stat field takes the given value |
| Creatures.Creature.Default | src/main/java/org/centrale/objet/woe/projettp/Creature.java:99-109 | live at (0, 0) with ptVie 50, degAtt 5, ptPar 2, pageAtt 50, pagePar 30, distAttMax 1, distanceVision 1 |
| Creatures.Creature.Copie | src/main/java/org/centrale/objet/woe/projettp/Creature.java:84-94 | the copy has the same state, position and stats, as Creature(Creature) gives; it also keeps the kind and the arrows, since it stands for the concrete kind's own copy constructor, which calls Creature(Creature): Archer(Archer) at Archer.java:61-64 (which adds the arrows), Paysan(Paysan) at Paysan.java:40-42, Monstre(Monstre) at Monstre.java:67, Lapin(Lapin) at Lapin.java:47, Loup(Monstre) at Loup.java:59, Guerrier(Personnage) at Guerrier.java:59 |
| Creatures.Creature.Deplacer | src/main/java/org/centrale/objet/woe/projettp/Creature.java:200-202 | the position shifts by exactly (dx, dy) |
| Creatures.Creature.DeplaceAleatoire | src/main/java/org/centrale/objet/woe/projettp/Creature.java:211-221 | a dead creature stays put; a live one moves to a neighbouring cell, never staying put, with no bounds check |
| Creatures.Creature.Errer | src/main/java/org/centrale/objet/woe/projettp/Personnage.java:146-149 | the wander step changes only the position and the occupancy set |
| Creatures.Creature.Mourir | src/main/java/org/centrale/objet/woe/projettp/Creature.java:230-234 | etat becomes false; the cell leaves the occupancy set; the creature's first occurrence leaves the list; no stat or position changes |
| Creatures.Creature.MourirSiVaincue | src/main/java/org/centrale/objet/woe/projettp/Guerrier.java:129-134 | mourir happens exactly when ptVie ≤ 0; otherwise the world is untouched |
| Combat.NbReussites | src/main/java/org/centrale/objet/woe/projettp/Guerrier.java:143-157 | of the draws 0 .. n-1, exactly the percentage clamped into [0, n] succeed; of the 100 values nextInt(100) can return, exactly the percentage (clamped to [0, 100]) |
| Combat.Reussit | src/main/java/org/centrale/objet/woe/projettp/Guerrier.java:143-157 | on a nextInt(100) draw, a percentage of 100 or more always succeeds and one of 0 or less never does |
| Combat.Coup | src/main/java/org/centrale/objet/woe/projettp/Guerrier.java:95-115 | a landed blow lowers ptVie + ptPar by exactly deg; unparried (or ptPar ≤ 0) it leaves ptPar; a parry with deg < ptPar leaves ptVie; with 0 < ptPar ≤ deg it zeroes ptPar |
| Combat.ParadeProtege | src/main/java/org/centrale/objet/woe/projettp/Guerrier.java:95-115 | a parry never costs more hit points than no parry |
| Combat.Assaut | src/main/java/org/centrale/objet/woe/projettp/Guerrier.java:91-118 | a miss leaves the defender unchanged; a hit lowers ptVie + ptPar by exactly degAtt; neither stat rises |
| Combat.Frapper | src/main/java/org/centrale/objet/woe/projettp/Guerrier.java:95-115 | the absorption code changes the defender exactly as Coup |
| Combat.Engage | src/main/java/org/centrale/objet/woe/projettp/Guerrier.java:79 | only two live fighters engage; a live fighter with range at least 1 always engages a live target on a contact cell |
| Guerriers.Combattre | src/main/java/org/centrale/objet/woe/projettp/Guerrier.java:77-136 | out of range or with a fighter dead nothing changes; otherwise the defender gets the Assaut outcome and dies (freeing its cell and leaving the list) exactly when ptVie ≤ 0; the attacker is never modified |
| Loups.Combattre | src/main/java/org/centrale/objet/woe/projettp/Loup.java:78-131 | the same contract as Guerrier.combattre, for a wolf |
| Archers.ADistance | src/main/java/org/centrale/objet/woe/projettp/Archer.java:154-155 | the ranged band needs a range of at least 2 and an arrow left, and never holds a target on the archer's own cell |
| Archers.Combattre | src/main/java/org/centrale/objet/woe/projettp/Archer.java:106-192 | dead fighter: nothing changes; melee band: degAtt becomes 10 and the Assaut outcome applies; ranged band: one arrow spent, a hit takes degAtt off ptVie with ptPar untouched; otherwise no blow; mourir exactly when ptVie ≤ 0; against another creature the archer's own cell, ptVie, ptPar and state stay; nbFleches never turns negative |
| Nourritures.Borne | src/main/java/org/centrale/objet/woe/projettp/Nourriture.java:177-188 | the clamp lands in [0, 100] and keeps in-range values |
| Nourritures.Applique | src/main/java/org/centrale/objet/woe/projettp/Nourriture.java:84-147 | in-range percentages stay in range for every kind; BOISSONRICHE leaves pageAtt |
| Nourritures.Retire | src/main/java/org/centrale/objet/woe/projettp/Nourriture.java:151-189 | the result is always in [0, 100]; BOISSONRICHE leaves an in-range pageAtt |
| Nourritures.AppliqueEstBorne | src/main/java/org/centrale/objet/woe/projettp/Nourriture.java:84-147 | on in-range input, applying is adding the nominal change and clamping |
| Nourritures.AllerRetour | src/main/java/org/centrale/objet/woe/projettp/Nourriture.java:84-189 | apply then remove restores both percentages exactly when apply added the full nominal change |
| Nourritures.AllerRetourParType | src/main/java/org/centrale/objet/woe/projettp/Nourriture.java:84-189 | the exact round trip holds iff: ALCOHOOL pageAtt ≥ 20 and pagePar ≤ 80; LEGUMBRE both ≤ 70; BOISSONRICHE pagePar ≥ 20; POMMEDOR both ≤ 60 |
| Nourritures.AlcoolSature | src/main/java/org/centrale/objet/woe/projettp/Nourriture.java:89-93 | ALCOHOOL at pageAtt 10 gives 0, and 20 after removal |
| Nourritures.Nourriture.constructor | src/main/java/org/centrale/objet/woe/projettp/Nourriture.java:29-33 | the fields take the given values |
| Nourritures.Nourriture.AppliquerEffet | src/main/java/org/centrale/objet/woe/projettp/Nourriture.java:84-147 | only pageAtt and pagePar change, as Applique |
| Nourritures.Nourriture.RetirerEffet | src/main/java/org/centrale/objet/woe/projettp/Nourriture.java:151-189 | only pageAtt and pagePar change, as Retire, and both end in [0, 100] |
| Nourritures.Nourriture.DecrementerDuree | src/main/java/org/centrale/objet/woe/projettp/Nourriture.java:193-197 | coolDown is decremented as Decremente |
| Nourritures.Nourriture.EstActif | src/main/java/org/centrale/objet/woe/projettp/Nourriture.java:201-203 | the effect is active exactly when the next decrementerDuree still takes a turn off |
| Nuages.Marche | src/main/java/org/centrale/objet/woe/projettp/NuageToxique.java:204-250 | a found cell is on the grid, free, a neighbour and not the start; none is found exactly when every draw is (0, 0), off the grid or onto an occupied cell |
| Nuages.MarchePremierAccepte | src/main/java/org/centrale/objet/woe/projettp/NuageToxique.java:211-248 | a cell found by the walk is the start moved by the first accepted draw, every earlier draw being (0, 0), off the grid or onto an occupied cell |
| Nuages.MarcheParReference | src/main/java/org/centrale/objet/woe/projettp/NuageToxique.java:204-250 | with the occupancy test comparing references, any non-zero on-grid draw is taken, occupied or not |
| Nuages.MarcheParReferencePremierAccepte | src/main/java/org/centrale/objet/woe/projettp/NuageToxique.java:211-248 | with the reference test, a cell found is the start moved by the first draw that is non-zero and on the grid, every earlier draw being (0, 0) or off the grid |
| Nuages.MarcheParReferenceEcrase | src/main/java/org/centrale/objet/woe/projettp/NuageToxique.java:234 | an input on which the reference comparison moves the cloud onto an occupied cell and the value comparison does not |
| Nuages.OccupationConservee | src/main/java/org/centrale/objet/woe/projettp/NuageToxique.java:236-240 | moving from an occupied cell keeps the number of occupied cells |
| Nuages.DemiTaille | src/main/java/org/centrale/objet/woe/projettp/NuageToxique.java:315 | taille / 2 truncates toward zero |
| Nuages.DemiTailleSymetrique | src/main/java/org/centrale/objet/woe/projettp/NuageToxique.java:315 | the halving is symmetric around zero |
| Nuages.CoteZone | src/main/java/org/centrale/objet/woe/projettp/NuageToxique.java:315-330 | the zone is 2·(taille / 2) + 1 cells wide: taille itself exactly when taille is odd, taille + 1 when it is even (3 × 3 for the default taille 2) |
| Nuages.ZoneDansPortee | src/main/java/org/centrale/objet/woe/projettp/NuageToxique.java:315-330 | a creature in the zone lies within demi on both axes, hence within demi·√2 |
| Nuages.ToucheesExactes | src/main/java/org/centrale/objet/woe/projettp/NuageToxique.java:322-330 | the snapshot holds exactly the live creatures inside the zone, each once |
| Nuages.NuageToxique.Default | src/main/java/org/centrale/objet/woe/projettp/NuageToxique.java:77-82 | 5 damage per turn, size 2, 10 turns |
| Nuages.NuageToxique.constructor | src/main/java/org/centrale/objet/woe/projettp/NuageToxique.java:94-99 | the fields take the given values |
| Nuages.NuageToxique.DecrementerDuree | src/main/java/org/centrale/objet/woe/projettp/NuageToxique.java:175-179 | duree is decremented as Decremente |
| Nuages.NuageToxique.EstActif | src/main/java/org/centrale/objet/woe/projettp/NuageToxique.java:187-189 | the cloud is active exactly when the next decrementerDuree still takes a turn off |
| Nuages.NuageToxique.Deplacer | src/main/java/org/centrale/objet/woe/projettp/NuageToxique.java:199-201 | the cloud shifts by exactly (dx, dy) |
| Nuages.NuageToxique.DeplacementAleatoire | src/main/java/org/centrale/objet/woe/projettp/NuageToxique.java:204-250 | the cloud ends where Marche says and the occupancy set becomes (old − {old pos}) ∪ {new pos}; after nine rejected draws both are unchanged |
| Nuages.NuageToxique.Combattre | src/main/java/org/centrale/objet/woe/projettp/NuageToxique.java:269-300 | an inactive cloud changes nothing; an active one lowers ptVie by exactly degatParTour, with no zone or alive check, and mourir happens exactly when ptVie ≤ 0 |
| Nuages.NuageToxique.CreaturesAffectees | src/main/java/org/centrale/objet/woe/projettp/NuageToxique.java:322-330 | the snapshot loop builds the list of live creatures in the zone, in list order |
| Nuages.NuageToxique.Toucher | src/main/java/org/centrale/objet/woe/projettp/NuageToxique.java:333-335 | one combattre on a live creature: it loses the damage, and if it dies it leaves the list and frees its cell |
| Nuages.NuageToxique.Empoisonner | src/main/java/org/centrale/objet/woe/projettp/NuageToxique.java:333-335 | each snapshot creature is hit once; exactly those that die leave the list and free their cells; only ptVie and etat of the snapshot creatures change |
| Nuages.NuageToxique.EtapePoison | src/main/java/org/centrale/objet/woe/projettp/NuageToxique.java:333-335 | one pass of the damage loop carries its invariant one creature further: the first j+1 are hit, dead exactly when ptVie ≤ 0 under an active cloud, and the list and occupancy set lose exactly the dead |
| Nuages.NuageToxique.FrapperZone | src/main/java/org/centrale/objet/woe/projettp/NuageToxique.java:315-336 | from the current cell: exactly the creatures alive in the zone are hit once; the dead leave the list and free their cells; every other creature is unchanged |
| Nuages.NuageToxique.Analyzer | src/main/java/org/centrale/objet/woe/projettp/NuageToxique.java:310-336 | after the walk, exactly the creatures alive and inside the zone are hit once; the dead leave the list and free their cells; every other creature and duree, degatParTour and taille are unchanged |
| Personnages.GarderTout | src/main/java/org/centrale/objet/woe/projettp/Personnage.java:114-134 | if no effect expires, the whole list is kept |
| Personnages.GarderRien | src/main/java/org/centrale/objet/woe/projettp/Personnage.java:114-134 | if every effect expires, the list ends empty |
| Personnages.GarderDistinct | src/main/java/org/centrale/objet/woe/projettp/Personnage.java:114-134 | the kept effects come from the list, without duplicates |
| Personnages.RetireExpires | src/main/java/org/centrale/objet/woe/projettp/Personnage.java:114-134 | with nothing expired the percentages are unchanged; once an effect has been removed they are in [0, 100] |
| Personnages.GarderActifs | src/main/java/org/centrale/objet/woe/projettp/Personnage.java:114-134 | once every counter has lost a turn, each kept effect is still active |
| Personnages.Adjacentes | src/main/java/org/centrale/objet/woe/projettp/Personnage.java:155-164 | the targets are exactly the other creatures, on another cell, within distAttMax on both axes |
| Personnages.CibleAPortee | src/main/java/org/centrale/objet/woe/projettp/Personnage.java:155-175 | every target is within combat range and on a different cell |
| Personnages.CiblesAdjacentes | src/main/java/org/centrale/objet/woe/projettp/Personnage.java:155-164 | the loop builds exactly the target list |
| Personnages.Personnage.constructor | src/main/java/org/centrale/objet/woe/projettp/Personnage.java:45-49 | a character with no active effect |
| Personnages.Personnage.Copie | src/main/java/org/centrale/objet/woe/projettp/Personnage.java:53-57 | the effect list is copied, as Personnage(Personnage) does, and the creature part is a fresh Creatures.Creature.Copie: same stats, kind and arrows, as the character's own concrete copy constructor (Archer(Archer) at Archer.java:61-64, Paysan(Paysan) at Paysan.java:40-42, Guerrier(Personnage) at Guerrier.java:59) gives |
| Personnages.Personnage.PrendObjet | src/main/java/org/centrale/objet/woe/projettp/Personnage.java:84-109 | elsewhere nothing changes; on the cell: a potion adds exactly pVie to ptVie; a sword adds exactly pAtt to degAtt; a usable object applies its effect once and is appended to effetsActifs; the object's cell is always freed |
| Personnages.Personnage.MettreAJourEffets | src/main/java/org/centrale/objet/woe/projettp/Personnage.java:114-134 | every counter loses a turn; the list keeps, in order, exactly the effects still active; the expired ones are removed once each, in order; all remaining effects are active |
| Personnages.Personnage.TraiterEffet | src/main/java/org/centrale/objet/woe/projettp/Personnage.java:118-131 | one effect: decremented, and removed from the character exactly when it expires |
| Personnages.Personnage.EtapeMiseAJour | src/main/java/org/centrale/objet/woe/projettp/Personnage.java:116-131 | one pass of the update loop: effect i loses a turn, is kept exactly when still active, and its removal (if expired) is the next step of the percentage history |
| Personnages.Personnage.AttaquerEnGuerrier | src/main/java/org/centrale/objet/woe/projettp/Guerrier.java:77-136 | a Guerrier's attack on a target in range leaves the attacker untouched, changes nothing unless both are alive, gives the target the Assaut outcome, and removes it from the list and its cell from the occupancy set exactly when its hit points are gone |
| Personnages.Personnage.AttaquerEnArcher | src/main/java/org/centrale/objet/woe/projettp/Archer.java:106-192 | an Archer's attack changes nothing if either is dead, applies the melee band with 10 damage, spends one arrow in the ranged band against the hit points only, and otherwise strikes no blow; the archer's position, hit points, parry points and state never change; the target dies exactly when its hit points are gone |
| Personnages.Personnage.Attaquer | src/main/java/org/centrale/objet/woe/projettp/Personnage.java:174-176 | the attack on the chosen target is Guerrier.combattre for a Guerrier (attacker untouched, nothing unless both are alive, Assaut outcome, death cleanup) and Archer.combattre for an Archer (nothing if either is dead, melee band with 10 damage, ranged band spending one arrow, death cleanup); any other character changes nothing |
| Personnages.Personnage.Analyzer | src/main/java/org/centrale/objet/woe/projettp/Personnage.java:143-185 | a Paysan always wanders; action 0 wanders; action 1 attacks the chosen listed target in range if there is one, else nothing; action 2 does nothing; wandering changes only the character's cell and the occupancy set; waiting changes nothing; an attack touches no creature but the target (and an Archer's own degAtt and arrows) and has exactly Attaquer's effect |

## Left out

- Names, descriptions, inventories, `affiche` and every console print; the
  SQL persistence (`saveToDB`, `saveGuerrier`, `saveArcher`, ConnexionBD).
- World.java, Joueur.java, joueurNouveau.java, TestWoE.java and Erreurs.java
  are not part of this model: world generation, menus and demo code.
- Java `int` overflow: integers are unbounded throughout.
- Float distance rounding: the squared distance is exact, so a float
  comparison at the boundary dx² + dy² = 2k² is not modelled.
- Reference identity of `Point2D`: positions are values, so shared mutable
  points and comparisons by reference (the `equals` in `prendObjet` and the
  `remove` calls on the occupancy set) are modelled as value comparisons.
  The cloud's walk used by the rest of the model (Nuages.Marche,
  Nuages.NuageToxique.DeplacementAleatoire) also compares by value; only
  Nuages.MarcheParReference models the source's reference test at
  NuageToxique.java:234 (see "## Findings").
- Creatures.Creature.Errer: the creature-side `deplacementAleatoire(Set, int)`
  is not part of this model; its outcome (new position, new occupancy set)
  is a parameter.
- Creatures.Creature.DeplaceAleatoire: the unbounded do-while that redraws
  (0, 0) is replaced by the first non-zero draw, supplied as a parameter.
  The source's occupancy set holds the very `Point2D` the creature carries
  (World.java:128-134 adds it and hands it to the creature), so `translate`
  moves the set's element along with the creature; the model's set keeps
  the old cell (aliasing not modelled).
- Creatures.Creature.Deplacer: the source's occupancy set shares the moved
  point and follows it; the model's set keeps the old cell (aliasing not
  modelled).
- Personnages.Personnage.MettreAJourEffets and
  Nuages.NuageToxique.Analyzer: they require the effect list and the
  creature list to hold each object once; aliasing of the same object twice
  in those lists is not modelled.
- Personnages.Personnage.Copie: the inventory list is not modelled.
- The Nourriture constructor taking another object and the copy
  constructor of NuageToxique are not modelled: they only copy fields.
- Personnages.Personnage.Copie: `new Personnage(x)` called directly on an
  Archer or a Guerrier builds a plain Personnage without the arrows; the
  model has no such plain copy and always keeps the kind and the arrows, as
  the character's own copy constructor (Archer(Archer), Guerrier(Personnage),
  Paysan(Paysan)) does.
- Creatures.Creature.Copie: likewise, `new Creature(x)` on its own copies
  neither the kind nor the arrows; the model's copy is always the concrete
  kind's copy constructor, which keeps both.
- Archers.Combattre: as in the source, the melee band overwrites degAtt with
  10 for good; the model keeps that.

## Findings

| source | as written | input that shows it | evidently intended | confidence | as-written member | corrected member |
|---|---|---|---|---|---|---|
| src/main/java/org/centrale/objet/woe/projettp/NuageToxique.java:234 | the occupancy test compares each occupied point with a freshly built `Point2D` by `equals`, which `Point2D` does not override, so it is always false and the cloud may move onto an occupied cell | cloud at (0, 0) on a 2 × 2 grid with (1, 0) occupied, draws (1, 0) then eight (0, 0): the cloud moves to (1, 0) | a draw onto an occupied cell is rejected, as the comment beside the test and the set update assume | high (not executed) | Nuages.MarcheParReference, Nuages.MarcheParReferenceEcrase | Nuages.Marche |
