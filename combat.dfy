/** What one accepted move does to the mover's record (server/game.ts:426-494),
    as functions of the random draws: a blow exchanged with an enemy, an item
    picked up, a plain step, and the relocation of a descent. The world applies
    these to its maps in `GameWorld.MovePlayer`. */
module Combat {
  import opened Types

  /** Health bounds every player keeps: hp in [0, maxHp], and dead exactly at 0. */
  predicate Healthy(p: PlayerState) {
    0 <= p.hp <= p.maxHp && (p.dead <==> p.hp == 0)
  }

  /** `Math.floor(Math.random() * 5) + 1 + Math.floor(depth * 0.5)`, with the
      draw `roll` in 0..4. */
  function PlayerDamage(depth: int, roll: int): (dmg: int)
    requires 0 <= roll < 5
    ensures 1 + depth / 2 <= dmg <= 5 + depth / 2
  {
    roll + 1 + depth / 2
  }

  /** `Math.floor(Math.random() * 3) + 1 + Math.floor(depth * 0.3)`, with the
      draw `roll` in 0..2 and depth * 0.3 taken as 3 * depth / 10. */
  function EnemyDamage(depth: int, roll: int): (dmg: int)
    requires 0 <= roll < 3
    ensures 1 + 3 * depth / 10 <= dmg <= 3 + 3 * depth / 10
  {
    roll + 1 + 3 * depth / 10
  }

  /** The outcome of one blow: the mover afterwards, the enemy if it survived,
      and the entries appended to the mover's log. */
  datatype Exchange = Exchange(player: PlayerState, foe: Option<Entity>, log: seq<Msg>)

  /** The mover `p` strikes enemy `e` at depth `depth` (server/game.ts:430-454). */
  function Fight(p: PlayerState, e: Entity, depth: int, hitRoll: int, backRoll: int): (x: Exchange)
    requires e.Enemy? && 0 <= hitRoll < 5 && 0 <= backRoll < 3
    // only health, the dead flag and the combat stats change; the mover stays put
    ensures x.player == p.(hp := x.player.hp, maxHp := x.player.maxHp, dead := x.player.dead,
                           stats := p.stats.(kills := x.player.stats.kills,
                                             damageDealt := x.player.stats.damageDealt,
                                             damageTaken := x.player.stats.damageTaken,
                                             killedBy := x.player.stats.killedBy))
    ensures var dealt := x.player.stats.damageDealt - p.stats.damageDealt;
      && 1 + depth / 2 <= dealt <= 5 + depth / 2
      && (x.foe.None? <==> e.hp <= dealt)
      && (x.foe.Some? ==> x.foe.value == e.(hp := e.hp - dealt))
      && |x.log| >= 2 && x.log[0] == Hit(e.name, dealt)
    // a kill: one more kill, two more max hp, hp healed by 2 up to the new max
    ensures x.foe.None? ==>
      && x.player.stats.kills == p.stats.kills + 1
      && x.player.maxHp == p.maxHp + 2
      && x.player.hp == Min(p.hp + 2, p.maxHp + 2)
      && x.player.stats.damageTaken == p.stats.damageTaken
      && x.player.dead == p.dead && x.player.stats.killedBy == p.stats.killedBy
      && x.log == [Hit(e.name, x.player.stats.damageDealt - p.stats.damageDealt), Killed(e.name)]
    // a survivor hits back; the mover dies when the blow takes all its hp
    ensures x.foe.Some? ==>
      var taken := x.player.stats.damageTaken - p.stats.damageTaken;
      && 1 + 3 * depth / 10 <= taken <= 3 + 3 * depth / 10
      && x.player.stats.kills == p.stats.kills && x.player.maxHp == p.maxHp
      && x.player.hp == Max(0, p.hp - taken)
      && (x.player.dead <==> p.dead || p.hp <= taken)
      && x.player.stats.killedBy == (if p.hp <= taken then e.name else p.stats.killedBy)
      && x.log[1] == HitBy(e.name, taken)
      && |x.log| == (if p.hp <= taken then 3 else 2)
    ensures Healthy(p) && !p.dead && depth >= 1 ==> Healthy(x.player)
  {
    var dmg := PlayerDamage(depth, hitRoll);
    var foe := e.(hp := e.hp - dmg);
    var p1 := p.(stats := p.stats.(damageDealt := p.stats.damageDealt + dmg));
    var hitMsg := Hit(e.name, dmg);
    if foe.hp <= 0 then
      var maxHp := p1.maxHp + 2;
      var p2 := p1.(stats := p1.stats.(kills := p1.stats.kills + 1), maxHp := maxHp);
      Exchange(p2.(hp := Min(p2.hp + 2, p2.maxHp)), None, [hitMsg, Killed(e.name)])
    else
      var back := EnemyDamage(depth, backRoll);
      var p2 := p1.(hp := p1.hp - back, stats := p1.stats.(damageTaken := p1.stats.damageTaken + back));
      if p2.hp <= 0 then
        var p3 := p2.(hp := 0, dead := true, stats := p2.stats.(killedBy := e.name));
        Exchange(p3, Some(foe), [hitMsg, HitBy(e.name, back), Slain(e.name)])
      else
        Exchange(p2, Some(foe), [hitMsg, HitBy(e.name, back)])
  }

  const HEALTH_POTION: string := "Health Potion"

  /** The mover `p` steps onto `at`, where `item` lies (server/game.ts:457-468
      and the step count of line 492): one more item, a potion heals up to 5 hp
      but never past maxHp, and the mover occupies the cell. */
  function PickUp(p: PlayerState, item: Entity, at: Position): (r: (PlayerState, seq<Msg>))
    requires item.Item?
    ensures var heal := if item.name == HEALTH_POTION then Max(0, Min(5, p.maxHp - p.hp)) else 0;
      && r.0 == p.(pos := at, hp := p.hp + heal,
                   stats := p.stats.(itemsCollected := p.stats.itemsCollected + 1,
                                     stepsWalked := p.stats.stepsWalked + 1))
      && r.1 == [PickedUp(item.name)] + (if heal > 0 then [Restored(heal)] else [])
    ensures p.hp <= p.maxHp ==> r.0.hp <= r.0.maxHp
    ensures Healthy(p) && !p.dead ==> Healthy(r.0) && r.0.hp >= p.hp
  {
    var p1 := p.(stats := p.stats.(itemsCollected := p.stats.itemsCollected + 1));
    var heal := Min(5, p1.maxHp - p1.hp);
    var p2 := if item.name == HEALTH_POTION && heal > 0 then p1.(hp := p1.hp + heal) else p1;
    var msgs := [PickedUp(item.name)] + (if item.name == HEALTH_POTION && heal > 0 then [Restored(heal)] else []);
    (p2.(pos := at, stats := p2.stats.(stepsWalked := p2.stats.stepsWalked + 1)), msgs)
  }

  /** The mover `p` steps onto the empty cell `at` (server/game.ts:489, 492). */
  function Step(p: PlayerState, at: Position): (q: PlayerState)
    ensures q.pos == at && q.stats.stepsWalked == p.stats.stepsWalked + 1
    ensures q.(pos := p.pos, stats := q.stats.(stepsWalked := p.stats.stepsWalked)) == p
  {
    p.(pos := at, stats := p.stats.(stepsWalked := p.stats.stepsWalked + 1))
  }

  /** The mover `p` relocated to `spawn` on level `newDepth`, before its field
      of view is cast (server/game.ts:475-483): the deepest depth only grows,
      the explored grid restarts all false, and no step is counted. */
  function Descend(p: PlayerState, newDepth: int, spawn: Position): (q: PlayerState)
    ensures q.stats.deepestDepth == Max(p.stats.deepestDepth, newDepth)
    ensures q.stats.deepestDepth >= p.stats.deepestDepth && q.stats.deepestDepth >= newDepth
    ensures q.pos == spawn && q.explored == Filled(false)
    ensures q.(pos := p.pos, explored := p.explored, stats := q.stats.(deepestDepth := p.stats.deepestDepth)) == p
  {
    var s := if newDepth > p.stats.deepestDepth then p.stats.(deepestDepth := newDepth) else p.stats;
    p.(stats := s, pos := spawn, explored := Filled(false))
  }
}
