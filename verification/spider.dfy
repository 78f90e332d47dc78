/** The spider: a monster with hit points that roams, fights the players it
    finds, pursues them through exits, dies when hit hard enough by a magic
    weapon and respawns at home after a while. Its attack timer calls `Tick`
    every few seconds; players call `AtHit` directly.

    The four modes are four independent persistent booleans, as in the game.
    `Attack` and `Pursue` switch modes by writing plain instance attributes
    (`self.battle_mode`), not the persistent ones (`self.db.battle_mode`)
    that the timer reads; those plain attributes are kept apart in
    `PlainFlags`. */
module Spider {
  import opened Common
  import opened World

  /** Hit points a new spider has. */
  const SpiderFullHealth := 20
  /** Seconds a spider stays dead before its timer respawns it. */
  const SpiderDeadTimer := 100
  /** Chance per roam tick of moving when nobody is around. */
  const RoamMoveChance: real := 0.2

  /** The persistent attributes (`self.db.*`). `deadAt` is `None` until
      first set; `respawnText` is `""` when unset. */
  datatype SpiderDb = SpiderDb(
    health: int,
    fullHealth: int,
    roamMode: bool,
    battleMode: bool,
    pursueMode: bool,
    deadMode: bool,
    deadAt: Option<int>,
    deadTimer: int,
    inactive: bool,
    lastAttacker: Option<ObjId>,
    lastLocation: Option<Room>,
    respawnText: string)

  /** The plain instance attributes `attack` and `pursue` write; `None` until
      written for the first time. Nothing in the spider reads them. */
  datatype PlainFlags = PlainFlags(roamMode: Option<bool>, battleMode: Option<bool>, pursueMode: Option<bool>)

  /** A spider: its persistent attributes, its plain attributes, where it is
      (`None` while dead) and its home. */
  datatype SpiderState = SpiderState(db: SpiderDb, plain: PlainFlags, location: Option<Room>, home: Room)

  /** Exactly one of the four persistent mode flags is set. */
  predicate OneMode(db: SpiderDb) {
    (if db.roamMode then 1 else 0) + (if db.battleMode then 1 else 0)
    + (if db.pursueMode then 1 else 0) + (if db.deadMode then 1 else 0) == 1
  }

  /** The spider is roaming and in no other mode. */
  predicate OnlyRoam(db: SpiderDb) {
    db.roamMode && !db.battleMode && !db.pursueMode && !db.deadMode
  }

  /** The spider is dead and in no other mode. */
  predicate OnlyDead(db: SpiderDb) {
    db.deadMode && !db.roamMode && !db.battleMode && !db.pursueMode
  }

  /** `db` and `db'` agree on everything but the four mode flags, the health
      and the fields listed as changing. */
  predicate SameBookkeeping(db: SpiderDb, db': SpiderDb) {
    && db'.fullHealth == db.fullHealth && db'.deadTimer == db.deadTimer
    && db'.inactive == db.inactive && db'.respawnText == db.respawnText
  }

  /** `Spider.at_object_creation` (with `Mob.at_object_creation` before it):
      roaming at full health 20, dead timer 100, inactive until the builder
      activates it, no attacker and no last location yet. */
  function Create(location: Option<Room>, home: Room, now: int): (s: SpiderState)
    ensures OnlyRoam(s.db) && s.db.inactive
    ensures s.db.health == s.db.fullHealth == SpiderFullHealth
    ensures s.db.deadTimer == SpiderDeadTimer && s.db.deadAt == Some(now)
    ensures s.db.lastAttacker.None? && s.db.lastLocation.None?
    ensures s.plain == PlainFlags(None, None, None)
  {
    SpiderState(
      SpiderDb(SpiderFullHealth, SpiderFullHealth, true, false, false, false,
               Some(now), SpiderDeadTimer, true, None, None, ""),
      PlainFlags(None, None, None), location, home)
  }

  // ---------------------------------------------------------------------
  // Roam
  // ---------------------------------------------------------------------

  /** The destinations a roaming spider chooses among: those that do not lead
      back to `last`, or all of them when every one does. */
  function RoamCandidates(dests: seq<Room>, last: Option<Room>): (r: seq<Room>)
    ensures forall d :: d in r ==> d in dests
    ensures |dests| > 0 ==> |r| > 0
    ensures (exists d :: d in dests && Some(d) != last) ==> forall d :: d in r ==> Some(d) != last
  {
    var away := NotBack(dests, last);
    if |away| > 0 then away else dests
  }

  /** `[d for d in dests if d != last]`. */
  function NotBack(dests: seq<Room>, last: Option<Room>): (r: seq<Room>)
    ensures forall d :: d in r <==> d in dests && Some(d) != last
  {
    if dests == [] then []
    else
      var rest := NotBack(dests[1..], last);
      assert forall d :: d in dests <==> d == dests[0] || d in dests[1..];
      if Some(dests[0]) != last then [dests[0]] + rest else rest
  }

  /** A room's own `destination`: rooms are not exits, so it is always
      `None`. */
  function RoomDestination(r: Room): Option<Room> {
    None
  }

  /** `[ex for ex in exits if ex.destination != last]` as `roam` writes it,
      where `exits` already holds rooms, so `ex.destination` is the room's
      own destination. */
  function NotBackAsWritten(dests: seq<Room>, last: Option<Room>): (r: seq<Room>)
    ensures last.None? ==> r == []
    ensures last.Some? ==> r == dests
  {
    if dests == [] then []
    else
      var rest := NotBackAsWritten(dests[1..], last);
      if RoomDestination(dests[0]) != last then [dests[0]] + rest else rest
  }

  /** The roam candidates as `roam` computes them: the backtracking filter
      never removes anything, so the candidates are always every passable
      destination. */
  function RoamCandidatesAsWritten(dests: seq<Room>, last: Option<Room>): (r: seq<Room>)
    ensures r == dests
  {
    var away := NotBackAsWritten(dests, last);
    if |away| > 0 then away else dests
  }

  /** Which backtracking filter a roam tick applies: the one the code runs
      (`AsWritten`, which removes nothing) or the one its comment intends
      (`NoBacktrack`, `RoamCandidates`). */
  datatype RoamRule = AsWritten | NoBacktrack

  /** What a roam tick may choose among: the candidate destinations from the
      spider's current room under `rule`. */
  function RoamChoices(s: SpiderState, w: World, rule: RoamRule): seq<Room>
    requires s.location.Some?
  {
    var dests := Destinations(Exits(w, s.location.value));
    match rule
    case AsWritten => RoamCandidatesAsWritten(dests, s.db.lastLocation)
    case NoBacktrack => RoamCandidates(dests, s.db.lastLocation)
  }

  /** `Spider.roam`. The spider heals fully; if eligible players share its
      room it switches to battle; otherwise, when `roll` (`random.random()`)
      is below 0.2, it moves: to the passable destination `pick` selects
      among the candidates of `rule`, or home from a dead end. As written
      (`AsWritten`) `pick` indexes every passable destination, the one it
      came from included; under `NoBacktrack` the spider goes straight back
      only when there is no other way. */
  function Roam(s: SpiderState, w: World, roll: real, pick: nat, rule: RoamRule): (r: SpiderState)
    requires s.location.Some?
    requires Fits(pick, |RoamChoices(s, w, rule)|)
    ensures r.db.health == s.db.fullHealth
    ensures SameBookkeeping(s.db, r.db) && r.plain == s.plain && r.home == s.home
    ensures r.db.deadMode == s.db.deadMode && r.db.deadAt == s.db.deadAt
    ensures r.db.lastAttacker == s.db.lastAttacker
    ensures |Eligible(Contents(w, s.location.value))| > 0 ==>
              && r.db.battleMode && !r.db.roamMode && !r.db.pursueMode
              && r.location == s.location && r.db.lastLocation == s.db.lastLocation
    ensures |Eligible(Contents(w, s.location.value))| == 0 ==>
              && r.db.roamMode == s.db.roamMode && r.db.battleMode == s.db.battleMode
              && r.db.pursueMode == s.db.pursueMode
    ensures |Eligible(Contents(w, s.location.value))| == 0 && roll >= RoamMoveChance ==>
              r.location == s.location && r.db.lastLocation == s.db.lastLocation
    ensures r.location.Some?
    ensures r.location != s.location ==>
              r.location == Some(s.home) || r.location.value in Destinations(Exits(w, s.location.value))
    ensures var dests := Destinations(Exits(w, s.location.value));
            |Eligible(Contents(w, s.location.value))| == 0 && roll < RoamMoveChance && |dests| > 0 ==>
              && r.db.lastLocation == s.location
              && r.location.Some? && r.location.value in dests
              && (rule == AsWritten ==> pick < |dests| && r.location == Some(dests[pick]))
              && (rule == NoBacktrack && (exists d :: d in dests && Some(d) != s.db.lastLocation) ==>
                    r.location != s.db.lastLocation)
    ensures var dests := Destinations(Exits(w, s.location.value));
            |Eligible(Contents(w, s.location.value))| == 0 && roll < RoamMoveChance && |dests| == 0 ==>
              r.location == Some(s.home) && r.db.lastLocation == s.db.lastLocation
  {
    var here := s.location.value;
    var healed := s.db.(health := s.db.fullHealth);
    if |Eligible(Contents(w, here))| > 0 then
      s.(db := healed.(roamMode := false, pursueMode := false, battleMode := true))
    else if roll < RoamMoveChance then
      var dests := Destinations(Exits(w, here));
      if |dests| > 0 then
        var choices := RoamChoices(s, w, rule);
        s.(db := healed.(lastLocation := Some(here)), location := Some(choices[pick]))
      else
        s.(db := healed, location := Some(s.home))
    else s.(db := healed)
  }

  // ---------------------------------------------------------------------
  // Attack
  // ---------------------------------------------------------------------

  /** The two weapon commands the spider issues. */
  datatype AttackCmd = Pierce | Slash

  /** What an attack tick did: the spider afterwards, whom it attacked and
      with which command, whether the target was found defeated, and where
      the defeated target was carried off to. */
  datatype AttackReport = AttackReport(
    spider: SpiderState,
    target: Option<ObjId>,
    command: Option<AttackCmd>,
    defeated: bool,
    carriedTo: Option<Room>)

  /** The plain flags `attack` and `pursue` write to switch to pursuit. */
  const PursuePlain := PlainFlags(Some(false), Some(false), Some(true))
  /** The plain flags `pursue` writes on finding players in its room. */
  const BattlePlain := PlainFlags(Some(false), Some(true), Some(false))
  /** The plain flags `pursue` writes when nobody is left to chase. */
  const RoamPlain := PlainFlags(Some(true), Some(false), Some(false))

  /** The attack target: the last attacker whenever it is among `players`,
      otherwise the player `pick` selects. */
  function ChooseTarget(players: seq<ObjId>, lastAttacker: Option<ObjId>, pick: nat): (t: ObjId)
    requires |players| > 0 && pick < |players|
    ensures t in players
    ensures lastAttacker.Some? && lastAttacker.value in players ==> t == lastAttacker.value
  {
    if lastAttacker.Some? && lastAttacker.value in players then lastAttacker.value else players[pick]
  }

  /** `Spider.attack`. The effect of the weapon command on the target lies
      outside this model: `targetHealthAfter` is the target's health once the
      command has run, and `defeatLocation` is the result of looking up the
      spider's `defeat_location` (`None` when it names no room). The spider's
      persistent attributes never change here. */
  function Attack(s: SpiderState, w: World, pick: nat, cmdPick: nat, targetHealthAfter: int,
                  defeatLocation: Option<Room>): (r: AttackReport)
    requires s.location.Some?
    requires Fits(pick, |Eligible(Contents(w, s.location.value))|) && cmdPick < 2
    ensures r.spider.db == s.db && r.spider.location == s.location && r.spider.home == s.home
    ensures var players := Eligible(Contents(w, s.location.value));
            && (r.target.Some? <==> |players| > 0)
            && (r.target.Some? ==> r.target.value in players && r.command.Some?)
            && (r.target.Some? && s.db.lastAttacker.Some? && s.db.lastAttacker.value in players ==>
                  r.target == s.db.lastAttacker)
    ensures r.defeated <==> r.target.Some? && targetHealthAfter <= 0
    ensures r.target.None? || r.defeated ==> r.spider.plain == PursuePlain
    ensures r.target.Some? && !r.defeated ==> r.spider.plain == s.plain
    ensures r.carriedTo == (if r.defeated then defeatLocation else None)
  {
    var players := Eligible(Contents(w, s.location.value));
    if |players| > 0 then
      var target := ChooseTarget(players, s.db.lastAttacker, pick);
      var cmd := if cmdPick == 0 then Pierce else Slash;
      if targetHealthAfter <= 0 then
        AttackReport(s.(plain := PursuePlain), Some(target), Some(cmd), true, defeatLocation)
      else
        AttackReport(s, Some(target), Some(cmd), false, None)
    else
      AttackReport(s.(plain := PursuePlain), None, None, false, None)
  }

  // ---------------------------------------------------------------------
  // Pursue
  // ---------------------------------------------------------------------

  /** The neighbour scan of `pursue`: for each destination in order, each
      character found there (superusers included), paired with that
      destination. */
  function Scan(w: World, dests: seq<Room>): (r: seq<(ObjId, Room)>)
    ensures forall p :: p in r ==> p.1 in dests && p.0 in CharacterIds(Contents(w, p.1))
    ensures forall d, x :: d in dests && x in CharacterIds(Contents(w, d)) ==> (x, d) in r
  {
    if dests == [] then []
    else
      var here := CharacterIds(Contents(w, dests[0]));
      var rest := Scan(w, dests[1..]);
      assert forall d :: d in dests <==> d == dests[0] || d in dests[1..];
      PairWith(here, dests[0]) + rest
  }

  /** Each id of `ids` paired with the room `d`. */
  function PairWith(ids: seq<ObjId>, d: Room): (r: seq<(ObjId, Room)>)
    ensures forall p :: p in r <==> p.0 in ids && p.1 == d
  {
    if ids == [] then []
    else
      assert forall x :: x in ids <==> x == ids[0] || x in ids[1..];
      [(ids[0], d)] + PairWith(ids[1..], d)
  }

  /** The `players` dictionary `pursue` builds from the scan: each character
      mapped to the last destination it was seen in. */
  function Sightings(found: seq<(ObjId, Room)>): (m: map<ObjId, Room>)
    ensures forall x :: x in m <==> exists p :: p in found && p.0 == x
    ensures forall x :: x in m ==> (x, m[x]) in found
  {
    if found == [] then map[]
    else
      var last := found[|found| - 1];
      var m := Sightings(found[..|found| - 1]);
      assert forall p :: p in found <==> p == last || p in found[..|found| - 1];
      m[last.0 := last.1]
  }

  /** What a pursue tick may choose among. */
  function PursueChoices(s: SpiderState, w: World): seq<(ObjId, Room)>
    requires s.location.Some?
  {
    Scan(w, Destinations(Exits(w, s.location.value)))
  }

  /** `Spider.pursue`. With eligible players in its own room the spider
      switches to battle. Otherwise it looks through the passable exits for
      characters: it moves to where its last attacker was seen, else to where
      the character `pick` selects was seen; with nobody in sight it switches
      back to roaming. Mode switches go to the plain attributes. */
  function Pursue(s: SpiderState, w: World, pick: nat): (r: SpiderState)
    requires s.location.Some?
    requires Fits(pick, |PursueChoices(s, w)|)
    ensures r.db == s.db && r.home == s.home
    ensures |Eligible(Contents(w, s.location.value))| > 0 ==>
              r.plain == BattlePlain && r.location == s.location
    ensures var found := PursueChoices(s, w);
            |Eligible(Contents(w, s.location.value))| == 0 && |found| == 0 ==>
              r.plain == RoamPlain && r.location == s.location
    ensures var found := PursueChoices(s, w);
            |Eligible(Contents(w, s.location.value))| == 0 && |found| > 0 ==>
              && r.plain == s.plain && r.location.Some?
              && (exists x :: (x, r.location.value) in found)
              && r.location.value in Destinations(Exits(w, s.location.value))
    ensures var found := PursueChoices(s, w);
            |Eligible(Contents(w, s.location.value))| == 0 && s.db.lastAttacker.Some?
            && s.db.lastAttacker.value in Sightings(found) ==>
              && r.location == Some(Sightings(found)[s.db.lastAttacker.value])
              && (s.db.lastAttacker.value, r.location.value) in found
  {
    var here := s.location.value;
    if |Eligible(Contents(w, here))| > 0 then
      s.(plain := BattlePlain)
    else
      var found := PursueChoices(s, w);
      var seen := Sightings(found);
      if |found| > 0 then
        var la := s.db.lastAttacker;
        var who := if la.Some? && la.value in seen then la.value else found[pick].0;
        assert who in seen;
        s.(location := Some(seen[who]))
      else
        s.(plain := RoamPlain)
  }

  // ---------------------------------------------------------------------
  // Being hit
  // ---------------------------------------------------------------------

  /** What `at_hit` did: it returned (`value` is Python's return value,
      `None` for the bare `return`), or it raised with the state at that
      point. */
  datatype HitResult = Returned(spider: SpiderState, value: Option<bool>) | HitRaised(spider: SpiderState)

  /** The mode switch on being attacked: unless already in battle, the spider
      switches to battle and stops roaming and pursuing. */
  function Provoked(db: SpiderDb, attacker: ObjId): (r: SpiderDb)
    ensures r.lastAttacker == Some(attacker) && r.battleMode
    ensures !db.battleMode ==> !r.roamMode && !r.pursueMode
    ensures db.battleMode ==> r.roamMode == db.roamMode && r.pursueMode == db.pursueMode
    ensures r == db.(lastAttacker := r.lastAttacker, roamMode := r.roamMode,
                     pursueMode := r.pursueMode, battleMode := r.battleMode)
  {
    var db1 := db.(lastAttacker := Some(attacker));
    if db1.battleMode then db1 else db1.(roamMode := false, pursueMode := false, battleMode := true)
  }

  /** `Spider.at_hit`. A non-magic weapon does nothing beyond provoking the
      spider. A magic one takes `damage` off its health; at 0 or below the
      spider dies: dead mode alone, `dead_at` stamped and removed from the
      map. Both magic outcomes announce to the spider's room, which raises
      when the spider has no location. It never reports a defeat. */
  function AtHit(s: SpiderState, magic: bool, attacker: ObjId, damage: int, now: int): (r: HitResult)
    ensures r.spider.db.lastAttacker == Some(attacker)
    ensures r.spider.plain == s.plain && r.spider.home == s.home
    ensures SameBookkeeping(s.db, r.spider.db) && r.spider.db.lastLocation == s.db.lastLocation
    ensures r.Returned? ==> r.value != Some(true)
    ensures r.HitRaised? <==> magic && s.location.None?
    ensures magic && s.location.Some? ==> r.Returned? && r.value == Some(false)
    ensures !(magic && s.location.Some? && s.db.health - damage <= 0) ==>
              && r.spider.db.battleMode
              && (!s.db.battleMode ==> !r.spider.db.roamMode && !r.spider.db.pursueMode)
              && (s.db.battleMode ==> r.spider.db.roamMode == s.db.roamMode
                                      && r.spider.db.pursueMode == s.db.pursueMode)
    ensures !magic ==>
              && r.Returned? && r.value.None?
              && r.spider.db.health == s.db.health && r.spider.db.deadMode == s.db.deadMode
              && r.spider.location == s.location && r.spider.db.deadAt == s.db.deadAt
              && r.spider.db.battleMode
              && (!s.db.battleMode ==> !r.spider.db.roamMode && !r.spider.db.pursueMode)
    ensures magic ==> r.spider.db.health == s.db.health - damage
    ensures magic && s.location.None? ==> r.HitRaised? && r.spider.location.None?
    ensures magic && s.location.Some? && s.db.health - damage <= 0 ==>
              && r == Returned(r.spider, Some(false))
              && OnlyDead(r.spider.db) && r.spider.location.None?
              && r.spider.db.deadAt == Some(now)
    ensures magic && s.db.health - damage > 0 ==>
              && r.spider.location == s.location && r.spider.db.deadMode == s.db.deadMode
              && r.spider.db.deadAt == s.db.deadAt && r.spider.db.battleMode
  {
    var db1 := Provoked(s.db, attacker);
    if !magic then
      Returned(s.(db := db1), None)
    else
      var health := db1.health - damage;
      var db2 := db1.(health := health);
      if s.location.None? then
        HitRaised(s.(db := db2))
      else if health <= 0 then
        var dead := db2.(deadAt := Some(now), roamMode := false, pursueMode := false,
                         battleMode := false, deadMode := true);
        Returned(s.(db := dead, location := None), Some(false))
      else
        Returned(s.(db := db2), Some(false))
  }

  // ---------------------------------------------------------------------
  // Respawn and the timer
  // ---------------------------------------------------------------------

  /** The spider after `reset`, and whether the respawn was announced to
      its home room. */
  datatype ResetResult = ResetResult(spider: SpiderState, announced: bool)

  /** `Spider.reset`: a dead spider comes back at home, at full health and
      roaming; any other spider is left alone. The respawn is announced
      whether or not a custom text is set (see the findings in the README for
      the code as written). */
  function Reset(s: SpiderState): (r: ResetResult)
    ensures !s.db.deadMode ==> r == ResetResult(s, false)
    ensures s.db.deadMode ==>
              && r.announced
              && r.spider.db.health == s.db.fullHealth && OnlyRoam(r.spider.db)
              && r.spider.location == Some(s.home)
              && r.spider == s.(db := r.spider.db, location := r.spider.location)
              && r.spider.db == s.db.(health := r.spider.db.health, roamMode := true,
                                      pursueMode := false, battleMode := false, deadMode := false)
  {
    if s.db.deadMode then
      var db1 := s.db.(health := s.db.fullHealth, roamMode := true, pursueMode := false,
                       battleMode := false, deadMode := false);
      ResetResult(s.(db := db1, location := Some(s.home)), true)
    else ResetResult(s, false)
  }

  /** A second `reset` does nothing: the first one always leaves the spider
      out of dead mode. */
  lemma ResetIdempotent(s: SpiderState)
    ensures var once := Reset(s).spider;
            Reset(once) == ResetResult(once, false)
  {
  }

  /** The random draws and oracle results one tick may consume. */
  datatype Draws = Draws(roll: real, pick: nat, cmdPick: nat, targetHealthAfter: int,
                         defeatLocation: Option<Room>)

  /** The draws fit the branch the tick will take: each
      `random.randint(0, n - 1)` lies in its range. */
  predicate DrawsFit(s: SpiderState, w: World, d: Draws, rule: RoamRule) {
    s.db.inactive || s.location.None? ||
    (if s.db.roamMode then Fits(d.pick, |RoamChoices(s, w, rule)|)
     else if s.db.battleMode then Fits(d.pick, |Eligible(Contents(w, s.location.value))|) && d.cmdPick < 2
     else if s.db.pursueMode then Fits(d.pick, |PursueChoices(s, w)|)
     else true)
  }

  /** `dead_at` as the dead branch of the timer reads it: unset and 0 are
      both "not yet". */
  predicate DeadAtSet(deadAt: Option<int>) {
    deadAt.Some? && deadAt.value != 0
  }

  /** `AttackTimer.at_repeat`: one tick of the spider's timer at time `now`.
      An inactive spider does nothing. Otherwise the persistent flags pick
      exactly one action, in the order roam, battle, pursue; with none of
      them set the spider is waiting to respawn: `dead_at` is stamped if
      unset and `reset` runs once strictly more than `dead_timer` seconds
      have passed since it. A live action on a spider with no location raises
      (the roam action has healed it by then). `rule` is the backtracking
      filter the roam action applies. */
  function Tick(s: SpiderState, now: int, w: World, d: Draws, rule: RoamRule): (r: Outcome<SpiderState>)
    requires DrawsFit(s, w, d, rule)
    ensures s.db.inactive ==> r == Done(s)
    ensures !s.db.inactive && s.db.roamMode ==> r.State().db.health == s.db.fullHealth
    ensures !s.db.inactive && s.db.roamMode ==>
              r == if s.location.None? then Raised(s.(db := s.db.(health := s.db.fullHealth)))
                   else Done(Roam(s, w, d.roll, d.pick, rule))
    ensures !s.db.inactive && !s.db.roamMode && s.db.battleMode ==>
              r == if s.location.None? then Raised(s)
                   else Done(Attack(s, w, d.pick, d.cmdPick, d.targetHealthAfter, d.defeatLocation).spider)
    ensures !s.db.inactive && !s.db.roamMode && !s.db.battleMode && s.db.pursueMode ==>
              r == if s.location.None? then Raised(s) else Done(Pursue(s, w, d.pick))
    ensures !s.db.inactive && !s.db.roamMode && (s.db.battleMode || s.db.pursueMode) ==>
              r.State().db == s.db
    ensures !s.db.inactive && s.db.battleMode && !s.db.roamMode ==>
              r.State().db == s.db && r.State().location == s.location
    ensures !s.db.inactive && (s.db.roamMode || s.db.battleMode || s.db.pursueMode) ==>
              (r.Raised? <==> s.location.None?)
    ensures !s.db.inactive && !s.db.roamMode && !s.db.battleMode && !s.db.pursueMode ==>
              && r.Done?
              && var stamped := if DeadAtSet(s.db.deadAt) then s.db.deadAt.value else now;
                 && (now - stamped > s.db.deadTimer ==>
                       r.value == Reset(s.(db := s.db.(deadAt := Some(stamped)))).spider)
                 && (now - stamped <= s.db.deadTimer ==>
                       r.value == s.(db := s.db.(deadAt := Some(stamped))))
    ensures OneMode(s.db) ==> OneMode(r.State().db)
    ensures s.db.health <= s.db.fullHealth ==> r.State().db.health <= r.State().db.fullHealth
  {
    if s.db.inactive then Done(s)
    else if s.db.roamMode then
      if s.location.None? then Raised(s.(db := s.db.(health := s.db.fullHealth)))
      else Done(Roam(s, w, d.roll, d.pick, rule))
    else if s.db.battleMode then
      if s.location.None? then Raised(s)
      else Done(Attack(s, w, d.pick, d.cmdPick, d.targetHealthAfter, d.defeatLocation).spider)
    else if s.db.pursueMode then
      if s.location.None? then Raised(s)
      else Done(Pursue(s, w, d.pick))
    else
      var stamped := if DeadAtSet(s.db.deadAt) then s.db.deadAt.value else now;
      var s1 := s.(db := s.db.(deadAt := Some(stamped)));
      if now - stamped > s.db.deadTimer then Done(Reset(s1).spider) else Done(s1)
  }

  // ---------------------------------------------------------------------
  // Properties across several calls
  // ---------------------------------------------------------------------

  /** A hit that does not kill keeps a spider that is not dead in exactly one
      mode (battle, after it). */
  lemma HitKeepsOneMode(s: SpiderState, magic: bool, attacker: ObjId, damage: int, now: int)
    requires OneMode(s.db) && !s.db.deadMode
    ensures OneMode(AtHit(s, magic, attacker, damage, now).spider.db)
  {
  }

  /** Health never rises above full health through hits of non-negative
      damage. */
  lemma HitKeepsHealthBound(s: SpiderState, magic: bool, attacker: ObjId, damage: int, now: int)
    requires s.db.health <= s.db.fullHealth && damage >= 0
    ensures var t := AtHit(s, magic, attacker, damage, now).spider;
            t.db.health <= t.db.fullHealth
  {
  }

  /** Death and respawn round trip: a magic hit that takes a placed spider to
      0 or below detaches it; a timer tick within `dead_timer` seconds leaves
      it dead and detached, and the first tick after that brings it back at
      home, roaming at full health. */
  lemma DeathThenRespawn(s: SpiderState, attacker: ObjId, damage: int, t0: int, t1: int, w: World, d: Draws,
                          rule: RoamRule)
    requires s.location.Some? && !s.db.inactive
    requires s.db.health - damage <= 0 && t0 != 0
    ensures var dead := AtHit(s, true, attacker, damage, t0).spider;
            && dead.location.None? && OnlyDead(dead.db)
            && (t1 - t0 <= s.db.deadTimer ==> Tick(dead, t1, w, d, rule) == Done(dead))
            && (t1 - t0 > s.db.deadTimer ==>
                  && Tick(dead, t1, w, d, rule).Done?
                  && Tick(dead, t1, w, d, rule).value.location == Some(s.home)
                  && OnlyRoam(Tick(dead, t1, w, d, rule).value.db)
                  && Tick(dead, t1, w, d, rule).value.db.health == s.db.fullHealth)
  {
    var dead := AtHit(s, true, attacker, damage, t0).spider;
    assert DrawsFit(dead, w, d, rule);
    assert dead.db.deadAt == Some(t0);
    if t1 - t0 <= s.db.deadTimer {
      assert dead.(db := dead.db.(deadAt := Some(t0))) == dead;
    }
  }

  /** Once in battle, the timer alone never takes a spider out of it: attack
      ticks only write the plain attributes, so the persistent flags, the
      health and the location stay as they are for any number of ticks. */
  lemma {:induction false} BattleIsSticky(s: SpiderState, ticks: seq<(int, World, Draws)>, rule: RoamRule)
    requires s.location.Some? && !s.db.inactive && s.db.battleMode && !s.db.roamMode
    requires forall i :: 0 <= i < |ticks| ==>
               && Fits(ticks[i].2.pick, |Eligible(Contents(ticks[i].1, s.location.value))|)
               && ticks[i].2.cmdPick < 2
    ensures RunTicks(s, ticks, rule).Done?
    ensures RunTicks(s, ticks, rule).value.db == s.db
    ensures RunTicks(s, ticks, rule).value.location == s.location
    decreases |ticks|
  {
    if ticks != [] {
      var (now, w, d) := ticks[0];
      assert DrawsFit(s, w, d, rule);
      var next := Tick(s, now, w, d, rule);
      assert next.Done?;
      BattleIsSticky(next.value, ticks[1..], rule);
    }
  }

  /** The neighbour scan of `pursue` counts superusers: a superuser
      character standing behind a passable exit is enough to draw a pursuing
      spider out of an empty room, although a superuser in its own room would
      not start a fight. */
  lemma PursueChasesSuperuser(s: SpiderState, w: World, pick: nat, d: Room, x: ObjId)
    requires s.location.Some? && Fits(pick, |PursueChoices(s, w)|)
    requires |Eligible(Contents(w, s.location.value))| == 0
    requires d in Destinations(Exits(w, s.location.value))
    requires Entity(x, true, true) in Contents(w, d)
    ensures var r := Pursue(s, w, pick);
            r.plain == s.plain && r.location.Some? && r.location.value in Destinations(Exits(w, s.location.value))
  {
    assert x in CharacterIds(Contents(w, d));
    assert (x, d) in PursueChoices(s, w);
  }

  /** A roaming spider that finds an eligible player in its room is, one tick
      later, in battle and in no other mode, still in the same room, whichever
      backtracking filter it uses. */
  lemma RoamMeetsPlayer(s: SpiderState, now: int, w: World, d: Draws, rule: RoamRule)
    requires !s.db.inactive && OnlyRoam(s.db) && s.location.Some?
    requires |Eligible(Contents(w, s.location.value))| > 0
    requires DrawsFit(s, w, d, rule)
    ensures var r := Tick(s, now, w, d, rule);
            && r.Done? && r.value.location == s.location
            && r.value.db.battleMode && !r.value.db.roamMode && !r.value.db.pursueMode
            && !r.value.db.deadMode && OneMode(r.value.db)
  {
  }

  /** A run of timer ticks, stopping at the first one that raises (or whose
      draws do not fit). */
  function RunTicks(s: SpiderState, ticks: seq<(int, World, Draws)>, rule: RoamRule): Outcome<SpiderState>
    decreases |ticks|
  {
    if ticks == [] then Done(s)
    else
      var (now, w, d) := ticks[0];
      if !DrawsFit(s, w, d, rule) then Raised(s)
      else match Tick(s, now, w, d, rule)
        case Done(t) => RunTicks(t, ticks[1..], rule)
        case Raised(t) => Raised(t)
  }
}
