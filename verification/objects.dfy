/** The smaller game objects: the wandering `Mob`, the wand and its two
    spells. */
module Objects {
  import opened Common
  import opened World
  import Spider

  // ---------------------------------------------------------------------
  // Mob
  // ---------------------------------------------------------------------

  /** `[ex for ex in exits if ex.destination != last]`. */
  function ExitsNotBack(exits: seq<Exit>, last: Option<Room>): (r: seq<Exit>)
    ensures forall ex :: ex in r <==> ex in exits && Some(ex.destination) != last
    ensures |r| <= |exits|
  {
    if exits == [] then []
    else
      var rest := ExitsNotBack(exits[1..], last);
      assert forall ex :: ex in exits <==> ex == exits[0] || ex in exits[1..];
      if Some(exits[0].destination) != last then [exits[0]] + rest else rest
  }

  /** The exits a wandering mob chooses among: the passable ones that do not
      lead back to `last`, or every passable one when all of them do. */
  function MobChoices(exits: seq<Exit>, last: Option<Room>): (r: seq<Exit>)
    ensures forall ex :: ex in r ==> ex in exits && ex.traversable
    ensures |Passable(exits)| > 0 <==> |r| > 0
    ensures (exists ex :: ex in exits && ex.traversable && Some(ex.destination) != last) ==>
              forall ex :: ex in r ==> Some(ex.destination) != last
  {
    var p := Passable(exits);
    var away := ExitsNotBack(p, last);
    if |away| > 0 then away else p
  }

  /** What one irregular event did to a mob: its new `last_location`, and the
      exit command it issued (`None` when it stayed put). */
  datatype MobStep = MobStep(lastLocation: Option<Room>, command: Option<string>)

  /** `Mob.update_irregular`. The guard reads the plain `roam_mode`
      attribute, given here as `roamMode`. A roaming mob in a room with a
      passable exit remembers its room as `last_location` and issues the key
      of the exit `pick` selects among `MobChoices`; a mob with no location
      raises. Whether the issued command moves it is up to the exit. */
  function MobIrregular(roamMode: bool, here: Option<Room>, w: World, lastLocation: Option<Room>,
                        pick: nat): (r: Outcome<MobStep>)
    requires here.Some? ==> Fits(pick, |MobChoices(Exits(w, here.value), lastLocation)|)
    ensures !roamMode ==> r == Done(MobStep(lastLocation, None))
    ensures roamMode && here.None? ==> r == Raised(MobStep(lastLocation, None))
    ensures roamMode && here.Some? && |Passable(Exits(w, here.value))| == 0 ==>
              r == Done(MobStep(lastLocation, None))
    ensures roamMode && here.Some? && |Passable(Exits(w, here.value))| > 0 ==>
              && r.Done? && r.value.lastLocation == here && r.value.command.Some?
              && exists ex :: ex in MobChoices(Exits(w, here.value), lastLocation)
                              && r.value.command.value == ex.key
  {
    if !roamMode then Done(MobStep(lastLocation, None))
    else if here.None? then Raised(MobStep(lastLocation, None))
    else
      var choices := MobChoices(Exits(w, here.value), lastLocation);
      if |choices| > 0 then
        assert choices[pick] in choices;
        Done(MobStep(here, Some(choices[pick].key)))
      else Done(MobStep(lastLocation, None))
  }

  /** The destinations of `exits`, in order. */
  function DestinationsOf(exits: seq<Exit>): (r: seq<Room>)
    ensures |r| == |exits|
    ensures forall i :: 0 <= i < |r| ==> r[i] == exits[i].destination
  {
    if exits == [] then [] else [exits[0].destination] + DestinationsOf(exits[1..])
  }

  /** Filtering exits by destination and then taking destinations is taking
      destinations and then filtering them. */
  lemma {:induction false} NotBackCommutes(exits: seq<Exit>, last: Option<Room>)
    ensures DestinationsOf(ExitsNotBack(exits, last)) == Spider.NotBack(DestinationsOf(exits), last)
  {
    if exits != [] {
      NotBackCommutes(exits[1..], last);
      assert DestinationsOf(exits)[1..] == DestinationsOf(exits[1..]);
    }
  }

  /** The spider's roam choice is the mob's exit choice seen through the
      exits' destinations: both avoid going straight back in the same way. */
  lemma SpiderRoamsLikeMob(exits: seq<Exit>, last: Option<Room>)
    ensures DestinationsOf(MobChoices(exits, last)) ==
            Spider.RoamCandidates(Destinations(exits), last)
  {
    var p := Passable(exits);
    assert DestinationsOf(p) == Destinations(exits);
    NotBackCommutes(p, last);
  }

  // ---------------------------------------------------------------------
  // Wand and spells
  // ---------------------------------------------------------------------

  /** A wand's persistent attributes: its hit chance and whether it harms
      ghostly enemies. */
  datatype Wand = Wand(hit: real, magic: bool)

  /** `Wand.at_object_creation`: a 0.4 chance to hit, not magic. */
  function NewWand(): (w: Wand)
    ensures 0.0 < w.hit < 1.0 && !w.magic
    ensures w.hit * 1.5 == 0.6 && w.hit * 1.2 == 0.48
  {
    Wand(0.4, false)
  }

  /** What `Wand.reset` does with the wand. */
  datatype WandFate = Deleted | MovedTo(home: Room)

  /** `Wand.reset`: a wand whose location is its home, when that location is
      puppeted by a player (`hasPlayer`), fades away; any other wand goes
      home. */
  function WandReset(location: Room, home: Room, hasPlayer: bool): (r: WandFate)
    ensures r.Deleted? <==> hasPlayer && location == home
    ensures r.MovedTo? ==> r.home == home
  {
    if hasPlayer && home == location then Deleted else MovedTo(home)
  }

  /** A wand sent home by a reset fades on the next reset exactly when its
      home is then puppeted by a player. */
  lemma WandResetTwice(location: Room, home: Room, p1: bool, p2: bool)
    requires !(p1 && location == home)
    ensures WandReset(location, home, p1) == MovedTo(home)
    ensures WandReset(home, home, p2) == (if p2 then Deleted else MovedTo(home))
  {
  }

  /** The two spells. */
  datatype Spell = Avis | Arania

  /** How much each spell scales the wand's hit chance: the easy `avis` by
      1.5, the medium `arania` by 1.2. */
  function Multiplier(spell: Spell): (m: real)
    ensures m >= 1.0
    ensures spell == Avis ==> m == 1.5
    ensures spell == Arania ==> m == 1.2
  {
    match spell
    case Avis => 1.5
    case Arania => 1.2
  }

  /** The hit test of `CmdAvis.func` / `CmdArania.func`: the spell works when
      the `random.random()` sample does not exceed the wand's scaled hit
      chance. */
  function SpellWorks(spell: Spell, hit: real, sample: real): (ok: bool)
    requires 0.0 <= sample < 1.0
    ensures ok ==> hit > 0.0 || sample == 0.0
    ensures hit * Multiplier(spell) >= 1.0 ==> ok
    ensures hit < 0.0 ==> !ok
  {
    sample <= hit * Multiplier(spell)
  }

  /** A sure hit for `arania` is a sure hit for `avis`: with a non-negative
      hit chance, every sample that works for `arania` works for `avis`. */
  lemma AraniaImpliesAvis(hit: real, sample: real)
    requires 0.0 <= sample < 1.0 && hit >= 0.0
    ensures SpellWorks(Arania, hit, sample) ==> SpellWorks(Avis, hit, sample)
  {
  }

  /** A better wand never makes a spell fail that worked before. */
  lemma SpellMonotone(spell: Spell, hit: real, hit': real, sample: real)
    requires 0.0 <= sample < 1.0 && hit <= hit'
    ensures SpellWorks(spell, hit, sample) ==> SpellWorks(spell, hit', sample)
  {
  }

  /** With a new wand, `avis` works exactly for samples up to 0.6 and
      `arania` exactly for samples up to 0.48; a sample of 0.5 lands between
      the two. */
  lemma NewWandOdds(sample: real)
    requires 0.0 <= sample < 1.0
    ensures SpellWorks(Avis, NewWand().hit, sample) <==> sample <= 0.6
    ensures SpellWorks(Arania, NewWand().hit, sample) <==> sample <= 0.48
    ensures SpellWorks(Avis, NewWand().hit, 0.5) && !SpellWorks(Arania, NewWand().hit, 0.5)
  {
  }
}
