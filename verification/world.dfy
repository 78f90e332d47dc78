/** The parts of the host world the monsters look at: which objects stand in
    a room, and which exits leave it. Both are handed in as data; a monster
    never changes them itself (moving a monster only changes its own
    `location`). */
module World {

  /** Database ids of objects and of rooms. */
  type ObjId = nat
  type Room = nat

  /** An object in a room, as the monsters classify it: whether it inherits
      from the character typeclass and whether it is a superuser. */
  datatype Entity = Entity(id: ObjId, isCharacter: bool, isSuperuser: bool)

  /** An exit: its command key, its destination, and whether the moving
      monster passes its `traverse` lock (`ex.access(self, "traverse")`). */
  datatype Exit = Exit(key: string, destination: Room, traversable: bool)

  datatype World = World(contents: map<Room, seq<Entity>>, exits: map<Room, seq<Exit>>)

  /** `room.contents` (empty for a room the map does not describe). */
  function Contents(w: World, r: Room): seq<Entity> {
    if r in w.contents then w.contents[r] else []
  }

  /** `room.exits`. */
  function Exits(w: World, r: Room): seq<Exit> {
    if r in w.exits then w.exits[r] else []
  }

  /** A player the spider fights: a character that is not a superuser. */
  predicate IsEligible(e: Entity) {
    e.isCharacter && !e.isSuperuser
  }

  /** `[obj for obj in contents if inherits_from(obj, CHARACTER) and not
      obj.is_superuser]`, as ids, in the order of `contents`. */
  function Eligible(es: seq<Entity>): (r: seq<ObjId>)
    ensures forall e :: e in es && IsEligible(e) ==> e.id in r
    ensures forall x :: x in r ==> exists e :: e in es && IsEligible(e) && e.id == x
    ensures |r| <= |es|
  {
    if es == [] then []
    else
      var rest := Eligible(es[1..]);
      assert forall e :: e in es[1..] ==> e in es;
      if IsEligible(es[0]) then [es[0].id] + rest else rest
  }

  /** The character ids among `es`, superusers included. */
  function CharacterIds(es: seq<Entity>): (r: seq<ObjId>)
    ensures forall e :: e in es && e.isCharacter ==> e.id in r
    ensures forall x :: x in r ==> exists e :: e in es && e.isCharacter && e.id == x
  {
    if es == [] then []
    else
      var rest := CharacterIds(es[1..]);
      assert forall e :: e in es[1..] ==> e in es;
      if es[0].isCharacter then [es[0].id] + rest else rest
  }

  /** The exits the monster may pass. */
  function Passable(exits: seq<Exit>): (r: seq<Exit>)
    ensures forall ex :: ex in r <==> ex in exits && ex.traversable
    ensures |r| <= |exits|
  {
    if exits == [] then []
    else
      var rest := Passable(exits[1..]);
      assert forall ex :: ex in exits <==> ex == exits[0] || ex in exits[1..];
      if exits[0].traversable then [exits[0]] + rest else rest
  }

  /** `[ex.destination for ex in exits if ex.access(self, "traverse")]`. */
  function Destinations(exits: seq<Exit>): (r: seq<Room>)
    ensures |r| == |Passable(exits)|
    ensures forall i :: 0 <= i < |r| ==> r[i] == Passable(exits)[i].destination
  {
    var p := Passable(exits);
    seq(|p|, i requires 0 <= i < |p| => p[i].destination)
  }
}
