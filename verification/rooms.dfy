/** The rooms that edit a character's attributes on entry (`IntroRoom`,
    `OutroRoom`) and the weather room's random flavour line. */
module Rooms {
  import opened Common
  import opened Attributes
  import Character

  /** The houses, in the order the intro room draws from (it lists them in a
      different order from character creation). */
  const IntroHouses: seq<string> := ["Gryffindor", "Hufflepuff", "Ravenclaw", "Slytherin"]

  /** The health the intro room hands out when its `char_health` is unset. */
  const DefaultCharHealth := 20

  /** The attributes the outro room always removes. */
  const OutroNames: set<string> :=
    {"health_max", "health", "last_climbed", "puzzle_clue", "combat_parry_mode"}

  /** The number of weather lines the weather room chooses from. */
  const WeatherLineCount := 11

  /** The health the intro room grants: its `char_health`, or 20 when that is
      unset or falsy. */
  function IntroHealth(charHealth: AttrVal): (h: AttrVal)
    ensures Truthy(h)
    ensures Truthy(charHealth) ==> h == charHealth
    ensures !Truthy(charHealth) ==> h == IntV(DefaultCharHealth)
  {
    if Truthy(charHealth) then charHealth else IntV(DefaultCharHealth)
  }

  /** `IntroRoom.at_object_receive` on the entering character's attributes.
      `hasPlayer` is whether a player controls the character; `housePick` is
      the `random.randint(0, 3)` draw. */
  function IntroReceive(charHealth: AttrVal, hasPlayer: bool, a: Attrs, housePick: nat): (r: Attrs)
    requires housePick < |IntroHouses|
    ensures !hasPlayer ==> r == a
    ensures hasPlayer ==>
              && Get(r, "health") == IntroHealth(charHealth)
              && Get(r, "health_max") == IntroHealth(charHealth)
              && SameOutside(a, r, {"health", "health_max", "house"})
    ensures hasPlayer && Truthy(Get(a, "house")) ==> Get(r, "house") == Get(a, "house")
    ensures hasPlayer && !Truthy(Get(a, "house")) ==>
              exists h :: h in Character.Houses && Get(r, "house") == StrV(h)
  {
    if hasPlayer then
      var h := IntroHealth(charHealth);
      var a1 := a["health" := h]["health_max" := h];
      if Truthy(Get(a1, "house")) then a1 else a1["house" := StrV(IntroHouses[housePick])]
    else a
  }

  /** `OutroRoom.at_object_receive` on the entering character's attributes:
      removes the game's health and puzzle attributes and every weapon-rack id
      listed in the room's `wracklist`. Characters without a player keep
      everything. */
  function OutroReceive(wracklist: seq<string>, hasPlayer: bool, a: Attrs): (r: Attrs)
    ensures !hasPlayer ==> r == a
    ensures hasPlayer ==>
              && (forall k :: k in OutroNames ==> k !in r)
              && (forall i :: 0 <= i < |wracklist| ==> wracklist[i] !in r)
              && (forall k :: k in a && k !in OutroNames && k !in wracklist ==> k in r && r[k] == a[k])
              && r.Keys <= a.Keys
  {
    if hasPlayer then a - (set w | w in wracklist) - OutroNames else a
  }

  /** The outro room never touches the score, the will or the house. */
  lemma OutroKeepsStanding(wracklist: seq<string>, hasPlayer: bool, a: Attrs)
    requires "score" !in wracklist && "will" !in wracklist && "house" !in wracklist
    ensures var r := OutroReceive(wracklist, hasPlayer, a);
            Get(r, "score") == Get(a, "score") && Get(r, "will") == Get(a, "will")
            && Get(r, "house") == Get(a, "house")
  {
  }

  /** Passing through the intro room and then the outro room leaves a
      player's character with its score and will as before and a house, but no
      health attributes at all. */
  lemma IntroThenOutro(charHealth: AttrVal, a: Attrs, housePick: nat, wracklist: seq<string>)
    requires housePick < |IntroHouses|
    requires "score" !in wracklist && "will" !in wracklist && "house" !in wracklist
    ensures var r := OutroReceive(wracklist, true, IntroReceive(charHealth, true, a, housePick));
            && Get(r, "score") == Get(a, "score") && Get(r, "will") == Get(a, "will")
            && Truthy(Get(r, "house"))
            && "health" !in r && "health_max" !in r
  {
    var i := IntroReceive(charHealth, true, a, housePick);
    assert Truthy(Get(i, "house"));
    OutroKeepsStanding(wracklist, true, i);
  }

  /** `WeatherRoom.update_irregular`: `draw` is `random.randint(0, 15)`; a
      weather line is shown only for draws up to 10, and then the draw is its
      index, so the index is always inside the 11-line table. */
  function WeatherLine(draw: nat): (r: Option<nat>)
    requires draw <= 15
    ensures r.Some? <==> draw <= 10
    ensures r.Some? ==> r.value < WeatherLineCount && r.value == draw
  {
    if draw > 10 then None else Some(draw)
  }

  /** Every line of the table can be shown, each by exactly one of the
      sixteen draws, and five draws show nothing. */
  lemma EveryWeatherLineShown(i: nat)
    requires i < WeatherLineCount
    ensures exists draw: nat :: draw <= 15 && WeatherLine(draw) == Some(i)
    ensures forall draw: nat :: draw <= 15 && WeatherLine(draw) == Some(i) ==> draw == i
    ensures forall draw: nat :: WeatherLineCount <= draw <= 15 ==> WeatherLine(draw).None?
  {
    assert WeatherLine(i) == Some(i);
  }
}
