/** The player character's attribute lifecycle: the defaults written when a
    character is created and the reset applied when it loses a life
    (`Character.at_object_creation` and `Character.respawn`). */
module Character {
  import opened Common
  import opened Attributes

  /** The four houses, in the order creation draws from. */
  const Houses: seq<string> := ["Gryffindor", "Hufflepuff", "Slytherin", "Ravenclaw"]

  /** The seven per-monster kill counters a new character starts with. */
  const MonsterCounters: seq<string> :=
    ["dementors", "spiders", "willow", "rodents", "boggart", "parallax", "dragon"]

  /** Every attribute creation writes. */
  const CreatedNames: set<string> :=
    {"score", "health_max", "health", "will", "respawns", "house"} + set c | c in MonsterCounters

  /** The attributes `respawn` writes. */
  const RespawnNames: set<string> := {"health", "score", "will", "respawns"}

  /** `at_object_creation`, with `housePick` the `random.randint(0, 3)` draw
      that selects the house. */
  function Create(a: Attrs, housePick: nat): (r: Attrs)
    requires housePick < |Houses|
    ensures Get(r, "score") == IntV(0) && Get(r, "respawns") == IntV(0)
    ensures Get(r, "health_max") == IntV(100) && Get(r, "health") == Get(r, "health_max")
    ensures Get(r, "will") == IntV(100)
    ensures exists h :: h in Houses && Get(r, "house") == StrV(h)
    ensures forall c :: c in MonsterCounters ==> Get(r, c) == IntV(0)
    ensures SameOutside(a, r, CreatedNames) && CreatedNames <= r.Keys
  {
    DefaultStanding(a, housePick);
    DefaultCounters(a, housePick);
    DefaultOutside(a, housePick);
    a + Defaults(housePick)
  }

  /** The values creation writes. */
  function Defaults(housePick: nat): map<string, AttrVal>
    requires housePick < |Houses|
  {
    map["score" := IntV(0), "health_max" := IntV(100), "health" := IntV(100),
        "will" := IntV(100), "respawns" := IntV(0),
        "house" := StrV(Houses[housePick]),
        "dementors" := IntV(0), "spiders" := IntV(0), "willow" := IntV(0),
        "rodents" := IntV(0), "boggart" := IntV(0), "parallax" := IntV(0),
        "dragon" := IntV(0)]
  }

  lemma DefaultStanding(a: Attrs, housePick: nat)
    requires housePick < |Houses|
    ensures var r := a + Defaults(housePick);
            && Get(r, "score") == IntV(0) && Get(r, "respawns") == IntV(0)
            && Get(r, "health_max") == IntV(100) && Get(r, "health") == IntV(100)
            && Get(r, "will") == IntV(100) && Get(r, "house") == StrV(Houses[housePick])
  {
    DefaultScore(a, housePick);
    DefaultVitals(a, housePick);
  }

  lemma DefaultScore(a: Attrs, housePick: nat)
    requires housePick < |Houses|
    ensures var r := a + Defaults(housePick);
            Get(r, "score") == IntV(0) && Get(r, "respawns") == IntV(0)
            && Get(r, "house") == StrV(Houses[housePick])
  {
  }

  lemma DefaultVitals(a: Attrs, housePick: nat)
    requires housePick < |Houses|
    ensures var r := a + Defaults(housePick);
            Get(r, "health_max") == IntV(100) && Get(r, "health") == IntV(100)
            && Get(r, "will") == IntV(100)
  {
  }

  lemma DefaultCounters(a: Attrs, housePick: nat)
    requires housePick < |Houses|
    ensures forall c :: c in MonsterCounters ==> Get(a + Defaults(housePick), c) == IntV(0)
  {
  }

  lemma DefaultOutside(a: Attrs, housePick: nat)
    requires housePick < |Houses|
    ensures SameOutside(a, a + Defaults(housePick), CreatedNames)
    ensures CreatedNames <= (a + Defaults(housePick)).Keys
  {
  }

  /** `respawn`: health back to its maximum, 50 points off the score (with no
      floor), will back to 100 and one more respawn counted. The arithmetic on
      `score` and `respawns` raises TypeError unless both are integers; the
      writes made before the failing line persist. */
  function Respawn(a: Attrs): (r: Outcome<Attrs>)
    ensures Get(r.State(), "health") == Get(a, "health_max")
    ensures r.Done? <==> Get(a, "score").IntV? && Get(a, "respawns").IntV?
    ensures r.Done? ==>
              && Get(r.value, "score") == IntV(Get(a, "score").i - 50)
              && Get(r.value, "will") == IntV(100)
              && Get(r.value, "respawns") == IntV(Get(a, "respawns").i + 1)
    ensures SameOutside(a, r.State(), RespawnNames)
    ensures r.Raised? && !Get(a, "score").IntV? ==> r.partial == a["health" := Get(a, "health_max")]
    ensures r.Raised? && Get(a, "score").IntV? ==>
              && Get(r.partial, "score") == IntV(Get(a, "score").i - 50)
              && Get(r.partial, "will") == IntV(100)
              && Get(r.partial, "respawns") == Get(a, "respawns")
  {
    var a1 := a["health" := Get(a, "health_max")];
    match Get(a1, "score")
    case IntV(s) =>
      var a2 := a1["score" := IntV(s - 50)]["will" := IntV(100)];
      (match Get(a2, "respawns")
       case IntV(n) => Done(a2["respawns" := IntV(n + 1)])
       case _ => Raised(a2))
    case _ => Raised(a1)
  }

  /** `n` lives lost in a row, stopping at the first one that raises. */
  function RespawnTimes(a: Attrs, n: nat): Outcome<Attrs>
    decreases n
  {
    if n == 0 then Done(a)
    else match Respawn(a)
      case Done(b) => RespawnTimes(b, n - 1)
      case Raised(b) => Raised(b)
  }

  /** A character that starts with integer `score` and `respawns` can lose any
      number of lives: after `n` of them its score is exactly `50 * n` lower
      (negative once it drops past zero) and `n` more respawns are counted,
      while the house and the maximum health never change. */
  lemma {:induction false} RespawnTimesScore(a: Attrs, n: nat)
    requires Get(a, "score").IntV? && Get(a, "respawns").IntV?
    ensures RespawnTimes(a, n).Done?
    ensures Get(RespawnTimes(a, n).value, "score") == IntV(Get(a, "score").i - 50 * n)
    ensures Get(RespawnTimes(a, n).value, "respawns") == IntV(Get(a, "respawns").i + n)
    ensures Get(RespawnTimes(a, n).value, "house") == Get(a, "house")
    ensures Get(RespawnTimes(a, n).value, "health_max") == Get(a, "health_max")
    decreases n
  {
    if n > 0 {
      var b := Respawn(a).value;
      assert Get(b, "house") == Get(a, "house");
      assert Get(b, "health_max") == Get(a, "health_max");
      RespawnTimesScore(b, n - 1);
    }
  }

  /** A freshly created character always respawns cleanly: full health of 100,
      a score of -50, will 100 and one respawn, everything else as created. */
  lemma CreateThenRespawn(a: Attrs, housePick: nat)
    requires housePick < |Houses|
    ensures var c := Create(a, housePick);
            && Respawn(c).Done?
            && Respawn(c).value == c["health" := IntV(100)]["score" := IntV(-50)]
                                    ["will" := IntV(100)]["respawns" := IntV(1)]
  {
  }
}
