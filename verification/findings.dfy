/** Two spider behaviours as the code writes them, set against the
    corrected versions (`Spider.RoamCandidates` and `Spider.Reset`). */
module Findings {
  import opened Common
  import opened World
  import Spider

  /** With two ways out of a room and having just come through one of them,
      the code as written may send the spider straight back (draw 0); the
      corrected choice has only the other way left. */
  lemma RoamMayBacktrack()
    ensures Spider.RoamCandidatesAsWritten([1, 2], Some(1))[0] == 1
    ensures Spider.RoamCandidates([1, 2], Some(1)) == [2]
  {
    assert Spider.NotBack([2], Some(1)) == [2];
    assert [1, 2][1..] == [2];
  }

  /** The roam tick as written goes straight back whenever `pick` selects the
      destination the spider came from, even when another way is open. */
  lemma RoamGoesBack(s: Spider.SpiderState, w: World, roll: real, pick: nat)
    requires s.location.Some? && |Eligible(Contents(w, s.location.value))| == 0
    requires roll < Spider.RoamMoveChance
    requires var dests := Destinations(Exits(w, s.location.value));
             pick < |dests| && s.db.lastLocation == Some(dests[pick])
    ensures Spider.Roam(s, w, roll, pick, Spider.AsWritten).location == s.db.lastLocation
  {
    assert |Spider.RoamChoices(s, w, Spider.AsWritten)| == |Destinations(Exits(w, s.location.value))|;
  }

  /** `Spider.reset` as written: a dead spider respawns, but the respawn is
      announced only when no `respawn_text` is set. */
  function ResetAsWritten(s: Spider.SpiderState): (r: Spider.ResetResult)
    ensures r.spider == Spider.Reset(s).spider
    ensures r.announced <==> s.db.deadMode && s.db.respawnText == []
  {
    if s.db.deadMode then
      var db := s.db.(health := s.db.fullHealth, roamMode := true, pursueMode := false,
                      battleMode := false, deadMode := false);
      Spider.ResetResult(s.(db := db, location := Some(s.home)), s.db.respawnText == [])
    else Spider.ResetResult(s, false)
  }

  /** A spider given a custom respawn text comes back without a word; the
      corrected reset announces it. */
  lemma CustomRespawnTextUnsaid(s: Spider.SpiderState)
    requires s.db.deadMode && s.db.respawnText != []
    ensures !ResetAsWritten(s).announced
    ensures Spider.Reset(s).announced
  {
  }
}
