# Battle of Hogwarts — a Dafny model of its game logic

Battle of Hogwarts is a Harry Potter themed MUD built on the Evennia server.
This project models three self-contained pieces of it as pure functions and proves what
they promise:

1. **The spider.** This is the combat monster. Its attack timer ticks every few seconds and
   dispatches on four independent persistent mode flags: roam, battle, pursue and dead.
   - Roaming heals the spider. It attacks players it meets, or now and then wanders through
     an exit.
   - Battle attacks a player in the room, preferring the spider's last attacker.
   - Pursuit follows characters seen behind an exit.
   - A magic weapon can kill the spider. It then waits `dead_timer` seconds and respawns at
     home.

   This part also covers the simpler wandering `Mob`, the wand with its two spells (`avis`
   and `arania`) and the wand's reset.
2. **The player's attributes.** The attribute map moves through a character's life:
   - the defaults written at creation;
   - the penalty for losing a life;
   - the intro room that sets up health and a house;
   - the outro room that cleans up;
   - the weather room's random line;
   - the builder's `score` command (parser and set/add/display) and the `remind` command.
3. **Terminal-type negotiation.** The server asks the client for its terminal type with the
   telnet TERMINAL-TYPE option (option code 24, RFC 1091). It reads three replies: the client
   name, the terminal string and an MTTS bitmask (MUD Terminal Type Standard). From these it
   fills in a flag table, including whether the client supports 256 colours.

How the model represents things:
- **Randomness, time and the world are inputs.** Every `random.randint(0, n - 1)` draw is a
  `nat` argument that must lie below `n` (`Fits`). `random.random()` is a `real` argument.
  `time.time()` is an `int` argument `now`. The room graph is a `World` value:
  - which entities stand in which room;
  - which exits leave it;
  - whether the monster passes each exit's traverse lock.
- **Python exceptions are results.** A crash (an attribute access on a `None` location, `None - 50`,
  indexing past a split) is an `Outcome` whose `Raised` case carries the state as far as
  it had been written.
- **Attributes.** Persistent attributes are maps from name to value, and a missing name reads as
  `None`.
- **Plain attributes.** `Spider.attack` and `Spider.pursue` switch modes by assigning plain
  attributes (`self.battle_mode`), not the persistent `self.db.battle_mode` that the timer
  reads. The model keeps these assignments apart in `PlainFlags`. As a result, only `at_hit`,
  `roam`, `reset` and the dead branch of the timer change the modes that drive the spider.
  `BattleIsSticky` proves the consequence: without a hit, a spider in battle stays in
  battle.
- **Roam filter.** The roam step takes its backtracking filter as a parameter (`RoamRule`).
  `AsWritten` is the filter the code runs, which removes nothing; `NoBacktrack` is the one its
  comment describes (see Findings). `Spider.Tick` and every lemma about ticks hold for both.

Some behaviour one might expect is not in this code, and the model follows the code:
- The spells only test their hit chance and print. They neither damage a spider nor change
  any score.
- `Spider.attack` never calls `respawn` on a defeated player. It only moves the player to the
  defeat location when one is configured.

Files:
- `common.dfy`: `Option`, `Outcome`, `Fits`.
- `text.dfy`: the Python string operations the code uses.
- `attributes.dfy`: attribute maps.
- `character.dfy`, `rooms.dfy`, `commands.dfy`: the player's attributes.
- `world.dfy`: rooms, exits and contents.
- `spider.dfy`: the spider.
- `objects.dfy`: `Mob`, the wand and the spells.
- `ttype.dfy`: the negotiation.
- `findings.dfy`: the two spider findings, each shown on the code as written and set against its correction.

## Model

| member | source | states |
|---|---|---|
| Character.Create | game/gamesrc/objects/character.py:43-57 | A new character has score 0, 0 respawns, health_max 100, health equal to health_max, will 100, one of the four houses and all seven monster counters at 0; no other attribute changes |
| Character.Respawn | game/gamesrc/objects/character.py:59-64 | Health becomes health_max, score drops by exactly 50 with no floor, will becomes 100, respawns grows by 1, nothing else changes; a non-integer score or respawns count raises, keeping the writes already made |
| Character.RespawnTimesScore | game/gamesrc/objects/character.py:59-64 | After n lives lost the score is 50·n lower and respawns n higher, while house and health_max never change |
| Character.CreateThenRespawn | game/gamesrc/objects/character.py:43-64 | A freshly created character respawns without error to health 100, score −50, will 100 and one respawn, all else as created |
| Rooms.IntroHealth | game/gamesrc/objects/room.py:107-109 | The granted health is the room's char_health when truthy, 20 otherwise, and is always truthy |
| Rooms.IntroReceive | game/gamesrc/objects/room.py:101-116 | For a character with a player, health and health_max both become the granted health, an existing house is kept, a missing one is drawn from the four houses, nothing else changes; characters without a player are untouched |
| Rooms.OutroReceive | game/gamesrc/objects/room.py:144-156 | For a character with a player, exactly the five game attributes and every wracklist id are removed and everything else is kept; characters without a player are untouched |
| Rooms.OutroKeepsStanding | game/gamesrc/objects/room.py:148-156 | Score, will and house survive the outro room |
| Rooms.IntroThenOutro | game/gamesrc/objects/room.py:101-156 | Going through the intro and then the outro room keeps score and will, leaves a house, and removes both health attributes |
| Rooms.WeatherLine | game/gamesrc/objects/room.py:62-82 | A line is shown exactly for draws up to 10, and its index always lies within the 11-line table |
| Rooms.EveryWeatherLineShown | game/gamesrc/objects/room.py:62-82 | Each of the 11 lines is shown for exactly one of the 16 draws, and the remaining five draws show nothing |
| Commands.ParseScore | game/gamesrc/commands/command.py:153-164 | `+` is looked for before `=`; the value never contains the operator, so the split is at its last occurrence; both sides come out stripped; an empty name carries no value; with no operator the name is the raw argument |
| Commands.ParseAdd | game/gamesrc/commands/command.py:157-164 | Any text with a last `+` parses to the stripped text before it as name and the stripped text after it as add value, the value dropped when the name is blank |
| Commands.ParseSet | game/gamesrc/commands/command.py:157-164 | Text without `+` and with a last `=` parses to the stripped name and set value, the value dropped when the name is blank |
| Commands.ParseDigits | game/gamesrc/commands/command.py:157-160 | `" name = digits"` and `" name + digits"` parse back to exactly the name and the digits |
| Commands.PlusBeforeEquals | game/gamesrc/commands/command.py:157-160 | With both `+` and `=` present the command never sets |
| Commands.ParsePadded | game/gamesrc/commands/command.py:157-160 | `" name op value"` parses back to exactly the name and the value, for either operator |
| Commands.ScoreFunc | game/gamesrc/commands/command.py:166-208 | Empty arguments or name give only the usage reply; without a set or add nothing changes; display shows the stored score or "N/A"; set stores int(value) of an all-digit value; add stores int(value) plus the existing integer score, or 0 when none is stored; adding to a score stored as text or None raises TypeError and changes nothing; a value that is not all digits gets exactly the not-an-integer reply; only the score ever changes |
| Commands.AddToNonIntegerRaises | game/gamesrc/commands/command.py:198-205 | Adding digits to a score stored as text or None raises TypeError and leaves the player unchanged |
| Commands.SetStoresValue | game/gamesrc/commands/command.py:187-196 | `score name = n` stores exactly n whatever the old score |
| Commands.AddOnDigits | game/gamesrc/commands/command.py:198-208 | A digit value is always added to an integer or absent score |
| Commands.AddDigitsToScore | game/gamesrc/commands/command.py:198-208 | `score name + digits` adds the digits' value to the score, counting an absent score as 0 |
| Commands.EmptyValueDisplays | game/gamesrc/commands/command.py:181-185 | An operator with no value after it falls through to display and changes nothing |
| Commands.Remind | game/gamesrc/commands/command.py:282-297 | Usage exactly for empty arguments; a puzzle exactly for " 1", " 2" or " 3", and it is the named one; anything else is invalid |
| Spider.Create | game/gamesrc/objects/object.py:559-581 | A new spider roams and is in no other mode, is inactive, has full health 20, dead timer 100, dead_at stamped now, and no attacker |
| Spider.RoamCandidatesAsWritten | game/gamesrc/objects/object.py:603-609 | As written, the backtracking filter never removes a destination: the candidates are every passable destination |
| Spider.RoamCandidates | game/gamesrc/objects/object.py:603-609 | (corrected; see Findings) The candidates are passable destinations, never empty when a destination exists, and avoid the last location whenever another way exists |
| Spider.Roam | game/gamesrc/objects/object.py:589-617 | Roaming always heals fully; with an eligible player present the spider is in battle and neither roams nor pursues; otherwise it moves only on a roll below 0.2, to a passable destination recording where it came from, or home from a dead end; as written the draw indexes every passable destination, the one it came from included; with the corrected filter it goes back only when there is no other way |
| Spider.ChooseTarget | game/gamesrc/objects/object.py:631-636 | The target is an eligible player, and it is the last attacker whenever the last attacker is eligible |
| Spider.Attack | game/gamesrc/objects/object.py:619-673 | A target exists exactly when eligible players do; defeat is reported exactly when the target's health reaches 0; defeat or nobody present switches the plain flags to pursuit; the persistent attributes and location never change |
| Spider.Scan | game/gamesrc/objects/object.py:693-698 | The scan lists exactly the characters, superusers included, standing in each passable destination, each with that destination |
| Spider.Sightings | game/gamesrc/objects/object.py:693-698 | The sightings map holds exactly the characters scanned, each with a room it was seen in |
| Spider.Pursue | game/gamesrc/objects/object.py:675-715 | With eligible players present the plain flags switch to battle; otherwise the spider moves to a destination where a character was seen, to the last attacker's if that was seen, or switches the plain flags to roaming when nobody was seen; persistent attributes never change |
| Spider.PursueChasesSuperuser | game/gamesrc/objects/object.py:686-698 | A superuser behind a passable exit draws a pursuing spider out of an empty room, although superusers never count as players in its own room |
| Spider.Provoked | game/gamesrc/objects/object.py:725-732 | Being attacked records the attacker and puts the spider in battle, switching off roam and pursue unless it was already in battle |
| Spider.AtHit | game/gamesrc/objects/object.py:717-773 | The attacker is recorded; the hit raises exactly when it is magic and the spider has no location, and a magic hit on a placed spider returns False; unless the hit kills a placed spider, the spider ends in battle with roam and pursue switched off when it was not in battle before, and kept when it was; a non-magic weapon changes neither health nor dead mode; a magic one subtracts the damage, and a placed spider at 0 or below is left in dead mode alone, with no location and dead_at now; without a location the magic hit raises after writing the health; it never returns True |
| Spider.HitKeepsOneMode | game/gamesrc/objects/object.py:725-773 | A hit keeps a living spider in exactly one mode |
| Spider.HitKeepsHealthBound | game/gamesrc/objects/object.py:743-747 | Hits of non-negative damage never raise health above full health |
| Spider.Reset | game/gamesrc/objects/object.py:775-789 | (corrected; see Findings) Reset does nothing to a spider that is not dead; a dead one comes back at home, at full health, roaming and in no other mode, with the respawn announced |
| Spider.ResetIdempotent | game/gamesrc/objects/object.py:779-785 | A second reset does nothing |
| Spider.Tick | game/gamesrc/objects/object.py:509-532 | An inactive spider is unchanged; the roam flag runs the roam step, else the battle flag runs the attack step, else the pursue flag runs the pursue step, each on the spider as it is; the dead branch stamps an unset dead_at with now and resets exactly when more than dead_timer seconds have passed; a live action without a location raises; exactly one mode stays one mode; health stays at most full health |
| Spider.DeathThenRespawn | game/gamesrc/objects/object.py:524-532 | A killing hit hides the spider; ticks within dead_timer seconds leave it dead, and the first tick after that brings it home roaming at full health |
| Spider.RoamMeetsPlayer | game/gamesrc/objects/object.py:515-517 | A roaming spider with an eligible player in its room is in battle alone after one tick, in the same room, under either roam filter |
| Spider.BattleIsSticky | game/gamesrc/objects/object.py:515-521 | Without hits, any number of ticks leaves a spider in battle with the same persistent attributes and location, because the attack step only writes plain flags |
| Objects.MobChoices | game/gamesrc/objects/object.py:466-474 | The mob chooses among passable exits, has a choice whenever one exists, and avoids the exit back whenever another exists |
| Objects.MobIrregular | game/gamesrc/objects/object.py:464-480 | A roaming mob with a passable exit records its room as last location and issues the key of a chosen exit; otherwise nothing changes; without a location it raises |
| Objects.SpiderRoamsLikeMob | game/gamesrc/objects/object.py:603-609 | The spider's corrected roam choice is exactly the destinations of the mob's exit choice |
| Objects.NewWand | game/gamesrc/objects/object.py:357-362 | A new wand has hit chance 0.4 (0.6 scaled for avis, 0.48 for arania) and is not magic |
| Objects.WandReset | game/gamesrc/objects/object.py:364-373 | The wand is deleted exactly when its location is its home and that location is puppeted by a player; otherwise it goes home |
| Objects.WandResetTwice | game/gamesrc/objects/object.py:364-373 | A wand sent home is deleted on the next reset exactly when its home is then puppeted by a player |
| Objects.SpellWorks | game/gamesrc/objects/object.py:425-429 | A scaled chance of 1 or more always works; a negative chance never does |
| Objects.AraniaImpliesAvis | game/gamesrc/objects/object.py:395-429 | Any sample that works for arania works for avis |
| Objects.SpellMonotone | game/gamesrc/objects/object.py:425-429 | A better wand never makes a working spell fail |
| Objects.NewWandOdds | game/gamesrc/objects/object.py:395-399 | With a new wand avis works exactly up to 0.6 and arania up to 0.48; a sample of 0.5 separates them |
| Ttype.Init | src/server/portal/ttype.py:42-46 | Negotiation starts at step 0 with only init_done false and ANSI true |
| Ttype.Wont | src/server/portal/ttype.py:52-56 | A refusal sets init_done and changes nothing else |
| Ttype.StripIs | src/server/portal/ttype.py:73-76 | Exactly the leading IS codes are dropped |
| Ttype.NameReply | src/server/portal/ttype.py:84-110 | The name reply records the upper-cased name, sets ANSI, decides 256 colours from the name alone, requests the next reply and changes no other flag |
| Ttype.TermReply | src/server/portal/ttype.py:112-124 | The terminal reply always records the terminal, only ever sets ANSI and 256 colours true, requests the next reply and changes no other flag |
| Ttype.MttsUpdate | src/server/portal/ttype.py:126-137 | An MTTS reply without a space raises; a non-MTTS reply adds nothing; an all-digit second field, whatever follows it, adds exactly the capabilities of its value; a non-numeric MTTS field adds its upper-cased form as a true flag; flags are never removed and every changed flag is true |
| Ttype.MttsNameUpdate | src/server/portal/ttype.py:128-137 | `MTTS <name>` with a non-numeric name adds exactly the upper-cased name as a true flag and keeps every other flag |
| Ttype.Support | src/server/portal/ttype.py:133 | The decoded capabilities are exactly the table entries whose bit is set, all true |
| Ttype.LastReply | src/server/portal/ttype.py:126-139 | The MTTS reply finishes negotiation without a request, or raises leaving the state as it was |
| Ttype.Will | src/server/portal/ttype.py:58-141 | Nothing happens once negotiation is done or past step 3; otherwise each reply advances the step by exactly one, or raises leaving the state as it was |
| Ttype.WontStopsNegotiation | src/server/portal/ttype.py:52-71 | After a refusal no reply changes anything |
| Ttype.IsCodeIgnored | src/server/portal/ttype.py:73-76 | A leading IS code never changes how a reply is read |
| Ttype.InitDoneAtStepThree | src/server/portal/ttype.py:126-141 | init_done becomes true exactly when the fourth reply (step 3) is taken in |
| Ttype.EarlyRepliesKeepInitDone | src/server/portal/ttype.py:80-124 | The first three replies never raise and never finish negotiation |
| Ttype.TermNeverClears256 | src/server/portal/ttype.py:112-124 | A client known to support 256 colours keeps them whatever its terminal says; a 256-colour terminal sets them |
| Ttype.ClientNameRecorded | src/server/portal/ttype.py:88-109 | The client name is stored upper-cased, ANSI is set and 256 colours follow the name |
| Ttype.BareMudletNot256 | src/server/portal/ttype.py:93-104 | A client named just MUDLET gets no 256 colours: its empty version is below "1.1", so the list entry is never reached |
| Ttype.MudletTwo | src/server/portal/ttype.py:93-95 | Mudlet 2.0 supports 256 colours |
| Ttype.MudletOne | src/server/portal/ttype.py:93-95 | Mudlet 1.0 does not |
| Ttype.OtherClients | src/server/portal/ttype.py:96-104 | Xterm, PuTTY and -256COLOR names support 256 colours, an unknown client does not |
| Ttype.MttsWellFormed | src/server/portal/ttype.py:20-27 | The MTTS table's bits are non-zero and disjoint, and its names are distinct |
| Ttype.SupportPerBit | src/server/portal/ttype.py:128-134 | A capability is granted exactly when its bit is set |
| Ttype.MaskBit | src/server/portal/ttype.py:20-27 | Each bit of the OR of a set's capability bits is set exactly when that capability is in the set |
| Ttype.MttsRoundTrip | src/server/portal/ttype.py:128-134 | Encoding a capability set as its MTTS number and decoding it gives back exactly the listed capabilities of the set |
| Ttype.MttsDigitsUpdate | src/server/portal/ttype.py:128-134 | The reply `MTTS <n>` adds exactly the decoded capabilities of n to the flag table |
| Ttype.MttsNumericReply | src/server/portal/ttype.py:126-141 | A numeric MTTS reply sets exactly the capabilities whose bits are set, clears no flag, and finishes negotiation at step 4 |
| Ttype.NegotiationCompletes | src/server/portal/ttype.py:42-141 | From a fresh connection, three replies and a numeric MTTS value finish negotiation after three requests, with the client name and terminal recorded; later replies change nothing |
| Findings.RoamMayBacktrack | game/gamesrc/objects/object.py:603-610 | Having come from room 1 with exits to 1 and 2, the code as written may go back to 1; the corrected choice leaves only 2 |
| Findings.RoamGoesBack | game/gamesrc/objects/object.py:600-614 | As written, a moving roam tick whose draw selects the room the spider came from takes it straight back |
| Findings.ResetAsWritten | game/gamesrc/objects/object.py:775-789 | As written, reset respawns the spider as corrected but announces it only when no respawn text is set |
| Findings.CustomRespawnTextUnsaid | game/gamesrc/objects/object.py:785-789 | A dead spider with a custom respawn text comes back unannounced as written, announced as corrected |

## Left out

- Messages. Every `msg` and `msg_contents` call is output only. The model keeps only whether a respawn was announced.
- Damage from a weapon command. The effect of the `pierce`/`slash` command the spider issues, and of the exit command `Mob` issues, lies in code that is not part of this model. The target's health afterwards is an input (`targetHealthAfter`), and so is the defeat location lookup.
- Moving the defeated player. The host framework's `at_object_receive` hook on that move is left out.
- Entry hooks. `move_to` hooks and announcements are left out, and so is `obj.reset()` on the objects a character carries into the outro room. These are host-framework calls.
- The superuser warning. The intro room's warning to superusers is output only.
- Scheduling. Timer intervals, start delays, script persistence and the irregular-event script are left out. Each timer tick or event is one call.
- Numbers. Health and damage are integers, although the code converts health with `float()`. Hit chances are reals with no rounding.
- Spider.Pursue: when a character is seen behind two exits to the same room, `pick` ranges over the scan, not over the distinct characters. Python 2 dictionary order is arbitrary anyway, so the model only promises that the spider moves to where some seen character was seen.
- Rooms.OutroReceive: whether the host framework raises when a missing attribute is deleted is not modelled; the model treats deletion of a missing attribute as doing nothing.
- A missing dead timer. A `dead_timer` of `None` (compared with `>` in Python 2) is not modelled: `deadTimer` is always an integer.
- Objects.MobIrregular: the guard reads the plain `roam_mode` attribute, which is an input. The only assignments to it in this code are the spider's `attack` and `pursue`, and the spider overrides `update_irregular`, so they never reach this guard. The exit command's own lock checks are not modelled.
- Objects.WandReset: whether the wand's location (normally the character carrying it) is puppeted by a player is an input. A wand without a location would raise on `has_player`; that case is not modelled.
- Ttype.Will: a reply arriving as something other than a string (the `TypeError` branch of the join) is not modelled. Replies are strings.
- Telnet transport. `protocol.do`, `requestNegotiation` and the deferred callbacks are reduced to a count of SEND requests.
- Text: strings are treated as byte strings, so only ASCII whitespace, letters and digits have their Python meaning. The telnet replies are bytes. Command arguments such as the `score` command's could be unicode: there Python 2 would also strip non-ASCII whitespace (such as U+00A0) and accept non-ASCII decimal digits in `isdigit()`/`int()`, and such input is not modelled.
- HasBit: the MTTS value is cut to its low 8 bits before the bit test, which gives the same answer as Python's `n & bit` for every bit in the table.
- Other commands. `CmdRead`, `CmdTalk`, the talking NPC's menus, `CmdHouse` and `CmdStatus` only display text or drive a foreign menu system. The web client's URL routing has no logic.

## Findings

| source | as written | input that shows it | evidently intended | confidence | as-written member | corrected member |
|---|---|---|---|---|---|---|
| game/gamesrc/objects/object.py:603-609 | The backtracking filter compares `ex.destination` of items that are already rooms, whose destination is always `None`, with `last_location`, so nothing is ever removed | Exits to rooms 1 and 2, last location room 1, draw 0: the spider goes straight back to room 1 | Drop the destination equal to `last_location` unless it is the only way out, as `Mob.update_irregular` does | high, not executed | Spider.RoamCandidatesAsWritten | Spider.RoamCandidates |
| game/gamesrc/objects/object.py:786-789 | The respawn announcement is indented inside `if not string`, so it is sent only with the default text | A dead spider whose `respawn_text` is "It is back!" respawns without any message | Announce the custom text, or the default one when none is set | medium, not executed | Findings.ResetAsWritten | Spider.Reset |
