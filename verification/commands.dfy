/** The builder's `score` command (argument parser and set/add/display) and
    the `remind` command's argument matching. */
module Commands {
  import opened Common
  import opened Text
  import opened Attributes

  /** What `CmdScore.parse` leaves on the command: the player name and at
      most one of an add value and a set value. */
  datatype ScoreArgs = ScoreArgs(name: string, addVal: Option<string>, setVal: Option<string>)

  /** What `CmdScore.func` answers (the message sent to the caller, or that
      an uncaught TypeError ended the command). */
  datatype ScoreReply =
    | Usage                   // "Usage: score <player> [= <value>]"
    | NoSuchPlayer            // the search reported the failure itself
    | Display(shown: AttrVal) // the current score, or "N/A" when unset
    | NotAnInteger            // "The value entered is not an integer"
    | SetDone
    | AddDone
    | TypeErrorRaised         // adding to a stored score that is not an integer

  /** The player's attributes after the command (`None` when no player was
      found) and the reply. */
  datatype ScoreResult = ScoreResult(player: Option<Attrs>, reply: ScoreReply)

  /** Python falsiness of an optional string: `None` or `""`. */
  predicate Blank(v: Option<string>) {
    v.None? || v.value == []
  }

  /** `CmdScore.parse`. `+` is looked for before `=`; the split is at the last
      occurrence of the operator and both sides are stripped; without an
      operator the name is the raw argument string. An empty name discards
      the value. */
  function ParseScore(args: string): (r: ScoreArgs)
    ensures r.name == [] ==> r.addVal.None? && r.setVal.None?
    ensures '+' in args ==> r.setVal.None? && Stripped(r.name)
    ensures '+' in args && r.addVal.Some? ==> Stripped(r.addVal.value) && '+' !in r.addVal.value
    ensures '+' !in args && '=' in args ==> r.addVal.None? && Stripped(r.name) && '+' !in r.name
    ensures '+' !in args && '=' in args && r.setVal.Some? ==>
              Stripped(r.setVal.value) && '=' !in r.setVal.value && '+' !in r.setVal.value
    ensures '+' !in args && '=' !in args ==> r == ScoreArgs(args, None, None)
  {
    if '+' in args then
      var (lhs, rhs) := RSplitLast(args, '+');
      var name := Strip(lhs);
      ScoreArgs(name, if name != [] then Some(Strip(rhs)) else None, None)
    else if '=' in args then
      var (lhs, rhs) := RSplitLast(args, '=');
      var name := Strip(lhs);
      assert '+' !in lhs && '+' !in rhs by { assert args == lhs + ['='] + rhs; }
      ScoreArgs(name, None, if name != [] then Some(Strip(rhs)) else None)
    else ScoreArgs(args, None, None)
  }

  /** The split point is the last occurrence: any text `l + c + v` with no `c`
      in `v` splits into exactly `l` and `v`. */
  lemma RSplitLastUnique(l: string, c: char, v: string)
    requires c !in v
    ensures RSplitLast(l + [c] + v, c) == (l, v)
  {
    var s := l + [c] + v;
    var (a, b) := RSplitLast(s, c);
    assert s[|a|] == c && s[|l|] == c;
    assert s[..|a|] == a && s[..|l|] == l;
    assert s[|a| + 1..] == b && s[|l| + 1..] == v;
  }

  /** Parsing `<name> + <value>` for any text before the last `+`: the name
      and the value come back stripped, and the value is dropped when the name
      is blank. */
  lemma {:induction false} ParseAdd(l: string, v: string)
    requires '+' !in v
    ensures ParseScore(l + ['+'] + v)
            == ScoreArgs(Strip(l), if Strip(l) != [] then Some(Strip(v)) else None, None)
  {
    RSplitLastUnique(l, '+', v);
  }

  /** Parsing `<name> = <value>` when no `+` is present. */
  lemma {:induction false} ParseSet(l: string, v: string)
    requires '=' !in v && '+' !in v && '+' !in l
    ensures ParseScore(l + ['='] + v)
            == ScoreArgs(Strip(l), None, if Strip(l) != [] then Some(Strip(v)) else None)
  {
    RSplitLastUnique(l, '=', v);
    assert '+' !in l + ['='] + v;
  }

  /** `+` wins over `=`: with a `+` present the command never sets. */
  lemma PlusBeforeEquals(args: string)
    requires '+' in args && '=' in args
    ensures ParseScore(args).setVal.None?
  {
  }

  /** `CmdScore.func`, given the raw argument string, its parse and the
      result of searching for the named player. */
  function ScoreFunc(args: string, p: ScoreArgs, player: Option<Attrs>): (r: ScoreResult)
    requires p.name == [] ==> p.addVal.None? && p.setVal.None?
    ensures args == [] || p.name == [] ==> r == ScoreResult(player, Usage)
    ensures player.None? <==> r.player.None?
    ensures (|| r.reply.Display? || r.reply.SetDone? || r.reply.AddDone?
             || r.reply.NotAnInteger? || r.reply.TypeErrorRaised?) ==> player.Some?
    ensures !(r.reply.SetDone? || r.reply.AddDone?) ==> r.player == player
    ensures r.reply.Display? ==> Blank(p.addVal) && Blank(p.setVal)
    ensures r.reply.Display? && "score" in player.value ==> r.reply.shown == player.value["score"]
    ensures r.reply.Display? && "score" !in player.value ==> r.reply.shown == StrV("N/A")
    ensures r.reply.SetDone? ==>
              && Blank(p.addVal) && p.setVal.Some? && IsDigits(p.setVal.value)
              && Get(r.player.value, "score") == IntV(DigitsValue(p.setVal.value))
              && SameOutside(player.value, r.player.value, {"score"})
    ensures r.reply.AddDone? ==>
              && p.addVal.Some? && IsDigits(p.addVal.value)
              && Get(r.player.value, "score")
                 == IntV(DigitsValue(p.addVal.value) + Get(player.value, "score").GetIntOr(0))
              && SameOutside(player.value, r.player.value, {"score"})
    ensures r.reply.NotAnInteger? ==> !Blank(p.addVal) || !Blank(p.setVal)
    ensures args != [] && p.name != [] && player.Some? ==>
              (r.reply.NotAnInteger? <==>
                 (!Blank(p.addVal) && !IsDigits(p.addVal.value))
                 || (Blank(p.addVal) && !Blank(p.setVal) && !IsDigits(p.setVal.value)))
    ensures args != [] && p.name != [] && player.Some? && !Blank(p.addVal) && IsDigits(p.addVal.value) ==>
              (r.reply.TypeErrorRaised? <==> "score" in player.value && !player.value["score"].IntV?)
    ensures r.reply.AddDone? ==> "score" !in player.value || player.value["score"].IntV?
  {
    if args == [] || p.name == [] then ScoreResult(player, Usage)
    else if player.None? then ScoreResult(player, NoSuchPlayer)
    else
      var a := player.value;
      if Blank(p.addVal) && Blank(p.setVal) then
        ScoreResult(player, Display(if "score" in a then a["score"] else StrV("N/A")))
      else if Blank(p.addVal) then
        if !IsDigits(p.setVal.value) then ScoreResult(player, NotAnInteger)
        else ScoreResult(Some(a["score" := IntV(DigitsValue(p.setVal.value))]), SetDone)
      else if !IsDigits(p.addVal.value) then ScoreResult(player, NotAnInteger)
      else
        var current := if "score" in a then a["score"] else IntV(0);
        match current
        case IntV(c) =>
          ScoreResult(Some(a["score" := IntV(DigitsValue(p.addVal.value) + c)]), AddDone)
        case _ => ScoreResult(player, TypeErrorRaised)
  }

  /** Adding to a score stored as text or `None` raises and leaves the player
      as it was: `int(value) + currentscore` has no integer to add to. */
  lemma AddToNonIntegerRaises(args: string, p: ScoreArgs, a: Attrs)
    requires args != [] && p.name != [] && p.addVal.Some? && IsDigits(p.addVal.value)
    requires "score" in a && !a["score"].IntV?
    ensures ScoreFunc(args, p, Some(a)) == ScoreResult(Some(a), TypeErrorRaised)
  {
  }

  /** The whole `score` command: parse, then act. */
  function Score(args: string, player: Option<Attrs>): ScoreResult {
    ScoreFunc(args, ParseScore(args), player)
  }

  /** Running the command is acting on its parse. */
  lemma ScoreOfParse(args: string, p: ScoreArgs, player: Option<Attrs>)
    requires ParseScore(args) == p
    ensures Score(args, player) == ScoreFunc(args, p, player)
  {
  }

  /** `" <name> <op> <value>"` parses to the name and the value. */
  lemma ParsePadded(name: string, op: char, value: string)
    requires Stripped(name) && name != [] && '+' !in name && '=' !in name
    requires Stripped(value) && value != [] && '+' !in value && '=' !in value
    requires op == '+' || op == '='
    ensures ParseScore(" " + name + " " + [op] + " " + value)
            == if op == '+' then ScoreArgs(name, Some(value), None)
               else ScoreArgs(name, None, Some(value))
  {
    var l := [' '] + name + [' '];
    var v := [' '] + value;
    PaddedSplit(name, op, value);
    PaddedSides(name, value);
    if op == '+' {
      PaddedAdd(l, v, name, value);
    } else {
      PaddedSet(l, v, name, value);
    }
  }

  /** The padded command is the padded name, the operator and the padded
      value. */
  lemma PaddedSplit(name: string, op: char, value: string)
    ensures " " + name + " " + [op] + " " + value == ([' '] + name + [' ']) + [op] + ([' '] + value)
  {
  }

  /** The padded sides strip back to the name and the value and carry no
      operator. */
  lemma PaddedSides(name: string, value: string)
    requires Stripped(name) && name != [] && '+' !in name && '=' !in name
    requires Stripped(value) && value != [] && '+' !in value && '=' !in value
    ensures var l := [' '] + name + [' '];
            Strip(l) == name && '+' !in l && '=' !in l
    ensures var v := [' '] + value;
            Strip(v) == value && '+' !in v && '=' !in v
  {
    PaddedName(name);
    PaddedValue(value);
  }

  /** The name side, padded on both ends. */
  lemma PaddedName(name: string)
    requires Stripped(name) && name != [] && '+' !in name && '=' !in name
    ensures var l := [' '] + name + [' '];
            Strip(l) == name && '+' !in l && '=' !in l
  {
    StripPadded([' '], name, [' ']);
  }

  /** The value side, padded in front. */
  lemma PaddedValue(value: string)
    requires Stripped(value) && value != [] && '+' !in value && '=' !in value
    ensures var v := [' '] + value;
            Strip(v) == value && '+' !in v && '=' !in v
  {
    StripPadded([' '], value, []);
    assert [' '] + value == [' '] + value + [];
  }

  /** The add parse of `l + v` once the stripped sides are known. */
  lemma PaddedAdd(l: string, v: string, name: string, value: string)
    requires Strip(l) == name && name != [] && Strip(v) == value && '+' !in v
    ensures ParseScore(l + ['+'] + v) == ScoreArgs(name, Some(value), None)
  {
    ParseAdd(l, v);
  }

  /** The set parse of `l = v` once the stripped sides are known. */
  lemma PaddedSet(l: string, v: string, name: string, value: string)
    requires Strip(l) == name && name != [] && Strip(v) == value
    requires '+' !in l && '+' !in v && '=' !in v
    ensures ParseScore(l + ['='] + v) == ScoreArgs(name, None, Some(value))
  {
    ParseSet(l, v);
  }

  /** A string of digits holds no operator and no surrounding whitespace. */
  lemma DigitsAreBare(d: string)
    requires IsDigits(d)
    ensures Stripped(d) && '+' !in d && '=' !in d
  {
  }

  /** `" <name> = <digits>"` and `" <name> + <digits>"` parse to the name
      and the digits. */
  lemma ParseDigits(name: string, op: char, digits: string)
    requires Stripped(name) && name != [] && '+' !in name && '=' !in name
    requires IsDigits(digits) && (op == '+' || op == '=')
    ensures ParseScore(" " + name + " " + [op] + " " + digits)
            == if op == '+' then ScoreArgs(name, Some(digits), None)
               else ScoreArgs(name, None, Some(digits))
  {
    DigitsAreBare(digits);
    ParsePadded(name, op, digits);
  }

  /** `score <name> = <n>` stores exactly `n`, whatever the score was. */
  lemma SetStoresValue(name: string, n: nat, a: Attrs)
    requires Stripped(name) && name != [] && '+' !in name && '=' !in name
    ensures var r := Score(" " + name + " = " + NatToDigits(n), Some(a));
            r.reply == SetDone && Get(r.player.value, "score") == IntV(n)
  {
    var digits := NatToDigits(n);
    var args := " " + name + " = " + digits;
    assert args == " " + name + " " + ['='] + " " + digits;
    ParseDigits(name, '=', digits);
    ScoreOfParse(args, ScoreArgs(name, None, Some(digits)), Some(a));
    DigitsRoundTrip(n);
    SetOnDigits(args, name, digits, a);
  }

  /** With a player found, a digit string after `=` is always stored. */
  lemma SetOnDigits(args: string, name: string, digits: string, a: Attrs)
    requires args != [] && name != [] && IsDigits(digits)
    ensures var r := ScoreFunc(args, ScoreArgs(name, None, Some(digits)), Some(a));
            r.reply == SetDone && Get(r.player.value, "score") == IntV(DigitsValue(digits))
  {
  }

  /** With a player found, a digit string after `+` is always added: the
      command cannot fail on an integer (or absent) score. */
  lemma AddOnDigits(args: string, name: string, digits: string, a: Attrs)
    requires args != [] && name != [] && IsDigits(digits)
    requires "score" in a ==> a["score"].IntV?
    ensures var r := ScoreFunc(args, ScoreArgs(name, Some(digits), None), Some(a));
            && r.reply == AddDone
            && Get(r.player.value, "score") == IntV(DigitsValue(digits) + Get(a, "score").GetIntOr(0))
  {
  }

  /** `score <name> + <digits>` adds the digits' value to an integer score
      (or to 0 when there is none yet). */
  lemma AddDigitsToScore(name: string, digits: string, a: Attrs)
    requires Stripped(name) && name != [] && '+' !in name && '=' !in name
    requires IsDigits(digits)
    requires "score" in a ==> a["score"].IntV?
    ensures var r := Score(" " + name + " + " + digits, Some(a));
            && r.reply == AddDone
            && Get(r.player.value, "score") == IntV(DigitsValue(digits) + Get(a, "score").GetIntOr(0))
  {
    var args := " " + name + " + " + digits;
    var p := ScoreArgs(name, Some(digits), None);
    assert args == " " + name + " " + ['+'] + " " + digits;
    ParseDigits(name, '+', digits);
    ScoreOfParse(args, p, Some(a));
    AddOnDigits(args, name, digits, a);
  }

  /** An operator with nothing after it only displays the score. */
  lemma EmptyValueDisplays(name: string, op: char, a: Attrs)
    requires Stripped(name) && name != [] && '+' !in name && '=' !in name
    requires op == '+' || op == '='
    ensures var r := Score(name + [op], Some(a));
            r.reply.Display? && r.player == Some(a)
  {
    var args := name + [op];
    var p := if op == '+' then ScoreArgs(name, Some([]), None) else ScoreArgs(name, None, Some([]));
    EmptyValueParses(name, op);
    ScoreOfParse(args, p, Some(a));
    BlankDisplays(args, p, a);
  }

  /** `<name><op>` parses to the name and an empty value. */
  lemma EmptyValueParses(name: string, op: char)
    requires Stripped(name) && name != [] && '+' !in name && '=' !in name
    requires op == '+' || op == '='
    ensures ParseScore(name + [op])
            == if op == '+' then ScoreArgs(name, Some([]), None) else ScoreArgs(name, None, Some([]))
  {
    StripStripped(name);
    assert name + [op] == name + [op] + [];
    if op == '+' {
      ParseAdd(name, []);
    } else {
      ParseSet(name, []);
    }
  }

  /** Empty values fall through to the display. */
  lemma BlankDisplays(args: string, p: ScoreArgs, a: Attrs)
    requires args != [] && p.name != [] && Blank(p.addVal) && Blank(p.setVal)
    ensures var r := ScoreFunc(args, p, Some(a));
            r.reply.Display? && r.player == Some(a)
  {
  }

  /** What `remind` answers. */
  datatype RemindReply = RemindUsage | Puzzle(n: nat) | InvalidSerial

  /** `CmdRemind.func`: the raw argument string must be exactly a space and a
      digit 1 to 3. */
  function Remind(args: string): (r: RemindReply)
    ensures r == RemindUsage <==> args == []
    ensures r.Puzzle? <==> args in {" 1", " 2", " 3"}
    ensures r.Puzzle? ==> 1 <= r.n <= 3 && args == [' ', ('0' as int + r.n) as char]
  {
    if args == [] then RemindUsage
    else if args == " 1" then Puzzle(1)
    else if args == " 2" then Puzzle(2)
    else if args == " 3" then Puzzle(3)
    else InvalidSerial
  }
}
