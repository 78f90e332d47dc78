/** The telnet TERMINAL-TYPE negotiation (option code 24, RFC 1091) with the
    MUD Terminal Type Standard extension: the server sends SEND requests, the
    client answers with IS replies, and each reply fills in part of the
    connection's `TTYPE` flag table. The first reply names the client, the
    second the terminal, the third carries the MTTS capability bitmask. */
module Ttype {
  import opened Common
  import opened Text

  /** The telnet option code of TERMINAL-TYPE (section 1 of RFC 1091). */
  const TtypeOption: char := 24 as char
  /** The IS subnegotiation code, which may lead a reply (RFC 1091). */
  const IsCode: char := 0 as char
  /** The SEND subnegotiation code the server requests with (RFC 1091). */
  const SendCode: char := 1 as char

  /** The MTTS bits and the capability each one announces, highest first. */
  const Mtts: seq<(bv8, string)> := [
    (128, "PROXY"),
    (64, "SCREEN READER"),
    (32, "OSC COLOR PALETTE"),
    (16, "MOUSE TRACKING"),
    (8, "256 COLORS"),
    (4, "UTF-8"),
    (2, "VT100"),
    (1, "ANSI")]

  /** Client names known to support 256 colours whatever their version. */
  const Xterm256Clients: seq<string> :=
    ["ATLANTIS", "CMUD", "KILDCLIENT", "MUDLET", "MUSHCLIENT", "PUTTY"]

  /** A value in the flag table: a boolean or a recorded name. */
  datatype FlagVal = Flag(b: bool) | Text(s: string)

  /** Python truthiness of a flag value. */
  predicate FlagTruthy(v: FlagVal) {
    match v
    case Flag(b) => b
    case Text(s) => s != []
  }

  /** The negotiation state: how many replies have been taken in, the
      `TTYPE` flag table, and how many SEND requests went out. */
  datatype Ttype = Ttype(step: nat, flags: map<string, FlagVal>, sends: nat)

  /** `flags.get(name)` is truthy. */
  predicate FlagSet(flags: map<string, FlagVal>, name: string) {
    name in flags && FlagTruthy(flags[name])
  }

  /** Negotiation is over: the `init_done` flag is truthy. */
  predicate InitDone(t: Ttype) {
    FlagSet(t.flags, "init_done")
  }

  /** `Ttype.__init__`: step 0, not done, ANSI assumed. */
  function Init(): (t: Ttype)
    ensures t.step == 0 && t.sends == 0
    ensures t.flags.Keys == {"init_done", "ANSI"}
    ensures !InitDone(t) && t.flags["init_done"] == Flag(false) && t.flags["ANSI"] == Flag(true)
  {
    Ttype(0, map["init_done" := Flag(false), "ANSI" := Flag(true)], 0)
  }

  /** `Ttype.wont_ttype`: the client refused, so negotiation is over. */
  function Wont(t: Ttype): (r: Ttype)
    ensures InitDone(r) && r.step == t.step && r.sends == t.sends
    ensures forall k :: k in t.flags && k != "init_done" ==> k in r.flags && r.flags[k] == t.flags[k]
    ensures r.flags.Keys == t.flags.Keys + {"init_done"}
  {
    t.(flags := t.flags["init_done" := Flag(true)])
  }

  /** `s.lstrip(IS)`: drop leading IS (NUL) characters. */
  function StripIs(s: string): (r: string)
    ensures |r| <= |s| && r == s[|s| - |r|..]
    ensures forall i :: 0 <= i < |s| - |r| ==> s[i] == IsCode
    ensures r == [] || r[0] != IsCode
  {
    if |s| > 0 && s[0] == IsCode then StripIs(s[1..]) else s
  }

  /** Whether an upper-cased client name announces 256-colour support: Mudlet
      from version 1.1 on, any xterm, any `-256COLOR` terminal, or one of the
      known clients. A name starting with `MUDLET` is judged by its version
      alone. */
  predicate Client256(name: string) {
    if StartsWith(name, "MUDLET") then LexAtLeast(Strip(name[6..]), "1.1")
    else StartsWith(name, "XTERM") || EndsWith(name, "-256COLOR") || name in Xterm256Clients
  }

  /** Whether a terminal string announces 256-colour support. */
  predicate Term256(term: string) {
    EndsWith(term, "-256color") || (EndsWith(term, "xterm") && !EndsWith(term, "-color"))
  }

  /** Bit `bit` of the MTTS value `n`: `n & bit > 0` for a bit below 256. */
  predicate HasBit(n: nat, bit: bv8) {
    ((n % 256) as bv8) & bit != 0
  }

  /** `dict((cap, True) for bitval, cap in table if n & bitval > 0)`. */
  function Support(n: nat, table: seq<(bv8, string)>): (m: map<string, FlagVal>)
    ensures forall k :: k in m ==> m[k] == Flag(true)
    ensures forall k :: k in m <==> exists i :: 0 <= i < |table| && table[i].1 == k && HasBit(n, table[i].0)
  {
    if table == [] then map[]
    else
      var rest := Support(n, table[1..]);
      assert forall i :: 1 <= i < |table| ==> table[i] == table[1..][i - 1];
      if HasBit(n, table[0].0) then rest[table[0].1 := Flag(true)] else rest
  }

  /** The step-3 update: for an `MTTS <field>` reply, a numeric field sets the
      capabilities whose bits it carries and any other field is taken as a
      capability name; other replies add nothing. `None` is the IndexError of
      an `MTTS` reply without a space. */
  function MttsUpdate(flags: map<string, FlagVal>, option: string): (r: Option<map<string, FlagVal>>)
    ensures r.None? <==> StartsWith(option, "MTTS") && ' ' !in option
    ensures !StartsWith(option, "MTTS") ==> r == Some(flags)
    ensures r.Some? ==> flags.Keys <= r.value.Keys
    ensures r.Some? ==> forall k :: k in r.value && (k !in flags || r.value[k] != flags[k]) ==> r.value[k] == Flag(true)
    ensures StartsWith(option, "MTTS") && ' ' in option && !IsDigits(SecondField(option).value) ==>
              r == Some(flags[Upper(SecondField(option).value) := Flag(true)])
    ensures StartsWith(option, "MTTS") && ' ' in option && IsDigits(SecondField(option).value) ==>
              r == Some(flags + Support(DigitsValue(SecondField(option).value), Mtts))
  {
    if !StartsWith(option, "MTTS") then Some(flags)
    else match SecondField(option)
      case None => None
      case Some(field) =>
        if IsDigits(field) then Some(flags + Support(DigitsValue(field), Mtts))
        else Some(flags[Upper(field) := Flag(true)])
  }

  /** Step 1: the client name, upper-cased, decides 256 colours; ANSI is
      assumed and the next request goes out. */
  function NameReply(t: Ttype, option: string): (r: Ttype)
    ensures r.step == t.step + 1 && r.sends == t.sends + 1
    ensures r.flags.Keys == t.flags.Keys + {"ANSI", "256 COLORS", "CLIENTNAME"}
    ensures r.flags["CLIENTNAME"] == Text(Upper(option)) && r.flags["ANSI"] == Flag(true)
    ensures r.flags["256 COLORS"] == Flag(Client256(Upper(option)))
    ensures forall k :: k in t.flags && k != "ANSI" && k != "256 COLORS" && k != "CLIENTNAME" ==>
              r.flags[k] == t.flags[k]
  {
    var name := Upper(option);
    Ttype(t.step + 1, t.flags["ANSI" := Flag(true)]["256 COLORS" := Flag(Client256(name))]["CLIENTNAME" := Text(name)],
          t.sends + 1)
  }

  /** Step 2: the terminal string is recorded and may switch 256 colours
      (and ANSI) on, never off; the next request goes out. */
  function TermReply(t: Ttype, term: string): (r: Ttype)
    ensures r.step == t.step + 1 && r.sends == t.sends + 1
    ensures r.flags.Keys == t.flags.Keys + {"TERM"} + (if Term256(term) then {"ANSI", "256 COLORS"} else {})
    ensures r.flags["TERM"] == Text(term)
    ensures Term256(term) ==> r.flags["256 COLORS"] == Flag(true) && r.flags["ANSI"] == Flag(true)
    ensures forall k :: k in t.flags && k != "TERM" && (!Term256(term) || (k != "ANSI" && k != "256 COLORS")) ==>
              r.flags[k] == t.flags[k]
  {
    var flags := if Term256(term) then t.flags["ANSI" := Flag(true)]["256 COLORS" := Flag(true)] else t.flags;
    Ttype(t.step + 1, flags["TERM" := Text(term)], t.sends + 1)
  }

  /** Step 3: the MTTS reply, after which negotiation is over; no request
      goes out. */
  function LastReply(t: Ttype, option: string): (r: Outcome<Ttype>)
    ensures r.Raised? <==> StartsWith(option, "MTTS") && ' ' !in option
    ensures r.Raised? ==> r.partial == t
    ensures r.Done? ==> r.value.step == t.step + 1 && r.value.sends == t.sends && InitDone(r.value)
    ensures r.Done? ==> t.flags.Keys <= r.value.flags.Keys
  {
    match MttsUpdate(t.flags, option)
    case None => Raised(t)
    case Some(flags) => Done(Ttype(t.step + 1, flags["init_done" := Flag(true)], t.sends))
  }

  /** `will_ttype` once the IS codes are dropped. */
  function Read(t: Ttype, opt: string): (r: Outcome<Ttype>)
    requires t.step <= 3
    ensures r.Done? ==> r.value.step == t.step + 1
    ensures r.Raised? ==> r.partial == t && t.step == 3
  {
    if t.step == 0 then Done(t.(step := 1, sends := t.sends + 1))
    else if t.step == 1 then Done(NameReply(t, opt))
    else if t.step == 2 then Done(TermReply(t, opt))
    else LastReply(t, opt)
  }

  /** `Ttype.will_ttype` on the reply `option`. Nothing happens once
      negotiation is over or four replies have been taken in. Otherwise
      leading IS codes are dropped and the reply is read according to the
      step: 0 only starts the chain, 1 is the client name, 2 the terminal
      string, 3 the MTTS value, after which negotiation is over. Steps 0 to 2
      send the next SEND request. */
  function Will(t: Ttype, option: string): (r: Outcome<Ttype>)
    ensures InitDone(t) || t.step > 3 ==> r == Done(t)
    ensures r.Raised? ==> r.partial == t && t.step == 3
    ensures !InitDone(t) && t.step <= 3 && r.Done? ==> r.value.step == t.step + 1
  {
    if InitDone(t) || t.step > 3 then Done(t) else Read(t, StripIs(option))
  }

  // ---------------------------------------------------------------------
  // Properties
  // ---------------------------------------------------------------------

  /** After the client refuses, no reply changes anything. */
  lemma WontStopsNegotiation(t: Ttype, option: string)
    ensures Will(Wont(t), option) == Done(Wont(t))
  {
  }

  /** Leading IS codes never change how a reply is read. */
  lemma IsCodeIgnored(t: Ttype, option: string)
    ensures Will(t, [IsCode] + option) == Will(t, option)
  {
    assert ([IsCode] + option)[1..] == option;
    assert StripIs([IsCode] + option) == StripIs(option);
  }

  /** Negotiation ends exactly at the fourth reply: the first three leave
      `init_done` as it was (no reply writes it, since the names replies
      write are upper-case), and the fourth sets it. */
  lemma InitDoneAtStepThree(t: Ttype, option: string)
    requires !InitDone(t) && t.step <= 3
    requires Will(t, option).Done?
    ensures t.step < 3 ==> !InitDone(Will(t, option).value)
    ensures t.step == 3 ==> InitDone(Will(t, option).value)
  {
    if t.step < 3 {
      EarlyRepliesKeepInitDone(t, option);
    }
  }

  /** The first three replies never finish the negotiation. */
  lemma EarlyRepliesKeepInitDone(t: Ttype, option: string)
    requires !InitDone(t) && t.step < 3
    ensures Will(t, option).Done? && !InitDone(Will(t, option).value)
  {
    var opt := StripIs(option);
    if t.step == 0 {
      WillAtStart(t, option);
    } else if t.step == 1 {
      WillAtName(t, option);
      NameKeepsInitDone(t, opt);
    } else {
      WillAtTerm(t, option);
      TermKeepsInitDone(t, opt);
    }
  }

  /** At step 0 a reply only starts the chain of requests. */
  lemma WillAtStart(t: Ttype, option: string)
    requires !InitDone(t) && t.step == 0
    ensures Will(t, option) == Done(t.(step := 1, sends := t.sends + 1))
  {
    var opt := StripIs(option);
    assert Will(t, option) == Read(t, opt);
    assert Read(t, opt) == Done(t.(step := 1, sends := t.sends + 1));
  }

  /** At step 3 a reply is read as the MTTS value. */
  lemma WillAtLast(t: Ttype, option: string)
    requires !InitDone(t) && t.step == 3
    ensures Will(t, option) == LastReply(t, StripIs(option))
  {
    var opt := StripIs(option);
    assert Will(t, option) == Read(t, opt);
  }

  /** At step 1 a reply is read as the client name. */
  lemma WillAtName(t: Ttype, option: string)
    requires !InitDone(t) && t.step == 1
    ensures Will(t, option) == Done(NameReply(t, StripIs(option)))
  {
    var opt := StripIs(option);
    assert Will(t, option) == Read(t, opt);
    assert Read(t, opt) == Done(NameReply(t, opt));
  }

  lemma NameKeepsInitDone(t: Ttype, opt: string)
    ensures FlagSet(NameReply(t, opt).flags, "init_done") <==> FlagSet(t.flags, "init_done")
  {
    assert "init_done"[0] != "ANSI"[0] && "init_done"[0] != "256 COLORS"[0];
    assert "init_done"[0] != "CLIENTNAME"[0];
  }

  lemma TermKeepsInitDone(t: Ttype, opt: string)
    ensures FlagSet(TermReply(t, opt).flags, "init_done") <==> FlagSet(t.flags, "init_done")
  {
    assert "init_done"[0] != "ANSI"[0] && "init_done"[0] != "256 COLORS"[0];
    assert "init_done"[0] != "TERM"[0];
  }

  /** The terminal reply only ever switches 256 colours on: a client
      already known to support them keeps them whatever its terminal says,
      and the terminal string is always recorded. */
  lemma TermNeverClears256(t: Ttype, option: string)
    requires !InitDone(t) && t.step == 2
    ensures var r := Will(t, option).value;
            && (FlagSet(t.flags, "256 COLORS") ==> FlagSet(r.flags, "256 COLORS"))
            && r.flags["TERM"] == Text(StripIs(option))
            && (Term256(StripIs(option)) ==> r.flags["256 COLORS"] == Flag(true))
  {
    var opt := StripIs(option);
    var r := TermReply(t, opt);
    WillAtTerm(t, option);
    TermKeeps256(t, opt);
  }

  /** At step 2 a reply is read as the terminal string. */
  lemma WillAtTerm(t: Ttype, option: string)
    requires !InitDone(t) && t.step == 2
    ensures Will(t, option) == Done(TermReply(t, StripIs(option)))
  {
    var opt := StripIs(option);
    assert Will(t, option) == Read(t, opt);
    assert Read(t, opt) == Done(TermReply(t, opt));
  }

  /** The terminal reply never clears 256 colours. */
  lemma TermKeeps256(t: Ttype, term: string)
    ensures FlagSet(t.flags, "256 COLORS") ==> FlagSet(TermReply(t, term).flags, "256 COLORS")
  {
    assert "256 COLORS"[0] != "TERM"[0];
  }

  /** The client-name reply records the name upper-cased and decides 256
      colours from it alone. */
  lemma ClientNameRecorded(t: Ttype, option: string)
    requires !InitDone(t) && t.step == 1
    ensures var r := Will(t, option).value;
            && r.flags["CLIENTNAME"] == Text(Upper(StripIs(option)))
            && r.flags["ANSI"] == Flag(true)
            && r.flags["256 COLORS"] == Flag(Client256(Upper(StripIs(option))))
  {
    WillAtName(t, option);
  }

  /** A bare `MUDLET` gets no 256 colours: the version test runs on an empty
      version, which is below "1.1", so the list entry for Mudlet is never
      consulted. */
  lemma BareMudletNot256()
    ensures !Client256("MUDLET")
  {
    assert "MUDLET"[..6] == "MUDLET";
    assert "MUDLET"[6..] == "";
    assert Strip("") == "";
    assert LexLess("", "1.1");
  }

  /** A Mudlet client is judged by its version alone, compared as text
      with "1.1". */
  lemma MudletVersion(name: string, v: string)
    requires |name| >= 6 && name[..6] == "MUDLET" && name[6..] == " " + v
    requires Stripped(v) && v != []
    ensures Client256(name) <==> LexAtLeast(v, "1.1")
  {
    assert name[6..] == " " + v + "";
    StripPadded(" ", v, "");
  }

  /** Mudlet version 2.0 qualifies. */
  lemma MudletTwo()
    ensures Client256("MUDLET 2.0")
  {
    var name := "MUDLET 2.0";
    assert name[..6] == "MUDLET";
    assert name[6..] == " " + "2.0";
    MudletVersion(name, "2.0");
    assert "2.0"[0] != "1.1"[0];
  }

  /** Version 1.0 does not. */
  lemma MudletOne()
    ensures !Client256("MUDLET 1.0")
  {
    var name := "MUDLET 1.0";
    assert name[..6] == "MUDLET";
    assert name[6..] == " " + "1.0";
    MudletVersion(name, "1.0");
    assert "1.0"[1..] == ".0" && "1.1"[1..] == ".1";
    assert ".0"[1..] == "0" && ".1"[1..] == "1";
    assert LexLess("0", "1");
  }

  /** Names outside Mudlet's are judged by prefix, suffix or the list. */
  lemma OtherClients()
    ensures Client256("XTERM") && Client256("PUTTY") && Client256("ANSI-256COLOR")
    ensures !Client256("TINTIN++")
  {
    XtermClient();
    PuttyClient();
    SuffixClient();
    TintinClient();
  }

  /** An `XTERM` name qualifies by its prefix. */
  lemma XtermClient()
    ensures Client256("XTERM")
  {
    assert "XTERM"[..5] == "XTERM";
  }

  /** `PUTTY` qualifies by the list. */
  lemma PuttyClient()
    ensures Client256("PUTTY")
  {
    assert "PUTTY" == Xterm256Clients[5];
  }

  /** A name ending in `-256COLOR` qualifies by its suffix. */
  lemma SuffixClient()
    ensures Client256("ANSI-256COLOR")
  {
    assert "ANSI-256COLOR"[..6][0] != "MUDLET"[0];
    assert "ANSI-256COLOR"[4..] == "-256COLOR";
  }

  /** `TINTIN++` matches none of the three tests. */
  lemma TintinClient()
    ensures !Client256("TINTIN++")
  {
    assert "TINTIN++"[..6][0] != "MUDLET"[0] && "TINTIN++"[..5][0] != "XTERM"[0];
    assert forall k :: 0 <= k < |Xterm256Clients| ==> Xterm256Clients[k][0] != 'T';
  }

  // ---------------------------------------------------------------------
  // MTTS bits
  // ---------------------------------------------------------------------

  /** No bit of `table` overlaps `b`. */
  predicate Avoids(table: seq<(bv8, string)>, b: bv8) {
    table == [] || (table[0].0 & b == 0 && Avoids(table[1..], b))
  }

  /** No entry of `table` names `name`. */
  predicate NameAbsent(table: seq<(bv8, string)>, name: string) {
    table == [] || (table[0].1 != name && NameAbsent(table[1..], name))
  }

  /** The bits of `table` are non-zero and pairwise disjoint. */
  predicate DistinctBits(table: seq<(bv8, string)>) {
    table == [] || (table[0].0 != 0 && Avoids(table[1..], table[0].0) && DistinctBits(table[1..]))
  }

  /** The capability names of `table` are pairwise distinct. */
  predicate DistinctNames(table: seq<(bv8, string)>) {
    table == [] || (NameAbsent(table[1..], table[0].1) && DistinctNames(table[1..]))
  }

  /** A bit table whose bits are non-zero and pairwise disjoint and whose
      capability names are pairwise distinct. */
  predicate WellFormedTable(table: seq<(bv8, string)>) {
    DistinctBits(table) && DistinctNames(table)
  }

  lemma MttsWellFormed()
    ensures WellFormedTable(Mtts)
  {
    MttsDistinctBits();
    MttsDistinctNames();
  }

  lemma MttsDistinctBits()
    ensures DistinctBits(Mtts)
  {
    var t := Mtts;
    assert t[1..][1..][1..][1..][1..][1..][1..][1..] == [];
  }

  lemma MttsDistinctNames()
    ensures DistinctNames(Mtts)
  {
    var t := Mtts;
    assert t[1..][1..][1..][1..][1..][1..][1..][1..] == [];
  }

  lemma {:induction false} AvoidsAt(table: seq<(bv8, string)>, b: bv8, k: nat)
    requires Avoids(table, b) && k < |table|
    ensures table[k].0 & b == 0
  {
    if k > 0 {
      assert table[1..][k - 1] == table[k];
      AvoidsAt(table[1..], b, k - 1);
    }
  }

  lemma {:induction false} NameAbsentAt(table: seq<(bv8, string)>, name: string, k: nat)
    requires NameAbsent(table, name) && k < |table|
    ensures table[k].1 != name
  {
    if k > 0 {
      assert table[1..][k - 1] == table[k];
      NameAbsentAt(table[1..], name, k - 1);
    }
  }

  /** A name the table does not list is never granted. */
  lemma {:induction false} AbsentNotSupported(n: nat, table: seq<(bv8, string)>, name: string)
    requires NameAbsent(table, name)
    ensures name !in Support(n, table)
  {
    if table != [] {
      AbsentNotSupported(n, table[1..], name);
    }
  }

  /** Decoding one capability: it is granted exactly when its bit is set. */
  lemma {:induction false} SupportPerBit(n: nat, table: seq<(bv8, string)>, i: nat)
    requires WellFormedTable(table) && i < |table|
    ensures table[i].1 in Support(n, table) <==> HasBit(n, table[i].0)
  {
    var rest := table[1..];
    if i == 0 {
      AbsentNotSupported(n, rest, table[0].1);
    } else {
      assert rest[i - 1] == table[i];
      NameAbsentAt(rest, table[0].1, i - 1);
      SupportPerBit(n, rest, i - 1);
    }
  }

  /** The MTTS value announcing exactly the capabilities of `caps` that the
      table lists: the OR of their bits. */
  function Mask(caps: set<string>, table: seq<(bv8, string)>): bv8 {
    if table == [] then 0
    else (if table[0].1 in caps then table[0].0 else 0) | Mask(caps, table[1..])
  }

  /** OR-ing in a value disjoint from `b` leaves bit `b` as it was. */
  lemma OrDisjoint(h: bv8, m: bv8, b: bv8)
    requires h & b == 0
    ensures (h | m) & b == m & b
  {
  }

  /** OR-ing `b` or nothing into a value without `b` sets `b` exactly when
      `b` was OR-ed in. */
  lemma OrOwnBit(h: bv8, m: bv8, b: bv8)
    requires m & b == 0 && b != 0 && (h == b || h == 0)
    ensures (h | m) & b != 0 <==> h == b
  {
  }

  /** A bit disjoint from every bit of the table is absent from any mask. */
  lemma {:induction false} MaskAvoids(caps: set<string>, table: seq<(bv8, string)>, b: bv8)
    requires Avoids(table, b)
    ensures Mask(caps, table) & b == 0
  {
    if table != [] {
      MaskAvoids(caps, table[1..], b);
      var head: bv8 := if table[0].1 in caps then table[0].0 else 0;
      assert head & b == 0;
      OrDisjoint(head, Mask(caps, table[1..]), b);
    }
  }

  /** Each bit of a well-formed table is in the mask exactly when its
      capability is in `caps`. */
  lemma {:induction false} MaskBit(caps: set<string>, table: seq<(bv8, string)>, i: nat)
    requires WellFormedTable(table) && i < |table|
    ensures Mask(caps, table) & table[i].0 != 0 <==> table[i].1 in caps
  {
    if i == 0 {
      MaskFirstBit(caps, table);
    } else {
      assert table[1..][i - 1] == table[i];
      MaskBit(caps, table[1..], i - 1);
      MaskLaterBit(caps, table, i);
    }
  }

  lemma MaskFirstBit(caps: set<string>, table: seq<(bv8, string)>)
    requires WellFormedTable(table) && table != []
    ensures Mask(caps, table) & table[0].0 != 0 <==> table[0].1 in caps
  {
    var head: bv8 := if table[0].1 in caps then table[0].0 else 0;
    var m := Mask(caps, table[1..]);
    MaskAvoids(caps, table[1..], table[0].0);
    OrOwnBit(head, m, table[0].0);
  }

  lemma MaskLaterBit(caps: set<string>, table: seq<(bv8, string)>, i: nat)
    requires WellFormedTable(table) && 0 < i < |table|
    ensures Mask(caps, table) & table[i].0 == Mask(caps, table[1..]) & table[i].0
  {
    var head: bv8 := if table[0].1 in caps then table[0].0 else 0;
    assert table[1..][i - 1] == table[i];
    AvoidsAt(table[1..], table[0].0, i - 1);
    BitsDisjoint(head, table[0].0, table[i].0);
    OrDisjoint(head, Mask(caps, table[1..]), table[i].0);
  }

  /** `head`, being `b` or nothing, is disjoint from a bit disjoint from `b`. */
  lemma BitsDisjoint(head: bv8, b: bv8, c: bv8)
    requires c & b == 0 && (head == b || head == 0)
    ensures head & c == 0
  {
  }

  /** A byte read back as a number and cut to 8 bits is itself. */
  lemma ByteRoundTrip(m: bv8)
    ensures ((m as nat) % 256) as bv8 == m
  {
    ByteBelow256(m);
    ModSmall(m as nat);
    ByteAsNat(m);
  }

  lemma ByteBelow256(m: bv8)
    ensures (m as nat) < 256
  {
  }

  lemma ModSmall(n: nat)
    requires n < 256
    ensures n % 256 == n
  {
  }

  lemma ByteAsNat(m: bv8)
    ensures (m as nat) as bv8 == m
  {
  }

  /** The number of the mask of `caps` carries the bit of a capability
      exactly when `caps` holds it. */
  lemma MaskValueBits(caps: set<string>, i: nat)
    requires i < |Mtts|
    ensures HasBit(Mask(caps, Mtts) as nat, Mtts[i].0) <==> Mtts[i].1 in caps
  {
    ByteRoundTrip(Mask(caps, Mtts));
    MttsWellFormed();
    MaskBit(caps, Mtts, i);
  }

  /** MTTS round trip: the decimal rendering of the mask of `caps`, read
      back and decoded, grants exactly the capabilities of `caps` the table
      lists. */
  lemma MttsRoundTrip(caps: set<string>, i: nat)
    requires i < |Mtts|
    ensures var n := Mask(caps, Mtts) as nat;
            Mtts[i].1 in Support(DigitsValue(NatToDigits(n)), Mtts) <==> Mtts[i].1 in caps
  {
    var n := Mask(caps, Mtts) as nat;
    DigitsRoundTrip(n);
    MttsWellFormed();
    SupportPerBit(n, Mtts, i);
    MaskValueBits(caps, i);
  }

  /** `TakeUntil` stops at the first separator. */
  lemma {:induction false} TakeUntilPrefix(p: string, rest: string, c: char)
    requires c !in p
    ensures TakeUntil(p + [c] + rest, c) == p
  {
    if p != [] {
      assert (p + [c] + rest)[1..] == p[1..] + [c] + rest;
      TakeUntilPrefix(p[1..], rest, c);
    }
  }

  /** `TakeUntil` keeps a string that does not contain the separator. */
  lemma {:induction false} TakeAll(s: string, c: char)
    requires c !in s
    ensures TakeUntil(s, c) == s
  {
    if s != [] {
      assert c !in s[1..];
      TakeAll(s[1..], c);
    }
  }

  /** `("MTTS " + s).split(" ")[1]` is `s` itself when `s` has no space. */
  lemma SecondFieldOfMtts(s: string)
    requires ' ' !in s
    ensures SecondField("MTTS " + s) == Some(s)
  {
    assert "MTTS " + s == "MTTS" + [' '] + s;
    TakeUntilPrefix("MTTS", s, ' ');
    assert ("MTTS " + s)[5..] == s;
    TakeAll(s, ' ');
  }

  /** An `MTTS <n>` reply adds the capabilities of `n` to the table. */
  lemma MttsDigitsUpdate(flags: map<string, FlagVal>, n: nat)
    ensures MttsUpdate(flags, "MTTS " + NatToDigits(n)) == Some(flags + Support(n, Mtts))
  {
    var d := NatToDigits(n);
    assert ' ' !in d by { assert forall j :: 0 <= j < |d| ==> IsDigit(d[j]); }
    SecondFieldOfMtts(d);
    DigitsRoundTrip(n);
    assert ("MTTS " + d)[..4] == "MTTS";
  }

  /** An `MTTS <name>` reply whose field is not a number sets the upper-cased
      name as a capability and changes nothing else. */
  lemma MttsNameUpdate(flags: map<string, FlagVal>, field: string)
    requires ' ' !in field && !IsDigits(field)
    ensures var r := MttsUpdate(flags, "MTTS " + field);
            && r.Some? && Upper(field) in r.value && r.value[Upper(field)] == Flag(true)
            && r.value.Keys == flags.Keys + {Upper(field)}
            && forall k :: k in flags && k != Upper(field) ==> r.value[k] == flags[k]
  {
    SecondFieldOfMtts(field);
    assert ("MTTS " + field)[..4] == "MTTS";
  }

  /** The MTTS reply to the last request: a numeric value sets exactly the
      capabilities whose bits it carries, clears nothing, and ends the
      negotiation. */
  lemma MttsNumericReply(t: Ttype, n: nat)
    requires !InitDone(t) && t.step == 3
    ensures var r := Will(t, "MTTS " + NatToDigits(n));
            && r.Done? && InitDone(r.value) && r.value.step == 4 && r.value.sends == t.sends
            && (forall i :: 0 <= i < |Mtts| ==> (FlagSet(r.value.flags, Mtts[i].1) <==>
                  HasBit(n, Mtts[i].0) || FlagSet(t.flags, Mtts[i].1)))
            && (forall k :: k in t.flags && k != "init_done" && k !in Support(n, Mtts) ==>
                  k in r.value.flags && r.value.flags[k] == t.flags[k])
            && (forall k :: FlagSet(t.flags, k) ==> FlagSet(r.value.flags, k))
  {
    var opt := "MTTS " + NatToDigits(n);
    assert opt[0] != IsCode;
    assert StripIs(opt) == opt;
    WillAtLast(t, opt);
    MttsDigitsUpdate(t.flags, n);
    var sup := Support(n, Mtts);
    var flags := (t.flags + sup)["init_done" := Flag(true)];
    assert LastReply(t, opt) == Done(Ttype(4, flags, t.sends));
    MttsWellFormed();
    forall i | 0 <= i < |Mtts|
      ensures FlagSet(flags, Mtts[i].1) <==> HasBit(n, Mtts[i].0) || FlagSet(t.flags, Mtts[i].1)
    {
      SupportPerBit(n, Mtts, i);
      NotInitDone(i);
    }
  }

  /** No MTTS capability is called `init_done`. */
  lemma NotInitDone(i: nat)
    requires i < |Mtts|
    ensures Mtts[i].1 != "init_done"
  {
    assert Mtts[i].1[0] != "init_done"[0];
  }

  /** Names the MTTS table does not list. */
  lemma RecordedNamesUnlisted()
    ensures NameAbsent(Mtts, "TERM") && NameAbsent(Mtts, "CLIENTNAME")
  {
    var t := Mtts;
    assert t[1..][1..][1..][1..][1..][1..][1..][1..] == [];
  }

  /** The first three replies of a fresh connection leave the negotiation
      waiting for the MTTS value, after three requests, with the client name
      and the terminal recorded. */
  lemma RepliesRecorded(o0: string, o1: string, o2: string, t1: Ttype, t2: Ttype, t3: Ttype)
    requires Will(Init(), o0) == Done(t1) && Will(t1, o1) == Done(t2) && Will(t2, o2) == Done(t3)
    ensures !InitDone(t3) && t3.step == 3 && t3.sends == 3
    ensures "CLIENTNAME" in t3.flags && t3.flags["CLIENTNAME"] == Text(Upper(StripIs(o1)))
    ensures "TERM" in t3.flags && t3.flags["TERM"] == Text(StripIs(o2))
  {
    NameAfterStart(o0, o1, t1, t2);
    TermAfterName(t2, o2, t3);
  }

  /** The first two replies of a fresh connection record the client name. */
  lemma NameAfterStart(o0: string, o1: string, t1: Ttype, t2: Ttype)
    requires Will(Init(), o0) == Done(t1) && Will(t1, o1) == Done(t2)
    ensures !InitDone(t2) && t2.step == 2 && t2.sends == 2
    ensures "CLIENTNAME" in t2.flags && t2.flags["CLIENTNAME"] == Text(Upper(StripIs(o1)))
  {
    StartFromInit(o0, t1);
    NameAfterOne(t1, o1, t2);
  }

  /** The first reply of a fresh connection only starts the requests. */
  lemma StartFromInit(o0: string, t1: Ttype)
    requires Will(Init(), o0) == Done(t1)
    ensures !InitDone(t1) && t1.step == 1 && t1.sends == 1
  {
    WillAtStart(Init(), o0);
  }

  /** The client-name reply keeps the negotiation open and records the
      name. */
  lemma NameAfterOne(t1: Ttype, o1: string, t2: Ttype)
    requires !InitDone(t1) && t1.step == 1 && Will(t1, o1) == Done(t2)
    ensures !InitDone(t2) && t2.step == 2 && t2.sends == t1.sends + 1
    ensures "CLIENTNAME" in t2.flags && t2.flags["CLIENTNAME"] == Text(Upper(StripIs(o1)))
  {
    WillAtName(t1, o1);
    NameKeepsInitDone(t1, StripIs(o1));
  }

  /** The terminal reply records the terminal and keeps the client name. */
  lemma TermAfterName(t2: Ttype, o2: string, t3: Ttype)
    requires !InitDone(t2) && t2.step == 2 && "CLIENTNAME" in t2.flags
    requires Will(t2, o2) == Done(t3)
    ensures !InitDone(t3) && t3.step == 3 && t3.sends == t2.sends + 1
    ensures "CLIENTNAME" in t3.flags && t3.flags["CLIENTNAME"] == t2.flags["CLIENTNAME"]
    ensures "TERM" in t3.flags && t3.flags["TERM"] == Text(StripIs(o2))
  {
    EarlyRepliesKeepInitDone(t2, o2);
    WillAtTerm(t2, o2);
    TermKeepsClientName(t2, StripIs(o2));
  }

  /** The terminal reply leaves the recorded client name alone. */
  lemma TermKeepsClientName(t: Ttype, term: string)
    requires "CLIENTNAME" in t.flags
    ensures "CLIENTNAME" in TermReply(t, term).flags
    ensures TermReply(t, term).flags["CLIENTNAME"] == t.flags["CLIENTNAME"]
  {
    assert "CLIENTNAME"[0] != "TERM"[0] && "CLIENTNAME"[0] != "ANSI"[0];
    assert "CLIENTNAME"[0] != "256 COLORS"[0];
  }

  /** A whole negotiation from a fresh connection: the client's three
      replies (which never raise, see `EarlyRepliesKeepInitDone`) and a
      numeric MTTS value finish it after three SEND requests, with the client
      name and the terminal recorded, and later replies change nothing. */
  lemma NegotiationCompletes(o0: string, o1: string, o2: string, n: nat, later: string,
                             t1: Ttype, t2: Ttype, t3: Ttype)
    requires Will(Init(), o0) == Done(t1) && Will(t1, o1) == Done(t2) && Will(t2, o2) == Done(t3)
    ensures var r := Will(t3, "MTTS " + NatToDigits(n));
            && r.Done? && InitDone(r.value) && r.value.step == 4 && r.value.sends == 3
            && "CLIENTNAME" in r.value.flags && r.value.flags["CLIENTNAME"] == Text(Upper(StripIs(o1)))
            && "TERM" in r.value.flags && r.value.flags["TERM"] == Text(StripIs(o2))
            && Will(r.value, later) == r
  {
    RepliesRecorded(o0, o1, o2, t1, t2, t3);
    MttsNumericReply(t3, n);
    RecordedNamesUnlisted();
    AbsentNotSupported(n, Mtts, "TERM");
    AbsentNotSupported(n, Mtts, "CLIENTNAME");
    assert "TERM"[0] != "init_done"[0] && "CLIENTNAME"[0] != "init_done"[0];
  }
}
