/** The `/clock` command: tab completion, and the validation of `add` and
    `delete` before they reach the registry. */
module Commands {
  import opened Host
  import opened Clocks

  datatype Option<T> = None | Some(value: T)

  // ---------------------------------------------------------------------------
  // Parsing a radius (String.toInt)
  // ---------------------------------------------------------------------------

  const IntMin: int := -0x8000_0000
  const IntMax: int := 0x7fff_ffff

  predicate IsDigit(ch: char)
  {
    '0' <= ch <= '9'
  }

  predicate AllDigits(s: string)
  {
    forall i :: 0 <= i < |s| ==> IsDigit(s[i])
  }

  /** The value of a run of decimal digits, most significant first. */
  function DigitsValue(s: string): nat
    requires AllDigits(s)
  {
    if s == [] then 0 else 10 * DigitsValue(s[..|s| - 1]) + (s[|s| - 1] as int - '0' as int)
  }

  /** `String.toInt()` in base 10: an optional sign, at least one digit, and a
      value that fits a 32-bit Int; anything else is a NumberFormatException,
      here None. */
  function ParseInt(s: string): (r: Option<int>)
    ensures r.Some? ==> IntMin <= r.value <= IntMax
    ensures r.Some? ==> |s| > 0 && AllDigits(s[1..]) && (IsDigit(s[0]) || (|s| > 1 && (s[0] == '-' || s[0] == '+')))
  {
    if |s| == 0 then None
    else
      var negative := s[0] == '-';
      var digits := if s[0] == '-' || s[0] == '+' then s[1..] else s;
      if digits == [] || !AllDigits(digits) then None
      else
        var v := if negative then -(DigitsValue(digits) as int) else DigitsValue(digits) as int;
        if IntMin <= v <= IntMax then Some(v) else None
  }

  /** The decimal digits of n, most significant first, without leading zeros. */
  function Digits(n: nat): (s: string)
    ensures |s| > 0 && AllDigits(s)
  {
    if n < 10 then ['0' + n as char] else Digits(n / 10) + ['0' + (n % 10) as char]
  }

  /** Int.toString(). */
  function FormatInt(n: int): string
  {
    if n < 0 then "-" + Digits(-n) else Digits(n)
  }

  lemma {:induction false} DigitsRoundTrip(n: nat)
    ensures DigitsValue(Digits(n)) == n
  {
    if n >= 10 {
      DigitsRoundTrip(n / 10);
      var s := Digits(n);
      assert s[..|s| - 1] == Digits(n / 10);
    }
  }

  /** Every Int prints as a string toInt reads back. */
  lemma ParseFormat(n: int)
    requires IntMin <= n <= IntMax
    ensures ParseInt(FormatInt(n)) == Some(n)
  {
    var s := FormatInt(n);
    if n < 0 {
      var d := Digits(-n);
      DigitsRoundTrip(-n);
      assert s[0] == '-' && s[1..] == d;
      assert DigitsValue(d) == -n;
    } else {
      var d := Digits(n);
      DigitsRoundTrip(n);
      assert s == d && IsDigit(s[0]);
    }
  }

  // ---------------------------------------------------------------------------
  // Materials
  // ---------------------------------------------------------------------------

  function UpperChar(ch: char): char
  {
    if 'a' <= ch <= 'z' then (ch as int - 32) as char else ch
  }

  function LowerChar(ch: char): char
  {
    if 'A' <= ch <= 'Z' then (ch as int + 32) as char else ch
  }

  /** `toUpperCase()` on ASCII letters: no lower-case letter is left, every
      other character is kept, and each letter keeps its place in the
      alphabet. */
  function Upper(s: string): (r: string)
    ensures |r| == |s|
    ensures forall i :: 0 <= i < |s| ==> !('a' <= r[i] <= 'z')
    ensures forall i :: 0 <= i < |s| && !('a' <= s[i] <= 'z') ==> r[i] == s[i]
    ensures forall i :: 0 <= i < |s| && 'a' <= s[i] <= 'z' ==> r[i] as int - 'A' as int == s[i] as int - 'a' as int
  {
    seq(|s|, i requires 0 <= i < |s| => UpperChar(s[i]))
  }

  /** `toLowerCase()` on ASCII letters: no upper-case letter is left, every
      other character is kept, and each letter keeps its place in the
      alphabet. */
  function Lower(s: string): (r: string)
    ensures |r| == |s|
    ensures forall i :: 0 <= i < |s| ==> !('A' <= r[i] <= 'Z')
    ensures forall i :: 0 <= i < |s| && !('A' <= s[i] <= 'Z') ==> r[i] == s[i]
    ensures forall i :: 0 <= i < |s| && 'A' <= s[i] <= 'Z' ==> r[i] as int - 'a' as int == s[i] as int - 'A' as int
  {
    seq(|s|, i requires 0 <= i < |s| => LowerChar(s[i]))
  }

  /** Upper-casing is idempotent, and it ignores a lower-casing done first:
      names that differ only in letter case are upper-cased alike. */
  lemma UpperIgnoresCase(s: string)
    ensures Upper(Upper(s)) == Upper(s)
    ensures Upper(Lower(s)) == Upper(s)
  {
    forall i | 0 <= i < |s|
      ensures Upper(Upper(s))[i] == Upper(s)[i] && Upper(Lower(s))[i] == Upper(s)[i]
    {
      assert Upper(s)[i] == UpperChar(s[i]) && Lower(s)[i] == LowerChar(s[i]);
    }
  }

  /** A name already in upper case is what upper-casing its lower-case form
      gives back. */
  lemma UpperLower(s: string)
    requires Upper(s) == s
    ensures Upper(Lower(s)) == s
  {
    forall i | 0 <= i < |s|
      ensures Upper(Lower(s))[i] == s[i]
    {
      assert UpperChar(s[i]) == s[i];
    }
  }

  /** The host's material enum: its constants in declaration order and the
      ones whose isBlock holds. */
  datatype Catalog = Catalog(values: seq<Material>, blocks: set<Material>)

  /** Every enum constant's name is upper case, as Java enum names are. */
  predicate UpperCaseNames(cat: Catalog)
  {
    forall m :: m in cat.values ==> Upper(m) == m
  }

  /** `Material.getMaterial(arg.toUpperCase())` followed by the isBlock test:
      the block material named by the argument, if any. */
  function BlockNamed(cat: Catalog, arg: string): (r: Option<Material>)
    ensures r.Some? ==> r.value in cat.values && r.value in cat.blocks && Upper(r.value) == r.value
    ensures r.Some? ==> r.value == Upper(arg)
    ensures forall m :: m in cat.values && m in cat.blocks && Upper(m) == m && Upper(arg) == Upper(m) ==> r == Some(m)
  {
    UpperIgnoresCase(arg);
    var name := Upper(arg);
    if name in cat.values && name in cat.blocks then Some(name) else None
  }

  /** The lower-case names of the block materials, in enum order. */
  function BlockNames(values: seq<Material>, blocks: set<Material>): (r: seq<string>)
    ensures forall n :: n in r <==> exists m :: m in values && m in blocks && n == Lower(m)
  {
    if values == [] then []
    else
      var rest := BlockNames(values[1..], blocks);
      assert forall m :: m in values <==> m == values[0] || m in values[1..];
      if values[0] in blocks then [Lower(values[0])] + rest else rest
  }

  // ---------------------------------------------------------------------------
  // Tab completion (onTabComplete)
  // ---------------------------------------------------------------------------

  /** The suggestions for the argument being typed, given the registry's keys
      in order. */
  function TabComplete(args: seq<string>, keys: seq<string>, cat: Catalog): (r: seq<string>)
    ensures forall s :: s in r ==>
      s == "add" || s == "delete" || s in keys ||
      exists m :: m in cat.values && m in cat.blocks && s == Lower(m)
    ensures |args| == 1 ==> r == ["add", "delete"]
    ensures |args| == 2 && args[0] == "delete" ==> forall s :: s in r <==> s in keys
    ensures 4 <= |args| <= 5 && args[0] == "add" ==>
      forall s :: s in r <==> exists m :: m in cat.values && m in cat.blocks && s == Lower(m)
  {
    if |args| == 0 then []
    else if |args| == 1 then ["add", "delete"]
    else if |args| == 2 && args[0] == "delete" then keys
    else if 4 <= |args| <= 5 && args[0] == "add" then BlockNames(cat.values, cat.blocks)
    else []
  }

  // ---------------------------------------------------------------------------
  // Command decision (onCommand)
  // ---------------------------------------------------------------------------

  /** Who ran the command. For a player, the host supplies the permission
      check, the world, the block coordinates of their location and their
      facing rounded to quarter turns. */
  datatype Sender =
    | Console
    | Player(permitted: bool, world: string, x: int, y: int, z: int, facing: int)

  /** The message sent back, by which check produced it. */
  datatype Notice =
    | Silent
    | NotAPlayer
    | NoPermission
    | NameTaken(name: string)
    | NotANumber(arg: string)
    | NotABlock(arg: string)
    | Created(name: string)
    | NoSuchClock(name: string)
    | Deleted(name: string)

  /** The registry change the command asks for. */
  datatype Effect = NoChange | Create(clock: ClockData) | Remove(name: string)

  /** What onCommand returns, says and does. */
  datatype Reply = Reply(handled: bool, notice: Notice, effect: Effect)

  function Decide(sender: Sender, args: seq<string>, registered: set<string>, cat: Catalog): (r: Reply)
    ensures !r.handled ==> r.effect == NoChange && r.notice == Silent
    ensures r.effect != NoChange ==> sender.Player? && sender.permitted
    ensures r.effect.Remove? ==> r.effect.name in registered && r.notice == Deleted(r.effect.name)
    ensures r.effect.Create? ==> r.effect.clock.world == sender.world && IntMin <= r.effect.clock.radius <= IntMax
  {
    if !sender.Player? then Reply(true, NotAPlayer, NoChange)
    else if !sender.permitted then Reply(true, NoPermission, NoChange)
    else if |args| == 0 then Reply(false, Silent, NoChange)
    else if args[0] == "add" then
      if |args| != 5 then Reply(false, Silent, NoChange)
      else if args[1] in registered then Reply(true, NameTaken(args[1]), NoChange)
      else if ParseInt(args[2]).None? then Reply(true, NotANumber(args[2]), NoChange)
      else if BlockNamed(cat, args[3]).None? then Reply(true, NotABlock(args[3]), NoChange)
      else if BlockNamed(cat, args[4]).None? then Reply(true, NotABlock(args[4]), NoChange)
      else
        var clock := ClockData(args[1], sender.world, sender.x, sender.y, sender.z,
                               BlockNamed(cat, args[3]).value, BlockNamed(cat, args[4]).value,
                               ParseInt(args[2]).value, sender.facing);
        Reply(true, Created(args[1]), Create(clock))
    else if args[0] == "delete" then
      if |args| != 2 then Reply(false, Silent, NoChange)
      else if args[1] !in registered then Reply(true, NoSuchClock(args[1]), NoChange)
      else Reply(true, Deleted(args[1]), Remove(args[1]))
    else Reply(false, Silent, NoChange)
  }

  /** The console and players without the permission are answered and
      nothing changes. */
  lemma OutsidersRefused(sender: Sender, args: seq<string>, registered: set<string>, cat: Catalog)
    requires !sender.Player? || !sender.permitted
    ensures Decide(sender, args, registered, cat).handled
    ensures Decide(sender, args, registered, cat).effect == NoChange
  {
  }

  /** onCommand returns false (Bukkit then prints the usage) exactly for a
      permitted player with no subcommand, an unknown one, or the wrong
      number of arguments for it; and then nothing changes. */
  lemma UsageShown(sender: Sender, args: seq<string>, registered: set<string>, cat: Catalog)
    ensures !Decide(sender, args, registered, cat).handled <==>
      sender.Player? && sender.permitted &&
      (|args| == 0 || (args[0] == "add" && |args| != 5) || (args[0] == "delete" && |args| != 2) ||
       (args[0] != "add" && args[0] != "delete"))
    ensures !Decide(sender, args, registered, cat).handled ==> Decide(sender, args, registered, cat).effect == NoChange
  {
  }

  /** `add` creates a clock exactly when a permitted player names a new clock,
      a radius toInt accepts and two block materials; the clock carries those
      values, the player's world and block coordinates, and their facing. */
  lemma AddCreates(sender: Sender, args: seq<string>, registered: set<string>, cat: Catalog, c: ClockData)
    ensures Decide(sender, args, registered, cat).effect == Create(c) <==>
      sender.Player? && sender.permitted && |args| == 5 && args[0] == "add" &&
      args[1] !in registered && ParseInt(args[2]).Some? &&
      Upper(args[3]) in cat.values && Upper(args[3]) in cat.blocks &&
      Upper(args[4]) in cat.values && Upper(args[4]) in cat.blocks &&
      c == ClockData(args[1], sender.world, sender.x, sender.y, sender.z, Upper(args[3]), Upper(args[4]),
                     ParseInt(args[2]).value, sender.facing)
  {
  }

  /** `add` never replaces: a clock it creates has a name not yet registered,
      so createClock's replace path is not reached from the command. */
  lemma AddNeverReplaces(sender: Sender, args: seq<string>, registered: set<string>, cat: Catalog)
    requires Decide(sender, args, registered, cat).effect.Create?
    ensures Decide(sender, args, registered, cat).effect.clock.name !in registered
    ensures Decide(sender, args, registered, cat).notice == Created(Decide(sender, args, registered, cat).effect.clock.name)
  {
  }

  /** Any Int radius is accepted, zero and negative ones included. */
  lemma AnyRadiusAccepted(sender: Sender, name: string, radius: int, hour: string, minute: string,
                          registered: set<string>, cat: Catalog)
    requires sender.Player? && sender.permitted && name !in registered
    requires IntMin <= radius <= IntMax
    requires BlockNamed(cat, hour).Some? && BlockNamed(cat, minute).Some?
    ensures Decide(sender, ["add", name, FormatInt(radius), hour, minute], registered, cat).effect.Create?
    ensures Decide(sender, ["add", name, FormatInt(radius), hour, minute], registered, cat).effect.clock.radius == radius
  {
    ParseFormat(radius);
  }

  /** `delete` removes exactly the named clock when it is registered, and
      otherwise answers and changes nothing. */
  lemma DeleteRemoves(sender: Sender, args: seq<string>, registered: set<string>, cat: Catalog, n: string)
    ensures Decide(sender, args, registered, cat).effect == Remove(n) <==>
      sender.Player? && sender.permitted && args == ["delete", n] && n in registered
    ensures sender.Player? && sender.permitted && args == ["delete", n] && n !in registered ==>
      Decide(sender, args, registered, cat) == Reply(true, NoSuchClock(n), NoChange)
  {
  }

  /** Every name offered after `delete` is one the command deletes. */
  lemma {:induction false} DeleteSuggestionsAccepted(sender: Sender, typed: string, keys: seq<string>,
                                                     registered: set<string>, cat: Catalog, s: string)
    requires sender.Player? && sender.permitted
    requires forall n :: n in keys <==> n in registered
    requires s in TabComplete(["delete", typed], keys, cat)
    ensures Decide(sender, ["delete", s], registered, cat) == Reply(true, Deleted(s), Remove(s))
  {
    assert s in keys;
  }

  /** Every material offered for the hand arguments of `add` is one the
      command accepts. */
  lemma {:induction false} MaterialSuggestionsAccepted(args: seq<string>, keys: seq<string>, cat: Catalog, s: string)
    requires UpperCaseNames(cat)
    requires s in TabComplete(args, keys, cat) && 4 <= |args| <= 5 && args[0] == "add"
    ensures BlockNamed(cat, s).Some?
  {
    var m :| m in cat.values && m in cat.blocks && s == Lower(m);
    UpperLower(m);
  }

  /** Completion offers nothing outside the cases it knows. */
  lemma TabCompleteOtherwiseEmpty(args: seq<string>, keys: seq<string>, cat: Catalog)
    requires |args| == 0 || |args| == 3 || |args| > 5 || (|args| == 2 && args[0] != "delete") ||
             (4 <= |args| <= 5 && args[0] != "add")
    ensures TabComplete(args, keys, cat) == []
  {
  }

  // ---------------------------------------------------------------------------
  // The command executor
  // ---------------------------------------------------------------------------

  class ClockCommand {
    const clockface: Clockface
    const catalog: Catalog

    constructor (clockface: Clockface, catalog: Catalog)
      ensures this.clockface == clockface && this.catalog == catalog
    {
      this.clockface := clockface;
      this.catalog := catalog;
    }

    /** onTabComplete, reading the registry's keys in their order: after
        `delete` it offers exactly the registered names. */
    function OnTabComplete(args: seq<string>): (r: seq<string>)
      reads clockface, clockface.server
      ensures clockface.Valid() && |args| == 2 && args[0] == "delete" ==>
        forall s :: s in r <==> s in clockface.clocks
    {
      TabComplete(args, clockface.order, catalog)
    }

    /** onCommand: decides, then performs the registry change decided on. */
    method OnCommand(sender: Sender, args: seq<string>) returns (handled: bool)
      requires clockface.Valid()
      requires sender.Player? ==> sender.world in clockface.server.worlds
      modifies clockface, clockface.server`blocks, clockface.server`writes
      ensures clockface.Valid()
      ensures handled == Decide(sender, args, old(clockface.clocks).Keys, catalog).handled
      ensures match Decide(sender, args, old(clockface.clocks).Keys, catalog).effect
        case NoChange =>
          clockface.clocks == old(clockface.clocks) && clockface.order == old(clockface.order) &&
          clockface.saved == old(clockface.saved) && clockface.server.blocks == old(clockface.server.blocks)
        case Create(c) =>
          clockface.clocks == old(clockface.clocks)[c.name := c] && clockface.order == old(clockface.order) + [c.name] &&
          clockface.saved == clockface.clocks && clockface.server.blocks == old(clockface.server.blocks)
        case Remove(n) =>
          clockface.clocks == old(clockface.clocks) - {n} && clockface.order == Without(old(clockface.order), n) &&
          clockface.saved == clockface.clocks &&
          clockface.server.blocks ==
            ClearEffect(old(clockface.server.blocks), clockface.server.loaded, clockface.rotate, old(clockface.clocks)[n])
    {
      var reply := Decide(sender, args, clockface.clocks.Keys, catalog);
      match reply.effect {
        case NoChange =>
        case Create(c) =>
          clockface.CreateClock(c);
        case Remove(n) =>
          clockface.RemoveClock(n);
      }
      handled := reply.handled;
    }
  }
}
