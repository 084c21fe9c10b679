/** The server's command registry: commands with a lower-cased name, their one-line help
    text, registration into a name-keyed table, and dispatch of an input line to the command
    its first word names. */
module Commands {
  import opened JsBuiltins

  // ---------------------------------------------------------------------------------------
  // Lower-casing

  /** `toLowerCase` on one character, for the ASCII letters. */
  function LowerChar(ch: char): (r: char)
    ensures !('A' <= r <= 'Z')
    ensures !('A' <= ch <= 'Z') ==> r == ch
    ensures 'A' <= ch <= 'Z' ==> 'a' <= r <= 'z' && r as int - 'a' as int == ch as int - 'A' as int
  {
    if 'A' <= ch <= 'Z' then (ch as int - 'A' as int + 'a' as int) as char else ch
  }

  /** `s.toLowerCase()`, for the ASCII letters. */
  function ToLower(s: string): (r: string)
    ensures |r| == |s|
    ensures forall i :: 0 <= i < |s| ==> r[i] == LowerChar(s[i])
    decreases |s|
  {
    if |s| == 0 then "" else [LowerChar(s[0])] + ToLower(s[1..])
  }

  /** A lower-cased string has no upper-case letter, and lower-casing it again changes
      nothing. */
  lemma ToLowerIdempotent(s: string)
    ensures forall i :: 0 <= i < |ToLower(s)| ==> !('A' <= ToLower(s)[i] <= 'Z')
    ensures ToLower(ToLower(s)) == ToLower(s)
  {
    var r := ToLower(s);
    assert forall i :: 0 <= i < |r| ==> LowerChar(r[i]) == r[i];
  }

  // ---------------------------------------------------------------------------------------
  // Commands

  /** The callback a command runs, known only by which one it is. */
  datatype Executor = Executor(id: nat)

  /** A command; `args` is the usage hint, absent (`undefined`) for commands without one. */
  datatype Command = Command(name: string, description: string, args: Option<string>,
                             executor: Executor)

  /** `new Command(name, description, args, executor)`: the name is lower-cased, everything
      else is kept as given. */
  function NewCommand(name: string, description: string, args: Option<string>,
                      executor: Executor): (c: Command)
    ensures c.name == ToLower(name) && |c.name| == |name|
    ensures forall i :: 0 <= i < |c.name| ==> !('A' <= c.name[i] <= 'Z')
    ensures c.description == description && c.args == args && c.executor == executor
  {
    ToLowerIdempotent(name);
    Command(ToLower(name), description, args, executor)
  }

  /** Whether the usage hint is falsy: absent or empty. */
  predicate NoArgs(args: Option<string>)
  {
    args.None? || args.value == ""
  }

  /** `command.toString()`: the name, a space and the usage hint when there is one, then
      ` - ` and the description. */
  function ToString(c: Command): (r: string)
  {
    c.name + (if NoArgs(c.args) then "" else " " + c.args.value) + " - " + c.description
  }

  /** The help line starts with the name and ends with ` - ` and the description; it is
      longer than those two together exactly when there is a usage hint. So it is never the
      name alone. */
  lemma ToStringShape(c: Command)
    ensures var r := ToString(c);
            |r| >= |c.name| + 3 + |c.description| && r[..|c.name|] == c.name &&
            r[|r| - |c.description| - 3..] == " - " + c.description
    ensures NoArgs(c.args) <==> |ToString(c)| == |c.name| + 3 + |c.description|
    ensures ToString(c) != c.name
  {
    var h := if NoArgs(c.args) then "" else " " + c.args.value;
    var t := " - " + c.description;
    AppendAssoc(c.name + h, " - ", c.description);
    AppendAssoc(c.name, h, t);
    assert ToString(c) == c.name + (h + t);
  }

  /** The record `genCommand` takes. */
  datatype CommandInfo = CommandInfo(name: string, args: Option<string>, desc: string,
                                     exec: Executor)

  /** `genCommand(info)`: a command named `info.name` (lower-cased), described by
      `info.desc`, with usage hint `info.args`, running `info.exec`. */
  function GenCommand(info: CommandInfo): (c: Command)
    ensures c.name == ToLower(info.name) && c.description == info.desc
    ensures c.args == info.args && c.executor == info.exec
    ensures ToString(c) == ToLower(info.name) +
                           (if NoArgs(info.args) then "" else " " + info.args.value) +
                           " - " + info.desc
  {
    NewCommand(info.name, info.desc, info.args, info.exec)
  }

  // ---------------------------------------------------------------------------------------
  // Registration

  /** The command table: an object keyed by command name. */
  type Table = map<string, Command>

  /** What a table of registered commands satisfies: every command sits under its own
      name. */
  ghost predicate KeyedByName(table: Table)
  {
    forall key :: key in table ==> table[key].name == key
  }

  /** `list[command.name] = command` for each command in turn: later commands replace
      earlier ones of the same name. */
  function Overlay(table: Table, cs: seq<Command>): Table
    decreases |cs|
  {
    if |cs| == 0 then table
    else
      var c := cs[|cs| - 1];
      Overlay(table, cs[..|cs| - 1])[c.name := c]
  }

  /** The last position of a command named `name`, or -1 when there is none. */
  function LastNamed(cs: seq<Command>, name: string): (k: int)
    ensures -1 <= k < |cs|
    ensures k >= 0 ==> cs[k].name == name
    ensures forall j :: k < j < |cs| ==> cs[j].name != name
    decreases |cs|
  {
    if |cs| == 0 then -1
    else if cs[|cs| - 1].name == name then |cs| - 1
    else LastNamed(cs[..|cs| - 1], name)
  }

  /** Looking a name up after registration finds the last command of that name, or, when no
      command has it, whatever the table held before. */
  lemma {:induction false} OverlayLookup(table: Table, cs: seq<Command>, name: string)
    ensures var k := LastNamed(cs, name);
            k >= 0 ==> name in Overlay(table, cs) && Overlay(table, cs)[name] == cs[k]
    ensures var k := LastNamed(cs, name);
            k < 0 ==> (name in Overlay(table, cs) <==> name in table) &&
                      (name in table ==> Overlay(table, cs)[name] == table[name])
    decreases |cs|
  {
    if |cs| > 0 {
      OverlayLookup(table, cs[..|cs| - 1], name);
    }
  }

  /** Registration keeps every command under its own name. */
  lemma {:induction false} OverlayKeyedByName(table: Table, cs: seq<Command>)
    requires KeyedByName(table)
    ensures KeyedByName(Overlay(table, cs))
    decreases |cs|
  {
    if |cs| > 0 {
      OverlayKeyedByName(table, cs[..|cs| - 1]);
    }
  }

  /** The key a registration is checked against. `hasOwnProperty(command)` converts the
      command to a property key through `toString`, so the check the code makes uses the
      help line; the check by name is the one a name-keyed table calls for. */
  datatype KeyRule = HelpLineKey | NameKey

  function CheckedKey(c: Command, rule: KeyRule): string
  {
    match rule
    case HelpLineKey => ToString(c)
    case NameKey => c.name
  }

  /** Whether `cs[k]` fails the check against the table as registration left it just
      before `cs[k]`. */
  predicate ClashesAt(table: Table, cs: seq<Command>, k: nat, rule: KeyRule)
    requires k < |cs|
  {
    CheckedKey(cs[k], rule) in Overlay(table, cs[..k])
  }

  /** The position of the first command that fails the check, if any. */
  function FirstClash(table: Table, cs: seq<Command>, rule: KeyRule): (r: Option<nat>)
    ensures r.Some? ==> r.value < |cs|
    decreases |cs|
  {
    if |cs| == 0 then None
    else
      var p := FirstClash(table, cs[..|cs| - 1], rule);
      if p.Some? then p
      else if CheckedKey(cs[|cs| - 1], rule) in Overlay(table, cs[..|cs| - 1]) then Some(|cs| - 1)
      else None
  }

  /** What `register(...commands)` leaves behind: the table (with every command before the
      one that threw registered) and the position of the command that threw, if one did. */
  datatype Outcome = Outcome(table: Table, threw: Option<nat>)

  function Registration(table: Table, cs: seq<Command>, rule: KeyRule): (r: Outcome)
    ensures r.threw.None? ==> r.table == Overlay(table, cs)
    ensures r.threw.Some? ==> r.threw.value < |cs| && r.table == Overlay(table, cs[..r.threw.value])
  {
    var p := FirstClash(table, cs, rule);
    if p.Some? then Outcome(Overlay(table, cs[..p.value]), p) else Outcome(Overlay(table, cs), None)
  }

  /** `register` as the code does it, checking each command's help line. */
  function RegisterAll(table: Table, cs: seq<Command>): Outcome
  {
    Registration(table, cs, HelpLineKey)
  }

  /** `register` checking each command's name, as a table keyed by name needs. */
  function RegisterAllByName(table: Table, cs: seq<Command>): Outcome
  {
    Registration(table, cs, NameKey)
  }

  /** A registration throws exactly when some command fails the check. */
  lemma NoClashIff(table: Table, cs: seq<Command>, rule: KeyRule)
    ensures FirstClash(table, cs, rule).None? <==>
              forall k :: 0 <= k < |cs| ==> !ClashesAt(table, cs, k, rule)
  {
    if FirstClash(table, cs, rule).None? {
      NoClashAllPass(table, cs, rule);
    } else {
      var k := FirstClash(table, cs, rule).value;
      FirstClashIsFirst(table, cs, rule);
      assert ClashesAt(table, cs, k, rule);
    }
  }

  /** When registration does not throw, every command passes the check. */
  lemma {:induction false} NoClashAllPass(table: Table, cs: seq<Command>, rule: KeyRule)
    requires FirstClash(table, cs, rule).None?
    ensures forall k :: 0 <= k < |cs| ==> !ClashesAt(table, cs, k, rule)
    decreases |cs|
  {
    if |cs| > 0 {
      var n := |cs| - 1;
      NoClashAllPass(table, cs[..n], rule);
      forall k | 0 <= k < n
        ensures !ClashesAt(table, cs, k, rule)
      {
        PrefixClashAt(table, cs, n, k, rule);
      }
    }
  }

  /** The command a registration throws at is the first one that fails the check. */
  lemma {:induction false} FirstClashIsFirst(table: Table, cs: seq<Command>, rule: KeyRule)
    requires FirstClash(table, cs, rule).Some?
    ensures var k := FirstClash(table, cs, rule).value;
            ClashesAt(table, cs, k, rule) &&
            forall j :: 0 <= j < k ==> !ClashesAt(table, cs, j, rule)
    decreases |cs|
  {
    var n := |cs| - 1;
    var init := cs[..n];
    var k := FirstClash(table, cs, rule).value;
    if FirstClash(table, init, rule).Some? {
      FirstClashIsFirst(table, init, rule);
      PrefixClashAt(table, cs, n, k, rule);
      forall j | 0 <= j < k
        ensures !ClashesAt(table, cs, j, rule)
      {
        PrefixClashAt(table, cs, n, j, rule);
      }
    } else {
      NoClashAllPass(table, init, rule);
      forall j | 0 <= j < k
        ensures !ClashesAt(table, cs, j, rule)
      {
        PrefixClashAt(table, cs, n, j, rule);
      }
    }
  }

  /** Whether a command fails the check does not depend on the commands after it. */
  lemma PrefixClashAt(table: Table, cs: seq<Command>, n: nat, k: nat, rule: KeyRule)
    requires k < n <= |cs|
    ensures ClashesAt(table, cs[..n], k, rule) == ClashesAt(table, cs, k, rule)
  {
    assert cs[..n][..k] == cs[..k] && cs[..n][k] == cs[k];
  }

  /** The code throws exactly when some command's help line is already a key of the table as
      registration has left it; the commands before it stay registered. */
  lemma RegisterThrowsIff(table: Table, cs: seq<Command>)
    ensures RegisterAll(table, cs).threw.Some? <==>
              exists k :: 0 <= k < |cs| && ToString(cs[k]) in Overlay(table, cs[..k])
    ensures RegisterAll(table, cs).threw.Some? ==>
              var k := RegisterAll(table, cs).threw.value;
              ToString(cs[k]) in Overlay(table, cs[..k]) &&
              RegisterAll(table, cs).table == Overlay(table, cs[..k]) &&
              forall j :: 0 <= j < k ==> cs[j].name in RegisterAll(table, cs).table
  {
    NoClashIff(table, cs, HelpLineKey);
    if RegisterAll(table, cs).threw.Some? {
      FirstClashIsFirst(table, cs, HelpLineKey);
    }
    var r := RegisterAll(table, cs);
    if r.threw.Some? {
      var k := r.threw.value;
      forall j | 0 <= j < k
        ensures cs[j].name in r.table
      {
        assert cs[..k][j] == cs[j];
        OverlayLookup(table, cs[..k], cs[j].name);
      }
    } else {
      forall k | 0 <= k < |cs|
        ensures ToString(cs[k]) !in Overlay(table, cs[..k])
      {
        assert !ClashesAt(table, cs, k, HelpLineKey);
      }
    }
  }

  /** After a registration that did not throw, each name maps to the last command of that
      name, and names no command has keep what the table held. */
  lemma RegisterLastWins(table: Table, cs: seq<Command>, name: string)
    requires RegisterAll(table, cs).threw.None?
    ensures var k := LastNamed(cs, name);
            var t := RegisterAll(table, cs).table;
            (k >= 0 ==> name in t && t[name] == cs[k]) &&
            (k < 0 ==> (name in t <==> name in table) && (name in table ==> t[name] == table[name]))
  {
    OverlayLookup(table, cs, name);
  }

  /** Checked by name, a registration that does not throw registers every command under its
      name and changes nothing that was registered before. */
  lemma RegisterByNameKeepsAll(table: Table, cs: seq<Command>)
    requires RegisterAllByName(table, cs).threw.None?
    ensures var t := RegisterAllByName(table, cs).table;
            (forall j :: 0 <= j < |cs| ==> cs[j].name in t && t[cs[j].name] == cs[j]) &&
            (forall key :: key in table ==> key in t && t[key] == table[key])
  {
    NoClashIff(table, cs, NameKey);
    var t := RegisterAllByName(table, cs).table;
    forall j | 0 <= j < |cs|
      ensures cs[j].name in t && t[cs[j].name] == cs[j]
    {
      var k := LastNamed(cs, cs[j].name);
      OverlayLookup(table, cs, cs[j].name);
      assert k >= j;
      NameCheckPassed(table, cs, k);
      assert k == j;
    }
    forall key | key in table
      ensures key in t && t[key] == table[key]
    {
      forall i | 0 <= i < |cs|
        ensures cs[i].name != key
      {
        NameCheckPassed(table, cs, i);
      }
      OverlayLookup(table, cs, key);
    }
  }

  /** A command that passes the check by name has a name that neither the table nor any
      earlier command has. */
  lemma NameCheckPassed(table: Table, cs: seq<Command>, j: nat)
    requires j < |cs| && !ClashesAt(table, cs, j, NameKey)
    ensures cs[j].name !in table
    ensures forall i :: 0 <= i < j ==> cs[i].name != cs[j].name
  {
    OverlayLookup(table, cs[..j], cs[j].name);
    assert forall i :: 0 <= i < j ==> cs[..j][i] == cs[i];
  }

  /** Checked by name, registering a second command under a taken name throws at that
      command. */
  lemma RegisterByNameRejectsDuplicate(table: Table, cs: seq<Command>, i: nat, j: nat)
    requires i < j < |cs| && cs[i].name == cs[j].name
    ensures RegisterAllByName(table, cs).threw.Some?
    ensures RegisterAllByName(table, cs).threw.value <= j
  {
    NoClashIff(table, cs, NameKey);
    assert cs[..j][i] == cs[i];
    OverlayLookup(table, cs[..j], cs[i].name);
    assert ClashesAt(table, cs, j, NameKey);
    FirstClashIsFirst(table, cs, NameKey);
  }

  /** Two commands named `help`, registered in one call: the code's help-line check lets the
      second through and it silently replaces the first, while the check by name throws at
      the second. */
  lemma DuplicateNameSlipsThrough()
    ensures var c1 := Command("help", "lists commands", None, Executor(0));
            var c2 := Command("help", "shows help", None, Executor(1));
            RegisterAll(map[], [c1, c2]) == Outcome(map["help" := c2], None) &&
            RegisterAllByName(map[], [c1, c2]) == Outcome(map["help" := c1], Some(1))
  {
    var c1 := Command("help", "lists commands", None, Executor(0));
    var c2 := Command("help", "shows help", None, Executor(1));
    var cs := [c1, c2];
    assert cs[..0] == [] && cs[..1] == [c1] && cs[..1][..0] == [];
    ToStringShape(c1);
    ToStringShape(c2);
    assert ToString(c1) != "help" && ToString(c2) != "help";
    assert Overlay(map[], [c1]) == map["help" := c1];
    assert FirstClash(map[], [c1], HelpLineKey) == None;
    assert FirstClash(map[], cs, HelpLineKey) == None;
    assert Overlay(map[], cs) == map["help" := c2];
    assert FirstClash(map[], [c1], NameKey) == None;
    assert FirstClash(map[], cs, NameKey) == Some(1);
  }

  // ---------------------------------------------------------------------------------------
  // Dispatch

  /** A call of a command's executor with the words after the first. */
  datatype Invocation = Invocation(executor: Executor, args: seq<string>)

  /** What `execute(input)` does with the table: split the line at every space, look the
      lower-cased first word up, and call the command found with the remaining words. The
      split always yields at least one word, so the empty-split branch of the code is never
      taken. */
  function Dispatch(table: Table, input: string): (r: Option<Invocation>)
    ensures var words := Split(input, ' ');
            |words| >= 1 && (r.Some? <==> ToLower(words[0]) in table)
    ensures r.Some? ==> r.value.args == Split(input, ' ')[1..] &&
                        r.value.executor == table[ToLower(Split(input, ' ')[0])].executor
  {
    var words := Split(input, ' ');
    var key := ToLower(words[0]);
    if key in table then Some(Invocation(table[key].executor, words[1..])) else None
  }

  /** A line made of a command word and argument words, none holding a space, runs the
      command the lower-cased word names with exactly those arguments; so the lookup ignores
      case. */
  lemma DispatchWords(table: Table, word: string, args: seq<string>)
    requires ' ' !in word
    requires forall i :: 0 <= i < |args| ==> ' ' !in args[i]
    ensures Dispatch(table, Join([word] + args, " ")) ==
            if ToLower(word) in table then Some(Invocation(table[ToLower(word)].executor, args))
            else None
  {
    var parts := [word] + args;
    assert forall i :: 0 <= i < |parts| ==> ' ' !in parts[i];
    JoinThenSplit(parts, ' ');
    assert parts[1..] == args;
  }

  /** The empty line is one empty word: it runs the command registered under "", if any,
      with no arguments. */
  lemma DispatchEmptyLine(table: Table)
    ensures Dispatch(table, "") ==
            if "" in table then Some(Invocation(table[""].executor, [])) else None
  {
    assert Split("", ' ') == [""];
  }

  // ---------------------------------------------------------------------------------------
  // The registry object

  /** A `CommandList`: the command table and, as a record, every executor call made. The
      server handle passed to each executor is the same for every call and is not kept. */
  class CommandList {
    var table: Table
    ghost var invocations: seq<Invocation>

    ghost predicate Valid()
      reads this
    {
      KeyedByName(table)
    }

    constructor ()
      ensures Valid() && table == map[] && invocations == []
    {
      table := map[];
      invocations := [];
    }

    /** `register(...commands)`: stores the commands under their names left to right,
        throwing, with the earlier ones kept, at the first command whose checked key is
        already in the table. With `HelpLineKey` this is the code as written; with `NameKey`
        it is the corrected check. */
    method Register(commands: seq<Command>, rule: KeyRule) returns (threw: bool)
      requires Valid()
      modifies this`table
      ensures Valid()
      ensures threw <==> Registration(old(table), commands, rule).threw.Some?
      ensures Outcome(table, if threw then Registration(old(table), commands, rule).threw else None) ==
              Registration(old(table), commands, rule)
    {
      ghost var start := table;
      var i := 0;
      while i < |commands|
        invariant 0 <= i <= |commands|
        invariant table == Overlay(start, commands[..i])
        invariant FirstClash(start, commands[..i], rule).None?
        invariant KeyedByName(table)
      {
        var command := commands[i];
        assert commands[..i + 1][..i] == commands[..i];
        if CheckedKey(command, rule) in table {
          assert FirstClash(start, commands[..i + 1], rule) == Some(i);
          ClashPersists(start, commands, i + 1, rule);
          assert Registration(start, commands, rule) == Outcome(table, Some(i));
          return true;
        }
        assert FirstClash(start, commands[..i + 1], rule).None?;
        table := table[command.name := command];
        i := i + 1;
      }
      assert commands[..i] == commands;
      assert Registration(start, commands, rule) == Outcome(table, None);
      return false;
    }

    /** `execute(input)`: runs the command the first word names, with the other words, and
        reports whether there was one; the table does not change. */
    method Execute(input: string) returns (ran: bool)
      modifies this`invocations
      ensures ran <==> Dispatch(table, input).Some?
      ensures invocations == old(invocations) + (if ran then [Dispatch(table, input).value] else [])
    {
      var words := Split(input, ' ');
      var key := ToLower(words[0]);
      if key !in table {
        return false;
      }
      invocations := invocations + [Invocation(table[key].executor, words[1..])];
      return true;
    }
  }

  /** Once a prefix of the commands throws, registering the whole sequence throws at the
      same command. */
  lemma {:induction false} ClashPersists(table: Table, cs: seq<Command>, n: nat, rule: KeyRule)
    requires n <= |cs| && FirstClash(table, cs[..n], rule).Some?
    ensures FirstClash(table, cs, rule) == FirstClash(table, cs[..n], rule)
    decreases |cs| - n
  {
    if n < |cs| {
      assert cs[..n + 1][..n] == cs[..n];
      ClashPersists(table, cs, n + 1, rule);
    } else {
      assert cs[..n] == cs;
    }
  }
}
