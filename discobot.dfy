/**
  The transport-free part of the generic bot base: the markup helpers, the parse and dispatch
  decision of `on_message`, help generation, the text of a failed command and the isolation of
  a failing handler.  The chat client itself (sending, reacting, logging in) is not modelled;
  handlers report what they would send or react with as a sequence of `Effect`s.
 */
module Discobot {
  import opened Wrappers
  import opened PyStr

  const BotName := "Discobot"
  const DefaultCommandPrefix := "+"
  /** The attribute-name prefix that marks a method as a command handler. */
  const CommandAttributePrefix := "command_"
  /** U+1F4A5, the reaction put on a message whose handler raised. */
  const CollisionEmoji := "\U{1F4A5}"
  /** U+1F641, the reaction `fail_command` adds. */
  const FrowningEmoji := "\U{1F641}"

  datatype User = User(id: int, mention: string)

  /** A conversation; `singlePeer` stands for the channel having a `recipient` attribute, which
      only one-to-one direct-message channels have. */
  datatype Channel = Channel(id: int, singlePeer: bool)

  datatype Message = Message(author: User, channel: Channel, content: string)

  /** What a handler asks the transport to do. */
  datatype Effect = Send(text: string) | React(emoji: string)

  // ------------------------------------------------------------ bold / spoiler

  /** The replacement `bold` writes for each `**` of the text. */
  const EscapedStars := "\\*\\*"
  /** The replacement `spoiler` writes for each `|` of the text. */
  const EscapedPipe := "\\|"

  /** Every pair of adjacent asterisks in `b` is preceded by a backslash. */
  predicate StarPairsEscaped(b: string)
  {
    forall i :: 0 <= i < |b| - 1 && b[i] == '*' && b[i + 1] == '*' ==> 0 < i && b[i - 1] == '\\'
  }

  /** Every pipe in `b` is preceded by a backslash. */
  predicate PipesEscaped(b: string)
  {
    forall i :: 0 <= i < |b| && b[i] == '|' ==> 0 < i && b[i - 1] == '\\'
  }

  /** `bold(text)`: the text between `**` markers, its own `**` runs escaped, so that the bold
      markup cannot be ended early; text without `**` is wrapped unchanged. */
  function Bold(text: string): (r: string)
    ensures |r| >= 4 && r[..2] == "**" && r[|r| - 2..] == "**"
    ensures r[2..|r| - 2] == Replace(text, "**", EscapedStars)
    ensures StarPairsEscaped(r[2..|r| - 2])
    ensures (forall i :: !OccursAt(text, "**", i)) ==> r == "**" + text + "**"
  {
    var body := Replace(text, "**", EscapedStars);
    EscapingLeavesNoBareStarPair(text);
    var r := "**" + body + "**";
    assert r[2..|r| - 2] == body;
    r
  }

  lemma {:induction false} EscapingLeavesNoBareStarPair(t: string)
    ensures StarPairsEscaped(Replace(t, "**", EscapedStars))
    decreases |t|
  {
    var b := Replace(t, "**", EscapedStars);
    if |t| < 2 {
    } else if t[..2] == "**" {
      var rest := Replace(t[2..], "**", EscapedStars);
      EscapingLeavesNoBareStarPair(t[2..]);
      assert b == EscapedStars + rest;
      forall i | 0 <= i < |b| - 1 && b[i] == '*' && b[i + 1] == '*'
        ensures 0 < i && b[i - 1] == '\\'
      {
        if i >= 4 {
          assert rest[i - 4] == '*' && rest[i - 3] == '*';
        }
      }
    } else {
      var rest := Replace(t[1..], "**", EscapedStars);
      EscapingLeavesNoBareStarPair(t[1..]);
      assert b == [t[0]] + rest;
      ReplaceHead(t[1..], "**", EscapedStars);
      forall i | 0 <= i < |b| - 1 && b[i] == '*' && b[i + 1] == '*'
        ensures 0 < i && b[i - 1] == '\\'
      {
        if i > 0 {
          assert rest[i - 1] == '*' && rest[i] == '*';
        }
      }
    }
  }

  /** Escaping `**` loses information: `**` and the already escaped `\*\*` come out the same,
      so a reader of the bold text cannot tell which of the two was meant. */
  lemma BoldIsNotInjective()
    ensures Bold("**") == Bold(EscapedStars)
  {
    assert Replace("**", "**", EscapedStars) == EscapedStars + Replace("", "**", EscapedStars);
    assert Replace("*", "**", EscapedStars) == "*";
    assert Replace("\\*", "**", EscapedStars) == "\\*";
    assert Replace("*\\*", "**", EscapedStars) == "*\\*";
    assert Replace(EscapedStars, "**", EscapedStars) == EscapedStars;
  }

  /** `spoiler(text)`: the text between `||` markers, each of its own pipes escaped. */
  function Spoiler(text: string): (r: string)
    ensures |r| >= 4 && r[..2] == "||" && r[|r| - 2..] == "||"
    ensures r[2..|r| - 2] == Replace(text, "|", EscapedPipe)
    ensures PipesEscaped(r[2..|r| - 2])
    ensures '|' !in text ==> r == "||" + text + "||"
  {
    var body := Replace(text, "|", EscapedPipe);
    EscapingLeavesNoBarePipe(text);
    var r := "||" + body + "||";
    assert r[2..|r| - 2] == body;
    r
  }

  lemma {:induction false} EscapingLeavesNoBarePipe(t: string)
    ensures PipesEscaped(Replace(t, "|", EscapedPipe))
    decreases |t|
  {
    var b := Replace(t, "|", EscapedPipe);
    if t == [] {
    } else if t[..1] == "|" {
      var rest := Replace(t[1..], "|", EscapedPipe);
      EscapingLeavesNoBarePipe(t[1..]);
      assert b == EscapedPipe + rest;
      forall i | 0 <= i < |b| && b[i] == '|' ensures 0 < i && b[i - 1] == '\\' {
        if i >= 2 {
          assert rest[i - 2] == '|';
        }
      }
    } else {
      var rest := Replace(t[1..], "|", EscapedPipe);
      EscapingLeavesNoBarePipe(t[1..]);
      assert b == [t[0]] + rest;
      assert t[0] != '|' by {
        assert t[..1] == [t[0]];
      }
      forall i | 0 <= i < |b| && b[i] == '|' ensures 0 < i && b[i - 1] == '\\' {
        if i > 0 {
          assert rest[i - 1] == '|';
        }
      }
    }
  }

  /** The pipe escaping of `spoiler` can be undone: replacing each `\|` of the escaped text by
      `|` gives back the original text, whatever backslashes and pipes it held. */
  lemma {:induction false} SpoilerEscapingRoundTrip(t: string)
    ensures Replace(Replace(t, "|", EscapedPipe), EscapedPipe, "|") == t
    decreases |t|
  {
    var b := Replace(t, "|", EscapedPipe);
    if t == [] {
    } else if t[..1] == "|" {
      var rest := Replace(t[1..], "|", EscapedPipe);
      assert b == EscapedPipe + rest;
      assert b[..2] == EscapedPipe && b[2..] == rest;
      SpoilerEscapingRoundTrip(t[1..]);
      assert t == "|" + t[1..];
    } else {
      var rest := Replace(t[1..], "|", EscapedPipe);
      assert b == [t[0]] + rest;
      assert t[0] != '|' by {
        assert t[..1] == [t[0]];
      }
      SpoilerEscapingRoundTrip(t[1..]);
      if |b| >= 2 {
        ReplaceHead(t[1..], "|", EscapedPipe);
        assert rest[0] != '|' by {
          if StartsWith(t[1..], "|") {
          } else {
            assert rest[0] == t[1..][0];
            assert t[1..][..1] == [t[1..][0]];
          }
        }
        assert b[1] == rest[0];
        assert b[..2] != EscapedPipe;
        assert b[1..] == rest;
      }
      assert t == [t[0]] + t[1..];
    }
  }

  /** `maybe_spoiler(text, channel)`: masked in a shared channel, plain in a direct message. */
  function MaybeSpoiler(text: string, channel: Channel): (r: string)
    ensures channel.singlePeer ==> r == text
    ensures !channel.singlePeer ==> r == Spoiler(text)
  {
    if channel.singlePeer then text else Spoiler(text)
  }

  // ------------------------------------------------------- quotes, fixed width

  /** `quote(line)`: a one-line block quote. */
  function Quote(line: string): (r: string)
    ensures StartsWith(r, "> ") && r[2..] == line
  {
    "> " + line
  }

  /** `quote_all(text)`: a block quote that runs to the end of the message. */
  function QuoteAll(text: string): (r: string)
    ensures StartsWith(r, ">>> ") && r[4..] == text
  {
    ">>> " + text
  }

  /** `fixed_width(text)`: inline code, delimited by one backtick, or by two when the text itself
      holds a backtick. */
  function FixedWidth(text: string): (r: string)
    ensures '`' !in text ==> r == "`" + text + "`"
    ensures '`' in text ==> r == "``" + text + "``"
  {
    var tick := if '`' in text then "``" else "`";
    tick + text + tick
  }

  /** Text without a backtick: the only backticks of its inline code are the two delimiters. */
  lemma FixedWidthDelimitersOnly(text: string)
    requires '`' !in text
    ensures var r := FixedWidth(text);
            forall k :: 0 <= k < |r| ==> (r[k] == '`' <==> k == 0 || k == |r| - 1)
  {
    var r := FixedWidth(text);
    forall k | 0 < k < |r| - 1 ensures r[k] != '`' {
      assert r[k] == text[k - 1];
    }
  }

  /** The case the double delimiter does not cover: text holding two adjacent backticks puts the
      double delimiter inside the inline code as well. */
  lemma FixedWidthDoubleTickCollides(text: string, i: int)
    requires OccursAt(text, "``", i)
    ensures var r := FixedWidth(text);
            r[..2] == "``" && OccursAt(r, "``", i + 2) && 2 <= i + 2 <= |r| - 4
  {
    assert text[i] == text[i..i + 2][0];
    var r := FixedWidth(text);
    assert r == "``" + text + "``";
    assert r[i + 2..i + 4] == text[i..i + 2];
  }

  // ------------------------------------------------------------------ parsing

  /** A command name and the rest of the line, as `on_message` splits them. */
  datatype Invocation = Invocation(name: string, rest: string)

  /** The parse in `on_message`: nothing unless the content starts with the prefix; otherwise the
      unprefixed text, stripped, is partitioned at its first space and both halves are stripped. */
  function ParseCommand(prefix: string, content: string): (r: Option<Invocation>)
    ensures r.None? <==> !StartsWith(content, prefix)
    ensures r.Some? ==> ' ' !in r.value.name
    ensures r.Some? ==> Strip(r.value.name) == r.value.name && Strip(r.value.rest) == r.value.rest
  {
    if !StartsWith(content, prefix) then None
    else
      var parts := Partition(Strip(content[|prefix|..]), ' ');
      StripKeepsCharOut(parts.head, ' ');
      StripIdempotent(parts.head);
      StripIdempotent(parts.tail);
      Some(Invocation(Strip(parts.head), Strip(parts.tail)))
  }

  /** `strip()` only removes characters. */
  lemma StripKeepsCharOut(s: string, c: char)
    requires c !in s
    ensures c !in Strip(s)
  {
    var t := Strip(s);
    var i := SkipSpace(s, 0);
    forall k | 0 <= k < |t| ensures t[k] != c {
      assert t[k] == s[i + k];
    }
  }

  /** A whitespace-free name written after the prefix, with or without a rest, parses back to
      that name and rest. */
  lemma ParseRendered(prefix: string, name: string, rest: string)
    requires name != [] && forall k :: 0 <= k < |name| ==> !IsSpace(name[k])
    requires rest != [] ==> !IsSpace(rest[0]) && !IsSpace(rest[|rest| - 1])
    ensures ParseCommand(prefix, prefix + name + " " + rest) == Some(Invocation(name, rest))
    ensures ParseCommand(prefix, prefix + name) == Some(Invocation(name, ""))
  {
    assert ' ' !in name by {
      assert IsSpace(' ');
    }
    ParseWithRest(prefix, name, rest);
    ParseNameOnly(prefix, name);
  }

  lemma ParseWithRest(prefix: string, name: string, rest: string)
    requires name != [] && !IsSpace(name[0]) && !IsSpace(name[|name| - 1]) && ' ' !in name
    requires rest != [] ==> !IsSpace(rest[0]) && !IsSpace(rest[|rest| - 1])
    ensures ParseCommand(prefix, prefix + name + " " + rest) == Some(Invocation(name, rest))
  {
    var body := name + " " + rest;
    assert prefix + name + " " + rest == prefix + body;
    ParseUnprefixed(prefix, body);
    SplitRendered(name, rest);
    StripNoEnds(name);
    StripNoEnds(rest);
  }

  lemma ParseNameOnly(prefix: string, name: string)
    requires name != [] && !IsSpace(name[0]) && !IsSpace(name[|name| - 1]) && ' ' !in name
    ensures ParseCommand(prefix, prefix + name) == Some(Invocation(name, ""))
  {
    StripNoEnds(name);
    ParseUnprefixed(prefix, name);
    assert Partition(name, ' ') == Parts(name, "", "");
  }

  /** What `ParseCommand` makes of the prefix followed by `body`. */
  lemma ParseUnprefixed(prefix: string, body: string)
    ensures var p := Partition(Strip(body), ' ');
            ParseCommand(prefix, prefix + body) == Some(Invocation(Strip(p.head), Strip(p.tail)))
  {
    assert (prefix + body)[|prefix|..] == body;
  }

  lemma SplitRendered(name: string, rest: string)
    requires name != [] && !IsSpace(name[0]) && !IsSpace(name[|name| - 1]) && ' ' !in name
    requires rest != [] ==> !IsSpace(rest[0]) && !IsSpace(rest[|rest| - 1])
    ensures Partition(Strip(name + " " + rest), ' ') == Parts(name, if rest == [] then "" else " ", rest)
  {
    if rest == [] {
      assert name + " " + rest == name + " ";
      StripDropsTrailingSpace(name);
    } else {
      var body := name + " " + rest;
      assert body[0] == name[0] && body[|body| - 1] == rest[|rest| - 1];
      StripNoEnds(body);
      PartitionAtFirst(name, ' ', rest);
    }
  }

  lemma StripDropsTrailingSpace(name: string)
    requires name != [] && !IsSpace(name[0]) && !IsSpace(name[|name| - 1])
    ensures Strip(name + " ") == name
  {
    var s := name + " ";
    assert IsSpace(' ');
    assert SkipSpace(s, 0) == 0;
    assert TrimEnd(s, 0, |s|) == TrimEnd(s, 0, |name|) == |name|;
    assert s[0..|name|] == name;
  }

  /** The partition of a string splits at a separator that follows a separator-free head. */
  lemma PartitionAtFirst(head: string, sep: char, tail: string)
    requires sep !in head
    ensures Partition(head + [sep] + tail, sep) == Parts(head, [sep], tail)
  {
    var s := head + [sep] + tail;
    var j := FindChar(s, sep, 0);
    assert s[|head|] == sep;
    assert s[..j] == head && s[j + 1..] == tail;
  }

  // ------------------------------------------------------------ command table

  /** One attribute whose name starts with `command_`: its name without that prefix, its
      documentation string, if any, and whether it is an `async` handler taking the message and
      the rest of the line. Only handlers are listed in the help, and calling an attribute that
      is not one raises. */
  datatype CommandEntry = CommandEntry(name: string, doc: Option<string>, handler: bool)

  /** The attribute `getattr` finds under `command_` + `name`, if any. */
  function Lookup(table: seq<CommandEntry>, name: string): (r: Option<CommandEntry>)
    ensures r.Some? <==> exists k :: 0 <= k < |table| && table[k].name == name
    ensures r.Some? ==> r.value in table && r.value.name == name
  {
    if table == [] then None
    else if table[0].name == name then Some(table[0])
    else
      var r := Lookup(table[1..], name);
      assert forall k :: 1 <= k < |table| ==> table[k] == table[1..][k - 1];
      r
  }

  /** Where `on_message` sends a message. */
  datatype Route = Ignored | Unrecognized(inv: Invocation) | Dispatch(inv: Invocation)

  /** The decision of `on_message`: the bot's own messages and messages without the prefix are
      ignored; otherwise the parsed name selects a table entry, or the no-op fallback. */
  function RouteMessage(bot: User, prefix: string, table: seq<CommandEntry>, msg: Message): (r: Route)
    ensures r.Ignored? <==> msg.author == bot || !StartsWith(msg.content, prefix)
    ensures r.Dispatch? ==> Lookup(table, r.inv.name).Some?
    ensures r.Unrecognized? ==> Lookup(table, r.inv.name).None?
    ensures !r.Ignored? ==> ParseCommand(prefix, msg.content) == Some(r.inv)
  {
    if msg.author == bot then Ignored
    else match ParseCommand(prefix, msg.content)
      case None => Ignored
      case Some(inv) =>
        if Lookup(table, inv.name).Some? then Dispatch(inv) else Unrecognized(inv)
  }

  // ------------------------------------------------------------------- help

  function AttributeName(name: string): string
  {
    CommandAttributePrefix + name
  }

  /** `command_from_attribute_name`: the attribute name without `command_`, behind the prefix. */
  function CommandFromAttributeName(prefix: string, attrName: string): (r: string)
    requires StartsWith(attrName, CommandAttributePrefix)
    ensures StartsWith(r, prefix) && AttributeName(r[|prefix|..]) == attrName
  {
    var r := prefix + attrName[|CommandAttributePrefix|..];
    assert r[|prefix|..] == attrName[|CommandAttributePrefix|..];
    r
  }

  /** `format_command_help`: one quoted help line, the command in fixed width before its text. */
  function FormatCommandHelp(name: string, doc: string): (r: string)
    ensures StartsWith(r, "> " + FixedWidth(name) + " ") && r[|FixedWidth(name)| + 3..] == doc
  {
    var r := Quote(FixedWidth(name) + " " + doc);
    assert r == "> " + FixedWidth(name) + " " + doc;
    r
  }

  /** An entry is listed in the help when it is a handler whose documentation is present and
      not empty. */
  predicate Documented(e: CommandEntry)
  {
    e.handler && e.doc.Some? && e.doc.value != ""
  }

  function DocumentedOnly(entries: seq<CommandEntry>): (r: seq<CommandEntry>)
    ensures forall e :: e in r <==> e in entries && Documented(e)
  {
    if entries == [] then []
    else (if Documented(entries[0]) then [entries[0]] else []) + DocumentedOnly(entries[1..])
  }

  function HelpLine(prefix: string, e: CommandEntry): string
    requires Documented(e)
  {
    FormatCommandHelp(CommandFromAttributeName(prefix, AttributeName(e.name)), e.doc.value)
  }

  /** The command lines of the help, one per documented entry, in the order given. */
  function HelpLines(prefix: string, entries: seq<CommandEntry>): seq<string>
  {
    var d := DocumentedOnly(entries);
    seq(|d|, i requires 0 <= i < |d| => HelpLine(prefix, d[i]))
  }

  /** `Discobot v<version>`, or `Discobot dev` when no version is set or it is empty. */
  function VersionStatement(version: Option<string>): (r: string)
    ensures StartsWith(r, Bold(BotName) + " ")
    ensures r[|Bold(BotName)| + 1..] == if version.Some? && version.value != "" then "v" + version.value else "dev"
  {
    Bold(BotName) + " " + (if version.Some? && version.value != "" then "v" + version.value else "dev")
  }

  /** `get_formatted_help`: the version statement, then the help lines of the documented handlers
      in the sorted order of their attribute names, one per line. */
  function GetFormattedHelp(version: Option<string>, prefix: string, table: seq<CommandEntry>): (r: string)
    ensures var banner := VersionStatement(version);
            && StartsWith(r, banner + "\n")
            && r[|banner| + 1..] == Join("\n", HelpLines(prefix, SortByName(table)))
  {
    var banner := VersionStatement(version);
    var r := banner + "\n" + Join("\n", HelpLines(prefix, SortByName(table)));
    assert r[..|banner| + 1] == banner + "\n";
    r
  }

  // ---------------------------------------------------------------- sorting

  predicate SortedByName(s: seq<CommandEntry>)
  {
    forall i, j :: 0 <= i < j < |s| ==> Le(s[i].name, s[j].name)
  }

  function InsertByName(e: CommandEntry, s: seq<CommandEntry>): (r: seq<CommandEntry>)
    requires SortedByName(s)
    ensures SortedByName(r)
    ensures multiset(r) == multiset(s) + multiset{e}
  {
    if s == [] then [e]
    else if Le(e.name, s[0].name) then
      forall j | 0 <= j < |s| ensures Le(e.name, s[j].name) {
        if j > 0 {
          LeTransitive(e.name, s[0].name, s[j].name);
        }
      }
      ConsSorted(e, s);
      [e] + s
    else
      var tail := InsertByName(e, s[1..]);
      assert s == [s[0]] + s[1..];
      forall j | 0 <= j < |tail| ensures Le(s[0].name, tail[j].name) {
        assert tail[j] in multiset(tail);
        if tail[j] == e {
          LeTotal(e.name, s[0].name);
        } else {
          assert tail[j] in multiset(s[1..]);
          var k :| 0 <= k < |s[1..]| && s[1..][k] == tail[j];
          assert s[k + 1] == tail[j];
        }
      }
      ConsSorted(s[0], tail);
      [s[0]] + tail
  }

  lemma ConsSorted(x: CommandEntry, s: seq<CommandEntry>)
    requires SortedByName(s)
    requires forall j :: 0 <= j < |s| ==> Le(x.name, s[j].name)
    ensures SortedByName([x] + s)
  {
    forall i, j | 0 <= i < j < |[x] + s| ensures Le(([x] + s)[i].name, ([x] + s)[j].name) {
      if i > 0 {
        assert ([x] + s)[i] == s[i - 1];
      }
      assert ([x] + s)[j] == s[j - 1];
    }
  }

  /** The order of `dir()` on the handler names: sorted, and the same entries. */
  function SortByName(s: seq<CommandEntry>): (r: seq<CommandEntry>)
    ensures SortedByName(r)
    ensures multiset(r) == multiset(s)
  {
    if s == [] then []
    else
      assert s == [s[0]] + s[1..];
      InsertByName(s[0], SortByName(s[1..]))
  }

  /** Entries sorted by name are sorted by attribute name too, the order `dir()` lists. */
  lemma SortedByAttributeName(s: seq<CommandEntry>)
    requires SortedByName(s)
    ensures forall i, j :: 0 <= i < j < |s| ==> Le(AttributeName(s[i].name), AttributeName(s[j].name))
  {
    forall i, j | 0 <= i < j < |s| ensures Le(AttributeName(s[i].name), AttributeName(s[j].name)) {
      LeCommonPrefix(CommandAttributePrefix, s[i].name, s[j].name);
    }
  }

  lemma {:induction false} DocumentedOnlyKeepsOrder(s: seq<CommandEntry>)
    requires SortedByName(s)
    ensures SortedByName(DocumentedOnly(s))
  {
    if s != [] {
      DocumentedOnlyKeepsOrder(s[1..]);
      var rest := DocumentedOnly(s[1..]);
      forall j | 0 <= j < |rest| ensures Le(s[0].name, rest[j].name) {
        assert rest[j] in s[1..];
      }
    }
  }

  lemma {:induction false} DocumentedOnlyCounts(s: seq<CommandEntry>, e: CommandEntry)
    ensures multiset(DocumentedOnly(s))[e] == if Documented(e) then multiset(s)[e] else 0
  {
    if s != [] {
      DocumentedOnlyCounts(s[1..], e);
      assert s == [s[0]] + s[1..];
    }
  }

  /** The help lists exactly the documented handlers, each once per registration, in the sorted
      order of their attribute names; undocumented handlers are left out. */
  lemma HelpListing(prefix: string, table: seq<CommandEntry>)
    ensures var d := DocumentedOnly(SortByName(table));
            && HelpLines(prefix, SortByName(table)) == seq(|d|, i requires 0 <= i < |d| => HelpLine(prefix, d[i]))
            && multiset(d) == multiset(DocumentedOnly(table))
            && (forall e :: e in d <==> e in table && Documented(e))
            && (forall i, j :: 0 <= i < j < |d| ==> Le(AttributeName(d[i].name), AttributeName(d[j].name)))
  {
    var sorted := SortByName(table);
    var d := DocumentedOnly(sorted);
    DocumentedOnlyKeepsOrder(sorted);
    SortedByAttributeName(d);
    forall e ensures multiset(d)[e] == multiset(DocumentedOnly(table))[e] {
      DocumentedOnlyCounts(sorted, e);
      DocumentedOnlyCounts(table, e);
    }
    assert forall e :: e in sorted <==> e in table by {
      forall e ensures e in sorted <==> e in table {
        assert e in sorted <==> e in multiset(sorted);
        assert e in table <==> e in multiset(table);
      }
    }
  }

  // ---------------------------------------------------------- failure paths

  /** The text `fail_command` sends: in a shared channel, behind the author's mention. */
  function FailText(msg: Message, result: string): (r: string)
    ensures |r| >= |result| && r[|r| - |result|..] == result
    ensures msg.channel.singlePeer <==> r == result
    ensures !msg.channel.singlePeer ==> StartsWith(r, msg.author.mention + ": ")
    ensures !msg.channel.singlePeer ==> r == msg.author.mention + ": " + result
  {
    if !msg.channel.singlePeer then
      var r := msg.author.mention + ": " + result;
      assert r[|r| - |result|..] == result;
      r
    else result
  }

  /** `fail_command`: the failure text, then the frowning reaction. */
  function FailCommand(msg: Message, result: string): seq<Effect>
  {
    [Send(FailText(msg, result)), React(FrowningEmoji)]
  }

  /** How a handler ended: it completed, or it raised after doing `sent`. */
  datatype HandlerResult = Completed(effects: seq<Effect>) | Raised(sent: seq<Effect>)

  /** The `try`/`except` around a handler: what it did stays done, and a handler that raised is
      marked with the collision reaction instead of ending `on_message`. */
  function Isolate(result: HandlerResult): (r: seq<Effect>)
    ensures result.Completed? ==> r == result.effects
    ensures result.Raised? ==> (|r| == |result.sent| + 1 && r[..|result.sent|] == result.sent
                                && r[|r| - 1] == React(CollisionEmoji))
  {
    match result
    case Completed(effects) => effects
    case Raised(sent) => sent + [React(CollisionEmoji)]
  }
}
