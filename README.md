# shufflebot in Dafny

A model of shufflebot, a chat bot that keeps one deck of playing cards per channel, and of
the small bot base it is built on. Users type commands such as `+draw`, `+shuffle`,
`+reset`, `+scandeck` and `+help` in a channel. The bot parses each message, sends the
command to its handler and answers with a message or a reaction emoji.

The project has three files:

- `pystr.dfy` holds module `Wrappers` (an `Option` type) and module `PyStr`. `PyStr` models
  the Python `str` operations the bot depends on:
  - `isspace` and `strip`;
  - `partition(" ")`;
  - `replace`;
  - `join`;
  - the code-point order of `str`, which is how `dir()` sorts names;
  - `str()` of a non-negative integer.
- `discobot.dfy` holds module `Discobot`, the transport-free part of `BotBase`:
  - the markup helpers (`bold`, `spoiler`, `maybe_spoiler`, `quote`, `quote_all`,
    `fixed_width`);
  - the parse and dispatch decision of `on_message`;
  - help generation over an explicit command table;
  - the text `fail_command` sends;
  - the `try`/`except` that marks a failed handler with 💥.
  The module stays pure, since nothing in it changes after construction. A handler's output
  is a sequence of `Effect`s (`Send(text)` or `React(emoji)`).
- `shufflebot.dfy` holds module `Shufflebot`:
  - `Card` and the built-in 52-card `PokerCards`;
  - `format_card_message`;
  - class `CardStack`, whose methods reassign its `cards` field;
  - class `ShuffleBot`, whose `channels` map from channel id to `CardStack` grows lazily in
    `GetCards`;
  - the four deck command handlers, and `OnMessage`, which routes a message to them.

The stack methods are proved against pure specification functions. One `Draw` matches one
step of `TakeTop`. `DrawRepeatedly` chains `TakeTop` steps over a sequence of cards, and its
lemmas describe what a series of draws takes out and leaves; no method contract covers a
series of `Draw` calls itself. `Shuffle` keeps the same multiset of cards. Every bot
method states what happens to the channel a message came from, and states that every other
channel's stack and cards stay as they were (`OthersUnchanged`).

Where the code and its description differ, the model follows the code:

- `on_message` splits the command name from the rest at the FIRST SPACE character, using
  `partition(" ")`. It does not split at the first run of whitespace. So `+draw\tx` names
  the command `draw\tx`.
- `strip()` removes exactly the code points for which Python's `str.isspace` holds.

## Model

| member | source | states |
|---|---|---|
| PyStr.Strip | discobot.py:30 | `strip()` gives the slice of `s` between its leading and trailing whitespace (Python's `isspace` set); that slice has no whitespace at either end, and it is empty exactly when `s` is all whitespace |
| PyStr.StripNoEnds | discobot.py:30 | a string with no whitespace at either end is its own `strip()` |
| PyStr.StripIdempotent | discobot.py:30 | stripping the name or the rest a second time changes nothing |
| PyStr.Partition | discobot.py:30 | `partition(sep)` splits at the first `sep`: the head holds no `sep`, and head + sep + tail gives back the string; with no `sep`, the whole string is the head and the other parts are empty |
| PyStr.Replace | discobot.py:86 | `replace` leaves a string with no occurrence of the pattern unchanged and never empties a non-empty string when the replacement is non-empty |
| PyStr.ReplaceHead | discobot.py:91 | the first character after `replace` is the replacement's when the string starts with the pattern, and the string's own otherwise |
| PyStr.Join | discobot.py:58 | joining no parts gives the empty string, and joining one part gives that part |
| PyStr.JoinAppend | discobot.py:58 | joining one more part appends the separator and that part |
| PyStr.LeReflexive | discobot.py:48 | the `str` order that sorts `dir()` is reflexive |
| PyStr.LeTotal | discobot.py:48 | any two names are comparable |
| PyStr.LeAntisymmetric | discobot.py:48 | two names that sort each before the other are equal |
| PyStr.LeTransitive | discobot.py:48 | the order is transitive |
| PyStr.LeCommonPrefix | discobot.py:48-49 | names with the common prefix `command_` sort as their remainders do |
| PyStr.NatToDecimal | shufflebot.py:57 | `str(n)` is a non-empty string of decimal digits with no leading zero that denotes `n` |
| Discobot.Bold | discobot.py:85-87 | the text between `**` markers with every `**` replaced left to right by `\*\*`; no pair of bare asterisks is left inside; text without `**` is wrapped unchanged |
| Discobot.EscapingLeavesNoBareStarPair | discobot.py:86 | after escaping, every adjacent pair of asterisks is preceded by a backslash |
| Discobot.BoldIsNotInjective | discobot.py:86-87 | `bold("**")` and `bold("\*\*")` give the same text |
| Discobot.Spoiler | discobot.py:90-92 | the text between double-pipe markers with every pipe replaced by a backslash and a pipe; no bare pipe is left inside; text without a pipe is wrapped unchanged |
| Discobot.EscapingLeavesNoBarePipe | discobot.py:91 | after escaping, every pipe is preceded by a backslash |
| Discobot.SpoilerEscapingRoundTrip | discobot.py:91 | replacing each backslash-pipe of the escaped text by a pipe gives back the original text |
| Discobot.MaybeSpoiler | discobot.py:95-99 | the text unchanged in a single-peer channel, and its spoiler otherwise |
| Discobot.Quote | discobot.py:102-103 | `"> "` followed by the line |
| Discobot.QuoteAll | discobot.py:106-107 | `">>> "` followed by the text |
| Discobot.FixedWidth | discobot.py:110-117 | one backtick on each side when the text has no backtick, two otherwise |
| Discobot.FixedWidthDelimitersOnly | discobot.py:110-117 | for text without a backtick, the only backticks of the result are its first and last characters |
| Discobot.FixedWidthDoubleTickCollides | discobot.py:114-117 | text holding two adjacent backticks puts the double delimiter inside the code as well |
| Discobot.ParseCommand | discobot.py:26-30 | no command exactly when the content lacks the prefix; otherwise the name holds no space, and name and rest are both stripped |
| Discobot.ParseUnprefixed | discobot.py:29-30 | for content made of the prefix and a body: the name is the stripped text before the first space of the stripped body, and the rest is the stripped text after that space |
| Discobot.ParseRendered | discobot.py:29-30 | prefix + name + `" "` + rest parses back to that name and rest, and prefix + name alone to that name with an empty rest, for a whitespace-free name and a rest with no whitespace at either end |
| Discobot.Lookup | discobot.py:31 | finds an entry exactly when the table has one under that name, and the one found has that name |
| Discobot.RouteMessage | discobot.py:22-31 | ignored exactly when the author is the bot or the prefix is missing; otherwise the parsed name goes to the table entry of that name, or to the no-op fallback when there is none |
| Discobot.CommandFromAttributeName | discobot.py:60-63 | the command prefix, then the attribute name with `command_` removed |
| Discobot.FormatCommandHelp | discobot.py:65-66 | a quoted line: the name in fixed width, a space, then the documentation |
| Discobot.DocumentedOnly | discobot.py:51-55 | keeps exactly the entries that are `async` handlers and whose documentation is present and non-empty |
| Discobot.VersionStatement | discobot.py:43-44 | bold `Discobot`, a space, then `v<version>`, or `dev` when no version is set or it is empty |
| Discobot.GetFormattedHelp | discobot.py:42-58 | the version statement, a newline, then the help lines of the documented handlers in `dir()` order, joined by newlines |
| Discobot.InsertByName | discobot.py:48 | inserting into a list sorted by name keeps it sorted and adds exactly that entry |
| Discobot.SortByName | discobot.py:48 | the sorted order of `dir()`: sorted by name, with the same entries |
| Discobot.SortedByAttributeName | discobot.py:48-49 | entries sorted by command name are also sorted by attribute name |
| Discobot.DocumentedOnlyKeepsOrder | discobot.py:51-55 | dropping the undocumented entries keeps the list sorted |
| Discobot.DocumentedOnlyCounts | discobot.py:51-55 | each documented entry is kept as often as it occurs, and each undocumented one is dropped |
| Discobot.HelpListing | discobot.py:42-58 | the help has one line per documented handler, in sorted order of attribute names; undocumented handlers are left out |
| Discobot.FailText | discobot.py:78-81 | in a channel that is not single-peer, the author's mention, `": "`, then the result; in a single-peer channel, the result alone |
| Discobot.Isolate | discobot.py:32-37 | a completed handler's effects are kept; a handler that raised keeps what it already did, followed by the 💥 reaction |
| Shufflebot.SuitCards | shufflebot.py:33-37 | one suit's cards, rank by rank, each named rank + suit, with no description |
| Shufflebot.SuitMajorDeck | shufflebot.py:33-37 | the comprehension yields the number of suits times the number of ranks cards, none with a description |
| Shufflebot.SuitMajorDeckAt | shufflebot.py:33-37 | the card of suit `s` and rank `k` sits at index `s` times the number of ranks plus `k`, and is named rank + suit |
| Shufflebot.PokerCardsLayout | shufflebot.py:31-37 | 52 cards of 13 ranks × 4 suits in suit-major order, from `A♣` to `K♠`, none with a description |
| Shufflebot.PokerCardsEnds | shufflebot.py:31-37 | 52 cards, the first `A♣` and the last `K♠`, neither with a description |
| Shufflebot.PokerCardsAt | shufflebot.py:31-37 | 52 cards; the card of suit `s` and rank `k` sits at index 13 `s` + `k` |
| Shufflebot.FormatCardMessage | shufflebot.py:88-92 | the name alone when there is no description; otherwise the quoted name, a newline, and the description as a block quote |
| Shufflebot.PokerCardMessagesAreNames | shufflebot.py:33-92 | a drawn poker card is announced by its bare name |
| Shufflebot.TakeTop | shufflebot.py:24-28 | an empty stack yields nothing and stays empty; otherwise the first card comes out, the rest stays in order, and the length drops by one |
| Shufflebot.DrawsInOrder | shufflebot.py:24-28 | `n` draws return the cards front to back, then nothing; what is left is the stack without the drawn cards |
| Shufflebot.DrawnOut | shufflebot.py:18-28 | drawing a stack of `n` cards `n` or more times returns all its cards in order, then only nothing, and leaves it empty |
| Shufflebot.ShuffleBotRegistry | discobot.py:15-63 | `getattr` finds exactly `help`, the four deck commands of shufflebot.py, `prefix` (the attribute `command_prefix`) and `from_attribute_name`; every other name goes to the no-op fallback |
| Shufflebot.ShuffleBotHandlers | discobot.py:15-63 | of the attributes found, `help` and the four deck commands are `async` handlers; `prefix` and `from_attribute_name` are not, so calling them raises |
| Shufflebot.ShuffleBotDocumented | shufflebot.py:52-85 | the help lists the four deck commands; it leaves out `help`, which has no documentation, and `prefix` and `from_attribute_name`, which are not handlers |
| Shufflebot.CardStack.FromTemplate | shufflebot.py:13-28 | a stack never holds more cards than its template, and only cards from it |
| Shufflebot.CardStack.constructor | shufflebot.py:14-16 | the template is kept, and the cards equal it element for element |
| Shufflebot.CardStack.Reset | shufflebot.py:18-19 | the cards become the template again; the template never changes |
| Shufflebot.CardStack.Shuffle | shufflebot.py:21-22 | the cards are a permutation of what they were: same multiset, same length |
| Shufflebot.CardStack.Draw | shufflebot.py:24-28 | the card returned and the cards left are what `TakeTop` of the old cards gives; a card drawn comes from the template |
| Shufflebot.CardNames | shufflebot.py:55 | the names of the cards, one for each card, in order |
| Shufflebot.ScanReply | shufflebot.py:56-59 | the card count in decimal, `" cards in the deck: "`, then the names joined by `", "`, spoilered in a shared channel |
| Shufflebot.DrawReply | shufflebot.py:77-85 | the no-cards text when nothing was drawn; the card's message in a single-peer channel; otherwise the author's mention, `" drew "` and the card's message behind a spoiler |
| Shufflebot.DrawReplyMasksCard | shufflebot.py:78-85 | in a shared channel the drawn card is announced after the author's mention inside a spoiler, and undoing the spoiler's escaping gives back the card's text |
| Shufflebot.ScanReplyCount | shufflebot.py:52-59 | the `scandeck` reply starts with a count that reads back as the number of cards in the stack |
| Shufflebot.ShuffleBot.constructor | shufflebot.py:41-43 | no channel has a stack yet, and the template for new stacks is the poker deck |
| Shufflebot.ShuffleBot.CardsFromDeck | shufflebot.py:45-85 | the cards a command in any channel finds are no more than the deck holds, and all from the deck |
| Shufflebot.ShuffleBot.DrawnPokerCardsAreNamed | shufflebot.py:73-92 | with the poker deck, any card a channel's stack yields is announced by its bare name |
| Shufflebot.ShuffleBot.GetCards | shufflebot.py:45-50 | a known channel gets its existing stack; an unknown one gets a fresh stack of the poker deck, which is stored; no other entry changes |
| Shufflebot.ShuffleBot.CommandScandeck | shufflebot.py:52-59 | sends the `scandeck` reply for the cards the channel finds; the channel's stack is created and stored if it had none, its cards are unchanged, and other channels are untouched |
| Shufflebot.ShuffleBot.CommandReset | shufflebot.py:61-65 | the channel's stack becomes the full deck again, with a 👍 reaction; other channels are untouched |
| Shufflebot.ShuffleBot.CommandShuffle | shufflebot.py:67-71 | the channel's cards are permuted, with a 🎲 reaction; other channels are untouched |
| Shufflebot.ShuffleBot.CommandDraw | shufflebot.py:73-85 | the channel's top card is taken and announced, or the no-cards text is sent; other channels are untouched |
| Shufflebot.ShuffleBot.OnMessage | discobot.py:22-40 | messages that are ignored or unrecognised change no stack and do nothing; `help` sends the help text; `prefix` and `from_attribute_name` raise when called, which leaves only the 💥 reaction; a deck command acts on its own channel only |

## Left out

- The chat client: logging in, `on_ready`, sending messages and adding reactions, and
  `async`. A handler returns the list of effects it would perform instead.
- Logging, reading the version and the token from the environment, and the `__main__`
  block. The version is a parameter of the bot (`version: Option<string>`).
- Runtime reflection (`dir`, `getattr`, `inspect.iscoroutinefunction`, `__doc__`). An
  explicit table replaces it: each entry has a command name, optional documentation and
  whether it is an `async` handler. `ShuffleBotCommands` lists this bot's attributes whose
  names start with `command_`. `help` has no documentation, and the four deck commands have
  theirs. `command_prefix` and `command_from_attribute_name` are listed as non-handlers.
  Attributes that the `discord.Client` base class may add are not part of this model.
- Shufflebot.CardStack.Shuffle: any permutation is allowed; the randomness of
  `random.shuffle` is not modelled.
- Discobot.Isolate: the help and deck handlers in the model cannot raise. The only failure
  `OnMessage` passes is calling a non-handler attribute, which raises before anything is sent.
  Failures of the chat client while sending are not modelled.
- Shufflebot.ShuffleBot.GetCards: the `create` parameter is ignored by the source, and the
  model does not have it.
- Discobot.FailCommand: `fail_command` has no caller in these files, and it is modelled only
  as the two effects it produces.
- PyStr.Replace: modelled only for a non-empty pattern, the only kind the source uses.
- Discobot.VersionStatement: the version counts as set exactly when it is present and
  non-empty, which is how Python treats a string as true.
- The exact text of `+help` for this bot's own table is not stated as a constant.
  `GetFormattedHelp` and `HelpListing` give the help's content and order for any table.
- `CardStack` carries a ghost `owner`, the id of the channel whose entry holds it. It exists
  only for the proofs, to show that no two channels share a stack; the source has no such
  field.
- Python lists vs sequences: a Python list is a mutable object, a Dafny `seq` is a value.
  The model therefore cannot show the template being shared. The source avoids sharing by
  copying the list in `reset`.
