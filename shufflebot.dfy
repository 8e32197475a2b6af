/**
  The card-stack bot: one stack of cards per channel, created on first use from the built-in
  52-card poker deck, and the handlers of its commands.
 */
module Shufflebot {
  import opened Wrappers
  import opened PyStr
  import opened Discobot

  /** A card: a name and an optional description. */
  datatype Card = Card(name: string, description: Option<string>)

  // ---------------------------------------------------------------- the deck

  const PokerRanks: seq<string> := ["A", "2", "3", "4", "5", "6", "7", "8", "9", "10", "J", "Q", "K"]
  /** Clubs, diamonds, hearts, spades (U+2663, U+2666, U+2665, U+2660). */
  const PokerSuits: string := "\U{2663}\U{2666}\U{2665}\U{2660}"

  /** One suit's cards, rank by rank, none with a description. */
  function SuitCards(suit: char, ranks: seq<string>): (r: seq<Card>)
    ensures |r| == |ranks|
    ensures forall k :: 0 <= k < |ranks| ==> r[k] == Card(ranks[k] + [suit], None)
  {
    seq(|ranks|, k requires 0 <= k < |ranks| => Card(ranks[k] + [suit], None))
  }

  /** The comprehension that builds the poker deck: every rank of the first suit, then every
      rank of the next suit, and so on. */
  function SuitMajorDeck(suits: string, ranks: seq<string>): (r: seq<Card>)
    ensures |r| == |suits| * |ranks|
    ensures forall c :: c in r ==> c.description.None?
  {
    if suits == [] then []
    else
      var r := SuitCards(suits[0], ranks) + SuitMajorDeck(suits[1..], ranks);
      assert |suits| * |ranks| == |ranks| + (|suits| - 1) * |ranks|;
      r
  }

  /** The card of suit `s` and rank `k` sits at index `s * |ranks| + k`. */
  lemma {:induction false} SuitMajorDeckAt(suits: string, ranks: seq<string>, s: nat, k: nat)
    requires s < |suits| && k < |ranks|
    ensures s * |ranks| + k < |SuitMajorDeck(suits, ranks)|
    ensures SuitMajorDeck(suits, ranks)[s * |ranks| + k] == Card(ranks[k] + [suits[s]], None)
  {
    var n := |ranks|;
    var first := SuitCards(suits[0], ranks);
    var rest := SuitMajorDeck(suits[1..], ranks);
    assert SuitMajorDeck(suits, ranks) == first + rest;
    if s == 0 {
      assert s * n + k == k;
    } else {
      SuitMajorDeckAt(suits[1..], ranks, s - 1, k);
      MulPred(s, n);
      assert suits[s] == suits[1..][s - 1];
    }
  }

  lemma MulPred(s: nat, n: nat)
    requires s > 0
    ensures s * n == n + (s - 1) * n
  {
  }

  const PokerCards: seq<Card> := SuitMajorDeck(PokerSuits, PokerRanks)

  /** The poker deck: 52 cards, 13 ranks of each of 4 suits in suit-major order, from the ace of
      clubs to the king of spades, none with a description. */
  lemma PokerCardsLayout()
    ensures |PokerCards| == 52
    ensures forall s, k :: 0 <= s < 4 && 0 <= k < 13 ==>
              PokerCards[13 * s + k] == Card(PokerRanks[k] + [PokerSuits[s]], None)
    ensures PokerCards[0] == Card("A\U{2663}", None) && PokerCards[51] == Card("K\U{2660}", None)
    ensures forall c :: c in PokerCards ==> c.description.None?
  {
    PokerCardsAt();
    PokerCardsEnds();
  }

  lemma PokerCardsEnds()
    ensures |PokerCards| == 52
    ensures PokerCards[0] == Card("A\U{2663}", None) && PokerCards[51] == Card("K\U{2660}", None)
  {
    SuitMajorDeckAt(PokerSuits, PokerRanks, 0, 0);
    SuitMajorDeckAt(PokerSuits, PokerRanks, 3, 12);
  }

  lemma PokerCardsAt()
    ensures |PokerCards| == 52
    ensures forall s, k :: 0 <= s < 4 && 0 <= k < 13 ==>
              PokerCards[13 * s + k] == Card(PokerRanks[k] + [PokerSuits[s]], None)
  {
    forall s, k | 0 <= s < 4 && 0 <= k < 13
      ensures PokerCards[13 * s + k] == Card(PokerRanks[k] + [PokerSuits[s]], None)
    {
      SuitMajorDeckAt(PokerSuits, PokerRanks, s, k);
    }
  }

  /** `format_card_message`: the name alone, or the quoted name and the description behind a
      block quote. */
  function FormatCardMessage(card: Card): (r: string)
    ensures card.description.None? ==> r == card.name
    ensures card.description.Some? ==>
              r == "\"" + card.name + "\"\n" + QuoteAll(card.description.value)
  {
    match card.description
    case None => card.name
    case Some(d) => "\"" + card.name + "\"\n" + QuoteAll(d)
  }

  /** A drawn poker card is announced by its bare name. */
  lemma PokerCardMessagesAreNames()
    ensures forall c :: c in PokerCards ==> FormatCardMessage(c) == c.name
  {
  }

  // ----------------------------------------------------------------- drawing

  /** What one draw yields: the card taken, if any, and the cards left. */
  datatype DrawResult = DrawResult(card: Option<Card>, rest: seq<Card>)

  /** A draw from the front: nothing from an empty stack, which stays empty; otherwise the first
      card, with the others left in their order. */
  function TakeTop(cards: seq<Card>): (r: DrawResult)
    ensures cards == [] ==> r == DrawResult(None, [])
    ensures cards != [] ==> r.card == Some(cards[0]) && [cards[0]] + r.rest == cards
    ensures |r.rest| == if cards == [] then 0 else |cards| - 1
  {
    if cards == [] then DrawResult(None, [])
    else
      assert cards == [cards[0]] + cards[1..];
      DrawResult(Some(cards[0]), cards[1..])
  }

  /** What `n` draws in a row yield. */
  datatype Draws = Draws(drawn: seq<Option<Card>>, rest: seq<Card>)

  function DrawRepeatedly(cards: seq<Card>, n: nat): (r: Draws)
    ensures |r.drawn| == n
  {
    if n == 0 then Draws([], cards)
    else
      var d := TakeTop(cards);
      var more := DrawRepeatedly(d.rest, n - 1);
      Draws([d.card] + more.drawn, more.rest)
  }

  /** `n` draws from a stack return its cards front to back, then nothing once it is empty; what
      is left is the stack without the cards drawn. */
  lemma {:induction false} DrawsInOrder(cards: seq<Card>, n: nat)
    ensures var r := DrawRepeatedly(cards, n);
            && (forall i :: 0 <= i < n ==> r.drawn[i] == if i < |cards| then Some(cards[i]) else None)
            && r.rest == cards[if n < |cards| then n else |cards|..]
  {
    if n > 0 {
      var d := TakeTop(cards);
      DrawsInOrder(d.rest, n - 1);
      var more := DrawRepeatedly(d.rest, n - 1);
      var r := DrawRepeatedly(cards, n);
      forall i | 0 <= i < n
        ensures r.drawn[i] == if i < |cards| then Some(cards[i]) else None
      {
        if i > 0 && cards != [] {
          assert r.drawn[i] == more.drawn[i - 1];
          assert i - 1 < |d.rest| ==> d.rest[i - 1] == cards[i];
        }
      }
      if cards != [] {
        assert d.rest == cards[1..];
      }
    }
  }

  /** A stack of `n` cards drawn `n` or more times: its cards come out front to back, the stack
      is then empty, and every further draw yields nothing. */
  lemma DrawnOut(cards: seq<Card>, extra: nat)
    ensures var r := DrawRepeatedly(cards, |cards| + extra);
            && r.rest == []
            && r.drawn == seq(|cards|, i requires 0 <= i < |cards| => Some(cards[i])) + seq(extra, i => None)
  {
    DrawsInOrder(cards, |cards| + extra);
  }

  // ------------------------------------------------------------- the stack

  /** `CardStack`: the template it was built from and the cards currently in it. Python lists
      are modelled by sequences, which are values: `cards` never shares storage with `cardSet`,
      so shuffling and drawing cannot reach the template. */
  class CardStack {
    const cardSet: seq<Card>
    var cards: seq<Card>
    /** The channel this stack belongs to; a proof device that is not part of the bot's state. */
    ghost const owner: int

    /** Every card in the stack comes from the template: it is some arrangement of part of it. */
    ghost predicate Valid()
      reads this
    {
      multiset(cards) <= multiset(cardSet)
    }

    /** A valid stack never holds more cards than its template, and only cards from it. */
    lemma FromTemplate()
      requires Valid()
      ensures |cards| <= |cardSet|
      ensures forall c :: c in cards ==> c in cardSet
    {
      assert |multiset(cards)| <= |multiset(cardSet)| by {
        var rest := multiset(cardSet) - multiset(cards);
        assert multiset(cardSet) == multiset(cards) + rest;
      }
      forall c | c in cards
        ensures c in cardSet
      {
        assert c in multiset(cards);
      }
    }

    constructor (cardSet: seq<Card>, ghost owner: int)
      ensures this.cardSet == cardSet && cards == cardSet && this.owner == owner
      ensures Valid()
    {
      this.cardSet := cardSet;
      this.owner := owner;
      cards := cardSet;
    }

    /** `reset`: the stack becomes a copy of its template, in the template's order. */
    method Reset()
      modifies this
      ensures cards == cardSet
      ensures Valid()
    {
      cards := cardSet;
    }

    /** `shuffle`: the cards are put in some order; which one is left open. */
    method Shuffle()
      requires Valid()
      modifies this
      ensures multiset(cards) == multiset(old(cards)) && |cards| == |old(cards)|
      ensures Valid()
    {
      var shuffled :| multiset(shuffled) == multiset(cards);
      cards := shuffled;
      assert |multiset(cards)| == |multiset(old(cards))|;
    }

    /** `draw`: takes the first card off the stack, or nothing when it is empty. */
    method Draw() returns (card: Option<Card>)
      requires Valid()
      modifies this
      ensures DrawResult(card, cards) == TakeTop(old(cards))
      ensures card.Some? ==> card.value in cardSet
      ensures Valid()
    {
      FromTemplate();
      if cards == [] {
        return None;
      }
      card := Some(cards[0]);
      assert cards == [cards[0]] + cards[1..];
      cards := cards[1..];
    }
  }

  // ------------------------------------------------------------- replies

  /** U+1F44D, the reaction to `reset`. */
  const ThumbsUpEmoji := "\U{1F44D}"
  /** U+1F3B2, the reaction to `shuffle`. */
  const GameDieEmoji := "\U{1F3B2}"
  const NoCardsLeft := "There are no cards left in the deck."

  function CardNames(cards: seq<Card>): (r: seq<string>)
    ensures |r| == |cards| && forall i :: 0 <= i < |cards| ==> r[i] == cards[i].name
  {
    seq(|cards|, i requires 0 <= i < |cards| => cards[i].name)
  }

  /** The `scandeck` reply: the count and the comma-separated names, masked in a shared channel. */
  function ScanReply(cards: seq<Card>, channel: Channel): (r: string)
    ensures var head := NatToDecimal(|cards|) + " cards in the deck: ";
            && StartsWith(r, head)
            && r[|head|..] == MaybeSpoiler(Join(", ", CardNames(cards)), channel)
  {
    var head := NatToDecimal(|cards|) + " cards in the deck: ";
    var r := head + MaybeSpoiler(Join(", ", CardNames(cards)), channel);
    assert r[..|head|] == head;
    r
  }

  /** The `draw` reply: the no-cards text; the card in a direct message; otherwise the author's
      mention and the card behind a spoiler. */
  function DrawReply(msg: Message, card: Option<Card>): (r: string)
    ensures card.None? ==> r == NoCardsLeft
    ensures card.Some? && msg.channel.singlePeer ==> r == FormatCardMessage(card.value)
    ensures card.Some? && !msg.channel.singlePeer ==>
              r == msg.author.mention + " drew " + Spoiler(FormatCardMessage(card.value))
  {
    match card
    case None => NoCardsLeft
    case Some(c) =>
      if msg.channel.singlePeer then FormatCardMessage(c)
      else msg.author.mention + " drew " + Spoiler(FormatCardMessage(c))
  }

  /** In a shared channel a drawn card is always masked: the reply ends in a spoiler whose
      content gives back the card's text once its escaping is undone. */
  lemma DrawReplyMasksCard(msg: Message, c: Card)
    requires !msg.channel.singlePeer
    ensures var r := DrawReply(msg, Some(c)); var head := msg.author.mention + " drew ";
            && StartsWith(r, head)
            && var masked := r[|head|..];
               masked[..2] == "||" && masked[|masked| - 2..] == "||"
               && Replace(masked[2..|masked| - 2], EscapedPipe, "|") == FormatCardMessage(c)
  {
    var head := msg.author.mention + " drew ";
    var r := DrawReply(msg, Some(c));
    assert r[|head|..] == Spoiler(FormatCardMessage(c));
    SpoilerEscapingRoundTrip(FormatCardMessage(c));
  }

  /** The count in a `scandeck` reply reads back as the number of cards in the stack. */
  lemma ScanReplyCount(cards: seq<Card>, channel: Channel)
    ensures var count := NatToDecimal(|cards|);
            StartsWith(ScanReply(cards, channel), count + " cards in the deck: ")
            && DecimalValue(count) == |cards|
  {
  }

  /** The `command_` attributes that `dir()` and `getattr` find on the bot: the base's `help`,
      an undocumented handler; the four documented deck commands; and two attributes of the
      base that are not handlers, the `command_prefix` string and the one-argument method
      `command_from_attribute_name`. The help never consults the documentation of a
      non-handler, so none is recorded for them. */
  const ShuffleBotCommands: seq<CommandEntry> := [
    CommandEntry("help", None, true),
    CommandEntry("scandeck", Some("Output the entire contents of the deck. It'll be spoilered in a channel."), true),
    CommandEntry("reset", Some("Reset the deck to its original, unshuffled state."), true),
    CommandEntry("shuffle", Some("Shuffle the cards in the deck."), true),
    CommandEntry("draw", Some("Draw one card from the deck, and send that card, spoilered, to the channel."), true),
    CommandEntry("prefix", None, false),
    CommandEntry("from_attribute_name", None, false)
  ]


  /** The names `getattr` resolves on this bot: `help`, the four deck commands, `prefix` and
      `from_attribute_name`; every other name goes to the no-op fallback. */
  lemma ShuffleBotRegistry(name: string)
    ensures Lookup(ShuffleBotCommands, name).Some? <==>
              name == "help" || IsDeckCommand(name) || name == "prefix" || name == "from_attribute_name"
  {
    RegistryFinds(name);
    RegistryFindsOnly(name);
  }

  lemma RegistryFinds(name: string)
    ensures name == "help" || IsDeckCommand(name) || name == "prefix" || name == "from_attribute_name" ==>
              Lookup(ShuffleBotCommands, name).Some?
  {
    var t := ShuffleBotCommands;
    assert t[0].name == "help" && t[1].name == "scandeck" && t[2].name == "reset";
    assert t[3].name == "shuffle" && t[4].name == "draw";
    assert t[5].name == "prefix" && t[6].name == "from_attribute_name";
  }

  lemma RegistryFindsOnly(name: string)
    ensures Lookup(ShuffleBotCommands, name).Some? ==>
              name == "help" || IsDeckCommand(name) || name == "prefix" || name == "from_attribute_name"
  {
    var t := ShuffleBotCommands;
    if Lookup(t, name).Some? {
      var k :| 0 <= k < |t| && t[k].name == name;
      assert k == 0 || k == 1 || k == 2 || k == 3 || k == 4 || k == 5 || k == 6;
    }
  }

  /** Of the attributes found, `help` and the deck commands are handlers; `prefix` and
      `from_attribute_name` are not, so calling them raises. */
  lemma ShuffleBotHandlers()
    ensures forall e :: e in ShuffleBotCommands ==>
              (e.handler <==> e.name == "help" || IsDeckCommand(e.name))
  {
  }

  /** The help lists every deck command; not `help`, which has no documentation, and not the
      two non-handlers. */
  lemma ShuffleBotDocumented()
    ensures forall e :: e in ShuffleBotCommands ==> (Documented(e) <==> IsDeckCommand(e.name))
  {
  }

  /** What a deck command does to its channel's cards (`before` to `after`) and what it sends;
      `deck` is the template a reset restores. */
  ghost predicate DeckCommand(name: string, msg: Message, deck: seq<Card>, before: seq<Card>,
                              after: seq<Card>, effects: seq<Effect>)
  {
    if name == "scandeck" then
      after == before && effects == [Send(ScanReply(before, msg.channel))]
    else if name == "reset" then
      after == deck && effects == [React(ThumbsUpEmoji)]
    else if name == "shuffle" then
      multiset(after) == multiset(before) && effects == [React(GameDieEmoji)]
    else if name == "draw" then
      var d := TakeTop(before);
      after == d.rest && effects == [Send(DrawReply(msg, d.card))]
    else false
  }

  predicate IsDeckCommand(name: string)
  {
    name == "scandeck" || name == "reset" || name == "shuffle" || name == "draw"
  }

  // ---------------------------------------------------------------- the bot

  /** `ShuffleBot`: the bot's identity and settings, and the map from channel id to that
      channel's stack. */
  class ShuffleBot {
    const user: User
    const commandPrefix: string
    const version: Option<string>
    /** The template of every channel's stack: the poker deck. */
    const deck: seq<Card>
    /** The attributes `getattr` finds on the bot: `ShuffleBotCommands`. */
    const commands: seq<CommandEntry>
    var channels: map<int, CardStack>

    /** Each channel owns its own stack (the stack's `owner` is the channel's id, so no two
        channels share one), built from the poker deck and valid. */
    ghost predicate Valid()
      reads this, channels.Values
    {
      forall k :: k in channels ==> channels[k].owner == k && channels[k].cardSet == deck && channels[k].Valid()
    }

    /** The cards a command in channel `id` finds: its stack's, or a fresh poker deck. */
    ghost function CardsOf(id: int): seq<Card>
      reads this, channels.Values
    {
      if id in channels then channels[id].cards else deck
    }

    /** Only channel `id`'s entry may be new, and no other channel's stack or cards changed. */
    twostate predicate OthersUnchanged(id: int)
      reads this, channels.Values
    {
      && channels.Keys == old(channels.Keys) + {id}
      && forall k :: k in old(channels) && k != id ==>
           channels[k] == old(channels[k]) && channels[k].cards == old(channels[k].cards)
    }

    /** Every card a command in channel `id` finds comes from the deck. */
    lemma CardsFromDeck(id: int)
      requires Valid()
      ensures |CardsOf(id)| <= |deck|
      ensures forall c :: c in CardsOf(id) ==> c in deck
    {
      if id in channels {
        channels[id].FromTemplate();
      }
    }

    /** With the poker deck, whatever card a channel yields is announced by its bare name. */
    lemma DrawnPokerCardsAreNamed(id: int)
      requires Valid() && deck == PokerCards
      ensures forall c :: c in CardsOf(id) ==> FormatCardMessage(c) == c.name
    {
      CardsFromDeck(id);
      PokerCardMessagesAreNames();
    }

    constructor (user: User, commandPrefix: string, version: Option<string>)
      ensures this.user == user && this.commandPrefix == commandPrefix && this.version == version
      ensures deck == PokerCards && commands == ShuffleBotCommands && channels == map[]
      ensures Valid()
    {
      this.user := user;
      this.commandPrefix := commandPrefix;
      this.version := version;
      deck := PokerCards;
      commands := ShuffleBotCommands;
      channels := map[];
    }

    /** `get_cards`: the channel's stack, created from the poker deck and stored on first use;
        no other channel's entry changes. */
    method GetCards(channel: Channel) returns (stack: CardStack)
      requires Valid()
      modifies this
      ensures Valid()
      ensures channel.id in old(channels) ==> channels == old(channels) && stack == channels[channel.id]
      ensures channel.id !in old(channels) ==>
                fresh(stack) && channels == old(channels)[channel.id := stack] && stack.cardSet == deck
      ensures stack.cards == old(CardsOf(channel.id))
    {
      if channel.id in channels {
        stack := channels[channel.id];
      } else {
        stack := new CardStack(deck, channel.id);
        channels := channels[channel.id := stack];
      }
    }

    /** `command_scandeck`: reports the channel's cards (creating its stack if it has none) and
        leaves them as they are. */
    method CommandScandeck(msg: Message) returns (effects: seq<Effect>)
      requires Valid()
      modifies this
      ensures Valid() && OthersUnchanged(msg.channel.id)
      ensures channels[msg.channel.id].cards == old(CardsOf(msg.channel.id))
      ensures effects == [Send(ScanReply(old(CardsOf(msg.channel.id)), msg.channel))]
    {
      var stack := GetCards(msg.channel);
      effects := [Send(ScanReply(stack.cards, msg.channel))];
    }

    /** `command_reset`: the channel's stack becomes the full poker deck again. */
    method CommandReset(msg: Message) returns (effects: seq<Effect>)
      requires Valid()
      modifies this, channels.Values
      ensures Valid() && OthersUnchanged(msg.channel.id)
      ensures channels[msg.channel.id].cards == deck
      ensures effects == [React(ThumbsUpEmoji)]
    {
      var stack := GetCards(msg.channel);
      stack.Reset();
      effects := [React(ThumbsUpEmoji)];
    }

    /** `command_shuffle`: the channel's cards are rearranged, none added or lost. */
    method CommandShuffle(msg: Message) returns (effects: seq<Effect>)
      requires Valid()
      modifies this, channels.Values
      ensures Valid() && OthersUnchanged(msg.channel.id)
      ensures multiset(channels[msg.channel.id].cards) == multiset(old(CardsOf(msg.channel.id)))
      ensures effects == [React(GameDieEmoji)]
    {
      var stack := GetCards(msg.channel);
      stack.Shuffle();
      effects := [React(GameDieEmoji)];
    }

    /** `command_draw`: the channel's top card is taken and announced. */
    method CommandDraw(msg: Message) returns (effects: seq<Effect>)
      requires Valid()
      modifies this, channels.Values
      ensures Valid() && OthersUnchanged(msg.channel.id)
      ensures var d := TakeTop(old(CardsOf(msg.channel.id)));
              channels[msg.channel.id].cards == d.rest && effects == [Send(DrawReply(msg, d.card))]
    {
      var stack := GetCards(msg.channel);
      var card := stack.Draw();
      effects := [Send(DrawReply(msg, card))];
    }

    /** `on_message` with this bot's commands: ignored and unrecognised messages change nothing
        and send nothing; `help` sends the help text; a deck command acts on the message's
        channel only; a name that resolves to an attribute that is not a handler raises when it
        is called, which leaves only the collision reaction. */
    method OnMessage(msg: Message) returns (effects: seq<Effect>)
      requires Valid()
      modifies this, channels.Values
      ensures Valid()
      ensures var route := RouteMessage(user, commandPrefix, commands, msg);
              if route.Dispatch? && IsDeckCommand(route.inv.name) then
                && OthersUnchanged(msg.channel.id)
                && DeckCommand(route.inv.name, msg, deck, old(CardsOf(msg.channel.id)),
                               channels[msg.channel.id].cards, effects)
              else
                && channels == old(channels)
                && (forall k :: k in channels ==> channels[k].cards == old(channels[k].cards))
                && effects == if !route.Dispatch? then []
                              else if Lookup(commands, route.inv.name).value.handler then
                                [Send(GetFormattedHelp(version, commandPrefix, commands))]
                              else [React(CollisionEmoji)]
    {
      var route := RouteMessage(user, commandPrefix, commands, msg);
      if route.Dispatch? && IsDeckCommand(route.inv.name) {
        var done;
        if route.inv.name == "scandeck" {
          done := CommandScandeck(msg);
        } else if route.inv.name == "reset" {
          done := CommandReset(msg);
        } else if route.inv.name == "shuffle" {
          done := CommandShuffle(msg);
        } else {
          done := CommandDraw(msg);
        }
        effects := Isolate(Completed(done));
      } else if route.Dispatch? {
        var entry := Lookup(commands, route.inv.name).value;
        if entry.handler {
          effects := Isolate(Completed([Send(GetFormattedHelp(version, commandPrefix, commands))]));
        } else {
          effects := Isolate(Raised([]));
        }
      } else {
        effects := [];
      }
    }
  }
}
