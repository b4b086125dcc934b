/** The decision logic of the Slack handlers in main.py: which query and user `bard_say`
    answers, when it asks the AI at all, how the reply is shaped into a fallback text and
    blocks, which station `/wf` reports on, and how `/bard` lays out its answer. The AI,
    the weather request and the user-name lookup are parameters; sending a message is the
    value the handler returns.

    As written, both AI handlers call `query_ai(query)` with one argument while the method
    takes the user id and the query, so they raise `TypeError` exactly where they would
    need the AI. `BardSayAsWritten` and `BardCommandAsWritten` model that; `BardSay` and
    `BardCommand` are the handlers with the call `query_ai(user_id, query)` intended. */
module Handlers {
  import opened Wrappers
  import opened SlackBlocks
  import SlackMarkdown
  import WeatherFlow

  /** A Slack message or event payload, as the string fields the handler reads. */
  type Payload = map<string, string>

  /** The dictionary handed to `say` or `respond`; the greeting has no blocks. */
  datatype Message = Message(responseType: string, text: string, blocks: Option<seq<Block>>)

  /** What a handler does: send one message, or raise before sending anything. */
  datatype Handled = Sent(message: Message) | Raised(error: string)

  const InChannel: string := "in_channel"
  const Greeting: string := "Hi :wave:"
  const GreetingMessage: Message := Message(InChannel, Greeting, None)

  /** The error Python raises for `query_ai(query)`. */
  const MissingQueryArgument: string := "GeminiAI.query_ai() missing 1 required positional argument: 'query'"

  /** The error Python raises when it reaches `except SlackApiError`, a name main.py never
      imports. */
  const UndefinedSlackApiError: string := "name 'SlackApiError' is not defined"

  /** A payload is truthy when it is present and not an empty dictionary. */
  predicate Truthy(p: Option<Payload>) {
    p.Some? && p.value != map[]
  }

  /** The payload `bard_say` reads: the message when it is truthy, otherwise the event when it is. */
  function Source(message: Option<Payload>, event: Option<Payload>): (src: Option<Payload>)
    ensures src.Some? <==> Truthy(message) || Truthy(event)
    ensures Truthy(message) ==> src == message
    ensures !Truthy(message) && Truthy(event) ==> src == event
  {
    if Truthy(message) then message else if Truthy(event) then event else None
  }

  /** `p.get("text", None)`. */
  function QueryOf(p: Payload): (q: Option<string>)
    ensures q.Some? <==> "text" in p
  {
    if "text" in p then Some(p["text"]) else None
  }

  /** `p.get("user", "")`. */
  function UserOf(p: Payload): (u: string)
    ensures "user" !in p ==> u == ""
  {
    if "user" in p then p["user"] else ""
  }

  /** `f"<@{u}>"`, Slack's mention syntax. */
  function Mention(u: string): (m: string)
    ensures |m| == |u| + 3 && m[..2] == "<@" && m[|m| - 1] == '>'
  {
    "<@" + u + ">"
  }

  /** The bot's own mention. `bot` is what `get_bot_user_id` gives: the id, or, in the
      corrected handler, `None` when `auth_test` fails and the error is caught, which prints
      as `None`. As written, that failure raises instead (see `BardSayAsWritten`). */
  function BotMention(bot: Option<string>): string {
    Mention(if bot.None? then "None" else bot.value)
  }

  /** The AI is asked only for a non-empty query that is neither `"bard"` nor a
      bare mention of the bot. */
  predicate Asks(query: Option<string>, bot: Option<string>) {
    query.Some? && query.value != "" && query.value != "bard" && query.value != BotMention(bot)
  }

  /** The reply `bard_say` sends: the fallback text always addresses the user, even an empty one; the
      blocks carry the same text, or the raw reply when there is no user id. */
  function ShapeReply(userId: string, reply: string): (m: Message)
    ensures m.responseType == InChannel && m.blocks.Some?
    ensures |m.text| >= |Mention(userId)| + 2
    ensures m.text[..|Mention(userId)| + 2] == Mention(userId) + ", "
    ensures m.text[|Mention(userId)| + 2..] == SlackMarkdown.AdjustMarkdownForSlack(reply)
    ensures userId != "" ==> Unformat(m.blocks.value) == [m.text]
    ensures userId == "" ==> Unformat(m.blocks.value) == [reply]
  {
    var text := Mention(userId) + ", " + SlackMarkdown.AdjustMarkdownForSlack(reply);
    var shown := if userId != "" then text else reply;
    FormatResponseRoundTrip(Single(shown));
    Message(InChannel, text, Some(FormatResponse(Single(shown))))
  }

  /** `bard_say` with `query_ai(user_id, query)`; `ask` stands for that call. */
  function BardSay(message: Option<Payload>, event: Option<Payload>, bot: Option<string>,
                   ask: (string, string) -> string): (m: Message)
    ensures !Truthy(message) && !Truthy(event) ==> m == GreetingMessage
    ensures var src := Source(message, event);
            m.blocks.None? <==> src.None? || !Asks(QueryOf(src.value), bot)
    ensures m.blocks.None? ==> m == GreetingMessage
    ensures var src := Source(message, event);
            m.blocks.Some? ==> m == ShapeReply(UserOf(src.value), ask(UserOf(src.value), QueryOf(src.value).value))
  {
    match Source(message, event)
    case None => GreetingMessage
    case Some(p) =>
      var query := QueryOf(p);
      if Asks(query, bot) then ShapeReply(UserOf(p), ask(UserOf(p), query.value)) else GreetingMessage
  }

  /** `bard_say` as written. A failed bot lookup (`bot` is `None`) raises before anything
      else, because the handler for the lookup's error names an undefined exception class.
      Otherwise the greeting paths are as above, and every path that needs the AI raises. */
  function BardSayAsWritten(message: Option<Payload>, event: Option<Payload>, bot: Option<string>): (h: Handled)
    ensures bot.None? ==> h == Raised(UndefinedSlackApiError)
    ensures var src := Source(message, event);
            bot.Some? ==> (h.Raised? <==> src.Some? && Asks(QueryOf(src.value), bot))
    ensures bot.Some? && h.Raised? ==> h.error == MissingQueryArgument
    ensures h.Sent? ==> h.message == GreetingMessage
  {
    if bot.None? then Raised(UndefinedSlackApiError)
    else match Source(message, event)
      case None => Sent(GreetingMessage)
      case Some(p) => if Asks(QueryOf(p), bot) then Raised(MissingQueryArgument) else Sent(GreetingMessage)
  }

  /** The handler as written and the corrected one agree wherever the former sends
      anything; once the bot is known, the former raises exactly where the latter answers,
      whatever the AI says. */
  lemma BardSayRaisesWhereItAnswers(message: Option<Payload>, event: Option<Payload>, bot: Option<string>,
                                    ask: (string, string) -> string)
    ensures var h := BardSayAsWritten(message, event, bot);
            bot.Some? ==> (h.Sent? <==> BardSay(message, event, bot, ask).blocks.None?)
    ensures var h := BardSayAsWritten(message, event, bot);
            h.Sent? ==> h.message == BardSay(message, event, bot, ask)
  {
  }

  /** A message containing "bard", which is what the message listener passes on: as written
      it raises, corrected it answers that user with the reply. */
  lemma PlainMessageRaises(ask: (string, string) -> string)
    ensures var msg := map["text" := "bard, hello", "user" := "U1"];
            BardSayAsWritten(Some(msg), None, Some("B1")) == Raised(MissingQueryArgument) &&
            BardSay(Some(msg), None, Some("B1"), ask) == ShapeReply("U1", ask("U1", "bard, hello"))
  {
    var msg := map["text" := "bard, hello", "user" := "U1"];
    assert Truthy(Some(msg)) by { assert "text" in msg; }
    assert Mention("B1") != "bard, hello";
    assert "bard, hello" != "bard";
  }

  /** When `auth_test` fails, even an empty call raises as written, while the corrected
      lookup answers `None` and the handler greets. */
  lemma FailedLookupRaises(ask: (string, string) -> string)
    ensures BardSayAsWritten(None, None, None) == Raised(UndefinedSlackApiError)
    ensures BardSay(None, None, None, ask) == GreetingMessage
  {
  }

  /** Greetings never depend on the AI: with the same payloads, any two AIs give the same
      greeting. */
  lemma GreetingWithoutAi(message: Option<Payload>, event: Option<Payload>, bot: Option<string>,
                          ask: (string, string) -> string, other: (string, string) -> string)
    requires BardSay(message, event, bot, ask).blocks.None?
    ensures BardSay(message, event, bot, other) == BardSay(message, event, bot, ask) == GreetingMessage
  {
  }

  /** The message wins over the event whenever it is truthy. */
  lemma MessageBeforeEvent(message: Payload, event: Option<Payload>, bot: Option<string>,
                           ask: (string, string) -> string)
    requires message != map[]
    ensures BardSay(Some(message), event, bot, ask) == BardSay(Some(message), None, bot, ask)
  {
  }

  /** A bare mention of the bot, and `"bard"`, are greeted. */
  lemma MentionOrNameGreeted(user: string, bot: Option<string>, ask: (string, string) -> string)
    ensures BardSay(Some(map["text" := BotMention(bot), "user" := user]), None, bot, ask) == GreetingMessage
    ensures BardSay(Some(map["text" := "bard", "user" := user]), None, bot, ask) == GreetingMessage
    ensures BardSay(Some(map["user" := user]), None, bot, ask) == GreetingMessage
  {
    assert "user" in map["user" := user];
    assert "text" in map["text" := BotMention(bot), "user" := user];
    assert "text" in map["text" := "bard", "user" := user];
  }

  // ---------------------------------------------------------------------------
  // /wf
  // ---------------------------------------------------------------------------

  /** The station `/wf` asks for: the command text names the station unless it is missing or empty. */
  function StationFor(text: Option<string>, configured: Option<string>): (station: Option<string>)
    ensures text.Some? && text.value != "" ==> station == text
    ensures text.None? || text.value == "" ==> station == configured
  {
    if text.Some? && text.value != "" then text else configured
  }

  /** `wf_command`: the weather text both as the fallback and, formatted, as the blocks. */
  function WfCommand(c: WeatherFlow.Client, text: Option<string>, configured: Option<string>,
                     fetch: WeatherFlow.Request -> WeatherFlow.Response): (m: Message)
    ensures m.responseType == InChannel
    ensures m.text == WeatherFlow.GetWfWeather(c, StationFor(text, configured), fetch)
    ensures m.blocks.Some? && Unformat(m.blocks.value) == [m.text]
  {
    var weather := WeatherFlow.GetWfWeather(c, StationFor(text, configured), fetch);
    FormatResponseRoundTrip(Single(weather));
    Message(InChannel, weather, Some(FormatResponse(Single(weather))))
  }

  /** Command text overrides the configured station entirely. */
  lemma WfTextOverrides(c: WeatherFlow.Client, station: string, configured: Option<string>,
                        other: Option<string>, fetch: WeatherFlow.Request -> WeatherFlow.Response)
    requires station != ""
    ensures WfCommand(c, Some(station), configured, fetch) == WfCommand(c, Some(station), other, fetch)
  {
  }

  /** With no station anywhere, `/wf` says so without any request. */
  lemma WfWithoutStation(c: WeatherFlow.Client, text: Option<string>, configured: Option<string>,
                         fetch: WeatherFlow.Request -> WeatherFlow.Response)
    requires text.None? || text.value == ""
    requires configured.None? || configured.value == ""
    ensures WfCommand(c, text, configured, fetch).text == WeatherFlow.NoStation
  {
  }

  /** `/wf` says that no station was given exactly when neither the command text nor the
      configuration names one; otherwise it reports on the station the text names, or
      failing that the configured one. */
  lemma WfNoStationExactly(c: WeatherFlow.Client, text: Option<string>, configured: Option<string>,
                           fetch: WeatherFlow.Request -> WeatherFlow.Response)
    ensures WfCommand(c, text, configured, fetch).text == WeatherFlow.NoStation <==>
              (text.None? || text.value == "") && (configured.None? || configured.value == "")
    ensures var station := if text.Some? && text.value != "" then text else configured;
            WfCommand(c, text, configured, fetch).text != WeatherFlow.NoStation ==>
              station.Some? && station.value != "" &&
              WfCommand(c, text, configured, fetch).text == WeatherFlow.GetWfWeather(c, station, fetch)
  {
    var station := StationFor(text, configured);
    WeatherFlow.WeatherCases(c, station, fetch);
    StationMissing(WfCommand(c, text, configured, fetch).text, text, configured);
  }

  /** A text that is the no-station message exactly when the chosen station is missing is
      that message exactly when both the command text and the configuration are missing. */
  lemma StationMissing(r: string, text: Option<string>, configured: Option<string>)
    requires var station := StationFor(text, configured);
             r == WeatherFlow.NoStation <==> station.None? || station.value == ""
    ensures r == WeatherFlow.NoStation <==>
              (text.None? || text.value == "") && (configured.None? || configured.value == "")
  {
  }

  // ---------------------------------------------------------------------------
  // /bard
  // ---------------------------------------------------------------------------

  /** The heading of a `/bard` answer: `*{username}* asked "_{query}_"`. */
  function Asked(username: string, query: string): (h: string)
    ensures h != ""
  {
    "*" + username + "* asked \"_" + query + "_\""
  }

  /** `bard_command` with `query_ai(user_id, query)`: two groups of blocks, the heading and
      the adjusted reply, then a closing divider; the fallback text ends with the reply as
      the AI gave it. */
  function BardCommand(query: string, userId: string, username: string,
                       ask: (string, string) -> string): (m: Message)
    ensures m.responseType == InChannel && m.blocks.Some?
    ensures Unformat(m.blocks.value) == [Asked(username, query), SlackMarkdown.AdjustMarkdownForSlack(ask(userId, query))]
    ensures DividerCount(m.blocks.value) == 3
    ensures m.blocks.value[0] == Divider && m.blocks.value[|m.blocks.value| - 1] == Divider
    ensures var reply := ask(userId, query);
            |m.text| >= |reply| && m.text[|m.text| - |reply|..] == reply
  {
    var reply := ask(userId, query);
    var groups := [Asked(username, query), SlackMarkdown.AdjustMarkdownForSlack(reply)];
    FormatResponseRoundTrip(Many(groups));
    var blocks := FormatResponse(Many(groups));
    assert Groups(groups) != [] by {
      assert DividerCount(Groups(groups)) == 2;
    }
    assert blocks[0] == Groups(groups)[0];
    var text := username + " asked \"" + query + "\".\n\n\nGenerated response:\n" + reply;
    Message(InChannel, text, Some(blocks))
  }

  /** `/bard` and a mention answer the same query with the same adjusted text: the second
      group of the command's blocks is what `bard_say` sends after addressing the user. */
  lemma CommandMatchesMention(query: string, userId: string, username: string, bot: string,
                              ask: (string, string) -> string)
    requires query != "" && query != "bard" && query != Mention(bot)
    ensures var said := BardSay(Some(map["text" := query, "user" := userId]), None, Some(bot), ask);
            said.blocks.Some? &&
            Unformat(BardCommand(query, userId, username, ask).blocks.value)[1] == said.text[|Mention(userId)| + 2..]
  {
    var msg := map["text" := query, "user" := userId];
    assert Truthy(Some(msg)) by { assert "text" in msg; }
    assert QueryOf(msg) == Some(query) && UserOf(msg) == userId;
  }

  /** `bard_command` as written: it acknowledges the command and then raises, whatever the
      command says. */
  function BardCommandAsWritten(query: string, userId: string, username: string): (h: Handled)
    ensures h.Raised? && h.error == MissingQueryArgument
  {
    Raised(MissingQueryArgument)
  }

  /** As written, `/bard` never sends the answer the corrected handler builds. */
  lemma BardCommandNeverAnswers(query: string, userId: string, username: string,
                                ask: (string, string) -> string)
    ensures BardCommandAsWritten(query, userId, username) != Sent(BardCommand(query, userId, username, ask))
  {
  }

  /** Without markup or backticks in the reply, `/bard` shows it word for word in its
      second group. */
  lemma BardCommandPlainReply(query: string, userId: string, username: string,
                              ask: (string, string) -> string)
    requires var reply := ask(userId, query);
             '*' !in reply && '#' !in reply && '|' !in reply && '`' !in reply
    ensures Unformat(BardCommand(query, userId, username, ask).blocks.value)[1] == ask(userId, query)
  {
    SlackMarkdown.PlainTextUnchanged(ask(userId, query));
  }
}
