/** `GeminiAI` (libs/gemini_ai.py): the generation settings fixed at construction, the map
    from user id to chat session, and the way `query_ai` turns the outcome of a request
    into a reply. Chat sessions are opaque: a session is known by the order in which it
    was started and by the history it was started with. The Gemini library's sending of a
    message is a parameter. */
module GeminiAi {
  import opened Wrappers

  /** The generation and safety settings the constructor stores. */
  datatype Settings = Settings(
    candidateCount: int,
    maxOutputTokens: int,
    safetySex: string,
    safetyHarassment: string,
    safetyDanger: string,
    safetyHate: string)

  /** The constructor's default arguments. */
  const DefaultSettings: Settings :=
    Settings(1, 8192, "unspecified", "unspecified", "unspecified", "unspecified")

  /** A chat session, known by the order of its creation and its starting history. */
  datatype Session = Session(serial: nat, history: seq<string>)

  /** The object's state: its settings, the chat started by the constructor, the
      per-user sessions, and the number of sessions started so far. */
  datatype Gemini = Gemini(settings: Settings, chat: Session, sessions: map<string, Session>, started: nat)

  /** Every session was started before the count reached `started`, so a new one is
      different from all of them. */
  predicate Valid(g: Gemini) {
    g.chat.serial < g.started && forall u :: u in g.sessions ==> g.sessions[u].serial < g.started
  }

  const KeyMissing: string := "Gemini API Key not provided"

  /** `model.start_chat(history=[])`: a new session with an empty history. */
  function StartChat(started: nat): (s: Session)
    ensures s.history == [] && s.serial == started
  {
    Session(started, [])
  }

  /** The constructor: it raises when the key is `None` (an empty key is accepted, as the
      code compares with `None` only); otherwise it starts one chat and has no user
      sessions. */
  function Create(apiKey: Option<string>, settings: Settings): (r: Result<Gemini, string>)
    ensures r.Failure? <==> apiKey.None?
    ensures r.Failure? ==> r.error == KeyMissing
    ensures r.Success? ==> Valid(r.value) && r.value.sessions == map[] && r.value.settings == settings
  {
    if apiKey.None? then Failure(KeyMissing)
    else Success(Gemini(settings, StartChat(0), map[], 1))
  }

  /** `start_user_chat(u)`: a new empty-history session for `u`, replacing any it had; the
      other users' sessions stay as they were. */
  function StartUserChat(g: Gemini, u: string): (g': Gemini)
    requires Valid(g)
    ensures Valid(g')
    ensures u in g'.sessions && g'.sessions[u].history == []
    ensures forall v :: v in g.sessions ==> g'.sessions[u] != g.sessions[v]
    ensures g'.sessions.Keys == g.sessions.Keys + {u}
    ensures forall v :: v in g.sessions && v != u ==> g'.sessions[v] == g.sessions[v]
    ensures g'.settings == g.settings && g'.chat == g.chat
  {
    g.(sessions := g.sessions[u := StartChat(g.started)], started := g.started + 1)
  }

  /** The safety settings every request carries. */
  function SafetySettings(s: Settings): (m: map<string, string>)
    ensures m.Keys == {"harassment", "hate", "sex", "danger"}
    ensures m["harassment"] == s.safetyHarassment && m["hate"] == s.safetyHate
    ensures m["sex"] == s.safetySex && m["danger"] == s.safetyDanger
  {
    map["harassment" := s.safetyHarassment, "hate" := s.safetyHate,
        "sex" := s.safetySex, "danger" := s.safetyDanger]
  }

  /** What `send_message` is given: the query, the generation settings and the safety map. */
  datatype Request = Request(query: string, candidateCount: int, maxOutputTokens: int, safety: map<string, string>)

  /** How sending ends: with the response text, with `BlockedPromptException` and its
      message, or with any other exception (reading `.text` included). */
  datatype Outcome = Answered(text: string) | PromptBlocked(message: string) | OtherError

  const TryAgain: string := "Error generating AI response. Please try again later."

  /** The reply `query_ai` gives for each outcome. */
  function Reply(o: Outcome): (reply: string)
    ensures o.Answered? ==> reply == o.text
    ensures o.PromptBlocked? ==> reply == "Error generating AI response. Blocked: " + o.message
    ensures o.OtherError? ==> reply == TryAgain
  {
    match o
    case Answered(text) => text
    case PromptBlocked(message) => "Error generating AI response. Blocked: " + message
    case OtherError => TryAgain
  }

  /** `query_ai(u, q)`: the session of `u` is started first if it has none, and reused
      otherwise; then the query is sent on it. `send` stands for the Gemini library. */
  function QueryAi(g: Gemini, u: string, q: string, send: (Session, Request) -> Outcome): (r: (Gemini, string))
    requires Valid(g)
    ensures Valid(r.0)
    ensures u in r.0.sessions
    ensures u in g.sessions ==> r.0 == g
    ensures u !in g.sessions ==> r.0 == StartUserChat(g, u)
    ensures r.1 == Reply(send(r.0.sessions[u], Request(q, g.settings.candidateCount,
                               g.settings.maxOutputTokens, SafetySettings(g.settings))))
  {
    var g' := if u in g.sessions then g else StartUserChat(g, u);
    var session := g'.sessions[u];
    var request := Request(q, g.settings.candidateCount, g.settings.maxOutputTokens, SafetySettings(g.settings));
    (g', Reply(send(session, request)))
  }

  /** The session is registered whatever sending does: the state after `query_ai` does not
      depend on the outcome. */
  lemma SessionKeptOnFailure(g: Gemini, u: string, q: string, send: (Session, Request) -> Outcome,
                             other: (Session, Request) -> Outcome)
    requires Valid(g)
    ensures QueryAi(g, u, q, send).0 == QueryAi(g, u, q, other).0
    ensures u in QueryAi(g, u, q, send).0.sessions
  {
  }

  /** `query_ai` never raises: for every behaviour of the Gemini library, its reply is the
      model's text or one of the two error messages, decided by what sending the query on
      the user's session gives. */
  lemma ReplyClassified(g: Gemini, u: string, q: string, send: (Session, Request) -> Outcome)
    requires Valid(g)
    ensures var r := QueryAi(g, u, q, send);
            var o := send(r.0.sessions[u], Request(q, g.settings.candidateCount,
                            g.settings.maxOutputTokens, SafetySettings(g.settings)));
            (o.Answered? && r.1 == o.text) ||
            (o.PromptBlocked? && r.1[..39] == "Error generating AI response. Blocked: " &&
             r.1[39..] == o.message) ||
            (o.OtherError? && r.1 == TryAgain)
  {
  }

  /** A second query by the same user goes to the session the first one started. */
  lemma SessionReused(g: Gemini, u: string, q1: string, q2: string, send: (Session, Request) -> Outcome)
    requires Valid(g)
    ensures var g1 := QueryAi(g, u, q1, send).0;
            QueryAi(g1, u, q2, send).0 == g1
  {
  }

  /** With the default settings, every request asks for one candidate of at most 8192
      tokens with all four safety levels unspecified. */
  lemma DefaultRequest(apiKey: string)
    ensures var g := Create(Some(apiKey), DefaultSettings).value;
            var s := SafetySettings(g.settings);
            g.settings.candidateCount == 1 && g.settings.maxOutputTokens == 8192 &&
            s.Values == {"unspecified"}
  {
    var s := SafetySettings(DefaultSettings);
    assert s["sex"] == "unspecified";
  }
}
