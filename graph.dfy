/**
 * The engagement flow. One call of `process_message` runs a fixed sequence
 * over the session's state dict: classify the message; if it is a scam and
 * the session is still open, engage (one honeypot reply, one more turn) and
 * check the stop conditions. When a scam session has just ended, its
 * indicators are extracted once. Sessions are kept by id.
 *
 * The three agents the nodes construct are given by `Agents`: each agent's
 * language model, or `None` where constructing the agent raises.
 */
module Graph {
  import opened Wrappers
  import opened PyText
  import opened ModelBoundary
  import opened State
  import ScamClassifier
  import HoneypotAgent
  import IntelExtractor

  /** `GraphState`: the state dict the nodes pass along, with every key present. */
  datatype GraphState = GraphState(
    sessionId: string,
    userMessage: string,
    turns: int,
    conversation: seq<Message>,
    isComplete: bool,
    classification: Option<ClassificationResult>,
    agentReply: Option<string>,
    stopReason: Option<string>,
    extractedIntel: Option<Json>)
  {
    /**
     * What every stored session satisfies: at most `MaxTurns` turns, one
     * agent message per turn, a session out of turns is complete, and
     * indicators are only ever extracted from a complete session.
     */
    predicate Inv() {
      0 <= turns <= MaxTurns &&
      Count(conversation, Agent) == turns &&
      (turns == MaxTurns ==> isComplete) &&
      (extractedIntel.Some? ==> isComplete)
    }
  }

  /** The state `process_message` builds for a session it has not seen. */
  function NewState(sessionId: string, message: string): (s: GraphState)
    ensures s.Inv() && !s.isComplete
  {
    GraphState(sessionId, message, 0, [], false, None, None, None, None)
  }

  /**
   * The agents as the nodes use them: `classify`, `respond` and `extract` of
   * a freshly constructed agent, or `None` where constructing the agent
   * raises (a missing API key or prompt file).
   */
  datatype Agents = Agents(
    classifier: Option<string -> ScamClassifier.ScamClassificationResult>,
    responder: Option<string -> string>,
    extractor: Option<seq<IntelExtractor.ConvEntry> -> IntelExtractor.ScamIntelResult>)
  {
    /** What the agents of this model promise about their answers. */
    ghost predicate Behaves() {
      (classifier.Some? ==> forall m :: classifier.value(m).WellFormed() && (!classifier.value(m).isScam ==> !IsBlank(m))) &&
      (responder.Some? ==> forall m :: responder.value(m) == EngageFallback || HoneypotAgent.Presentable(responder.value(m))) &&
      (responder.Some? ==> forall m :: IsBlank(m) ==> responder.value(m) == EngageFallback) &&
      (extractor.Some? ==> forall c :: extractor.value(c).NoDuplicates()) &&
      (extractor.Some? ==> forall c :: c != [] ==>
         IntelExtractor.RegexIntel(IntelExtractor.Transcript(c)).Within(extractor.value(c))) &&
      (extractor.Some? ==> extractor.value([]) == IntelExtractor.EmptyIntel)
    }
  }

  /**
   * The agents built on the given language models: the classifier and the
   * responder when their constructor succeeds, and the extractor, whose
   * model is itself optional.
   */
  function Built(classifierModel: Option<Model>, responderModel: Option<Model>,
                 extractorClient: Option<Option<Model>>, lib: PyLib): (a: Agents)
    ensures a.Behaves()
  {
    Agents(
      match classifierModel
      case Some(model) => Some((m: string) => ScamClassifier.Classify(model, lib, m))
      case None => None,
      match responderModel
      case Some(model) => Some((m: string) => HoneypotAgent.Respond(model, m))
      case None => None,
      match extractorClient
      case Some(client) => Some((c: seq<IntelExtractor.ConvEntry>) => IntelExtractor.Extract(c, client, lib))
      case None => None)
  }

  const ClassificationErrorReason: string := "Classification error - defaulting to scam"
  const ClassificationErrorConfidence: real := 0.7
  const BenignReason: string := "Message classified as benign"
  const EngageFallback: string := "Sorry, I didn't understand. Can you explain again?"
  /** `f"Maximum turns ({MAX_TURNS}) reached"`. */
  const MaxTurnsReason: string := "Maximum turns (6) reached"
  const EmptyInputReason: string := "Empty user input"
  /** `end_session`'s default reason. */
  const ManualEndReason: string := "Manually ended"

  // ---------------------------------------------------------------- what the agents answer

  /** The classification `classify_node` stores: the classifier's verdict, or the scam default when it cannot be built. */
  function Verdict(agents: Agents, message: string): ClassificationResult {
    match agents.classifier
    case None => ClassificationResult(true, ClassificationErrorConfidence, ClassificationErrorReason)
    case Some(classify) =>
      var r := classify(message);
      ClassificationResult(r.isScam, r.confidence, r.reason)
  }

  /** The reply `engage_node` sends: the responder's answer, or the fallback when it cannot be built. */
  function Reply(agents: Agents, message: string): string {
    match agents.responder
    case None => EngageFallback
    case Some(respond) => respond(message)
  }

  /**
   * The stored confidence lies in [0, 1], only a working classifier can call
   * a message benign, and never a blank one; every reply is the fallback or
   * a presentable answer, and blank input gets the fallback.
   */
  lemma AnswersShape(agents: Agents, message: string)
    requires agents.Behaves()
    ensures 0.0 <= Verdict(agents, message).confidence <= 1.0
    ensures !Verdict(agents, message).isScam ==> agents.classifier.Some? && !IsBlank(message)
    ensures Reply(agents, message) == EngageFallback || HoneypotAgent.Presentable(Reply(agents, message))
    ensures IsBlank(message) ==> Reply(agents, message) == EngageFallback
  {
  }

  // ---------------------------------------------------------------- nodes

  /**
   * `classify_node`: stores the verdict and appends the user message; a
   * benign verdict completes the session. Nothing else changes.
   */
  method ClassifyNode(state: GraphState, agents: Agents) returns (out: GraphState)
    ensures out.classification == Some(Verdict(agents, state.userMessage))
    ensures out.conversation == state.conversation + [Message(User, state.userMessage)]
    ensures out.isComplete == (state.isComplete || !Verdict(agents, state.userMessage).isScam)
    ensures out.stopReason == if Verdict(agents, state.userMessage).isScam then state.stopReason else Some(BenignReason)
    ensures out == state.(classification := out.classification, conversation := out.conversation,
                          isComplete := out.isComplete, stopReason := out.stopReason)
  {
    out := state;
    match agents.classifier {
      case Some(classify) =>
        var result := classify(state.userMessage);
        out := out.(classification := Some(ClassificationResult(result.isScam, result.confidence, result.reason)));
        out := out.(conversation := out.conversation + [Message(User, state.userMessage)]);
        if !result.isScam {
          out := out.(isComplete := true);
          out := out.(stopReason := Some(BenignReason));
        }
      case None =>
        out := out.(classification := Some(ClassificationResult(true, ClassificationErrorConfidence, ClassificationErrorReason)));
        out := out.(conversation := out.conversation + [Message(User, state.userMessage)]);
    }
  }

  datatype Route = Engage | End

  /** `route_after_classify`: stop when complete or classified benign; engage otherwise. */
  function RouteAfterClassify(state: GraphState): (r: Route)
    ensures r == End <==> state.isComplete || (state.classification.Some? && !state.classification.value.isScam)
  {
    if state.isComplete then End
    else if state.classification.Some? && !state.classification.value.isScam then End
    else Engage
  }

  /**
   * `engage_node`: on an open session, one more turn, one agent message and
   * the same text as the current reply; a complete session is left alone.
   */
  method EngageNode(state: GraphState, agents: Agents) returns (out: GraphState)
    ensures state.isComplete ==> out == state
    ensures !state.isComplete ==>
              var reply := Reply(agents, state.userMessage);
              out == state.(agentReply := Some(reply),
                            conversation := state.conversation + [Message(Agent, reply)],
                            turns := state.turns + 1)
    ensures Count(out.conversation, Agent) - Count(state.conversation, Agent) == out.turns - state.turns
  {
    if state.isComplete {
      return state;
    }
    var reply: string;
    match agents.responder {
      case Some(respond) => reply := respond(state.userMessage);
      case None => reply := EngageFallback;
    }
    CountSnoc(state.conversation, Message(Agent, reply), Agent);
    out := state.(agentReply := Some(reply));
    out := out.(conversation := out.conversation + [Message(Agent, reply)]);
    out := out.(turns := out.turns + 1);
  }

  /**
   * `check_exit_node`: the turn ceiling first, then blank input, complete the
   * session with their reasons; otherwise nothing changes.
   */
  method CheckExitNode(state: GraphState) returns (out: GraphState)
    ensures state.turns >= MaxTurns ==> out == state.(isComplete := true, stopReason := Some(MaxTurnsReason))
    ensures state.turns < MaxTurns && IsBlank(state.userMessage) ==>
              out == state.(isComplete := true, stopReason := Some(EmptyInputReason))
    ensures state.turns < MaxTurns && !IsBlank(state.userMessage) ==> out == state
  {
    out := state;
    if state.turns >= MaxTurns {
      out := out.(isComplete := true, stopReason := Some(MaxTurnsReason));
      return;
    }
    if IsBlank(state.userMessage) {
      out := out.(isComplete := true, stopReason := Some(EmptyInputReason));
      return;
    }
  }

  // ---------------------------------------------------------------- one turn

  /** Whether a turn on `state` reaches the engage node. */
  predicate Engages(state: GraphState, agents: Agents) {
    !state.isComplete && Verdict(agents, state.userMessage).isScam
  }

  /**
   * What one run of the graph does to `before`: it always records the verdict
   * and the user message; an engaged turn adds the reply and a turn and
   * completes the session at the ceiling or on blank input; otherwise the
   * session ends here. The id, the message and the extracted indicators stay.
   */
  predicate TurnTaken(before: GraphState, after: GraphState, agents: Agents) {
    var verdict := Verdict(agents, before.userMessage);
    var user := Message(User, before.userMessage);
    var reply := Reply(agents, before.userMessage);
    after.sessionId == before.sessionId && after.userMessage == before.userMessage &&
    after.extractedIntel == before.extractedIntel && after.classification == Some(verdict) &&
    if Engages(before, agents) then
      after.turns == before.turns + 1 &&
      after.conversation == before.conversation + [user, Message(Agent, reply)] &&
      after.agentReply == Some(reply) &&
      after.isComplete == (before.turns + 1 >= MaxTurns || IsBlank(before.userMessage)) &&
      after.stopReason == (if before.turns + 1 >= MaxTurns then Some(MaxTurnsReason)
                           else if IsBlank(before.userMessage) then Some(EmptyInputReason)
                           else before.stopReason)
    else
      after.turns == before.turns &&
      after.conversation == before.conversation + [user] &&
      after.agentReply == before.agentReply &&
      after.isComplete &&
      after.stopReason == (if verdict.isScam then before.stopReason else Some(BenignReason))
  }

  /** `graph.invoke`: classify, then engage and check the stop conditions when the route says so. */
  method RunGraph(state: GraphState, agents: Agents) returns (out: GraphState)
    ensures TurnTaken(state, out, agents)
  {
    var s := ClassifyNode(state, agents);
    if RouteAfterClassify(s) == Engage {
      s := EngageNode(s, agents);
      s := CheckExitNode(s);
    }
    out := s;
  }

  /** A turn on an open session keeps the session invariant: the ceiling, and one agent message per turn. */
  lemma TurnKeepsInv(before: GraphState, after: GraphState, agents: Agents)
    requires before.Inv() && !before.isComplete && TurnTaken(before, after, agents)
    ensures after.Inv()
  {
    var user := Message(User, before.userMessage);
    if Engages(before, agents) {
      var reply := Message(Agent, Reply(agents, before.userMessage));
      CountSnoc(before.conversation, user, Agent);
      CountSnoc(before.conversation + [user], reply, Agent);
      assert before.conversation + [user, reply] == before.conversation + [user] + [reply];
    } else {
      CountSnoc(before.conversation, user, Agent);
    }
  }

  /** A turn gives the honeypot at most one new message, and the conversation only grows at its end. */
  lemma TurnAppends(before: GraphState, after: GraphState, agents: Agents)
    requires TurnTaken(before, after, agents)
    ensures |before.conversation| < |after.conversation| <= |before.conversation| + 2
    ensures after.conversation[..|before.conversation|] == before.conversation
    ensures after.conversation[|before.conversation|] == Message(User, before.userMessage)
    ensures after.turns - before.turns == |after.conversation| - |before.conversation| - 1
    ensures before.isComplete ==> after.isComplete
  {
  }

  // ---------------------------------------------------------------- extraction

  /** The role/content dicts the extractor reads. */
  function Entries(conversation: seq<Message>): (r: seq<IntelExtractor.ConvEntry>)
    ensures |r| == |conversation|
  {
    seq(|conversation|, k requires 0 <= k < |conversation| =>
      IntelExtractor.ConvEntry(Some(RoleName(conversation[k].role)), Some(conversation[k].content)))
  }

  /** The dict `_run_extraction` stores when the extractor cannot be built. */
  const FailedExtraction: Json := JObject(map[
    "bank_accounts" := JArray([]),
    "upi_ids" := JArray([]),
    "phishing_links" := JArray([]),
    "other_indicators" := JArray([])])

  /** The extractor's result for `conversation`, as the dict `_run_extraction` stores. */
  function IntelOf(agents: Agents, conversation: seq<Message>): Json {
    match agents.extractor
    case Some(extract) => extract(Entries(conversation)).ToDict()
    case None => FailedExtraction
  }

  /** A failed extraction stores exactly the dict of an empty result. */
  lemma FailedExtractionIsEmpty()
    ensures FailedExtraction == IntelExtractor.EmptyIntel.ToDict()
  {
    assert IntelExtractor.StringArray([]) == JArray([]);
  }

  /** `_run_extraction`: stores the extracted indicators; nothing else changes. */
  method RunExtraction(state: GraphState, agents: Agents) returns (out: GraphState)
    ensures out == state.(extractedIntel := Some(IntelOf(agents, state.conversation)))
  {
    match agents.extractor {
      case Some(extract) =>
        var intel := extract(Entries(state.conversation));
        out := state.(extractedIntel := Some(intel.ToDict()));
      case None =>
        out := state.(extractedIntel := Some(FailedExtraction));
    }
  }

  /** Whether `process_message` runs extraction on the graph's result. */
  predicate ExtractionDue(result: GraphState) {
    result.isComplete && result.extractedIntel.None? &&
    result.classification.Some? && result.classification.value.isScam
  }

  /** The stored session `process_message` starts from: the known one with the new message, or a fresh one. */
  function Start(sessions: map<string, GraphState>, sessionId: string, message: string): GraphState {
    if sessionId in sessions then sessions[sessionId].(userMessage := message)
    else NewState(sessionId, message)
  }

  /**
   * What `process_message` does to an open session: one turn, and then, if
   * that turn completed a scam session, the extracted indicators.
   */
  predicate Processed(start: GraphState, r: GraphState, agents: Agents) {
    var ran := r.(extractedIntel := None);
    TurnTaken(start, ran, agents) &&
    r.extractedIntel == if ExtractionDue(ran) then Some(IntelOf(agents, ran.conversation)) else None
  }

  /** The turn and the extraction step together make `Processed`, and keep the session invariant. */
  lemma ProcessedFrom(start: GraphState, result: GraphState, agents: Agents, r: GraphState)
    requires start.Inv() && !start.isComplete && TurnTaken(start, result, agents)
    requires r == if ExtractionDue(result) then result.(extractedIntel := Some(IntelOf(agents, result.conversation))) else result
    ensures Processed(start, r, agents) && r.Inv()
    ensures r.sessionId == start.sessionId && r.userMessage == start.userMessage
  {
    assert result.extractedIntel.None?;
    assert r.(extractedIntel := None) == result;
    TurnKeepsInv(start, result, agents);
  }

  /** The graph run and the extraction step of `process_message`, on an open session. */
  method Turn(state: GraphState, agents: Agents) returns (r: GraphState)
    requires state.Inv() && !state.isComplete
    ensures Processed(state, r, agents) && r.Inv()
    ensures r.sessionId == state.sessionId && r.userMessage == state.userMessage
  {
    var result := RunGraph(state, agents);
    var ran := result;
    if result.isComplete && result.extractedIntel.None? {
      var classification := result.classification;
      if classification.Some? && classification.value.isScam {
        result := RunExtraction(result, agents);
      }
    }
    ProcessedFrom(state, ran, agents, result);
    r := result;
  }

  // ---------------------------------------------------------------- the orchestrator

  /** `EngagementOrchestrator`: the sessions, by id. */
  class Orchestrator {
    var sessions: map<string, GraphState>

    /** Every stored session is filed under its own id and keeps the session invariant. */
    ghost predicate Valid()
      reads this
    {
      forall id :: id in sessions ==> sessions[id].sessionId == id && sessions[id].Inv()
    }

    constructor()
      ensures Valid() && sessions == map[]
    {
      sessions := map[];
    }

    /**
     * `process_message`. A complete session only takes the new message and
     * is not classified or engaged; an open one takes one turn, and when
     * that turn ends a scam session its indicators are extracted, once.
     */
    method ProcessMessage(sessionId: string, message: string, agents: Agents) returns (r: GraphState)
      requires Valid()
      modifies this
      ensures Valid()
      ensures sessions == old(sessions)[sessionId := r]
      ensures r.sessionId == sessionId && r.userMessage == message
      ensures Start(old(sessions), sessionId, message).isComplete ==> r == Start(old(sessions), sessionId, message)
      ensures !Start(old(sessions), sessionId, message).isComplete ==>
                Processed(Start(old(sessions), sessionId, message), r, agents)
      ensures sessionId in old(sessions) && old(sessions)[sessionId].isComplete ==> r.isComplete
      ensures sessionId in old(sessions) && old(sessions)[sessionId].extractedIntel.Some? ==>
                r.extractedIntel == old(sessions)[sessionId].extractedIntel
    {
      var state: GraphState;
      if sessionId in sessions {
        state := sessions[sessionId];
        state := state.(userMessage := message);
        sessions := sessions[sessionId := state];
      } else {
        state := NewState(sessionId, message);
      }
      if state.isComplete {
        return state;
      }
      r := Turn(state, agents);
      sessions := sessions[sessionId := r];
    }

    /** `get_session`: the stored state of a known id; `None` for an unknown one. */
    function GetSession(sessionId: string): (r: Option<GraphState>)
      reads this
      ensures r.None? <==> sessionId !in sessions
      ensures r.Some? ==> r.value == sessions[sessionId]
    {
      if sessionId in sessions then Some(sessions[sessionId]) else None
    }

    /** `end_session`: completes a known session with `reason` (by default the manual one); an unknown id changes nothing. */
    method EndSession(sessionId: string, reason: string := ManualEndReason)
      requires Valid()
      modifies this
      ensures Valid()
      ensures sessionId in old(sessions) ==>
                sessions == old(sessions)[sessionId := old(sessions)[sessionId].(isComplete := true, stopReason := Some(reason))]
      ensures sessionId !in old(sessions) ==> sessions == old(sessions)
    {
      if sessionId in sessions {
        sessions := sessions[sessionId := sessions[sessionId].(isComplete := true)];
        sessions := sessions[sessionId := sessions[sessionId].(stopReason := Some(reason))];
      }
    }

    /** `clear_session`: forgets the id, known or not. */
    method ClearSession(sessionId: string)
      requires Valid()
      modifies this
      ensures Valid()
      ensures sessions == old(sessions) - {sessionId}
    {
      sessions := sessions - {sessionId};
    }
  }
}
