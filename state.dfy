/**
 * The record of one engagement session: who said what, how many turns the
 * honeypot has taken, and whether and why the conversation has ended.
 */
module State {
  import opened Wrappers
  import opened ModelBoundary

  /** The ceiling on engagement turns; reaching it ends the conversation. */
  const MaxTurns: nat := 6

  /** `Literal["user", "agent"]`: the scammer's side or the honeypot's. */
  datatype Role = User | Agent

  function RoleName(r: Role): string {
    match r
    case User => "user"
    case Agent => "agent"
  }

  /** The role a serialised role name stands for; `None` for any other string. */
  function RoleOf(name: string): (r: Option<Role>)
    ensures r.Some? ==> RoleName(r.value) == name
  {
    if name == "user" then Some(User)
    else if name == "agent" then Some(Agent)
    else None
  }

  /** Reading a role back from its name gives the role. */
  lemma RoleNameRoundTrip(r: Role)
    ensures RoleOf(RoleName(r)) == Some(r)
  {
  }

  /** `Message`: one utterance of the conversation. */
  datatype Message = Message(role: Role, content: string)

  /** `ClassificationResult`: the classifier's verdict as the state stores it. */
  datatype ClassificationResult = ClassificationResult(isScam: bool, confidence: real, reason: string)

  /** How many messages of `conversation` come from `role`. */
  function Count(conversation: seq<Message>, role: Role): (n: nat)
    ensures n <= |conversation|
  {
    if conversation == [] then 0
    else
      var last := conversation[|conversation| - 1];
      Count(conversation[..|conversation| - 1], role) + (if last.role == role then 1 else 0)
  }

  /** Appending one message adds one to its role's count and nothing to the other's. */
  lemma CountSnoc(conversation: seq<Message>, m: Message, role: Role)
    ensures Count(conversation + [m], role) == Count(conversation, role) + (if m.role == role then 1 else 0)
  {
    assert (conversation + [m])[..|conversation|] == conversation;
  }

  // ---------------------------------------------------------------- serialised form

  /** `{"role": m.role, "content": m.content}`. */
  function MessageDict(m: Message): Json {
    JObject(map["role" := JString(RoleName(m.role)), "content" := JString(m.content)])
  }

  function MessageDicts(conversation: seq<Message>): (r: seq<Json>)
    ensures |r| == |conversation| && forall k :: 0 <= k < |r| ==> r[k] == MessageDict(conversation[k])
  {
    seq(|conversation|, k requires 0 <= k < |conversation| => MessageDict(conversation[k]))
  }

  /** The message a serialised dict describes: both keys present, a known role, a string content. */
  function MessageOf(j: Json): Option<Message> {
    if j.JObject? && "role" in j.fields && "content" in j.fields &&
       j.fields["role"].JString? && j.fields["content"].JString? &&
       RoleOf(j.fields["role"].s).Some?
    then Some(Message(RoleOf(j.fields["role"].s).value, j.fields["content"].s))
    else None
  }

  /** `[Message(role=m["role"], content=m["content"]) for m in ...]`; `None` when an entry is not a message. */
  function MessagesOf(js: seq<Json>): (r: Option<seq<Message>>)
    ensures r.Some? ==> |r.value| == |js|
  {
    if js == [] then Some([])
    else
      match (MessageOf(js[0]), MessagesOf(js[1..]))
      case (Some(m), Some(ms)) => Some([m] + ms)
      case _ => None
  }

  /** The serialised conversation reads back as the same messages, in the same order. */
  lemma {:induction false} MessagesRoundTrip(conversation: seq<Message>)
    ensures MessagesOf(MessageDicts(conversation)) == Some(conversation)
    decreases |conversation|
  {
    if conversation != [] {
      var js := MessageDicts(conversation);
      assert js[1..] == MessageDicts(conversation[1..]);
      MessagesRoundTrip(conversation[1..]);
      RoleNameRoundTrip(conversation[0].role);
      assert MessageOf(js[0]) == Some(conversation[0]);
      assert [conversation[0]] + conversation[1..] == conversation;
    }
  }

  function OptionalString(v: Option<string>): Json {
    match v
    case Some(s) => JString(s)
    case None => JNull
  }

  function OptionalJson(v: Option<Json>): Json {
    match v
    case Some(j) => j
    case None => JNull
  }

  /** The stored verdict as an object holding exactly `is_scam`, `confidence` and `reason`. */
  function ClassificationDict(c: ClassificationResult): (j: Json)
    ensures j.JObject? && j.fields.Keys == {"is_scam", "confidence", "reason"}
    ensures j.fields["is_scam"] == JBool(c.isScam) && j.fields["reason"] == JString(c.reason)
    ensures j.fields["confidence"] == JFloat(Finite(c.confidence))
  {
    JObject(map["is_scam" := JBool(c.isScam), "confidence" := JFloat(Finite(c.confidence)), "reason" := JString(c.reason)])
  }

  /** The keys `to_dict` writes. */
  const StateKeys: set<string> :=
    {"session_id", "turns", "is_complete", "stop_reason", "classification", "agent_reply", "conversation", "extracted_intel"}

  // ---------------------------------------------------------------- the state object

  /** All fields of a `ConversationState`, as one value. */
  datatype Snapshot = Snapshot(
    sessionId: string,
    userMessage: string,
    turns: int,
    conversation: seq<Message>,
    isComplete: bool,
    classification: Option<ClassificationResult>,
    agentReply: Option<string>,
    stopReason: Option<string>,
    extractedIntel: Option<Json>)

  /** `ConversationState`: the state of one session, updated in place by its methods. */
  class ConversationState {
    var sessionId: string
    var userMessage: string
    var turns: int
    var conversation: seq<Message>
    var isComplete: bool
    var classification: Option<ClassificationResult>
    var agentReply: Option<string>
    var stopReason: Option<string>
    var extractedIntel: Option<Json>

    function Fields(): Snapshot
      reads this
    {
      Snapshot(sessionId, userMessage, turns, conversation, isComplete, classification, agentReply, stopReason, extractedIntel)
    }

    /** A fresh state: no turns, no messages, not complete, and nothing classified, replied or extracted. */
    constructor(sessionId: string, userMessage: string)
      ensures Fields() == Snapshot(sessionId, userMessage, 0, [], false, None, None, None, None)
      ensures !ShouldStop()
    {
      this.sessionId := sessionId;
      this.userMessage := userMessage;
      turns := 0;
      conversation := [];
      isComplete := false;
      classification := None;
      agentReply := None;
      stopReason := None;
      extractedIntel := None;
    }

    /** `add_user_message`: one more message, from the user; nothing else changes. */
    method AddUserMessage(content: string)
      modifies this
      ensures Fields() == old(Fields()).(conversation := old(conversation) + [Message(User, content)])
      ensures Count(conversation, User) == old(Count(conversation, User)) + 1
      ensures Count(conversation, Agent) == old(Count(conversation, Agent))
    {
      CountSnoc(conversation, Message(User, content), User);
      CountSnoc(conversation, Message(User, content), Agent);
      conversation := conversation + [Message(User, content)];
    }

    /** `add_agent_message`: one more message, from the agent; nothing else changes. */
    method AddAgentMessage(content: string)
      modifies this
      ensures Fields() == old(Fields()).(conversation := old(conversation) + [Message(Agent, content)])
      ensures Count(conversation, Agent) == old(Count(conversation, Agent)) + 1
      ensures Count(conversation, User) == old(Count(conversation, User))
    {
      CountSnoc(conversation, Message(Agent, content), User);
      CountSnoc(conversation, Message(Agent, content), Agent);
      conversation := conversation + [Message(Agent, content)];
    }

    /** `should_stop`: the conversation is over once it is marked complete or has used all its turns. */
    predicate ShouldStop()
      reads this
    {
      if isComplete then true
      else if turns >= MaxTurns then true
      else false
    }

    /** `should_stop` is exactly "complete or out of turns". */
    lemma ShouldStopMeans()
      ensures ShouldStop() <==> isComplete || turns >= MaxTurns
    {
    }

    /** `mark_complete`: completes the conversation with `reason`; nothing else changes. */
    method MarkComplete(reason: string)
      modifies this
      ensures Fields() == old(Fields()).(isComplete := true, stopReason := Some(reason))
      ensures ShouldStop()
    {
      isComplete := true;
      stopReason := Some(reason);
    }

    /** `to_dict`: every field under its key, the conversation as a list of role/content dicts. */
    function ToDict(): (d: Json)
      reads this
      ensures d.JObject? && d.fields.Keys == StateKeys
      ensures d.fields["session_id"] == JString(sessionId) && d.fields["turns"] == JInt(turns)
      ensures d.fields["is_complete"] == JBool(isComplete)
      ensures d.fields["stop_reason"] == OptionalString(stopReason)
      ensures d.fields["agent_reply"] == OptionalString(agentReply)
      ensures d.fields["extracted_intel"] == OptionalJson(extractedIntel)
      ensures d.fields["classification"] == JNull <==> classification.None?
      ensures classification.Some? ==> d.fields["classification"] == ClassificationDict(classification.value)
      ensures d.fields["conversation"].JArray? &&
              MessagesOf(d.fields["conversation"].items) == Some(conversation)
    {
      MessagesRoundTrip(conversation);
      JObject(map[
        "session_id" := JString(sessionId),
        "turns" := JInt(turns),
        "is_complete" := JBool(isComplete),
        "stop_reason" := OptionalString(stopReason),
        "classification" := (match classification case Some(c) => ClassificationDict(c) case None => JNull),
        "agent_reply" := OptionalString(agentReply),
        "conversation" := JArray(MessageDicts(conversation)),
        "extracted_intel" := OptionalJson(extractedIntel)])
    }
  }
}
