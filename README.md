# Scam honeypot: a verified model of its deterministic core

The honeypot receives messages suspected to come from scammers. It does four things with them:

- It asks a language model whether the message is a scam. The verdict falls back to "scam" whenever the input, the call or the answer is unusable.
- It answers a scam in the voice of a confused but cooperative user. It filters prompt injections out of what it forwards and rejects or reformats what the model answers.
- It keeps each conversation in a session. A session stops after six engagement turns, on blank input, or on a benign verdict.
- When a scam session ends, it extracts the indicators the scammer revealed: UPI ids, links, IFSC codes and bank-account numbers. Regular expressions provide the floor, and a validated model answer can add to it.

The HTTP endpoint adds a keyword-based fast reply and accumulates indicators per session.

The model has one module per source file, plus three shared ones.

Shared modules:

- `Wrappers`: `Option`.
- `Lists`: duplicate-free lists, which model `list(set(...))` and "append if not present".
- `PyText`: the Python string operations the source relies on (`isspace`, `strip`, `split`, `join`, `lower`, `upper`).

Per-file modules:

- `ModelBoundary`: decoded JSON, IEEE floats, the language-model call as a function, truncation and code-fence cleaning.
- `ScamClassifier`.
- `HoneypotAgent`, with `HoneypotPatterns` for the injection patterns and `_sanitize_input`, and `HoneypotOutput` for the output patterns and the reply formatting.
- `IntelPatterns`: the four extraction regexes as hand-written scanners and `findall`.
- `IntelExtractor`.
- `State`: `ConversationState` as a class.
- `Graph`: the nodes and `EngagementOrchestrator`.
- `Endpoint`: the parts of `app/main.py` in scope.

Each language model is a parameter of type `Model`, a function from the text sent to a `ModelReply`: a failed call, or the reply text. `json.loads`, `float()` on a string and `str()` on a decoded value are fields of the parameter `PyLib`.

The orchestrator takes the three agents as an `Agents` value. Each agent is either the function it computes or `None`, where its constructor raises. `Graph.Built` builds that value from the classifier, honeypot and extractor functions of this model.

## Model

| member | source | states |
|---|---|---|
| State.RoleNameRoundTrip | app/orchestration/state.py:17-21 | the role names `user` and `agent` read back as the roles they name |
| State.MessagesRoundTrip | app/orchestration/graph.py:294-297 | the role/content dicts of a conversation read back as the same messages in the same order |
| State.ConversationState.constructor | app/orchestration/state.py:55-63 | a fresh state has no turns, no messages, is not complete, has nothing classified, replied or extracted, and does not stop |
| State.ConversationState.AddUserMessage | app/orchestration/state.py:65-67 | exactly one `user` message is appended; the earlier messages and every other field stay; the agent count is unchanged |
| State.ConversationState.AddAgentMessage | app/orchestration/state.py:69-71 | exactly one `agent` message is appended; the earlier messages and every other field stay; the agent count grows by one |
| State.ConversationState.ShouldStopMeans | app/orchestration/state.py:73-79 | `should_stop` holds exactly when the state is complete or has at least `MAX_TURNS` = 6 turns |
| State.ConversationState.MarkComplete | app/orchestration/state.py:81-84 | sets complete and the stop reason and changes no other field |
| State.ClassificationDict | app/orchestration/state.py:91-95 | a stored verdict is written as an object with exactly `is_scam`, `confidence` and `reason`, holding its three values |
| State.ConversationState.ToDict | app/orchestration/state.py:86-104 | exactly the eight keys; each field under its key; the classification is null exactly when absent and otherwise an object holding exactly `is_scam`, `confidence` and `reason` with the stored values; the conversation list reads back as the conversation |
| State.CountSnoc | app/orchestration/state.py:65-71 | appending a message adds one to its role's count and nothing to the other's |
| Graph.NewState | app/orchestration/graph.py:253-264 | a new session starts open and satisfies the session invariant |
| Graph.Built | app/orchestration/graph.py:52-98 | the classifier, honeypot and extractor of this model behave as the nodes assume: well-formed verdicts, benign only for non-blank input, replies that are the fallback or presentable, duplicate-free extraction with the regex floor |
| Graph.AnswersShape | app/orchestration/graph.py:52-112 | the stored confidence lies in [0, 1]; only a working classifier calls a message benign, never a blank one; every reply is the fallback or presentable, and blank input gets the fallback |
| Graph.ClassifyNode | app/orchestration/graph.py:46-83 | exactly one `user` message with the current text is appended; the classification is overwritten, with the scam default at confidence 0.7 when the classifier cannot be built; a benign verdict completes the session with `Message classified as benign`; the node never reopens a session and changes nothing else |
| Graph.RouteAfterClassify | app/orchestration/graph.py:149-156 | `end` exactly when the session is complete or a classification says not scam; `engage` otherwise, including without a classification |
| Graph.EngageNode | app/orchestration/graph.py:86-115 | a complete state is unchanged; otherwise one more turn, one `agent` message and the same text as the reply, on the success and the fallback paths alike |
| Graph.CheckExitNode | app/orchestration/graph.py:118-142 | the turn ceiling first completes with `Maximum turns (6) reached`; otherwise blank input completes with `Empty user input`; otherwise nothing changes |
| Graph.RunGraph | app/orchestration/graph.py:159-213 | one graph run does exactly what `TurnTaken` describes: classify, then engage and check exit when routed, then end |
| Graph.TurnKeepsInv | app/orchestration/graph.py:267-280 | a turn on an open session keeps `turns <= 6`, one agent message per turn, completion at the ceiling, and no intel before completion |
| Graph.TurnAppends | app/orchestration/graph.py:46-142 | a turn only appends: first the user message, then at most one agent message, which is counted as the turn; a complete session stays complete |
| Graph.FailedExtractionIsEmpty | app/orchestration/graph.py:322-329 | the dict stored when the extractor cannot be built is the dict of an empty result |
| Graph.RunExtraction | app/orchestration/graph.py:311-330 | the extracted indicators, or the four empty lists, are stored and nothing else changes |
| Graph.ProcessedFrom | app/orchestration/graph.py:271-280 | a graph run followed by the extraction step gives `Processed` and keeps the session invariant |
| Graph.Turn | app/orchestration/graph.py:271-278 | on an open session: one turn, then extraction exactly when the turn completed a scam session and nothing was extracted yet |
| Graph.Orchestrator.constructor | app/orchestration/graph.py:228-231 | no sessions |
| Graph.Orchestrator.ProcessMessage | app/orchestration/graph.py:233-282 | every stored session keeps its invariant; only this id's entry changes; a complete session only takes the new message; an open one is `Processed`; completion never reverts; extracted intel is never recomputed |
| Graph.Orchestrator.GetSession | app/orchestration/graph.py:332-336 | absent exactly for an unknown id; otherwise the stored state |
| Graph.Orchestrator.EndSession | app/orchestration/graph.py:338-342 | a known session is completed with the reason, `Manually ended` when none is given, and nothing else changes; an unknown id changes nothing; the invariant holds |
| Graph.Orchestrator.ClearSession | app/orchestration/graph.py:344-346 | exactly this id is removed, known or not |
| ModelBoundary.TruncateMessage | app/agents/scam_classifier.py:91-93 | unchanged up to 4000 characters; otherwise the first 4000 followed by `... [TRUNCATED]` |
| ModelBoundary.TruncateBounded | app/agents/honeypot_agent.py:78-80 | a truncated message is at most 4000 characters plus the marker, and is a prefix of the message when nothing was cut |
| ModelBoundary.TruncateKeepsPrefix | app/agents/honeypot_agent.py:78-80 | the first 4000 characters are kept as they are |
| ModelBoundary.TruncateIdempotent | app/agents/scam_classifier.py:91-93 | truncating a truncated message changes nothing more |
| ModelBoundary.StripCodeFence | app/agents/scam_classifier.py:110-119 | the cleaned reply is trimmed, and a reply that does not open with a fence is only stripped |
| ModelBoundary.CleanFences | app/agents/intel_extractor.py:237-243 | the step-by-step cleaning equals `StripCodeFence` |
| ModelBoundary.StripCodeFencePayload | app/agents/scam_classifier.py:110-119 | a payload between an opening fence line and a closing fence line is recovered, stripped |
| ModelBoundary.StripCodeFenceUnfenced | app/agents/scam_classifier.py:110-119 | cleaning an unfenced reply twice is cleaning it once |
| ScamClassifier.Fallback | app/agents/scam_classifier.py:23-25 | every fail-safe verdict says scam at confidence 0.7 and carries its own reason |
| ScamClassifier.ScamClassificationResult.ToDict | app/agents/scam_classifier.py:42-48 | exactly the three keys, holding the three fields |
| ScamClassifier.Truthy | app/agents/scam_classifier.py:136 | `bool()` of null is false, of a bool is itself, of a string is non-emptiness |
| ScamClassifier.ToFloat | app/agents/scam_classifier.py:138 | `float()` of a bool is 0 or 1, of a float is itself, and raises on null, lists and objects |
| ScamClassifier.Clamp | app/agents/scam_classifier.py:139-140 | the result lies in [0, 1], values inside are kept, values above or below are cut, and NaN and the infinities are treated as Python does |
| ScamClassifier.LimitReason | app/agents/scam_classifier.py:143-146 | a reason of at most 25 words is unchanged |
| ScamClassifier.LimitReasonWords | app/agents/scam_classifier.py:143-146 | the result has at most 25 words; a longer reason keeps its first 24 words and the 25th followed by `...` |
| ScamClassifier.ParseResponse | app/agents/scam_classifier.py:108-160 | always well-formed; the fallback `Unreliable classification output` unless the cleaned reply decodes to an object with the three fields and a confidence `float()` accepts (for an integer past the largest double the fallback is the one `classify` returns at scam_classifier.py:209-215, since `_parse_response` does not catch the `OverflowError`); otherwise `bool`, clamped `float` and word-limited `str` of the fields |
| ScamClassifier.ParseReply | app/agents/scam_classifier.py:108-160 | the step-by-step parse equals `ParseResponse` |
| ScamClassifier.ParseToDict | app/agents/scam_classifier.py:42-48 | a well-formed verdict, returned as its own JSON object, parses back to itself |
| ScamClassifier.ParseBenignIsExplicit | app/agents/scam_classifier.py:136 | a benign verdict needs a decoded reply whose `is_scam` is falsy |
| ScamClassifier.Classify | app/agents/scam_classifier.py:162-215 | always well-formed; blank input gives `Empty or invalid message`, a failed call `Unreliable classification output`, an empty reply `No response from classifier`, all scam at 0.7; a non-empty reply to the stripped, truncated message is answered with its parsed verdict, scam or benign, and a benign verdict only comes that way |
| ScamClassifier.ClassifyMessage | app/agents/scam_classifier.py:176-215 | the chain of early returns equals `Classify` |
| ScamClassifier.ClassifySeesStrippedPrefix | app/agents/scam_classifier.py:184 | two messages with the same stripped, truncated text get the same verdict |
| HoneypotPatterns.MatchInjection | app/agents/honeypot_agent.py:96-104 | a match of an injection pattern is non-empty and lies inside the text |
| HoneypotPatterns.SubClean | app/agents/honeypot_agent.py:107 | text in which a pattern matches nowhere is left unchanged by `re.sub` |
| HoneypotPatterns.SubLeftmost | app/agents/honeypot_agent.py:107 | `re.sub` keeps the characters before the leftmost match and replaces that match by `[FILTERED]` |
| HoneypotPatterns.NoMatchSurvives | app/agents/honeypot_agent.py:106-107 | after a pass, the pattern matches nowhere, and a later pass creates no match of an earlier non-token pattern |
| HoneypotPatterns.NoTokenSurvives | app/agents/honeypot_agent.py:103-107 | after the special-token pass no `<|...|>` token is left |
| HoneypotPatterns.SanitizedClean | app/agents/honeypot_agent.py:93-109 | no injection pattern matches anywhere in sanitised text |
| HoneypotPatterns.SanitizedIdempotent | app/agents/honeypot_agent.py:93-109 | sanitising sanitised text changes nothing |
| HoneypotAgent.SanitizeInput | app/agents/honeypot_agent.py:93-109 | the loop over the patterns equals `Sanitized`, in which no pattern matches |
| HoneypotAgent.AgentInput | app/agents/honeypot_agent.py:163-164 | what is sent is at most 4000 characters plus the marker |
| HoneypotAgent.AgentInputClean | app/agents/honeypot_agent.py:163-164 | no injection pattern matches in what the model is sent, truncation marker included |
| HoneypotAgent.PlainTruncated | app/agents/honeypot_agent.py:164 | truncation creates no match of a non-token injection pattern |
| HoneypotAgent.TokenTruncated | app/agents/honeypot_agent.py:164 | truncation creates no special token |
| HoneypotAgent.ValidateOutput | app/agents/honeypot_agent.py:111-146 | the loop over the unsafe patterns with its early return equals `Validated` |
| HoneypotAgent.ValidatedShape | app/agents/honeypot_agent.py:122-146 | exactly the fallback when the raw reply matches an unsafe pattern or a link head; otherwise a presentable reply: no markdown characters, no emoji, at most three sentences, trimmed |
| HoneypotAgent.ValidatedPlain | app/agents/honeypot_agent.py:130-146 | a safe reply that is already presentable is sent unchanged |
| HoneypotAgent.ValidatedRevealsLink | app/agents/honeypot_agent.py:122-131 | `w*ww.` passes the link check and is sent as `www.`, which the check would have rejected |
| HoneypotAgent.ValidatedRevealsDisclosure | app/agents/honeypot_agent.py:122-131 | `a*s an ai` passes the unsafe check and is sent as `as an ai`, which the check would have rejected |
| HoneypotAgent.ValidatedEmpty | app/agents/honeypot_agent.py:122-146 | a reply of `**` passes both checks and is sent as the empty string |
| HoneypotAgent.Respond | app/agents/honeypot_agent.py:148-188 | blank input gives the fallback; a non-empty reply to the cleaned message is sent as its validation; every answer is the fallback or presentable |
| HoneypotAgent.RespondFromReply | app/agents/honeypot_agent.py:159-184 | an answer other than the fallback is the validation of a non-empty reply to the cleaned input |
| HoneypotAgent.RespondEmptyAnswer | app/agents/honeypot_agent.py:180-184 | the empty-reply check comes before validation, so a reply of markers alone is sent as an empty answer |
| HoneypotOutput.SearchFinds | app/agents/honeypot_agent.py:123 | a phrase of a pattern occurring anywhere, ignoring case, is found by the search |
| HoneypotOutput.ShortIsSafe | app/agents/honeypot_agent.py:25-33 | no unsafe phrase fits in fewer than six characters |
| HoneypotOutput.StripMarkdownRemovesMarkers | app/agents/honeypot_agent.py:131 | removing `**` and `__` first equals removing every `*`, `_`, backtick and `#`, and none is left |
| HoneypotOutput.ClipSentences | app/agents/honeypot_agent.py:133-137 | more than three sentences are cut to exactly the first three; three or fewer are left as they are |
| HoneypotOutput.ClipJoined | app/agents/honeypot_agent.py:137 | three sentences joined by `. ` and closed by `.` read back as the same three sentences |
| HoneypotOutput.FormatShape | app/agents/honeypot_agent.py:130-146 | the formatted reply has no markdown characters, no emoji of the four ranges, at most three sentences, and no surrounding whitespace |
| HoneypotOutput.FormatPlain | app/agents/honeypot_agent.py:130-146 | a reply that is already plain, short and trimmed is unchanged |
| HoneypotOutput.FormatMarked | app/agents/honeypot_agent.py:131 | a reply that is presentable once its markers are gone is sent as exactly that |
| HoneypotOutput.FormatDropsMarker | app/agents/honeypot_agent.py:131 | one marker inside a presentable reply is dropped and nothing else changes |
| IntelPatterns.RunEnd | app/agents/intel_extractor.py:71 | the greedy run of a character class ends at the first character outside it |
| IntelPatterns.FindAllFound | app/agents/intel_extractor.py:122 | every string `findall` returns is the group of a match in the text |
| IntelPatterns.FindAllNone | app/agents/intel_extractor.py:122 | where no match starts, `findall` returns nothing |
| IntelPatterns.UpiFound | app/agents/intel_extractor.py:70-74 | every UPI group, lower-cased, is `local@provider` with the provider from the allow-list, and occurs in the text ignoring case |
| IntelPatterns.LinkFound | app/agents/intel_extractor.py:77-81 | every link opens with `http://`, `https://` or a listed shortener and slash, continues with URL characters only, and occurs in the text |
| IntelPatterns.IfscFound | app/agents/intel_extractor.py:84-87 | every IFSC group, upper-cased, is four letters, `0` and six letters or digits, and occurs in the text ignoring case |
| IntelPatterns.BankFound | app/agents/intel_extractor.py:91-94 | every account is a run of 9 to 18 digits right after a keyword, with separators and at most one number word in between, ending at a word boundary |
| IntelPatterns.NoProviderNoUpi | app/agents/intel_extractor.py:70-74 | without an allow-listed provider after an `@` there is no UPI match |
| IntelPatterns.NoKeywordNoBank | app/agents/intel_extractor.py:91-94 | without the letter `a` there is no keyword, so no bank-account match |
| Lists.AddMissing | app/main.py:284-286 | the old list is kept as a prefix; the result holds exactly the old items and the new ones; no duplicates are introduced |
| Lists.Union | app/agents/intel_extractor.py:55-62 | `list(set(a + b))` holds exactly the items of either list, once each |
| Lists.UnionSelf | app/agents/intel_extractor.py:55-62 | the union of a duplicate-free list with itself is that list |
| IntelExtractor.ScamIntelResult.Merge | app/agents/intel_extractor.py:55-62 | each category holds exactly the items of that category in either side, without duplicates |
| IntelExtractor.ScamIntelResult.ToDict | app/agents/intel_extractor.py:37-44 | an object holding a key for every category, each under its key as the list of that category's strings |
| IntelExtractor.MergeIsEmpty | app/agents/intel_extractor.py:46-62 | a merge is empty exactly when both sides are |
| IntelExtractor.MergeSelf | app/agents/intel_extractor.py:55-62 | merging a result with itself keeps every category's set, and keeps a duplicate-free result as it is |
| IntelExtractor.MergeKeeps | app/agents/intel_extractor.py:55-62 | both sides are within their merge |
| IntelExtractor.RegexIntel | app/agents/intel_extractor.py:106-137 | every category of the regex result is duplicate-free |
| IntelExtractor.ExtractViaRegex | app/agents/intel_extractor.py:106-137 | filling a fresh result one category at a time gives `RegexIntel` |
| IntelExtractor.RegexUpiIds | app/agents/intel_extractor.py:122-123 | every UPI id is lower-case, has an allow-listed provider, and occurs in the text ignoring case |
| IntelExtractor.RegexLinks | app/agents/intel_extractor.py:126-127 | every link is link-shaped and occurs in the text |
| IntelExtractor.RegexIfscCodes | app/agents/intel_extractor.py:130-131 | every other indicator is 11 characters, upper-case, IFSC-shaped, and occurs in the text ignoring case |
| IntelExtractor.RegexBankAccounts | app/agents/intel_extractor.py:134-135 | every bank account is 9 to 18 digits right after a keyword |
| IntelExtractor.NoProviderNoUpiId | app/agents/intel_extractor.py:122-123 | a text such as an e-mail address without an allow-listed provider yields no UPI id |
| IntelExtractor.NoKeywordNoBankAccount | app/agents/intel_extractor.py:134-135 | a text without the letter `a`, such as a bare number, has no keyword and so yields no bank account |
| IntelExtractor.Strings | app/agents/intel_extractor.py:195-200 | present exactly for a list whose items are all strings, and then those strings in order |
| IntelExtractor.ValidatedIntel | app/agents/intel_extractor.py:183-210 | present exactly when the answer is an object with all four keys, each a list of strings; then exactly those four lists |
| IntelExtractor.ValidateLlmResult | app/agents/intel_extractor.py:183-210 | the nested loops with early returns equal `ValidatedIntel` |
| IntelExtractor.ToDictValidates | app/agents/intel_extractor.py:37-44 | a result's dict validates back to the same result |
| IntelExtractor.LlmIntelValidated | app/agents/intel_extractor.py:212-252 | whatever the model adds comes from a non-empty reply that decodes and validates |
| IntelExtractor.ExtractViaLlm | app/agents/intel_extractor.py:212-252 | the step-by-step call, cleaning, decoding and validation equals `LlmIntel` |
| IntelExtractor.FormatConversation | app/agents/intel_extractor.py:174-181 | the loop building the lines equals the `role: content` lines joined by newlines |
| IntelExtractor.TranscriptLines | app/agents/intel_extractor.py:174-181 | when no role or content holds a newline, the transcript splits back into exactly the message lines |
| IntelExtractor.Extract | app/agents/intel_extractor.py:254-283 | an empty conversation gives the empty result; otherwise the regex result over the transcript is within the output, and equals it when the model adds nothing; a validated model answer is within the output too; the output is duplicate-free |
| IntelExtractor.ExtractSources | app/agents/intel_extractor.py:254-283 | every indicator was found by a pattern or given by a validated model answer |
| IntelExtractor.ExtractFromText | app/agents/intel_extractor.py:285-297 | the text is read as the single line `text: ...`, with the same floor, fallback and inclusion of a validated model answer as `extract` |
| Endpoint.RuleBasedReply | app/main.py:84-101 | one of the four replies; a missing or blank message gets the fallback |
| Endpoint.RuleBasedReplyChoice | app/main.py:90-101 | the account reply exactly when an account keyword occurs; the prize reply exactly when a prize keyword but no account keyword occurs; the payment reply exactly when only payment keywords occur; otherwise the fallback |
| Endpoint.RuleBasedReplyIgnoresCase | app/main.py:86 | the reply to a message is the reply to its lower-cased form |
| Endpoint.RepliesDistinct | app/main.py:95-101 | the four replies are different texts, pairwise, with their lengths |
| Endpoint.SessionData.constructor | app/main.py:42-52 | nothing exchanged, nothing detected, all lists empty |
| Endpoint.SessionData.Record | app/main.py:256-286 | two more messages; a scam verdict is detected and its reason noted; UPI ids, links and accounts become set unions with the new intel; keywords only gain new items; phone numbers untouched; no list holds a duplicate |
| Endpoint.SessionData.AddSuspiciousKeywords | app/main.py:284-286 | the loop appends, in order, each indicator not yet present |
| Endpoint.KeywordsGrow | app/main.py:284-286 | after an update the old keywords remain, first and in order; each added one is new and comes from the intel; nothing is listed twice |

## Left out

- The language-model calls, prompt files and model names are left out. Each model is an abstract function from the text it is sent to a reply or a failed call, and any exception on the call path is a failed call.
- `json.loads`, `float()` on strings and `str()` on non-string values are left out. They are library code, so they are fields of `PyLib`. `float()` of a bool, a float, null, a list or an object is modelled. It raises an `OverflowError` past the largest double. `_parse_response` does not catch that error; `classify` catches it with `except Exception` and returns the same `Unreliable classification output` result. `ParseResponse` returns that result itself, which is the same when observed through `classify`.
- The LangGraph graph construction (app/orchestration/graph.py:168-213) is left out. `Graph.RunGraph` runs the fixed sequence classify, route, engage, check exit. `route_after_exit_check` always ends the run.
- The nodes mutate the state dict in place and LangGraph stores the dict they return. The model treats that as an update of the `GraphState` value, so aliasing between the stored dict and the returned one is not modelled.
- `_dict_to_state` is a record conversion, so `ProcessMessage` and `GetSession` return the stored `GraphState`. `State.MessagesRoundTrip` covers the conversation comprehension. The state dict's classification always holds its three keys, since `classify_node` builds all three, so a classification without `is_scam` is not modelled.
- Graph.Agents: an agent whose constructor raises (missing API key or prompt file) is `None`. Construction is not modelled further.
- The HTTP handlers, body parsing, API-key check, `_generate_reply`, the callback and the health routes are left out as plumbing. So are app/api/routes.py, app/api/schemas.py, configuration, `uuid` and all clocks. `SessionData.start_time` and the engagement duration are not modelled. The assembly of `conversation_for_extraction` in `honeypot_endpoint` is not modelled either: `Record` takes the extracted intel as given.
- `list(set(...))` has an unspecified order in Python. The model keeps the first occurrence, so statements about order are made only where the source keeps one (`suspicious_keywords`).
- Case-insensitive matching, `lower()` and `upper()` cover ASCII letters only. `\d` is an ASCII digit and `\w` an ASCII letter, digit or `_`. Unicode case folding and Unicode digits are not modelled.
- Python's `re` engine is not modelled. Each pattern is a hand-written scanner or a finite set of phrases. The override patterns are matched greedily, trying each optional word before skipping it. A comment argues that this finds the same matches as backtracking, but this is not proved. `LONG_NUMBER_PATTERN` is never used by the source.
- Floats are reals, plus NaN and the infinities where `float()` can produce them. Rounding is not modelled.
- Decoded JSON values other than strings inside the extractor's lists, and messages whose role or content is not a string, are outside the model.
- The unsafe-pattern and link checks of `_validate_output` run on the raw reply, before markdown is removed and sentences are re-joined. So the final reply is not claimed to be free of links or unsafe phrases. `ValidatedRevealsLink`, `ValidatedRevealsDisclosure` and `ValidatedEmpty` exhibit what gets through.
- Concurrency is left out: sessions are processed one call at a time.
