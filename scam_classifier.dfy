/**
 * The scam classifier: a fail-safe gatekeeper that asks the language model
 * for a JSON verdict and falls back to "scam" whenever the input, the call or
 * the reply is unusable.
 */
module ScamClassifier {
  import opened Wrappers
  import opened PyText
  import opened ModelBoundary

  const FallbackIsScam: bool := true
  const FallbackConfidence: real := 0.7
  const FallbackReason: string := "Unreliable classification output"
  const EmptyInputReason: string := "Empty or invalid message"
  const NoResponseReason: string := "No response from classifier"

  /** Longest reason, in words, a verdict carries. */
  const MaxReasonWords: nat := 25

  datatype ScamClassificationResult = ScamClassificationResult(isScam: bool, confidence: real, reason: string)
  {
    /** What every verdict the classifier returns satisfies. */
    predicate WellFormed() {
      0.0 <= confidence <= 1.0 && |Words(reason)| <= MaxReasonWords
    }

    /** `to_dict`: the verdict as the JSON object the model is asked to produce. */
    function ToDict(): (j: Json)
      ensures j.JObject? && j.fields.Keys == {"is_scam", "confidence", "reason"}
      ensures j.fields["is_scam"] == JBool(isScam) && j.fields["reason"] == JString(reason)
      ensures j.fields["confidence"] == JFloat(Finite(confidence))
    {
      JObject(map["is_scam" := JBool(isScam), "confidence" := JFloat(Finite(confidence)), "reason" := JString(reason)])
    }
  }

  /** The verdict used whenever nothing reliable is available: scam, at the fallback confidence. */
  function Fallback(reason: string): (r: ScamClassificationResult)
    ensures r.isScam == FallbackIsScam && r.confidence == FallbackConfidence && r.reason == reason
    ensures |reason| <= 2 * MaxReasonWords ==> r.WellFormed()
  {
    WordsCount(reason);
    ScamClassificationResult(FallbackIsScam, FallbackConfidence, reason)
  }

  // ---------------------------------------------------------------- Python conversions

  /** Python's `bool(v)` on a decoded JSON value. */
  function Truthy(v: Json): (b: bool)
    ensures v.JNull? ==> !b
    ensures v.JBool? ==> b == v.b
    ensures v.JString? ==> (b <==> v.s != [])
  {
    match v
    case JNull => false
    case JBool(x) => x
    case JInt(i) => i != 0
    case JFloat(f) => !(f.Finite? && f.value == 0.0)
    case JString(s) => s != []
    case JArray(items) => items != []
    case JObject(fields) => fields != map[]
  }

  function Pow2(n: nat): (p: nat)
    ensures p >= 1
  {
    if n == 0 then 1 else 2 * Pow2(n - 1)
  }

  /** The smallest integer magnitude `float()` rounds past the largest double, raising `OverflowError`. */
  function DoubleOverflow(): int {
    Pow2(1024) - Pow2(970)
  }

  /** Python's `float(v)` on a decoded JSON value; None where it raises. */
  function ToFloat(lib: PyLib, v: Json): (r: Option<Float>)
    ensures v.JBool? ==> r == Some(Finite(if v.b then 1.0 else 0.0))
    ensures v.JFloat? ==> r == Some(v.f)
    ensures v.JNull? || v.JArray? || v.JObject? ==> r.None?
  {
    match v
    case JBool(x) => Some(Finite(if x then 1.0 else 0.0))
    case JInt(i) => if -DoubleOverflow() < i < DoubleOverflow() then Some(Finite(i as real)) else None
    case JFloat(f) => Some(f)
    case JString(s) => lib.parseFloat(s)
    case _ => None
  }

  /** `max(0.0, min(1.0, f))`, including Python's treatment of the IEEE specials. */
  function Clamp(f: Float): (c: real)
    ensures 0.0 <= c <= 1.0
    ensures f.Finite? && 0.0 <= f.value <= 1.0 ==> c == f.value
    ensures f.Finite? && f.value > 1.0 ==> c == 1.0
    ensures f.Finite? && f.value < 0.0 ==> c == 0.0
    ensures f.NaN? || f.PosInf? ==> c == 1.0
    ensures f.NegInf? ==> c == 0.0
  {
    match f
    case Finite(x) => if x < 0.0 then 0.0 else if x > 1.0 then 1.0 else x
    case PosInf => 1.0
    // min(1.0, nan) keeps 1.0, since no comparison with NaN holds
    case NaN => 1.0
    case NegInf => 0.0
  }

  /** A reason of more than 25 words keeps its first 25, joined by single spaces, followed by `...`. */
  function LimitReason(reason: string): (r: string)
    ensures |Words(reason)| <= MaxReasonWords ==> r == reason
  {
    var ws := Words(reason);
    if |ws| > MaxReasonWords then Join(ws[..MaxReasonWords], " ") + "..." else reason
  }

  /** A limited reason has at most 25 words; a cut one keeps the first 24 and marks the 25th. */
  lemma LimitReasonWords(reason: string)
    ensures |Words(LimitReason(reason))| <= MaxReasonWords
    ensures |Words(reason)| > MaxReasonWords ==>
      var ws := Words(reason);
      Words(LimitReason(reason)) == ws[..MaxReasonWords - 1] + [ws[MaxReasonWords - 1] + "..."]
  {
    var ws := Words(reason);
    if |ws| > MaxReasonWords {
      var head := ws[..MaxReasonWords - 1];
      var last := ws[MaxReasonWords - 1];
      assert ws[..MaxReasonWords] == head + [last];
      JoinSnoc(head, last, " ");
      JoinSnoc(head, last + "...", " ");
      assert Join(head + [last + "..."], " ") == LimitReason(reason);
      assert IsWord(last + "...") by {
        assert forall i :: 0 <= i < |last| ==> (last + "...")[i] == last[i];
      }
      WordsOfJoin(head + [last + "..."]);
    }
  }

  // ---------------------------------------------------------------- parsing

  /** `_parse_response`: the verdict a reply encodes, or the fallback when it encodes none. */
  function ParseResponse(lib: PyLib, text: string): (r: ScamClassificationResult)
    ensures r.WellFormed()
    ensures !Decodes(lib, text) ==> r == Fallback(FallbackReason)
    ensures Decodes(lib, text) ==>
      var d := lib.loads(StripCodeFence(text)).value.fields;
      r.isScam == Truthy(d["is_scam"]) &&
      r.confidence == Clamp(ToFloat(lib, d["confidence"]).value) &&
      r.reason == LimitReason(Str(lib, d["reason"]))
  {
    var decoded := lib.loads(StripCodeFence(text));
    if Decodes(lib, text) then
      var d := decoded.value.fields;
      LimitReasonWords(Str(lib, d["reason"]));
      ScamClassificationResult(Truthy(d["is_scam"]), Clamp(ToFloat(lib, d["confidence"]).value), LimitReason(Str(lib, d["reason"])))
    else
      Fallback(FallbackReason)
  }

  /** `_parse_response` as written: clean, decode, check the fields one by one, then convert, clamp and cut. */
  method ParseReply(lib: PyLib, text: string) returns (r: ScamClassificationResult)
    ensures r == ParseResponse(lib, text)
  {
    var cleaned := CleanFences(text);
    var data := lib.loads(cleaned);
    if data.None? || !data.value.JObject? {
      return Fallback(FallbackReason);
    }
    var fields := data.value.fields;
    if "is_scam" !in fields || "confidence" !in fields || "reason" !in fields {
      return Fallback(FallbackReason);
    }
    var isScam := Truthy(fields["is_scam"]);
    var number := ToFloat(lib, fields["confidence"]);
    if number.None? {
      return Fallback(FallbackReason);
    }
    var confidence := Clamp(number.value);
    var reason := Str(lib, fields["reason"]);
    reason := LimitReason(reason);
    r := ScamClassificationResult(isScam, confidence, reason);
  }

  /**
   * The cleaned reply decodes to an object that has the three fields and a
   * confidence `float()` accepts: the case in which `_parse_response` does not
   * fall back.
   */
  predicate Decodes(lib: PyLib, text: string) {
    var decoded := lib.loads(StripCodeFence(text));
    decoded.Some? && decoded.value.JObject? &&
    "is_scam" in decoded.value.fields && "confidence" in decoded.value.fields && "reason" in decoded.value.fields &&
    ToFloat(lib, decoded.value.fields["confidence"]).Some?
  }

  /** A well-formed verdict sent back as its own JSON object is read back unchanged. */
  lemma ParseToDict(lib: PyLib, text: string, v: ScamClassificationResult)
    requires v.WellFormed()
    requires lib.loads(StripCodeFence(text)) == Some(v.ToDict())
    ensures ParseResponse(lib, text) == v
  {
    var d := v.ToDict().fields;
    assert ToFloat(lib, d["confidence"]) == Some(Finite(v.confidence));
    assert Decodes(lib, text);
    assert Truthy(d["is_scam"]) == v.isScam;
    assert Clamp(Finite(v.confidence)) == v.confidence;
    assert LimitReason(Str(lib, d["reason"])) == v.reason;
  }

  /** A benign verdict is never a fallback: it needs a decoded reply whose `is_scam` is falsy. */
  lemma ParseBenignIsExplicit(lib: PyLib, text: string)
    requires !ParseResponse(lib, text).isScam
    ensures Decodes(lib, text)
    ensures !Truthy(lib.loads(StripCodeFence(text)).value.fields["is_scam"])
  {
  }

  // ---------------------------------------------------------------- classify

  /**
   * `classify`: blank input, a failed call and an empty reply give the
   * fallback verdict with their own reasons; otherwise the stripped,
   * truncated message is sent and the reply parsed.
   */
  function Classify(model: Model, lib: PyLib, message: string): (r: ScamClassificationResult)
    ensures r.WellFormed()
    ensures IsBlank(message) ==> r == Fallback(EmptyInputReason)
    ensures !IsBlank(message) && model(TruncateMessage(Strip(message))) == CallFailed ==> r == Fallback(FallbackReason)
    ensures !IsBlank(message) && model(TruncateMessage(Strip(message))) == Replied("") ==> r == Fallback(NoResponseReason)
    ensures !r.isScam ==>
      !IsBlank(message) &&
      var reply := model(TruncateMessage(Strip(message)));
      reply.Replied? && reply.content != "" && r == ParseResponse(lib, reply.content)
    ensures var reply := model(TruncateMessage(Strip(message)));
      !IsBlank(message) && reply.Replied? && reply.content != "" ==> r == ParseResponse(lib, reply.content)
  {
    if IsBlank(message) then Fallback(EmptyInputReason)
    else
      match model(TruncateMessage(Strip(message)))
      case CallFailed => Fallback(FallbackReason)
      case Replied(text) => if text == "" then Fallback(NoResponseReason) else ParseResponse(lib, text)
  }

  /** `classify` as written: a chain of early returns around the model call. */
  method ClassifyMessage(model: Model, lib: PyLib, message: string) returns (r: ScamClassificationResult)
    ensures r == Classify(model, lib, message)
  {
    if IsBlank(message) {
      return Fallback(EmptyInputReason);
    }
    var safeMessage := TruncateMessage(Strip(message));
    var response := model(safeMessage);
    if response.CallFailed? {
      return Fallback(FallbackReason);
    }
    if response.content == "" {
      return Fallback(NoResponseReason);
    }
    r := ParseReply(lib, response.content);
  }

  /** The classifier sees at most 4000 characters of the message, with surrounding whitespace removed. */
  lemma ClassifySeesStrippedPrefix(model: Model, lib: PyLib, message: string, other: string)
    requires !IsBlank(message) && !IsBlank(other)
    requires TruncateMessage(Strip(message)) == TruncateMessage(Strip(other))
    ensures Classify(model, lib, message) == Classify(model, lib, other)
  {
  }
}
