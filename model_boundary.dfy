/**
 * What the agents share at their boundary with the language model: the
 * values a JSON reply decodes to, the replies a chat-completion call can
 * give, the Python library calls the agents apply to those replies, and the
 * two text-cleaning steps both the classifier and the extractor perform
 * (input truncation and markdown code-fence removal).
 */
module ModelBoundary {
  import opened Wrappers
  import opened PyText

  /** A Python `float`: a real value, or one of the IEEE specials `json.loads` accepts. */
  datatype Float = Finite(value: real) | PosInf | NegInf | NaN

  /** The Python value `json.loads` produces. */
  datatype Json =
    | JNull
    | JBool(b: bool)
    | JInt(i: int)
    | JFloat(f: Float)
    | JString(s: string)
    | JArray(items: seq<Json>)
    | JObject(fields: map<string, Json>)

  /**
   * The outcome of one chat-completion call: an exception, or the content of
   * the first choice (a `None` content is modelled as the empty string, which
   * the agents treat the same way).
   */
  datatype ModelReply = CallFailed | Replied(content: string)

  /** The language model behind one agent, as a function of the user content it is sent. */
  type Model = string -> ModelReply

  /**
   * The library calls the agents rely on but that this model does not define:
   * `json.loads` (None when it raises), `float()` applied to a string (None
   * when it raises), and `repr` of a non-string value (what `str()` gives).
   */
  datatype PyLib = PyLib(
    loads: string -> Option<Json>,
    parseFloat: string -> Option<Float>,
    repr: Json -> string)

  /** Python's `str(v)` on a decoded JSON value. */
  function Str(lib: PyLib, v: Json): (r: string)
    ensures v.JString? ==> r == v.s
  {
    if v.JString? then v.s else lib.repr(v)
  }

  // ---------------------------------------------------------------- truncation

  /** Longest input, in characters, an agent forwards to the model unchanged. */
  const MaxMessageLength: nat := 4000

  const TruncationMarker: string := "... [TRUNCATED]"

  /** `_truncate_message`: over-long input is cut to its first 4000 characters and marked. */
  function TruncateMessage(m: string): (r: string)
    ensures |m| <= MaxMessageLength ==> r == m
    ensures |m| > MaxMessageLength ==>
      |r| == MaxMessageLength + |TruncationMarker| &&
      r[..MaxMessageLength] == m[..MaxMessageLength] &&
      r[MaxMessageLength..] == TruncationMarker
  {
    if |m| > MaxMessageLength then m[..MaxMessageLength] + TruncationMarker else m
  }

  /** What is forwarded is never longer than the limit plus the marker. */
  lemma TruncateBounded(m: string)
    ensures |TruncateMessage(m)| <= MaxMessageLength + |TruncationMarker|
    ensures StartsWith(m, TruncateMessage(m)) || |m| > MaxMessageLength
  {
  }

  /** Below the limit, a truncated message agrees with the original character for character. */
  lemma TruncateKeepsPrefix(m: string, a: nat, e: nat)
    requires a <= e <= MaxMessageLength && e <= |m|
    ensures TruncateMessage(m)[a..e] == m[a..e]
  {
    if |m| > MaxMessageLength {
      var r := TruncateMessage(m);
      forall k | a <= k < e
        ensures r[k] == m[k]
      {
        assert r[k] == r[..MaxMessageLength][k];
      }
      assert r[a..e] == m[a..e];
    }
  }

  /** Truncating a truncated message changes nothing more. */
  lemma TruncateIdempotent(m: string)
    ensures TruncateMessage(TruncateMessage(m)) == TruncateMessage(m)
  {
    var r := TruncateMessage(m);
    if |m| > MaxMessageLength {
      assert r[..MaxMessageLength] + TruncationMarker == r;
    }
  }

  // ---------------------------------------------------------------- code fences

  const Fence: string := "```"

  /**
   * The reply cleaning both the classifier and the extractor apply before
   * `json.loads`: strip, and when the text opens with a code fence drop its
   * first line, drop its last line when that line is a bare fence, and strip
   * again.
   */
  function StripCodeFence(text: string): (r: string)
    ensures Trimmed(r)
    ensures !StartsWith(Strip(text), Fence) ==> r == Strip(text)
  {
    var cleaned := Strip(text);
    if StartsWith(cleaned, Fence) then Strip(FenceBody(cleaned)) else cleaned
  }

  /** `r` neither starts nor ends with whitespace. */
  predicate Trimmed(r: string) {
    r != [] ==> !IsSpace(r[0]) && !IsSpace(r[|r| - 1])
  }

  /** The text between the opening line and a closing fence line, lines joined again. */
  function FenceBody(cleaned: string): string {
    Join(DropClosingFence(SplitOn(cleaned, '\n')[1..]), "\n")
  }

  /** The lines after the opening one, without the last when that is a bare fence. */
  function DropClosingFence(lines: seq<string>): seq<string> {
    if lines != [] && Strip(lines[|lines| - 1]) == Fence then lines[..|lines| - 1] else lines
  }

  /** The cleaning as written: `cleaned` and `lines` reassigned step by step. */
  method CleanFences(text: string) returns (cleaned: string)
    ensures cleaned == StripCodeFence(text)
  {
    cleaned := Strip(text);
    if StartsWith(cleaned, Fence) {
      ghost var fenced := cleaned;
      var lines := SplitOn(cleaned, '\n');
      lines := lines[1..];
      ghost var afterOpener := lines;
      if lines != [] && Strip(lines[|lines| - 1]) == Fence {
        lines := lines[..|lines| - 1];
      }
      assert lines == DropClosingFence(afterOpener);
      cleaned := Strip(Join(lines, "\n"));
      assert cleaned == Strip(FenceBody(fenced));
    }
  }

  /** Cleaning is idempotent on text that has no fence: it only strips. */
  lemma StripCodeFenceUnfenced(text: string)
    requires !StartsWith(Strip(text), Fence)
    ensures StripCodeFence(StripCodeFence(text)) == StripCodeFence(text)
  {
    StripStrip(text);
  }

  /**
   * A payload wrapped in a fence (an opening line such as three backticks
   * followed by `json`, the payload, and a closing fence line) is recovered,
   * stripped.
   */
  lemma StripCodeFencePayload(opener: string, payload: string)
    requires StartsWith(opener, Fence) && '\n' !in opener
    ensures StripCodeFence(opener + "\n" + payload + "\n" + Fence) == Strip(payload)
  {
    var text := opener + "\n" + payload + "\n" + Fence;
    FencedIsTrimmed(opener, payload);
    FencedLines(opener, payload);
    var parts := SplitOn(payload, '\n');
    FencedBody(text, parts);
    assert Join(parts, "\n") == payload;
  }

  /** A trimmed, fenced text whose lines after the first end with a bare fence is cleaned to the lines in between. */
  lemma FencedBody(text: string, body: seq<string>)
    requires Strip(text) == text && StartsWith(text, Fence)
    requires SplitOn(text, '\n')[1..] == body + [Fence]
    ensures StripCodeFence(text) == Strip(Join(body, "\n"))
  {
    FenceTrimmed();
    DropFenceLine(body, Fence);
  }

  /** A last line that strips to a bare fence is dropped. */
  lemma DropFenceLine(body: seq<string>, last: string)
    requires Strip(last) == Fence
    ensures DropClosingFence(body + [last]) == body
  {
    var lines := body + [last];
    assert lines[..|lines| - 1] == body;
  }

  /** The bare fence strips to itself. */
  lemma FenceTrimmed()
    ensures Strip(Fence) == Fence
  {
    StripTrimmed(Fence);
  }

  lemma FencedIsTrimmed(opener: string, payload: string)
    requires StartsWith(opener, Fence)
    ensures Strip(opener + "\n" + payload + "\n" + Fence) == opener + "\n" + payload + "\n" + Fence
    ensures StartsWith(opener + "\n" + payload + "\n" + Fence, Fence)
  {
    var text := opener + "\n" + payload + "\n" + Fence;
    assert text[0] == opener[0] && text[|text| - 1] == '`';
    StripTrimmed(text);
    assert text[..|Fence|] == opener[..|Fence|];
  }

  lemma {:induction false} FencedLines(opener: string, payload: string)
    requires '\n' !in opener
    ensures SplitOn(opener + "\n" + payload + "\n" + Fence, '\n')[1..] == SplitOn(payload, '\n') + [Fence]
  {
    var text := opener + "\n" + payload + "\n" + Fence;
    assert text == opener + ['\n'] + (payload + ['\n'] + Fence);
    SplitOnConcat(opener, payload + ['\n'] + Fence, '\n');
    SplitOnConcat(payload, Fence, '\n');
    assert SplitOn(Fence, '\n') == [Fence];
    assert SplitOn(text, '\n') == [opener] + (SplitOn(payload, '\n') + [Fence]);
  }
}
