/**
 * The honeypot agent: it answers a scam message in the persona of a
 * confused victim. The message is stripped, cleaned of prompt-injection
 * phrases and truncated before the model sees it; the model's reply is
 * rejected when it breaks character, claims a payment or holds a link, and
 * is otherwise reduced to at most three plain sentences.
 */
module HoneypotAgent {
  import opened PyText
  import opened ModelBoundary
  import opened HoneypotPatterns
  import opened HoneypotOutput

  /** The neutral reply used whenever the agent cannot or must not use the model's answer. */
  const FallbackResponse: string := "Sorry, I didn't understand. Can you explain again?"

  // ---------------------------------------------------------------- input

  /** `_sanitize_input`: each injection pattern in turn is replaced by `[FILTERED]`. */
  method SanitizeInput(message: string) returns (sanitized: string)
    ensures sanitized == Sanitized(message)
    ensures forall p: Injection, a: nat :: MatchInjection(p, sanitized, a).None?
  {
    sanitized := message;
    for k := 0 to |InjectionPatterns|
      invariant sanitized == SanitizeUpTo(message, k)
    {
      sanitized := Sub(MatcherOf(InjectionPatterns[k]), sanitized);
    }
    forall p: Injection, a: nat
      ensures MatchInjection(p, sanitized, a).None?
    {
      SanitizedClean(message, p, a);
    }
  }

  /** What `respond` sends the model for a non-blank message. */
  function AgentInput(message: string): (r: string)
    ensures |r| <= MaxMessageLength + |TruncationMarker|
  {
    TruncateBounded(Sanitized(Strip(message)));
    TruncateMessage(Sanitized(Strip(message)))
  }

  /** The characters the truncation marker puts after the first 4000 characters. */
  lemma MarkerChars(x: string, k: nat)
    requires |x| > MaxMessageLength && MaxMessageLength <= k < MaxMessageLength + |TruncationMarker|
    ensures var t := TruncateMessage(x);
      t[k] !in {'<', '|', '>'} &&
      (k < MaxMessageLength + 5 ==> t[k] in {'.', ' ', '['}) &&
      (k >= MaxMessageLength + 5 ==> t[k] !in {' ', ':'})
  {
    var t := TruncateMessage(x);
    assert t[k] == TruncationMarker[k - MaxMessageLength];
  }

  /** Past its opening `... [`, the marker holds no space and no colon. */
  lemma MarkerTail(x: string, a: nat, e: nat)
    requires |x| > MaxMessageLength && MaxMessageLength + 5 <= a <= e <= |TruncateMessage(x)|
    ensures Avoids(TruncateMessage(x)[a..e], {' ', ':'})
  {
    var t := TruncateMessage(x);
    forall y | 0 <= y < e - a
      ensures t[a..e][y] !in {' ', ':'}
    {
      MarkerChars(x, a + y);
    }
  }

  lemma SliceAt(t: string, a: nat, e: nat, k: nat)
    requires a <= k < e <= |t|
    ensures t[a..e][k - a] == t[k]
  {
  }

  /** A match of a non-token pattern in truncated text lies before the marker, so it is one in the text. */
  lemma PlainTruncated(x: string, p: Injection, a: nat)
    requires !p.SpecialToken? && |x| > MaxMessageLength && MatchInjection(p, x, a).None?
    ensures MatchInjection(p, TruncateMessage(x), a).None?
  {
    var t := TruncateMessage(x);
    var n := MaxMessageLength;
    if MatchInjection(p, t, a).Some? {
      var e := MatchInjection(p, t, a).value;
      MatchPlain(p, t, a);
      if e <= n {
        TruncateKeepsPrefix(x, a, e);
        MatchLocalAt(p, t, a, x, a);
      } else if a < n {
        MarkerChars(x, n);
        SliceAt(t, a, e, n);
      } else if a < n + 5 {
        MarkerChars(x, a);
        SliceAt(t, a, e, a);
      } else {
        MarkerTail(x, a, e);
      }
    }
  }

  /** The truncation marker holds none of the characters of a special token. */
  lemma MarkerNoToken(x: string)
    requires |x| > MaxMessageLength
    ensures var t := TruncateMessage(x);
      forall k :: MaxMessageLength <= k < |t| ==> t[k] !in {'<', '|', '>'}
  {
    var t := TruncateMessage(x);
    forall k | MaxMessageLength <= k < |t|
      ensures t[k] !in {'<', '|', '>'}
    {
      MarkerChars(x, k);
    }
  }

  /** A special token in truncated text closes before the marker, so it is one in the text. */
  lemma TokenTruncated(x: string, a: nat)
    requires |x| > MaxMessageLength && MatchToken(x, a).None?
    ensures MatchToken(TruncateMessage(x), a).None?
  {
    var t := TruncateMessage(x);
    var n := MaxMessageLength;
    if MatchToken(t, a).Some? {
      var e := MatchToken(t, a).value;
      CloseWitness(t, a + 2);
      MarkerNoToken(x);
      assert a < n && e - 1 < n;
      assert forall k :: 0 <= k < n ==> t[k] == x[k] by {
        assert t[..n] == x[..n];
        assert forall k :: 0 <= k < n ==> t[k] == t[..n][k] && x[k] == x[..n][k];
      }
      assert CloseAt(x, a + 2, e - 2);
      CloseFound(x, a + 2, e - 2);
    }
  }

  /** The model is never sent text in which an injection pattern matches, truncation included. */
  lemma AgentInputClean(message: string, p: Injection, a: nat)
    ensures MatchInjection(p, AgentInput(message), a).None?
  {
    var x := Sanitized(Strip(message));
    SanitizedClean(Strip(message), p, a);
    if |x| > MaxMessageLength {
      if p.SpecialToken? {
        TokenTruncated(x, a);
      } else {
        PlainTruncated(x, p, a);
      }
    }
  }

  // ---------------------------------------------------------------- output

  /** `_validate_output`: the fallback for a reply that breaks character or holds a link, else the formatted reply. */
  function Validated(response: string): string {
    if Unsafe(response) || HasUrl(response) then FallbackResponse else Format(response)
  }

  /** `_validate_output` as written: the unsafe patterns are tried in order and the first hit returns. */
  method ValidateOutput(response: string) returns (r: string)
    ensures r == Validated(response)
  {
    for k := 0 to |UnsafePatterns|
      invariant forall j :: 0 <= j < k ==> !Search(Phrases(GroupsOf(UnsafePatterns[j])), response)
    {
      if Search(Phrases(GroupsOf(UnsafePatterns[k])), response) {
        return FallbackResponse;
      }
    }
    if HasUrl(response) {
      return FallbackResponse;
    }
    var cleaned := StripMarkdown(response);
    var sentences := Sentences(cleaned);
    if |sentences| > 3 {
      cleaned := Join(sentences[..3], ". ") + ".";
    }
    cleaned := RemoveEmoji(cleaned);
    r := Strip(cleaned);
  }

  /** What every reply the agent lets through looks like. */
  predicate Presentable(r: string) {
    Avoids(r, MarkdownChars) &&
    (forall i :: 0 <= i < |r| ==> !IsEmoji(r[i])) &&
    |Sentences(r)| <= 3 &&
    (r != [] ==> !IsSpace(r[0]) && !IsSpace(r[|r| - 1]))
  }

  /**
   * A reply holding an unsafe phrase or a link gives the fallback; any other
   * reply is sent without markdown markers or emoji, trimmed and cut to at
   * most three sentences.
   */
  lemma ValidatedShape(response: string)
    ensures Unsafe(response) || HasUrl(response) ==> Validated(response) == FallbackResponse
    ensures !Unsafe(response) && !HasUrl(response) ==> Presentable(Validated(response))
  {
    FormatShape(response);
  }

  /** A safe reply that is already presentable is sent unchanged. */
  lemma ValidatedPlain(response: string)
    requires !Unsafe(response) && !HasUrl(response) && Presentable(response)
    ensures Validated(response) == response
  {
    FormatPlain(response);
  }

  // The counterexamples below take their reply as a parameter `s` whose
  // characters are fixed one `requires` clause each: `s` is the literal named
  // in the lemma's comment (`w*ww.` or `a*s an ai`), spelled out so that the
  // verifier reasons about its characters instead of evaluating the whole
  // formatting pipeline on a string literal at once.

  /** `w*ww.` holds no link phrase: the marker breaks up `www.`. */
  lemma MarkedLinkHidden(s: string)
    requires |s| == 5 && s[0] == 'w' && s[1] == '*' && s[2] == 'w' && s[3] == 'w' && s[4] == '.'
    ensures !HasUrl(s)
  {
    forall i, w | 0 <= i <= |s| && w in UrlPhrases
      ensures !AtCI(s, i, w)
    {
      UrlPhraseFacts(w);
      if i + |w| <= |s| {
        Mismatch(s, i, w, 1 - i);
      }
    }
  }

  /**
   * The unsafe and link checks look at the reply before its markdown markers
   * are removed, so a marker inside `www.` hides a link that the sent reply
   * shows. The reply `w*ww.` is given character by character.
   */
  lemma ValidatedRevealsLink(s: string)
    requires |s| == 5 && s[0] == 'w' && s[1] == '*' && s[2] == 'w' && s[3] == 'w' && s[4] == '.'
    ensures !Unsafe(s) && !HasUrl(s)
    ensures Validated(s) == s[..1] + s[2..] && HasUrl(Validated(s))
  {
    ShortIsSafe(s);
    MarkedLinkHidden(s);
    MarkedLinkFormat(s);
    MarkedLinkShown(s[..1] + s[2..]);
  }

  lemma MarkedLinkFormat(s: string)
    requires |s| == 5 && s[0] == 'w' && s[1] == '*' && s[2] == 'w' && s[3] == 'w' && s[4] == '.'
    ensures Format(s) == s[..1] + s[2..]
  {
    var x, y := s[..1], s[2..];
    assert s == x + [s[1]] + y;
    var t := x + y;
    var words := t[..3];
    assert t == words + ".";
    assert Avoids(t, MarkdownChars) && Avoids(words, Terminators);
    CountStop(words, false);
    SentencesCount(t);
    FormatDropsMarker(x, s[1], y);
  }

  lemma MarkedLinkShown(t: string)
    requires |t| == 4 && t[0] == 'w' && t[1] == 'w' && t[2] == 'w' && t[3] == '.'
    ensures HasUrl(t)
  {
    UrlPhraseWww();
    assert t == "www.";
    SearchFinds(UrlPhrases, t, 0, "www.");
  }

  /** `a*s an ai` holds no unsafe phrase: every window long enough for one holds the marker or opens with `s` or a space. */
  lemma MarkedDisclosureAvoids(u: UnsafePattern, s: string)
    requires |s| == 9 && s[1] == '*' && s[2] == 's' && s[3] == ' '
    ensures !Search(Phrases(GroupsOf(u)), s)
  {
    forall i, w | 0 <= i <= |s| && w in Phrases(GroupsOf(u))
      ensures !AtCI(s, i, w)
    {
      UnsafePhraseFacts(u, w);
      if i + |w| <= |s| {
        Mismatch(s, i, w, if i <= 1 then 1 - i else 0);
      }
    }
  }

  lemma MarkedDisclosureSafe(s: string)
    requires |s| == 9 && s[1] == '*' && s[2] == 's' && s[3] == ' '
    ensures !Unsafe(s)
  {
    forall k | 0 <= k < |UnsafePatterns|
      ensures !Search(Phrases(GroupsOf(UnsafePatterns[k])), s)
    {
      MarkedDisclosureAvoids(UnsafePatterns[k], s);
    }
  }

  /** `a*s an ai` holds no link phrase: it has neither `w` nor `h`. */
  lemma MarkedDisclosureNoLink(s: string)
    requires forall i :: 0 <= i < |s| ==> s[i] in {'a', '*', 's', ' ', 'n', 'i'}
    ensures !HasUrl(s)
  {
    forall i, w | 0 <= i <= |s| && w in UrlPhrases
      ensures !AtCI(s, i, w)
    {
      UrlPhraseFacts(w);
      if i + |w| <= |s| {
        Mismatch(s, i, w, 0);
      }
    }
  }

  /**
   * In the same way a marker splitting `as an ai` lets the disclosure
   * through. The reply `a*s an ai` is given character by character.
   */
  lemma ValidatedRevealsDisclosure(s: string)
    requires |s| == 9 && s[0] == 'a' && s[1] == '*' && s[2] == 's' && s[3] == ' ' && s[4] == 'a'
    requires s[5] == 'n' && s[6] == ' ' && s[7] == 'a' && s[8] == 'i'
    ensures !Unsafe(s) && !HasUrl(s)
    ensures Validated(s) == s[..1] + s[2..] && Unsafe(Validated(s))
  {
    MarkedDisclosureSafe(s);
    MarkedDisclosureNoLink(s);
    MarkedDisclosureFormat(s);
    MarkedDisclosureShown(s[..1] + s[2..]);
  }

  lemma MarkedDisclosureFormat(s: string)
    requires |s| == 9 && s[0] == 'a' && s[1] == '*' && s[2] == 's' && s[3] == ' ' && s[4] == 'a'
    requires s[5] == 'n' && s[6] == ' ' && s[7] == 'a' && s[8] == 'i'
    ensures Format(s) == s[..1] + s[2..]
  {
    var x, y := s[..1], s[2..];
    assert s == x + [s[1]] + y;
    var t := x + y;
    forall i | 0 <= i < |t|
      ensures 'a' <= t[i] <= 'z' || t[i] == ' '
    {
      if i == 0 {
        assert t[i] == s[0];
      } else {
        assert t[i] == s[i + 1];
      }
    }
    FormatWorded(x, s[1], y);
  }

  lemma MarkedDisclosureShown(t: string)
    requires |t| == 8 && t[0] == 'a' && t[1] == 's' && t[2] == ' ' && t[3] == 'a'
    requires t[4] == 'n' && t[5] == ' ' && t[6] == 'a' && t[7] == 'i'
    ensures Unsafe(t)
  {
    AsAnAiPhrase();
    assert UnsafePatterns[3] == AsAnAi;
    SearchFinds(Phrases(GroupsOf(AsAnAi)), t, 0, "as an ai");
  }

  /** A reply made only of markdown markers passes the empty-reply check and is sent as the empty string. */
  lemma ValidatedEmpty()
    ensures !Unsafe("**") && !HasUrl("**") && Validated("**") == ""
  {
    ShortIsSafe("**");
    forall i, w | 0 <= i <= 2 && w in UrlPhrases
      ensures !AtCI("**", i, w)
    {
      UrlPhraseFacts(w);
    }
    assert Without("**", IsMarkdown) == "";
    FormatMarked("**");
  }

  // ---------------------------------------------------------------- respond

  /**
   * `respond`: blank input, a failed call and an empty reply give the
   * fallback; otherwise the model's reply, validated, is the answer.
   */
  function Respond(model: Model, message: string): (r: string)
    ensures IsBlank(message) ==> r == FallbackResponse
    ensures r == FallbackResponse || Presentable(r)
    ensures var reply := model(AgentInput(message));
      !IsBlank(message) && reply.Replied? && reply.content != "" ==> r == Validated(reply.content)
  {
    if IsBlank(message) then FallbackResponse
    else
      match model(AgentInput(message))
      case CallFailed => FallbackResponse
      case Replied(text) =>
        if text == "" then FallbackResponse
        else
          ValidatedShape(text);
          Validated(text)
  }

  /** An answer other than the fallback is the validation of a reply the model gave to the cleaned message. */
  lemma RespondFromReply(model: Model, message: string)
    requires Respond(model, message) != FallbackResponse
    ensures !IsBlank(message)
    ensures var reply := model(AgentInput(message));
      reply.Replied? && reply.content != "" &&
      !Unsafe(reply.content) && !HasUrl(reply.content) &&
      Respond(model, message) == Format(reply.content)
  {
  }

  /** The empty-reply check comes before validation, so a reply of markers alone reaches the scammer as an empty answer. */
  lemma RespondEmptyAnswer(model: Model, message: string)
    requires !IsBlank(message) && model(AgentInput(message)) == Replied("**")
    ensures Respond(model, message) == ""
  {
    ValidatedEmpty();
  }
}
