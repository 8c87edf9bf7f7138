/**
 * The two decision rules of the hackathon endpoint: the fast reply it gives
 * without a language model, chosen by keyword, and the way each processed
 * message adds to the indicators a session has gathered.
 */
module Endpoint {
  import opened Wrappers
  import opened PyText
  import opened Lists
  import opened State
  import HoneypotAgent
  import IntelExtractor

  // ---------------------------------------------------------------- the rule-based reply

  const AccountKeywords: seq<string> := ["account", "bank", "blocked", "suspended", "verify", "otp"]
  const PrizeKeywords: seq<string> := ["won", "prize", "lottery", "lucky draw", "reward"]
  const PaymentKeywords: seq<string> := ["upi", "pay", "payment", "send", "transfer", "fee"]

  const AccountReply: string := "Why is my account being blocked? I need to understand, can you explain?"
  const PrizeReply: string := "I did not enter any draw. Why do I have to pay, can you explain?"
  const PaymentReply: string := "Why do I need to pay? Please explain the process."

  /** `any(k in text for k in keywords)`. */
  predicate AnyIn(keywords: seq<string>, text: string) {
    exists k :: 0 <= k < |keywords| && Contains(text, keywords[k])
  }

  /** The text the keywords are looked for in: `(message_text or "").strip().lower()`. */
  function Normalised(messageText: Option<string>): string {
    Lower(Strip(messageText.GetOr("")))
  }

  /**
   * `_rule_based_reply`: the fallback for a missing or blank message; else
   * the first of the account, prize and payment replies whose keywords occur.
   */
  function RuleBasedReply(messageText: Option<string>): (r: string)
    ensures r in {HoneypotAgent.FallbackResponse, AccountReply, PrizeReply, PaymentReply}
    ensures messageText.None? || IsBlank(messageText.value) ==> r == HoneypotAgent.FallbackResponse
  {
    ReplyTo(Normalised(messageText))
  }

  /** The reply chosen for the normalised text. */
  function ReplyTo(text: string): string {
    if text == "" then HoneypotAgent.FallbackResponse
    else if AnyIn(AccountKeywords, text) then AccountReply
    else if AnyIn(PrizeKeywords, text) then PrizeReply
    else if AnyIn(PaymentKeywords, text) then PaymentReply
    else HoneypotAgent.FallbackResponse
  }

  /** The four replies are different texts: their lengths already differ. */
  lemma RepliesDistinct()
    ensures |AccountReply| == 71 && |PrizeReply| == 64 && |PaymentReply| == 49 && |HoneypotAgent.FallbackResponse| == 50
    ensures AccountReply != PrizeReply && AccountReply != PaymentReply && PrizeReply != PaymentReply
    ensures HoneypotAgent.FallbackResponse !in {AccountReply, PrizeReply, PaymentReply}
  {
  }

  /**
   * Which reply a non-blank message gets: the account reply exactly when an
   * account keyword occurs, whatever else does; the prize reply exactly when
   * a prize keyword but no account keyword occurs; the payment reply exactly
   * when only payment keywords occur.
   */
  lemma RuleBasedReplyChoice(messageText: string)
    requires !IsBlank(messageText)
    ensures var text := Normalised(Some(messageText));
      (RuleBasedReply(Some(messageText)) == AccountReply <==> AnyIn(AccountKeywords, text)) &&
      (RuleBasedReply(Some(messageText)) == PrizeReply <==>
         !AnyIn(AccountKeywords, text) && AnyIn(PrizeKeywords, text)) &&
      (RuleBasedReply(Some(messageText)) == PaymentReply <==>
         !AnyIn(AccountKeywords, text) && !AnyIn(PrizeKeywords, text) && AnyIn(PaymentKeywords, text)) &&
      (RuleBasedReply(Some(messageText)) == HoneypotAgent.FallbackResponse <==>
         !AnyIn(AccountKeywords, text) && !AnyIn(PrizeKeywords, text) && !AnyIn(PaymentKeywords, text))
  {
    RepliesDistinct();
    assert Normalised(Some(messageText)) != "";
  }

  /** Lower-casing first does not change the normalised text. */
  lemma NormalisedLower(messageText: string)
    ensures Normalised(Some(Lower(messageText))) == Normalised(Some(messageText))
  {
    StripLower(messageText);
    LowerLower(Strip(messageText));
  }

  /** The reply does not depend on letter case. */
  lemma RuleBasedReplyIgnoresCase(messageText: string)
    ensures RuleBasedReply(Some(messageText)) == RuleBasedReply(Some(Lower(messageText)))
  {
    NormalisedLower(messageText);
  }

  // ---------------------------------------------------------------- session tracking

  /** `SessionData`: what the endpoint has gathered about one session (its start time is not modelled). */
  class SessionData {
    var messagesExchanged: int
    var scamDetected: bool
    var upiIds: seq<string>
    var phishingLinks: seq<string>
    var bankAccounts: seq<string>
    var phoneNumbers: seq<string>
    var suspiciousKeywords: seq<string>
    var agentNotes: seq<string>

    /** No gathered list holds an indicator twice. */
    ghost predicate Valid()
      reads this
    {
      NoDup(upiIds) && NoDup(phishingLinks) && NoDup(bankAccounts) && NoDup(suspiciousKeywords)
    }

    /** A new session: nothing exchanged, nothing detected, nothing gathered. */
    constructor()
      ensures Valid()
      ensures messagesExchanged == 0 && !scamDetected
      ensures upiIds == [] && phishingLinks == [] && bankAccounts == [] && phoneNumbers == []
      ensures suspiciousKeywords == [] && agentNotes == []
    {
      messagesExchanged := 0;
      scamDetected := false;
      upiIds := [];
      phishingLinks := [];
      bankAccounts := [];
      phoneNumbers := [];
      suspiciousKeywords := [];
      agentNotes := [];
    }

    /**
     * The update `honeypot_endpoint` makes per processed message: two more
     * messages; a scam verdict is noted with its reason; the UPI ids, links
     * and bank accounts become the set unions with the new indicators; the
     * other indicators are appended to the suspicious keywords when new.
     * The phone numbers are never touched.
     */
    method Record(classification: Option<ClassificationResult>, intel: IntelExtractor.ScamIntelResult)
      requires Valid()
      modifies this
      ensures Valid()
      ensures messagesExchanged == old(messagesExchanged) + 2
      ensures classification.Some? && classification.value.isScam ==>
                scamDetected && agentNotes == old(agentNotes) + [classification.value.reason]
      ensures !(classification.Some? && classification.value.isScam) ==>
                scamDetected == old(scamDetected) && agentNotes == old(agentNotes)
      ensures upiIds == Union(old(upiIds), intel.upiIds)
      ensures phishingLinks == Union(old(phishingLinks), intel.phishingLinks)
      ensures bankAccounts == Union(old(bankAccounts), intel.bankAccounts)
      ensures suspiciousKeywords == AddMissing(old(suspiciousKeywords), intel.otherIndicators)
      ensures phoneNumbers == old(phoneNumbers)
    {
      messagesExchanged := messagesExchanged + 2;
      if classification.Some? && classification.value.isScam {
        scamDetected := true;
        agentNotes := agentNotes + [classification.value.reason];
      }
      upiIds := Union(upiIds, intel.upiIds);
      phishingLinks := Union(phishingLinks, intel.phishingLinks);
      bankAccounts := Union(bankAccounts, intel.bankAccounts);
      AddSuspiciousKeywords(intel.otherIndicators);
    }

    /** The loop over the other indicators: each one not yet listed is appended. */
    method AddSuspiciousKeywords(items: seq<string>)
      modifies this`suspiciousKeywords
      ensures suspiciousKeywords == AddMissing(old(suspiciousKeywords), items)
    {
      ghost var before := suspiciousKeywords;
      for k := 0 to |items|
        invariant suspiciousKeywords == AddMissing(before, items[..k])
      {
        AddMissingStep(before, items, k);
        if items[k] !in suspiciousKeywords {
          suspiciousKeywords := suspiciousKeywords + [items[k]];
        }
      }
      assert items[..|items|] == items;
    }
  }

  /**
   * What the gathered keywords promise after any update: the earlier ones
   * are kept, first and in order; an item is added only when it was not
   * there; nothing is listed twice.
   */
  lemma KeywordsGrow(old_: seq<string>, items: seq<string>)
    requires NoDup(old_)
    ensures var r := AddMissing(old_, items);
      r[..|old_|] == old_ && NoDup(r) &&
      (forall k :: |old_| <= k < |r| ==> r[k] !in old_ && r[k] in items)
  {
    var r := AddMissing(old_, items);
    forall k | |old_| <= k < |r|
      ensures r[k] !in old_
    {
      forall j | 0 <= j < |old_|
        ensures old_[j] != r[k]
      {
        assert old_[j] == r[j];
      }
    }
  }
}
