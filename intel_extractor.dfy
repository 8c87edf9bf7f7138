/**
 * The scam-intelligence extractor: the result record with its merge and
 * emptiness test, the regex extraction over a conversation transcript, the
 * validation of the model's JSON answer, and `extract`, which takes the
 * regex result as a floor and adds the model's indicators only when its
 * answer validates.
 */
module IntelExtractor {
  import opened Wrappers
  import opened PyText
  import opened Lists
  import opened ModelBoundary
  import opened IntelPatterns

  // ---------------------------------------------------------------- the result

  /** The four categories of indicators, in the order the validator checks them. */
  datatype Category = BankAccounts | UpiIds | PhishingLinks | OtherIndicators

  const Categories: seq<Category> := [BankAccounts, UpiIds, PhishingLinks, OtherIndicators]

  /** The JSON key of each category. */
  function Key(c: Category): string {
    match c
    case BankAccounts => "bank_accounts"
    case UpiIds => "upi_ids"
    case PhishingLinks => "phishing_links"
    case OtherIndicators => "other_indicators"
  }

  /** Different categories have different keys (their lengths differ). */
  lemma KeysDistinct(c: Category, d: Category)
    requires c != d
    ensures Key(c) != Key(d)
  {
    assert |Key(c)| != |Key(d)|;
  }

  /** `ScamIntelResult`: four lists of strings, each possibly empty. */
  datatype ScamIntelResult = ScamIntelResult(
    bankAccounts: seq<string>,
    upiIds: seq<string>,
    phishingLinks: seq<string>,
    otherIndicators: seq<string>)
  {
    function Field(c: Category): seq<string> {
      match c
      case BankAccounts => bankAccounts
      case UpiIds => upiIds
      case PhishingLinks => phishingLinks
      case OtherIndicators => otherIndicators
    }

    /** `is_empty`: no category holds anything. */
    predicate IsEmpty() {
      |bankAccounts| == 0 && |upiIds| == 0 && |phishingLinks| == 0 && |otherIndicators| == 0
    }

    /** No category lists an indicator twice. */
    predicate NoDuplicates() {
      NoDup(bankAccounts) && NoDup(upiIds) && NoDup(phishingLinks) && NoDup(otherIndicators)
    }

    /** Every indicator of every category is also in `other`'s category. */
    predicate Within(other: ScamIntelResult) {
      forall c: Category, x :: x in Field(c) ==> x in other.Field(c)
    }

    /** `merge`: each category is the set union of the two results' categories. */
    function Merge(other: ScamIntelResult): (r: ScamIntelResult)
      ensures forall c: Category, x :: x in r.Field(c) <==> x in Field(c) || x in other.Field(c)
      ensures r.NoDuplicates()
    {
      var r := ScamIntelResult(
        Union(bankAccounts, other.bankAccounts),
        Union(upiIds, other.upiIds),
        Union(phishingLinks, other.phishingLinks),
        Union(otherIndicators, other.otherIndicators));
      assert forall c: Category, x :: x in r.Field(c) <==> x in Field(c) || x in other.Field(c) by {
        forall c: Category
          ensures r.Field(c) == Union(Field(c), other.Field(c))
        {
        }
      }
      r
    }

    /** `to_dict`: a JSON object mapping each key to its list of strings. */
    function ToDict(): (j: Json)
      ensures j.JObject? && forall c: Category :: Key(c) in j.fields
      ensures j.fields[Key(UpiIds)] == StringArray(upiIds)
      ensures j.fields[Key(PhishingLinks)] == StringArray(phishingLinks)
      ensures j.fields[Key(BankAccounts)] == StringArray(bankAccounts)
      ensures j.fields[Key(OtherIndicators)] == StringArray(otherIndicators)
    {
      JObject(map[
        Key(BankAccounts) := StringArray(bankAccounts),
        Key(UpiIds) := StringArray(upiIds),
        Key(PhishingLinks) := StringArray(phishingLinks),
        Key(OtherIndicators) := StringArray(otherIndicators)])
    }
  }

  /** `ScamIntelResult()`: nothing found. */
  const EmptyIntel := ScamIntelResult([], [], [], [])

  /** The JSON list of the strings `xs`. */
  function StringArray(xs: seq<string>): (j: Json)
    ensures j.JArray? && |j.items| == |xs| && forall k :: 0 <= k < |xs| ==> j.items[k] == JString(xs[k])
  {
    JArray(seq(|xs|, k requires 0 <= k < |xs| => JString(xs[k])))
  }

  /** Merging holds exactly nothing when both sides hold nothing. */
  lemma MergeIsEmpty(a: ScamIntelResult, b: ScamIntelResult)
    ensures a.Merge(b).IsEmpty() <==> a.IsEmpty() && b.IsEmpty()
  {
    var m := a.Merge(b);
    if !a.IsEmpty() || !b.IsEmpty() {
      var c :| |a.Field(c)| + |b.Field(c)| > 0;
      var x := if |a.Field(c)| > 0 then a.Field(c)[0] else b.Field(c)[0];
      assert x in m.Field(c);
    }
  }

  /** Merging a result with itself keeps every category's set; a duplicate-free result is kept as it is. */
  lemma MergeSelf(a: ScamIntelResult)
    ensures forall c: Category, x :: x in a.Merge(a).Field(c) <==> x in a.Field(c)
    ensures a.NoDuplicates() ==> a.Merge(a) == a
  {
    if a.NoDuplicates() {
      UnionSelf(a.bankAccounts);
      UnionSelf(a.upiIds);
      UnionSelf(a.phishingLinks);
      UnionSelf(a.otherIndicators);
    }
  }

  /** Both sides of a merge are within it. */
  lemma MergeKeeps(a: ScamIntelResult, b: ScamIntelResult)
    ensures a.Within(a.Merge(b)) && b.Within(a.Merge(b))
  {
  }

  // ---------------------------------------------------------------- regex extraction

  function LowerAll(xs: seq<string>): (r: seq<string>)
    ensures |r| == |xs| && forall k :: 0 <= k < |xs| ==> r[k] == Lower(xs[k])
  {
    seq(|xs|, k requires 0 <= k < |xs| => Lower(xs[k]))
  }

  function UpperAll(xs: seq<string>): (r: seq<string>)
    ensures |r| == |xs| && forall k :: 0 <= k < |xs| ==> r[k] == Upper(xs[k])
  {
    seq(|xs|, k requires 0 <= k < |xs| => Upper(xs[k]))
  }

  /** The UPI ids of `extract_via_regex`: the lower-cased groups of the UPI pattern, as a set. */
  function UpiIdsIn(text: string): (r: seq<string>)
    ensures NoDup(r)
  {
    Dedup(LowerAll(FindAll(UpiScanner(), text, 0)))
  }

  /** The links of `extract_via_regex`. */
  function LinksIn(text: string): (r: seq<string>)
    ensures NoDup(r)
  {
    Dedup(FindAll(LinkScanner(), text, 0))
  }

  /** The IFSC codes of `extract_via_regex`, upper-cased. */
  function IfscCodesIn(text: string): (r: seq<string>)
    ensures NoDup(r)
  {
    Dedup(UpperAll(FindAll(IfscScanner(), text, 0)))
  }

  /** The bank-account numbers of `extract_via_regex`. */
  function BankAccountsIn(text: string): (r: seq<string>)
    ensures NoDup(r)
  {
    Dedup(FindAll(BankScanner(), text, 0))
  }

  /**
   * `extract_via_regex`: all UPI ids (lower-cased), links, IFSC codes
   * (upper-cased) and bank-account numbers the four patterns find, each
   * category as a set.
   */
  function RegexIntel(text: string): (r: ScamIntelResult)
    ensures r.NoDuplicates()
  {
    ScamIntelResult(BankAccountsIn(text), UpiIdsIn(text), LinksIn(text), IfscCodesIn(text))
  }

  /** `extract_via_regex`, filling a fresh result one category at a time. */
  method ExtractViaRegex(text: string) returns (result: ScamIntelResult)
    ensures result == RegexIntel(text)
  {
    result := EmptyIntel;
    var upiMatches := FindAll(UpiScanner(), text, 0);
    result := result.(upiIds := Dedup(LowerAll(upiMatches)));
    var urlMatches := FindAll(LinkScanner(), text, 0);
    result := result.(phishingLinks := Dedup(urlMatches));
    var ifscMatches := FindAll(IfscScanner(), text, 0);
    result := result.(otherIndicators := Dedup(UpperAll(ifscMatches)));
    var accountMatches := FindAll(BankScanner(), text, 0);
    result := result.(bankAccounts := Dedup(accountMatches));
  }

  /** Every UPI id is lower-case, has an allow-listed provider after its `@`, and occurs in the text ignoring case. */
  lemma RegexUpiIds(text: string)
    ensures forall x :: x in RegexIntel(text).upiIds ==> Lower(x) == x && UpiShaped(x) && OccursCI(text, x)
  {
    var ms := FindAll(UpiScanner(), text, 0);
    forall x | x in UpiIdsIn(text)
      ensures Lower(x) == x && UpiShaped(x) && OccursCI(text, x)
    {
      var k :| 0 <= k < |ms| && x == Lower(ms[k]);
      UpiFound(text, ms[k]);
      LowerLower(ms[k]);
    }
  }

  /** Every link has one of the pattern's heads, then only URL characters, and occurs in the text as it is. */
  lemma RegexLinks(text: string)
    ensures forall x :: x in RegexIntel(text).phishingLinks ==> LinkShaped(x) && Contains(text, x)
  {
    forall x | x in LinksIn(text) ensures LinkShaped(x) && Contains(text, x) {
      LinkFound(text, x);
    }
  }

  /**
   * Every entry of `other_indicators` is an upper-case IFSC code: four
   * letters, `0`, six letters or digits; and it occurs in the text ignoring case.
   */
  lemma RegexIfscCodes(text: string)
    ensures forall x :: x in RegexIntel(text).otherIndicators ==>
              |x| == 11 && Upper(x) == x && IfscShaped(x) && OccursCI(text, x)
  {
    var ms := FindAll(IfscScanner(), text, 0);
    forall x | x in IfscCodesIn(text)
      ensures |x| == 11 && Upper(x) == x && IfscShaped(x) && OccursCI(text, x)
    {
      var k :| 0 <= k < |ms| && x == Upper(ms[k]);
      IfscFound(text, ms[k]);
    }
  }

  /**
   * Every bank account is a run of 9 to 18 digits standing right after one
   * of the keywords, with only separators and at most one number word in
   * between, and ending at a word boundary.
   */
  lemma RegexBankAccounts(text: string)
    ensures forall x :: x in RegexIntel(text).bankAccounts ==> BankAccountShaped(text, x)
  {
    forall x | x in BankAccountsIn(text)
      ensures BankAccountShaped(text, x)
    {
      assert x in FindAll(BankScanner(), text, 0);
      BankFound(text, x);
    }
    assert RegexIntel(text).bankAccounts == BankAccountsIn(text);
  }

  /** 9 to 18 digits standing after a keyword in `text`, as `BankFound` describes them. */
  ghost predicate BankAccountShaped(text: string, x: string) {
    9 <= |x| <= 18 && (forall k :: 0 <= k < |x| ==> IsAsciiDigit(x[k])) &&
    exists i, kw, p :: AccountAfterKeyword(text, x, i, kw, p)
  }

  /** A text where no `@` is followed by an allow-listed provider yields no UPI id. */
  lemma NoProviderNoUpiId(text: string)
    requires NoProviderAfterAt(text, UpiProviders)
    ensures RegexIntel(text).upiIds == []
  {
    NoProviderNoUpi(text);
  }

  /** A text with no `a` or `A` yields no bank account. */
  lemma NoKeywordNoBankAccount(text: string)
    requires NoLetterA(text)
    ensures RegexIntel(text).bankAccounts == []
  {
    NoKeywordNoBank(text);
  }

  // ---------------------------------------------------------------- the model's answer

  /** `isinstance(v, list)` with every item a `str`: the strings, in order. */
  function Strings(v: Json): (r: Option<seq<string>>)
    ensures r.Some? <==> v.JArray? && forall k :: 0 <= k < |v.items| ==> v.items[k].JString?
    ensures r.Some? ==> |r.value| == |v.items| && forall k :: 0 <= k < |v.items| ==> v.items[k] == JString(r.value[k])
  {
    if v.JArray? && forall k :: 0 <= k < |v.items| ==> v.items[k].JString? then
      Some(seq(|v.items|, k requires 0 <= k < |v.items| => v.items[k].s))
    else None
  }

  /** The value of `c`'s key in the object `fields`, when present and a list of strings. */
  function CategoryValue(fields: map<string, Json>, c: Category): Option<seq<string>> {
    if Key(c) in fields then Strings(fields[Key(c)]) else None
  }

  /**
   * `_validate_llm_result`: absent unless the answer is an object whose four
   * keys are all present and each hold a list of strings; then exactly those
   * four lists. A value that is not an object makes one of the membership
   * tests or lookups raise, which the validator turns into absent too.
   */
  function ValidatedIntel(data: Json): (r: Option<ScamIntelResult>)
    ensures r.Some? <==> data.JObject? && forall c: Category :: CategoryValue(data.fields, c).Some?
    ensures r.Some? ==> forall c: Category :: CategoryValue(data.fields, c) == Some(r.value.Field(c))
  {
    if data.JObject? && forall c: Category :: CategoryValue(data.fields, c).Some? then
      Some(ScamIntelResult(
        CategoryValue(data.fields, BankAccounts).value,
        CategoryValue(data.fields, UpiIds).value,
        CategoryValue(data.fields, PhishingLinks).value,
        CategoryValue(data.fields, OtherIndicators).value))
    else None
  }

  /** Every category is one of the four the validator checks. */
  lemma CategoriesComplete(c: Category)
    ensures c in Categories
  {
  }

  /** `_validate_llm_result`, checking the keys in order and each list item by item, returning on the first fault. */
  method ValidateLlmResult(data: Json) returns (r: Option<ScamIntelResult>)
    ensures r == ValidatedIntel(data)
  {
    if !data.JObject? {
      return None;
    }
    var fields := data.fields;
    for n := 0 to |Categories|
      invariant forall j :: 0 <= j < n ==> CategoryValue(fields, Categories[j]).Some?
    {
      var key := Key(Categories[n]);
      if key !in fields {
        return None;
      }
      var value := fields[key];
      if !value.JArray? {
        return None;
      }
      for m := 0 to |value.items|
        invariant forall q :: 0 <= q < m ==> value.items[q].JString?
      {
        if !value.items[m].JString? {
          return None;
        }
      }
    }
    forall c: Category ensures CategoryValue(fields, c).Some? {
      CategoriesComplete(c);
    }
    r := Some(ScamIntelResult(
      Strings(fields[Key(BankAccounts)]).value,
      Strings(fields[Key(UpiIds)]).value,
      Strings(fields[Key(PhishingLinks)]).value,
      Strings(fields[Key(OtherIndicators)]).value));
  }

  /** A result's `to_dict` validates back to the same result. */
  lemma ToDictValidates(r: ScamIntelResult)
    ensures ValidatedIntel(r.ToDict()) == Some(r)
  {
    var fields := r.ToDict().fields;
    forall c: Category ensures CategoryValue(fields, c) == Some(r.Field(c)) {
      forall d: Category | d != c ensures Key(d) != Key(c) {
        KeysDistinct(d, c);
      }
      assert fields[Key(c)] == StringArray(r.Field(c));
      assert Strings(StringArray(r.Field(c))).value == r.Field(c);
    }
  }

  /**
   * `_extract_via_llm`: absent without a client, when the call raises or
   * answers nothing, when the fence-stripped answer is not JSON, or when it
   * does not validate.
   */
  function LlmIntel(client: Option<Model>, lib: PyLib, text: string): (r: Option<ScamIntelResult>) {
    match client
    case None => None
    case Some(model) =>
      match model(text)
      case CallFailed => None
      case Replied(reply) =>
        if reply == "" then None
        else match lib.loads(StripCodeFence(reply))
          case None => None
          case Some(data) => ValidatedIntel(data)
  }

  /** Whatever the model adds is a validated answer to the call. */
  lemma LlmIntelValidated(client: Option<Model>, lib: PyLib, text: string)
    requires LlmIntel(client, lib, text).Some?
    ensures client.Some? && client.value(text).Replied? && client.value(text).content != ""
    ensures exists data :: lib.loads(StripCodeFence(client.value(text).content)) == Some(data) &&
                           ValidatedIntel(data) == LlmIntel(client, lib, text)
  {
    var reply := client.value(text).content;
    var data := lib.loads(StripCodeFence(reply)).value;
    assert ValidatedIntel(data) == LlmIntel(client, lib, text);
  }

  /** `_extract_via_llm`, cleaning the answer and validating it with the validator method. */
  method ExtractViaLlm(client: Option<Model>, lib: PyLib, text: string) returns (r: Option<ScamIntelResult>)
    ensures r == LlmIntel(client, lib, text)
  {
    if client.None? {
      return None;
    }
    var reply := client.value(text);
    if reply.CallFailed? || reply.content == "" {
      return None;
    }
    var cleaned := CleanFences(reply.content);
    var data := lib.loads(cleaned);
    if data.None? {
      return None;
    }
    r := ValidateLlmResult(data.value);
  }

  // ---------------------------------------------------------------- the transcript

  /** One message of the conversation; an absent key is `None`. */
  datatype ConvEntry = ConvEntry(role: Option<string>, content: Option<string>)

  /** `f"{role}: {content}"`, with the defaults `unknown` and the empty string. */
  function Line(e: ConvEntry): string {
    e.role.GetOr("unknown") + ": " + e.content.GetOr("")
  }

  function Lines(conversation: seq<ConvEntry>): (r: seq<string>)
    ensures |r| == |conversation| && forall k :: 0 <= k < |r| ==> r[k] == Line(conversation[k])
  {
    seq(|conversation|, k requires 0 <= k < |conversation| => Line(conversation[k]))
  }

  /** `_format_conversation`: the message lines joined with newlines. */
  function Transcript(conversation: seq<ConvEntry>): string {
    Join(Lines(conversation), "\n")
  }

  /** `_format_conversation`, building the list of lines message by message. */
  method FormatConversation(conversation: seq<ConvEntry>) returns (text: string)
    ensures text == Transcript(conversation)
  {
    var lines: seq<string> := [];
    for n := 0 to |conversation|
      invariant lines == Lines(conversation[..n])
    {
      lines := lines + [Line(conversation[n])];
    }
    assert conversation[..|conversation|] == conversation;
    text := Join(lines, "\n");
  }

  /** Splitting `sep.join(parts)` at the separator gives back the parts, when none of them holds it. */
  lemma {:induction false} SplitJoin(parts: seq<string>, c: char)
    requires parts != [] && forall k :: 0 <= k < |parts| ==> c !in parts[k]
    ensures SplitOn(Join(parts, [c]), c) == parts
    decreases |parts|
  {
    if |parts| > 1 {
      SplitJoin(parts[1..], c);
      SplitOnConcat(parts[0], Join(parts[1..], [c]), c);
      assert parts == [parts[0]] + parts[1..];
    }
  }

  /** Where no role and no content holds a newline, the transcript splits back into the message lines. */
  lemma TranscriptLines(conversation: seq<ConvEntry>)
    requires conversation != []
    requires forall k :: 0 <= k < |conversation| ==>
               '\n' !in conversation[k].role.GetOr("unknown") && '\n' !in conversation[k].content.GetOr("")
    ensures SplitOn(Transcript(conversation), '\n') == Lines(conversation)
  {
    SplitJoin(Lines(conversation), '\n');
  }

  // ---------------------------------------------------------------- extract

  /**
   * `extract`: nothing for an empty conversation; otherwise the regex result
   * over the transcript, merged with the model's result when that validates.
   */
  function Extract(conversation: seq<ConvEntry>, client: Option<Model>, lib: PyLib): (r: ScamIntelResult)
    ensures conversation == [] ==> r == EmptyIntel
    ensures conversation != [] ==> RegexIntel(Transcript(conversation)).Within(r)
    ensures conversation != [] && LlmIntel(client, lib, Transcript(conversation)).None? ==>
              r == RegexIntel(Transcript(conversation))
    ensures conversation != [] && LlmIntel(client, lib, Transcript(conversation)).Some? ==>
              LlmIntel(client, lib, Transcript(conversation)).value.Within(r)
    ensures r.NoDuplicates()
  {
    if conversation == [] then EmptyIntel
    else
      var text := Transcript(conversation);
      var regex := RegexIntel(text);
      match LlmIntel(client, lib, text)
      case Some(llm) => MergeKeeps(regex, llm); regex.Merge(llm)
      case None => regex
  }

  /** Nothing in the output is invented: each indicator was found by a pattern or given by a validated model answer. */
  lemma ExtractSources(conversation: seq<ConvEntry>, client: Option<Model>, lib: PyLib)
    requires conversation != []
    ensures var text := Transcript(conversation);
            forall c: Category, x :: x in Extract(conversation, client, lib).Field(c) ==>
              x in RegexIntel(text).Field(c) ||
              (LlmIntel(client, lib, text).Some? && x in LlmIntel(client, lib, text).value.Field(c))
  {
  }

  /** `extract_from_text`: the text as the one message of role `text`. */
  function ExtractFromText(text: string, client: Option<Model>, lib: PyLib): (r: ScamIntelResult)
    ensures RegexIntel("text: " + text).Within(r)
    ensures LlmIntel(client, lib, "text: " + text).None? ==> r == RegexIntel("text: " + text)
    ensures LlmIntel(client, lib, "text: " + text).Some? ==> LlmIntel(client, lib, "text: " + text).value.Within(r)
  {
    var conversation := [ConvEntry(Some("text"), Some(text))];
    assert Transcript(conversation) == "text: " + text;
    Extract(conversation, client, lib)
  }
}
