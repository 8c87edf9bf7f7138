/**
 * The four indicator patterns of the extractor (UPI id, link, IFSC code,
 * bank account), each written out as a scanner that decides whether
 * Python's `re` finds a match that starts at one position of the text, and
 * where the match's captured group lies; and `findall`, which collects the
 * groups of successive non-overlapping matches from left to right.
 *
 * All four patterns are compiled with `re.IGNORECASE`; case folding, `\d`
 * and `\w` are modelled on ASCII (see PyText).
 */
module IntelPatterns {
  import opened Wrappers
  import opened PyText

  /**
   * A match found at a scan position: its captured group is `s[start..end]`.
   * In all four patterns the group ends where the whole match ends, so `end`
   * is also where `findall` goes on scanning.
   */
  datatype Span = Span(start: nat, end: nat)

  /** The character classes the patterns repeat: `[a-zA-Z0-9._-]`, `[^\s<>"']`, `[\s.:]` and `\d`. */
  datatype CharClass = UpiLocal | UrlChar | BankSep | Digit

  predicate In(c: char, p: CharClass) {
    match p
    case UpiLocal => IsUpiLocalChar(c)
    case UrlChar => IsUrlChar(c)
    case BankSep => IsBankSep(c)
    case Digit => IsAsciiDigit(c)
  }

  /** The end of the longest run of characters of class `p` that starts at `i` (a greedy `p*`). */
  function RunEnd(s: string, i: nat, p: CharClass): (e: nat)
    requires i <= |s|
    ensures i <= e <= |s|
    ensures forall k :: i <= k < e ==> In(s[k], p)
    ensures e == |s| || !In(s[e], p)
    decreases |s| - i
  {
    if i < |s| && In(s[i], p) then RunEnd(s, i + 1, p) else i
  }

  /** A greedy run is the only run of `p` characters that ends at a character outside `p`. */
  lemma {:induction false} RunEndUnique(s: string, i: nat, e: nat, p: CharClass)
    requires i <= e <= |s|
    requires forall k :: i <= k < e ==> In(s[k], p)
    requires e == |s| || !In(s[e], p)
    ensures RunEnd(s, i, p) == e
    decreases e - i
  {
    if i < e {
      RunEndUnique(s, i + 1, e, p);
    }
  }

  // ---------------------------------------------------------------- UPI ids

  /** `[a-zA-Z0-9._-]`. */
  predicate IsUpiLocalChar(c: char) { IsAsciiAlnum(c) || c == '.' || c == '_' || c == '-' }

  /** The payment providers the UPI pattern accepts after `@`, in the order of its alternation. */
  const UpiProviders: seq<string> := [
    "upi", "okaxis", "okhdfcbank", "okicici", "oksbi", "paytm", "ybl", "apl",
    "ibl", "axl", "sbi", "icici", "hdfc", "axis", "kotak", "phonepe", "gpay", "amazonpay"]

  /**
   * The end of the first provider of `ps`, in order, that occurs at `j`
   * ignoring case and is followed by `\b`: the alternation, retried on the
   * next alternative whenever the boundary after one fails.
   */
  function ProviderEnd(s: string, j: nat, ps: seq<string>): (r: Option<nat>)
    requires j <= |s|
    ensures r.Some? ==> exists p :: p in ps && AtCI(s, j, p) && r.value == j + |p| && WordBoundary(s, j + |p|)
    ensures r.None? ==> forall p :: p in ps && AtCI(s, j, p) ==> !WordBoundary(s, j + |p|)
  {
    if ps == [] then None
    else if AtCI(s, j, ps[0]) && WordBoundary(s, j + |ps[0]|) then Some(j + |ps[0]|)
    else ProviderEnd(s, j, ps[1..])
  }

  /**
   * `\b([a-zA-Z0-9._-]+@(?:upi|...|amazonpay))\b` at position `i`. The local
   * part is the whole run of local characters from `i`: `@` is not one of
   * them, so the engine cannot give any of the run back.
   */
  function UpiAt(s: string, i: nat): (r: Option<Span>)
    requires i <= |s|
    ensures r.Some? ==> r.value.start == i && i < r.value.end <= |s|
  {
    UpiAtIn(s, i, UpiProviders)
  }

  /** The UPI pattern with the provider alternation `ps`. */
  function UpiAtIn(s: string, i: nat, ps: seq<string>): (r: Option<Span>)
    requires i <= |s|
    ensures r.Some? ==> r.value.start == i && i < r.value.end <= |s|
  {
    if !WordBoundary(s, i) then None
    else
      var e := RunEnd(s, i, UpiLocal);
      if e == i || e == |s| || s[e] != '@' then None
      else match ProviderEnd(s, e + 1, ps)
        case None => None
        case Some(f) => Some(Span(i, f))
  }

  /** What a lower-cased UPI id looks like: local characters, `@`, and one of the providers `ps`. */
  predicate UpiShapedIn(x: string, ps: seq<string>) {
    exists k :: 0 < k < |x| && x[k] == '@' && (forall m :: 0 <= m < k ==> IsUpiLocalChar(x[m])) && x[k + 1..] in ps
  }

  predicate UpiShaped(x: string) { UpiShapedIn(x, UpiProviders) }

  /** A local run, `@` and a provider of `ps` make, lower-cased, a UPI id of a provider of `ps`. */
  lemma LocalAtProvider(s: string, i: nat, e: nat, ps: seq<string>)
    requires i < e < |s| && s[e] == '@' && ProviderEnd(s, e + 1, ps).Some?
    requires forall m :: i <= m < e ==> In(s[m], UpiLocal)
    ensures UpiShapedIn(Lower(s[i..ProviderEnd(s, e + 1, ps).value]), ps)
  {
    var f := ProviderEnd(s, e + 1, ps).value;
    var p :| p in ps && AtCI(s, e + 1, p) && f == e + 1 + |p|;
    var x := Lower(s[i..f]);
    var k := e - i;
    assert x[k] == LowerChar(s[e]) == '@';
    assert forall m :: 0 <= m < k ==> x[m] == LowerChar(s[i + m]) && IsUpiLocalChar(s[i + m]);
    assert x[k + 1..] == p by {
      forall m | 0 <= m < |p| ensures x[k + 1..][m] == p[m] {
        assert x[k + 1 + m] == LowerChar(s[e + 1 + m]);
      }
    }
  }

  /** The lower-cased group of a UPI match is a UPI id of an allow-listed provider. */
  lemma UpiAtShaped(s: string, i: nat)
    requires i <= |s| && UpiAt(s, i).Some?
    ensures var sp := UpiAt(s, i).value; UpiShaped(Lower(s[sp.start..sp.end]))
  {
    UpiAtInShaped(s, i, UpiProviders);
  }

  lemma UpiAtInShaped(s: string, i: nat, ps: seq<string>)
    requires i <= |s| && UpiAtIn(s, i, ps).Some?
    ensures var sp := UpiAtIn(s, i, ps).value; UpiShapedIn(Lower(s[sp.start..sp.end]), ps)
  {
    LocalAtProvider(s, i, RunEnd(s, i, UpiLocal), ps);
  }

  // ---------------------------------------------------------------- links

  /** `[^\s<>"']`. */
  predicate IsUrlChar(c: char) { !IsSpace(c) && c != '<' && c != '>' && c != '"' && c != '\'' }

  /**
   * The prefixes the link pattern takes a run of URL characters after, in
   * the order the engine tries them: `https://` before `http://` (the `s?`
   * is greedy), then each shortener of the second alternative with its `/`.
   */
  const LinkHeads: seq<string> := [
    "https://", "http://", "bit.ly/", "tinyurl.com/", "goo.gl/", "t.co/", "is.gd/",
    "buff.ly/", "ow.ly/", "short.link/"]

  /**
   * The end of the match of the first head of `heads` that occurs at `i`
   * ignoring case and is followed by at least one URL character; the run of
   * URL characters `[^\s<>"']+` is greedy and nothing follows it in the
   * pattern, so it always extends to the last URL character.
   */
  function LinkEnd(s: string, i: nat, heads: seq<string>): (r: Option<nat>)
    requires i <= |s|
    ensures r.Some? ==> exists h :: h in heads && AtCI(s, i, h) && i + |h| < r.value <= |s| &&
                                    (forall k :: i + |h| <= k < r.value ==> In(s[k], UrlChar))
  {
    if heads == [] then None
    else
      var h := heads[0];
      if AtCI(s, i, h) && RunEnd(s, i + |h|, UrlChar) > i + |h| then Some(RunEnd(s, i + |h|, UrlChar))
      else LinkEnd(s, i, heads[1..])
  }

  /** `(https?://[^\s<>"']+|(?:bit\.ly|...|short\.link)/[^\s<>"']+)` at position `i`. */
  function UrlAt(s: string, i: nat): (r: Option<Span>)
    requires i <= |s|
    ensures r.Some? ==> r.value.start == i && i < r.value.end <= |s|
  {
    match LinkEnd(s, i, LinkHeads)
    case None => None
    case Some(e) => Some(Span(i, e))
  }

  /** What a link looks like: one of the heads `hs`, ignoring case, then one or more URL characters. */
  predicate LinkShapedIn(x: string, hs: seq<string>) {
    exists h :: h in hs && |h| < |x| && Lower(x[..|h|]) == h && forall k :: |h| <= k < |x| ==> IsUrlChar(x[k])
  }

  predicate LinkShaped(x: string) { LinkShapedIn(x, LinkHeads) }

  /** The text from `i` to what LinkEnd finds has the shape of a link with one of the heads. */
  lemma LinkEndShaped(s: string, i: nat, hs: seq<string>)
    requires i <= |s| && LinkEnd(s, i, hs).Some?
    ensures LinkShapedIn(s[i..LinkEnd(s, i, hs).value], hs)
  {
    var e := LinkEnd(s, i, hs).value;
    var h :| h in hs && AtCI(s, i, h) && i + |h| < e <= |s| && (forall k :: i + |h| <= k < e ==> In(s[k], UrlChar));
    var x := s[i..e];
    assert Lower(x[..|h|]) == h by {
      AtCILower(s, i, h);
      assert x[..|h|] == s[i..i + |h|];
    }
    forall k | |h| <= k < |x|
      ensures IsUrlChar(x[k])
    {
      assert x[k] == s[i + k];
      assert In(s[i + k], UrlChar);
    }
    assert h in hs && |h| < |x|;
  }

  /** The group of a link match is link-shaped. */
  lemma UrlAtShaped(s: string, i: nat)
    requires i <= |s| && UrlAt(s, i).Some?
    ensures var sp := UrlAt(s, i).value; LinkShaped(s[sp.start..sp.end])
  {
    LinkEndShaped(s, i, LinkHeads);
  }

  // ---------------------------------------------------------------- IFSC codes

  /** `[A-Z]{4}0[A-Z0-9]{6}` under IGNORECASE: four letters, the digit zero, six letters or digits. */
  predicate IfscShaped(x: string) {
    |x| == 11 && (forall k :: 0 <= k < 4 ==> IsAsciiLetter(x[k])) && x[4] == '0' &&
    (forall k :: 5 <= k < 11 ==> IsAsciiAlnum(x[k]))
  }

  /** `\b([A-Z]{4}0[A-Z0-9]{6})\b` at position `i`. */
  function IfscAt(s: string, i: nat): (r: Option<Span>)
    requires i <= |s|
    ensures r.Some? ==> r.value == Span(i, i + 11) && i + 11 <= |s| && IfscShaped(s[i..i + 11])
    ensures r.Some? <==> i + 11 <= |s| && WordBoundary(s, i) && IfscShaped(s[i..i + 11]) && WordBoundary(s, i + 11)
  {
    if i + 11 <= |s| && WordBoundary(s, i) && IfscShaped(s[i..i + 11]) && WordBoundary(s, i + 11) then Some(Span(i, i + 11))
    else None
  }

  /** Upper-casing keeps a code IFSC-shaped. */
  lemma UpperIfsc(x: string)
    requires IfscShaped(x)
    ensures IfscShaped(Upper(x)) && Upper(Upper(x)) == Upper(x)
  {
  }

  // ---------------------------------------------------------------- bank accounts

  /** `[\s.:]`. */
  predicate IsBankSep(c: char) { IsSpace(c) || c == '.' || c == ':' }

  /** Every character of `s[x..y]` is a separator. */
  predicate SepsIn(s: string, x: nat, y: nat)
    requires x <= y <= |s|
  {
    forall m :: x <= m < y ==> IsBankSep(s[m])
  }

  /** Every character of `s[x..y]` is a digit. */
  predicate DigitsIn(s: string, x: nat, y: nat)
    requires x <= y <= |s|
  {
    forall m :: x <= m < y ==> IsAsciiDigit(s[m])
  }

  /**
   * The keyword alternation `account|a/c|acc(?:ount)?|ac`, in the order the
   * engine tries it; the third alternative tries `account` again before
   * `acc`, which changes nothing, so it appears once here.
   */
  const BankKeywords: seq<string> := ["account", "a/c", "acc", "ac"]

  /**
   * The optional number word `(?:no\.?|number|num)?`, in the order the engine
   * tries it. The optional dot of `no.` is left to the separator run after
   * the word, which takes it just the same.
   */
  const NumberWords: seq<string> := ["no", "number", "num"]

  /** The end of the first of the words `ws`, in order, that occurs at `a` ignoring case; `a` when none does. */
  function WordEnd(s: string, a: nat, ws: seq<string>): (b: nat)
    requires a <= |s|
    ensures a <= b <= |s|
    ensures b == a || exists w :: w in ws && AtCI(s, a, w) && b == a + |w|
  {
    if ws == [] then a
    else if AtCI(s, a, ws[0]) then a + |ws[0]|
    else WordEnd(s, a, ws[1..])
  }

  /**
   * Where `[\s.:]*(?:no\.?|number|num)?[\s.:]*`, with the number words `ws`,
   * stops when it starts at `k`, for the digits that follow: the first
   * separator run is taken whole (what follows it is a letter of a number
   * word or a digit, neither of them a separator), then the first number
   * word that matches there, then the second separator run.
   */
  function GapEnd(s: string, k: nat, ws: seq<string>): (p: nat)
    requires k <= |s|
    ensures k <= p <= |s|
  {
    RunEnd(s, WordEnd(s, RunEnd(s, k, BankSep), ws), BankSep)
  }

  /**
   * The rest of the bank pattern, `[\s.:]*(?:no\.?|number|num)?[\s.:]*(\d{9,18})\b`,
   * after a keyword that ends at `k`: after the gap, the digits must form a
   * whole run of 9 to 18 digits. BankAfterComplete shows that the engine has
   * no other way of matching.
   */
  function NumberAfter(s: string, k: nat, ws: seq<string>): (r: Option<Span>)
    requires k <= |s|
    ensures r.Some? ==> k <= r.value.start && 9 <= r.value.end - r.value.start <= 18 && r.value.end <= |s|
  {
    var p := GapEnd(s, k, ws);
    var e := RunEnd(s, p, Digit);
    if 9 <= e - p <= 18 && WordBoundary(s, e) then Some(Span(p, e)) else None
  }

  /** The rest of the bank pattern as a function of the keyword's end. */
  type Tail = (string, nat) -> Option<Span>

  /** A match of the rest starts at or after the keyword's end and lies inside the text. */
  ghost predicate TailAdvances(tail: Tail) {
    forall s: string, k: nat :: tail(s, k).Some? ==> k <= tail(s, k).value.start < tail(s, k).value.end <= |s|
  }

  /**
   * The first keyword of `kws`, in order, that occurs at `i` ignoring case
   * and is followed by a match of `tail`.
   */
  function KeywordMatch(s: string, i: nat, kws: seq<string>, tail: Tail): (r: Option<Span>)
    requires i <= |s| && TailAdvances(tail)
    requires forall j :: 0 <= j < |kws| ==> kws[j] != []
    ensures r.Some? ==> exists kw :: kw in kws && AtCI(s, i, kw) && tail(s, i + |kw|) == r
    ensures r.None? ==> forall kw :: kw in kws && AtCI(s, i, kw) ==> tail(s, i + |kw|).None?
    ensures r.Some? ==> i < r.value.start < r.value.end <= |s|
  {
    if kws == [] then None
    else if AtCI(s, i, kws[0]) && tail(s, i + |kws[0]|).Some? then tail(s, i + |kws[0]|)
    else KeywordMatch(s, i, kws[1..], tail)
  }

  /** NumberAfter with the source's number words. */
  function NumberTail(): (t: Tail)
    ensures TailAdvances(t)
    ensures forall s: string, k: nat :: k <= |s| ==> t(s, k) == NumberAfter(s, k, NumberWords)
  {
    (s: string, k: nat) => if k <= |s| then NumberAfter(s, k, NumberWords) else None
  }

  /** `(?:account|a/c|acc(?:ount)?|ac)[\s.:]*(?:no\.?|number|num)?[\s.:]*(\d{9,18})\b` at position `i`. */
  function BankAt(s: string, i: nat): (r: Option<Span>)
    requires i <= |s|
    ensures r.Some? ==> i < r.value.start < r.value.end <= |s|
  {
    KeywordMatch(s, i, BankKeywords, NumberTail())
  }

  /**
   * What may stand between a keyword ending at `k` and a number starting at
   * `p`: separators, optionally one of the words `ws` (ignoring case), separators.
   */
  predicate BankGap(s: string, k: nat, p: nat, ws: seq<string>)
    requires k <= p <= |s|
  {
    exists a, b :: k <= a <= b <= p && SepsIn(s, k, a) && (a == b || Lower(s[a..b]) in ws) && SepsIn(s, b, p)
  }

  /**
   * The declarative reading of the part of the bank pattern after the
   * keyword: it matches from `k` with its group at `s[p..e]`.
   */
  predicate NumberMatches(s: string, k: nat, p: nat, e: nat, ws: seq<string>)
    requires k <= p <= e <= |s|
  {
    BankGap(s, k, p, ws) && 9 <= e - p <= 18 && DigitsIn(s, p, e) && WordBoundary(s, e)
  }

  /** Matching a literal ignoring case makes its lower-cased text that literal. */
  lemma AtCILower(s: string, i: nat, w: string)
    requires AtCI(s, i, w)
    ensures Lower(s[i..i + |w|]) == w
  {
    var t := s[i..i + |w|];
    forall k | 0 <= k < |w| ensures Lower(t)[k] == w[k] {
      assert t[k] == s[i + k];
    }
  }

  /** The gap that GapEnd skips is a bank gap. */
  lemma GapEndSound(s: string, k: nat, ws: seq<string>)
    requires k <= |s|
    ensures BankGap(s, k, GapEnd(s, k, ws), ws)
  {
    var a := RunEnd(s, k, BankSep);
    var b := WordEnd(s, a, ws);
    var p := RunEnd(s, b, BankSep);
    assert SepsIn(s, k, a) && SepsIn(s, b, p);
    if b != a {
      var w :| w in ws && AtCI(s, a, w) && b == a + |w|;
      AtCILower(s, a, w);
    }
    assert k <= a <= b <= p;
  }

  /** What NumberAfter finds is a declarative match. */
  lemma BankAfterSound(s: string, k: nat, ws: seq<string>)
    requires k <= |s| && NumberAfter(s, k, ws).Some?
    ensures var sp := NumberAfter(s, k, ws).value; sp.end <= |s| && NumberMatches(s, k, sp.start, sp.end, ws)
  {
    GapEndSound(s, k, ws);
    var p := GapEnd(s, k, ws);
    var e := RunEnd(s, p, Digit);
    assert DigitsIn(s, p, e);
    assert NumberAfter(s, k, ws) == Some(Span(p, e));
    assert NumberMatches(s, k, p, e, ws);
  }

  /** A digit run that ends at a word boundary is a whole digit run. */
  lemma DigitRunEnd(s: string, p: nat, e: nat)
    requires p < e <= |s| && DigitsIn(s, p, e) && WordBoundary(s, e)
    ensures RunEnd(s, p, Digit) == e
  {
    assert IsWordChar(s[e - 1]);
    RunEndUnique(s, p, e, Digit);
  }

  /** No number word occurs where a separator or a digit stands. */
  lemma NoWordAtDigitOrSep(s: string, a: nat)
    requires a < |s| && (IsBankSep(s[a]) || IsAsciiDigit(s[a]))
    ensures WordEnd(s, a, NumberWords) == a
  {
    var ws := NumberWords;
    assert LowerChar(s[a]) != ws[0][0] && LowerChar(s[a]) != ws[1][0] && LowerChar(s[a]) != ws[2][0];
    assert ws[1..][0] == ws[1] && ws[2..][0] == ws[2] && ws[3..] == [];
    assert WordEnd(s, a, ws) == WordEnd(s, a, ws[1..]);
    assert WordEnd(s, a, ws[1..]) == WordEnd(s, a, ws[2..]);
    assert WordEnd(s, a, ws[2..]) == WordEnd(s, a, ws[3..]);
  }

  /**
   * Where the gap holds a number word at `s[a..b]`, followed by a separator
   * or the first digit, the number-word step stops at `b`: `no` and
   * `num(ber)` differ in their second letter, and `number` does not match
   * where `num` is followed by a separator or a digit.
   */
  lemma NumberWordAt(s: string, a: nat, b: nat)
    requires a < b < |s| && Lower(s[a..b]) in NumberWords
    requires IsBankSep(s[b]) || IsAsciiDigit(s[b])
    ensures WordEnd(s, a, NumberWords) == b
  {
    var w := Lower(s[a..b]);
    assert forall m :: 0 <= m < |w| ==> LowerChar(s[a + m]) == w[m] by {
      assert forall m :: 0 <= m < |w| ==> s[a..b][m] == s[a + m];
    }
    assert AtCI(s, a, w);
    var ws := NumberWords;
    var rest := ws[1..];
    assert ws[0] == "no" && rest[0] == "number" && rest[1..][0] == "num" && rest[1..] != [];
    if w == "no" {
      WordEndHit(s, a, ws);
    } else {
      assert LowerChar(s[a + 1]) == w[1] == 'u';
      assert LowerChar(s[a + 1]) != ws[0][1];
      WordEndSkip(s, a, ws);
      if w == "number" {
        WordEndHit(s, a, rest);
      } else {
        SepNotLetter(s[b]);
        assert b == a + 3 && rest[0][3] == 'b';
        WordEndSkip(s, a, rest);
        WordEndHit(s, a, rest[1..]);
      }
    }
  }

  /** Separators and digits are no letters, whatever their case. */
  lemma SepNotLetter(c: char)
    requires IsBankSep(c) || IsAsciiDigit(c)
    ensures !('a' <= LowerChar(c) <= 'z')
  {
  }

  lemma WordEndHit(s: string, a: nat, ws: seq<string>)
    requires a <= |s| && ws != [] && AtCI(s, a, ws[0])
    ensures WordEnd(s, a, ws) == a + |ws[0]|
  {
  }

  lemma WordEndSkip(s: string, a: nat, ws: seq<string>)
    requires a <= |s| && ws != [] && !AtCI(s, a, ws[0])
    ensures WordEnd(s, a, ws) == WordEnd(s, a, ws[1..])
  {
  }

  /**
   * Every declarative match is the one NumberAfter finds: the deterministic
   * reading loses no way the backtracking engine could match.
   */
  lemma BankAfterComplete(s: string, k: nat, p: nat, e: nat)
    requires k <= p <= e <= |s| && NumberMatches(s, k, p, e, NumberWords)
    ensures NumberAfter(s, k, NumberWords) == Some(Span(p, e))
  {
    var a, b :| k <= a <= b <= p && SepsIn(s, k, a) && (a == b || Lower(s[a..b]) in NumberWords) && SepsIn(s, b, p);
    assert IsAsciiDigit(s[p]);
    DigitNotSep(s[p]);
    if a == b {
      SepsUntil(s, k, p);
      NoWordAtDigitOrSep(s, p);
      SepsUntil(s, p, p);
    } else {
      assert LowerChar(s[a]) == 'n' by {
        assert Lower(s[a..b])[0] == LowerChar(s[a]);
      }
      LetterNotSep(s[a]);
      SepsUntil(s, k, a);
      assert IsBankSep(s[b]) || IsAsciiDigit(s[b]) by {
        if b < p {
          assert IsBankSep(s[b]);
        }
      }
      NumberWordAt(s, a, b);
      SepsUntil(s, b, p);
    }
    DigitRunEnd(s, p, e);
  }

  /** The separator run from `x` ends where the separators do. */
  lemma SepsUntil(s: string, x: nat, y: nat)
    requires x <= y < |s| && SepsIn(s, x, y) && !IsBankSep(s[y])
    ensures RunEnd(s, x, BankSep) == y
  {
    RunEndUnique(s, x, y, BankSep);
  }

  lemma DigitNotSep(c: char)
    requires IsAsciiDigit(c)
    ensures !IsBankSep(c)
  {
  }

  lemma LetterNotSep(c: char)
    requires 'a' <= LowerChar(c) <= 'z'
    ensures !IsBankSep(c)
  {
  }

  // ---------------------------------------------------------------- findall

  /** A pattern, as the match it finds starting at a position. */
  type Scanner = (string, nat) -> Option<Span>

  /** A match lies at or after its starting position, inside the text, and is not empty. */
  ghost predicate Advances(m: Scanner) {
    forall s: string, i: nat :: m(s, i).Some? ==> i <= m(s, i).value.start < m(s, i).value.end <= |s|
  }

  /** The UPI pattern as a scanner. */
  function UpiScanner(): (m: Scanner)
    ensures Advances(m)
    ensures forall s: string, i: nat :: i <= |s| ==> m(s, i) == UpiAt(s, i)
  {
    (s: string, i: nat) => if i <= |s| then UpiAt(s, i) else None
  }

  /** The URL pattern as a scanner. */
  function LinkScanner(): (m: Scanner)
    ensures Advances(m)
    ensures forall s: string, i: nat :: i <= |s| ==> m(s, i) == UrlAt(s, i)
  {
    (s: string, i: nat) => if i <= |s| then UrlAt(s, i) else None
  }

  /** The IFSC pattern as a scanner. */
  function IfscScanner(): (m: Scanner)
    ensures Advances(m)
    ensures forall s: string, i: nat :: i <= |s| ==> m(s, i) == IfscAt(s, i)
  {
    (s: string, i: nat) => if i <= |s| then IfscAt(s, i) else None
  }

  /** The bank-account pattern as a scanner. */
  function BankScanner(): (m: Scanner)
    ensures Advances(m)
    ensures forall s: string, i: nat :: i <= |s| ==> m(s, i) == BankAt(s, i)
  {
    (s: string, i: nat) => if i <= |s| then BankAt(s, i) else None
  }

  /**
   * `findall` from position `i`: the captured group of each match, scanning
   * from left to right and going on after the end of each match.
   */
  function FindAll(m: Scanner, s: string, i: nat): (ms: seq<string>)
    requires Advances(m) && i <= |s|
    decreases |s| - i
  {
    if i == |s| then []
    else match m(s, i)
      case None => FindAll(m, s, i + 1)
      case Some(sp) => [s[sp.start..sp.end]] + FindAll(m, s, sp.end)
  }

  /** The group of a match of `m` starting at `j` is `x`. */
  ghost predicate FoundAt(m: Scanner, s: string, j: nat, x: string) {
    m(s, j).Some? && m(s, j).value.start <= m(s, j).value.end <= |s| && x == s[m(s, j).value.start..m(s, j).value.end]
  }

  /** Everything `findall` returns is the group of a match starting at or after `i`. */
  lemma {:induction false} FindAllFound(m: Scanner, s: string, i: nat, x: string)
    requires Advances(m) && i <= |s| && x in FindAll(m, s, i)
    ensures exists j :: i <= j < |s| && FoundAt(m, s, j, x)
    decreases |s| - i
  {
    if i < |s| {
      match m(s, i)
      case None =>
        FindAllFound(m, s, i + 1, x);
      case Some(sp) =>
        if x != s[sp.start..sp.end] {
          FindAllFound(m, s, sp.end, x);
        } else {
          assert FoundAt(m, s, i, x);
        }
    }
  }

  /** Where no match starts, `findall` finds nothing. */
  lemma {:induction false} FindAllNone(m: Scanner, s: string, i: nat)
    requires Advances(m) && i <= |s|
    requires forall j :: i <= j < |s| ==> m(s, j).None?
    ensures FindAll(m, s, i) == []
    decreases |s| - i
  {
    if i < |s| {
      FindAllNone(m, s, i + 1);
    }
  }

  // ---------------------------------------------------------------- what the groups are

  /** `x` occurs at position `i` of `text`, ignoring case. */
  predicate OccursCIAt(text: string, x: string, i: nat) {
    i + |x| <= |text| && Lower(text[i..i + |x|]) == Lower(x)
  }

  /** `x` occurs in `text`, ignoring case. */
  predicate OccursCI(text: string, x: string) {
    exists i :: 0 <= i <= |text| && OccursCIAt(text, x, i)
  }

  /** A group `findall` returns is the group of a match somewhere in the text. */
  lemma FoundMatch(m: Scanner, text: string, x: string)
    requires Advances(m) && x in FindAll(m, text, 0)
    ensures exists j :: 0 <= j < |text| && FoundAt(m, text, j, x)
  {
    FindAllFound(m, text, 0, x);
  }

  /** Upper-casing and then lower-casing is lower-casing. */
  lemma LowerUpper(x: string)
    ensures Lower(Upper(x)) == Lower(x)
  {
  }

  /** A slice of the text, lower-cased, occurs in the text ignoring case. */
  lemma LowerOccurs(text: string, y: string, j: nat, e: nat)
    requires j <= e <= |text| && y == text[j..e]
    ensures OccursCI(text, Lower(y))
  {
    LowerLower(y);
    assert OccursCIAt(text, Lower(y), j);
  }

  /** A slice of the text, upper-cased, occurs in the text ignoring case. */
  lemma UpperOccurs(text: string, y: string, j: nat, e: nat)
    requires j <= e <= |text| && y == text[j..e]
    ensures OccursCI(text, Upper(y))
  {
    LowerUpper(y);
    assert OccursCIAt(text, Upper(y), j);
  }

  /** A slice of the text occurs in it. */
  lemma SliceContained(text: string, y: string, j: nat, e: nat)
    requires j <= e <= |text| && y == text[j..e]
    ensures Contains(text, y)
  {
    assert OccursAt(text, y, j);
  }

  /** A UPI group, lower-cased, is a UPI id of an allow-listed provider found in the text. */
  lemma UpiGroup(text: string, y: string, j: nat)
    requires j < |text| && FoundAt(UpiScanner(), text, j, y)
    ensures UpiShaped(Lower(y)) && OccursCI(text, Lower(y))
  {
    UpiAtShaped(text, j);
    LowerOccurs(text, y, j, UpiAt(text, j).value.end);
  }

  /** A link group is link-shaped and occurs in the text. */
  lemma LinkGroup(text: string, x: string, j: nat)
    requires j < |text| && FoundAt(LinkScanner(), text, j, x)
    ensures LinkShaped(x) && Contains(text, x)
  {
    UrlAtShaped(text, j);
    SliceContained(text, x, j, UrlAt(text, j).value.end);
  }

  /** An IFSC group, upper-cased, is an IFSC code found in the text. */
  lemma IfscGroup(text: string, y: string, j: nat)
    requires j < |text| && FoundAt(IfscScanner(), text, j, y)
    ensures IfscShaped(Upper(y)) && Upper(Upper(y)) == Upper(y) && OccursCI(text, Upper(y))
  {
    UpperIfsc(y);
    UpperOccurs(text, y, j, j + 11);
  }

  /** One of the bank keywords occurs at `i`, ignoring case. */
  predicate KeywordAt(text: string, i: nat, kw: string) {
    kw in BankKeywords && AtCI(text, i, kw)
  }

  /**
   * The account number `x` stands at `p`, after the keyword `kw` at `i`, with
   * only separators and at most one number word in between, and ends at a
   * word boundary.
   */
  predicate AccountAfterKeyword(text: string, x: string, i: nat, kw: string, p: nat) {
    KeywordAt(text, i, kw) && i + |kw| <= p && p + |x| <= |text| &&
    text[p..p + |x|] == x && NumberMatches(text, i + |kw|, p, p + |x|, NumberWords)
  }

  /** The number pattern matches `s[p..e]` after a keyword that ends at `k`. */
  predicate NumberFrom(text: string, k: nat, p: nat, e: nat) {
    k <= p <= e <= |text| && NumberMatches(text, k, p, e, NumberWords)
  }

  /** The keyword `kw` occurs at `i` and the number pattern matches `s[p..e]` after it. */
  predicate KeywordNumberAt(text: string, i: nat, kw: string, p: nat, e: nat) {
    KeywordAt(text, i, kw) && NumberFrom(text, i + |kw|, p, e)
  }

  /** A keyword match names the keyword, its end `k`, and the tail's match from `k`. */
  lemma KeywordFound(s: string, i: nat, kws: seq<string>, tail: Tail, sp: Span) returns (kw: string, k: nat)
    requires i <= |s| && TailAdvances(tail)
    requires forall n :: 0 <= n < |kws| ==> kws[n] != []
    requires KeywordMatch(s, i, kws, tail) == Some(sp)
    ensures kw in kws && AtCI(s, i, kw) && k == i + |kw| && k <= |s| && tail(s, k) == Some(sp)
  {
    kw :| kw in kws && AtCI(s, i, kw) && tail(s, i + |kw|) == Some(sp);
    k := i + |kw|;
  }

  /** No bank keyword is empty. */
  lemma BankKeywordsNonEmpty()
    ensures forall n :: 0 <= n < |BankKeywords| ==> BankKeywords[n] != []
  {
  }

  /** A bank-account match is the number tail's match after one of the keywords, which ends at `k`. */
  lemma BankKeywordAfter(text: string, j: nat, sp: Span) returns (kw: string, k: nat)
    requires j <= |text| && BankAt(text, j) == Some(sp)
    ensures KeywordAt(text, j, kw) && k == j + |kw| && k <= |text| && NumberTail()(text, k) == Some(sp)
  {
    BankKeywordsNonEmpty();
    kw, k := KeywordFound(text, j, BankKeywords, NumberTail(), sp);
    assert KeywordAt(text, j, kw);
  }

  /** What the number tail finds after a keyword that ends at `k` is a declarative number match. */
  lemma NumberFromSound(text: string, k: nat, sp: Span)
    requires k <= |text| && NumberTail()(text, k) == Some(sp)
    ensures NumberFrom(text, k, sp.start, sp.end)
  {
    assert NumberAfter(text, k, NumberWords) == Some(sp);
    BankAfterSound(text, k, NumberWords);
  }

  /** A keyword at `j` and a number match after its end make a keyword-and-number match. */
  lemma KeywordThenNumber(text: string, j: nat, kw: string, k: nat, p: nat, e: nat)
    requires KeywordAt(text, j, kw) && k == j + |kw| && NumberFrom(text, k, p, e)
    ensures KeywordNumberAt(text, j, kw, p, e)
  {
  }

  /** The group of a number match is 9 to 18 digits, as the keyword predicate describes it. */
  lemma NumberGroup(text: string, x: string, i: nat, kw: string, p: nat, e: nat)
    requires KeywordNumberAt(text, i, kw, p, e) && x == text[p..e]
    ensures 9 <= |x| <= 18 && (forall k :: 0 <= k < |x| ==> IsAsciiDigit(x[k]))
    ensures AccountAfterKeyword(text, x, i, kw, p)
  {
    assert forall k :: 0 <= k < |x| ==> x[k] == text[p + k];
  }

  /** A bank-account group is a run of 9 to 18 digits after a keyword. */
  lemma BankGroup(text: string, x: string, j: nat)
    requires j < |text| && FoundAt(BankScanner(), text, j, x)
    ensures 9 <= |x| <= 18 && (forall k :: 0 <= k < |x| ==> IsAsciiDigit(x[k]))
    ensures exists i, kw, p :: AccountAfterKeyword(text, x, i, kw, p)
  {
    var sp := BankAt(text, j).value;
    var kw, k := BankKeywordAfter(text, j, sp);
    NumberFromSound(text, k, sp);
    KeywordThenNumber(text, j, kw, k, sp.start, sp.end);
    NumberGroup(text, x, j, kw, sp.start, sp.end);
  }

  /** Every UPI group `findall` returns, lower-cased, is a UPI id of an allow-listed provider found in the text. */
  lemma UpiFound(text: string, y: string)
    requires y in FindAll(UpiScanner(), text, 0)
    ensures UpiShaped(Lower(y)) && OccursCI(text, Lower(y))
  {
    FoundMatch(UpiScanner(), text, y);
    var j :| 0 <= j < |text| && FoundAt(UpiScanner(), text, j, y);
    UpiGroup(text, y, j);
  }

  /** Every link group `findall` returns is link-shaped and occurs in the text. */
  lemma LinkFound(text: string, x: string)
    requires x in FindAll(LinkScanner(), text, 0)
    ensures LinkShaped(x) && Contains(text, x)
  {
    FoundMatch(LinkScanner(), text, x);
    var j :| 0 <= j < |text| && FoundAt(LinkScanner(), text, j, x);
    LinkGroup(text, x, j);
  }

  /** Every IFSC group `findall` returns, upper-cased, is an IFSC code found in the text. */
  lemma IfscFound(text: string, y: string)
    requires y in FindAll(IfscScanner(), text, 0)
    ensures IfscShaped(Upper(y)) && Upper(Upper(y)) == Upper(y) && OccursCI(text, Upper(y))
  {
    FoundMatch(IfscScanner(), text, y);
    var j :| 0 <= j < |text| && FoundAt(IfscScanner(), text, j, y);
    IfscGroup(text, y, j);
  }

  /** Every bank-account group `findall` returns is a run of 9 to 18 digits after a keyword. */
  lemma BankFound(text: string, x: string)
    requires x in FindAll(BankScanner(), text, 0)
    ensures 9 <= |x| <= 18 && (forall k :: 0 <= k < |x| ==> IsAsciiDigit(x[k]))
    ensures exists i, kw, p :: AccountAfterKeyword(text, x, i, kw, p)
  {
    FoundMatch(BankScanner(), text, x);
    var j :| 0 <= j < |text| && FoundAt(BankScanner(), text, j, x);
    BankGroup(text, x, j);
  }

  // ---------------------------------------------------------------- texts without matches

  /** No `@` in `s` is followed by one of the providers `ps`, ignoring case. */
  predicate NoProviderAfterAt(s: string, ps: seq<string>) {
    forall j, p :: 0 <= j < |s| && s[j] == '@' && p in ps ==> !AtCI(s, j + 1, p)
  }

  /** Where no `@` is followed by a provider of `ps`, the UPI pattern matches nowhere. */
  lemma NoProviderNoUpiAt(s: string, i: nat, ps: seq<string>)
    requires i <= |s| && NoProviderAfterAt(s, ps)
    ensures UpiAtIn(s, i, ps).None?
  {
    var e := RunEnd(s, i, UpiLocal);
    if WordBoundary(s, i) && e != i && e != |s| && s[e] == '@' {
      assert ProviderEnd(s, e + 1, ps).None?;
    }
  }

  /** The same for the allow-listed providers. */
  lemma NoUpiAt(text: string, j: nat)
    requires j <= |text| && NoProviderAfterAt(text, UpiProviders)
    ensures UpiAt(text, j).None?
  {
    NoProviderNoUpiAt(text, j, UpiProviders);
  }

  /** A text where no `@` is followed by an allow-listed provider holds no UPI match. */
  lemma NoProviderNoUpi(text: string)
    requires NoProviderAfterAt(text, UpiProviders)
    ensures FindAll(UpiScanner(), text, 0) == []
  {
    forall j | 0 <= j < |text| ensures UpiScanner()(text, j).None? {
      NoUpiAt(text, j);
    }
    FindAllNone(UpiScanner(), text, 0);
  }

  /** Where none of `kws` occurs at `i`, the keyword alternation fails there. */
  lemma NoKeywordNoMatch(s: string, i: nat, kws: seq<string>, tail: Tail)
    requires i <= |s| && TailAdvances(tail)
    requires forall n :: 0 <= n < |kws| ==> kws[n] != []
    requires forall kw :: kw in kws ==> !AtCI(s, i, kw)
    ensures KeywordMatch(s, i, kws, tail).None?
  {
  }

  /** A literal does not occur ignoring case where the lower-cased character differs from its first. */
  lemma NotAtCIFirst(s: string, i: nat, w: string)
    requires w != [] && (i < |s| ==> LowerChar(s[i]) != w[0])
    ensures !AtCI(s, i, w)
  {
    if i < |s| {
      assert LowerChar(s[i + 0]) != w[0];
    }
  }

  /** No literal of `kws`, which all start with `c`, occurs ignoring case where the lower-cased character is not `c`. */
  lemma NoLiteralHere(s: string, i: nat, kws: seq<string>, c: char)
    requires forall n :: 0 <= n < |kws| ==> kws[n] != [] && kws[n][0] == c
    requires i < |s| ==> LowerChar(s[i]) != c
    ensures forall kw :: kw in kws ==> !AtCI(s, i, kw)
  {
    forall kw | kw in kws ensures !AtCI(s, i, kw) {
      NotAtCIFirst(s, i, kw);
    }
  }

  /** Every bank keyword starts with `a`. */
  lemma BankKeywordsStartWithA()
    ensures forall n :: 0 <= n < |BankKeywords| ==> BankKeywords[n] != [] && BankKeywords[n][0] == 'a'
  {
  }

  /** Where the character is no `a` or `A`, no bank-account match starts. */
  lemma NoBankAt(text: string, j: nat)
    requires j < |text| && LowerChar(text[j]) != 'a'
    ensures BankAt(text, j).None?
  {
    BankKeywordsStartWithA();
    NoLiteralHere(text, j, BankKeywords, 'a');
    NoKeywordNoMatch(text, j, BankKeywords, NumberTail());
  }

  /** A text with no `a` or `A` in it. */
  predicate NoLetterA(s: string) {
    forall j :: 0 <= j < |s| ==> LowerChar(s[j]) != 'a'
  }

  /** A text with no `a` or `A`, so with none of the keywords, holds no bank-account match. */
  lemma NoKeywordNoBank(text: string)
    requires NoLetterA(text)
    ensures FindAll(BankScanner(), text, 0) == []
  {
    forall j | 0 <= j < |text| ensures BankScanner()(text, j).None? {
      NoBankAt(text, j);
    }
    FindAllNone(BankScanner(), text, 0);
  }
}
