/**
 * The text operations the honeypot agent applies to the model's reply before
 * it is sent: the case-insensitive searches for out-of-character phrases and
 * links, markdown removal, sentence splitting and emoji removal.
 *
 * Every output pattern of the agent is a finite set of phrases (an
 * alternation of literals, some with optional words), so `re.search` with
 * `re.IGNORECASE` is modelled as "one of the phrases occurs somewhere",
 * comparing ASCII letters without regard to case.
 */
module HoneypotOutput {
  import opened PyText

  // ---------------------------------------------------------------- phrase sets

  /** Every `x + y` with `x` from `a` and `y` from `b`, in order. */
  function Cat(a: seq<string>, b: seq<string>): seq<string>
  {
    if a == [] then [] else seq(|b|, j requires 0 <= j < |b| => a[0] + b[j]) + Cat(a[1..], b)
  }

  /**
   * The phrases a pattern made of consecutive groups matches: each group is
   * the list of its alternatives, an optional group having `""` among them.
   */
  function Phrases(groups: seq<seq<string>>): seq<string>
  {
    if groups == [] then [""] else Cat(groups[0], Phrases(groups[1..]))
  }

  /** `re.search(pattern, s, re.IGNORECASE)` for a pattern that matches exactly the (lower-case) `phrases`. */
  predicate Search(phrases: seq<string>, s: string) {
    exists i, w :: 0 <= i <= |s| && w in phrases && AtCI(s, i, w)
  }

  /** The seven patterns that would break the persona or claim a payment, in the order they are tried. */
  datatype UnsafePattern = ClaimsAi | DeniesReal | ClaimsArtificial | AsAnAi | ClaimsPaid | PaymentSent | MoneySent

  const UnsafePatterns: seq<UnsafePattern> :=
    [ClaimsAi, DeniesReal, ClaimsArtificial, AsAnAi, ClaimsPaid, PaymentSent, MoneySent]

  /** Each unsafe pattern as phrase groups. */
  function GroupsOf(u: UnsafePattern): seq<seq<string>> {
    match u
    // i am an? (ai|bot|assistant|robot|program)
    case ClaimsAi => [["i am a"], ["", "n"], [" ai", " bot", " assistant", " robot", " program"]]
    // i('m| am) not (a )?real
    case DeniesReal => [["i'm not ", "i am not "], ["", "a "], ["real"]]
    // i('m| am) (an? )?(artificial|automated)
    case ClaimsArtificial => [["i'm ", "i am "], ["", "a ", "an "], ["artificial", "automated"]]
    // as an ai
    case AsAnAi => [["as an ai"]]
    // i (have |just )?(sent|transferred|paid)
    case ClaimsPaid => [["i "], ["", "have ", "just "], ["sent", "transferred", "paid"]]
    // payment (sent|done|completed)
    case PaymentSent => [["payment "], ["sent", "done", "completed"]]
    // money (sent|transferred)
    case MoneySent => [["money "], ["sent", "transferred"]]
  }

  /** The phrases of `https?://|www\.`. */
  const UrlPhrases: seq<string> := Phrases([["http"], ["", "s"], ["://"]]) + ["www."]

  /** Some unsafe pattern is found in `s`. */
  predicate Unsafe(s: string) {
    exists k :: 0 <= k < |UnsafePatterns| && Search(Phrases(GroupsOf(UnsafePatterns[k])), s)
  }

  predicate HasUrl(s: string) {
    Search(UrlPhrases, s)
  }

  /** A phrase of a pattern occurring in `s` makes `re.search` find it. */
  lemma SearchFinds(phrases: seq<string>, s: string, i: nat, w: string)
    requires w in phrases && i + |w| <= |s|
    requires forall k :: 0 <= k < |w| ==> LowerChar(s[i + k]) == w[k]
    ensures Search(phrases, s)
  {
    assert AtCI(s, i, w);
  }

  /** One character that differs under case folding rules out a match at `i`. */
  lemma Mismatch(s: string, i: nat, w: string, k: nat)
    requires k < |w| && i + k < |s| && LowerChar(s[i + k]) != w[k]
    ensures !AtCI(s, i, w)
  {
  }

  /** The length of the shortest alternative of a group. */
  function Shortest(g: seq<string>): nat {
    if g == [] then 0
    else if |g| == 1 then |g[0]|
    else if |g[0]| <= Shortest(g[1..]) then |g[0]|
    else Shortest(g[1..])
  }

  /** The length of the shortest phrase of a pattern. */
  function MinLength(groups: seq<seq<string>>): nat {
    if groups == [] then 0 else Shortest(groups[0]) + MinLength(groups[1..])
  }

  lemma {:induction false} ShortestBelow(g: seq<string>, x: string)
    requires x in g
    ensures Shortest(g) <= |x|
  {
    if |g| > 1 && x != g[0] {
      ShortestBelow(g[1..], x);
    }
  }

  /** A phrase of `Cat(a, b)` is an alternative of `a` followed by one of `b`. */
  lemma {:induction false} CatParts(a: seq<string>, b: seq<string>, w: string)
    requires w in Cat(a, b)
    ensures exists x, y :: x in a && y in b && w == x + y
  {
    var front := seq(|b|, j requires 0 <= j < |b| => a[0] + b[j]);
    assert Cat(a, b) == front + Cat(a[1..], b);
    if w in front {
      var j :| 0 <= j < |b| && front[j] == w;
      assert a[0] in a && b[j] in b && w == a[0] + b[j];
    } else {
      CatParts(a[1..], b, w);
      var x, y :| x in a[1..] && y in b && w == x + y;
      assert x in a;
    }
  }

  /** Every phrase is at least as long as the pattern's shortest phrase. */
  lemma {:induction false} PhraseLength(groups: seq<seq<string>>, w: string)
    requires w in Phrases(groups)
    ensures |w| >= MinLength(groups)
  {
    if groups != [] {
      CatParts(groups[0], Phrases(groups[1..]), w);
      var x, y :| x in groups[0] && y in Phrases(groups[1..]) && w == x + y;
      ShortestBelow(groups[0], x);
      PhraseLength(groups[1..], y);
    }
  }

  /** A phrase opens with the first two characters of an alternative of its first group. */
  lemma PhraseHead(groups: seq<seq<string>>, w: string, firsts: set<char>, seconds: set<char>)
    requires w in Phrases(groups) && groups != []
    requires forall x :: x in groups[0] ==> |x| >= 2 && x[0] in firsts && x[1] in seconds
    ensures |w| >= 2 && w[0] in firsts && w[1] in seconds
  {
    CatParts(groups[0], Phrases(groups[1..]), w);
    var x, y :| x in groups[0] && y in Phrases(groups[1..]) && w == x + y;
    assert w[0] == x[0] && w[1] == x[1];
  }

  /** A group whose alternatives all have at least `n` characters has no shorter alternative. */
  lemma {:induction false} ShortestAtLeast(g: seq<string>, n: nat)
    requires g != [] && forall k :: 0 <= k < |g| ==> |g[k]| >= n
    ensures Shortest(g) >= n
    decreases |g|
  {
    if |g| > 1 {
      ShortestAtLeast(g[1..], n);
    }
  }

  /** A pattern's phrases are at least as long as the shortest alternatives of its first and third groups. */
  lemma MinLengthBelow(groups: seq<seq<string>>)
    requires |groups| >= 3
    ensures MinLength(groups) >= Shortest(groups[0]) + Shortest(groups[2])
  {
    var rest := groups[1..];
    assert MinLength(groups) == Shortest(groups[0]) + MinLength(rest);
    assert MinLength(rest) == Shortest(rest[0]) + MinLength(rest[1..]);
    assert MinLength(rest[1..]) == Shortest(groups[2]) + MinLength(rest[1..][1..]);
  }

  /** No unsafe phrase is shorter than six characters. */
  lemma UnsafeMinLength(u: UnsafePattern)
    ensures MinLength(GroupsOf(u)) >= 6
  {
    var groups := GroupsOf(u);
    match u
    case ClaimsArtificial =>
      ShortestAtLeast(groups[0], 4);
      ShortestAtLeast(groups[2], 9);
      MinLengthBelow(groups);
    case ClaimsPaid =>
      ShortestAtLeast(groups[0], 2);
      ShortestAtLeast(groups[2], 4);
      MinLengthBelow(groups);
    case _ =>
      ShortestAtLeast(groups[0], 6);
  }

  /** Each unsafe pattern's first group opens with a known letter followed by a letter, a space or an apostrophe. */
  lemma UnsafeHeads(u: UnsafePattern)
    ensures forall x :: x in GroupsOf(u)[0] ==> |x| >= 2 && x[0] in UnsafeFirsts && x[1] in UnsafeSeconds
  {
    match u
    case ClaimsAi =>
    case DeniesReal =>
    case ClaimsArtificial =>
    case AsAnAi =>
    case ClaimsPaid =>
    case PaymentSent =>
    case MoneySent =>
  }

  const UnsafeFirsts: set<char> := {'i', 'a', 'p', 'm'}
  const UnsafeSeconds: set<char> := {' ', '\'', 's', 'a', 'o'}

  /** What every unsafe phrase looks like: six characters or more, opening with two known characters. */
  lemma UnsafePhraseFacts(u: UnsafePattern, w: string)
    requires w in Phrases(GroupsOf(u))
    ensures |w| >= 6 && w[0] in UnsafeFirsts && w[1] in UnsafeSeconds
  {
    var groups := GroupsOf(u);
    UnsafeMinLength(u);
    UnsafeHeads(u);
    PhraseLength(groups, w);
    PhraseHead(groups, w, UnsafeFirsts, UnsafeSeconds);
  }

  /** The link phrases are `www.` and phrases of seven characters or more opening with `h`. */
  lemma UrlPhraseFacts(w: string)
    requires w in UrlPhrases
    ensures w == "www." || (|w| >= 7 && w[0] == 'h')
  {
    var groups := [["http"], ["", "s"], ["://"]];
    if w != "www." {
      assert w in Phrases(groups);
      PhraseLength(groups, w);
      PhraseHead(groups, w, {'h'}, {'t'});
    }
  }

  lemma UrlPhraseWww()
    ensures "www." in UrlPhrases
  {
    var u := Phrases([["http"], ["", "s"], ["://"]]) + ["www."];
    assert u[|u| - 1] == "www.";
  }

  lemma AsAnAiPhrase()
    ensures "as an ai" in Phrases(GroupsOf(AsAnAi))
  {
    var a: seq<string> := ["as an ai"];
    var g := [a];
    assert GroupsOf(AsAnAi) == g && g[1..] == [];
    assert Phrases(g) == Cat(a, [""]);
    assert a[1..] == [] && Cat([], [""]) == [];
    var front := seq(1, j requires 0 <= j < 1 => a[0] + [""][j]);
    assert Cat(a, [""]) == front + [];
    assert front[0] == "as an ai";
  }

  /** No unsafe phrase fits in fewer than six characters. */
  lemma ShortIsSafe(s: string)
    requires |s| < 6
    ensures !Unsafe(s)
  {
    forall k | 0 <= k < |UnsafePatterns|
      ensures !Search(Phrases(GroupsOf(UnsafePatterns[k])), s)
    {
      forall i, w | 0 <= i <= |s| && w in Phrases(GroupsOf(UnsafePatterns[k]))
        ensures !AtCI(s, i, w)
      {
        UnsafePhraseFacts(UnsafePatterns[k], w);
      }
    }
  }

  // ---------------------------------------------------------------- character removal

  /** `s` with every character satisfying `drop` removed. */
  function Without(s: string, drop: char -> bool): (r: string)
    ensures |r| <= |s|
    ensures forall i :: 0 <= i < |r| ==> !drop(r[i])
  {
    if s == [] then []
    else (if drop(s[0]) then [] else [s[0]]) + Without(s[1..], drop)
  }

  lemma {:induction false} WithoutAvoids(s: string, drop: char -> bool, bad: set<char>)
    requires Avoids(s, bad)
    ensures Avoids(Without(s, drop), bad)
  {
    if s != [] {
      WithoutAvoids(s[1..], drop, bad);
    }
  }

  /** Removing characters that are all absent changes nothing. */
  lemma {:induction false} WithoutNone(s: string, drop: char -> bool)
    requires forall i :: 0 <= i < |s| ==> !drop(s[i])
    ensures Without(s, drop) == s
  {
    if s != [] {
      WithoutNone(s[1..], drop);
    }
  }

  lemma WithoutCons(c: char, s: string, drop: char -> bool)
    ensures Without([c] + s, drop) == (if drop(c) then [] else [c]) + Without(s, drop)
  {
    assert ([c] + s)[1..] == s;
  }

  const MarkdownChars: set<char> := {'*', '_', '`', '#'}

  predicate IsMarkdown(c: char) { c in MarkdownChars }

  /**
   * `re.sub(r"\*\*|__|\*|_|`|#", "", s)`: scan left to right, trying the
   * alternatives in order at each position and removing what matches.
   */
  function StripMarkdown(s: string): string
    decreases |s|
  {
    if s == [] then []
    else if |s| >= 2 && (s[..2] == "**" || s[..2] == "__") then StripMarkdown(s[2..])
    else if s[0] in MarkdownChars then StripMarkdown(s[1..])
    else [s[0]] + StripMarkdown(s[1..])
  }

  /** Removing the doubled markers first removes no more and no less than removing every marker character. */
  lemma {:induction false} StripMarkdownRemovesMarkers(s: string)
    ensures StripMarkdown(s) == Without(s, IsMarkdown)
    ensures Avoids(StripMarkdown(s), MarkdownChars)
    decreases |s|
  {
    if s != [] {
      if |s| >= 2 && (s[..2] == "**" || s[..2] == "__") {
        StripMarkdownRemovesMarkers(s[2..]);
        assert s[1..][1..] == s[2..];
        assert IsMarkdown(s[0]) && IsMarkdown(s[1]);
        assert Without(s, IsMarkdown) == Without(s[1..], IsMarkdown) == Without(s[2..], IsMarkdown);
      } else {
        StripMarkdownRemovesMarkers(s[1..]);
      }
    }
  }

  /** Emoticons, pictographs, transport symbols and regional indicators: the emoji ranges the agent removes. */
  predicate IsEmoji(c: char) {
    ('\U{1F600}' <= c <= '\U{1F64F}') || ('\U{1F300}' <= c <= '\U{1F5FF}') ||
    ('\U{1F680}' <= c <= '\U{1F6FF}') || ('\U{1F1E0}' <= c <= '\U{1F1FF}')
  }

  function RemoveEmoji(s: string): (r: string)
  {
    Without(s, IsEmoji)
  }

  // ---------------------------------------------------------------- sentences

  const Terminators: set<char> := {'.', '!', '?'}

  /** `re.split(r"[.!?]+", s)`: the text between maximal runs of terminators, empty pieces included. */
  function Runs(s: string): (r: seq<string>)
    ensures |r| >= 1
    decreases |s|
  {
    if s == [] then [""]
    else if s[0] in Terminators then
      if |s| > 1 && s[1] in Terminators then Runs(s[1..]) else [""] + Runs(s[1..])
    else
      var rest := Runs(s[1..]);
      [[s[0]] + rest[0]] + rest[1..]
  }

  /** `[p.strip() for p in pieces if p.strip()]`. */
  function Keep(pieces: seq<string>): (r: seq<string>)
    ensures |r| <= |pieces|
  {
    if pieces == [] then []
    else if IsBlank(pieces[0]) then Keep(pieces[1..])
    else [Strip(pieces[0])] + Keep(pieces[1..])
  }

  /** The sentences the agent counts: the stripped, non-blank pieces between terminator runs. */
  function Sentences(s: string): seq<string> {
    Keep(Runs(s))
  }

  /** More than three sentences are replaced by the first three, joined by `". "` and closed by `"."`. */
  function Clip(s: string): string {
    var ss := Sentences(s);
    if |ss| > 3 then Join(ss[..3], ". ") + "." else s
  }

  /** The formatting `_validate_output` applies to a reply it accepts. */
  function Format(reply: string): string {
    Strip(RemoveEmoji(Clip(StripMarkdown(reply))))
  }

  // ---------------------------------------------------------------- sentence lemmas

  /** `s` split at every single terminator, empty pieces included: the reference the counting lemmas use. */
  function Pieces(s: string): (r: seq<string>)
    ensures |r| >= 1
    decreases |s|
  {
    if s == [] then [""]
    else
      var rest := Pieces(s[1..]);
      if s[0] in Terminators then [""] + rest else [[s[0]] + rest[0]] + rest[1..]
  }

  lemma KeepCons(x: string, t: seq<string>)
    ensures Keep([x] + t) == (if IsBlank(x) then [] else [Strip(x)]) + Keep(t)
  {
    assert ([x] + t)[1..] == t;
  }

  /** A run of terminators only adds empty pieces, which are not kept. */
  lemma {:induction false} RunsPieces(s: string)
    ensures Runs(s)[0] == Pieces(s)[0]
    ensures Keep(Runs(s)[1..]) == Keep(Pieces(s)[1..])
    decreases |s|
  {
    if s != [] {
      RunsPieces(s[1..]);
      var r, p := Runs(s[1..]), Pieces(s[1..]);
      assert r == [r[0]] + r[1..] && p == [p[0]] + p[1..];
      KeepCons(r[0], r[1..]);
      KeepCons(p[0], p[1..]);
      if s[0] in Terminators && |s| > 1 && s[1] in Terminators {
        assert s[1..][0] in Terminators;
      }
    }
  }

  /** Counting sentences over maximal runs or over single terminators gives the same list. */
  lemma SentencesPieces(s: string)
    ensures Sentences(s) == Keep(Pieces(s))
  {
    RunsPieces(s);
    var r, p := Runs(s), Pieces(s);
    assert r == [r[0]] + r[1..] && p == [p[0]] + p[1..];
    KeepCons(r[0], r[1..]);
    KeepCons(p[0], p[1..]);
  }

  /** Every piece holds no terminator and no character the text holds none of. */
  lemma {:induction false} RunsAvoid(s: string, bad: set<char>)
    requires Avoids(s, bad)
    ensures forall k :: 0 <= k < |Runs(s)| ==> Avoids(Runs(s)[k], bad + Terminators)
    decreases |s|
  {
    if s != [] {
      RunsAvoid(s[1..], bad);
      if s[0] !in Terminators {
        var rest := Runs(s[1..]);
        assert Avoids([s[0]] + rest[0], bad + Terminators) by {
          assert Avoids(rest[0], bad + Terminators);
        }
      }
    }
  }

  /** A kept piece is non-empty and stripped, and holds only characters the piece holds. */
  lemma KeptAvoid(x: string, bad: set<char>)
    requires Avoids(x, bad) && !IsBlank(x)
    ensures Avoids(Strip(x), bad) && Strip(x) != [] && Strip(Strip(x)) == Strip(x)
  {
    StripAvoids(x, bad);
    StripStrip(x);
  }

  /** Kept pieces are non-empty and stripped, and hold only characters the pieces hold. */
  lemma {:induction false} KeepAvoid(pieces: seq<string>, bad: set<char>)
    requires forall k :: 0 <= k < |pieces| ==> Avoids(pieces[k], bad)
    ensures forall k :: 0 <= k < |Keep(pieces)| ==> Avoids(Keep(pieces)[k], bad)
    ensures forall k :: 0 <= k < |Keep(pieces)| ==> Keep(pieces)[k] != [] && Strip(Keep(pieces)[k]) == Keep(pieces)[k]
  {
    if pieces != [] {
      var rest := Keep(pieces[1..]);
      KeepAvoid(pieces[1..], bad);
      if !IsBlank(pieces[0]) {
        KeptAvoid(pieces[0], bad);
        var r := [Strip(pieces[0])] + rest;
        assert Keep(pieces) == r;
        forall k | 0 <= k < |r|
          ensures Avoids(r[k], bad) && r[k] != [] && Strip(r[k]) == r[k]
        {
          if k > 0 {
            assert r[k] == rest[k - 1];
          }
        }
      } else {
        assert Keep(pieces) == rest;
      }
    }
  }

  /** Every sentence is non-empty, stripped, free of terminators and of characters the text avoids. */
  lemma SentencesAvoid(s: string, bad: set<char>)
    requires Avoids(s, bad)
    ensures forall k :: 0 <= k < |Sentences(s)| ==> Avoids(Sentences(s)[k], bad + Terminators)
    ensures forall k :: 0 <= k < |Sentences(s)| ==> Sentences(s)[k] != [] && Strip(Sentences(s)[k]) == Sentences(s)[k]
  {
    RunsAvoid(s, bad);
    KeepAvoid(Runs(s), bad + Terminators);
  }

  lemma AvoidsTail(x: string, bad: set<char>)
    requires Avoids(x, bad) && x != []
    ensures x[0] !in bad && Avoids(x[1..], bad) && x == [x[0]] + x[1..]
  {
    assert forall i :: 0 <= i < |x| - 1 ==> x[1..][i] == x[i + 1];
  }

  /** A terminator after text without terminators ends the first piece. */
  lemma {:induction false} PiecesDot(x: string, y: string)
    requires Avoids(x, Terminators)
    ensures Pieces(x + "." + y) == [x] + Pieces(y)
    decreases |x|
  {
    if x == [] {
      assert x + "." + y == ['.'] + y;
      assert (['.'] + y)[1..] == y;
    } else {
      AvoidsTail(x, Terminators);
      var t := x + "." + y;
      assert t[0] == x[0] && t[1..] == x[1..] + "." + y;
      PiecesDot(x[1..], y);
    }
  }

  lemma JoinThree(a: string, b: string, c: string)
    ensures Join([a, b, c], ". ") + "." == a + "." + (" " + b + "." + (" " + c + "." + ""))
  {
    assert [a, b, c][1..] == [b, c] && [b, c][1..] == [c];
    assert Join([b, c], ". ") == b + ". " + c;
  }

  lemma PiecesThree(a: string, b: string, c: string)
    requires Avoids(a, Terminators) && Avoids(b, Terminators) && Avoids(c, Terminators)
    ensures var ps := Pieces(a + "." + (" " + b + "." + (" " + c + "." + "")));
      |ps| == 4 && ps[0] == a && ps[1] == " " + b && ps[2] == " " + c && ps[3] == ""
  {
    assert Avoids(" " + b, Terminators) && Avoids(" " + c, Terminators);
    PiecesDot(a, " " + b + "." + (" " + c + "." + ""));
    PiecesDot(" " + b, " " + c + "." + "");
    PiecesDot(" " + c, "");
  }

  lemma KeepSpaced(x: string)
    requires x != [] && Strip(x) == x
    ensures !IsBlank(" " + x) && Strip(" " + x) == x
  {
    StripLeadingSpace(' ', x);
    assert (" " + x)[1..] == x;
  }

  lemma KeepThree(ps: seq<string>, a: string, b: string, c: string)
    requires |ps| == 4 && IsBlank(ps[3])
    requires !IsBlank(ps[0]) && Strip(ps[0]) == a && !IsBlank(ps[1]) && Strip(ps[1]) == b && !IsBlank(ps[2]) && Strip(ps[2]) == c
    ensures var r := Keep(ps); |r| == 3 && r[0] == a && r[1] == b && r[2] == c
  {
    var k2, k1 := Keep(ps[2..]), Keep(ps[1..]);
    assert ps[3..][0] == ps[3] && ps[3..][1..] == [];
    assert Keep(ps[3..]) == [];
    assert ps[2..][0] == ps[2] && ps[2..][1..] == ps[3..];
    assert k2 == [c];
    assert ps[1..][0] == ps[1] && ps[1..][1..] == ps[2..];
    assert k1 == [b] + k2;
  }

  /** Three sentences joined and closed by a full stop are read back as the same three sentences. */
  lemma ClipJoined(a: string, b: string, c: string)
    requires Avoids(a, Terminators) && Avoids(b, Terminators) && Avoids(c, Terminators)
    requires a != [] && Strip(a) == a && b != [] && Strip(b) == b && c != [] && Strip(c) == c
    ensures var r := Sentences(Join([a, b, c], ". ") + "."); |r| == 3 && r[0] == a && r[1] == b && r[2] == c
  {
    var text := Join([a, b, c], ". ") + ".";
    JoinThree(a, b, c);
    PiecesThree(a, b, c);
    KeepSpaced(b);
    KeepSpaced(c);
    KeepThree(Pieces(text), a, b, c);
    SentencesPieces(text);
  }

  lemma AvoidsConcat(x: string, y: string, bad: set<char>)
    requires Avoids(x, bad) && Avoids(y, bad)
    ensures Avoids(x + y, bad)
  {
    assert forall i :: |x| <= i < |x + y| ==> (x + y)[i] == y[i - |x|];
  }

  lemma JoinedAvoids(a: string, b: string, c: string, bad: set<char>)
    requires Avoids(a, bad + Terminators) && Avoids(b, bad + Terminators) && Avoids(c, bad + Terminators)
    requires '.' !in bad && ' ' !in bad
    ensures Avoids(Join([a, b, c], ". ") + ".", bad)
  {
    JoinThree(a, b, c);
    AvoidsConcat(c, ".", bad);
    AvoidsConcat(" ", c + ".", bad);
    AvoidsConcat(" " + c + ".", "", bad);
    AvoidsConcat(b, ".", bad);
    AvoidsConcat(" ", b + ".", bad);
    AvoidsConcat(" " + b + ".", " " + c + "." + "", bad);
    AvoidsConcat(a, ".", bad);
    AvoidsConcat(a + ".", " " + b + "." + (" " + c + "." + ""), bad);
  }

  /** Clipping keeps exactly the first three sentences, and text of at most three sentences as it is. */
  lemma ClipSentences(s: string, bad: set<char>)
    requires Avoids(s, bad) && '.' !in bad && ' ' !in bad
    ensures |Sentences(s)| > 3 ==> Sentences(Clip(s)) == Sentences(s)[..3]
    ensures |Sentences(s)| <= 3 ==> Clip(s) == s
    ensures Avoids(Clip(s), bad)
  {
    if |Sentences(s)| > 3 {
      ClipLong(s, bad);
    }
  }

  lemma ClipLong(s: string, bad: set<char>)
    requires Avoids(s, bad) && '.' !in bad && ' ' !in bad
    requires |Sentences(s)| > 3
    ensures Sentences(Clip(s)) == Sentences(s)[..3]
    ensures Avoids(Clip(s), bad)
  {
    var ss := Sentences(s);
    SentencesAvoid(s, bad);
    var a, b, c := ss[0], ss[1], ss[2];
    AvoidsRight(a, bad, Terminators);
    AvoidsRight(b, bad, Terminators);
    AvoidsRight(c, bad, Terminators);
    ClipJoined(a, b, c);
    TakeThree(ss);
    FirstThree(Sentences(Clip(s)), ss);
    JoinedAvoids(a, b, c, bad);
  }

  lemma AvoidsRight(x: string, bad: set<char>, more: set<char>)
    requires Avoids(x, bad + more)
    ensures Avoids(x, more)
  {
  }

  lemma TakeThree<T>(xs: seq<T>)
    requires |xs| >= 3
    ensures xs[..3] == [xs[0], xs[1], xs[2]]
  {
  }

  lemma FirstThree<T>(r: seq<T>, xs: seq<T>)
    requires |r| == 3 && |xs| >= 3 && r[0] == xs[0] && r[1] == xs[1] && r[2] == xs[2]
    ensures r == xs[..3]
  {
  }

  /** Number of pieces that are not blank. */
  function NonBlank(ps: seq<string>): nat {
    if ps == [] then 0 else (if IsBlank(ps[0]) then 0 else 1) + NonBlank(ps[1..])
  }

  lemma {:induction false} KeepCount(ps: seq<string>)
    ensures |Keep(ps)| == NonBlank(ps)
  {
    if ps != [] {
      KeepCount(ps[1..]);
    }
  }

  /**
   * The number of non-blank pieces of `s`, read one character at a time;
   * `seen` says whether the piece being read already holds a character that
   * is not whitespace.
   */
  function CountFrom(s: string, seen: bool): nat
    decreases |s|
  {
    if s == [] then (if seen then 1 else 0)
    else if s[0] in Terminators then (if seen then 1 else 0) + CountFrom(s[1..], false)
    else CountFrom(s[1..], seen || !IsSpace(s[0]))
  }

  lemma BlankCons(c: char, x: string)
    ensures IsBlank([c] + x) <==> IsSpace(c) && IsBlank(x)
  {
    var y := [c] + x;
    assert y[0] == c;
    if IsBlank(x) && IsSpace(c) {
      forall i | 0 <= i < |y|
        ensures IsSpace(y[i])
      {
        if i > 0 {
          assert y[i] == x[i - 1];
        }
      }
    }
    if IsBlank(y) {
      forall i | 0 <= i < |x|
        ensures IsSpace(x[i])
      {
        assert x[i] == y[i + 1];
      }
    }
  }

  lemma NonBlankCons(x: string, t: seq<string>)
    ensures NonBlank([x] + t) == (if IsBlank(x) then 0 else 1) + NonBlank(t)
  {
    assert ([x] + t)[1..] == t;
  }

  /** Reading characters counts the non-blank pieces. */
  lemma {:induction false} CountPieces(s: string, seen: bool)
    ensures CountFrom(s, seen) == (if seen || !IsBlank(Pieces(s)[0]) then 1 else 0) + NonBlank(Pieces(s)[1..])
    decreases |s|
  {
    if s != [] {
      var p := Pieces(s[1..]);
      CountPieces(s[1..], seen || !IsSpace(s[0]));
      CountPieces(s[1..], false);
      assert p == [p[0]] + p[1..];
      NonBlankCons(p[0], p[1..]);
      if s[0] !in Terminators {
        BlankCons(s[0], p[0]);
        assert Pieces(s)[1..] == p[1..];
      } else {
        assert Pieces(s)[1..] == p;
      }
    }
  }

  /** The sentences of `s` are as many as the character count says. */
  lemma SentencesCount(s: string)
    ensures |Sentences(s)| == CountFrom(s, false)
  {
    SentencesPieces(s);
    KeepCount(Pieces(s));
    CountPieces(s, false);
    var p := Pieces(s);
    assert p == [p[0]] + p[1..];
    NonBlankCons(p[0], p[1..]);
  }

  lemma {:induction false} CountMonotone(s: string)
    ensures CountFrom(s, false) <= CountFrom(s, true)
    decreases |s|
  {
    if s != [] && s[0] !in Terminators {
      CountMonotone(s[1..]);
    }
  }

  /** Removing characters other than terminators never adds a piece that is not blank. */
  lemma {:induction false} CountWithout(s: string, drop: char -> bool, seen: bool)
    requires forall c :: drop(c) ==> c !in Terminators
    ensures CountFrom(Without(s, drop), seen) <= CountFrom(s, seen)
    decreases |s|
  {
    if s != [] {
      var w := Without(s[1..], drop);
      WithoutCons(s[0], s[1..], drop);
      assert s == [s[0]] + s[1..];
      if drop(s[0]) {
        assert s[0] !in Terminators;
        assert Without(s, drop) == w;
        CountWithout(s[1..], drop, seen);
        CountMonotone(s[1..]);
      } else {
        assert ([s[0]] + w)[1..] == w;
        CountWithout(s[1..], drop, if s[0] in Terminators then false else seen || !IsSpace(s[0]));
      }
    }
  }

  /** Removing characters other than terminators never adds a sentence. */
  lemma WithoutSentences(s: string, drop: char -> bool)
    requires forall c :: drop(c) ==> c !in Terminators
    ensures |Sentences(Without(s, drop))| <= |Sentences(s)|
  {
    SentencesCount(s);
    SentencesCount(Without(s, drop));
    CountWithout(s, drop, false);
  }

  /** Leading whitespace is not counted. */
  lemma {:induction false} LStripCount(s: string)
    ensures CountFrom(LStrip(s), false) == CountFrom(s, false)
    decreases |s|
  {
    if s != [] && IsSpace(s[0]) {
      LStripCount(s[1..]);
    }
  }

  /** Whitespace appended is not counted. */
  lemma {:induction false} SnocCount(t: string, c: char, seen: bool)
    requires IsSpace(c)
    ensures CountFrom(t + [c], seen) == CountFrom(t, seen)
    decreases |t|
  {
    if t == [] {
      assert [c][1..] == [];
    } else {
      assert (t + [c])[0] == t[0] && (t + [c])[1..] == t[1..] + [c];
      SnocCount(t[1..], c, if t[0] in Terminators then false else seen || !IsSpace(t[0]));
    }
  }

  lemma {:induction false} RStripCount(s: string)
    ensures CountFrom(RStrip(s), false) == CountFrom(s, false)
    decreases |s|
  {
    if s != [] && IsSpace(s[|s| - 1]) {
      var t := s[..|s| - 1];
      RStripCount(t);
      assert s == t + [s[|s| - 1]];
      SnocCount(t, s[|s| - 1], false);
    }
  }

  /** Stripping the text keeps the number of sentences. */
  lemma StripSentences(s: string)
    ensures |Sentences(Strip(s))| == |Sentences(s)|
  {
    SentencesCount(s);
    SentencesCount(Strip(s));
    LStripCount(s);
    RStripCount(LStrip(s));
  }

  /** `strip()` keeps only characters the text holds. */
  lemma StripKeeps(s: string, ok: char -> bool)
    requires forall i :: 0 <= i < |s| ==> ok(s[i])
    ensures forall i :: 0 <= i < |Strip(s)| ==> ok(Strip(s)[i])
  {
    var t := LStrip(s);
    forall i | 0 <= i < |t|
      ensures ok(t[i])
    {
      assert t[i] == s[|s| - |t| + i];
    }
    var r := RStrip(t);
    forall i | 0 <= i < |r|
      ensures ok(r[i])
    {
      assert r[i] == t[i];
    }
  }

  /** No emoji ends a sentence. */
  lemma EmojiNoTerminator()
    ensures forall c :: IsEmoji(c) ==> c !in Terminators
  {
  }

  /**
   * What formatting guarantees for every reply: no markdown marker, no
   * emoji, at most three sentences (counted as the agent counts them), and
   * no surrounding whitespace.
   */
  lemma FormatShape(reply: string)
    ensures Avoids(Format(reply), MarkdownChars)
    ensures forall i :: 0 <= i < |Format(reply)| ==> !IsEmoji(Format(reply)[i])
    ensures |Sentences(Format(reply))| <= 3
    ensures Format(reply) != [] ==> !IsSpace(Format(reply)[0]) && !IsSpace(Format(reply)[|Format(reply)| - 1])
  {
    var md := StripMarkdown(reply);
    StripMarkdownRemovesMarkers(reply);
    ClipSentences(md, MarkdownChars);
    var clipped := Clip(md);
    UnmarkedAfterEmoji(clipped);
    NoEmojiAfterStrip(clipped);
    assert |Sentences(clipped)| <= 3 by {
      if |Sentences(md)| > 3 {
        assert Sentences(clipped) == Sentences(md)[..3];
      }
    }
    SentencesAfterEmoji(clipped);
  }

  /** Removing emoji and stripping keeps text free of markdown markers. */
  lemma UnmarkedAfterEmoji(x: string)
    requires Avoids(x, MarkdownChars)
    ensures Avoids(Strip(RemoveEmoji(x)), MarkdownChars)
  {
    WithoutAvoids(x, IsEmoji, MarkdownChars);
    StripAvoids(RemoveEmoji(x), MarkdownChars);
  }

  /** Stripping text without emoji leaves none. */
  lemma NoEmojiAfterStrip(x: string)
    ensures forall i :: 0 <= i < |Strip(RemoveEmoji(x))| ==> !IsEmoji(Strip(RemoveEmoji(x))[i])
  {
    StripKeeps(RemoveEmoji(x), c => !IsEmoji(c));
  }

  /** Removing emoji and stripping adds no sentence. */
  lemma SentencesAfterEmoji(x: string)
    ensures |Sentences(Strip(RemoveEmoji(x)))| <= |Sentences(x)|
  {
    EmojiNoTerminator();
    WithoutSentences(x, IsEmoji);
    StripSentences(RemoveEmoji(x));
  }

  /** A reply that is already plain, short and trimmed is sent as it is. */
  lemma FormatPlain(reply: string)
    requires Avoids(reply, MarkdownChars)
    requires forall i :: 0 <= i < |reply| ==> !IsEmoji(reply[i])
    requires |Sentences(reply)| <= 3
    requires reply != [] ==> !IsSpace(reply[0]) && !IsSpace(reply[|reply| - 1])
    ensures Format(reply) == reply
  {
    WithoutNone(reply, IsMarkdown);
    StripMarkdownRemovesMarkers(reply);
    WithoutNone(reply, IsEmoji);
    if reply != [] {
      StripTrimmed(reply);
    }
  }

  /** A reply that is presentable once its markdown markers are gone is sent as exactly that. */
  lemma FormatMarked(reply: string)
    requires forall i :: 0 <= i < |Without(reply, IsMarkdown)| ==> !IsEmoji(Without(reply, IsMarkdown)[i])
    requires |Sentences(Without(reply, IsMarkdown))| <= 3
    requires var t := Without(reply, IsMarkdown); t != [] ==> !IsSpace(t[0]) && !IsSpace(t[|t| - 1])
    ensures Format(reply) == Without(reply, IsMarkdown)
  {
    var t := Without(reply, IsMarkdown);
    StripMarkdownRemovesMarkers(reply);
    StripMarkdownRemovesMarkers(t);
    WithoutNone(t, IsMarkdown);
    assert StripMarkdown(reply) == StripMarkdown(t);
    FormatPlain(t);
  }

  lemma {:induction false} WithoutConcat(x: string, y: string, drop: char -> bool)
    ensures Without(x + y, drop) == Without(x, drop) + Without(y, drop)
  {
    if x == [] {
      assert x + y == y;
    } else {
      assert (x + y)[0] == x[0] && (x + y)[1..] == x[1..] + y;
      WithoutConcat(x[1..], y, drop);
    }
  }

  /** Text without a terminator is one sentence at most. */
  lemma {:induction false} CountUnterminated(s: string, seen: bool)
    requires Avoids(s, Terminators)
    ensures CountFrom(s, seen) <= 1
    decreases |s|
  {
    if s != [] {
      CountUnterminated(s[1..], seen || !IsSpace(s[0]));
    }
  }

  /** Removing the markers from marker-free text with one marker inside removes just that one. */
  lemma WithoutMarker(x: string, c: char, y: string)
    requires c in MarkdownChars && Avoids(x + y, MarkdownChars)
    ensures Without(x + [c] + y, IsMarkdown) == x + y
  {
    var t := x + y;
    forall i | 0 <= i < |x|
      ensures !IsMarkdown(x[i])
    {
      assert x[i] == t[i];
    }
    forall i | 0 <= i < |y|
      ensures !IsMarkdown(y[i])
    {
      assert y[i] == t[|x| + i];
    }
    WithoutNone(x, IsMarkdown);
    WithoutNone(y, IsMarkdown);
    WithoutCons(c, [], IsMarkdown);
    assert [c] + [] == [c];
    WithoutConcat(x, [c], IsMarkdown);
    WithoutConcat(x + [c], y, IsMarkdown);
  }

  /** A marker inside an otherwise presentable reply is dropped and nothing else changes. */
  lemma FormatDropsMarker(x: string, c: char, y: string)
    requires c in MarkdownChars
    requires Avoids(x + y, MarkdownChars)
    requires forall i :: 0 <= i < |x + y| ==> !IsEmoji((x + y)[i])
    requires |Sentences(x + y)| <= 3
    requires x + y != [] ==> !IsSpace((x + y)[0]) && !IsSpace((x + y)[|x + y| - 1])
    ensures Format(x + [c] + y) == x + y
  {
    WithoutMarker(x, c, y);
    FormatMarked(x + [c] + y);
  }

  /** Lower-case letters and spaces, neither ending blank. */
  predicate Worded(t: string) {
    t != [] && t[0] != ' ' && t[|t| - 1] != ' ' &&
    forall i :: 0 <= i < |t| ==> 'a' <= t[i] <= 'z' || t[i] == ' '
  }

  /** A marker inside a reply of plain words is dropped and nothing else changes. */
  lemma FormatWorded(x: string, c: char, y: string)
    requires c in MarkdownChars && Worded(x + y)
    ensures Format(x + [c] + y) == x + y
  {
    var t := x + y;
    assert Avoids(t, MarkdownChars) && Avoids(t, Terminators);
    SentencesCount(t);
    CountUnterminated(t, false);
    FormatDropsMarker(x, c, y);
  }

  /** Text without a terminator followed by one full stop is one sentence at most. */
  lemma {:induction false} CountStop(x: string, seen: bool)
    requires Avoids(x, Terminators)
    ensures CountFrom(x + ".", seen) <= 1
    decreases |x|
  {
    if x == [] {
      assert x + "." == ".";
      assert "."[1..] == [];
    } else {
      assert (x + ".")[0] == x[0] && (x + ".")[1..] == x[1..] + ".";
      CountStop(x[1..], seen || !IsSpace(x[0]));
    }
  }
}
