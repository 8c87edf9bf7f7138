/**
 * The regular expressions of the honeypot agent, written out as matchers:
 * the seven prompt-injection patterns its input sanitiser replaces with
 * `[FILTERED]` (`re.sub`, case-insensitive, applied in list order), and the
 * finite phrase sets behind its unsafe-output and URL checks (`re.search`).
 */
module HoneypotPatterns {
  import opened Wrappers
  import opened PyText

  /** What every injection match is replaced with. */
  const Filtered: string := "[FILTERED]"

  /** The injection patterns, in the order the sanitiser applies them. */
  datatype Injection =
    | Ignore           // ignore (all )?(previous |prior |above )?instructions
    | Disregard        // disregard (all )?(previous |prior |above )?instructions
    | Forget           // forget (all )?(previous |prior |above )?instructions
    | YouAreNow        // you are now
    | NewInstructions  // new instructions:
    | SystemPrefix     // system:
    | SpecialToken     // <\|.*?\|>

  const InjectionPatterns: seq<Injection> :=
    [Ignore, Disregard, Forget, YouAreNow, NewInstructions, SystemPrefix, SpecialToken]

  /**
   * One element of a literal pattern: a literal matched case-insensitively, or
   * an optional group of literal alternatives, `(a|b|c)?`.
   */
  datatype Piece = Lit(text: string) | Opt(choices: seq<string>)

  /** The non-token patterns, piece by piece. */
  function PiecesOf(p: Injection): seq<Piece>
    requires !p.SpecialToken?
  {
    match p
    case Ignore => OverrideOf("ignore ")
    case Disregard => OverrideOf("disregard ")
    case Forget => OverrideOf("forget ")
    case YouAreNow => [Lit("you are now")]
    case NewInstructions => [Lit("new instructions:")]
    case SystemPrefix => [Lit("system:")]
  }

  /** `verb (all )?(previous |prior |above )?instructions` */
  function OverrideOf(verb: string): seq<Piece> {
    [Lit(verb), Opt(["all "]), Opt(["previous ", "prior ", "above "]), Lit("instructions")]
  }

  // ---------------------------------------------------------------- matching at one position

  /** How many characters the required literals of `ps` from the `q`-th on take at least. */
  function MinFrom(ps: seq<Piece>, q: nat): nat
    decreases |ps| - q
  {
    if q >= |ps| then 0 else (if ps[q].Lit? then |ps[q].text| else 0) + MinFrom(ps, q + 1)
  }

  /** An optional group: the first alternative present at `j` is taken, else the group is skipped. */
  function SkipFirst(cs: seq<string>, s: string, j: nat): nat
  {
    if cs == [] then j
    else if AtCI(s, j, cs[0]) then j + |cs[0]|
    else SkipFirst(cs[1..], s, j)
  }

  /** A group that is taken is one of its alternatives, present at `j`. */
  lemma {:induction false} SkipChosen(cs: seq<string>, s: string, j: nat)
    ensures SkipFirst(cs, s, j) == j || exists c :: c in cs && AtCI(s, j, c) && SkipFirst(cs, s, j) == j + |c|
  {
    if cs != [] && !AtCI(s, j, cs[0]) {
      SkipChosen(cs[1..], s, j);
      if SkipFirst(cs, s, j) != j {
        var c :| c in cs[1..] && AtCI(s, j, c) && SkipFirst(cs, s, j) == j + |c|;
        assert c in cs;
      }
    }
  }

  lemma SkipBounds(cs: seq<string>, s: string, j: nat)
    ensures j <= SkipFirst(cs, s, j)
    ensures j <= |s| ==> SkipFirst(cs, s, j) <= |s|
  {
    SkipChosen(cs, s, j);
  }

  /**
   * The end of the match at `j` of the pieces of `ps` from the `q`-th on.
   * Each optional group is taken whenever one of its alternatives is present;
   * for the patterns above this is the match the backtracking regex engine
   * finds, since no alternative is a prefix of another and none starts the way
   * what follows the group does.
   */
  function MatchFrom(ps: seq<Piece>, q: nat, s: string, j: nat): Option<nat>
    decreases |ps| - q
  {
    if q >= |ps| then Some(j)
    else match ps[q]
      case Lit(x) => if AtCI(s, j, x) then MatchFrom(ps, q + 1, s, j + |x|) else None
      case Opt(cs) => MatchFrom(ps, q + 1, s, SkipFirst(cs, s, j))
  }

  /** A match covers at least the required literals, and stays inside the text. */
  lemma {:induction false} MatchBounds(ps: seq<Piece>, q: nat, s: string, j: nat)
    requires MatchFrom(ps, q, s, j).Some?
    ensures j + MinFrom(ps, q) <= MatchFrom(ps, q, s, j).value
    ensures j <= |s| ==> MatchFrom(ps, q, s, j).value <= |s|
    ensures MinFrom(ps, q) > 0 ==> j <= |s|
    decreases |ps| - q
  {
    if q < |ps| {
      match ps[q]
      case Lit(x) => MatchBounds(ps, q + 1, s, j + |x|);
      case Opt(cs) =>
        SkipBounds(cs, s, j);
        MatchBounds(ps, q + 1, s, SkipFirst(cs, s, j));
    }
  }

  /** The lazy `.*?\|>`: the first `|>` from `j`, provided no line break comes before it. */
  function CloseToken(s: string, j: nat): (m: Option<nat>)
    ensures m.Some? ==> j + 2 <= m.value <= |s|
    decreases |s| - j
  {
    if j + 2 > |s| then None
    else if s[j] == '|' && s[j + 1] == '>' then Some(j + 2)
    else if s[j] == '\n' then None
    else CloseToken(s, j + 1)
  }

  /** `<\|.*?\|>`: a special token such as `<|im_start|>`, on one line. */
  function MatchToken(s: string, i: nat): (m: Option<nat>)
    ensures m.Some? ==> i + 4 <= m.value <= |s|
  {
    if i + 2 <= |s| && s[i] == '<' && s[i + 1] == '|' then CloseToken(s, i + 2) else None
  }

  /** The end of the match of `p` starting at `i`, if there is one. */
  function MatchInjection(p: Injection, s: string, i: nat): (m: Option<nat>)
    ensures m.Some? ==> i < m.value <= |s|
  {
    if p.SpecialToken? then MatchToken(s, i)
    else
      var m := MatchFrom(PiecesOf(p), 0, s, i);
      if m.Some? then
        assert MinFrom(PiecesOf(p), 0) > 0;
        MatchBounds(PiecesOf(p), 0, s, i);
        m
      else m
  }

  // ---------------------------------------------------------------- matchers in general

  /** A compiled pattern: the end of its match at a position, if it matches there. */
  type Matcher = (string, nat) -> Option<nat>

  function MatcherOf(p: Injection): (m: Matcher)
    ensures forall s, i :: m(s, i) == MatchInjection(p, s, i)
    ensures Advances(m)
  {
    (s: string, i: nat) => MatchInjection(p, s, i)
  }

  /** Matches are non-empty and lie inside the text. */
  ghost predicate Advances(m: Matcher) {
    forall s: string, i: nat :: m(s, i).Some? ==> i < m(s, i).value <= |s|
  }

  /** A match is found again wherever the characters it consumed occur. */
  ghost predicate Local(m: Matcher) {
    forall s: string, i: nat, t: string, j: nat :: LocalAt(m, s, i, t, j)
  }

  /** The match of `m` in `s` at `i`, if any, is found again in `t` at `j` when `t` holds its characters there. */
  ghost predicate LocalAt(m: Matcher, s: string, i: nat, t: string, j: nat) {
    m(s, i).Some? && i < m(s, i).value <= |s| &&
    j + (m(s, i).value - i) <= |t| && t[j..j + (m(s, i).value - i)] == s[i..m(s, i).value]
    ==> m(t, j) == Some(j + (m(s, i).value - i))
  }

  /** Matches hold no square bracket and hold a space or a colon. */
  ghost predicate Plain(m: Matcher) {
    forall s: string, i: nat :: m(s, i).Some? && i < m(s, i).value <= |s| ==>
      Avoids(s[i..m(s, i).value], Foreign) && !Avoids(s[i..m(s, i).value], {' ', ':'})
  }

  /** `m` matches nowhere in `s` from `i` on. */
  ghost predicate NoMatchFrom(m: Matcher, s: string, i: nat) {
    forall k :: i <= k <= |s| ==> m(s, k).None?
  }

  // ---------------------------------------------------------------- re.sub

  /** `re.sub(pattern, "[FILTERED]", s[i..])`: scan left to right, replacing each match and resuming after it. */
  function SubFrom(m: Matcher, s: string, i: nat): string
    requires Advances(m) && i <= |s|
    decreases |s| - i
  {
    if i == |s| then []
    else match m(s, i)
      case Some(e) => Filtered + SubFrom(m, s, e)
      case None => [s[i]] + SubFrom(m, s, i + 1)
  }

  function Sub(m: Matcher, s: string): string
    requires Advances(m)
  {
    SubFrom(m, s, 0)
  }

  /** Text in which the pattern matches nowhere is passed through unchanged. */
  lemma {:induction false} SubClean(m: Matcher, s: string, i: nat)
    requires Advances(m) && i <= |s| && NoMatchFrom(m, s, i)
    ensures SubFrom(m, s, i) == s[i..]
    decreases |s| - i
  {
    if i < |s| {
      SubClean(m, s, i + 1);
      assert s[i..] == [s[i]] + s[i + 1..];
    }
  }

  /** Characters before the leftmost match are kept as they are; the match itself is replaced. */
  lemma {:induction false} SubLeftmost(m: Matcher, s: string, i: nat, k: nat)
    requires Advances(m) && i <= k < |s|
    requires forall j :: i <= j < k ==> m(s, j).None?
    requires m(s, k).Some?
    ensures SubFrom(m, s, i) == s[i..k] + Filtered + SubFrom(m, s, m(s, k).value)
    decreases k - i
  {
    if i < k {
      assert m(s, i).None?;
      assert SubFrom(m, s, i) == [s[i]] + SubFrom(m, s, i + 1);
      SubLeftmost(m, s, i + 1, k);
      assert s[i..k] == [s[i]] + s[i + 1..k];
      ConsConcat(s[i], s[i + 1..k], Filtered, SubFrom(m, s, m(s, k).value));
    } else {
      assert s[i..k] == [];
    }
  }

  lemma ConsConcat(x: char, a: string, f: string, r: string)
    ensures [x] + (a + f + r) == ([x] + a) + f + r
  {
  }

  /** Until its first `[`, the output is a copy of the input. */
  lemma {:induction false} CopyPrefix(m: Matcher, s: string, i: nat, b: nat)
    requires Advances(m) && i <= |s| && b <= |SubFrom(m, s, i)| && '[' !in SubFrom(m, s, i)[..b]
    ensures i + b <= |s| && SubFrom(m, s, i)[..b] == s[i..i + b]
    decreases |s| - i
  {
    if b > 0 {
      var t := SubFrom(m, s, i);
      assert t[..b][0] == t[0];
      assert t[0] != '[';
      assert Filtered[0] == '[';
      if m(s, i).None? {
        var t2 := SubFrom(m, s, i + 1);
        assert t == [s[i]] + t2;
        assert t2[..b - 1] == t[..b][1..];
        CopyPrefix(m, s, i + 1, b - 1);
        assert t[..b] == [s[i]] + t2[..b - 1];
      }
    }
  }

  /** `q` and `p` are the same pattern. */
  ghost predicate Same(q: Matcher, p: Matcher) {
    forall s: string, i: nat :: q(s, i) == p(s, i)
  }

  /** Every stretch of text starting inside an inserted `[FILTERED]` holds a bracket or no space and no colon. */
  lemma FilteredSlices(t: string, rest: string, a: nat)
    requires t == Filtered + rest && a < |Filtered|
    ensures forall e :: a < e <= |t| ==> !Avoids(t[a..e], Foreign) || Avoids(t[a..e], {' ', ':'})
  {
    forall e | a < e <= |t|
      ensures !Avoids(t[a..e], Foreign) || Avoids(t[a..e], {' ', ':'})
    {
      if e >= |Filtered| {
        assert t[a..e][|Filtered| - 1 - a] == ']';
      } else {
        forall x | 0 <= x < e - a
          ensures t[a..e][x] !in {' ', ':'}
        {
          assert t[a..e][x] == Filtered[a + x];
        }
      }
    }
  }

  /** No part of an inserted `[FILTERED]` can belong to a match of a plain pattern. */
  lemma FilteredBlocks(p: Matcher, t: string, a: nat, rest: string)
    requires Advances(p) && Plain(p) && t == Filtered + rest && a < |Filtered|
    ensures p(t, a).None?
  {
    FilteredSlices(t, rest, a);
  }

  /** A match after a prefix `x` is a match in what follows `x`. */
  lemma ShiftBack(p: Matcher, x: string, rest: string, a: nat)
    requires Advances(p) && Local(p) && a >= |x| && p(x + rest, a).Some?
    ensures p(rest, a - |x|) == Some(p(x + rest, a).value - |x|)
  {
    var t := x + rest;
    var e := p(t, a).value;
    assert rest[a - |x|..e - |x|] == t[a..e];
    assert LocalAt(p, t, a, rest, a - |x|);
  }

  /** A plain match at the start of the output of `re.sub` is a match in the input. */
  lemma CopyMatch(q: Matcher, p: Matcher, s: string, i: nat)
    requires Advances(q) && Advances(p) && Local(p) && Plain(p) && i <= |s|
    requires p(SubFrom(q, s, i), 0).Some?
    ensures p(s, i) == Some(i + p(SubFrom(q, s, i), 0).value)
  {
    var t := SubFrom(q, s, i);
    var e := p(t, 0).value;
    assert t[..e] == t[0..e];
    assert Avoids(t[..e], Foreign);
    CopyPrefix(q, s, i, e);
    assert s[i..i + e] == t[0..e];
    assert LocalAt(p, t, 0, s, i);
  }

  /** One step of the scan: where a plain match in the output of `re.sub` comes from. */
  lemma Step(q: Matcher, p: Matcher, s: string, i: nat, a: nat)
    requires Advances(q) && Advances(p) && Local(p) && Plain(p) && i < |s|
    requires p(SubFrom(q, s, i), a).Some?
    ensures q(s, i).Some? ==> a >= |Filtered| && p(SubFrom(q, s, q(s, i).value), a - |Filtered|).Some?
    ensures q(s, i).None? && a >= 1 ==> p(SubFrom(q, s, i + 1), a - 1).Some?
    ensures q(s, i).None? && a == 0 ==> p(s, i).Some?
  {
    var t := SubFrom(q, s, i);
    if q(s, i).Some? {
      var t2 := SubFrom(q, s, q(s, i).value);
      assert t == Filtered + t2;
      if a < |Filtered| {
        FilteredBlocks(p, t, a, t2);
      } else {
        ShiftBack(p, Filtered, t2, a);
      }
    } else {
      var t2 := SubFrom(q, s, i + 1);
      assert t == [s[i]] + t2;
      if a >= 1 {
        ShiftBack(p, [s[i]], t2, a);
      } else {
        CopyMatch(q, p, s, i);
      }
    }
  }

  /**
   * A match of a plain pattern `p` in the output of `re.sub(q, ...)` from `i`
   * needs a match of `p` in the input from `i` that the scan did not replace:
   * so re-applying a pattern leaves none of its matches, and a later
   * substitution creates no match of an earlier pattern.
   */
  lemma {:induction false} NoMatchSurvives(q: Matcher, p: Matcher, s: string, i: nat, a: nat)
    requires Advances(q) && Advances(p) && Local(p) && Plain(p) && i <= |s|
    requires Same(q, p) || NoMatchFrom(p, s, i)
    ensures p(SubFrom(q, s, i), a).None?
    decreases |s| - i
  {
    if i < |s| && p(SubFrom(q, s, i), a).Some? {
      Step(q, p, s, i, a);
      if q(s, i).Some? {
        NoMatchSurvives(q, p, s, q(s, i).value, a - |Filtered|);
      } else if a >= 1 {
        NoMatchSurvives(q, p, s, i + 1, a - 1);
      }
    }
  }

  // ---------------------------------------------------------------- the plain patterns

  /** `t` holds at `j` the `n` characters `s` holds at `i`. */
  ghost predicate Agree(s: string, i: nat, t: string, j: nat, n: nat) {
    i + n <= |s| && j + n <= |t| && t[j..j + n] == s[i..i + n]
  }

  lemma AgreeDrop(s: string, i: nat, t: string, j: nat, n: nat, d: nat)
    requires Agree(s, i, t, j, n) && d <= n
    ensures Agree(s, i + d, t, j + d, n - d)
  {
    assert t[j + d..j + n] == t[j..j + n][d..];
    assert s[i + d..i + n] == s[i..i + n][d..];
  }

  /** A literal test that reads only agreeing characters gives the same answer on both texts. */
  lemma AtCIAgree(s: string, i: nat, t: string, j: nat, n: nat, lit: string)
    requires Agree(s, i, t, j, n) && |lit| <= n
    ensures AtCI(s, i, lit) == AtCI(t, j, lit)
  {
    forall k | 0 <= k < |lit|
      ensures LowerChar(s[i + k]) == lit[k] <==> LowerChar(t[j + k]) == lit[k]
    {
      assert s[i..i + n][k] == s[i + k];
      assert t[j..j + n][k] == t[j + k];
    }
  }

  /** Every optional alternative is no longer than the literals that must follow it. */
  ghost predicate Guarded(ps: seq<Piece>) {
    forall q :: 0 <= q < |ps| ==> GuardedAt(ps, q)
  }

  ghost predicate GuardedAt(ps: seq<Piece>, q: nat)
    requires q < |ps|
  {
    ps[q].Opt? ==> forall c :: c in ps[q].choices ==> |c| <= MinFrom(ps, q + 1)
  }

  lemma {:induction false} SkipLocal(cs: seq<string>, s: string, j: nat, t: string, j2: nat, n: nat)
    requires Agree(s, j, t, j2, n) && forall c :: c in cs ==> |c| <= n
    ensures SkipFirst(cs, t, j2) == j2 + (SkipFirst(cs, s, j) - j)
  {
    if cs != [] {
      AtCIAgree(s, j, t, j2, n, cs[0]);
      if !AtCI(s, j, cs[0]) {
        SkipLocal(cs[1..], s, j, t, j2, n);
      }
    }
  }

  /** A match that tests only characters inside itself is found again wherever they occur. */
  lemma {:induction false} PiecesLocal(ps: seq<Piece>, q: nat, s: string, j: nat, t: string, j2: nat)
    requires Guarded(ps) && MatchFrom(ps, q, s, j).Some? && j <= |s| && j <= MatchFrom(ps, q, s, j).value
    requires Agree(s, j, t, j2, MatchFrom(ps, q, s, j).value - j)
    ensures MatchFrom(ps, q, t, j2) == Some(j2 + (MatchFrom(ps, q, s, j).value - j))
    decreases |ps| - q, 1
  {
    if q < |ps| {
      if ps[q].Lit? {
        LitLocal(ps, q, s, j, t, j2);
      } else {
        OptLocal(ps, q, s, j, t, j2);
      }
    }
  }

  lemma {:induction false} LitLocal(ps: seq<Piece>, q: nat, s: string, j: nat, t: string, j2: nat)
    requires q < |ps| && ps[q].Lit?
    requires Guarded(ps) && MatchFrom(ps, q, s, j).Some? && j <= |s| && j <= MatchFrom(ps, q, s, j).value
    requires Agree(s, j, t, j2, MatchFrom(ps, q, s, j).value - j)
    ensures MatchFrom(ps, q, t, j2) == Some(j2 + (MatchFrom(ps, q, s, j).value - j))
    decreases |ps| - q, 0
  {
    var x := ps[q].text;
    var e := MatchFrom(ps, q, s, j).value;
    var n := e - j;
    assert AtCI(s, j, x);
    assert MatchFrom(ps, q + 1, s, j + |x|) == Some(e);
    MatchBounds(ps, q + 1, s, j + |x|);
    AtCIAgree(s, j, t, j2, n, x);
    AgreeDrop(s, j, t, j2, n, |x|);
    PiecesLocal(ps, q + 1, s, j + |x|, t, j2 + |x|);
    assert MatchFrom(ps, q, t, j2) == MatchFrom(ps, q + 1, t, j2 + |x|);
  }

  lemma {:induction false} OptLocal(ps: seq<Piece>, q: nat, s: string, j: nat, t: string, j2: nat)
    requires q < |ps| && ps[q].Opt?
    requires Guarded(ps) && MatchFrom(ps, q, s, j).Some? && j <= |s| && j <= MatchFrom(ps, q, s, j).value
    requires Agree(s, j, t, j2, MatchFrom(ps, q, s, j).value - j)
    ensures MatchFrom(ps, q, t, j2) == Some(j2 + (MatchFrom(ps, q, s, j).value - j))
    decreases |ps| - q, 0
  {
    var cs := ps[q].choices;
    var e := MatchFrom(ps, q, s, j).value;
    var n := e - j;
    var k := SkipFirst(cs, s, j);
    var k2 := j2 + (k - j);
    OptStep(ps, q, s, j);
    SkipBounds(cs, s, j);
    MatchBounds(ps, q + 1, s, k);
    assert forall c :: c in cs ==> |c| <= n by {
      assert GuardedAt(ps, q);
    }
    SkipLocal(cs, s, j, t, j2, n);
    AgreeSuffix(s, j, t, j2, n, k, k2, e - k);
    PiecesLocal(ps, q + 1, s, k, t, k2);
    OptStep(ps, q, t, j2);
  }

  /** An optional group moves the match on to the end of the alternative taken. */
  lemma OptStep(ps: seq<Piece>, q: nat, s: string, j: nat)
    requires q < |ps| && ps[q].Opt?
    ensures MatchFrom(ps, q, s, j) == MatchFrom(ps, q + 1, s, SkipFirst(ps[q].choices, s, j))
  {
  }

  lemma AgreeSuffix(s: string, i: nat, t: string, j: nat, n: nat, i2: nat, j2: nat, n2: nat)
    requires Agree(s, i, t, j, n) && i <= i2 && i2 - i == j2 - j && i2 + n2 == i + n
    ensures Agree(s, i2, t, j2, n2)
  {
    AgreeDrop(s, i, t, j, n, i2 - i);
  }

  /** Characters no literal of a non-token pattern holds: the brackets of `[FILTERED]` and the full stop. */
  const Foreign: set<char> := {'[', ']', '.'}

  predicate PieceAvoids(pc: Piece) {
    match pc
    case Lit(x) => Avoids(x, Foreign)
    case Opt(cs) => forall c :: c in cs ==> Avoids(c, Foreign)
  }

  /** No literal of `ps` holds a foreign character. */
  predicate LitsAvoid(ps: seq<Piece>) {
    forall q :: 0 <= q < |ps| ==> PieceAvoids(ps[q])
  }

  /** No foreign character between `a` and `b`. */
  ghost predicate SpanAvoids(s: string, a: nat, b: nat) {
    forall x :: a <= x < b && x < |s| ==> s[x] !in Foreign
  }

  /** Text that matches a literal free of foreign characters case-insensitively is free of them. */
  lemma AtCIAvoids(s: string, a: nat, lit: string)
    requires AtCI(s, a, lit) && Avoids(lit, Foreign)
    ensures SpanAvoids(s, a, a + |lit|)
  {
    forall x | a <= x < a + |lit|
      ensures s[x] !in Foreign
    {
      assert LowerChar(s[a + (x - a)]) == lit[x - a];
    }
  }

  lemma {:induction false} PiecesAvoid(ps: seq<Piece>, q: nat, s: string, j: nat)
    requires LitsAvoid(ps) && MatchFrom(ps, q, s, j).Some?
    ensures SpanAvoids(s, j, MatchFrom(ps, q, s, j).value)
    decreases |ps| - q
  {
    if q < |ps| {
      assert PieceAvoids(ps[q]);
      match ps[q]
      case Lit(x) =>
        AtCIAvoids(s, j, x);
        PiecesAvoid(ps, q + 1, s, j + |x|);
      case Opt(cs) =>
        var k := SkipFirst(cs, s, j);
        SkipChosen(cs, s, j);
        if k > j {
          var c :| c in cs && AtCI(s, j, c) && k == j + |c|;
          AtCIAvoids(s, j, c);
        }
        PiecesAvoid(ps, q + 1, s, k);
    }
  }

  /** Where the space or colon of the first literal of each pattern is. */
  function MarkOf(p: Injection): (x: nat)
    requires !p.SpecialToken?
    ensures PiecesOf(p)[0].Lit? && x < |PiecesOf(p)[0].text| && PiecesOf(p)[0].text[x] in {' ', ':'}
    ensures 'a' <= PiecesOf(p)[0].text[0] <= 'z'
  {
    match p
    case Ignore => 6
    case Disregard => 9
    case Forget => 6
    case YouAreNow => 3
    case NewInstructions => 3
    case SystemPrefix => 6
  }

  lemma OverrideFacts(verb: string)
    requires Avoids(verb, Foreign)
    ensures Guarded(OverrideOf(verb)) && LitsAvoid(OverrideOf(verb))
  {
    var ps := OverrideOf(verb);
    assert MinFrom(ps, 4) == 0;
    assert MinFrom(ps, 3) == 12;
    assert MinFrom(ps, 2) == 12;
    forall q | 0 <= q < |ps|
      ensures GuardedAt(ps, q) && PieceAvoids(ps[q])
    {
      if q == 2 {
        forall c | c in ps[2].choices
          ensures |c| <= 12 && Avoids(c, Foreign)
        {
          assert c == "previous " || c == "prior " || c == "above ";
        }
      } else if q == 1 {
        forall c | c in ps[1].choices
          ensures |c| <= 12 && Avoids(c, Foreign)
        {
          assert c == "all ";
        }
      }
    }
  }

  /** Properties of each pattern's pieces, checked once. */
  lemma PiecesFacts(p: Injection)
    requires !p.SpecialToken?
    ensures Guarded(PiecesOf(p)) && LitsAvoid(PiecesOf(p))
  {
    match p
    case Ignore => OverrideFacts("ignore ");
    case Disregard => OverrideFacts("disregard ");
    case Forget => OverrideFacts("forget ");
    case YouAreNow => PhraseFacts("you are now");
    case NewInstructions => PhraseFacts("new instructions:");
    case SystemPrefix => PhraseFacts("system:");
  }

  lemma PhraseFacts(x: string)
    requires Avoids(x, Foreign)
    ensures Guarded([Lit(x)]) && LitsAvoid([Lit(x)])
  {
    assert PieceAvoids([Lit(x)][0]);
  }

  predicate IsOverride(p: Injection) { p.Ignore? || p.Disregard? || p.Forget? }

  /** Matches of the non-token patterns hold no bracket and hold a space or a colon. */
  lemma MatchPlain(p: Injection, s: string, i: nat)
    requires !p.SpecialToken? && MatchInjection(p, s, i).Some?
    ensures var e := MatchInjection(p, s, i).value;
      Avoids(s[i..e], Foreign) && !Avoids(s[i..e], {' ', ':'}) && 'a' <= LowerChar(s[i]) <= 'z'
  {
    PiecesFacts(p);
    PlainSpan(PiecesOf(p), s, i, MarkOf(p));
  }

  /** A match of pieces opening with a literal reads that literal, and holds no foreign character. */
  lemma PlainSpan(ps: seq<Piece>, s: string, i: nat, x: nat)
    requires LitsAvoid(ps) && |ps| > 0 && ps[0].Lit? && x < |ps[0].text|
    requires ps[0].text[x] in {' ', ':'} && 'a' <= ps[0].text[0] <= 'z'
    requires MatchFrom(ps, 0, s, i).Some? && i < MatchFrom(ps, 0, s, i).value <= |s|
    ensures var e := MatchFrom(ps, 0, s, i).value;
      Avoids(s[i..e], Foreign) && !Avoids(s[i..e], {' ', ':'}) && 'a' <= LowerChar(s[i]) <= 'z'
  {
    var e := MatchFrom(ps, 0, s, i).value;
    var first := ps[0].text;
    PiecesAvoid(ps, 0, s, i);
    assert AtCI(s, i, first);
    MatchBounds(ps, 1, s, i + |first|);
    assert LowerChar(s[i + x]) == first[x];
    assert s[i..e][x] == s[i + x];
    forall y | 0 <= y < e - i
      ensures s[i..e][y] !in Foreign
    {
      assert s[i..e][y] == s[i + y];
    }
  }

  /** What the general lemmas need of each compiled pattern. */
  lemma MatcherFacts(p: Injection)
    ensures Advances(MatcherOf(p))
    ensures !p.SpecialToken? ==> Local(MatcherOf(p)) && Plain(MatcherOf(p))
  {
    if !p.SpecialToken? {
      MatcherLocal(p);
      MatcherPlain(p);
    }
  }

  lemma MatcherLocal(p: Injection)
    requires !p.SpecialToken?
    ensures Local(MatcherOf(p))
  {
    var m := MatcherOf(p);
    forall s: string, i: nat, t: string, j: nat
      ensures LocalAt(m, s, i, t, j)
    {
      if m(s, i).Some? && i < m(s, i).value <= |s| &&
         j + (m(s, i).value - i) <= |t| && t[j..j + (m(s, i).value - i)] == s[i..m(s, i).value] {
        MatchLocalAt(p, s, i, t, j);
      }
    }
  }

  /** A match of a non-token pattern is found again wherever its characters occur. */
  lemma MatchLocalAt(p: Injection, s: string, i: nat, t: string, j: nat)
    requires !p.SpecialToken? && MatchInjection(p, s, i).Some?
    requires var e := MatchInjection(p, s, i).value; j + (e - i) <= |t| && t[j..j + (e - i)] == s[i..e]
    ensures MatchInjection(p, t, j) == Some(j + (MatchInjection(p, s, i).value - i))
  {
    PiecesFacts(p);
    PiecesLocal(PiecesOf(p), 0, s, i, t, j);
  }

  lemma MatcherPlain(p: Injection)
    requires !p.SpecialToken?
    ensures Plain(MatcherOf(p))
  {
    var m := MatcherOf(p);
    forall s: string, i: nat | m(s, i).Some? && i < m(s, i).value <= |s|
      ensures Avoids(s[i..m(s, i).value], Foreign) && !Avoids(s[i..m(s, i).value], {' ', ':'})
    {
      MatchPlain(p, s, i);
    }
  }

  // ---------------------------------------------------------------- the special-token pattern

  /** A `|>` at `m`, with no line break from `j` up to it. */
  ghost predicate CloseAt(s: string, j: nat, m: nat) {
    j <= m && m + 2 <= |s| && s[m] == '|' && s[m + 1] == '>' && forall x :: j <= x < m ==> s[x] != '\n'
  }

  /** The lazy close finds a `|>` whenever one follows on the same line. */
  lemma {:induction false} CloseFound(s: string, j: nat, m: nat)
    requires CloseAt(s, j, m)
    ensures CloseToken(s, j).Some?
    decreases m - j
  {
    if !(s[j] == '|' && s[j + 1] == '>') {
      assert j < m;
      assert s[j] != '\n';
      CloseFound(s, j + 1, m);
    }
  }

  /** What the lazy close finds is a `|>` on the same line. */
  lemma {:induction false} CloseWitness(s: string, j: nat)
    requires CloseToken(s, j).Some?
    ensures CloseAt(s, j, CloseToken(s, j).value - 2)
    decreases |s| - j
  {
    if !(s[j] == '|' && s[j + 1] == '>') {
      CloseWitness(s, j + 1);
    }
  }

  function Shift(o: Option<nat>, d: nat): Option<nat> {
    if o.Some? then Some(o.value + d) else None
  }

  /** The close depends only on the text from where it starts. */
  lemma {:induction false} CloseSuffix(x: string, y: string, j: nat)
    requires j >= |x|
    ensures CloseToken(x + y, j) == Shift(CloseToken(y, j - |x|), |x|)
    decreases |x| + |y| - j
  {
    var t := x + y;
    if j + 2 <= |t| {
      assert t[j] == y[j - |x|] && t[j + 1] == y[j - |x| + 1];
      CloseSuffix(x, y, j + 1);
    }
  }

  /** A token match depends only on the text from where it starts. */
  lemma TokenSuffix(x: string, y: string, a: nat)
    requires a >= |x|
    ensures MatchToken(x + y, a) == Shift(MatchToken(y, a - |x|), |x|)
  {
    var t := x + y;
    if a + 2 <= |t| {
      assert t[a] == y[a - |x|] && t[a + 1] == y[a - |x| + 1];
      CloseSuffix(x, y, a + 2);
    }
  }

  /** The first character `re.sub` writes: `[` when it replaces, else the input's. */
  lemma FirstChar(q: Matcher, s: string, i: nat)
    requires Advances(q) && i < |s|
    ensures |SubFrom(q, s, i)| > 0
    ensures SubFrom(q, s, i)[0] == if q(s, i).Some? then '[' else s[i]
  {
  }

  /** A `|>` on the first line of the output of the token substitution comes from one on the first line of its input. */
  lemma {:induction false} TransferClose(s: string, i: nat, m: nat)
    requires i <= |s| && CloseAt(SubFrom(MatcherOf(SpecialToken), s, i), 0, m)
    ensures exists x :: CloseAt(s, i, x)
    decreases |s| - i
  {
    var tok := MatcherOf(SpecialToken);
    var u := SubFrom(tok, s, i);
    assert i < |s|;
    if tok(s, i).Some? {
      TokenCloses(s, i);
    } else {
      var u2 := SubFrom(tok, s, i + 1);
      assert u == [s[i]] + u2;
      assert i + 1 < |s|;
      if m == 0 {
        CloseKept(s, i);
      } else {
        assert CloseAt(u2, 0, m - 1) by {
          forall x | 0 <= x < m - 1
            ensures u2[x] != '\n'
          {
            assert u2[x] == u[x + 1];
          }
        }
        TransferClose(s, i + 1, m - 1);
        var x :| CloseAt(s, i + 1, x);
        assert s[i] == u[0];
        assert CloseAt(s, i, x);
      }
    }
  }

  /** A special token holds its own close. */
  lemma TokenCloses(s: string, i: nat)
    requires i < |s| && MatcherOf(SpecialToken)(s, i).Some?
    ensures exists x :: CloseAt(s, i, x)
  {
    var e := MatcherOf(SpecialToken)(s, i).value;
    CloseWitness(s, i + 2);
    assert CloseAt(s, i, e - 2);
  }

  /** A `|>` that opens the output of the token substitution, where nothing was replaced, is in the input. */
  lemma CloseKept(s: string, i: nat)
    requires i + 1 < |s| && MatcherOf(SpecialToken)(s, i).None?
    requires var u := SubFrom(MatcherOf(SpecialToken), s, i); 2 <= |u| && u[0] == '|' && u[1] == '>'
    ensures exists x :: CloseAt(s, i, x)
  {
    var tok := MatcherOf(SpecialToken);
    assert SubFrom(tok, s, i) == [s[i]] + SubFrom(tok, s, i + 1);
    FirstChar(tok, s, i + 1);
    assert CloseAt(s, i, i);
  }

  /** A token at the very start of the output of the token substitution is one the scan would have replaced. */
  lemma TokenAtStart(s: string, i: nat)
    requires i < |s| && MatchToken(SubFrom(MatcherOf(SpecialToken), s, i), 0).Some?
    ensures MatcherOf(SpecialToken)(s, i).Some?
  {
    if MatcherOf(SpecialToken)(s, i).None? {
      var x := OpenKept(s, i);
      CloseFound(s, i + 2, x);
    }
  }

  /** Where the scan replaced nothing, a token opening its output opens the input too, with its close. */
  lemma OpenKept(s: string, i: nat) returns (x: nat)
    requires i < |s| && MatcherOf(SpecialToken)(s, i).None?
    requires MatchToken(SubFrom(MatcherOf(SpecialToken), s, i), 0).Some?
    ensures i + 1 < |s| && s[i] == '<' && s[i + 1] == '|'
    ensures CloseAt(s, i + 2, x)
  {
    var tok := MatcherOf(SpecialToken);
    var t := SubFrom(tok, s, i);
    var t2 := SubFrom(tok, s, i + 1);
    assert t == [s[i]] + t2;
    assert i + 1 < |s|;
    FirstChar(tok, s, i + 1);
    var u := SubFrom(tok, s, i + 2);
    assert t2 == [s[i + 1]] + u;
    assert t == [s[i], s[i + 1]] + u;
    CloseWitness(t, 2);
    var m := CloseToken(t, 2).value - 2;
    CloseDropTwo(s[i], s[i + 1], u, m);
    TransferClose(s, i + 2, m - 2);
    x :| CloseAt(s, i + 2, x);
  }

  /** A close found two characters in is found in the text without those two. */
  lemma CloseDropTwo(c: char, d: char, u: string, m: nat)
    requires CloseAt([c, d] + u, 2, m)
    ensures m >= 2 && CloseAt(u, 0, m - 2)
  {
    var t := [c, d] + u;
    forall x | 0 <= x < m - 2
      ensures u[x] != '\n'
    {
      assert u[x] == t[x + 2];
    }
    assert u[m - 2] == t[m] && u[m - 1] == t[m + 1];
  }

  /** One step of the token substitution: where a token in its output comes from. */
  lemma TokenStep(s: string, i: nat, a: nat)
    requires i < |s| && MatchToken(SubFrom(MatcherOf(SpecialToken), s, i), a).Some?
    ensures var tok := MatcherOf(SpecialToken);
      if tok(s, i).Some? then a >= |Filtered| && MatchToken(SubFrom(tok, s, tok(s, i).value), a - |Filtered|).Some?
      else a >= 1 && MatchToken(SubFrom(tok, s, i + 1), a - 1).Some?
  {
    var tok := MatcherOf(SpecialToken);
    var t := SubFrom(tok, s, i);
    if tok(s, i).Some? {
      var t2 := SubFrom(tok, s, tok(s, i).value);
      assert t == Filtered + t2;
      assert '<' !in Filtered;
      if a >= |Filtered| {
        TokenSuffix(Filtered, t2, a);
      }
    } else {
      var t2 := SubFrom(tok, s, i + 1);
      assert t == [s[i]] + t2;
      if a == 0 {
        TokenAtStart(s, i);
      } else {
        TokenSuffix([s[i]], t2, a);
      }
    }
  }

  /** The token substitution leaves no special token behind. */
  lemma {:induction false} NoTokenSurvives(s: string, i: nat, a: nat)
    requires i <= |s|
    ensures MatchToken(SubFrom(MatcherOf(SpecialToken), s, i), a).None?
    decreases |s| - i
  {
    var tok := MatcherOf(SpecialToken);
    if i < |s| && MatchToken(SubFrom(tok, s, i), a).Some? {
      TokenStep(s, i, a);
      if tok(s, i).Some? {
        NoTokenSurvives(s, tok(s, i).value, a - |Filtered|);
      } else {
        NoTokenSurvives(s, i + 1, a - 1);
      }
    }
  }

  // ---------------------------------------------------------------- the sanitiser

  /** The input after the first `n` injection patterns have been replaced, in list order. */
  function SanitizeUpTo(s: string, n: nat): string
    requires n <= |InjectionPatterns|
  {
    if n == 0 then s else Sub(MatcherOf(InjectionPatterns[n - 1]), SanitizeUpTo(s, n - 1))
  }

  /** `_sanitize_input`: every injection pattern replaced by `[FILTERED]`, one pattern after another. */
  function Sanitized(s: string): string {
    SanitizeUpTo(s, |InjectionPatterns|)
  }

  /** None of the first `n` patterns matches anywhere in `r`. */
  ghost predicate CleanUpTo(r: string, n: nat)
    requires n <= |InjectionPatterns|
  {
    forall k, a :: 0 <= k < n ==> MatchInjection(InjectionPatterns[k], r, a).None?
  }

  /** The special token is the last pattern; all others are plain. */
  lemma TokenIsLast(k: nat)
    requires k < |InjectionPatterns|
    ensures InjectionPatterns[k].SpecialToken? <==> k == |InjectionPatterns| - 1
  {
    if k == 0 {} else if k == 1 {} else if k == 2 {} else if k == 3 {} else if k == 4 {} else if k == 5 {}
  }

  /**
   * After the first `n` substitutions none of those `n` patterns matches
   * anywhere: each substitution removes its own matches and, since
   * `[FILTERED]` holds neither a space nor a colon past its brackets, creates
   * no match of a pattern already applied.
   */
  lemma {:induction false} SanitizeUpToClean(s: string, n: nat)
    requires n <= |InjectionPatterns|
    ensures CleanUpTo(SanitizeUpTo(s, n), n)
  {
    if n > 0 {
      SanitizeUpToClean(s, n - 1);
      forall k, a | 0 <= k < n
        ensures MatchInjection(InjectionPatterns[k], SanitizeUpTo(s, n), a).None?
      {
        CleanStep(s, n, k, a);
      }
    }
  }

  /** The `n`-th substitution keeps the text clean of the patterns before it, and cleans it of its own. */
  lemma CleanStep(s: string, n: nat, k: nat, a: nat)
    requires 0 < n <= |InjectionPatterns| && k < n && CleanUpTo(SanitizeUpTo(s, n - 1), n - 1)
    ensures MatchInjection(InjectionPatterns[k], SanitizeUpTo(s, n), a).None?
  {
    var r := SanitizeUpTo(s, n - 1);
    var p := InjectionPatterns[n - 1];
    var pk := InjectionPatterns[k];
    TokenIsLast(k);
    if k < n - 1 {
      assert NoMatchFrom(MatcherOf(pk), r, 0);
      SubKeepsClean(p, pk, r, a);
    } else {
      SubKeepsClean(p, p, r, a);
    }
  }

  /**
   * Replacing the matches of `p` leaves no match of `p` itself, and none of
   * a plain pattern `pk` that matched nowhere before.
   */
  lemma SubKeepsClean(p: Injection, pk: Injection, r: string, a: nat)
    requires pk == p || (!pk.SpecialToken? && NoMatchFrom(MatcherOf(pk), r, 0))
    ensures MatchInjection(pk, Sub(MatcherOf(p), r), a).None?
  {
    var q := MatcherOf(p);
    MatcherFacts(p);
    MatcherFacts(pk);
    if pk != p {
      NoMatchSurvives(q, MatcherOf(pk), r, 0, a);
    } else if p.SpecialToken? {
      NoTokenSurvives(r, 0, a);
    } else {
      assert Same(q, q);
      NoMatchSurvives(q, q, r, 0, a);
    }
  }

  /** No injection pattern matches anywhere in sanitised text. */
  lemma SanitizedClean(s: string, p: Injection, a: nat)
    ensures MatchInjection(p, Sanitized(s), a).None?
  {
    SanitizeUpToClean(s, |InjectionPatterns|);
    var k := match p
      case Ignore => 0 case Disregard => 1 case Forget => 2 case YouAreNow => 3
      case NewInstructions => 4 case SystemPrefix => 5 case SpecialToken => 6;
    assert InjectionPatterns[k] == p;
  }

  /** Text in which no pattern matches is left unchanged. */
  lemma {:induction false} SanitizeUpToNoOp(s: string, n: nat)
    requires n <= |InjectionPatterns| && CleanUpTo(s, |InjectionPatterns|)
    ensures SanitizeUpTo(s, n) == s
  {
    if n > 0 {
      SanitizeUpToNoOp(s, n - 1);
      var q := MatcherOf(InjectionPatterns[n - 1]);
      assert NoMatchFrom(q, s, 0);
      SubClean(q, s, 0);
    }
  }

  /** Sanitising is idempotent: sanitised text is sanitised again to itself. */
  lemma SanitizedIdempotent(s: string)
    ensures Sanitized(Sanitized(s)) == Sanitized(s)
  {
    SanitizeUpToClean(s, |InjectionPatterns|);
    SanitizeUpToNoOp(Sanitized(s), |InjectionPatterns|);
  }
}
