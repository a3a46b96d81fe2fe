/**
 * Search and replacement of core/json/string_algo.hpp: `contains`, `find_after`, `replace` and
 * `to_string` of a vector. Characters are compared through a folding function: the identity for
 * CharEqual, upper case for ICharEqual.
 */
module TextReplace {
  import opened Basics

  type Fold = char -> char

  function Exact(c: char): char { c }

  /** `std::toupper` in the C locale. */
  function Upper(c: char): char { if 'a' <= c <= 'z' then (c as int - 32) as char else c }

  /** By character code: only the 26 small letters are folded. */
  lemma UpperMeaning(c: char, d: char)
    ensures Upper(c) as int == if 97 <= c as int <= 122 then c as int - 32 else c as int
    ensures Upper(c) == Upper(d) <==>
            || c == d
            || (65 <= c as int <= 90 && d as int == c as int + 32)
            || (65 <= d as int <= 90 && c as int == d as int + 32)
  {
  }

  /** Character `k` of `s` compares equal to the one of `t` that far after `i`. */
  predicate SameAt(t: string, s: string, i: nat, k: nat, f: Fold) {
    i + k < |t| && k < |s| && f(t[i + k]) == f(s[k])
  }

  predicate MatchAt(t: string, s: string, i: nat, f: Fold) {
    i + |s| <= |t| && forall k: nat :: k < |s| ==> SameAt(t, s, i, k, f)
  }

  /** `std::search` from `from`: the first match, or the end. */
  function Search(t: string, s: string, from: nat, f: Fold): (p: nat)
    requires from <= |t|
    ensures from <= p <= |t| && (p < |t| ==> p + |s| <= |t|)
    decreases |t| - from
  {
    if from == |t| || MatchAt(t, s, from, f) then from else Search(t, s, from + 1, f)
  }

  /** It is the first match indeed, and with a pattern that is not empty the end means none. */
  lemma {:induction false} SearchFinds(t: string, s: string, from: nat, f: Fold)
    requires from <= |t|
    ensures var p := Search(t, s, from, f);
            && (p < |t| ==> MatchAt(t, s, p, f))
            && (forall i: nat :: from <= i < p ==> !MatchAt(t, s, i, f))
            && (s != "" && p == |t| ==> forall i: nat :: from <= i ==> !MatchAt(t, s, i, f))
    decreases |t| - from
  {
    if from < |t| && !MatchAt(t, s, from, f) { SearchFinds(t, s, from + 1, f); }
  }

  /** `contains` */
  predicate Contains(t: string, s: string, f: Fold) { Search(t, s, 0, f) != |t| }

  /** Containment is an occurrence somewhere, except that the empty text contains nothing. */
  lemma ContainsMeaning(t: string, s: string, f: Fold)
    ensures Contains(t, s, f) <==> t != "" && exists i: nat :: MatchAt(t, s, i, f)
  {
    SearchFinds(t, s, 0, f);
    if t != "" && s == "" { assert MatchAt(t, s, 0, f); }
  }

  /** `find_after`: where the text goes on after the first occurrence. */
  function FindAfter(t: string, s: string, f: Fold): (p: nat)
    ensures p <= |t|
    ensures Contains(t, s, f) ==> p >= |s| && MatchAt(t, s, p - |s|, f)
    ensures Contains(t, s, f) ==> forall i: nat :: i + |s| < p ==> !MatchAt(t, s, i, f)
    ensures !Contains(t, s, f) ==> p == |t|
  {
    SearchFinds(t, s, 0, f);
    var it := Search(t, s, 0, f);
    if it == |t| then it else it + |s|
  }

  // ---------------------------------------------------------------- replacing

  /** The pieces of the text from `from` on between the leftmost non-overlapping matches. */
  function Gaps(t: string, s: string, from: nat, f: Fold): (gs: seq<string>)
    requires s != "" && from <= |t|
    ensures gs != []
    decreases |t| - from
  {
    var p := Search(t, s, from, f);
    if p == |t| then [t[from..]] else [t[from..p]] + Gaps(t, s, p + |s|, f)
  }

  /** The first piece and the others. */
  lemma FirstGap(t: string, s: string, from: nat, f: Fold) returns (p: nat, q: nat, rest: seq<string>)
    requires s != "" && from <= |t|
    ensures p == Search(t, s, from, f) && from <= p <= |t|
    ensures p == |t| ==> Gaps(t, s, from, f) == [t[from..]]
    ensures p < |t| ==> MatchAt(t, s, p, f) && q == p + |s| && rest == Gaps(t, s, q, f) && rest != []
    ensures p < |t| ==> Gaps(t, s, from, f) == [t[from..p]] + rest
  {
    p := Search(t, s, from, f);
    q, rest := p + |s|, [];
    if p < |t| {
      rest := Gaps(t, s, q, f);
      assert MatchAt(t, s, p, f) by { SearchFinds(t, s, from, f); }
    }
  }

  /** What `replace` computes: the new text takes the place of every match. */
  function Replaced(t: string, s: string, w: string, f: Fold): string
    requires s != ""
  {
    Join(Gaps(t, s, 0, f), w)
  }

  /** The number of matches replaced. */
  function Matches(t: string, s: string, f: Fold): nat
    requires s != ""
  {
    |Gaps(t, s, 0, f)| - 1
  }

  /** Every piece with `w` after it. */
  function Terminated(pieces: seq<string>, w: string): string {
    if pieces == [] then "" else Terminated(pieces[..|pieces| - 1], w) + pieces[|pieces| - 1] + w
  }

  lemma TerminatedSnoc(pieces: seq<string>, x: string, w: string)
    ensures Terminated(pieces + [x], w) == Terminated(pieces, w) + x + w
  {
    assert (pieces + [x])[..|pieces|] == pieces;
  }

  lemma {:induction false} JoinIsTerminated(pieces: seq<string>, last: string, w: string)
    ensures Join(pieces + [last], w) == Terminated(pieces, w) + last
  {
    JoinSnoc(pieces, last, w);
    if pieces != [] {
      var init, x := pieces[..|pieces| - 1], pieces[|pieces| - 1];
      JoinIsTerminated(init, x, w);
      assert init + [x] == pieces;
    }
  }

  /** The pieces before `from` are done, and `all` are the pieces of the text. */
  ghost predicate SoFar(t: string, s: string, f: Fold, done: seq<string>, from: nat, all: seq<string>) {
    s != "" && from <= |t| && done + Gaps(t, s, from, f) == all
  }

  lemma SoFarStep(t: string, s: string, f: Fold, done: seq<string>, from: nat, all: seq<string>, p: nat)
    requires SoFar(t, s, f, done, from, all) && p == Search(t, s, from, f) && p < |t|
    ensures SoFar(t, s, f, done + [t[from..p]], p + |s|, all)
  {
    var _, q, rest := FirstGap(t, s, from, f);
    var gap := t[from..p];
    assert done + ([gap] + rest) == all;
    Regroup(done, gap, rest);
  }

  lemma SoFarEnds(t: string, s: string, w: string, f: Fold, done: seq<string>, from: nat, all: seq<string>)
    requires SoFar(t, s, f, done, from, all) && |t| == Search(t, s, from, f)
    ensures Terminated(done, w) + t[from..] == Join(all, w)
  {
    var _, _, _ := FirstGap(t, s, from, f);
    JoinIsTerminated(done, t[from..], w);
  }

  lemma Regroup(a: seq<string>, x: string, b: seq<string>)
    ensures a + ([x] + b) == (a + [x]) + b
  {
  }

  // ---------------------------------------------------------------- the loop

  /** The variables of the loop: `posLast`, `pos` and `result`. */
  datatype Loop = Loop(posLast: nat, pos: nat, result: string)

  predicate InText(t: string, s: string, f: Fold, l: Loop) {
    l.posLast <= |t| && l.pos == Search(t, s, l.posLast, f)
  }

  /** One round; at the end of the text the loop has stopped. */
  function Turn(t: string, s: string, w: string, f: Fold, l: Loop): (r: Loop)
    requires InText(t, s, f, l)
    ensures InText(t, s, f, r)
  {
    if l.pos == |t| then l
    else
      var p := l.pos + |s|;
      Loop(p, Search(t, s, p, f), l.result + t[l.posLast..l.pos] + w)
  }

  /** After `n` rounds, or when the loop stopped before that. */
  function Turns(t: string, s: string, w: string, f: Fold, n: nat): (r: Loop)
    ensures InText(t, s, f, r)
  {
    if n == 0 then Loop(0, Search(t, s, 0, f), "") else Turn(t, s, w, f, Turns(t, s, w, f, n - 1))
  }

  ghost predicate Ends(t: string, s: string, w: string, f: Fold) {
    exists n: nat :: Turns(t, s, w, f, n).pos == |t|
  }

  lemma {:induction false} TurnsAdvance(t: string, s: string, w: string, f: Fold, n: nat)
    requires s != ""
    ensures Turns(t, s, w, f, n).pos == |t| || Turns(t, s, w, f, n).posLast >= n
  {
    if n > 0 { TurnsAdvance(t, s, w, f, n - 1); }
  }

  lemma {:induction false} TurnsStandStill(t: string, w: string, f: Fold, n: nat)
    requires t != ""
    ensures Turns(t, "", w, f, n).pos == 0
  {
    if n > 0 { TurnsStandStill(t, w, f, n - 1); }
    assert MatchAt(t, "", 0, f);
  }

  /** The loop of `replace` comes to an end if and only if the pattern is not empty or the text is. */
  lemma EndsIff(t: string, s: string, w: string, f: Fold)
    ensures Ends(t, s, w, f) <==> s != "" || t == ""
  {
    if s != "" {
      TurnsAdvance(t, s, w, f, |t| + 1);
    } else if t == "" {
      assert Turns(t, s, w, f, 0).pos == 0;
    } else if n: nat :| Turns(t, s, w, f, n).pos == |t| {
      TurnsStandStill(t, w, f, n);
    }
  }

  /** The loop has put together the pieces done. */
  ghost predicate Collected(t: string, s: string, w: string, f: Fold, l: Loop, done: seq<string>, all: seq<string>) {
    SoFar(t, s, f, done, l.posLast, all) && l.result == Terminated(done, w)
  }

  lemma TurnCollects(t: string, s: string, w: string, f: Fold, l: Loop, done: seq<string>, all: seq<string>)
    returns (more: seq<string>)
    requires InText(t, s, f, l) && Collected(t, s, w, f, l, done, all)
    ensures Collected(t, s, w, f, Turn(t, s, w, f, l), more, all)
  {
    more := done;
    if l.pos < |t| {
      SoFarStep(t, s, f, done, l.posLast, all, l.pos);
      TerminatedSnoc(done, t[l.posLast..l.pos], w);
      more := done + [t[l.posLast..l.pos]];
    }
  }

  /** After any number of rounds. */
  lemma {:induction false} TurnsCollect(t: string, s: string, w: string, f: Fold, n: nat, all: seq<string>)
    returns (done: seq<string>)
    requires s != "" && all == Gaps(t, s, 0, f)
    ensures Collected(t, s, w, f, Turns(t, s, w, f, n), done, all)
  {
    if n == 0 {
      done := [];
      assert [] + all == all;
    } else {
      var before := TurnsCollect(t, s, w, f, n - 1, all);
      done := TurnCollects(t, s, w, f, Turns(t, s, w, f, n - 1), before, all);
    }
  }

  /** Whenever the loop has ended, its result with the rest of the text is the replaced text. */
  lemma TurnsGive(t: string, s: string, w: string, f: Fold, n: nat)
    requires Turns(t, s, w, f, n).pos == |t|
    ensures var l := Turns(t, s, w, f, n);
            l.result + t[l.posLast..] == if s == "" then "" else Replaced(t, s, w, f)
  {
    var l := Turns(t, s, w, f, n);
    if s == "" {
      EndsIff(t, s, w, f);
      NoTurns(w, f, n);
    } else {
      var all := Gaps(t, s, 0, f);
      var done := TurnsCollect(t, s, w, f, n, all);
      SoFarEnds(t, s, w, f, done, l.posLast, all);
    }
  }

  lemma {:induction false} NoTurns(w: string, f: Fold, n: nat)
    ensures Turns("", "", w, f, n) == Loop(0, 0, "")
  {
    if n > 0 { NoTurns(w, f, n - 1); }
  }

  /** `replace`: called where its loop ends, it puts the new text in the place of every match. */
  method Replace(text: string, subText: string, newText: string, f: Fold) returns (result: string)
    requires subText != "" || text == ""
    ensures result == if subText == "" then "" else Replaced(text, subText, newText, f)
  {
    result := "";
    var posLast := 0;
    var pos := Search(text, subText, posLast, f);
    ghost var n: nat := 0;
    while pos != |text|
      invariant 0 <= posLast <= pos <= |text|
      invariant Turns(text, subText, newText, f, n) == Loop(posLast, pos, result)
      decreases |text| - posLast
    {
      ghost var l := Loop(posLast, pos, result);
      assert Turns(text, subText, newText, f, n + 1) == Turn(text, subText, newText, f, l);
      result := result + text[posLast..pos];
      result := result + newText;
      pos := pos + |subText|;
      posLast := pos;
      pos := Search(text, subText, pos, f);
      n := n + 1;
    }
    TurnsGive(text, subText, newText, f, n);
    result := result + text[posLast..];
  }

  // ---------------------------------------------------------------- laws of replacing

  function Folded(t: string, f: Fold): (r: string)
    ensures |r| == |t| && forall i :: 0 <= i < |t| ==> r[i] == f(t[i])
  {
    seq(|t|, i requires 0 <= i < |t| => f(t[i]))
  }

  /** Texts that the comparison cannot tell apart stay so in the same surroundings. */
  lemma FoldedSame(g: string, a: string, r: string, b: string, q: string, f: Fold)
    requires Folded(a, f) == Folded(b, f) && Folded(r, f) == Folded(q, f)
    ensures Folded(g + a + r, f) == Folded(g + b + q, f)
  {
    assert |a| == |Folded(a, f)| == |b| && |r| == |Folded(r, f)| == |q|;
    var x, y := g + a + r, g + b + q;
    forall i | 0 <= i < |x| ensures f(x[i]) == f(y[i]) {
      if |g| <= i < |g| + |a| {
        assert Folded(a, f)[i - |g|] == Folded(b, f)[i - |g|];
      } else if |g| + |a| <= i {
        assert Folded(r, f)[i - |g| - |a|] == Folded(q, f)[i - |g| - |a|];
      }
    }
  }

  lemma FoldedMatch(t: string, s: string, p: nat, f: Fold)
    requires MatchAt(t, s, p, f)
    ensures Folded(s, f) == Folded(t[p..p + |s|], f)
  {
    forall k: nat | k < |s| ensures Folded(s, f)[k] == Folded(t[p..p + |s|], f)[k] {
      assert SameAt(t, s, p, k, f);
    }
  }

  lemma Tiles(t: string, from: nat, p: nat, q: nat)
    requires from <= p <= q <= |t|
    ensures t[from..] == t[from..p] + t[p..q] + t[q..]
  {
  }

  /** Putting the pattern between the pieces gives the text, as far as the comparison can see. */
  lemma {:induction false} GapsRejoin(t: string, s: string, from: nat, f: Fold, gs: seq<string>)
    requires s != "" && from <= |t| && gs == Gaps(t, s, from, f)
    ensures Folded(Join(gs, s), f) == Folded(t[from..], f)
    decreases |t| - from
  {
    var p, q, rest := FirstGap(t, s, from, f);
    if p < |t| {
      GapsRejoin(t, s, q, f, rest);
      RejoinStep(t, s, from, p, q, rest, f);
    }
  }

  lemma RejoinStep(t: string, s: string, from: nat, p: nat, q: nat, rest: seq<string>, f: Fold)
    requires from <= p && MatchAt(t, s, p, f) && q == p + |s| && rest != []
    requires Folded(Join(rest, s), f) == Folded(t[q..], f)
    ensures Folded(Join([t[from..p]] + rest, s), f) == Folded(t[from..], f)
  {
    FoldedMatch(t, s, p, f);
    Tiles(t, from, p, q);
    JoinCons(t[from..p], rest, s);
    FoldedSame(t[from..p], s, Join(rest, s), t[p..q], t[q..], f);
  }

  /** Replacing the pattern by itself changes nothing that the comparison can see. */
  lemma ReplaceBySelf(t: string, s: string, f: Fold)
    requires s != ""
    ensures Folded(Replaced(t, s, s, f), f) == Folded(t, f)
  {
    GapsRejoin(t, s, 0, f, Gaps(t, s, 0, f));
    assert t[0..] == t;
  }

  /** `replace(t, s, s) == t` */
  lemma ReplaceBySelfExact(t: string, s: string)
    requires s != ""
    ensures Replaced(t, s, s, Exact) == t
  {
    ReplaceBySelf(t, s, Exact);
    var r := Replaced(t, s, s, Exact);
    assert |r| == |Folded(r, Exact)| == |t|;
    forall i | 0 <= i < |t| ensures r[i] == t[i] {
      assert Folded(r, Exact)[i] == Folded(t, Exact)[i];
    }
  }

  /** Joining with texts of different lengths. */
  lemma {:induction false} JoinLength(gs: seq<string>, w: string, s: string, d: int)
    requires gs != [] && d == |w| - |s|
    ensures |Join(gs, w)| == |Join(gs, s)| + (|gs| - 1) * d
  {
    if |gs| > 1 {
      JoinLength(gs[..|gs| - 1], w, s, d);
      LengthStep(|gs| - 2, d);
    }
  }

  lemma LengthStep(m: nat, d: int)
    ensures (m + 1) * d == m * d + d
  {
  }

  /** The length law: every match replaced adds the difference in length. */
  lemma ReplaceLength(t: string, s: string, w: string, f: Fold)
    requires s != ""
    ensures |Replaced(t, s, w, f)| == |t| + Matches(t, s, f) * (|w| - |s|)
  {
    ReplaceBySelf(t, s, f);
    assert |Replaced(t, s, s, f)| == |Folded(Replaced(t, s, s, f), f)| == |t|;
    JoinLength(Gaps(t, s, 0, f), w, s, |w| - |s|);
  }

  /** No character of `w` compares equal to a character of `s`. */
  predicate Apart(w: string, s: string, f: Fold) {
    forall i, k :: 0 <= i < |w| && 0 <= k < |s| ==> f(w[i]) != f(s[k])
  }

  predicate Free(t: string, s: string, f: Fold) { forall i: nat :: i <= |t| ==> !MatchAt(t, s, i, f) }

  /** There is no match in `g + w + r` if there is none in `g` and none in `r`, because a match
      cannot use a character of `w`. */
  lemma NoMatchAcross(g: string, w: string, r: string, s: string, i: nat, f: Fold)
    requires s != "" && w != "" && Apart(w, s, f)
    requires !MatchAt(g, s, i, f) && (|g| + |w| <= i ==> !MatchAt(r, s, i - |g| - |w|, f))
    ensures !MatchAt(g + w + r, s, i, f)
  {
    var x := g + w + r;
    if i + |s| <= |g| {
      var k: nat :| k < |s| && !SameAt(g, s, i, k, f);
      assert x[i + k] == g[i + k] && !SameAt(x, s, i, k, f);
    } else if |g| + |w| <= i {
      if i + |s| <= |x| {
        var k: nat :| k < |s| && !SameAt(r, s, i - |g| - |w|, k, f);
        assert x[i + k] == r[i - |g| - |w| + k] && !SameAt(x, s, i, k, f);
      }
    } else {
      var k := if i < |g| then |g| - i else 0;
      assert x[i + k] == w[i + k - |g|];
      assert !SameAt(x, s, i, k, f);
    }
  }

  lemma FreeAcross(g: string, w: string, r: string, s: string, f: Fold)
    requires s != "" && w != "" && Apart(w, s, f) && Free(g, s, f) && Free(r, s, f)
    ensures Free(g + w + r, s, f)
  {
    forall i: nat | i <= |g + w + r| ensures !MatchAt(g + w + r, s, i, f) {
      assert i > |g| ==> !MatchAt(g, s, i, f);
      NoMatchAcross(g, w, r, s, i, f);
    }
  }

  lemma NoMatchInGap(t: string, s: string, from: nat, p: nat, i: nat, f: Fold)
    requires s != "" && from <= p <= |t| && (from + i < p ==> !MatchAt(t, s, from + i, f))
    ensures !MatchAt(t[from..p], s, i, f)
  {
    if i + |s| <= p - from {
      var k: nat :| k < |s| && !SameAt(t, s, from + i, k, f);
      assert t[from..p][i + k] == t[from + i + k] && !SameAt(t[from..p], s, i, k, f);
    }
  }

  lemma FreeGap(t: string, s: string, from: nat, f: Fold, p: nat)
    requires s != "" && from <= |t| && p == Search(t, s, from, f)
    ensures Free(t[from..p], s, f)
  {
    SearchFinds(t, s, from, f);
    forall i: nat | i <= p - from ensures !MatchAt(t[from..p], s, i, f) { NoMatchInGap(t, s, from, p, i, f); }
  }

  lemma {:induction false} FreeJoin(t: string, s: string, w: string, from: nat, f: Fold)
    requires s != "" && w != "" && from <= |t| && Apart(w, s, f)
    ensures Free(Join(Gaps(t, s, from, f), w), s, f)
    decreases |t| - from
  {
    var p, q, rest := FirstGap(t, s, from, f);
    FreeGap(t, s, from, f, p);
    if p == |t| {
      assert t[from..|t|] == t[from..];
    } else {
      FreeJoin(t, s, w, q, f);
      FreeAcross(t[from..p], w, Join(rest, w), s, f);
      JoinCons(t[from..p], rest, w);
    }
  }

  /** Absence: a replacement that is not empty and shares no character with the pattern leaves no
      occurrence of the pattern. */
  lemma ReplaceRemovesAll(t: string, s: string, w: string, f: Fold)
    requires s != "" && w != "" && Apart(w, s, f)
    ensures Free(Replaced(t, s, w, f), s, f)
  {
    FreeJoin(t, s, w, 0, f);
  }

  lemma FreeIsKept(t: string, s: string, w: string, f: Fold)
    requires s != "" && Free(t, s, f)
    ensures Replaced(t, s, w, f) == t
  {
    SearchFinds(t, s, 0, f);
    assert Gaps(t, s, 0, f) == [t[0..]];
    assert t[0..] == t;
  }

  /** Under the same condition replacing again changes nothing. */
  lemma ReplaceTwice(t: string, s: string, w: string, f: Fold)
    requires s != "" && w != "" && Apart(w, s, f)
    ensures Replaced(Replaced(t, s, w, f), s, w, f) == Replaced(t, s, w, f)
  {
    ReplaceRemovesAll(t, s, w, f);
    FreeIsKept(Replaced(t, s, w, f), s, w, f);
  }

  // ---------------------------------------------------------------- deleting

  /** All characters of the pattern compare equal. */
  predicate Uniform(s: string, f: Fold) {
    forall i, k :: 0 <= i < |s| && 0 <= k < |s| ==> f(s[i]) == f(s[k])
  }

  /** With a uniform pattern, what stands before a match ends in another character. */
  lemma GapEnds(t: string, s: string, from: nat, f: Fold, p: nat)
    requires s != "" && Uniform(s, f) && from < p < |t| && p == Search(t, s, from, f)
    ensures f(t[p - 1]) != f(s[0])
  {
    SearchFinds(t, s, from, f);
    if f(t[p - 1]) == f(s[0]) { EarlierMatch(t, s, p - 1, f); }
  }

  lemma EarlierMatch(t: string, s: string, i: nat, f: Fold)
    requires s != "" && Uniform(s, f) && MatchAt(t, s, i + 1, f) && f(t[i]) == f(s[0])
    ensures MatchAt(t, s, i, f)
  {
    forall k: nat | k < |s| ensures SameAt(t, s, i, k, f) {
      if k > 0 { assert SameAt(t, s, i + 1, k - 1, f); }
    }
  }

  lemma NoMatchAtSeam(g: string, r: string, s: string, i: nat, f: Fold)
    requires s != "" && Uniform(s, f) && (g == "" || f(g[|g| - 1]) != f(s[0]))
    requires !MatchAt(g, s, i, f) && (|g| <= i ==> !MatchAt(r, s, i - |g|, f))
    ensures !MatchAt(g + r, s, i, f)
  {
    var x := g + r;
    if i + |s| <= |g| {
      var k: nat :| k < |s| && !SameAt(g, s, i, k, f);
      assert x[i + k] == g[i + k] && !SameAt(x, s, i, k, f);
    } else if |g| <= i {
      if i + |s| <= |x| {
        var k: nat :| k < |s| && !SameAt(r, s, i - |g|, k, f);
        assert x[i + k] == r[i - |g| + k] && !SameAt(x, s, i, k, f);
      }
    } else {
      var k := |g| - 1 - i;
      assert x[i + k] == g[|g| - 1] && !SameAt(x, s, i, k, f);
    }
  }

  lemma FreeSeam(g: string, r: string, s: string, f: Fold)
    requires s != "" && Uniform(s, f) && (g == "" || f(g[|g| - 1]) != f(s[0]))
    requires Free(g, s, f) && Free(r, s, f)
    ensures Free(g + r, s, f)
  {
    forall i: nat | i <= |g + r| ensures !MatchAt(g + r, s, i, f) {
      assert i > |g| ==> !MatchAt(g, s, i, f);
      NoMatchAtSeam(g, r, s, i, f);
    }
  }

  lemma {:induction false} FreeWithout(t: string, s: string, from: nat, f: Fold)
    requires s != "" && from <= |t| && Uniform(s, f)
    ensures Free(Join(Gaps(t, s, from, f), ""), s, f)
    decreases |t| - from
  {
    var p, q, rest := FirstGap(t, s, from, f);
    FreeGap(t, s, from, f, p);
    if p == |t| {
      assert t[from..|t|] == t[from..];
    } else {
      var g := t[from..p];
      FreeWithout(t, s, q, f);
      if from < p { GapEnds(t, s, from, f, p); }
      FreeBefore(g, rest, s, f);
    }
  }

  lemma FreeBefore(g: string, rest: seq<string>, s: string, f: Fold)
    requires s != "" && Uniform(s, f) && (g == "" || f(g[|g| - 1]) != f(s[0])) && rest != []
    requires Free(g, s, f) && Free(Join(rest, ""), s, f)
    ensures Free(Join([g] + rest, ""), s, f)
  {
    FreeSeam(g, Join(rest, ""), s, f);
    JoinCons(g, rest, "");
    assert g + "" + Join(rest, "") == g + Join(rest, "");
  }

  /** The text from which deleting a pattern that is not uniform leaves the pattern. */
  function Nested(s: string): string
    requires s != ""
  {
    [s[0]] + s + s[1..]
  }

  lemma NestedMatches(s: string, f: Fold)
    requires s != "" && !Uniform(s, f)
    ensures !MatchAt(Nested(s), s, 0, f) && MatchAt(Nested(s), s, 1, f)
  {
    var t := Nested(s);
    forall k: nat | k < |s| ensures SameAt(t, s, 1, k, f) { assert t[1 + k] == s[k]; }
    if MatchAt(t, s, 0, f) {
      forall k | 0 <= k < |s| ensures f(s[k]) == f(s[0]) { AllAlike(s, f, k); }
    }
  }

  lemma {:induction false} AllAlike(s: string, f: Fold, k: nat)
    requires k < |s| && MatchAt(Nested(s), s, 0, f)
    ensures f(s[k]) == f(s[0])
  {
    if k > 0 {
      AllAlike(s, f, k - 1);
      assert SameAt(Nested(s), s, 0, k, f);
      assert Nested(s)[0 + k] == s[k - 1];
    }
  }

  lemma NestedLeaves(s: string, f: Fold)
    requires s != "" && !Uniform(s, f)
    ensures Replaced(Nested(s), s, "", f) == s
  {
    var t, n := Nested(s), |s|;
    NestedMatches(s, f);
    assert Search(t, s, 0, f) == 1;
    var p, q, rest := FirstGap(t, s, 0, f);
    assert q == 1 + n && t[0..1] == [s[0]] && t[q..] == s[1..];
    SearchFinds(t, s, q, f);
    assert Search(t, s, q, f) == |t|;
    assert rest == [s[1..]];
    JoinCons([s[0]], rest, "");
    assert [s[0]] + "" + s[1..] == s;
  }

  /** Deleting a pattern removes every occurrence of it from every text if and only if its
      characters all compare equal. */
  lemma DeletingIff(s: string, f: Fold)
    requires s != ""
    ensures (forall t :: Free(Replaced(t, s, "", f), s, f)) <==> Uniform(s, f)
  {
    if Uniform(s, f) {
      forall t ensures Free(Replaced(t, s, "", f), s, f) { FreeWithout(t, s, 0, f); }
    } else {
      var t := Nested(s);
      NestedLeaves(s, f);
      assert MatchAt(s, s, 0, f) by { forall k: nat | k < |s| ensures SameAt(s, s, 0, k, f) {} }
      assert !Free(Replaced(t, s, "", f), s, f);
    }
  }

  lemma SingleGaps(s: string, f: Fold)
    requires |s| == 1
    ensures Gaps(s, s, 0, f) == ["", ""]
  {
    assert SameAt(s, s, 0, 0, f) && MatchAt(s, s, 0, f);
    assert Search(s, s, 0, f) == 0;
    assert Gaps(s, s, 1, f) == [s[1..]] && s[1..] == "" && s[0..0] == "";
  }

  /** For a pattern of one character the condition is exact: replacing removes it from every text if
      and only if no character of the new text compares equal to it. */
  lemma SingleIff(s: string, w: string, f: Fold)
    requires |s| == 1
    ensures (forall t :: Free(Replaced(t, s, w, f), s, f)) <==> Apart(w, s, f)
  {
    if Apart(w, s, f) {
      if w == "" { DeletingIff(s, f); }
      forall t ensures Free(Replaced(t, s, w, f), s, f) {
        if w != "" { ReplaceRemovesAll(t, s, w, f); }
      }
    } else {
      var i, k :| 0 <= i < |w| && 0 <= k < |s| && f(w[i]) == f(s[k]);
      SingleGaps(s, f);
      JoinSnoc([""], "", w);
      assert [""] + [""] == ["", ""];
      assert Replaced(s, s, w, f) == w;
      assert SameAt(w, s, i, 0, f) && MatchAt(w, s, i, f);
    }
  }

  /** Deleting "ab" from "aabb" leaves "ab"; deleting "aA" up to case always works. */
  lemma DeletingExamples()
    ensures Replaced("aabb", "ab", "", Exact) == "ab"
    ensures forall t :: Free(Replaced(t, "aA", "", Upper), "aA", Upper)
  {
    var s := "ab";
    assert Nested(s) == "aabb";
    assert !Uniform(s, Exact) by { assert Exact(s[0]) != Exact(s[1]); }
    NestedLeaves(s, Exact);
    DeletingIff("aA", Upper);
  }

  // ---------------------------------------------------------------- to_string of a vector

  /** Appends the separator after every element and drops the last one. */
  method ToStringVector(values: seq<string>, separator: char) returns (r: string)
    ensures r == Join(values, [separator])
  {
    if |values| == 0 { return ""; }
    r := "";
    for i := 0 to |values|
      invariant r == Terminated(values[..i], [separator])
    {
      assert values[..i + 1][..i] == values[..i];
      r := r + values[i] + [separator];
    }
    var k := |values| - 1;
    assert values[..|values|] == values;
    JoinIsTerminated(values[..k], values[k], [separator]);
    assert values[..k] + [values[k]] == values;
    r := r[..|r| - 1];
  }
}
