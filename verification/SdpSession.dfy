/**
 * A whole session description as text: split into lines, inject, join (core/utils/
 * sdp_utils.cpp:127-232). Splitting loses a final line end, so injecting into a text twice is
 * subject to one more condition than injecting into a list twice.
 */
module SdpSession {
  import opened Basics
  import opened SdpText
  import opened SdpParse
  import opened SdpScan
  import opened SdpInject
  import opened SdpLaws

  const NL := '\n'

  function InjectText(n: int, text: string, draws: nat -> Draw): string {
    Join(Inject(n, Split(text, NL), draws), [NL])
  }

  predicate OneLine(line: string) { NL !in line }

  predicate Lines(lines: seq<string>) { forall x :: x in lines ==> OneLine(x) }

  predicate EndsInNewline(text: string) { text != "" && text[|text| - 1] == NL }

  // ---------------------------------------------------------------- joining and splitting

  lemma {:induction false} SplitOfTerminated(lines: seq<string>)
    requires Lines(lines) && lines != []
    ensures Split(Join(lines, [NL]) + [NL], NL) == lines
  {
    var x, rest := FirstRest(lines);
    assert OneLine(x);
    JoinCons(x, rest, [NL]);
    var all := Join(lines, [NL]) + [NL];
    if rest == [] {
      SplitFirst(x, "", all, NL);
    } else {
      SplitOfTerminated(rest);
      var more := Join(rest, [NL]) + [NL];
      assert all == x + [NL] + more;
      SplitFirst(x, more, all, NL);
    }
  }

  function Last(lines: seq<string>): string
    requires lines != []
  {
    lines[|lines| - 1]
  }

  /** The list without an empty last line. */
  function Chopped(lines: seq<string>): seq<string> {
    if lines != [] && Last(lines) == "" then lines[..|lines| - 1] else lines
  }

  /** What becomes of any list of lines that is joined and split again. */
  lemma SplitOfAnyJoin(lines: seq<string>)
    requires Lines(lines)
    ensures Split(Join(lines, [NL]), NL) == Chopped(lines)
  {
    if lines != [] && Last(lines) == "" {
      var init := lines[..|lines| - 1];
      Snoc(lines);
      JoinSnoc(init, "", [NL]);
      if init != [] {
        SplitOfTerminated(init);
        assert Join(init, [NL]) + [NL] + "" == Join(init, [NL]) + [NL];
      }
    } else {
      assert forall x :: x in lines ==> NL !in x by { assert forall x :: x in lines ==> OneLine(x); }
      SplitOfCleanJoin(lines, NL);
    }
  }

  lemma JoinEnds(lines: seq<string>)
    requires Lines(lines)
    ensures EndsInNewline(Join(lines, [NL])) <==> |lines| >= 2 && Last(lines) == ""
  {
    if lines != [] {
      var init, last := lines[..|lines| - 1], Last(lines);
      Snoc(lines);
      assert OneLine(last);
      JoinSnoc(init, last, [NL]);
      EndsAfter(Join(init, [NL]), last);
    }
  }

  lemma EndsAfter(before: string, last: string)
    requires OneLine(last)
    ensures EndsInNewline(before + [NL] + last) <==> last == ""
    ensures !EndsInNewline(last)
  {
    if last != "" { assert last[|last| - 1] in last; }
  }

  lemma SplitIsLines(text: string)
    ensures Lines(Split(text, NL))
  {
    SplitItemsClean(text, NL);
  }

  // ---------------------------------------------------------------- injected lines are lines

  lemma OneLineConcat(a: string, b: string)
    requires OneLine(a) && OneLine(b)
    ensures OneLine(a + b)
  {
  }

  lemma WordIsOneLine(w: string)
    requires Word(w) || Digits(w)
    ensures OneLine(w)
  {
    assert forall i :: 0 <= i < |w| ==> w[i] != NL;
  }

  lemma Literals()
    ensures OneLine(FID) && OneLine(SSRC) && OneLine(CNAME) && OneLine(MSLABEL) && OneLine(LABEL) && OneLine(SIM)
    ensures OneLine("\r") && OneLine(" ") && OneLine(" msid:")
  {
  }

  lemma AttributeIsOneLine(s: string, key: string, v: string)
    requires OneLine(s) && OneLine(key) && OneLine(v)
    ensures OneLine(AttributeLine(s, key, v))
  {
    Literals();
    OneLineConcat(v, "\r");
    OneLineConcat(key, v + "\r");
    OneLineConcat(s, key + (v + "\r"));
    OneLineConcat(SSRC, s + (key + (v + "\r")));
  }

  lemma MsidIsOneLine(s: string, f: Found)
    requires OneLine(s) && OneLine(f.mslabel) && OneLine(f.track)
    ensures OneLine(MsidLine(s, f))
  {
    Literals();
    var t := f.track + "\r";
    OneLineConcat(f.track, "\r");
    OneLineConcat(" ", t);
    OneLineConcat(f.mslabel, " " + t);
    OneLineConcat(" msid:", f.mslabel + (" " + t));
    OneLineConcat(s, " msid:" + (f.mslabel + (" " + t)));
    OneLineConcat(SSRC, s + (" msid:" + (f.mslabel + (" " + t))));
  }

  lemma SsrcLinesAre(s: string, f: Found)
    requires Digits(s) && Printable(f)
    ensures Lines(SsrcLines(s, f))
  {
    Literals();
    WordIsOneLine(s);
    WordIsOneLine(f.cname);
    WordIsOneLine(f.mslabel);
    WordIsOneLine(f.track);
    AttributeIsOneLine(s, CNAME, f.cname);
    MsidIsOneLine(s, f);
    AttributeIsOneLine(s, MSLABEL, f.mslabel);
    AttributeIsOneLine(s, LABEL, f.track);
  }

  lemma FidIsOneLine(s: string, t: string)
    requires Digits(s) && Digits(t)
    ensures OneLine(FidLine(s, t))
  {
    Literals();
    WordIsOneLine(s);
    WordIsOneLine(t);
    OneLineConcat(t, "\r");
    OneLineConcat(" ", t + "\r");
    OneLineConcat(s, " " + (t + "\r"));
    OneLineConcat(FID, s + (" " + (t + "\r")));
  }

  lemma LayerIsLines(s: string, t: string, f: Found)
    requires Digits(s) && Digits(t) && Printable(f)
    ensures Lines(Layer(s, t, f))
  {
    SsrcLinesAre(s, f);
    SsrcLinesAre(t, f);
    FidIsOneLine(s, t);
  }

  lemma {:induction false} LayersAreLines(ps: seq<string>, ts: seq<string>, f: Found)
    requires Printable(f) && |ps| == |ts| && AllDigits(ps) && AllDigits(ts)
    ensures Lines(Layers(ps, ts, f))
  {
    if ps != [] {
      var k := |ps| - 1;
      LayersAreLines(ps[..k], ts[..k], f);
      LayerIsLines(ps[k], ts[k], f);
    }
  }

  lemma {:induction false} JoinIsOneLine(names: seq<string>)
    requires AllDigits(names)
    ensures OneLine(Join(names, " "))
  {
    Literals();
    if names != [] {
      var init, last := names[..|names| - 1], names[|names| - 1];
      WordIsOneLine(last);
      JoinIsOneLine(init);
      Snoc(names);
      JoinSnoc(init, last, " ");
      OneLineConcat(Join(init, " "), " ");
      OneLineConcat(Join(init, " ") + " ", last);
    }
  }

  lemma BlockIsLines(n: nat, f: Found, draws: nat -> Draw)
    requires Printable(f)
    ensures Lines(Block(n, f, draws))
  {
    DrawnNames(draws, n);
    LayersAreLines(Primaries(draws, n), Partners(draws, n), f);
    var names, line := SimNames(n, f, draws);
    SimIsOneLine(names, line);
  }

  lemma SimIsOneLine(names: seq<string>, line: string)
    requires AllDigits(names) && line == SIM + (Join(names, " ") + "\r")
    ensures OneLine(line)
  {
    Literals();
    JoinIsOneLine(names);
    OneLineConcat(Join(names, " "), "\r");
    OneLineConcat(SIM, Join(names, " ") + "\r");
  }

  lemma InjectIsLines(n: int, lines: seq<string>, draws: nat -> Draw)
    requires Lines(lines)
    ensures Lines(Inject(n, lines, draws))
  {
    if 1 <= n <= 2 && Fires(lines) {
      FoundIsPrintable(lines);
      BlockIsLines(n, ScanOf(lines).found, draws);
    }
  }

  // ---------------------------------------------------------------- injecting into a text twice

  lemma InjectLengthens(n: int, lines: seq<string>, draws: nat -> Draw)
    requires 1 <= n <= 2 && Fires(lines)
    ensures |Inject(n, lines, draws)| >= |lines| + 5
    ensures var last := Last(Inject(n, lines, draws));
            if SpliceAt(lines) < |lines| then last == Last(lines) else last != ""
  {
    FoundIsPrintable(lines);
    var block := BlockFor(n, lines, draws);
    BlockEndsInText(n, ScanOf(lines).found, draws, block);
    Spliced(lines, SpliceAt(lines), block, Inject(n, lines, draws));
  }

  lemma BlockEndsInText(n: nat, f: Found, draws: nat -> Draw, block: seq<string>)
    requires n >= 1 && Printable(f) && block == Block(n, f, draws)
    ensures |block| >= 5 && Last(block) != ""
  {
    BlockReadsBack(n, f, draws);
    var names, line := SimNames(n, f, draws);
    assert |line| >= 1;
  }

  lemma Spliced(lines: seq<string>, p: nat, block: seq<string>, out: seq<string>)
    requires p <= |lines| && block != [] && out == lines[..p] + block + lines[p..]
    ensures |out| == |lines| + |block|
    ensures Last(out) == if p < |lines| then Last(lines) else Last(block)
  {
  }

  lemma ShortDoesNotFire(lines: seq<string>)
    requires |lines| <= 1
    ensures !Fires(lines)
  {
    var tokens := ReadAll(lines);
    assert tokens[..|tokens|] == tokens;
    SpliceInvariant(tokens, |tokens|);
  }

  lemma FiresTwice(n: int, lines: seq<string>, draws: nat -> Draw)
    requires 1 <= n <= 2
    ensures Fires(Inject(n, lines, draws)) <==> Fires(lines) && SplicesAtMline(ReadAll(lines))
  {
    if Fires(lines) {
      SpliceState(ReadAll(lines));
      FiresAgain(n, lines, draws);
    }
  }

  /** The second injection, seen from the lines `first` that the first one joined. */
  lemma SecondText(m: int, first: seq<string>, text: string, again: nat -> Draw)
    requires 1 <= m <= 2 && Lines(first) && text == Join(first, [NL])
    ensures InjectText(m, text, again) == text <==> !Fires(first) && !EndsInNewline(text)
  {
    var q := Split(text, NL);
    SplitOfAnyJoin(first);
    JoinEnds(first);
    JoinOfSplit(text, NL);
    if |first| <= 1 { ShortDoesNotFire(first); }
    if |q| <= 1 { ShortDoesNotFire(q); }
    if Fires(q) {
      var more := Inject(m, q, again);
      SplitIsLines(text);
      InjectIsLines(m, q, again);
      InjectLengthens(m, q, again);
      SplitOfAnyJoin(more);
      assert |Chopped(more)| > |q|;
    }
  }

  /** For every text, injecting a second time changes nothing if and only if the first injection did
      not fire at an m-line and its result does not end in a line end. */
  lemma TextTwice(n: int, m: int, text: string, draws: nat -> Draw, again: nat -> Draw)
    requires 1 <= n <= 2 && 1 <= m <= 2
    ensures var once, lines := InjectText(n, text, draws), Split(text, NL);
            InjectText(m, once, again) == once <==>
            !(Fires(lines) && SplicesAtMline(ReadAll(lines))) && !EndsInNewline(once)
  {
    var lines := Split(text, NL);
    SplitIsLines(text);
    InjectIsLines(n, lines, draws);
    FiresTwice(n, lines, draws);
    SecondText(m, Inject(n, lines, draws), InjectText(n, text, draws), again);
  }

  /** The result ends in a line end if and only if the text ends in two of them and no block was
      put after the last line. */
  lemma ResultEnds(n: int, text: string, draws: nat -> Draw)
    requires 1 <= n <= 2
    ensures var lines := Split(text, NL);
            EndsInNewline(InjectText(n, text, draws)) <==>
            && EndsInNewline(text) && EndsInNewline(text[..|text| - 1])
            && !(Fires(lines) && SpliceAt(lines) == |lines|)
  {
    var lines := Split(text, NL);
    SplitIsLines(text);
    JoinEnds(lines);
    JoinOfSplit(text, NL);
    assert EndsInNewline(Join(lines, [NL])) <==> EndsInNewline(text) && EndsInNewline(text[..|text| - 1]);
    InjectEnds(n, lines, draws);
  }

  lemma InjectEnds(n: int, lines: seq<string>, draws: nat -> Draw)
    requires 1 <= n <= 2 && Lines(lines)
    ensures EndsInNewline(Join(Inject(n, lines, draws), [NL])) <==>
            |lines| >= 2 && Last(lines) == "" && !(Fires(lines) && SpliceAt(lines) == |lines|)
  {
    if |lines| <= 1 { ShortDoesNotFire(lines); }
    if Fires(lines) { InjectLengthens(n, lines, draws); }
    InjectIsLines(n, lines, draws);
    JoinEnds(Inject(n, lines, draws));
  }

  /** Idempotence on texts with at most one m=video line: exactly outside texts that end in two line
      ends and get no block after the last line. */
  lemma TextIdempotent(n: int, m: int, text: string, draws: nat -> Draw, again: nat -> Draw)
    requires 1 <= n <= 2 && 1 <= m <= 2 && VideoLines(Split(text, NL)) <= 1
    ensures var once, lines := InjectText(n, text, draws), Split(text, NL);
            InjectText(m, once, again) == once <==>
            || !(EndsInNewline(text) && EndsInNewline(text[..|text| - 1]))
            || (Fires(lines) && SpliceAt(lines) == |lines|)
  {
    TextTwice(n, m, text, draws, again);
    ResultEnds(n, text, draws);
    if Fires(Split(text, NL)) { OneSectionSplice(Split(text, NL)); }
  }
}
