/**
 * What simulcast injection guarantees: the printed block reads back through the scanner's own
 * recognisers, the splice stays inside one video section, a rescan finds the same stream, and
 * exactly when a second injection changes nothing.
 */
module SdpLaws {
  import opened Basics
  import opened SdpParse
  import opened SdpScan
  import opened SdpInject
  import SdpText

  // ---------------------------------------------------------------- the block reads back

  predicate Printable(f: Found) { Complete(f) && Clean(f) }

  /** The four lines of one SSRC as the recognisers see them; the msid line is none of theirs. */
  function SsrcTokens(s: string, f: Found): seq<Token> {
    [Cname(s, f.cname), Other, Mslabel(s, f.mslabel), Label(s, f.track)]
  }

  function LayerTokens(s: string, t: string, f: Found): seq<Token> {
    if f.fid != "" then [Fid(s, t)] + SsrcTokens(s, f) + SsrcTokens(t, f) else SsrcTokens(s, f)
  }

  function LayersTokens(ps: seq<string>, ts: seq<string>, f: Found): seq<Token>
    requires |ps| == |ts|
  {
    if ps == [] then []
    else
      var k := |ps| - 1;
      LayersTokens(ps[..k], ts[..k], f) + LayerTokens(ps[k], ts[k], f)
  }

  lemma AttributeReadsBack(s: string, key: string, v: string)
    requires Digits(s) && Word(v) && AttributeKey(key)
    ensures Read(AttributeLine(s, key, v)) ==
            if key == CNAME then Cname(s, v) else if key == MSLABEL then Mslabel(s, v) else Label(s, v)
  {
    AttributePrints(SSRC, s, key, key, v);
    ReadOfAttribute(AttributeLine(s, key, v), s, key, v);
  }

  lemma ReadOfAttribute(line: string, s: string, key: string, v: string)
    requires AttributeKey(key) && ParseAttribute(line, key) == Some((s, v))
    ensures Read(line) ==
            if key == CNAME then Cname(s, v) else if key == MSLABEL then Mslabel(s, v) else Label(s, v)
  {
    KeysAreDistinct();
    ReadIsExact(line);
    if key == CNAME {
      assert ParseCname(line) == Some((s, v));
    } else if key == MSLABEL {
      assert ParseMslabel(line) == Some((s, v));
    } else {
      assert ParseLabel(line) == Some((s, v));
    }
  }

  lemma KeysAreDistinct()
    ensures CNAME != MSLABEL && CNAME != LABEL && MSLABEL != LABEL
  {
    assert CNAME[1] == 'c' && MSLABEL[1] == 'm' && LABEL[1] == 'l';
  }

  lemma FidReadsBack(s: string, t: string)
    requires Digits(s) && Digits(t)
    ensures Read(FidLine(s, t)) == Fid(s, t)
  {
    FidPrints(FID, s, t);
    ReadIsExact(FidLine(s, t));
  }

  lemma MsidIsOther(s: string, f: Found)
    requires Digits(s)
    ensures Read(MsidLine(s, f)) == Other
  {
    var tail := " msid:" + (f.mslabel + (" " + (f.track + "\r")));
    MsidTail(tail, f.mslabel + (" " + (f.track + "\r")));
    RunOfConcat(s, tail, IsDigit);
    Cut(SSRC, s + tail);
    Cut(s, tail);
    var line := MsidLine(s, f);
    assert StartsNoCase(line, SSRC);
    AtMostOneRecogniser(line);
    AllStartWithA(line);
  }

  lemma MsidTail(tail: string, rest: string)
    requires tail == " msid:" + rest
    ensures !StartsNoCase(tail, CNAME) && !StartsNoCase(tail, MSLABEL) && !StartsNoCase(tail, LABEL)
    ensures !IsDigit(tail[0])
  {
    assert tail[1] == 'm' && tail[3] == 'i';
    assert |tail| >= 9 ==> tail[..9][3] == 'i';
    assert |tail| >= 7 ==> tail[..7][1] == 'm';
    assert MSLABEL[3] == 'l' && CNAME[1] == 'c' && LABEL[1] == 'l';
  }

  lemma SimIsSim(rest: string)
    ensures Read(SIM + rest) == Sim
  {
    ReadIsExact(SIM + rest);
  }

  lemma SsrcLineReadsBack(s: string, f: Found, i: nat)
    requires Digits(s) && Printable(f) && i < 4
    ensures Read(SsrcLines(s, f)[i]) == SsrcTokens(s, f)[i]
  {
    if i == 0 { AttributeReadsBack(s, CNAME, f.cname); }
    else if i == 1 { MsidIsOther(s, f); }
    else if i == 2 { AttributeReadsBack(s, MSLABEL, f.mslabel); }
    else { AttributeReadsBack(s, LABEL, f.track); }
  }

  lemma SsrcLinesReadBack(s: string, f: Found)
    requires Digits(s) && Printable(f)
    ensures ReadAll(SsrcLines(s, f)) == SsrcTokens(s, f)
  {
    var lines, tokens := SsrcLines(s, f), SsrcTokens(s, f);
    forall i: nat | i < 4 ensures Read(lines[i]) == tokens[i] { SsrcLineReadsBack(s, f, i); }
    ReadAllIs(lines, tokens);
  }

  lemma LayerReadsBack(s: string, t: string, f: Found)
    requires Digits(s) && Digits(t) && Printable(f)
    ensures ReadAll(Layer(s, t, f)) == LayerTokens(s, t, f)
  {
    SsrcLinesReadBack(s, f);
    SsrcLinesReadBack(t, f);
    FidReadsBack(s, t);
    ReadThree(FidLine(s, t), SsrcLines(s, f), SsrcLines(t, f));
  }

  lemma ReadThree(x: string, a: seq<string>, b: seq<string>)
    ensures ReadAll([x] + a + b) == [Read(x)] + ReadAll(a) + ReadAll(b)
  {
    ReadAllConcat([x] + a, b);
    ReadAllConcat([x], a);
  }

  lemma LayerExtends(prev: seq<string>, tokens: seq<Token>, s: string, t: string, f: Found)
    requires ReadAll(prev) == tokens && Digits(s) && Digits(t) && Printable(f)
    ensures ReadAll(prev + Layer(s, t, f)) == tokens + LayerTokens(s, t, f)
  {
    LayerReadsBack(s, t, f);
    ReadAllConcat(prev, Layer(s, t, f));
  }

  lemma {:induction false} LayersReadBack(ps: seq<string>, ts: seq<string>, f: Found)
    requires Printable(f) && |ps| == |ts|
    requires forall k :: 0 <= k < |ps| ==> Digits(ps[k]) && Digits(ts[k])
    ensures ReadAll(Layers(ps, ts, f)) == LayersTokens(ps, ts, f)
  {
    if ps != [] {
      var k := |ps| - 1;
      LayersReadBack(ps[..k], ts[..k], f);
      LayerExtends(Layers(ps[..k], ts[..k], f), LayersTokens(ps[..k], ts[..k], f), ps[k], ts[k], f);
    }
  }

  /** The printed block, read by the scanner's own recognisers: for every layer the FID pair (when
      there is one) and, for each drawn SSRC in use, the original cname, mslabel and label. */
  lemma BlockReadsBack(n: nat, f: Found, draws: nat -> Draw)
    requires Printable(f)
    ensures |Primaries(draws, n)| == |Partners(draws, n)| == n
    ensures ReadAll(Block(n, f, draws)) == LayersTokens(Primaries(draws, n), Partners(draws, n), f) + [Sim]
    ensures |Block(n, f, draws)| == n * (if f.fid != "" then 9 else 4) + 1
  {
    DrawnNames(draws, n);
    var ps, ts := Primaries(draws, n), Partners(draws, n);
    LayersReadBack(ps, ts, f);
    SimIsSim(Join([f.ssrc] + ps, " ") + "\r");
    ReadBoth(Layers(ps, ts, f), SimLine(n, f, draws));
    LayersLength(ps, ts, f);
  }

  lemma ReadBoth(a: seq<string>, x: string)
    ensures ReadAll(a + [x]) == ReadAll(a) + [Read(x)]
  {
    ReadAllConcat(a, [x]);
  }

  lemma {:induction false} LayersLength(ps: seq<string>, ts: seq<string>, f: Found)
    requires |ps| == |ts|
    ensures |LayersTokens(ps, ts, f)| == |ps| * (if f.fid != "" then 9 else 4)
  {
    if ps != [] {
      var k := |ps| - 1;
      LayersLength(ps[..k], ts[..k], f);
      assert |LayerTokens(ps[k], ts[k], f)| == if f.fid != "" then 9 else 4;
    }
  }

  /** The SIM line names the original SSRC and then the primaries, in order. */
  lemma SimLineReadsBack(n: nat, f: Found, draws: nat -> Draw)
    requires Printable(f)
    ensures var line := Block(n, f, draws)[|Block(n, f, draws)| - 1];
            && IsSim(line) && "a=ssrc-group:SIM " <= line && line[|line| - 1] == '\r'
            && SdpText.Split(line[17..|line| - 1], ' ') == [f.ssrc] + Primaries(draws, n)
  {
    var names, line := SimNames(n, f, draws);
    SimParts(names, line);
    assert |SIM| == 17;
  }

  lemma SimNames(n: nat, f: Found, draws: nat -> Draw) returns (names: seq<string>, line: string)
    requires Printable(f)
    ensures names == [f.ssrc] + Primaries(draws, n) && AllDigits(names)
    ensures Block(n, f, draws) != [] && line == Block(n, f, draws)[|Block(n, f, draws)| - 1]
    ensures line == SIM + (Join(names, " ") + "\r")
  {
    DrawnNames(draws, n);
    names, line := [f.ssrc] + Primaries(draws, n), SimLine(n, f, draws);
  }

  lemma SimParts(names: seq<string>, line: string)
    requires names != [] && AllDigits(names) && line == SIM + (Join(names, " ") + "\r")
    ensures IsSim(line) && SdpText.Split(line[|SIM|..|line| - 1], ' ') == names
  {
    WordsSplit(names);
    assert line[|SIM|..|line| - 1] == Join(names, " ");
  }

  predicate AllDigits(names: seq<string>) { forall k :: 0 <= k < |names| ==> Digits(names[k]) }

  lemma WordsSplit(names: seq<string>)
    requires names != [] && AllDigits(names)
    ensures SdpText.Split(Join(names, " "), ' ') == names
  {
    forall x | x in names ensures ' ' !in x {
      var k :| 0 <= k < |names| && names[k] == x;
      assert Digits(names[k]);
    }
    assert Digits(names[|names| - 1]);
    SdpText.SplitOfCleanJoin(names, ' ');
  }

  // ---------------------------------------------------------------- the lines of one SSRC

  /** Line `i` and the three after it belong to one SSRC: they give its cname, mslabel and label, and
      the second one, cut at its blanks, is its msid line with the mslabel and then the label. */
  predicate GroupAt(lines: seq<string>, i: nat, f: Found) {
    && i + 3 < |lines| && ParseCname(lines[i]).Some?
    && var (s, c) := ParseCname(lines[i]).value;
    && c == f.cname
    && ParseMslabel(lines[i + 2]) == Some((s, f.mslabel)) && ParseLabel(lines[i + 3]) == Some((s, f.track))
    && SdpText.Split(lines[i + 1], ' ') == ["a=ssrc:" + s, "msid:" + f.mslabel, f.track + "\r"]
  }

  /** Wherever a cname line stands, such a group stands. */
  predicate Grouped(lines: seq<string>, f: Found) {
    forall i: nat :: i < |lines| && ParseCname(lines[i]).Some? ==> GroupAt(lines, i, f)
  }

  lemma GroupedConcat(a: seq<string>, b: seq<string>, f: Found)
    requires Grouped(a, f) && Grouped(b, f)
    ensures Grouped(a + b, f)
  {
    var lines := a + b;
    forall i: nat | i < |lines| && ParseCname(lines[i]).Some? ensures GroupAt(lines, i, f) {
      if i < |a| {
        assert GroupAt(a, i, f);
      } else {
        assert lines[i] == b[i - |a|];
        assert GroupAt(b, i - |a|, f);
      }
    }
  }

  lemma NoCnameGrouped(line: string, f: Found)
    requires ParseCname(line) == None
    ensures Grouped([line], f)
  {
  }

  lemma NoBlanks(w: string)
    requires Word(w) || Digits(w)
    ensures ' ' !in w
  {
    assert forall i :: 0 <= i < |w| ==> w[i] != ' ';
  }

  lemma MsidSplits(s: string, f: Found)
    requires Digits(s) && Printable(f)
    ensures SdpText.Split(MsidLine(s, f), ' ') == ["a=ssrc:" + s, "msid:" + f.mslabel, f.track + "\r"]
  {
    NoBlanks(s);
    NoBlanks(f.mslabel);
    NoBlanks(f.track);
    PrefixedNoBlanks("a=ssrc:", s);
    PrefixedNoBlanks("msid:", f.mslabel);
    PrefixedNoBlanks(f.track, "\r");
    MsidShape(SSRC, s, f.mslabel, f.track);
    SdpText.SplitThree("a=ssrc:" + s, "msid:" + f.mslabel, f.track + "\r", MsidLine(s, f), ' ');
  }

  lemma PrefixedNoBlanks(a: string, b: string)
    requires ' ' !in a && ' ' !in b
    ensures ' ' !in a + b
  {
  }

  lemma MsidShape(p: string, s: string, v: string, w: string)
    ensures p + (s + (" msid:" + (v + (" " + (w + "\r"))))) == (p + s) + [' '] + (("msid:" + v) + [' '] + (w + "\r"))
  {
    var t := w + "\r";
    assert " msid:" + (v + (" " + t)) == [' '] + (("msid:" + v) + [' '] + t);
  }

  lemma SsrcGrouped(s: string, f: Found)
    requires Digits(s) && Printable(f)
    ensures Grouped(SsrcLines(s, f), f)
  {
    var lines := SsrcLines(s, f);
    MsidSplits(s, f);
    forall i: nat | i < 4
      ensures ParseCname(lines[i]) == (if i == 0 then Some((s, f.cname)) else None)
      ensures i == 2 ==> ParseMslabel(lines[i]) == Some((s, f.mslabel))
      ensures i == 3 ==> ParseLabel(lines[i]) == Some((s, f.track))
    {
      SsrcLineGives(s, f, i, lines[i]);
    }
    assert GroupAt(lines, 0, f);
  }

  lemma SsrcLineGives(s: string, f: Found, i: nat, line: string)
    requires Digits(s) && Printable(f) && i < 4 && line == SsrcLines(s, f)[i]
    ensures ParseCname(line) == (if i == 0 then Some((s, f.cname)) else None)
    ensures i == 2 ==> ParseMslabel(line) == Some((s, f.mslabel))
    ensures i == 3 ==> ParseLabel(line) == Some((s, f.track))
  {
    SsrcLineReadsBack(s, f, i);
    ReadIsExact(line);
  }

  lemma LayerGrouped(s: string, t: string, f: Found)
    requires Digits(s) && Digits(t) && Printable(f)
    ensures Grouped(Layer(s, t, f), f)
  {
    SsrcGrouped(s, f);
    if f.fid != "" {
      SsrcGrouped(t, f);
      FidReadsBack(s, t);
      ReadIsExact(FidLine(s, t));
      NoCnameGrouped(FidLine(s, t), f);
      GroupedConcat([FidLine(s, t)], SsrcLines(s, f), f);
      GroupedConcat([FidLine(s, t)] + SsrcLines(s, f), SsrcLines(t, f), f);
    }
  }

  lemma {:induction false} LayersGrouped(ps: seq<string>, ts: seq<string>, f: Found)
    requires Printable(f) && |ps| == |ts| && AllDigits(ps) && AllDigits(ts)
    ensures Grouped(Layers(ps, ts, f), f)
  {
    if ps != [] {
      var k := |ps| - 1;
      LayersGrouped(ps[..k], ts[..k], f);
      LayerGrouped(ps[k], ts[k], f);
      GroupedConcat(Layers(ps[..k], ts[..k], f), Layer(ps[k], ts[k], f), f);
    }
  }

  /** In the block, every cname line begins the four lines of its SSRC. */
  lemma BlockGrouped(n: nat, f: Found, draws: nat -> Draw)
    requires Printable(f)
    ensures Grouped(Block(n, f, draws), f)
  {
    DrawnNames(draws, n);
    LayersGrouped(Primaries(draws, n), Partners(draws, n), f);
    var rest := Join([f.ssrc] + Primaries(draws, n), " ") + "\r";
    SimIsSim(rest);
    ReadIsExact(SIM + rest);
    NoCnameGrouped(SimLine(n, f, draws), f);
    GroupedConcat(Layers(Primaries(draws, n), Partners(draws, n), f), [SimLine(n, f, draws)], f);
  }

  // ---------------------------------------------------------------- scanning the block

  /** A token that is no m-line and can only latch the values of `f`. */
  predicate Harmless(t: Token, f: Found) {
    && !t.Media?
    && (t.Cname? ==> t.value == f.cname)
    && (t.Mslabel? ==> t.value == f.mslabel)
    && (t.Label? ==> t.value == f.track)
  }

  lemma LayerHarmless(s: string, t: string, f: Found)
    ensures forall x :: x in LayerTokens(s, t, f) ==> Harmless(x, f)
  {
  }

  lemma {:induction false} LayersHarmless(ps: seq<string>, ts: seq<string>, f: Found)
    requires |ps| == |ts|
    ensures forall t :: t in LayersTokens(ps, ts, f) ==> Harmless(t, f)
  {
    if ps != [] {
      var k := |ps| - 1;
      LayersHarmless(ps[..k], ts[..k], f);
      LayerHarmless(ps[k], ts[k], f);
    }
  }

  /** Block lines do nothing outside a video section; inside one they can only latch values of
      `f`, and they never end it. */
  lemma {:induction false} ScanBlock(st: Scan, block: seq<Token>, base: int, f: Found)
    requires forall t :: t in block ==> Harmless(t, f)
    ensures var r := ScanAll(st, block, base);
            && r.video == st.video && r.inject == st.inject
            && (!st.video ==> r == st)
            && (st.found.ssrc != "" && Keeps(st.found, f) ==>
                  r.found.ssrc == st.found.ssrc && Keeps(st.found, r.found) && Keeps(r.found, f))
            && (st.video && block != [] && block[|block| - 1].Sim? ==> r.sim)
  {
    if block != [] {
      var k := |block| - 1;
      ScanBlock(st, block[..k], base, f);
      assert Harmless(block[k], f);
    }
  }

  // ---------------------------------------------------------------- where the block goes

  /** The splice index names an m-line: the last video section that ended was empty. */
  predicate SplicesAtMline(tokens: seq<Token>) {
    SpliceIndex(tokens) < |tokens| && tokens[SpliceIndex(tokens)].Media?
  }

  lemma SpliceState(tokens: seq<Token>)
    requires ScanFires(ScanAll(START, tokens, 0))
    ensures var p := SpliceIndex(tokens);
            && (p < |tokens| ==> p + 1 < |tokens| && Before(tokens, p + 1).video && tokens[p + 1].Media?)
            && (Before(tokens, p).video <==> !SplicesAtMline(tokens))
  {
    var p := SpliceIndex(tokens);
    assert tokens[..|tokens|] == tokens;
    SpliceInvariant(tokens, |tokens|);
    if p < |tokens| {
      BeforeStep(tokens, p);
    }
  }

  /** Placement: one contiguous block, strictly after an m=video line with no m-line between, and
      either at the very end or right before the last line of that section. The SSRC that the block
      extends is the one of line `h`; it belongs to the section of the splice if and only if `h` lies
      after that m=video line and not after the splice. */
  lemma Placement(n: int, lines: seq<string>, draws: nat -> Draw) returns (v: nat, h: nat)
    requires 1 <= n <= 2 && Fires(lines) && !SplicesAtMline(ReadAll(lines))
    ensures var p := SpliceAt(lines);
            && Inject(n, lines, draws) == lines[..p] + BlockFor(n, lines, draws) + lines[p..]
            && v < p && ParseMline(lines[v]) == Some("video")
            && (forall j :: v < j < |lines| && j <= p ==> ParseMline(lines[j]) == None)
            && (p < |lines| ==> p + 1 < |lines| && ParseMline(lines[p + 1]).Some?)
    ensures var tokens := ReadAll(lines);
            && HomeLine(tokens, h) && tokens[h].ssrc == ScanOf(lines).found.ssrc
            && Opens(tokens, v, SpliceAt(lines))
            && (Opens(tokens, v, h) <==> v < h <= SpliceAt(lines))
  {
    var p, tokens := SpliceAt(lines), ReadAll(lines);
    SpliceState(tokens);
    v := SectionOpen(tokens, p);
    MediaLines(lines);
    ReadAllAt(lines, v);
    ReadIsExact(lines[v]);
    h := Home(lines);
    HomeSection(tokens, v, p, h);
  }

  lemma Home(lines: seq<string>) returns (h: nat)
    requires Fires(lines)
    ensures HomeLine(ReadAll(lines), h) && ReadAll(lines)[h].ssrc == ScanOf(lines).found.ssrc
  {
    var tokens := ReadAll(lines);
    ReadAllIsProper(lines);
    assert tokens[..|tokens|] == tokens;
    h := FindHome(tokens, |tokens|);
  }

  lemma HomeSection(tokens: seq<Token>, v: nat, p: nat, h: nat)
    requires Opens(tokens, v, p) && (p < |tokens| ==> p + 1 < |tokens| && !tokens[p].Media? && tokens[p + 1].Media?)
    requires h < |tokens| && !tokens[h].Media?
    ensures Opens(tokens, v, h) <==> v < h <= p
  {
  }

  lemma MediaLines(lines: seq<string>)
    ensures forall j :: 0 <= j < |lines| ==> (ParseMline(lines[j]).Some? <==> ReadAll(lines)[j].Media?)
  {
    forall j | 0 <= j < |lines| ensures ParseMline(lines[j]).Some? <==> ReadAll(lines)[j].Media? {
      ReadAllAt(lines, j);
      ReadIsExact(lines[j]);
    }
  }

  // ---------------------------------------------------------------- rescanning the output

  lemma ScanThree(st: Scan, x: seq<Token>, y: seq<Token>, z: seq<Token>, base: int)
    ensures ScanAll(st, x + y + z, base) ==
            ScanAll(ScanAll(ScanAll(st, x, base), y, base + |x|), z, base + |x| + |y|)
  {
    ScanConcat(st, x + y, z, base);
    ScanConcat(st, x, y, base);
    assert base + |x + y| == base + |x| + |y|;
  }

  /** `g` runs ahead of `h`: it has latched at least as much, and nothing but values of `f`. */
  predicate Ahead(h: Found, g: Found, f: Found) {
    h.ssrc != "" && Keeps(h, g) && Keeps(g, f)
  }

  lemma LatchAhead(h: Found, g: Found, f: Found, t: Token)
    requires Proper(t) && Ahead(h, g, f) && Keeps(Latch(h, t), f)
    ensures Ahead(Latch(h, t), Latch(g, t), f)
  {
  }

  lemma ScanLineAhead(r: Scan, s: Scan, t: Token, i: int, j: int, f: Found)
    requires r.video == s.video && Ahead(r.found, s.found, f)
    requires Proper(t) && Keeps(ScanLine(r, t, i).found, f)
    ensures var r1, s1 := ScanLine(r, t, i), ScanLine(s, t, j);
            r1.video == s1.video && Ahead(r1.found, s1.found, f)
  {
    if r.video && !t.Media? {
      LatchAhead(r.found, s.found, f, t);
    }
  }

  lemma KeepsToTheEnd(a: Scan, x: seq<Token>, z: seq<Token>, i: int)
    requires Clean(a.found) && AllProper(x) && AllProper(z)
    ensures Keeps(ScanAll(a, x, i).found, ScanAll(a, x + z, i).found)
  {
    ScanKeeps(a, x, i);
    ScanConcat(a, x, z, i);
    ScanKeeps(ScanAll(a, x, i), z, i + |x|);
  }

  lemma {:induction false} ScanAhead(a: Scan, b: Scan, x: seq<Token>, z: seq<Token>, i: int, j: int, f: Found)
    requires Clean(a.found) && AllProper(x) && AllProper(z) && a.video == b.video
    requires f == ScanAll(a, x + z, i).found && Ahead(a.found, b.found, f)
    ensures var r, s := ScanAll(a, x, i), ScanAll(b, x, j);
            r.video == s.video && Ahead(r.found, s.found, f)
  {
    if x != [] {
      var k := |x| - 1;
      var init, t := x[..k], x[k];
      assert init + ([t] + z) == x + z;
      ScanAhead(a, b, init, [t] + z, i, j, f);
      KeepsToTheEnd(a, x, z, i);
      ScanLineAhead(ScanAll(a, init, i), ScanAll(b, init, j), t, i + k, j + k, f);
    }
  }

  /** The scan of `x + block + z` against the scan of `x + z`, seen from the splice point. */
  lemma SplicedScan(x: seq<Token>, block: seq<Token>, z: seq<Token>, f: Found) returns (a: Scan, b: Scan)
    requires AllProper(x) && AllProper(z) && f == ScanAll(START, x + z, 0).found
    requires block != [] && block[|block| - 1].Sim? && forall t :: t in block ==> Harmless(t, f)
    ensures a == ScanAll(START, x, 0) && Clean(a.found)
    ensures ScanAll(START, x + z, 0) == ScanAll(a, z, |x|)
    ensures ScanAll(START, x + block + z, 0) == ScanAll(b, z, |x| + |block|)
    ensures b.video == a.video && (!a.video ==> b == a) && (a.video ==> b.sim)
    ensures a.found.ssrc != "" ==> Ahead(a.found, b.found, f)
  {
    a := ScanAll(START, x, 0);
    b := ScanAll(a, block, |x|);
    ScanConcat(START, x, z, 0);
    ScanThree(START, x, block, z, 0);
    ScanKeeps(START, x, 0);
    ScanKeeps(a, z, |x|);
    ScanBlock(a, block, |x|, f);
  }

  lemma FoundIsPrintable(lines: seq<string>)
    requires Fires(lines)
    ensures Printable(ScanOf(lines).found)
  {
    ReadAllIsProper(lines);
    ScanKeeps(START, ReadAll(lines), 0);
  }

  lemma SplicedTokens(lines: seq<string>, p: nat, block: seq<string>) returns (x: seq<Token>, z: seq<Token>)
    requires p <= |lines|
    ensures x == ReadAll(lines)[..p] && x + z == ReadAll(lines)
    ensures ReadAll(lines[..p] + block + lines[p..]) == x + ReadAll(block) + z
    ensures AllProper(x) && AllProper(z)
  {
    x, z := ReadAll(lines[..p]), ReadAll(lines[p..]);
    ReadAllConcat(lines[..p] + block, lines[p..]);
    ReadAllConcat(lines[..p], block);
    ReadAllCut(lines, p);
    ReadAllIsProper(lines[..p]);
    ReadAllIsProper(lines[p..]);
  }

  lemma InjectedTokens(n: int, lines: seq<string>, draws: nat -> Draw)
    returns (x: seq<Token>, block: seq<Token>, z: seq<Token>)
    requires 1 <= n <= 2 && Fires(lines)
    ensures x == ReadAll(lines)[..SpliceAt(lines)] && x + z == ReadAll(lines)
    ensures ReadAll(Inject(n, lines, draws)) == x + block + z
    ensures AllProper(x) && AllProper(z)
    ensures block != [] && block[|block| - 1].Sim?
    ensures forall t :: t in block ==> Harmless(t, ScanOf(lines).found)
  {
    FoundIsPrintable(lines);
    block := BlockTokens(n, ScanOf(lines).found, draws);
    x, z := SplicedTokens(lines, SpliceAt(lines), BlockFor(n, lines, draws));
  }

  lemma BlockTokens(n: nat, f: Found, draws: nat -> Draw) returns (block: seq<Token>)
    requires Printable(f)
    ensures block == ReadAll(Block(n, f, draws)) && block != [] && block[|block| - 1].Sim?
    ensures forall t :: t in block ==> Harmless(t, f)
  {
    block := ReadAll(Block(n, f, draws));
    BlockReadsBack(n, f, draws);
    LayersHarmless(Primaries(draws, n), Partners(draws, n), f);
  }

  lemma RescanTokens(x: seq<Token>, block: seq<Token>, z: seq<Token>, f: Found)
    requires AllProper(x) && AllProper(z) && f == ScanAll(START, x + z, 0).found && Complete(f)
    requires block != [] && block[|block| - 1].Sim? && forall t :: t in block ==> Harmless(t, f)
    requires ScanAll(START, x, 0).found.ssrc != ""
    ensures ScanAll(START, x + block + z, 0).found == f
  {
    var a, b := SplicedScan(x, block, z, f);
    ScanAheadAll(a, b, z, |x|, |x| + |block|, f);
  }

  lemma ScanAheadAll(a: Scan, b: Scan, z: seq<Token>, i: int, j: int, f: Found)
    requires Clean(a.found) && AllProper(z) && a.video == b.video
    requires f == ScanAll(a, z, i).found && Complete(f) && Ahead(a.found, b.found, f)
    ensures ScanAll(b, z, j).found == f
  {
    assert z + [] == z;
    ScanAhead(a, b, z, [], i, j, f);
  }

  /** What the first layer of the block leaves in a scan that has latched nothing yet. */
  function Renamed(f: Found, p: string, t: string): Found {
    f.(ssrc := p, fid := if f.fid != "" then t else "")
  }

  lemma LayerRenames(st: Scan, p: string, t: string, f: Found, base: int)
    requires st.video && st.found == NOTHING && Printable(f) && Digits(p) && Digits(t)
    ensures var r := ScanAll(st, LayerTokens(p, t, f), base);
            r.video && r.found == Renamed(f, p, t)
  {
    if f.fid != "" {
      var own, partner := SsrcTokens(p, f), SsrcTokens(t, f);
      ScanThree(st, [Fid(p, t)], own, partner, base);
      var head := st.(found := NOTHING.(ssrc := p, fid := t));
      assert ScanAll(st, [Fid(p, t)], base) == head by { ScanOne(st, Fid(p, t), base); }
      FourLatch(head, p, f, base + 1);
      ScanComplete(ScanAll(head, own, base + 1), partner, base + 1 + 4);
    } else {
      FourLatch(st, p, f, base);
    }
  }

  lemma ScanOne(st: Scan, t: Token, base: int)
    ensures ScanAll(st, [t], base) == ScanLine(st, t, base)
  {
    assert [t][..0] == [];
  }

  /** The four lines of an SSRC close all latches that are open for it. */
  lemma FourLatch(st: Scan, p: string, f: Found, base: int)
    requires st.video && Printable(f) && Digits(p)
    requires st.found == NOTHING.(ssrc := st.found.ssrc, fid := st.found.fid) && st.found.ssrc in {"", p}
    ensures ScanAll(st, SsrcTokens(p, f), base) == st.(found := f.(ssrc := p, fid := st.found.fid))
  {
    var ts := SsrcTokens(p, f);
    assert ts[..4] == ts && ts[..4][..3] == ts[..3] && ts[..3][..2] == ts[..2] && ts[..2][..1] == ts[..1] && ts[..1][..0] == [];
    assert ScanAll(st, ts[..1], base) == st.(found := NOTHING.(ssrc := p, fid := st.found.fid, cname := f.cname));
    assert ScanAll(st, ts[..2], base) == ScanAll(st, ts[..1], base);
    assert ScanAll(st, ts[..3], base) == st.(found := f.(ssrc := p, fid := st.found.fid, track := ""));
  }

  /** Once every latch is closed, nothing in a video section or after it changes it. */
  lemma {:induction false} ScanComplete(st: Scan, tokens: seq<Token>, base: int)
    requires Complete(st.found)
    ensures ScanAll(st, tokens, base).found == st.found
    ensures (forall t :: t in tokens ==> !t.Media?) ==> ScanAll(st, tokens, base).video == st.video
  {
    if tokens != [] { ScanComplete(st, tokens[..|tokens| - 1], base); }
  }

  lemma {:induction false} FirstLayer(ps: seq<string>, ts: seq<string>, f: Found)
    requires |ps| == |ts| >= 1
    ensures LayerTokens(ps[0], ts[0], f) <= LayersTokens(ps, ts, f)
  {
    var k := |ps| - 1;
    if k > 0 { FirstLayer(ps[..k], ts[..k], f); }
  }

  lemma BeginsWith(block: seq<Token>, ps: seq<string>, ts: seq<string>, f: Found) returns (more: seq<Token>)
    requires |ps| == |ts| >= 1 && block == LayersTokens(ps, ts, f) + [Sim]
    ensures block == LayerTokens(ps[0], ts[0], f) + more
  {
    var first := LayerTokens(ps[0], ts[0], f);
    FirstLayer(ps, ts, f);
    more := block[|first|..];
  }

  /** The block as the recognisers see it begins with the layer of the first two draws. */
  lemma BlockBegins(n: nat, f: Found, draws: nat -> Draw) returns (more: seq<Token>)
    requires n >= 1 && Printable(f)
    ensures ReadAll(Block(n, f, draws)) == LayerTokens(Primary(draws, 0), Partner(draws, 0), f) + more
  {
    BlockReadsBack(n, f, draws);
    FirstDrawn(draws, n);
    more := BeginsWith(ReadAll(Block(n, f, draws)), Primaries(draws, n), Partners(draws, n), f);
  }

  lemma {:induction false} FirstDrawn(draws: nat -> Draw, n: nat)
    requires n >= 1
    ensures |Primaries(draws, n)| == |Partners(draws, n)| == n
    ensures Primaries(draws, n)[0] == Primary(draws, 0) && Partners(draws, n)[0] == Partner(draws, 0)
  {
    DrawnNames(draws, n);
    if n > 1 {
      DrawnNames(draws, n - 1);
      FirstDrawn(draws, n - 1);
    }
  }

  /** The SSRC is latched only by a line after the splice. */
  predicate LatchedLate(lines: seq<string>) {
    && !SplicesAtMline(ReadAll(lines))
    && Before(ReadAll(lines), SpliceAt(lines)).found.ssrc == ""
  }

  lemma RenamedTokens(x: seq<Token>, first: seq<Token>, rest: seq<Token>, p: string, t: string, f: Found)
    requires first == LayerTokens(p, t, f) && Printable(f) && Digits(p) && Digits(t)
    requires ScanAll(START, x, 0).video && ScanAll(START, x, 0).found == NOTHING
    ensures ScanAll(START, x + first + rest, 0).found == Renamed(f, p, t)
  {
    ScanThree(START, x, first, rest, 0);
    var a := ScanAll(START, x, 0);
    LayerRenames(a, p, t, f, |x|);
    ScanComplete(ScanAll(a, first, |x|), rest, |x| + |first|);
  }

  lemma RenamedBlock(x: seq<Token>, block: seq<Token>, z: seq<Token>, n: nat, draws: nat -> Draw, f: Found)
    requires n >= 1 && Printable(f) && block == ReadAll(Block(n, f, draws))
    requires AllProper(x) && ScanAll(START, x, 0).video && ScanAll(START, x, 0).found.ssrc == ""
    ensures ScanAll(START, x + block + z, 0).found == Renamed(f, Primary(draws, 0), Partner(draws, 0))
  {
    var p, t := Primary(draws, 0), Partner(draws, 0);
    var more := BlockBegins(n, f, draws);
    assert Digits(p) && Digits(t) by { GenSsrcValue(draws(0)); GenSsrcValue(draws(1)); }
    assert ScanAll(START, x, 0).found == NOTHING by { ScanKeeps(START, x, 0); }
    var first := LayerTokens(p, t, f);
    Reassociate(x, first, more, z);
    RenamedTokens(x, first, more + z, p, t, f);
  }

  lemma Reassociate(x: seq<Token>, y: seq<Token>, more: seq<Token>, z: seq<Token>)
    ensures x + (y + more) + z == x + y + (more + z)
  {
  }

  lemma RescanLate(n: int, lines: seq<string>, draws: nat -> Draw)
    requires 1 <= n <= 2 && Fires(lines) && LatchedLate(lines)
    ensures ScanOf(Inject(n, lines, draws)).found ==
            Renamed(ScanOf(lines).found, Primary(draws, 0), Partner(draws, 0))
  {
    SpliceState(ReadAll(lines));
    FoundIsPrintable(lines);
    var x, z := SplicedTokens(lines, SpliceAt(lines), BlockFor(n, lines, draws));
    RenamedBlock(x, ReadAll(BlockFor(n, lines, draws)), z, n, draws, ScanOf(lines).found);
  }

  lemma RescanOutside(x: seq<Token>, block: seq<Token>, z: seq<Token>, f: Found)
    requires AllProper(x) && AllProper(z) && f == ScanAll(START, x + z, 0).found
    requires block != [] && block[|block| - 1].Sim? && forall t :: t in block ==> Harmless(t, f)
    requires !ScanAll(START, x, 0).video
    ensures ScanAll(START, x + block + z, 0).found == f
  {
    var a, b := SplicedScan(x, block, z, f);
    ScanIgnoresNumbers(a, b, z, |x|, |x| + |block|);
  }

  lemma RescanAtMline(n: int, lines: seq<string>, draws: nat -> Draw)
    requires 1 <= n <= 2 && Fires(lines) && SplicesAtMline(ReadAll(lines))
    ensures ScanOf(Inject(n, lines, draws)).found == ScanOf(lines).found
  {
    SpliceState(ReadAll(lines));
    var x, block, z := InjectedTokens(n, lines, draws);
    RescanOutside(x, block, z, ScanOf(lines).found);
  }

  /** What scanning the output finds, for every list that fires: the same SSRC, FID partner, cname,
      mslabel and label, unless the SSRC is latched only after the splice; then the first layer of
      the block takes its place, and only the SSRC and the partner change. */
  lemma RescanFinds(n: int, lines: seq<string>, draws: nat -> Draw)
    requires 1 <= n <= 2 && Fires(lines)
    ensures var f := ScanOf(lines).found;
            ScanOf(Inject(n, lines, draws)).found ==
            if LatchedLate(lines)
            then Found(Primary(draws, 0), if f.fid != "" then Partner(draws, 0) else "", f.cname, f.mslabel, f.track)
            else f
  {
    if LatchedLate(lines) {
      RescanLate(n, lines, draws);
    } else if SplicesAtMline(ReadAll(lines)) {
      RescanAtMline(n, lines, draws);
    } else {
      var x, block, z := InjectedTokens(n, lines, draws);
      RescanTokens(x, block, z, ScanOf(lines).found);
    }
  }

  /** Rescan stability, exactly: the same stream is found if and only if the splice is at an m-line,
      or the SSRC is latched before it, or the first draws happen to be the old numbers. */
  lemma RescanFindsTheSame(n: int, lines: seq<string>, draws: nat -> Draw)
    requires 1 <= n <= 2 && Fires(lines)
    ensures var f := ScanOf(lines).found;
            ScanOf(Inject(n, lines, draws)).found == f <==>
            || SplicesAtMline(ReadAll(lines))
            || Before(ReadAll(lines), SpliceAt(lines)).found.ssrc != ""
            || (Primary(draws, 0) == f.ssrc && (f.fid != "" ==> Partner(draws, 0) == f.fid))
  {
    RescanFinds(n, lines, draws);
  }

  // ---------------------------------------------------------------- injecting twice

  /** A second injection changes nothing, whatever was drawn, unless the first one fired at a
      splice index that names an m-line. */
  lemma InjectTwice(n: int, m: int, lines: seq<string>, draws: nat -> Draw, again: nat -> Draw)
    requires 1 <= n <= 2 && 1 <= m <= 2
    ensures Inject(m, Inject(n, lines, draws), again) == Inject(n, lines, draws) <==>
            !(Fires(lines) && SplicesAtMline(ReadAll(lines)))
  {
    if Fires(lines) {
      SpliceState(ReadAll(lines));
      FiresAgain(n, lines, draws);
    }
  }

  lemma FiresAgain(n: int, lines: seq<string>, draws: nat -> Draw)
    requires 1 <= n <= 2 && Fires(lines)
    ensures Fires(Inject(n, lines, draws)) <==> !Before(ReadAll(lines), SpliceAt(lines)).video
  {
    var x, block, z := InjectedTokens(n, lines, draws);
    FiresAgainTokens(x, block, z, ScanOf(lines).found);
  }

  lemma FiresAgainTokens(x: seq<Token>, block: seq<Token>, z: seq<Token>, f: Found)
    requires AllProper(x) && AllProper(z)
    requires ScanFires(ScanAll(START, x + z, 0)) && f == ScanAll(START, x + z, 0).found
    requires block != [] && block[|block| - 1].Sim? && forall t :: t in block ==> Harmless(t, f)
    ensures ScanFires(ScanAll(START, x + block + z, 0)) <==> !ScanAll(START, x, 0).video
  {
    var a, b := SplicedScan(x, block, z, f);
    if a.video {
      SimStays(b, z, |x| + |block|);
    } else {
      ScanIgnoresNumbers(a, b, z, |x|, |x| + |block|);
    }
  }

  lemma {:induction false} SimStays(st: Scan, tokens: seq<Token>, base: int)
    requires st.sim
    ensures ScanAll(st, tokens, base).sim
  {
    if tokens != [] { SimStays(st, tokens[..|tokens| - 1], base); }
  }

  // ---------------------------------------------------------------- one video section

  function VideoTokens(tokens: seq<Token>): nat {
    if tokens == [] then 0
    else VideoTokens(tokens[..|tokens| - 1]) + (if tokens[|tokens| - 1] == Media("video") then 1 else 0)
  }

  /** The number of m=video lines. */
  function VideoLines(lines: seq<string>): nat { VideoTokens(ReadAll(lines)) }

  lemma {:induction false} VideoTokensPrefix(tokens: seq<Token>, k: nat)
    requires k <= |tokens|
    ensures VideoTokens(tokens[..k]) <= VideoTokens(tokens)
  {
    if k < |tokens| {
      VideoTokensPrefix(tokens[..|tokens| - 1], k);
      assert tokens[..|tokens| - 1][..k] == tokens[..k];
    } else {
      assert tokens[..k] == tokens;
    }
  }

  /** With one m=video line, what is latched after its section ended is what was latched in it. */
  lemma {:induction false} OneSection(tokens: seq<Token>, k: nat)
    requires k <= |tokens| && VideoTokens(tokens) <= 1
    ensures var st := Before(tokens, k);
            && (VideoTokens(tokens[..k]) == 0 ==> st == START)
            && (st.video ==> st.inject == 0)
            && (st.inject != 0 ==>
                  1 <= st.inject < k && st.found == Before(tokens, st.inject + 1).found)
  {
    if k > 0 {
      OneSection(tokens, k - 1);
      BeforeStep(tokens, k - 1);
      assert tokens[..k][..k - 1] == tokens[..k - 1];
      VideoTokensPrefix(tokens, k);
    }
  }

  /** With at most one m=video line the splice is always inside its section, after the SSRC. */
  lemma OneSectionSplice(lines: seq<string>)
    requires VideoLines(lines) <= 1 && Fires(lines)
    ensures !SplicesAtMline(ReadAll(lines))
    ensures Before(ReadAll(lines), SpliceAt(lines)).found.ssrc != ""
  {
    var p, tokens := SpliceAt(lines), ReadAll(lines);
    assert tokens[..|tokens|] == tokens;
    SpliceState(ReadAll(lines));
    OneSection(tokens, |tokens|);
    if p < |tokens| {
      BeforeStep(tokens, p);
      OneSection(tokens, p);
      OnlyVideoToken(tokens, p);
      ReadAllIsProper(lines);
      ScanKeeps(START, tokens[..p], 0);
    }
  }

  lemma OneHome(tokens: seq<Token>, p: nat) returns (v: nat, h: nat)
    requires AllProper(tokens) && VideoTokens(tokens) <= 1 && p <= |tokens|
    requires Before(tokens, p).video && Before(tokens, p).found.ssrc != ""
    ensures HomeLine(tokens, h) && h < p && Opens(tokens, v, p) && Opens(tokens, v, h)
  {
    v := SectionOpen(tokens, p);
    h := FindHome(tokens, p);
    var u := SectionOpen(tokens, h);
    if u != v {
      TwoVideos(tokens, u, v);
    }
  }

  /** With at most one m=video line the block extends the SSRC of the section it is put into. */
  lemma OneSectionHome(lines: seq<string>) returns (v: nat, h: nat)
    requires VideoLines(lines) <= 1 && Fires(lines)
    ensures HomeLine(ReadAll(lines), h) && ReadAll(lines)[h].ssrc == ScanOf(lines).found.ssrc
    ensures Opens(ReadAll(lines), v, SpliceAt(lines)) && Opens(ReadAll(lines), v, h) && h < SpliceAt(lines)
  {
    OneSectionSplice(lines);
    SpliceState(ReadAll(lines));
    ReadAllIsProper(lines);
    var g := Home(lines);
    v, h := OneHome(ReadAll(lines), SpliceAt(lines));
    assert h == g;
  }

  lemma {:induction false} TwoVideos(tokens: seq<Token>, u: nat, v: nat)
    requires u < |tokens| && v < |tokens| && u != v && tokens[u] == tokens[v] == Media("video")
    ensures VideoTokens(tokens) >= 2
  {
    var n := |tokens| - 1;
    if u < n && v < n {
      TwoVideos(tokens[..n], u, v);
    } else {
      OneVideo(tokens[..n], if u < n then u else v);
    }
  }

  lemma {:induction false} OneVideo(tokens: seq<Token>, u: nat)
    requires u < |tokens| && tokens[u] == Media("video")
    ensures VideoTokens(tokens) >= 1
  {
    if u < |tokens| - 1 { OneVideo(tokens[..|tokens| - 1], u); }
  }

  lemma OnlyVideoToken(tokens: seq<Token>, p: nat)
    requires p < |tokens| && VideoTokens(tokens) <= 1
    ensures tokens[p] == Media("video") ==> VideoTokens(tokens[..p]) == 0
  {
    assert tokens[..p + 1][..p] == tokens[..p];
    VideoTokensPrefix(tokens, p + 1);
  }

  /** Idempotence and rescan stability for every list with at most one m=video line. */
  lemma InjectIdempotent(n: int, m: int, lines: seq<string>, draws: nat -> Draw, again: nat -> Draw)
    requires VideoLines(lines) <= 1
    ensures 1 <= n <= 2 ==> Inject(m, Inject(n, lines, draws), again) == Inject(n, lines, draws)
    ensures ScanOf(Inject(n, lines, draws)).found == ScanOf(lines).found
  {
    if 1 <= n <= 2 {
      if Fires(lines) {
        OneSectionSplice(lines);
        RescanFindsTheSame(n, lines, draws);
      }
      if 1 <= m <= 2 {
        InjectTwice(n, m, lines, draws, again);
      }
    }
  }

  // ---------------------------------------------------------------- two video sections

  /** Three attribute lines in a first video section, then an empty second one. */
  function TwoSections(): seq<Token> {
    [Media("video"), Cname("1", "c"), Mslabel("1", "s"), Label("1", "l"),
     Media("audio"), Media("video"), Media("audio")]
  }

  /** A first video section of one line, then a second one, open to the end, with the SSRC. */
  function LateSsrc(): seq<Token> {
    [Media("video"), Other, Media("audio"), Media("video"), Cname("1", "c"), Mslabel("1", "s"), Label("1", "l")]
  }

  /** Every proper token is read from some line. */
  lemma Write(t: Token) returns (line: string)
    requires Proper(t)
    ensures Read(line) == t
  {
    match t
    case Media(k) => line := WriteMedia(k);
    case Fid(s, p) => FidReadsBack(s, p); line := FidLine(s, p);
    case Cname(s, v) => AttributeReadsBack(s, CNAME, v); line := AttributeLine(s, CNAME, v);
    case Mslabel(s, v) => AttributeReadsBack(s, MSLABEL, v); line := AttributeLine(s, MSLABEL, v);
    case Label(s, v) => AttributeReadsBack(s, LABEL, v); line := AttributeLine(s, LABEL, v);
    case Sim => SimIsSim(""); line := SIM + "";
    case Other => line := "";
  }

  lemma WriteMedia(kind: string) returns (line: string)
    requires Word(kind)
    ensures Read(line) == Media(kind)
  {
    line := "m=" + (kind + (" " + ""));
    assert SameNoCase("m=", "m=");
    MlineMeaning(line, kind);
  }

  lemma {:induction false} WriteAll(tokens: seq<Token>) returns (lines: seq<string>)
    requires AllProper(tokens)
    ensures ReadAll(lines) == tokens
  {
    lines := [];
    if tokens != [] {
      var k := |tokens| - 1;
      var init := WriteAll(tokens[..k]);
      var line := Write(tokens[k]);
      lines := init + [line];
      assert tokens == tokens[..k] + [tokens[k]];
      ReadBoth(init, line);
    }
  }

  lemma OpenSection(tokens: seq<Token>)
    requires tokens == TwoSections()
    ensures Before(tokens, 4) == Scan(Found("1", "", "c", "s", "l"), 0, true, false)
  {
    BeforeStep(tokens, 0);
    BeforeStep(tokens, 1);
    BeforeStep(tokens, 2);
    BeforeStep(tokens, 3);
  }

  lemma CloseSections(tokens: seq<Token>)
    requires tokens == TwoSections()
    ensures ScanAll(START, tokens, 0) == Scan(Found("1", "", "c", "s", "l"), 5, false, false)
  {
    OpenSection(tokens);
    BeforeStep(tokens, 4);
    BeforeStep(tokens, 5);
    BeforeStep(tokens, 6);
    assert tokens[..7] == tokens;
  }

  lemma TwoSectionsFire(tokens: seq<Token>)
    requires tokens == TwoSections()
    ensures ScanFires(ScanAll(START, tokens, 0)) && SplicesAtMline(tokens)
  {
    CloseSections(tokens);
  }

  lemma WriteTwoSections() returns (lines: seq<string>)
    ensures ReadAll(lines) == TwoSections()
  {
    var tokens := TwoSections();
    assert Word("video") && Word("audio") && Digits("1") && Word("c") && Word("s") && Word("l");
    assert forall i :: 0 <= i < 7 ==> Proper(tokens[i]);
    lines := WriteAll(tokens);
  }

  /** With two m=video lines a second injection can insert a second block. */
  lemma SecondInjectionCanFire(n: int, m: int, draws: nat -> Draw, again: nat -> Draw)
    returns (lines: seq<string>)
    requires 1 <= n <= 2 && 1 <= m <= 2
    ensures ReadAll(lines) == TwoSections()
    ensures Inject(m, Inject(n, lines, draws), again) != Inject(n, lines, draws)
  {
    lines := WriteTwoSections();
    TwoSectionsFire(ReadAll(lines));
    InjectTwice(n, m, lines, draws, again);
  }

  lemma FirstSection(tokens: seq<Token>)
    requires tokens == LateSsrc()
    ensures Before(tokens, 4) == Scan(NOTHING, 1, true, false) && Before(tokens, 1).found == NOTHING
  {
    BeforeStep(tokens, 0);
    BeforeStep(tokens, 1);
    BeforeStep(tokens, 2);
    BeforeStep(tokens, 3);
  }

  lemma ScanLate(tokens: seq<Token>)
    requires tokens == LateSsrc()
    ensures ScanAll(START, tokens, 0) == Scan(Found("1", "", "c", "s", "l"), 1, true, false)
    ensures Before(tokens, 1).found == NOTHING
  {
    FirstSection(tokens);
    BeforeStep(tokens, 4);
    BeforeStep(tokens, 5);
    BeforeStep(tokens, 6);
    assert tokens[..7] == tokens;
  }

  lemma WriteLate() returns (lines: seq<string>)
    ensures ReadAll(lines) == LateSsrc()
  {
    var tokens := LateSsrc();
    assert Word("video") && Word("audio") && Digits("1") && Word("c") && Word("s") && Word("l");
    assert forall i :: 0 <= i < 7 ==> Proper(tokens[i]);
    lines := WriteAll(tokens);
  }

  /** With two m=video lines the block can announce layers of a stream that a rescan no longer
      finds: the SSRC is in the second section, the splice in the first. */
  lemma RescanCanDiffer(n: int, draws: nat -> Draw) returns (lines: seq<string>)
    requires 1 <= n <= 2
    ensures ReadAll(lines) == LateSsrc() && Fires(lines)
    ensures ScanOf(Inject(n, lines, draws)).found != ScanOf(lines).found
  {
    lines := WriteLate();
    LateIs(lines);
    assert |Primary(draws, 0)| >= 9 by { GenSsrcValue(draws(0)); }
    RescanFindsTheSame(n, lines, draws);
  }

  lemma LateIs(lines: seq<string>)
    requires ReadAll(lines) == LateSsrc()
    ensures Fires(lines) && ScanOf(lines).found.ssrc == "1" && SpliceAt(lines) == 1
    ensures !SplicesAtMline(ReadAll(lines)) && Before(ReadAll(lines), 1).found.ssrc == ""
  {
    ScanLate(ReadAll(lines));
  }
}
