/**
 * What the scan of SDPUtils::injectSimulcast finds (core/utils/sdp_utils.cpp:160-214), said without
 * the scan: the SSRC of the first line of a video section that announces one, the first cname,
 * mslabel and label that belong to it, whether a video section has a SIM group, and where the last
 * video section ended.
 */
module SdpFinds {
  import opened SdpParse
  import opened SdpScan
  import opened SdpInject

  /** Line `k` stands in a video section: the last m-line before it is an m=video line that does not
      itself end a video section. */
  predicate Open(tokens: seq<Token>, k: nat)
    requires k <= |tokens|
    decreases k
  {
    && k > 0
    && if tokens[k - 1].Media? then tokens[k - 1] == Media("video") && !Open(tokens, k - 1) else Open(tokens, k - 1)
  }

  lemma {:induction false} OpenIs(tokens: seq<Token>, k: nat)
    requires k <= |tokens|
    ensures Before(tokens, k).video == Open(tokens, k)
  {
    if k > 0 {
      OpenIs(tokens, k - 1);
      BeforeStep(tokens, k - 1);
    } else {
      assert tokens[..0] == [];
    }
  }

  // ---------------------------------------------------------------- the SIM group and the splice

  predicate OpenSim(tokens: seq<Token>, i: nat) { i < |tokens| && Open(tokens, i) && tokens[i].Sim? }

  lemma {:induction false} SimIff(tokens: seq<Token>, k: nat)
    requires k <= |tokens|
    ensures Before(tokens, k).sim <==> exists i: nat :: i < k && OpenSim(tokens, i)
  {
    if k > 0 {
      SimIff(tokens, k - 1);
      BeforeStep(tokens, k - 1);
      OpenIs(tokens, k - 1);
      assert Before(tokens, k).sim <==> Before(tokens, k - 1).sim || OpenSim(tokens, k - 1);
    } else {
      assert tokens[..0] == [];
    }
  }

  /** An m-line that ends a video section. */
  predicate Closes(tokens: seq<Token>, i: nat) { i < |tokens| && Open(tokens, i) && tokens[i].Media? }

  /** The index is one less than the last such line before `k`, or 0 if there is none. */
  predicate IndexIs(tokens: seq<Token>, k: nat, p: int) {
    || (p == 0 && forall i: nat :: i < k ==> !Closes(tokens, i))
    || (0 <= p < k - 1 && Closes(tokens, p + 1) && forall i: nat :: p + 1 < i < k ==> !Closes(tokens, i))
  }

  lemma {:induction false} InjectIs(tokens: seq<Token>, k: nat)
    requires k <= |tokens|
    ensures IndexIs(tokens, k, Before(tokens, k).inject)
  {
    if k > 0 {
      InjectIs(tokens, k - 1);
      BeforeStep(tokens, k - 1);
      OpenIs(tokens, k - 1);
    } else {
      assert tokens[..0] == [];
    }
  }

  // ---------------------------------------------------------------- the attributes

  datatype Attribute = ACname | AMslabel | ALabel

  /** Line `i` of a video section has that attribute of SSRC `s`. */
  predicate Gives(tokens: seq<Token>, i: nat, s: string, a: Attribute) {
    && i < |tokens| && Open(tokens, i)
    && match a
       case ACname => tokens[i].Cname? && tokens[i].ssrc == s
       case AMslabel => tokens[i].Mslabel? && tokens[i].ssrc == s
       case ALabel => tokens[i].Label? && tokens[i].ssrc == s
  }

  /** `v` is the first value of that attribute of `s` among the lines from `h` to before `k`, "" if
      there is none. */
  ghost predicate FirstIs(tokens: seq<Token>, h: nat, k: nat, s: string, a: Attribute, v: string) {
    if v == "" then forall i: nat :: h <= i < k ==> !Gives(tokens, i, s, a)
    else exists i: nat :: FirstAt(tokens, h, k, s, a, v, i)
  }

  predicate FirstAt(tokens: seq<Token>, h: nat, k: nat, s: string, a: Attribute, v: string, i: nat) {
    h <= i < k && Gives(tokens, i, s, a) && tokens[i].value == v && forall j: nat :: h <= j < i ==> !Gives(tokens, j, s, a)
  }

  lemma FirstExtends(tokens: seq<Token>, h: nat, k: nat, s: string, a: Attribute, v: string, w: string)
    requires FirstIs(tokens, h, k, s, a, v) && h <= k
    requires Gives(tokens, k, s, a) ==> tokens[k].value != ""
    requires w == if v == "" && Gives(tokens, k, s, a) then tokens[k].value else v
    ensures FirstIs(tokens, h, k + 1, s, a, w)
  {
    if v != "" {
      var i: nat :| FirstAt(tokens, h, k, s, a, v, i);
      assert FirstAt(tokens, h, k + 1, s, a, w, i);
    } else if Gives(tokens, k, s, a) {
      assert FirstAt(tokens, h, k + 1, s, a, w, k);
    }
  }

  /** What is found from home line `h` on, before line `k`. */
  ghost predicate FoundFrom(tokens: seq<Token>, h: nat, k: nat, f: Found) {
    && h < |tokens| && (tokens[h].Fid? || tokens[h].Cname?)
    && f.ssrc == tokens[h].ssrc && f.fid == (if tokens[h].Fid? then tokens[h].partner else "")
    && FirstIs(tokens, h, k, f.ssrc, ACname, f.cname)
    && FirstIs(tokens, h, k, f.ssrc, AMslabel, f.mslabel)
    && FirstIs(tokens, h, k, f.ssrc, ALabel, f.track)
  }

  lemma {:induction false} NothingBefore(tokens: seq<Token>, h: nat, k: nat)
    requires HomeLine(tokens, h) && k <= h
    ensures Before(tokens, k).found == NOTHING
  {
    if k > 0 {
      NothingBefore(tokens, h, k - 1);
      BeforeStep(tokens, k - 1);
      assert !(Before(tokens, k - 1).video && Announces(tokens[k - 1]));
    } else {
      assert tokens[..0] == [];
    }
  }

  lemma FoundStep(tokens: seq<Token>, k: nat, f: Found)
    requires k < |tokens| && f == Before(tokens, k).found
    ensures Before(tokens, k + 1).found == if Open(tokens, k) && !tokens[k].Media? then Latch(f, tokens[k]) else f
  {
    BeforeStep(tokens, k);
    OpenIs(tokens, k);
  }

  lemma HomeFinds(tokens: seq<Token>, h: nat)
    requires HomeLine(tokens, h) && AllProper(tokens)
    ensures FoundFrom(tokens, h, h + 1, Before(tokens, h + 1).found)
  {
    NothingBefore(tokens, h, h);
    FoundStep(tokens, h, NOTHING);
    OpenIs(tokens, h);
    assert Proper(tokens[h]);
    FirstFound(tokens, h, Latch(NOTHING, tokens[h]));
  }

  lemma FirstFound(tokens: seq<Token>, h: nat, f: Found)
    requires h < |tokens| && Open(tokens, h) && (tokens[h].Fid? || tokens[h].Cname?) && Proper(tokens[h])
    requires f == Latch(NOTHING, tokens[h])
    ensures FoundFrom(tokens, h, h + 1, f)
  {
    if tokens[h].Cname? { assert FirstAt(tokens, h, h + 1, f.ssrc, ACname, f.cname, h); }
  }

  lemma StepFinds(tokens: seq<Token>, h: nat, k: nat, f: Found, g: Found)
    requires h < k < |tokens| && FoundFrom(tokens, h, k, f) && f.ssrc != "" && Proper(tokens[k])
    requires g == if Open(tokens, k) && !tokens[k].Media? then Latch(f, tokens[k]) else f
    ensures FoundFrom(tokens, h, k + 1, g)
  {
    FirstExtends(tokens, h, k, f.ssrc, ACname, f.cname, g.cname);
    FirstExtends(tokens, h, k, f.ssrc, AMslabel, f.mslabel, g.mslabel);
    FirstExtends(tokens, h, k, f.ssrc, ALabel, f.track, g.track);
  }

  lemma NextFound(tokens: seq<Token>, h: nat, k: nat, f: Found) returns (g: Found)
    requires h < k < |tokens| && Proper(tokens[k]) && f.ssrc != "" && f == Before(tokens, k).found && FoundFrom(tokens, h, k, f)
    ensures g == Before(tokens, k + 1).found && FoundFrom(tokens, h, k + 1, g) && g.ssrc == f.ssrc
  {
    FoundStep(tokens, k, f);
    g := if Open(tokens, k) && !tokens[k].Media? then Latch(f, tokens[k]) else f;
    StepFinds(tokens, h, k, f, g);
  }

  lemma {:induction false} FoundOnwards(tokens: seq<Token>, h: nat, k: nat, first: Found) returns (f: Found)
    requires h < k <= |tokens| && AllProper(tokens)
    requires first == Before(tokens, h + 1).found && FoundFrom(tokens, h, h + 1, first) && first.ssrc != ""
    ensures f == Before(tokens, k).found && FoundFrom(tokens, h, k, f) && f.ssrc == first.ssrc
  {
    if k == h + 1 {
      f := first;
    } else {
      var before := FoundOnwards(tokens, h, k - 1, first);
      assert Proper(tokens[k - 1]);
      f := NextFound(tokens, h, k - 1, before);
    }
  }

  lemma HomeDecides(tokens: seq<Token>, h: nat, k: nat)
    requires HomeLine(tokens, h) && h < k <= |tokens| && AllProper(tokens)
    ensures FoundFrom(tokens, h, k, Before(tokens, k).found)
  {
    HomeFinds(tokens, h);
    assert Proper(tokens[h]);
    var f := FoundOnwards(tokens, h, k, Before(tokens, h + 1).found);
  }

  /** Line `h` is the first of a video section that announces an SSRC. */
  predicate Home(tokens: seq<Token>, h: nat) {
    && h < |tokens| && Open(tokens, h) && (tokens[h].Fid? || tokens[h].Cname?)
    && forall k: nat :: k < h ==> !(Open(tokens, k) && (tokens[k].Fid? || tokens[k].Cname?))
  }

  lemma HomeIs(tokens: seq<Token>, h: nat)
    ensures Home(tokens, h) <==> HomeLine(tokens, h)
  {
    forall k: nat | k <= |tokens| ensures Before(tokens, k).video == Open(tokens, k) { OpenIs(tokens, k); }
  }

  // ---------------------------------------------------------------- the whole scan

  /** The scan of a list finds exactly this: nothing if no line of a video section announces an SSRC;
      otherwise the SSRC (and FID partner) of the first such line with the first cname, mslabel and
      label of that SSRC from there on. It sees a SIM group if a video section has one, and its index
      is one less than the last m-line that ended a video section. */
  lemma ScanMeans(lines: seq<string>)
    ensures var tokens, st := ReadAll(lines), ScanOf(lines);
            && (st.sim <==> exists i: nat :: OpenSim(tokens, i))
            && IndexIs(tokens, |tokens|, st.inject)
            && (forall h: nat :: Home(tokens, h) ==> FoundFrom(tokens, h, |tokens|, st.found))
            && ((forall h: nat :: !Home(tokens, h)) ==> st.found == NOTHING)
  {
    var tokens, st := ReadAll(lines), ScanOf(lines);
    var n := |tokens|;
    assert tokens[..n] == tokens;
    ReadAllIsProper(lines);
    SimIff(tokens, n);
    InjectIs(tokens, n);
    forall h: nat | Home(tokens, h) ensures FoundFrom(tokens, h, n, st.found) {
      HomeIs(tokens, h);
      HomeDecides(tokens, h, n);
    }
    ScanKeeps(START, tokens, 0);
    if st.found.ssrc != "" {
      var h := FindHome(tokens, n);
      HomeIs(tokens, h);
    }
  }

  /** Injection changes a list if and only if the count is 1 or 2 and the scan finds all it needs. */
  lemma InjectsIff(n: int, lines: seq<string>, draws: nat -> Draw)
    ensures var st := ScanOf(lines);
            Inject(n, lines, draws) != lines <==>
            (n == 1 || n == 2) && !st.sim && st.found.ssrc != "" && st.found.cname != "" && st.found.mslabel != "" && st.found.track != ""
  {
    if 1 <= n <= 2 && Fires(lines) {
      assert |BlockFor(n, lines, draws)| >= 1;
      assert |Inject(n, lines, draws)| > |lines|;
    }
  }
}
