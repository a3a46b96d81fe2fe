/**
 * The latching scan of SDPUtils::injectSimulcast (core/utils/sdp_utils.cpp:160-214): one pass
 * over the lines that remembers the first SSRC of a video section with its FID partner, cname,
 * mslabel and label, where the last video section ended, and whether a SIM group is present.
 */
module SdpScan {
  import opened SdpParse

  /** What the scan latches (`track` is the label attribute); "" means "not seen yet". */
  datatype Found = Found(ssrc: string, fid: string, cname: string, mslabel: string, track: string)

  datatype Scan = Scan(found: Found, inject: int, video: bool, sim: bool)

  const NOTHING := Found("", "", "", "", "")
  const START := Scan(NOTHING, 0, false, false)

  /** A line of a video section: which of the latches it closes. */
  function Latch(f: Found, t: Token): Found {
    match t
    case Fid(s, p) => if f.ssrc == "" then f.(ssrc := s, fid := p) else f
    case Cname(s, v) =>
      if f.ssrc == "" then f.(ssrc := s, cname := v)
      else if f.cname == "" && s == f.ssrc then f.(cname := v) else f
    case Mslabel(s, v) => if f.ssrc != "" && f.mslabel == "" && s == f.ssrc then f.(mslabel := v) else f
    case Label(s, v) => if f.ssrc != "" && f.track == "" && s == f.ssrc then f.(track := v) else f
    case Media(_) => f
    case Sim => f
    case Other => f
  }

  /** The effect of line number `i` on the scan. */
  function ScanLine(st: Scan, t: Token, i: int): Scan {
    if t == Media("video") && !st.video then st.(video := true)
    else if t.Media? && st.video then st.(video := false, inject := i - 1)
    else if !st.video then st
    else st.(found := Latch(st.found, t), sim := st.sim || t.Sim?)
  }

  /** Scanning `tokens`, the first of which is line number `base`. */
  function ScanAll(st: Scan, tokens: seq<Token>, base: int): Scan {
    if tokens == [] then st
    else
      var k := |tokens| - 1;
      ScanLine(ScanAll(st, tokens[..k], base), tokens[k], base + k)
  }

  function ScanOf(lines: seq<string>): Scan { ScanAll(START, ReadAll(lines), 0) }

  /** One round of the loop, with its local variables and its early exits. */
  method ScanOneLine(st: Scan, line: string, i: int) returns (r: Scan)
    ensures r == ScanLine(st, Read(line), i)
  {
    ReadIsExact(line);
    ReadIsProper(line);
    r := st;
    var mtype := ParseMline(line);
    if mtype.Some? {
      if !st.video && mtype.value == "video" {
        return st.(video := true);
      }
      if st.video {
        return st.(video := false, inject := i - 1);
      }
    }
    if !st.video {
      return;
    }
    if st.found.ssrc == "" {
      var fid := ParseFid(line);
      if fid.Some? {
        return st.(found := st.found.(ssrc := fid.value.0, fid := fid.value.1));
      }
      var first := ParseCname(line);
      if first.Some? {
        r := st.(found := st.found.(ssrc := first.value.0, cname := first.value.1));
      }
    }
    var f := r.found;
    if |f.ssrc| > 0 {
      var c := ParseCname(line);
      if f.cname == "" && c.Some? && c.value.0 == f.ssrc {
        return r.(found := f.(cname := c.value.1));
      }
      var m := ParseMslabel(line);
      if f.mslabel == "" && m.Some? && m.value.0 == f.ssrc {
        return r.(found := f.(mslabel := m.value.1));
      }
      var l := ParseLabel(line);
      if f.track == "" && l.Some? && l.value.0 == f.ssrc {
        return r.(found := f.(track := l.value.1));
      }
    }
    if IsSim(line) {
      r := r.(sim := true);
    }
  }

  /** The loop over all lines. */
  method ScanLines(lines: seq<string>) returns (st: Scan)
    ensures st == ScanOf(lines)
  {
    st := START;
    for i := 0 to |lines|
      invariant st == ScanAll(START, ReadAll(lines[..i]), 0)
    {
      ReadAllCut(lines[..i + 1], i);
      assert lines[..i + 1][..i] == lines[..i];
      st := ScanOneLine(st, lines[i], i);
    }
    assert lines[..|lines|] == lines;
  }

  // ---------------------------------------------------------------- laws of the scan

  lemma {:induction false} ScanConcat(st: Scan, a: seq<Token>, b: seq<Token>, base: int)
    ensures ScanAll(st, a + b, base) == ScanAll(ScanAll(st, a, base), b, base + |a|)
  {
    if b == [] {
      assert a + b == a;
    } else {
      var k := |b| - 1;
      assert (a + b)[..|a| + k] == a + b[..k];
      ScanConcat(st, a, b[..k], base);
    }
  }

  /** The state reached before line `k`. */
  function Before(tokens: seq<Token>, k: nat): Scan
    requires k <= |tokens|
  {
    ScanAll(START, tokens[..k], 0)
  }

  lemma BeforeStep(tokens: seq<Token>, k: nat)
    requires k < |tokens|
    ensures Before(tokens, k + 1) == ScanLine(Before(tokens, k), tokens[k], k)
  {
    assert tokens[..k + 1][..k] == tokens[..k];
  }

  /** Values are latched only by matches, so they are words; no label is latched without an SSRC. */
  predicate Clean(f: Found) {
    && (f.ssrc == "" || Digits(f.ssrc))
    && (f.fid == "" || Digits(f.fid))
    && (f.cname == "" || Word(f.cname))
    && (f.mslabel == "" || Word(f.mslabel))
    && (f.track == "" || Word(f.track))
    && (f.ssrc == "" ==> f == NOTHING)
  }

  lemma LatchClean(f: Found, t: Token)
    requires Clean(f) && Proper(t)
    ensures Clean(Latch(f, t))
  {
  }

  /** A latched value is never changed: `g` agrees with `f` wherever `f` has a value. */
  predicate Keeps(f: Found, g: Found) {
    && (f.ssrc != "" ==> g.ssrc == f.ssrc && g.fid == f.fid)
    && (f.cname != "" ==> g.cname == f.cname)
    && (f.mslabel != "" ==> g.mslabel == f.mslabel)
    && (f.track != "" ==> g.track == f.track)
  }

  lemma {:induction false} ScanKeeps(st: Scan, tokens: seq<Token>, base: int)
    requires Clean(st.found) && AllProper(tokens)
    ensures Clean(ScanAll(st, tokens, base).found)
    ensures Keeps(st.found, ScanAll(st, tokens, base).found)
    ensures st.sim ==> ScanAll(st, tokens, base).sim
  {
    if tokens != [] {
      var k := |tokens| - 1;
      ScanKeeps(st, tokens[..k], base);
      LatchClean(ScanAll(st, tokens[..k], base).found, tokens[k]);
    }
  }

  /** Line numbers only matter for the splice index. */
  lemma {:induction false} ScanIgnoresNumbers(a: Scan, b: Scan, tokens: seq<Token>, i: int, j: int)
    requires a.found == b.found && a.video == b.video && a.sim == b.sim
    ensures var r, s := ScanAll(a, tokens, i), ScanAll(b, tokens, j);
            r.found == s.found && r.video == s.video && r.sim == s.sim
  {
    if tokens != [] {
      ScanIgnoresNumbers(a, b, tokens[..|tokens| - 1], i, j);
    }
  }

  /** A scan index other than 0 marks the line before the m-line that ended a video section, and
      with no index every latch is still inside the section being scanned. */
  lemma {:induction false} SpliceInvariant(tokens: seq<Token>, k: nat)
    requires k <= |tokens|
    ensures var st := Before(tokens, k);
            && 0 <= st.inject
            && (st.video ==> 1 <= k)
            && (st.inject != 0 ==>
                  st.inject + 1 < k && Before(tokens, st.inject + 1).video && tokens[st.inject + 1].Media?)
            && (st.inject == 0 && !st.video ==> st.found == NOTHING)
            && (k <= 1 ==> st.found == NOTHING)
  {
    if k > 0 {
      SpliceInvariant(tokens, k - 1);
      BeforeStep(tokens, k - 1);
    }
  }

  lemma {:induction false} SpliceInRange(tokens: seq<Token>)
    ensures 0 <= ScanAll(START, tokens, 0).inject <= |tokens|
  {
    SpliceInvariant(tokens, |tokens|);
    assert tokens[..|tokens|] == tokens;
  }

  /** Inside a video section there is the m=video line that opened it and no m-line since. */
  lemma {:induction false} SectionOpen(tokens: seq<Token>, k: nat) returns (v: nat)
    requires k <= |tokens| && Before(tokens, k).video
    ensures v < k && tokens[v] == Media("video")
    ensures forall j :: v < j < k ==> !tokens[j].Media?
  {
    SpliceInvariant(tokens, k);
    BeforeStep(tokens, k - 1);
    if Before(tokens, k - 1).video {
      v := SectionOpen(tokens, k - 1);
    } else {
      v := k - 1;
    }
  }

  // ---------------------------------------------------------------- whose SSRC it is

  /** A line that can latch an SSRC. */
  predicate Announces(t: Token) { t.Fid? || t.Cname? }

  /** Line `h` is the first of a video section that announces an SSRC. */
  predicate HomeLine(tokens: seq<Token>, h: nat) {
    && h < |tokens| && Before(tokens, h).video && Announces(tokens[h])
    && forall k: nat :: k < h ==> !(Before(tokens, k).video && Announces(tokens[k]))
  }

  /** The SSRC that is latched is the one of that line, and it is latched there. */
  lemma {:induction false} FindHome(tokens: seq<Token>, k: nat) returns (h: nat)
    requires k <= |tokens| && AllProper(tokens) && Before(tokens, k).found.ssrc != ""
    ensures h < k && HomeLine(tokens, h) && tokens[h].ssrc == Before(tokens, k).found.ssrc
  {
    SpliceInvariant(tokens, k);
    BeforeStep(tokens, k - 1);
    if Before(tokens, k - 1).found.ssrc != "" {
      h := FindHome(tokens, k - 1);
    } else {
      h := k - 1;
      NoneAnnounced(tokens, h);
    }
  }

  lemma NoneAnnounced(tokens: seq<Token>, h: nat)
    requires h <= |tokens| && AllProper(tokens) && Before(tokens, h).found.ssrc == ""
    ensures forall k: nat :: k < h ==> !(Before(tokens, k).video && Announces(tokens[k]))
  {
    forall i: nat | i < h ensures !(Before(tokens, i).video && Announces(tokens[i])) {
      NotAnnounced(tokens, i, h);
    }
  }

  lemma {:induction false} NotAnnounced(tokens: seq<Token>, i: nat, k: nat)
    requires i < k <= |tokens| && AllProper(tokens) && Before(tokens, k).found.ssrc == ""
    ensures !(Before(tokens, i).video && Announces(tokens[i]))
  {
    BeforeStep(tokens, k - 1);
    if i < k - 1 {
      NotAnnounced(tokens, i, k - 1);
    } else {
      assert Proper(tokens[i]);
    }
  }

  /** Line `v` is the last m-line before line `k`: the one that opened its section. */
  predicate Opens(tokens: seq<Token>, v: nat, k: nat) {
    v < k <= |tokens| && tokens[v].Media? && forall j :: v < j < k ==> !tokens[j].Media?
  }
}
