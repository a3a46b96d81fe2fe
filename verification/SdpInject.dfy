/**
 * The printing and splicing half of SDPUtils::injectSimulcast (core/utils/sdp_utils.cpp:89-125
 * and 154-232). Random SSRC draws are a parameter.
 */
module SdpInject {
  import opened Basics
  import opened SdpParse
  import opened SdpScan

  // ---------------------------------------------------------------- SSRC numbers

  /** A value of `uniform_int_distribution(1, 0xFFFFFFFF)`. */
  type Draw = x: int | 1 <= x <= 0xFFFF_FFFF witness 1

  function Digit(n: nat): char
    requires n < 10
  {
    ('0' as int + n) as char
  }

  function Decimal(n: nat): (s: string)
    ensures Digits(s)
  {
    if n < 10 then [Digit(n)] else Decimal(n / 10) + [Digit(n % 10)]
  }

  function Pad(s: string, width: nat): string
    decreases width - |s|
  {
    if |s| < width then Pad("0" + s, width) else s
  }

  /** `setw(9) << setfill('0') << value` */
  function GenSsrc(d: Draw): string { Pad(Decimal(d), 9) }

  function Value(s: string): nat
    requires forall i :: 0 <= i < |s| ==> IsDigit(s[i])
  {
    if s == "" then 0
    else
      var c := s[|s| - 1];
      assert IsDigit(c);
      Value(s[..|s| - 1]) * 10 + (c as int - '0' as int)
  }

  lemma {:induction false} DecimalValue(n: nat)
    ensures Value(Decimal(n)) == n
  {
    var s := Decimal(n);
    if n >= 10 {
      DecimalValue(n / 10);
      assert s[..|s| - 1] == Decimal(n / 10);
    } else {
      assert s[..0] == "";
    }
  }

  lemma {:induction false} ZeroFirst(s: string)
    requires forall i :: 0 <= i < |s| ==> IsDigit(s[i])
    ensures Value("0" + s) == Value(s)
  {
    var z := "0" + s;
    if s == "" {
      assert z[..0] == "";
    } else {
      assert z[..|z| - 1] == "0" + s[..|s| - 1];
      ZeroFirst(s[..|s| - 1]);
    }
  }

  lemma {:induction false} PadValue(s: string, width: nat)
    requires Digits(s)
    ensures Digits(Pad(s, width)) && Value(Pad(s, width)) == Value(s) && |Pad(s, width)| >= width
    decreases width - |s|
  {
    if |s| < width {
      ZeroFirst(s);
      PadValue("0" + s, width);
    }
  }

  lemma {:induction false} DecimalStarts(n: nat)
    requires n > 0
    ensures Decimal(n)[0] != '0'
  {
    if n >= 10 { DecimalStarts(n / 10); }
  }

  lemma {:induction false} PadLength(s: string, width: nat)
    ensures if |s| < width then |Pad(s, width)| == width else Pad(s, width) == s
    decreases width - |s|
  {
    if |s| < width { PadLength("0" + s, width); }
  }

  /** A drawn SSRC is printed as nine digits that denote the drawn number, or as more if it needs
      more, and then without zeros in front. */
  lemma GenSsrcValue(d: Draw)
    ensures Digits(GenSsrc(d)) && Value(GenSsrc(d)) == d
    ensures |GenSsrc(d)| == 9 || (|GenSsrc(d)| > 9 && GenSsrc(d)[0] != '0')
  {
    DecimalValue(d);
    DecimalStarts(d);
    PadValue(Decimal(d), 9);
    PadLength(Decimal(d), 9);
  }

  // ---------------------------------------------------------------- printing the block

  function FidLine(s: string, f: string): string { FID + (s + (" " + (f + "\r"))) }

  function AttributeLine(s: string, key: string, v: string): string { SSRC + (s + (key + (v + "\r"))) }

  function MsidLine(s: string, f: Found): string {
    SSRC + (s + (" msid:" + (f.mslabel + (" " + (f.track + "\r")))))
  }

  function SsrcLines(s: string, f: Found): seq<string> {
    [AttributeLine(s, CNAME, f.cname), MsidLine(s, f),
     AttributeLine(s, MSLABEL, f.mslabel), AttributeLine(s, LABEL, f.track)]
  }

  function Layer(s: string, t: string, f: Found): seq<string> {
    if f.fid != "" then [FidLine(s, t)] + SsrcLines(s, f) + SsrcLines(t, f) else SsrcLines(s, f)
  }

  /** The primary and the retransmission SSRC of layer `k`: both are always drawn. */
  function Primary(draws: nat -> Draw, k: nat): string { GenSsrc(draws(2 * k)) }
  function Partner(draws: nat -> Draw, k: nat): string { GenSsrc(draws(2 * k + 1)) }

  function Primaries(draws: nat -> Draw, n: nat): seq<string> {
    if n == 0 then [] else Primaries(draws, n - 1) + [Primary(draws, n - 1)]
  }

  function Partners(draws: nat -> Draw, n: nat): seq<string> {
    if n == 0 then [] else Partners(draws, n - 1) + [Partner(draws, n - 1)]
  }

  lemma {:induction false} DrawnNames(draws: nat -> Draw, n: nat)
    ensures |Primaries(draws, n)| == n && |Partners(draws, n)| == n
    ensures forall k :: 0 <= k < n ==>
              Digits(Primaries(draws, n)[k]) && Value(Primaries(draws, n)[k]) == draws(2 * k)
    ensures forall k :: 0 <= k < n ==>
              Digits(Partners(draws, n)[k]) && Value(Partners(draws, n)[k]) == draws(2 * k + 1)
  {
    if n > 0 {
      DrawnNames(draws, n - 1);
      DrawnOne(draws, n - 1);
    }
  }

  lemma DrawnOne(draws: nat -> Draw, k: nat)
    ensures Digits(Primary(draws, k)) && Value(Primary(draws, k)) == draws(2 * k)
    ensures Digits(Partner(draws, k)) && Value(Partner(draws, k)) == draws(2 * k + 1)
  {
    GenSsrcValue(draws(2 * k));
    GenSsrcValue(draws(2 * k + 1));
  }

  /** One layer for every primary `ps[k]` with its partner `ts[k]`. */
  function Layers(ps: seq<string>, ts: seq<string>, f: Found): seq<string>
    requires |ps| == |ts|
  {
    if ps == [] then []
    else
      var k := |ps| - 1;
      Layers(ps[..k], ts[..k], f) + Layer(ps[k], ts[k], f)
  }

  lemma LayersSnoc(ps: seq<string>, ts: seq<string>, f: Found, p: string, t: string)
    requires |ps| == |ts|
    ensures Layers(ps + [p], ts + [t], f) == Layers(ps, ts, f) + Layer(p, t, f)
  {
    assert (ps + [p])[..|ps|] == ps && (ts + [t])[..|ts|] == ts;
  }

  function SimLine(n: nat, f: Found, draws: nat -> Draw): string {
    SIM + (Join([f.ssrc] + Primaries(draws, n), " ") + "\r")
  }

  function Block(n: nat, f: Found, draws: nat -> Draw): seq<string> {
    DrawnNames(draws, n);
    Layers(Primaries(draws, n), Partners(draws, n), f) + [SimLine(n, f, draws)]
  }

  method InjectSsrc(lines: seq<string>, ssrc: string, f: Found) returns (out: seq<string>)
    ensures out == lines + SsrcLines(ssrc, f)
  {
    var assrc := "a=ssrc:" + ssrc;
    out := lines + [assrc + " cname:" + f.cname + "\r"];
    out := out + [assrc + " msid:" + f.mslabel + " " + f.track + "\r"];
    out := out + [assrc + " mslabel:" + f.mslabel + "\r"];
    out := out + [assrc + " label:" + f.track + "\r"];
    assert assrc + " cname:" + f.cname + "\r" == AttributeLine(ssrc, CNAME, f.cname);
    assert assrc + " msid:" + f.mslabel + " " + f.track + "\r" == MsidLine(ssrc, f);
    assert assrc + " mslabel:" + f.mslabel + "\r" == AttributeLine(ssrc, MSLABEL, f.mslabel);
    assert assrc + " label:" + f.track + "\r" == AttributeLine(ssrc, LABEL, f.track);
  }

  method InjectSsrcAndFid(lines: seq<string>, f: Found, draws: nat -> Draw, k: nat)
    returns (out: seq<string>, ssrc: string)
    ensures ssrc == Primary(draws, k)
    ensures out == lines + Layer(ssrc, Partner(draws, k), f)
  {
    ssrc := GenSsrc(draws(2 * k));
    var ssrcFid := GenSsrc(draws(2 * k + 1));
    out := lines;
    if f.fid != "" {
      out := out + ["a=ssrc-group:FID " + ssrc + " " + ssrcFid + "\r"];
      assert "a=ssrc-group:FID " + ssrc + " " + ssrcFid + "\r" == FidLine(ssrc, ssrcFid);
    }
    out := InjectSsrc(out, ssrc, f);
    if f.fid != "" {
      out := InjectSsrc(out, ssrcFid, f);
    }
  }

  /** The group text after `n` layers, before its final carriage return. */
  function Group(n: nat, f: Found, draws: nat -> Draw): string {
    SIM + Join([f.ssrc] + Primaries(draws, n), " ")
  }

  lemma GroupStep(n: nat, f: Found, draws: nat -> Draw)
    ensures Group(n + 1, f, draws) == Group(n, f, draws) + " " + Primary(draws, n)
  {
    var names := [f.ssrc] + Primaries(draws, n);
    JoinSnoc(names, Primary(draws, n), " ");
    assert names + [Primary(draws, n)] == [f.ssrc] + Primaries(draws, n + 1);
  }

  lemma GroupEnds(n: nat, f: Found, draws: nat -> Draw)
    ensures Group(n, f, draws) + "\r" == SimLine(n, f, draws)
  {
  }

  method PrintBlock(simulcast: nat, f: Found, draws: nat -> Draw) returns (block: seq<string>)
    ensures block == Block(simulcast, f, draws)
  {
    var group := "a=ssrc-group:SIM " + f.ssrc;
    block := [];
    assert [f.ssrc] + Primaries(draws, 0) == [f.ssrc];
    for i := 0 to simulcast
      invariant |Primaries(draws, i)| == |Partners(draws, i)|
      invariant block == Layers(Primaries(draws, i), Partners(draws, i), f)
      invariant group == Group(i, f, draws)
    {
      var assrc;
      block, assrc := InjectSsrcAndFid(block, f, draws, i);
      GroupStep(i, f, draws);
      LayersSnoc(Primaries(draws, i), Partners(draws, i), f, assrc, Partner(draws, i));
      group := group + " " + assrc;
    }
    GroupEnds(simulcast, f, draws);
    group := group + "\r";
    block := block + [group];
  }

  // ---------------------------------------------------------------- the injection

  predicate Complete(f: Found) { f.ssrc != "" && f.cname != "" && f.mslabel != "" && f.track != "" }

  predicate ScanFires(st: Scan) { !st.sim && Complete(st.found) }

  predicate Fires(lines: seq<string>) { ScanFires(ScanOf(lines)) }

  /** Where the block goes: `index2inject ? begin() + index2inject : end()`. */
  function SpliceIndex(tokens: seq<Token>): (p: nat)
    ensures p <= |tokens|
  {
    SpliceInRange(tokens);
    var st := ScanAll(START, tokens, 0);
    if st.inject != 0 then st.inject else |tokens|
  }

  function SpliceAt(lines: seq<string>): (p: nat)
    ensures p <= |lines|
  {
    SpliceIndex(ReadAll(lines))
  }

  function BlockFor(n: nat, lines: seq<string>, draws: nat -> Draw): seq<string> {
    Block(n, ScanOf(lines).found, draws)
  }

  function Inject(n: int, lines: seq<string>, draws: nat -> Draw): seq<string> {
    if 1 <= n <= 2 && Fires(lines) then
      lines[..SpliceAt(lines)] + BlockFor(n, lines, draws) + lines[SpliceAt(lines)..]
    else lines
  }

  method InjectSimulcast(simulcast: int, lines: seq<string>, draws: nat -> Draw) returns (out: seq<string>)
    ensures out == Inject(simulcast, lines, draws)
  {
    out := lines;
    if simulcast < 1 || simulcast > 2 {
      return;
    }
    var st := ScanLines(lines);
    var f := st.found;
    if !st.sim && |f.ssrc| > 0 && |f.cname| > 0 && |f.mslabel| > 0 && |f.track| > 0 {
      var block := PrintBlock(simulcast, f, draws);
      var at := if st.inject != 0 then st.inject else |lines|;
      InjectFires(simulcast, lines, draws, st, at);
      out := lines[..at] + block + lines[at..];
    }
  }

  lemma InjectFires(n: int, lines: seq<string>, draws: nat -> Draw, st: Scan, at: int)
    requires 1 <= n <= 2 && st == ScanOf(lines) && ScanFires(st)
    requires at == if st.inject != 0 then st.inject else |lines|
    ensures 0 <= at <= |lines| && Inject(n, lines, draws) == lines[..at] + Block(n, st.found, draws) + lines[at..]
  {
    SpliceInRange(ReadAll(lines));
  }
}
