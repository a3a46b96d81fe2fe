/**
 * The line recognisers of core/utils/sdp_utils.cpp. Each regular expression is a matcher on
 * strings, and each matcher is proved equal to the decomposition its expression denotes.
 */
module SdpParse {
  import opened Basics

  /** `\s` of the ECMAScript grammar in the C locale. */
  predicate IsSpace(c: char) {
    c == ' ' || c == '\t' || c == '\n' || c == '\r' || c == 11 as char || c == 12 as char
  }

  predicate IsDigit(c: char) { '0' <= c <= '9' }

  /** Case folding as `std::regex::icase` does it in the C locale. */
  function Lower(c: char): char {
    if 'A' <= c <= 'Z' then (c as int + 32) as char else c
  }

  /** The classes and the folding by character code: white space is tab to carriage return and blank,
      digits are the ten ASCII ones, and only the 26 capital letters are folded. */
  lemma CharacterClasses(c: char)
    ensures IsSpace(c) <==> 9 <= c as int <= 13 || c as int == 32
    ensures IsDigit(c) <==> c in "0123456789"
    ensures Lower(c) as int == if 65 <= c as int <= 90 then c as int + 32 else c as int
  {
    assert IsDigit(c) ==> c == "0123456789"[c as int - 48];
  }

  /** `s` is a spelling of the literal `lit`, up to case. */
  predicate SameNoCase(s: string, lit: string) {
    |s| == |lit| && forall i :: 0 <= i < |lit| ==> Lower(s[i]) == Lower(lit[i])
  }

  predicate StartsNoCase(s: string, lit: string) {
    |s| >= |lit| && SameNoCase(s[..|lit|], lit)
  }

  /** `\d+` */
  predicate Digits(s: string) { s != "" && forall i :: 0 <= i < |s| ==> IsDigit(s[i]) }

  /** `\S+` */
  predicate Word(s: string) { s != "" && forall i :: 0 <= i < |s| ==> !IsSpace(s[i]) }

  /** Length of the longest run of characters of `s` that satisfy `p`. */
  function Run(s: string, p: char -> bool): (n: nat)
    ensures n <= |s|
    ensures forall i :: 0 <= i < n ==> p(s[i])
    ensures n < |s| ==> !p(s[n])
  {
    if s == "" || !p(s[0]) then 0 else 1 + Run(s[1..], p)
  }

  lemma RunOfConcat(a: string, b: string, p: char -> bool)
    requires forall i :: 0 <= i < |a| ==> p(a[i])
    requires b != "" && !p(b[0])
    ensures Run(a + b, p) == |a|
  {
    var n := Run(a + b, p);
    assert (a + b)[|a|] == b[0];
    assert forall i :: 0 <= i < |a| ==> (a + b)[i] == a[i];
  }

  lemma Cut(a: string, b: string)
    ensures (a + b)[..|a|] == a && (a + b)[|a|..] == b
  {
  }

  /** `^m=(\S+) `, searched: the media type of an m-line. */
  function ParseMline(line: string): Option<string> {
    if !StartsNoCase(line, "m=") then None
    else
      var rest := line[2..];
      var n := Run(rest, c => !IsSpace(c));
      if 0 < n < |rest| && rest[n] == ' ' then Some(rest[..n]) else None
  }

  lemma MlineMeaning(line: string, kind: string)
    ensures ParseMline(line) == Some(kind) <==>
            Word(kind) && exists p, rest :: SameNoCase(p, "m=") && line == p + (kind + (" " + rest))
  {
    if ParseMline(line) == Some(kind) {
      var n := |kind|;
      var rest := line[2..];
      assert rest == kind + (" " + rest[n + 1..]);
      assert line == line[..2] + rest;
    }
    if Word(kind) && exists p, rest :: SameNoCase(p, "m=") && line == p + (kind + (" " + rest)) {
      var p, rest :| SameNoCase(p, "m=") && line == p + (kind + (" " + rest));
      Cut(p, kind + (" " + rest));
      Cut(kind, " " + rest);
      RunOfConcat(kind, " " + rest, c => !IsSpace(c));
    }
  }

  const FID := "a=ssrc-group:FID "

  /** `a=ssrc-group:FID (\d+) (\d+)\r`, matched against the whole line. */
  function ParseFid(line: string): Option<(string, string)> {
    if !StartsNoCase(line, FID) then None else ParsePair(line[|FID|..])
  }

  /** `(\d+) (\d+)\r` */
  function ParsePair(text: string): Option<(string, string)> {
    var n := Run(text, IsDigit);
    if n == 0 || n == |text| || text[n] != ' ' then None
    else
      var tail := text[n + 1..];
      var m := Run(tail, IsDigit);
      if m > 0 && tail[m..] == "\r" then Some((text[..n], tail[..m])) else None
  }

  /** `line` is a spelling of the FID expression with the two groups `s` and `f`. */
  ghost predicate SpellsFid(line: string, s: string, f: string) {
    Digits(s) && Digits(f) && exists p :: SameNoCase(p, FID) && line == p + (s + (" " + (f + "\r")))
  }

  lemma FidMeaning(line: string, s: string, f: string)
    ensures ParseFid(line) == Some((s, f)) <==> SpellsFid(line, s, f)
  {
    if ParseFid(line) == Some((s, f)) {
      FidReads(line, s, f);
    }
    if SpellsFid(line, s, f) {
      var p :| SameNoCase(p, FID) && line == p + (s + (" " + (f + "\r")));
      FidPrints(p, s, f);
    }
  }

  lemma FidReads(line: string, s: string, f: string)
    requires ParseFid(line) == Some((s, f))
    ensures SpellsFid(line, s, f)
  {
    var p, rest := line[..|FID|], line[|FID|..];
    PairReads(rest, s, f);
    assert line == p + rest;
    SpelledFid(line, p, s, f);
  }

  lemma PairReads(text: string, s: string, f: string)
    requires ParsePair(text) == Some((s, f))
    ensures Digits(s) && Digits(f) && text == s + (" " + (f + "\r"))
  {
    var n := Run(text, IsDigit);
    var tail := text[n + 1..];
    assert |s| == n && f == tail[..|f|];
    assert tail == f + "\r" by { assert tail == tail[..|f|] + tail[|f|..]; }
    assert text == s + (" " + tail) by { Around(text, n); }
  }

  lemma Around(text: string, n: nat)
    requires n < |text|
    ensures text == text[..n] + ([text[n]] + text[n + 1..])
  {
  }

  lemma SpelledFid(line: string, p: string, s: string, f: string)
    requires Digits(s) && Digits(f) && SameNoCase(p, FID) && line == p + (s + (" " + (f + "\r")))
    ensures SpellsFid(line, s, f)
  {
  }

  lemma FidPrints(p: string, s: string, f: string)
    requires Digits(s) && Digits(f) && SameNoCase(p, FID)
    ensures ParseFid(p + (s + (" " + (f + "\r")))) == Some((s, f))
  {
    Cut(p, s + (" " + (f + "\r")));
    PairPrints(s, f);
  }

  lemma PairPrints(s: string, f: string)
    requires Digits(s) && Digits(f)
    ensures ParsePair(s + (" " + (f + "\r"))) == Some((s, f))
  {
    var tail := f + "\r";
    var rest := s + (" " + tail);
    Cut(s, " " + tail);
    Cut(" ", tail);
    RunOfConcat(s, " " + tail, IsDigit);
    assert rest[|s| + 1..] == (" " + tail)[1..];
    RunOfConcat(f, "\r", IsDigit);
    Cut(f, "\r");
  }

  const SSRC := "a=ssrc:"
  const CNAME := " cname:"
  const MSLABEL := " mslabel:"
  const LABEL := " label:"

  predicate AttributeKey(key: string) { key == CNAME || key == MSLABEL || key == LABEL }

  /** `a=ssrc:(\d+) KEY:(\S+)\r`, matched against the whole line. */
  function ParseAttribute(line: string, key: string): Option<(string, string)> {
    if !StartsNoCase(line, SSRC) then None
    else
      var rest := line[|SSRC|..];
      var n := Run(rest, IsDigit);
      var tail := rest[n..];
      if n == 0 || !StartsNoCase(tail, key) then None
      else
        var v := tail[|key|..];
        if |v| > 1 && v[|v| - 1] == '\r' && Word(v[..|v| - 1]) then Some((rest[..n], v[..|v| - 1]))
        else None
  }

  function ParseCname(line: string): Option<(string, string)> { ParseAttribute(line, CNAME) }
  function ParseMslabel(line: string): Option<(string, string)> { ParseAttribute(line, MSLABEL) }
  function ParseLabel(line: string): Option<(string, string)> { ParseAttribute(line, LABEL) }

  /** `line` is a spelling of the attribute expression with the two groups `s` and `v`. */
  ghost predicate SpellsAttribute(line: string, key: string, s: string, v: string) {
    Digits(s) && Word(v) &&
    exists p, k :: SameNoCase(p, SSRC) && SameNoCase(k, key) && line == p + (s + (k + (v + "\r")))
  }

  lemma AttributeMeaning(line: string, key: string, s: string, v: string)
    requires AttributeKey(key)
    ensures ParseAttribute(line, key) == Some((s, v)) <==> SpellsAttribute(line, key, s, v)
  {
    if ParseAttribute(line, key) == Some((s, v)) {
      AttributeReads(line, key, s, v);
    }
    if SpellsAttribute(line, key, s, v) {
      var p, k :| SameNoCase(p, SSRC) && SameNoCase(k, key) && line == p + (s + (k + (v + "\r")));
      AttributePrints(p, s, k, key, v);
    }
  }

  lemma AttributeReads(line: string, key: string, s: string, v: string)
    requires ParseAttribute(line, key) == Some((s, v))
    ensures SpellsAttribute(line, key, s, v)
  {
    var p, rest := line[..|SSRC|], line[|SSRC|..];
    var tail := rest[|s|..];
    var k, w := tail[..|key|], tail[|key|..];
    assert w == v + "\r";
    assert tail == k + w;
    assert rest == s + tail;
    assert line == p + rest;
    SpelledAttribute(line, p, s, k, key, v);
  }

  lemma SpelledAttribute(line: string, p: string, s: string, k: string, key: string, v: string)
    requires Digits(s) && Word(v) && SameNoCase(p, SSRC) && SameNoCase(k, key)
    requires line == p + (s + (k + (v + "\r")))
    ensures SpellsAttribute(line, key, s, v)
  {
  }

  lemma AttributePrints(p: string, s: string, k: string, key: string, v: string)
    requires AttributeKey(key)
    requires Digits(s) && Word(v) && SameNoCase(p, SSRC) && SameNoCase(k, key)
    ensures ParseAttribute(p + (s + (k + (v + "\r"))), key) == Some((s, v))
  {
    var w := v + "\r";
    var tail := k + w;
    assert Lower(k[0]) == Lower(key[0]) == ' ';
    assert !IsDigit(tail[0]);
    Cut(p, s + tail);
    Cut(s, tail);
    RunOfConcat(s, tail, IsDigit);
    Cut(k, w);
    Cut(v, "\r");
  }

  const SIM := "a=ssrc-group:SIM "

  /** `line.find("a=ssrc-group:SIM ") == 0` */
  predicate IsSim(line: string) { SIM <= line }

  /** No line is taken by two recognisers. */
  lemma AtMostOneRecogniser(line: string)
    ensures StartsNoCase(line, "a=") ==> ParseMline(line) == None
    ensures StartsNoCase(line, SSRC) ==> ParseFid(line) == None && !IsSim(line)
    ensures IsSim(line) ==> ParseFid(line) == None && !StartsNoCase(line, SSRC)
    ensures ParseCname(line).Some? ==> ParseMslabel(line) == None && ParseLabel(line) == None
    ensures ParseMslabel(line).Some? ==> ParseLabel(line) == None
  {
    if |line| >= 2 {
      assert StartsNoCase(line, "a=") ==> Lower(line[..2][0]) == 'a';
      assert StartsNoCase(line, "m=") ==> Lower(line[..2][0]) == 'm';
    }
    if |line| >= |SSRC| {
      assert StartsNoCase(line, SSRC) ==> Lower(line[..|SSRC|][6]) == ':';
    }
    if |line| >= |FID| {
      assert StartsNoCase(line, FID) ==> Lower(line[..|FID|][6]) == '-' && Lower(line[..|FID|][13]) == 'f';
      assert IsSim(line) ==> line[6] == '-' && line[13] == 'S';
    }
    if StartsNoCase(line, SSRC) {
      var rest := line[|SSRC|..];
      KeysDiffer(rest[Run(rest, IsDigit)..]);
    }
  }

  lemma KeysDiffer(t: string)
    ensures StartsNoCase(t, CNAME) ==> !StartsNoCase(t, MSLABEL) && !StartsNoCase(t, LABEL)
    ensures StartsNoCase(t, MSLABEL) ==> !StartsNoCase(t, LABEL)
  {
    if |t| >= 7 {
      assert StartsNoCase(t, CNAME) ==> Lower(t[..7][1]) == 'c';
      assert StartsNoCase(t, LABEL) ==> Lower(t[..7][1]) == 'l';
    }
    if |t| >= 9 {
      assert StartsNoCase(t, MSLABEL) ==> Lower(t[..9][1]) == 'm';
    }
  }

  // ---------------------------------------------------------------- lines as tokens

  /** What the recognisers can tell about one line. */
  datatype Token =
    | Media(kind: string)
    | Fid(ssrc: string, partner: string)
    | Cname(ssrc: string, value: string)
    | Mslabel(ssrc: string, value: string)
    | Label(ssrc: string, value: string)
    | Sim
    | Other

  function Read(line: string): Token {
    var m, f, c, s, l :=
      ParseMline(line), ParseFid(line), ParseCname(line), ParseMslabel(line), ParseLabel(line);
    if m.Some? then Media(m.value)
    else if f.Some? then Fid(f.value.0, f.value.1)
    else if c.Some? then Cname(c.value.0, c.value.1)
    else if s.Some? then Mslabel(s.value.0, s.value.1)
    else if l.Some? then Label(l.value.0, l.value.1)
    else if IsSim(line) then Sim
    else Other
  }

  function ReadAll(lines: seq<string>): (tokens: seq<Token>)
    ensures |tokens| == |lines|
  {
    if lines == [] then [] else ReadAll(lines[..|lines| - 1]) + [Read(lines[|lines| - 1])]
  }

  lemma {:induction false} ReadAllAt(lines: seq<string>, i: nat)
    requires i < |lines|
    ensures ReadAll(lines)[i] == Read(lines[i])
  {
    if i < |lines| - 1 { ReadAllAt(lines[..|lines| - 1], i); }
  }

  lemma {:induction false} ReadAllConcat(a: seq<string>, b: seq<string>)
    ensures ReadAll(a + b) == ReadAll(a) + ReadAll(b)
  {
    if b == [] {
      assert a + b == a;
    } else {
      var k := |b| - 1;
      assert (a + b)[..|a| + k] == a + b[..k];
      ReadAllConcat(a, b[..k]);
    }
  }

  lemma ReadAllCut(lines: seq<string>, k: nat)
    requires k <= |lines|
    ensures ReadAll(lines[..k]) == ReadAll(lines)[..k] && ReadAll(lines[k..]) == ReadAll(lines)[k..]
  {
    var a, b := Parts(lines, k);
    ReadAllHalves(a, b, lines);
  }

  lemma ReadAllHalves(a: seq<string>, b: seq<string>, lines: seq<string>)
    requires lines == a + b
    ensures ReadAll(lines)[..|a|] == ReadAll(a) && ReadAll(lines)[|a|..] == ReadAll(b)
  {
    ReadAllConcat(a, b);
    Halves(ReadAll(a), ReadAll(b));
  }

  lemma Halves(a: seq<Token>, b: seq<Token>)
    ensures (a + b)[..|a|] == a && (a + b)[|a|..] == b
  {
  }

  lemma {:induction false} ReadAllIs(lines: seq<string>, tokens: seq<Token>)
    requires |lines| == |tokens| && forall i :: 0 <= i < |lines| ==> Read(lines[i]) == tokens[i]
    ensures ReadAll(lines) == tokens
  {
    forall i | 0 <= i < |lines| ensures ReadAll(lines)[i] == tokens[i] { ReadAllAt(lines, i); }
  }

  /** The token says what every single recogniser says: no line is taken by two of them. */
  lemma ReadIsExact(line: string)
    ensures var t := Read(line);
            && ParseMline(line) == (if t.Media? then Some(t.kind) else None)
            && ParseFid(line) == (if t.Fid? then Some((t.ssrc, t.partner)) else None)
            && ParseCname(line) == (if t.Cname? then Some((t.ssrc, t.value)) else None)
            && ParseMslabel(line) == (if t.Mslabel? then Some((t.ssrc, t.value)) else None)
            && ParseLabel(line) == (if t.Label? then Some((t.ssrc, t.value)) else None)
            && (IsSim(line) <==> t.Sim?)
  {
    AtMostOneRecogniser(line);
    AllStartWithA(line);
  }

  lemma AllStartWithA(line: string)
    ensures StartsNoCase(line, SSRC) || StartsNoCase(line, FID) || IsSim(line) ==> StartsNoCase(line, "a=")
  {
    if StartsNoCase(line, SSRC) { assert SameNoCase(line[..|SSRC|][..2], SSRC[..2]); assert line[..2] == line[..|SSRC|][..2]; }
    if StartsNoCase(line, FID) { assert SameNoCase(line[..|FID|][..2], FID[..2]); assert line[..2] == line[..|FID|][..2]; }
    if IsSim(line) { assert line[..2] == SIM[..2] == "a="; }
  }

  /** The groups of a match are runs of digits and words. */
  predicate Proper(t: Token) {
    match t
    case Media(k) => Word(k)
    case Fid(s, f) => Digits(s) && Digits(f)
    case Cname(s, v) => Digits(s) && Word(v)
    case Mslabel(s, v) => Digits(s) && Word(v)
    case Label(s, v) => Digits(s) && Word(v)
    case Sim => true
    case Other => true
  }

  lemma ReadIsProper(line: string)
    ensures Proper(Read(line))
  {
    AttributeGroups(line, CNAME);
    AttributeGroups(line, MSLABEL);
    AttributeGroups(line, LABEL);
    FidGroups(line);
  }

  lemma FidGroups(line: string)
    ensures ParseFid(line).Some? ==> Digits(ParseFid(line).value.0) && Digits(ParseFid(line).value.1)
  {
    var r := ParseFid(line);
    if r.Some? { PairReads(line[|FID|..], r.value.0, r.value.1); }
  }

  lemma AttributeGroups(line: string, key: string)
    ensures var r := ParseAttribute(line, key); r.Some? ==> Digits(r.value.0) && Word(r.value.1)
  {
  }

  predicate AllProper(tokens: seq<Token>) { forall t :: t in tokens ==> Proper(t) }

  lemma ReadAllIsProper(lines: seq<string>)
    ensures AllProper(ReadAll(lines))
  {
    forall i | 0 <= i < |lines| ensures Proper(ReadAll(lines)[i]) {
      ReadAllAt(lines, i);
      ReadIsProper(lines[i]);
    }
  }
}
