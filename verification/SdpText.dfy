/**
 * Line splitting and joining (core/utils/sdp_utils.cpp, SDPUtils::split and SDPUtils::join).
 * A text cut by `std::getline` loses one final delimiter; joining puts back all the others.
 */
module SdpText {
  import opened Basics

  /** Index of the first `d` in `s`, or |s|. */
  function FirstIndex(s: string, d: char): (i: nat)
    ensures i <= |s| && d !in s[..i]
    ensures i < |s| ==> s[i] == d
  {
    if s == "" || s[0] == d then 0
    else
      var i := 1 + FirstIndex(s[1..], d);
      assert s[..i] == [s[0]] + s[1..][..i - 1];
      i
  }

  /** What repeated `std::getline` calls deliver: no item after a final delimiter. */
  function Split(s: string, d: char): seq<string>
    decreases |s|
  {
    if s == "" then []
    else
      var i := FirstIndex(s, d);
      if i == |s| then [s] else [s[..i]] + Split(s[i + 1..], d)
  }

  /** `std::getline`: the end of the item that starts at `pos`. */
  method GetLine(str: string, delim: char, pos: nat) returns (end: nat)
    requires pos <= |str|
    ensures pos <= end <= |str| && delim !in str[pos..end]
    ensures end < |str| ==> str[end] == delim
  {
    end := pos;
    while end < |str| && str[end] != delim
      invariant pos <= end <= |str|
      invariant delim !in str[pos..end]
    {
      end := end + 1;
    }
  }

  method SplitLines(str: string, delim: char) returns (elems: seq<string>)
    ensures elems == Split(str, delim)
  {
    elems := [];
    var pos := 0;
    ghost var rest, all := str, Split(str, delim);
    while pos < |str|
      invariant 0 <= pos <= |str| && rest == str[pos..]
      invariant elems + Split(rest, delim) == all
    {
      var end := GetLine(str, delim, pos);
      var next := if end < |str| then end + 1 else end;
      ghost var item, later := SplitStep(str, delim, pos, end, next, rest);
      Regroup(elems, item, Split(later, delim));
      elems := elems + [str[pos..end]];
      pos, rest := next, later;
    }
  }

  lemma Regroup(a: seq<string>, x: string, b: seq<string>)
    ensures a + ([x] + b) == (a + [x]) + b
  {
  }

  lemma FirstIndexUnique(s: string, d: char, i: nat)
    requires i <= |s| && d !in s[..i]
    requires i < |s| ==> s[i] == d
    ensures FirstIndex(s, d) == i
  {
    var k := FirstIndex(s, d);
    assert forall j :: 0 <= j < i ==> s[..i][j] == s[j];
    assert forall j :: 0 <= j < k ==> s[..k][j] == s[j];
  }

  /** One getline call: the item runs up to the next delimiter, which is consumed. */
  lemma SplitStep(str: string, d: char, pos: nat, end: nat, next: nat, rest: string)
    returns (item: string, later: string)
    requires pos < |str| && pos <= end <= |str| && d !in str[pos..end]
    requires end < |str| ==> str[end] == d
    requires next == (if end < |str| then end + 1 else end) && rest == str[pos..]
    ensures item == str[pos..end] && later == str[next..]
    ensures Split(rest, d) == [item] + Split(later, d)
  {
    item, later := str[pos..end], str[next..];
    if end < |str| {
      assert rest == item + [d] + later;
      SplitFirst(item, later, rest, d);
    } else {
      assert rest == item && later == "";
      SplitOnly(item, d);
    }
  }

  lemma SplitFirst(x: string, more: string, s: string, d: char)
    requires d !in x && s == x + [d] + more
    ensures Split(s, d) == [x] + Split(more, d)
  {
    assert s[..|x|] == x && s[|x|] == d && s[|x| + 1..] == more;
    FirstIndexUnique(s, d, |x|);
  }

  lemma SplitOnly(x: string, d: char)
    requires d !in x
    ensures Split(x, d) == if x == "" then [] else [x]
  {
    assert x[..|x|] == x;
    FirstIndexUnique(x, d, |x|);
  }

  lemma SplitThree(a: string, b: string, c: string, s: string, d: char)
    requires d !in a && d !in b && d !in c && c != "" && s == a + [d] + (b + [d] + c)
    ensures Split(s, d) == [a, b, c]
  {
    SplitOnly(c, d);
    SplitFirst(b, c, b + [d] + c, d);
    SplitFirst(a, b + [d] + c, s, d);
  }

  method JoinLines(lines: seq<string>, separator: string) returns (result: string)
    ensures result == Join(lines, separator)
  {
    result := "";
    for i := 0 to |lines|
      invariant result == Join(lines[..i], separator)
    {
      assert lines[..i + 1][..i] == lines[..i];
      if i != 0 {
        result := result + separator;
      }
      result := result + lines[i];
    }
    assert lines[..|lines|] == lines;
  }

  /** Joining what was split gives the text back, less one final delimiter. */
  lemma {:induction false} JoinOfSplit(s: string, d: char)
    ensures Join(Split(s, d), [d]) == if s != "" && s[|s| - 1] == d then s[..|s| - 1] else s
    decreases |s|
  {
    if s != "" {
      var i := FirstIndex(s, d);
      if i == |s| {
        assert s[|s| - 1] == s[..i][|s| - 1] != d;
      } else {
        var rest := s[i + 1..];
        JoinCons(s[..i], Split(rest, d), [d]);
        JoinOfSplit(rest, d);
        LastOfTail(s, i);
      }
    }
  }

  /** Cutting off the last character before or after an earlier cut is the same. */
  lemma LastOfTail(s: string, i: nat)
    requires i < |s|
    ensures var rest := s[i + 1..];
            if rest == "" then s[..|s| - 1] == s[..i]
            else
              && s == s[..i] + [s[i]] + rest
              && s[|s| - 1] == rest[|rest| - 1]
              && s[..|s| - 1] == s[..i] + [s[i]] + rest[..|rest| - 1]
  {
  }

  lemma {:induction false} SplitItemsClean(s: string, d: char)
    ensures forall x :: x in Split(s, d) ==> d !in x
    decreases |s|
  {
    if s != "" {
      var i := FirstIndex(s, d);
      if i < |s| { SplitItemsClean(s[i + 1..], d); } else { assert s[..i] == s; }
    }
  }

  lemma {:induction false} SplitOfCleanJoin(lines: seq<string>, d: char)
    requires forall x :: x in lines ==> d !in x
    requires lines != [] ==> lines[|lines| - 1] != ""
    ensures Split(Join(lines, [d]), d) == lines
  {
    if lines != [] {
      var x, rest := FirstRest(lines);
      JoinCons(x, rest, [d]);
      if rest == [] {
        SplitOnly(x, d);
      } else {
        SplitOfCleanJoin(rest, d);
        SplitFirst(x, Join(rest, [d]), Join(lines, [d]), d);
      }
    }
  }

  /** Splitting what was joined gives the lines back exactly when no line holds the
      delimiter and the last line is not empty. */
  lemma SplitOfJoin(lines: seq<string>, d: char)
    ensures Split(Join(lines, [d]), d) == lines <==>
            (forall x :: x in lines ==> d !in x) && (lines == [] || lines[|lines| - 1] != "")
  {
    var s := Join(lines, [d]);
    if (forall x :: x in lines ==> d !in x) && (lines == [] || lines[|lines| - 1] != "") {
      SplitOfCleanJoin(lines, d);
    } else if Split(s, d) == lines {
      assert |lines| > 1 && lines[|lines| - 1] == "" ==> s[|s| - 1] == d;
      SplitItemsClean(s, d);
      JoinOfSplit(s, d);
      assert false;
    }
  }
}
