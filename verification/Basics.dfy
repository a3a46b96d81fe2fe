/** Small shared vocabulary. */
module Basics {

  datatype Option<+T> = None | Some(value: T)

  /** The contents of a seq as a list joined by a separator, built from the back. */
  function Join(lines: seq<string>, sep: string): string {
    if |lines| == 0 then ""
    else if |lines| == 1 then lines[0]
    else Join(lines[..|lines| - 1], sep) + sep + lines[|lines| - 1]
  }

  lemma JoinSnoc(init: seq<string>, x: string, sep: string)
    ensures Join(init + [x], sep) == if init == [] then x else Join(init, sep) + sep + x
  {
    assert (init + [x])[..|init|] == init;
  }

  lemma {:induction false} JoinCons(x: string, rest: seq<string>, sep: string)
    ensures Join([x] + rest, sep) == if rest == [] then x else x + sep + Join(rest, sep)
  {
    if |rest| >= 1 {
      var all := [x] + rest;
      assert all[..|all| - 1] == [x] + rest[..|rest| - 1];
      JoinCons(x, rest[..|rest| - 1], sep);
      if |rest| > 1 {
        var init := Join(rest[..|rest| - 1], sep);
        assert (x + sep + init) + sep + rest[|rest| - 1] == x + sep + (init + sep + rest[|rest| - 1]);
      }
    }
  }

  lemma Snoc<T>(s: seq<T>)
    requires s != []
    ensures s == s[..|s| - 1] + [s[|s| - 1]]
  {
  }

  lemma Parts<T>(s: seq<T>, k: nat) returns (a: seq<T>, b: seq<T>)
    requires k <= |s|
    ensures a == s[..k] && b == s[k..] && |a| == k && s == a + b
  {
    a, b := s[..k], s[k..];
  }

  lemma FirstRest<T>(s: seq<T>) returns (x: T, rest: seq<T>)
    requires s != []
    ensures x == s[0] && rest == s[1..] && |rest| == |s| - 1 && s == [x] + rest
  {
    x, rest := s[0], s[1..];
  }

  lemma InitLast<T>(s: seq<T>) returns (init: seq<T>, x: T)
    requires s != []
    ensures init == s[..|s| - 1] && x == s[|s| - 1] && |init| == |s| - 1 && s == init + [x]
  {
    init, x := s[..|s| - 1], s[|s| - 1];
  }
}
