/**
 * What the reader delivers from a well-formed file: exactly its slices, in order and byte for
 * byte, round after round, each IDR slice preceded by the latest parameter sets.
 */
module AnnexBLaws {
  import opened AnnexBReader

  // ---------------------------------------------------------------- well-formed files

  datatype Unit = Unit(code: nat, body: seq<byte>)

  /** A unit of at least two bytes with the length of the start code in front of it. */
  type Nal = u: Unit | (u.code == 3 || u.code == 4) && 2 <= |u.body| witness Unit(3, [1, 1])

  /** No 00 00 01 ends at index `i`. */
  predicate QuietAt(x: seq<byte>, i: int) {
    2 <= i < |x| ==> !(x[i] == 1 && x[i - 1] == 0 && x[i - 2] == 0)
  }

  predicate Quiet(x: seq<byte>, from: nat) {
    forall i {:trigger QuietAt(x, i)} :: from <= i < |x| ==> QuietAt(x, i)
  }

  /** A unit of section 7.4.1 of ITU-T H.264: nothing in it looks like a start code and it does not
      end in a zero byte. */
  predicate Good(u: Nal) { Quiet(u.body, 2) && u.body[|u.body| - 1] != 0 }

  predicate AllGood(units: seq<Nal>) {
    forall i {:trigger Good(units[i])} :: 0 <= i < |units| ==> Good(units[i])
  }

  /** The unit after unit `k`, around the end of the file. */
  function Next(n: nat, k: nat): nat { if k + 1 < n then k + 1 else 0 }

  /** Unit `k` fits the buffer with the start code that ends it. */
  predicate FitsAt(units: seq<Nal>, k: nat)
    requires k < |units|
  {
    |units[k].body| + units[Next(|units|, k)].code < 1_048_576
  }

  predicate Fits(units: seq<Nal>) {
    forall k: nat {:trigger FitsAt(units, k)} :: k < |units| ==> FitsAt(units, k)
  }

  /** So does the first unit with its own start code in front. */
  predicate FirstFits(units: seq<Nal>)
    requires units != []
  {
    units[0].code + |units[0].body| + units[Next(|units|, 0)].code < 1_048_576
  }

  function File(units: seq<Nal>): seq<byte> {
    if units == [] then []
    else
      var u := units[|units| - 1];
      File(units[..|units| - 1]) + StartCode(u.code) + u.body
  }

  /** A file with its units and the places where they begin, counting their start codes. */
  datatype Clip = Clip(units: seq<Nal>, starts: seq<nat>, file: seq<byte>)

  predicate UnitIn(v: Clip, k: nat)
    requires |v.starts| == |v.units| + 1 && k < |v.units|
  {
    var u, p, q := v.units[k], v.starts[k], v.starts[k + 1];
    && p + u.code + |u.body| == q <= |v.file|
    && v.file[p..p + u.code] == StartCode(u.code)
    && v.file[p + u.code..q] == u.body
  }

  /** The file is made of the units, end to end, and they are all good and fit the buffer. */
  predicate Valid(v: Clip) {
    && v.units != []
    && |v.starts| == |v.units| + 1 && v.starts[0] == 0 && v.starts[|v.units|] == |v.file|
    && (forall k: nat {:trigger UnitIn(v, k)} :: k < |v.units| ==> UnitIn(v, k))
    && AllGood(v.units) && Fits(v.units)
  }

  lemma Middle(a: seq<byte>, b: seq<byte>, c: seq<byte>)
    ensures (a + b + c)[|a|..|a| + |b|] == b && (a + b + c)[|a| + |b|..|a| + |b| + |c|] == c
  {
  }

  /** The clip `v` with one more unit at the end. */
  function Grow(v: Clip, u: Nal): Clip {
    Clip(v.units + [u], v.starts + [|v.file| + u.code + |u.body|], v.file + StartCode(u.code) + u.body)
  }

  lemma GrowKeeps(v: Clip, u: Nal, k: nat)
    requires |v.starts| == |v.units| + 1 && k < |v.units| && UnitIn(v, k)
    ensures UnitIn(Grow(v, u), k)
  {
    var p, c, q := v.starts[k], v.units[k].code, v.starts[k + 1];
    InPrefix(v.file, StartCode(u.code) + u.body, p, p + c);
    InPrefix(v.file, StartCode(u.code) + u.body, p + c, q);
    assert v.file + (StartCode(u.code) + u.body) == v.file + StartCode(u.code) + u.body;
  }

  lemma InPrefix(a: seq<byte>, b: seq<byte>, i: nat, j: nat)
    requires i <= j <= |a|
    ensures (a + b)[i..j] == a[i..j]
  {
  }

  lemma GrowAdds(v: Clip, u: Nal)
    requires |v.starts| == |v.units| + 1 && v.starts[|v.units|] == |v.file|
    ensures UnitIn(Grow(v, u), |v.units|)
  {
    Middle(v.file, StartCode(u.code), u.body);
  }

  /** The concatenation of good units, each behind its start code, is such a file. */
  lemma {:induction false} FileIsClip(units: seq<Nal>) returns (v: Clip)
    ensures v.units == units && v.file == File(units)
    ensures |v.starts| == |units| + 1 && v.starts[0] == 0 && v.starts[|units|] == |v.file|
    ensures forall k: nat {:trigger UnitIn(v, k)} :: k < |units| ==> UnitIn(v, k)
    ensures units != [] && AllGood(units) && Fits(units) ==> Valid(v)
  {
    if units == [] {
      v := Clip([], [0], []);
    } else {
      var i := |units| - 1;
      var w := FileIsClip(units[..i]);
      v := Grow(w, units[i]);
      assert w.units + [units[i]] == units;
      GrowAll(w, units[i]);
    }
  }

  lemma GrowAll(v: Clip, u: Nal)
    requires |v.starts| == |v.units| + 1 && v.starts[|v.units|] == |v.file|
    requires forall k: nat {:trigger UnitIn(v, k)} :: k < |v.units| ==> UnitIn(v, k)
    ensures forall k: nat {:trigger UnitIn(Grow(v, u), k)} :: k < |v.units| + 1 ==> UnitIn(Grow(v, u), k)
  {
    forall k: nat | k < |v.units| + 1 ensures UnitIn(Grow(v, u), k) {
      if k < |v.units| {
        assert UnitIn(v, k);
        GrowKeeps(v, u, k);
      } else {
        GrowAdds(v, u);
      }
    }
  }

  /** Where the body of unit `k` begins. */
  function BodyAt(v: Clip, k: nat): nat
    requires |v.starts| == |v.units| + 1 && k < |v.units|
  {
    v.starts[k] + v.units[k].code
  }

  // ---------------------------------------------------------------- reading bytes

  /** The loop comes from `a` to `b` in some number of rounds. */
  ghost predicate Leads(file: seq<byte>, a: Machine, b: Machine) { exists t: nat :: Ticks(file, a, t) == b }

  lemma LeadsNowhere(file: seq<byte>, a: Machine)
    ensures Leads(file, a, a)
  {
    assert Ticks(file, a, 0) == a;
  }

  lemma LeadsOn(file: seq<byte>, a: Machine, b: Machine, c: Machine)
    requires Leads(file, a, b) && Leads(file, b, c)
    ensures Leads(file, a, c)
  {
    var i: nat :| Ticks(file, a, i) == b;
    var j: nat :| Ticks(file, b, j) == c;
    TicksAdd(file, a, i, j);
  }

  /** The loop comes from `a` to `b` in at least `c` rounds. */
  ghost predicate Takes(file: seq<byte>, a: Machine, b: Machine, c: nat) { exists t: nat :: t >= c && Ticks(file, a, t) == b }

  lemma TakesOn(file: seq<byte>, x: Machine, y: Machine, z: Machine, c: nat, d: nat)
    requires Takes(file, x, y, c) && Takes(file, y, z, d)
    ensures Takes(file, x, z, c + d)
  {
    var i: nat :| i >= c && Ticks(file, x, i) == y;
    var j: nat :| j >= d && Ticks(file, y, j) == z;
    TicksAdd(file, x, i, j);
    assert i + j >= c + d;
  }

  lemma MovingTakes(file: seq<byte>, a: Machine, b: Machine)
    requires Leads(file, a, b)
    ensures Takes(file, a, b, 0) && (a != b ==> Takes(file, a, b, 1))
  {
    var t: nat :| Ticks(file, a, t) == b;
    assert a != b ==> t >= 1;
  }

  lemma TakingLeads(file: seq<byte>, a: Machine, b: Machine, c: nat)
    requires Takes(file, a, b, c)
    ensures Leads(file, a, b)
  {
    var t: nat :| t >= c && Ticks(file, a, t) == b;
  }

  /** One more byte. */
  lemma LeadsByte(file: seq<byte>, a: Machine, p: nat, s: State, r: State)
    requires Leads(file, a, Machine(p, s)) && !s.stop && p < |file| && r == Accept(s, file[p])
    ensures Leads(file, a, Machine(p + 1, r))
  {
    var i: nat :| Ticks(file, a, i) == Machine(p, s);
    NextTick(file, a, i);
  }

  /** At the end of the file the reader goes back to its beginning. */
  lemma Wraps(file: seq<byte>, s: State)
    requires !s.stop
    ensures Leads(file, Machine(|file|, s), Machine(0, s))
  {
    NextTick(file, Machine(|file|, s), 0);
  }

  lemma LeadsToCall(file: seq<byte>, a: Machine, b: Machine)
    requires Leads(file, a, b) && b.st.stop
    ensures Halts(file, a) && Call(file, a) == b
  {
    var t: nat :| Ticks(file, a, t) == b;
    CallIs(file, a, t);
  }

  predicate ByteAt(file: seq<byte>, pos: nat, bytes: seq<byte>, i: int) {
    0 <= i < |bytes| ==> pos + i < |file| && file[pos + i] == bytes[i]
  }

  predicate Occurs(file: seq<byte>, pos: nat, bytes: seq<byte>) {
    forall i {:trigger ByteAt(file, pos, bytes, i)} :: 0 <= i < |bytes| ==> ByteAt(file, pos, bytes, i)
  }

  lemma SliceOccurs(file: seq<byte>, pos: nat, bytes: seq<byte>)
    requires pos + |bytes| <= |file| && file[pos..pos + |bytes|] == bytes
    ensures Occurs(file, pos, bytes)
  {
    assert forall i :: 0 <= i < |bytes| ==> file[pos..pos + |bytes|][i] == bytes[i];
  }

  /** A byte that completes no start code is stored. */
  lemma AcceptQuiet(s: State, x: seq<byte>, k: nat)
    requires k < |x| < MAX_BUFFER_SIZE && (k >= 4 ==> QuietAt(x, k))
    ensures Accept(s.(buf := x[..k]), x[k]) == s.(buf := x[..k + 1])
  {
    assert x[..k] + [x[k]] == x[..k + 1];
  }

  lemma {:induction false} QuietReading(file: seq<byte>, p: nat, x: seq<byte>, s: State, k: nat)
    requires Occurs(file, p, x) && |x| < MAX_BUFFER_SIZE && Quiet(x, 4) && !s.stop && k <= |x|
    ensures Leads(file, Machine(p, s.(buf := [])), Machine(p + k, s.(buf := x[..k])))
  {
    if k == 0 {
      LeadsNowhere(file, Machine(p, s.(buf := [])));
    } else {
      QuietReading(file, p, x, s, k - 1);
      assert k - 1 >= 4 ==> QuietAt(x, k - 1);
      assert ByteAt(file, p, x, k - 1);
      AcceptQuiet(s, x, k - 1);
      LeadsByte(file, Machine(p, s.(buf := [])), p + (k - 1), s.(buf := x[..k - 1]), s.(buf := x[..k]));
    }
  }

  function Zeros(n: nat): (z: seq<byte>)
    ensures |z| == n && forall i :: 0 <= i < n ==> z[i] == 0
  {
    if n == 0 then [] else Zeros(n - 1) + [0]
  }

  lemma AcceptZero(s: State, x: seq<byte>, k: nat)
    requires |x| + k < MAX_BUFFER_SIZE - 1
    ensures Accept(s.(buf := x + Zeros(k)), 0) == s.(buf := x + Zeros(k + 1))
  {
    assert x + Zeros(k) + [0] == x + Zeros(k + 1);
  }

  lemma {:induction false} ZerosReading(file: seq<byte>, p: nat, code: seq<byte>, x: seq<byte>, s: State, k: nat)
    requires Occurs(file, p, code) && k < |code| && (forall i :: 0 <= i < k ==> code[i] == 0)
    requires |x| + k < MAX_BUFFER_SIZE && !s.stop
    ensures Leads(file, Machine(p, s.(buf := x)), Machine(p + k, s.(buf := x + Zeros(k))))
  {
    if k == 0 {
      assert x + Zeros(0) == x;
      LeadsNowhere(file, Machine(p, s.(buf := x)));
    } else {
      ZerosReading(file, p, code, x, s, k - 1);
      assert ByteAt(file, p, code, k - 1);
      AcceptZero(s, x, k - 1);
      LeadsByte(file, Machine(p, s.(buf := x)), p + (k - 1), s.(buf := x + Zeros(k - 1)), s.(buf := x + Zeros(k)));
    }
  }

  /** The last byte of a start code after `x` recognises `x` as a unit. */
  lemma AcceptOne(s: State, x: seq<byte>, n: nat)
    requires n == 3 || n == 4
    requires 2 <= |x| && |x| + n < MAX_BUFFER_SIZE && x[|x| - 1] != 0
    ensures Accept(s.(buf := x + Zeros(n - 1)), 1) == Recognise(s.(buf := []), x, x[0], n)
  {
    var b := x + Zeros(n - 1);
    assert b[|b| - 1] == Zeros(n - 1)[n - 2] && b[|b| - 2] == Zeros(n - 1)[n - 3];
    assert b[|b| - 3] == if n == 4 then Zeros(n - 1)[0] else x[|x| - 1];
    assert b[..|b| - (n - 1)] == x;
  }

  lemma CodeReading(file: seq<byte>, p: nat, n: nat, x: seq<byte>, s: State, r: State)
    requires (n == 3 || n == 4) && Occurs(file, p, StartCode(n)) && !s.stop
    requires 2 <= |x| && |x| + n < MAX_BUFFER_SIZE && x[|x| - 1] != 0
    requires r == Recognise(s.(buf := []), x, x[0], n)
    ensures Leads(file, Machine(p, s.(buf := x)), Machine(p + n, r))
  {
    ZerosReading(file, p, StartCode(n), x, s, n - 1);
    assert ByteAt(file, p, StartCode(n), n - 1);
    AcceptOne(s, x, n);
    LeadsByte(file, Machine(p, s.(buf := x)), p + (n - 1), s.(buf := x + Zeros(n - 1)), r);
  }

  // ---------------------------------------------------------------- one unit

  /** A stretch of the file up to the end of unit `k` that is recognised at the next start code. */
  predicate Stretch(v: Clip, k: nat, p: nat, x: seq<byte>) {
    && Valid(v) && k < |v.units| && p + |x| == v.starts[k + 1] <= |v.file| && v.file[p..p + |x|] == x
    && 2 <= |x| && |x| + v.units[Next(|v.units|, k)].code < MAX_BUFFER_SIZE && Quiet(x, 4) && x[|x| - 1] != 0
  }

  /** Over such a stretch the reader comes to the body of the next unit, having recognised it; at
      the end of the file it goes on at the beginning. It takes time, even if there is one unit. */
  lemma ReadsOn(v: Clip, k: nat, p: nat, x: seq<byte>, s: State, j: nat, r: State)
    requires Stretch(v, k, p, x) && s.buf == [] && !s.stop && j == Next(|v.units|, k)
    requires r == Recognise(s, x, x[0], v.units[j].code)
    ensures Takes(v.file, Machine(p, s), Machine(BodyAt(v, j), r), 1)
  {
    var f, mid, q := v.file, s.(buf := x), v.starts[j];
    assert s.(buf := []) == s;
    assert Leads(f, Machine(p, s), Machine(p + |x|, mid)) by {
      SliceOccurs(f, p, x);
      QuietReading(f, p, x, s, |x|);
      assert x[..|x|] == x;
    }
    MovingTakes(f, Machine(p, s), Machine(p + |x|, mid));
    if k + 1 == |v.units| {
      Wraps(f, mid);
      MovingTakes(f, Machine(p + |x|, mid), Machine(0, mid));
      TakesOn(f, Machine(p, s), Machine(p + |x|, mid), Machine(0, mid), 1, 0);
    }
    CodeOf(v, j, x, s, r);
    MovingTakes(f, Machine(q, mid), Machine(BodyAt(v, j), r));
    TakesOn(f, Machine(p, s), Machine(q, mid), Machine(BodyAt(v, j), r), 1, 0);
  }

  lemma CodeOf(v: Clip, j: nat, x: seq<byte>, s: State, r: State)
    requires Valid(v) && j < |v.units| && s.buf == [] && !s.stop
    requires 2 <= |x| && |x| + v.units[j].code < MAX_BUFFER_SIZE && x[|x| - 1] != 0
    requires r == Recognise(s, x, x[0], v.units[j].code)
    ensures Leads(v.file, Machine(v.starts[j], s.(buf := x)), Machine(BodyAt(v, j), r))
  {
    assert UnitIn(v, j);
    assert s.(buf := []) == s;
    SliceOccurs(v.file, v.starts[j], StartCode(v.units[j].code));
    CodeReading(v.file, v.starts[j], v.units[j].code, x, s, r);
  }

  lemma BodyIsStretch(v: Clip, k: nat)
    requires Valid(v) && k < |v.units|
    ensures Stretch(v, k, BodyAt(v, k), v.units[k].body)
  {
    assert UnitIn(v, k);
    assert Good(v.units[k]) && FitsAt(v.units, k);
    LaterQuiet(v.units[k].body);
  }

  /** The unit is delivered: its type is 1 or 5. */
  predicate IsSlice(u: Nal) { u.body[0] % 32 == 1 || u.body[0] % 32 == 5 }

  /** The number of the unit visited `c` units after unit `k`. */
  function Index(n: nat, k: nat, c: nat): (i: nat)
    requires k < n
    ensures i < n
  {
    if c == 0 then k else Next(n, Index(n, k, c - 1))
  }

  lemma {:induction false} IndexAdd(n: nat, k: nat, c: nat, d: nat)
    requires k < n
    ensures Index(n, Index(n, k, c), d) == Index(n, k, c + d)
  {
    if d > 0 { IndexAdd(n, k, c, d - 1); }
  }

  lemma {:induction false} IndexIs(n: nat, k: nat, c: nat)
    requires k < n && c < n
    ensures Index(n, k, c) == if k + c < n then k + c else k + c - n
  {
    if c > 0 { IndexIs(n, k, c - 1); }
  }

  /** The unit visited `c` units after unit `k`, in the endless repetition of the file. */
  function Nth(units: seq<Nal>, k: nat, c: nat): Nal
    requires k < |units|
  {
    units[Index(|units|, k, c)]
  }

  function Pos(v: Clip, k: nat, c: nat): nat
    requires |v.starts| == |v.units| + 1 && k < |v.units|
  {
    BodyAt(v, Index(|v.units|, k, c))
  }

  /** The effect of recognising unit `k`, which the start code of the next unit terminates. */
  function Visit(units: seq<Nal>, k: nat, s: State): State
    requires k < |units|
  {
    Recognise(s.(stop := false), units[k].body, units[k].body[0], units[Next(|units|, k)].code)
  }

  function VisitN(units: seq<Nal>, k: nat, s: State, c: nat): State
    requires k < |units|
  {
    if c == 0 then s else Visit(units, Index(|units|, k, c - 1), VisitN(units, k, s, c - 1))
  }

  lemma LaterQuiet(x: seq<byte>)
    requires Quiet(x, 2)
    ensures Quiet(x, 4)
  {
  }

  lemma VisitUnit(v: Clip, k: nat, s: State)
    requires Valid(v) && k < |v.units| && s.buf == [] && !s.stop
    ensures Takes(v.file, Machine(BodyAt(v, k), s), Machine(BodyAt(v, Next(|v.units|, k)), Visit(v.units, k, s)), 1)
  {
    BodyIsStretch(v, k);
    assert s.(stop := false) == s;
    ReadsOn(v, k, BodyAt(v, k), v.units[k].body, s, Next(|v.units|, k), Visit(v.units, k, s));
  }

  // ---------------------------------------------------------------- one call

  predicate SliceAt(units: seq<Nal>, k: nat, c: nat)
    requires k < |units|
  {
    IsSlice(Nth(units, k, c))
  }

  /** How many units a call visits: up to and including the first slice. */
  predicate UpToSlice(units: seq<Nal>, k: nat, d: nat)
    requires k < |units|
  {
    d >= 1 && SliceAt(units, k, d - 1) && forall e: nat :: e < d - 1 ==> !SliceAt(units, k, e)
  }

  lemma NextSlice(units: seq<Nal>, k: nat, j: nat) returns (d: nat)
    requires k < |units| && j < |units| && IsSlice(units[j])
    ensures UpToSlice(units, k, d) && d <= |units|
  {
    var far: nat := if j >= k then j - k else j + |units| - k;
    IndexIs(|units|, k, far);
    assert SliceAt(units, k, far);
    d := 1;
    while !SliceAt(units, k, d - 1)
      invariant 1 <= d <= far + 1
      invariant forall e: nat :: e < d - 1 ==> !SliceAt(units, k, e)
      decreases far + 1 - d
    {
      d := d + 1;
    }
  }

  lemma VisitStops(units: seq<Nal>, k: nat, s: State)
    requires k < |units|
    ensures Visit(units, k, s).buf == [] && (Visit(units, k, s).stop <==> IsSlice(units[k]))
  {
  }

  lemma {:induction false} VisitsQuietly(v: Clip, k: nat, s: State, d: nat, c: nat)
    requires Valid(v) && k < |v.units| && s.buf == [] && !s.stop && UpToSlice(v.units, k, d) && c <= d
    ensures Leads(v.file, Machine(BodyAt(v, k), s), Machine(Pos(v, k, c), VisitN(v.units, k, s, c)))
    ensures VisitN(v.units, k, s, c).buf == [] && (VisitN(v.units, k, s, c).stop <==> c == d)
  {
    if c == 0 {
      LeadsNowhere(v.file, Machine(BodyAt(v, k), s));
    } else {
      VisitsQuietly(v, k, s, d, c - 1);
      var i, r := Index(|v.units|, k, c - 1), VisitN(v.units, k, s, c - 1);
      VisitUnit(v, i, r);
      VisitStops(v.units, i, r);
      assert IsSlice(v.units[i]) <==> SliceAt(v.units, k, c - 1);
      TakingLeads(v.file, Machine(BodyAt(v, i), r), Machine(Pos(v, k, c), VisitN(v.units, k, s, c)), 1);
      LeadsOn(v.file, Machine(BodyAt(v, k), s), Machine(BodyAt(v, i), r),
              Machine(Pos(v, k, c), VisitN(v.units, k, s, c)));
    }
  }

  function Load(a: Kept): State { Begin(a).st }

  /** Every call from the body of a unit returns, at the body of the unit after the next slice. */
  lemma CallVisits(v: Clip, k: nat, a: Kept, d: nat)
    requires Valid(v) && k < |v.units| && a.pos == BodyAt(v, k) && UpToSlice(v.units, k, d)
    ensures Halts(v.file, Begin(a))
    ensures Call(v.file, Begin(a)) == Machine(Pos(v, k, d), VisitN(v.units, k, Load(a), d))
  {
    VisitsQuietly(v, k, Load(a), d, d);
    LeadsToCall(v.file, Begin(a), Machine(Pos(v, k, d), VisitN(v.units, k, Load(a), d)));
  }

  // ---------------------------------------------------------------- when a call returns

  lemma {:induction false} VisitsOnAndOn(v: Clip, k: nat, s: State, c: nat)
    requires Valid(v) && k < |v.units| && s.buf == [] && !s.stop
    requires forall j: nat :: j < |v.units| ==> !IsSlice(v.units[j])
    ensures Takes(v.file, Machine(BodyAt(v, k), s), Machine(Pos(v, k, c), VisitN(v.units, k, s, c)), c)
    ensures VisitN(v.units, k, s, c).buf == [] && !VisitN(v.units, k, s, c).stop
  {
    var a := Machine(BodyAt(v, k), s);
    if c == 0 {
      assert Ticks(v.file, a, 0) == a;
    } else {
      VisitsOnAndOn(v, k, s, c - 1);
      var i, r := Index(|v.units|, k, c - 1), VisitN(v.units, k, s, c - 1);
      VisitUnit(v, i, r);
      VisitStops(v.units, i, r);
      TakesOn(v.file, a, Machine(BodyAt(v, i), r), Machine(Pos(v, k, c), VisitN(v.units, k, s, c)), c - 1, 1);
    }
  }

  /** A call from an aligned position returns if and only if the file has a slice. */
  lemma ReturnsIff(v: Clip, k: nat, a: Kept)
    requires Valid(v) && k < |v.units| && a.pos == BodyAt(v, k)
    ensures Halts(v.file, Begin(a)) <==> exists j: nat :: j < |v.units| && IsSlice(v.units[j])
  {
    if j: nat :| j < |v.units| && IsSlice(v.units[j]) {
      var d := NextSlice(v.units, k, j);
      CallVisits(v, k, a, d);
    } else if n: nat :| Ticks(v.file, Begin(a), n).st.stop {
      VisitsOnAndOn(v, k, Load(a), n);
      var t: nat :| t >= n && Ticks(v.file, Begin(a), t) == Machine(Pos(v, k, n), VisitN(v.units, k, Load(a), n));
      StopStays(v.file, Begin(a), n, t);
      assert false;
    }
  }

  // ---------------------------------------------------------------- from the start of the file

  lemma StartIsQuiet(u: Nal)
    requires Good(u)
    ensures var x := StartCode(u.code) + u.body;
            Quiet(x, 4) && 2 <= |x| && x[|x| - 1] != 0 && x[0] == 0
  {
    var x := StartCode(u.code) + u.body;
    forall i | 4 <= i < |x| ensures QuietAt(x, i) {
      assert x[u.code - 1] == 1;
      if i >= u.code + 2 {
        assert QuietAt(u.body, i - u.code);
        assert x[i] == u.body[i - u.code] && x[i - 1] == u.body[i - u.code - 1] && x[i - 2] == u.body[i - u.code - 2];
      }
    }
  }

  lemma StartIsStretch(v: Clip)
    requires Valid(v) && FirstFits(v.units)
    ensures Stretch(v, 0, 0, StartCode(v.units[0].code) + v.units[0].body)
  {
    var f, u := v.file, v.units[0];
    assert UnitIn(v, 0);
    assert f[0..u.code + |u.body|] == f[0..u.code] + f[u.code..u.code + |u.body|];
    assert Good(v.units[0]);
    StartIsQuiet(u);
  }

  lemma TypeZero(s: State, x: seq<byte>, n: nat)
    requires (n == 3 || n == 4) && s.buf == []
    ensures Recognise(s, x, 0, n) == s
  {
  }

  lemma SkipsFirstUnit(v: Clip, s: State, j: nat)
    requires Valid(v) && FirstFits(v.units) && s.buf == [] && !s.stop && j == Next(|v.units|, 0)
    ensures Leads(v.file, Machine(0, s), Machine(BodyAt(v, j), s))
  {
    var x := StartCode(v.units[0].code) + v.units[0].body;
    StartIsStretch(v);
    TypeZero(s, x, v.units[j].code);
    assert x[0] == 0;
    ReadsOn(v, 0, 0, x, s, j, s);
    TakingLeads(v.file, Machine(0, s), Machine(BodyAt(v, j), s), 1);
  }

  /** From the very start of the file the first unit is read together with its own start code, as
      a unit of type 0: it is neither delivered nor cached, and the reader is aligned after it. */
  lemma StartSkipsFirstUnit(v: Clip, a: Kept, j: nat)
    requires Valid(v) && FirstFits(v.units) && a.pos == 0 && j < |v.units| && IsSlice(v.units[j])
    ensures var aligned := a.(pos := BodyAt(v, Next(|v.units|, 0)));
            && Halts(v.file, Begin(a)) && Halts(v.file, Begin(aligned))
            && Call(v.file, Begin(a)) == Call(v.file, Begin(aligned))
  {
    var k := Next(|v.units|, 0);
    var d := NextSlice(v.units, k, j);
    var aligned, end := Machine(BodyAt(v, k), Load(a)), Machine(Pos(v, k, d), VisitN(v.units, k, Load(a), d));
    SkipsFirstUnit(v, Load(a), k);
    VisitsQuietly(v, k, Load(a), d, d);
    LeadsToCall(v.file, aligned, end);
    LeadsOn(v.file, Begin(a), aligned, end);
    LeadsToCall(v.file, Begin(a), end);
  }

  /** A call from the start of the file, too, returns if and only if the file has a slice. */
  lemma ReturnsFromStartIff(v: Clip, a: Kept)
    requires Valid(v) && FirstFits(v.units) && a.pos == 0
    ensures Halts(v.file, Begin(a)) <==> exists j: nat :: j < |v.units| && IsSlice(v.units[j])
  {
    if j: nat :| j < |v.units| && IsSlice(v.units[j]) {
      StartSkipsFirstUnit(v, a, j);
    } else if n: nat :| Ticks(v.file, Begin(a), n).st.stop {
      var k := Next(|v.units|, 0);
      var aligned, on := Machine(BodyAt(v, k), Load(a)), Machine(Pos(v, k, n), VisitN(v.units, k, Load(a), n));
      SkipsFirstUnit(v, Load(a), k);
      VisitsOnAndOn(v, k, Load(a), n);
      MovingTakes(v.file, Begin(a), aligned);
      TakesOn(v.file, Begin(a), aligned, on, 0, n);
      var t: nat :| t >= n && Ticks(v.file, Begin(a), t) == on;
      StopStays(v.file, Begin(a), n, t);
      assert false;
    }
  }

  // ---------------------------------------------------------------- whole runs

  /** `b` is what `m` calls make of `a`. */
  ghost predicate Calls(file: seq<byte>, a: Kept, m: nat, b: Kept) {
    if m == 0 then a == b
    else exists c :: Calls(file, a, m - 1, c) && Halts(file, Begin(c)) && b == End(Call(file, Begin(c)))
  }

  /** The number of slices among the first `c` units visited from unit `k`. */
  function Slices(units: seq<Nal>, k: nat, c: nat): nat
    requires k < |units|
  {
    if c == 0 then 0 else Slices(units, k, c - 1) + (if SliceAt(units, k, c - 1) then 1 else 0)
  }

  /** Unit number `c` with the start code that terminates it, as it is cached and delivered. */
  function Framed(units: seq<Nal>, k: nat, c: nat): seq<byte>
    requires k < |units|
  {
    StartCode(Nth(units, k, c + 1).code) + Nth(units, k, c).body
  }

  /** The latest unit of type `t` among the first `c`; `initial` if there is none. */
  function Latest(units: seq<Nal>, k: nat, c: nat, t: byte, initial: seq<byte>): seq<byte>
    requires k < |units|
  {
    if c == 0 then initial
    else if Nth(units, k, c - 1).body[0] % 32 == t then Framed(units, k, c - 1)
    else Latest(units, k, c - 1, t, initial)
  }

  /** The packet for slice number `c`: one of type 5 stands behind the latest units of types 7 and 8. */
  function Packet(units: seq<Nal>, k: nat, c: nat, a: Kept): seq<byte>
    requires k < |units|
  {
    if Nth(units, k, c).body[0] % 32 == 5 then
      Latest(units, k, c, 7, a.sps) + Latest(units, k, c, 8, a.pps) + Framed(units, k, c)
    else Framed(units, k, c)
  }

  /** Packets for exactly the slices among the first `c` units, in file order. */
  function Packets(units: seq<Nal>, k: nat, c: nat, a: Kept): seq<seq<byte>>
    requires k < |units|
  {
    if c == 0 then []
    else Packets(units, k, c - 1, a) + (if SliceAt(units, k, c - 1) then [Packet(units, k, c - 1, a)] else [])
  }

  lemma VisitIs(units: seq<Nal>, k: nat, c: nat, s: State)
    requires k < |units|
    ensures Visit(units, Index(|units|, k, c), s) ==
            var data := Framed(units, k, c);
            var t := State([], s.sps, s.pps, false, s.delivered);
            match Nth(units, k, c).body[0] % 32
            case 1 => t.(stop := true, delivered := s.delivered + [data])
            case 5 => t.(stop := true, delivered := s.delivered + [s.sps + s.pps + data])
            case 7 => t.(sps := data)
            case 8 => t.(pps := data)
            case _ => t
  {
  }

  /** `s` holds the latest parameter sets of the first `c` units and the packets of their slices. */
  predicate Visited(units: seq<Nal>, k: nat, c: nat, a: Kept, s: State)
    requires k < |units|
  {
    && s.buf == []
    && s.sps == Latest(units, k, c, 7, a.sps) && s.pps == Latest(units, k, c, 8, a.pps)
    && s.delivered == a.delivered + Packets(units, k, c, a)
  }

  lemma VisitedStep(units: seq<Nal>, k: nat, c: nat, a: Kept, s: State)
    requires k < |units| && Visited(units, k, c, a, s)
    ensures Visited(units, k, c + 1, a, Visit(units, Index(|units|, k, c), s))
  {
    VisitIs(units, k, c, s);
    assert forall x: seq<byte> :: (a.delivered + Packets(units, k, c, a)) + [x] == a.delivered + (Packets(units, k, c, a) + [x]);
    assert Packets(units, k, c, a) + [] == Packets(units, k, c, a);
  }

  lemma {:induction false} VisitedIs(units: seq<Nal>, k: nat, c: nat, a: Kept)
    requires k < |units|
    ensures Visited(units, k, c, a, VisitN(units, k, Load(a), c))
  {
    if c > 0 {
      VisitedIs(units, k, c - 1, a);
      VisitedStep(units, k, c - 1, a, VisitN(units, k, Load(a), c - 1));
    } else {
      assert a.delivered + [] == a.delivered;
    }
  }

  lemma VisitIgnoresStop(units: seq<Nal>, k: nat, s: State)
    requires k < |units|
    ensures Visit(units, k, s.(stop := false)) == Visit(units, k, s)
  {
  }

  /** One visit more on both sides, on states that stand for themselves. */
  lemma VisitBoth(units: seq<Nal>, k: nat, s: State, c: nat, i: nat, r: State, d: nat, x: State)
    requires k < |units| && i < |units| && c > 0 && d > 0
    requires VisitN(units, k, s, c - 1) == x && VisitN(units, i, r, d - 1) in {x, x.(stop := false)}
    requires Index(|units|, k, c - 1) == Index(|units|, i, d - 1)
    ensures VisitN(units, k, s, c) == VisitN(units, i, r, d)
  {
    VisitIgnoresStop(units, Index(|units|, k, c - 1), x);
  }

  lemma {:induction false} VisitMore(units: seq<Nal>, k: nat, s: State, c: nat, d: nat, i: nat, r: State)
    requires k < |units| && d > 0 && i == Index(|units|, k, c) && r == VisitN(units, k, s, c).(stop := false)
    ensures VisitN(units, k, s, c + d) == VisitN(units, i, r, d)
  {
    IndexAdd(|units|, k, c, d - 1);
    if d > 1 {
      VisitMore(units, k, s, c, d - 1, i, r);
    }
    VisitBoth(units, k, s, c + d, i, r, d, VisitN(units, k, s, c + (d - 1)));
  }

  lemma {:induction false} SlicesMore(units: seq<Nal>, k: nat, c: nat, d: nat, e: nat)
    requires k < |units| && e < d && UpToSlice(units, Index(|units|, k, c), d)
    ensures Slices(units, k, c + e) == Slices(units, k, c)
    ensures SliceAt(units, k, c + e) == (e == d - 1)
  {
    IndexAdd(|units|, k, c, e);
    assert SliceAt(units, k, c + e) == SliceAt(units, Index(|units|, k, c), e);
    if e > 0 {
      SlicesMore(units, k, c, d, e - 1);
      assert c + e - 1 == c + (e - 1);
    }
  }

  /** Where a run of calls has brought the reader after `c` units. */
  function Reached(v: Clip, k: nat, c: nat, a: Kept): Kept
    requires Valid(v) && k < |v.units|
  {
    Kept(Pos(v, k, c), Latest(v.units, k, c, 7, a.sps), Latest(v.units, k, c, 8, a.pps),
         a.delivered + Packets(v.units, k, c, a))
  }

  lemma ReachedIs(v: Clip, k: nat, c: nat, a: Kept)
    requires Valid(v) && k < |v.units|
    ensures Reached(v, k, c, a) == End(Machine(Pos(v, k, c), VisitN(v.units, k, Load(a), c)))
    ensures Load(Reached(v, k, c, a)) == VisitN(v.units, k, Load(a), c).(stop := false)
  {
    VisitedIs(v.units, k, c, a);
  }

  lemma ReachedAtStart(v: Clip, k: nat, a: Kept)
    requires Valid(v) && k < |v.units| && a.pos == BodyAt(v, k)
    ensures Reached(v, k, 0, a) == a
  {
    assert a.delivered + [] == a.delivered;
  }

  lemma OneMoreCall(v: Clip, k: nat, c: nat, a: Kept, d: nat, i: nat, c2: nat, b: Kept)
    requires Valid(v) && k < |v.units| && i == Index(|v.units|, k, c) && UpToSlice(v.units, i, d) && c2 == c + d
    requires b.pos == Pos(v, k, c) && Load(b) == VisitN(v.units, k, Load(a), c).(stop := false)
    ensures Halts(v.file, Begin(b))
    ensures Call(v.file, Begin(b)) == Machine(Pos(v, k, c2), VisitN(v.units, k, Load(a), c2))
  {
    CallVisits(v, i, b, d);
    VisitMore(v.units, k, Load(a), c, d, i, Load(b));
    IndexAdd(|v.units|, k, c, d);
  }

  /** The whole run: after any number of calls from an aligned position the reader has visited some
      number `c` of units, around the end of the file as often as need be; the packets delivered
      are exactly those of the slices among them, one per call, and the caches hold the latest
      parameter sets. */
  lemma {:induction false} DeliversTheSlices(v: Clip, k: nat, a: Kept, m: nat, j: nat) returns (c: nat, b: Kept)
    requires Valid(v) && k < |v.units| && a.pos == BodyAt(v, k) && j < |v.units| && IsSlice(v.units[j])
    ensures Calls(v.file, a, m, b)
    ensures b == Reached(v, k, c, a)
    ensures Slices(v.units, k, c) == m && (c > 0 ==> SliceAt(v.units, k, c - 1))
  {
    if m == 0 {
      c, b := 0, a;
      ReachedAtStart(v, k, a);
    } else {
      var c1, b1 := DeliversTheSlices(v, k, a, m - 1, j);
      c, b := DeliversOneMore(v, k, a, m, j, c1, b1);
    }
  }

  lemma DeliversOneMore(v: Clip, k: nat, a: Kept, m: nat, j: nat, c1: nat, b1: Kept) returns (c: nat, b: Kept)
    requires Valid(v) && k < |v.units| && j < |v.units| && IsSlice(v.units[j]) && m > 0
    requires Calls(v.file, a, m - 1, b1) && b1 == Reached(v, k, c1, a) && Slices(v.units, k, c1) == m - 1
    ensures Calls(v.file, a, m, b)
    ensures b == Reached(v, k, c, a)
    ensures Slices(v.units, k, c) == m && c > 0 && SliceAt(v.units, k, c - 1)
  {
    c := NextStop(v.units, k, c1, j);
    b := CallTo(v, k, a, c1, b1, c);
    CallsMore(v.file, a, m, b1, b);
  }

  /** `c` is the number of units visited when the slice after the first `c1` units has been. */
  predicate StopsAt(units: seq<Nal>, k: nat, c1: nat, c: nat)
    requires k < |units|
  {
    c >= c1 && UpToSlice(units, Index(|units|, k, c1), c - c1)
  }

  lemma NextStop(units: seq<Nal>, k: nat, c1: nat, j: nat) returns (c: nat)
    requires k < |units| && j < |units| && IsSlice(units[j])
    ensures StopsAt(units, k, c1, c)
    ensures Slices(units, k, c) == Slices(units, k, c1) + 1 && c > 0 && SliceAt(units, k, c - 1)
  {
    var d := NextSlice(units, Index(|units|, k, c1), j);
    CountsMore(units, k, c1, d);
    c := c1 + d;
  }

  lemma CallTo(v: Clip, k: nat, a: Kept, c1: nat, b1: Kept, c: nat) returns (b: Kept)
    requires Valid(v) && k < |v.units| && b1 == Reached(v, k, c1, a) && StopsAt(v.units, k, c1, c)
    ensures b == Reached(v, k, c, a)
    ensures Halts(v.file, Begin(b1)) && b == End(Call(v.file, Begin(b1)))
  {
    b := Reached(v, k, c, a);
    ReachedIs(v, k, c1, a);
    ReachedIs(v, k, c, a);
    OneMoreCall(v, k, c1, a, c - c1, Index(|v.units|, k, c1), c, b1);
  }

  lemma CallsMore(file: seq<byte>, a: Kept, m: nat, c: Kept, b: Kept)
    requires m > 0 && Calls(file, a, m - 1, c) && Halts(file, Begin(c)) && b == End(Call(file, Begin(c)))
    ensures Calls(file, a, m, b)
  {
  }

  lemma CountsMore(units: seq<Nal>, k: nat, c: nat, d: nat)
    requires k < |units| && UpToSlice(units, Index(|units|, k, c), d)
    ensures Slices(units, k, c + d) == Slices(units, k, c) + 1 && SliceAt(units, k, c + d - 1)
  {
    SlicesMore(units, k, c, d, d - 1);
    assert c + (d - 1) == c + d - 1;
  }

  lemma {:induction false} CallsFromStart(v: Clip, a: Kept, m: nat, b: Kept, j: nat)
    requires Valid(v) && FirstFits(v.units) && a.pos == 0 && j < |v.units| && IsSlice(v.units[j]) && m > 0
    requires Calls(v.file, a.(pos := BodyAt(v, Next(|v.units|, 0))), m, b)
    ensures Calls(v.file, a, m, b)
  {
    var aligned := a.(pos := BodyAt(v, Next(|v.units|, 0)));
    var c :| Calls(v.file, aligned, m - 1, c) && Halts(v.file, Begin(c)) && b == End(Call(v.file, Begin(c)));
    if m == 1 {
      StartSkipsFirstUnit(v, a, j);
      CallsMore(v.file, a, 1, a, b);
    } else {
      CallsFromStart(v, a, m - 1, c, j);
      CallsMore(v.file, a, m, c, b);
    }
  }

  /** A fresh reader on a well-formed file: the run of the second unit on, with empty caches. */
  lemma FreshReader(units: seq<Nal>, m: nat, j: nat) returns (v: Clip, c: nat, b: Kept)
    requires AllGood(units) && Fits(units) && j < |units| && FirstFits(units) && IsSlice(units[j]) && m > 0
    ensures Valid(v) && v.units == units && v.file == File(units)
    ensures Calls(File(units), Kept(0, [], [], []), m, b)
    ensures var k := Next(|units|, 0);
            && b == Reached(v, k, c, Kept(BodyAt(v, k), [], [], []))
            && Slices(units, k, c) == m && c > 0 && SliceAt(units, k, c - 1)
  {
    v := FileIsClip(units);
    var k := Next(|units|, 0);
    c, b := DeliversTheSlices(v, k, Kept(BodyAt(v, k), [], [], []), m, j);
    CallsFromStart(v, Kept(0, [], [], []), m, b, j);
  }
}
