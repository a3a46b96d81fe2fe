/**
 * What reading and writing mean, in terms of the tree alone: which trees a type accepts, which value
 * an accepted tree gives, which tree a value gives, and which exception a tree that is not accepted
 * causes (core/json/serialization.hpp:151-488).
 */
module JsonMeaning {
  import opened Basics
  import opened JsonModel
  import opened JsonLaws

  // ---------------------------------------------------------------- members and keys

  /** `FindMember` gives the first member of the name, and nothing exactly if there is none. */
  lemma {:induction false} FindMeaning(ms: seq<(string, Json)>, name: string)
    ensures var m := Find(ms, name);
            if m.Some? then exists i :: 0 <= i < |ms| && ms[i] == (name, m.value) && forall k :: 0 <= k < i ==> ms[k].0 != name
            else forall k :: 0 <= k < |ms| ==> ms[k].0 != name
  {
    if ms != [] && ms[0].0 != name {
      var rest := ms[1..];
      FindMeaning(rest, name);
      if i :| 0 <= i < |rest| && Find(rest, name).Some? && rest[i] == (name, Find(rest, name).value)
              && forall k :: 0 <= k < i ==> rest[k].0 != name
      {
        assert ms[i + 1] == rest[i];
        assert forall k :: 1 <= k < i + 1 ==> ms[k] == rest[k - 1];
      }
      assert forall k :: 1 <= k < |ms| ==> ms[k] == rest[k - 1];
    }
  }

  /** The order of keys: the first difference decides, and a prefix comes first. */
  lemma {:induction false} LessMeaning(a: string, b: string)
    ensures Less(a, b) <==>
            || (a < b)
            || exists i :: 0 <= i < |a| && i < |b| && a[..i] == b[..i] && a[i] < b[i]
  {
    if a != "" && b != "" && a[0] == b[0] {
      var c, d := a[1..], b[1..];
      assert a == [a[0]] + c && b == [b[0]] + d;
      LessMeaning(c, d);
      if i :| 0 <= i < |c| && i < |d| && c[..i] == d[..i] && c[i] < d[i] {
        assert a[..i + 1] == [a[0]] + c[..i] && b[..i + 1] == [b[0]] + d[..i];
        assert a[i + 1] < b[i + 1];
      }
      if i :| 0 <= i < |a| && i < |b| && a[..i] == b[..i] && a[i] < b[i] {
        assert i > 0 && c[..i - 1] == a[..i][1..] && d[..i - 1] == b[..i][1..];
        assert c[i - 1] < d[i - 1];
      }
    } else if a != "" && b != "" {
      assert a[..0] == b[..0];
      if i :| 0 < i < |a| && i < |b| && a[..i] == b[..i] {
        assert a[..i][0] == b[..i][0];
      }
    }
  }

  // ---------------------------------------------------------------- which trees are accepted

  predicate FitsNative(n: Native, j: Json) {
    match n
    case TBool => j.JBool?
    case TInt => j.JInt? && -2147483648 <= j.i <= 2147483647
    case TInt64 => j.JInt? && -9223372036854775808 <= j.i <= 9223372036854775807
    case TDouble => j.JDouble?
    case TString => j.JString?
    case TVector(e) => j.JArray? && forall i :: 0 <= i < |j.items| ==> FitsNative(e, j.items[i])
    case TMap(e) => j.JObject? && forall i :: 0 <= i < |j.members| ==> FitsNative(e, j.members[i].1)
  }

  /** A data member of that type accepts the object: missing keys and nulls are for optionals, and
      containers of structs may be missing. */
  predicate FitsMember(ty: Type, j: Json, name: string) {
    && j.JObject?
    && var m := Find(j.members, name);
       match ty
       case Pod(n) => m.Some? && FitsNative(n, m.value)
       case Struct(fs) => m.Some? && FitsFields(fs, m.value)
       case Optional(t) => m.None? || m.value.JNull? || FitsMember(t, j, name)
       case StructVector(fs) =>
         m.None? || (m.value.JArray? && forall i :: 0 <= i < |m.value.items| ==> FitsFields(fs, m.value.items[i]))
       case StructMap(fs) =>
         m.None? || (m.value.JObject? && forall i :: 0 <= i < |m.value.members| ==> FitsFields(fs, m.value.members[i].1))
  }

  predicate FitsFields(fs: Fields, j: Json) {
    match fs
    case End => true
    case Field(name, ty, rest) => FitsMember(ty, j, name) && FitsFields(rest, j)
  }

  lemma {:induction false} NativeFits(n: Native, j: Json)
    ensures ReadNative(n, j).Ok? <==> FitsNative(n, j)
    ensures ReadNative(n, j).Err? ==> ReadNative(n, j).error == TypeMismatch
    decreases n, 0
  {
    match n
    case TVector(e) => if j.JArray? { ItemsFit(e, j.items); }
    case TMap(e) => if j.JObject? { EntriesFit(e, j.members); }
    case _ =>
  }

  lemma {:induction false} ItemsFit(e: Native, js: seq<Json>)
    ensures ReadItems(e, js).Ok? <==> forall i :: 0 <= i < |js| ==> FitsNative(e, js[i])
    ensures ReadItems(e, js).Err? ==> ReadItems(e, js).error == TypeMismatch
    decreases e, |js| + 1
  {
    if js != [] {
      var init, j := InitLast(js);
      ItemsFit(e, init);
      NativeFits(e, j);
    }
  }

  lemma {:induction false} EntriesFit(e: Native, ms: seq<(string, Json)>)
    ensures ReadEntries(e, ms).Ok? <==> forall i :: 0 <= i < |ms| ==> FitsNative(e, ms[i].1)
    ensures ReadEntries(e, ms).Err? ==> ReadEntries(e, ms).error == TypeMismatch
    decreases e, |ms| + 1
  {
    if ms != [] {
      var init, m := InitLast(ms);
      EntriesFit(e, init);
      NativeFits(e, m.1);
    }
  }

  lemma {:induction false} MemberFits(ty: Type, j: Json, name: string, t: Val)
    requires Typed(ty, t)
    ensures ReadMember(ty, j, name, t).Ok? <==> FitsMember(ty, j, name)
    decreases ty, 0
  {
    if j.JObject? && Find(j.members, name).Some? {
      var m := Find(j.members, name).value;
      match ty
      case Pod(n) => NativeFits(n, m);
      case Struct(fs) => ReadsIff(fs, m, t.fields);
      case Optional(s) => MemberFits(s, j, name, Fresh(s));
      case StructVector(fs) => if m.JArray? { StructsFit(fs, m.items); }
      case StructMap(fs) => if m.JObject? { StructEntriesFit(fs, m.members); }
    }
  }

  /** Reading succeeds if and only if the type accepts the tree, whatever the target. */
  lemma {:induction false} ReadsIff(fs: Fields, j: Json, ts: seq<Val>)
    requires TypedFields(fs, ts)
    ensures ReadFields(fs, j, ts).Ok? <==> FitsFields(fs, j)
    decreases fs, 0
  {
    if fs.Field? {
      MemberFits(fs.ty, j, fs.name, ts[0]);
      ReadsIff(fs.rest, j, ts[1..]);
    }
  }

  lemma {:induction false} StructsFit(fs: Fields, js: seq<Json>)
    ensures ReadStructs(fs, js).Ok? <==> forall i :: 0 <= i < |js| ==> FitsFields(fs, js[i])
    decreases fs, |js| + 1
  {
    if js != [] {
      var init, j := InitLast(js);
      StructsFit(fs, init);
      ReadsIff(fs, j, FreshFields(fs));
    }
  }

  lemma {:induction false} StructEntriesFit(fs: Fields, ms: seq<(string, Json)>)
    ensures ReadStructEntries(fs, ms).Ok? <==> forall i :: 0 <= i < |ms| ==> FitsFields(fs, ms[i].1)
    decreases fs, |ms| + 1
  {
    if ms != [] {
      var init, m := InitLast(ms);
      StructEntriesFit(fs, init);
      ReadsIff(fs, m.1, FreshFields(fs));
    }
  }

  /** The exception: a tree that is no object is a mismatch for structs and optionals and a failed
      assertion for the others; a missing key is one for native members and structs only; a tree of
      the wrong kind is a mismatch. */
  lemma MemberError(ty: Type, j: Json, name: string, t: Val)
    requires Typed(ty, t)
    ensures !j.JObject? ==> ReadMember(ty, j, name, t) == Err(if ty.Struct? || ty.Optional? then TypeMismatch else Assertion)
    ensures j.JObject? && Find(j.members, name).None? && (ty.Pod? || ty.Struct?) ==> ReadMember(ty, j, name, t) == Err(MissingKey)
    ensures j.JObject? && Find(j.members, name).Some? && !FitsMember(ty, j, name) && ty.Pod? ==>
              ReadMember(ty, j, name, t) == Err(TypeMismatch)
    ensures j.JObject? && Find(j.members, name).Some? && ty.StructVector? && !Find(j.members, name).value.JArray? ==>
              ReadMember(ty, j, name, t) == Err(TypeMismatch)
    ensures j.JObject? && Find(j.members, name).Some? && ty.StructMap? && !Find(j.members, name).value.JObject? ==>
              ReadMember(ty, j, name, t) == Err(TypeMismatch)
  {
    if j.JObject? && Find(j.members, name).Some? && ty.Pod? { NativeFits(ty.native, Find(j.members, name).value); }
  }

  // ---------------------------------------------------------------- which value a tree gives

  /** `t` is the text before the first NUL of `s`. */
  predicate BeforeNul(s: string, t: string) {
    t <= s && 0 as char !in t && (t == s || s[|t|] == 0 as char)
  }

  lemma {:induction false} CStringMeaning(s: string)
    ensures BeforeNul(s, CString(s))
  {
    if s != "" && s[0] != 0 as char {
      var rest := s[1..];
      CStringMeaning(rest);
      assert s == [s[0]] + rest;
    }
  }

  /** No later member has the key of member `i`. */
  predicate IsLast(ms: seq<(string, Json)>, i: nat) {
    i < |ms| && forall k :: i < k < |ms| ==> ms[k].0 != ms[i].0
  }

  ghost predicate MeansNative(n: Native, j: Json, v: Val)
    decreases n, 0
  {
    match n
    case TBool => j.JBool? && v == VBool(j.b)
    case TInt => j.JInt? && v == VInt(j.i)
    case TInt64 => j.JInt? && v == VInt(j.i)
    case TDouble => j.JDouble? && v == VDouble(j.d)
    case TString => j.JString? && v.VString? && BeforeNul(j.s, v.s)
    case TVector(e) =>
      j.JArray? && v.VVector? && |v.items| == |j.items| && forall i :: 0 <= i < |j.items| ==> MeansNative(e, j.items[i], v.items[i])
    case TMap(e) => j.JObject? && v.VMap? && MeansEntries(e, j.members, v.entries)
  }

  predicate HasKey(es: seq<(string, Val)>, key: string) { exists k :: 0 <= k < |es| && es[k].0 == key }

  /** The entries are sorted, and there is one for each key among the members. */
  predicate KeysOf(ms: seq<(string, Json)>, es: seq<(string, Val)>) {
    SortedKeys(es) && forall i :: 0 <= i < |ms| ==> HasKey(es, ms[i].0)
  }

  /** Each entry comes from the last member of its key. */
  ghost predicate MeansEntries(e: Native, ms: seq<(string, Json)>, es: seq<(string, Val)>)
    decreases e, 3
  {
    KeysOf(ms, es) && forall k :: 0 <= k < |es| ==> Sourced(e, ms, es[k])
  }

  ghost predicate Sourced(e: Native, ms: seq<(string, Json)>, x: (string, Val))
    decreases e, 2
  {
    exists i: nat :: EntryFrom(e, ms, i, x)
  }

  /** The entry comes from member `i`, the last one of its key. */
  ghost predicate EntryFrom(e: Native, ms: seq<(string, Json)>, i: nat, x: (string, Val))
    decreases e, 1
  {
    IsLast(ms, i) && ms[i].0 == x.0 && MeansNative(e, ms[i].1, x.1)
  }

  /** The value of a data member: an optional that is missing or null keeps what the target holds,
      contents of optionals and elements of containers are read into new objects. */
  ghost predicate MeansMember(ty: Type, j: Json, name: string, t: Val, v: Val)
    decreases ty, 0
  {
    && j.JObject?
    && var m := Find(j.members, name);
       match ty
       case Pod(n) => m.Some? && MeansNative(n, m.value, v)
       case Struct(fs) => m.Some? && t.VStruct? && v.VStruct? && MeansFields(fs, m.value, t.fields, v.fields)
       case Optional(s) =>
         if m.None? || m.value.JNull? then v == t else v.VSome? && MeansMember(s, j, name, Fresh(s), v.value)
       case StructVector(fs) =>
         && v.VVector?
         && if m.None? then v.items == []
            else
              && m.value.JArray? && |v.items| == |m.value.items|
              && forall i :: 0 <= i < |v.items| ==> MeansStruct(fs, m.value.items[i], v.items[i])
       case StructMap(fs) =>
         && v.VMap?
         && if m.None? then v.entries == [] else m.value.JObject? && MeansStructEntries(fs, m.value.members, v.entries)
  }

  ghost predicate MeansStructEntries(fs: Fields, ms: seq<(string, Json)>, es: seq<(string, Val)>)
    decreases fs, 4
  {
    KeysOf(ms, es) && forall k :: 0 <= k < |es| ==> StructSourced(fs, ms, es[k])
  }

  ghost predicate StructSourced(fs: Fields, ms: seq<(string, Json)>, x: (string, Val))
    decreases fs, 3
  {
    exists i: nat :: StructFrom(fs, ms, i, x)
  }

  ghost predicate MeansStruct(fs: Fields, j: Json, v: Val)
    decreases fs, 1
  {
    v.VStruct? && MeansFields(fs, j, FreshFields(fs), v.fields)
  }

  ghost predicate StructFrom(fs: Fields, ms: seq<(string, Json)>, i: nat, x: (string, Val))
    decreases fs, 2
  {
    IsLast(ms, i) && ms[i].0 == x.0 && MeansStruct(fs, ms[i].1, x.1)
  }

  ghost predicate MeansFields(fs: Fields, j: Json, ts: seq<Val>, vs: seq<Val>)
    decreases fs, 0
  {
    match fs
    case End => vs == []
    case Field(name, ty, rest) =>
      ts != [] && vs != [] && MeansMember(ty, j, name, ts[0], vs[0]) && MeansFields(rest, j, ts[1..], vs[1..])
  }

  lemma {:induction false} NativeMeans(n: Native, j: Json)
    requires ReadNative(n, j).Ok?
    ensures MeansNative(n, j, ReadNative(n, j).value)
    decreases n, 0
  {
    match n
    case TString => CStringMeaning(j.s);
    case TVector(e) => ItemsMean(e, j.items);
    case TMap(e) => EntriesMean(e, j.members);
    case _ =>
  }

  lemma {:induction false} ItemsMean(e: Native, js: seq<Json>)
    requires ReadItems(e, js).Ok?
    ensures var vs := ReadItems(e, js).value;
            |vs| == |js| && forall i :: 0 <= i < |js| ==> MeansNative(e, js[i], vs[i])
    decreases e, |js| + 1
  {
    if js != [] {
      var init, j := InitLast(js);
      ItemsMean(e, init);
      NativeMeans(e, j);
    }
  }

  /** Assigning the value of one more member keeps what the entries so far mean. */
  lemma KeysGrow(ms: seq<(string, Json)>, init: seq<(string, Json)>, m: (string, Json), es: seq<(string, Val)>, v: Val, more: seq<(string, Val)>)
    requires ms == init + [m] && KeysOf(init, es) && more == Put(es, m.0, v)
    ensures KeysOf(ms, more)
  {
    PutSorted(es, m.0, v);
    forall i | 0 <= i < |ms| ensures HasKey(more, ms[i].0) {
      if ms[i].0 == m.0 {
        PutHas(es, m.0, v, (m.0, v));
      } else {
        assert HasKey(es, init[i].0);
        var k :| 0 <= k < |es| && es[k].0 == ms[i].0;
        PutHas(es, m.0, v, es[k]);
        assert es[k] in more;
      }
    }
  }

  lemma StaysLast(ms: seq<(string, Json)>, init: seq<(string, Json)>, m: (string, Json), i: nat)
    requires ms == init + [m] && IsLast(init, i) && init[i].0 != m.0
    ensures IsLast(ms, i) && ms[i] == init[i]
  {
  }

  lemma EntryStays(e: Native, ms: seq<(string, Json)>, init: seq<(string, Json)>, m: (string, Json), x: (string, Val))
    requires ms == init + [m] && Sourced(e, init, x) && x.0 != m.0
    ensures Sourced(e, ms, x)
  {
    var i: nat :| EntryFrom(e, init, i, x);
    StaysLast(ms, init, m, i);
    assert EntryFrom(e, ms, i, x);
  }

  lemma EntryAdded(e: Native, ms: seq<(string, Json)>, init: seq<(string, Json)>, m: (string, Json), v: Val)
    requires ms == init + [m] && MeansNative(e, m.1, v)
    ensures Sourced(e, ms, (m.0, v))
  {
    assert ms[|init|] == m;
    assert EntryFrom(e, ms, |init|, (m.0, v));
  }

  lemma EntriesGrow(
    e: Native, ms: seq<(string, Json)>, init: seq<(string, Json)>, m: (string, Json), es: seq<(string, Val)>, v: Val, more: seq<(string, Val)>)
    requires ms == init + [m] && MeansEntries(e, init, es) && MeansNative(e, m.1, v) && more == Put(es, m.0, v)
    ensures MeansEntries(e, ms, more)
  {
    KeysGrow(ms, init, m, es, v, more);
    forall k | 0 <= k < |more| ensures Sourced(e, ms, more[k]) {
      var x := more[k];
      assert x in more;
      PutHas(es, m.0, v, x);
      if x == (m.0, v) {
        EntryAdded(e, ms, init, m, v);
      } else {
        var l :| 0 <= l < |es| && es[l] == x;
        EntryStays(e, ms, init, m, es[l]);
      }
    }
  }

  lemma {:induction false} EntriesMean(e: Native, ms: seq<(string, Json)>)
    requires ReadEntries(e, ms).Ok?
    ensures MeansEntries(e, ms, ReadEntries(e, ms).value)
    decreases e, |ms| + 1
  {
    if ms != [] {
      var init, m := InitLast(ms);
      EntriesMean(e, init);
      NativeMeans(e, m.1);
      var es, v := ReadEntries(e, init).value, ReadNative(e, m.1).value;
      EntriesGrow(e, ms, init, m, es, v, Put(es, m.0, v));
    }
  }

  lemma {:induction false} MemberMeans(ty: Type, j: Json, name: string, t: Val)
    requires Typed(ty, t) && ReadMember(ty, j, name, t).Ok?
    ensures MeansMember(ty, j, name, t, ReadMember(ty, j, name, t).value)
    decreases ty, 0
  {
    if Find(j.members, name).Some? {
      var m := Find(j.members, name).value;
      match ty
      case Pod(n) => NativeMeans(n, m);
      case Struct(fs) => ReadMeans(fs, m, t.fields);
      case Optional(s) => if !m.JNull? { MemberMeans(s, j, name, Fresh(s)); }
      case StructVector(fs) => StructsMean(fs, m.items);
      case StructMap(fs) => StructEntriesMean(fs, m.members);
    }
  }

  /** What reading gives is what the tree means for the type and the target. */
  lemma {:induction false} ReadMeans(fs: Fields, j: Json, ts: seq<Val>)
    requires TypedFields(fs, ts) && ReadFields(fs, j, ts).Ok?
    ensures MeansFields(fs, j, ts, ReadFields(fs, j, ts).value)
    decreases fs, 0
  {
    if fs.Field? {
      MemberMeans(fs.ty, j, fs.name, ts[0]);
      ReadMeans(fs.rest, j, ts[1..]);
    }
  }

  lemma {:induction false} StructsMean(fs: Fields, js: seq<Json>)
    requires ReadStructs(fs, js).Ok?
    ensures var vs := ReadStructs(fs, js).value;
            |vs| == |js| && forall i :: 0 <= i < |js| ==> MeansStruct(fs, js[i], vs[i])
    decreases fs, |js| + 1
  {
    if js != [] {
      var init, j := InitLast(js);
      StructsMean(fs, init);
      ReadMeans(fs, j, FreshFields(fs));
    }
  }

  lemma StructStays(fs: Fields, ms: seq<(string, Json)>, init: seq<(string, Json)>, m: (string, Json), x: (string, Val))
    requires ms == init + [m] && StructSourced(fs, init, x) && x.0 != m.0
    ensures StructSourced(fs, ms, x)
  {
    var i: nat :| StructFrom(fs, init, i, x);
    StaysLast(ms, init, m, i);
    assert StructFrom(fs, ms, i, x);
  }

  lemma StructAdded(fs: Fields, ms: seq<(string, Json)>, init: seq<(string, Json)>, m: (string, Json), v: Val)
    requires ms == init + [m] && MeansStruct(fs, m.1, v)
    ensures StructSourced(fs, ms, (m.0, v))
  {
    assert ms[|init|] == m;
    assert StructFrom(fs, ms, |init|, (m.0, v));
  }

  lemma StructEntriesGrow(
    fs: Fields, ms: seq<(string, Json)>, init: seq<(string, Json)>, m: (string, Json), es: seq<(string, Val)>, v: Val, more: seq<(string, Val)>)
    requires ms == init + [m] && MeansStructEntries(fs, init, es) && MeansStruct(fs, m.1, v) && more == Put(es, m.0, v)
    ensures MeansStructEntries(fs, ms, more)
  {
    KeysGrow(ms, init, m, es, v, more);
    forall k | 0 <= k < |more| ensures StructSourced(fs, ms, more[k]) {
      var x := more[k];
      assert x in more;
      PutHas(es, m.0, v, x);
      if x == (m.0, v) {
        StructAdded(fs, ms, init, m, v);
      } else {
        var l :| 0 <= l < |es| && es[l] == x;
        StructStays(fs, ms, init, m, es[l]);
      }
    }
  }

  lemma {:induction false} StructEntriesMean(fs: Fields, ms: seq<(string, Json)>)
    requires ReadStructEntries(fs, ms).Ok?
    ensures MeansStructEntries(fs, ms, ReadStructEntries(fs, ms).value)
    decreases fs, |ms| + 1
  {
    if ms != [] {
      var init, m := InitLast(ms);
      StructEntriesMean(fs, init);
      ReadMeans(fs, m.1, FreshFields(fs));
      var es, v := ReadStructEntries(fs, init).value, VStruct(ReadFields(fs, m.1, FreshFields(fs)).value);
      assert MeansStruct(fs, m.1, v);
      StructEntriesGrow(fs, ms, init, m, es, v, Put(es, m.0, v));
    }
  }

  // ---------------------------------------------------------------- which tree a value gives

  predicate ShowsNative(n: Native, v: Val, j: Json) {
    match n
    case TBool => v.VBool? && j == JBool(v.b)
    case TInt => v.VInt? && j == JInt(v.i)
    case TInt64 => v.VInt? && j == JInt(v.i)
    case TDouble => v.VDouble? && j == JDouble(v.d)
    case TString => v.VString? && j == JString(v.s)
    case TVector(e) =>
      v.VVector? && j.JArray? && |j.items| == |v.items| && forall i :: 0 <= i < |v.items| ==> ShowsNative(e, v.items[i], j.items[i])
    case TMap(e) =>
      && v.VMap? && j.JObject? && |j.members| == |v.entries|
      && forall i :: 0 <= i < |v.entries| ==> j.members[i].0 == v.entries[i].0 && ShowsNative(e, v.entries[i].1, j.members[i].1)
  }

  /** The tree of a data member that is no empty optional. */
  predicate ShowsMember(ty: Type, v: Val, j: Json)
    decreases ty, 0
  {
    match ty
    case Pod(n) => ShowsNative(n, v, j)
    case Struct(fs) => ShowsStruct(fs, v, j)
    case Optional(t) => v.VSome? && ShowsMember(t, v.value, j)
    case StructVector(fs) =>
      v.VVector? && j.JArray? && |j.items| == |v.items| && forall i :: 0 <= i < |v.items| ==> ShowsStruct(fs, v.items[i], j.items[i])
    case StructMap(fs) =>
      && v.VMap? && j.JObject? && |j.members| == |v.entries|
      && forall i :: 0 <= i < |v.entries| ==> j.members[i].0 == v.entries[i].0 && ShowsStruct(fs, v.entries[i].1, j.members[i].1)
  }

  predicate ShowsStruct(fs: Fields, v: Val, j: Json)
    decreases fs, 1
  {
    v.VStruct? && j.JObject? && ShowsFields(fs, v.fields, j.members)
  }

  /** One member for each field that is no empty optional, in declaration order, and no others. */
  predicate ShowsFields(fs: Fields, vs: seq<Val>, ms: seq<(string, Json)>)
    decreases fs, 0
  {
    match fs
    case End => vs == [] && ms == []
    case Field(name, ty, rest) =>
      && vs != []
      && if ty.Optional? && vs[0].VNone? then ShowsFields(rest, vs[1..], ms)
         else ms != [] && ms[0].0 == name && ShowsMember(ty, vs[0], ms[0].1) && ShowsFields(rest, vs[1..], ms[1..])
  }

  lemma {:induction false} NativeShows(n: Native, v: Val)
    requires TypedNative(n, v)
    ensures ShowsNative(n, v, WriteNative(n, v))
    decreases n, 0
  {
    match n
    case TVector(e) => ItemsShow(e, v.items);
    case TMap(e) => EntriesShow(e, v.entries);
    case _ =>
  }

  lemma {:induction false} ItemsShow(e: Native, vs: seq<Val>)
    requires forall i :: 0 <= i < |vs| ==> TypedNative(e, vs[i])
    ensures forall i :: 0 <= i < |vs| ==> ShowsNative(e, vs[i], WriteItems(e, vs)[i])
    decreases e, |vs| + 1
  {
    if vs != [] {
      var init, v := InitLast(vs);
      ItemsSnoc(e, vs, init, v);
      ItemsShow(e, init);
      NativeShows(e, v);
    }
  }

  lemma {:induction false} EntriesShow(e: Native, es: seq<(string, Val)>)
    requires forall i :: 0 <= i < |es| ==> TypedNative(e, es[i].1)
    ensures var ms := WriteEntries(e, es);
            forall i :: 0 <= i < |es| ==> ms[i].0 == es[i].0 && ShowsNative(e, es[i].1, ms[i].1)
    decreases e, |es| + 1
  {
    if es != [] {
      var init, x := InitLast(es);
      EntriesSnoc(e, es, init, x.0, x.1);
      EntriesShow(e, init);
      NativeShows(e, x.1);
    }
  }

  lemma {:induction false} MemberShows(ty: Type, v: Val)
    requires Typed(ty, v) && WellFormed(ty)
    ensures Written(ty, v).None? <==> ty.Optional? && v.VNone?
    ensures Written(ty, v).Some? ==> ShowsMember(ty, v, Written(ty, v).value)
    decreases ty, 0
  {
    match ty
    case Pod(n) => NativeShows(n, v);
    case Struct(fs) => WritesWhatItShows(fs, v.fields);
    case Optional(t) => if v.VSome? { MemberShows(t, v.value); }
    case StructVector(fs) => StructsShow(fs, v.items);
    case StructMap(fs) => StructEntriesShow(fs, v.entries);
  }

  /** Writing gives exactly one member for each field that is no empty optional, in order. */
  lemma {:induction false} WritesWhatItShows(fs: Fields, vs: seq<Val>)
    requires TypedFields(fs, vs) && WellFormedFields(fs)
    ensures ShowsFields(fs, vs, WriteFields(fs, vs))
    decreases fs, 0
  {
    if fs.Field? {
      MemberShows(fs.ty, vs[0]);
      WritesWhatItShows(fs.rest, vs[1..]);
      var w, more := Written(fs.ty, vs[0]), WriteFields(fs.rest, vs[1..]);
      if w.Some? { assert ([(fs.name, w.value)] + more)[1..] == more; } else { assert [] + more == more; }
    }
  }

  lemma {:induction false} StructsShow(fs: Fields, vs: seq<Val>)
    requires WellFormedFields(fs) && forall i :: 0 <= i < |vs| ==> TypedStruct(fs, vs[i])
    ensures forall i :: 0 <= i < |vs| ==> ShowsStruct(fs, vs[i], WriteStructs(fs, vs)[i])
    decreases fs, |vs| + 1
  {
    if vs != [] {
      var init, v := InitLast(vs);
      StructsSnoc(fs, vs, init, v);
      StructsShow(fs, init);
      WritesWhatItShows(fs, v.fields);
    }
  }

  lemma {:induction false} StructEntriesShow(fs: Fields, es: seq<(string, Val)>)
    requires WellFormedFields(fs) && forall i :: 0 <= i < |es| ==> TypedStruct(fs, es[i].1)
    ensures var ms := WriteStructEntries(fs, es);
            forall i :: 0 <= i < |es| ==> ms[i].0 == es[i].0 && ShowsStruct(fs, es[i].1, ms[i].1)
    decreases fs, |es| + 1
  {
    if es != [] {
      var init, x := InitLast(es);
      StructEntriesSnoc(fs, es, init, x.0, x.1);
      StructEntriesShow(fs, init);
      WritesWhatItShows(fs, x.1.fields);
    }
  }
}
