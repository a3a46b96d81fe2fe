/**
 * Round trips of the object mapping: what reading a written value gives for every target, when
 * that is the value itself, reading a message with part of its fields, and normalisation.
 */
module JsonLaws {
  import opened Basics
  import opened JsonModel

  // ---------------------------------------------------------------- sorted maps

  lemma {:induction false} LessIsAnOrder(a: string, b: string)
    ensures !(Less(a, b) && Less(b, a)) && !Less(a, a)
    ensures a == b || Less(a, b) || Less(b, a)
    decreases |a|
  {
    if a != "" {
      LessIsAnOrder(a[1..], if b != "" then b[1..] else "");
      if b != "" && a[0] == b[0] && a[1..] == b[1..] {
        assert a == [a[0]] + a[1..] && b == [b[0]] + b[1..];
      }
    }
  }

  lemma {:induction false} LessTransitive(a: string, b: string, c: string)
    requires Less(a, b) && Less(b, c)
    ensures Less(a, c)
    decreases |a|
  {
    if a != "" && a[0] == b[0] && b[0] == c[0] {
      LessTransitive(a[1..], b[1..], c[1..]);
    }
  }

  /** A key above all others is appended. */
  lemma {:induction false} PutLast<T>(es: seq<(string, T)>, key: string, v: T)
    requires forall i :: 0 <= i < |es| ==> Less(es[i].0, key)
    ensures Put(es, key, v) == es + [(key, v)]
  {
    if es != [] {
      LessIsAnOrder(es[0].0, key);
      PutLast(es[1..], key, v);
      assert es == [es[0]] + es[1..];
    }
  }

  lemma {:induction false} PutSorted<T>(es: seq<(string, T)>, key: string, v: T)
    requires SortedKeys(es)
    ensures SortedKeys(Put(es, key, v))
    ensures forall i :: 0 <= i < |Put(es, key, v)| ==> Put(es, key, v)[i] == (key, v) || Put(es, key, v)[i] in es
  {
    if es != [] {
      LessIsAnOrder(es[0].0, key);
      if Less(key, es[0].0) {
        forall i | 0 <= i < |es| ensures Less(key, es[i].0) {
          if i > 0 { LessTransitive(key, es[0].0, es[i].0); }
        }
      } else if es[0].0 != key {
        var rest := Put(es[1..], key, v);
        PutSorted(es[1..], key, v);
        forall i | 0 <= i < |rest| ensures Less(es[0].0, rest[i].0) {
          if rest[i] != (key, v) {
            var k :| 0 <= k < |es[1..]| && es[1..][k] == rest[i];
          }
        }
      }
    }
  }

  /** Assignment to a key leaves exactly the new entry and the entries of other keys. */
  lemma {:induction false} PutHas<T>(es: seq<(string, T)>, key: string, v: T, x: (string, T))
    requires SortedKeys(es)
    ensures x in Put(es, key, v) <==> x == (key, v) || (x in es && x.0 != key)
  {
    if es != [] {
      var first, rest := es[0], es[1..];
      LessIsAnOrder(first.0, key);
      assert es == [first] + rest;
      if x in rest {
        var i :| 0 <= i < |rest| && rest[i] == x;
        assert Less(es[0].0, es[i + 1].0);
        if Less(key, first.0) { LessTransitive(key, first.0, x.0); }
        LessIsAnOrder(first.0, x.0);
        LessIsAnOrder(key, x.0);
      }
      if first.0 != key && !Less(key, first.0) { PutHas(rest, key, v, x); }
    }
  }

  // ---------------------------------------------------------------- what comes back

  /** Reading a written native value: strings end at their first NUL. */
  function ImageNative(n: Native, v: Val): Val
    requires TypedNative(n, v)
    decreases n, 0
  {
    match n
    case TString => VString(CString(v.s))
    case TVector(e) => VVector(ImageItems(e, v.items))
    case TMap(e) => VMap(ImageEntries(e, v.entries))
    case TBool => v
    case TInt => v
    case TInt64 => v
    case TDouble => v
  }

  function ImageItems(e: Native, vs: seq<Val>): (r: seq<Val>)
    requires forall i :: 0 <= i < |vs| ==> TypedNative(e, vs[i])
    ensures |r| == |vs| && forall i :: 0 <= i < |vs| ==> r[i] == ImageNative(e, vs[i])
    decreases e, |vs| + 1
  {
    if vs == [] then [] else ImageItems(e, vs[..|vs| - 1]) + [ImageNative(e, vs[|vs| - 1])]
  }

  function ImageEntries(e: Native, es: seq<(string, Val)>): (r: seq<(string, Val)>)
    requires forall i :: 0 <= i < |es| ==> TypedNative(e, es[i].1)
    ensures |r| == |es| && forall i :: 0 <= i < |es| ==> r[i] == (es[i].0, ImageNative(e, es[i].1))
    decreases e, |es| + 1
  {
    if es == [] then []
    else ImageEntries(e, es[..|es| - 1]) + [(es[|es| - 1].0, ImageNative(e, es[|es| - 1].1))]
  }

  /** Reading a written value into `t`: an empty optional leaves what `t` holds, everything else
      is replaced; elements of containers and contents of optionals are read into fresh values. */
  function Image(ty: Type, v: Val, t: Val): Val
    requires Typed(ty, v) && Typed(ty, t)
    decreases ty, 0
  {
    match ty
    case Pod(n) => ImageNative(n, v)
    case Struct(fs) => VStruct(ImageFields(fs, v.fields, t.fields))
    case Optional(s) => if v.VNone? then t else VSome(Image(s, v.value, Fresh(s)))
    case StructVector(fs) => VVector(ImageStructs(fs, v.items))
    case StructMap(fs) => VMap(ImageStructEntries(fs, v.entries))
  }

  function ImageFields(fs: Fields, vs: seq<Val>, ts: seq<Val>): seq<Val>
    requires TypedFields(fs, vs) && TypedFields(fs, ts)
    decreases fs, 0
  {
    match fs
    case End => []
    case Field(_, ty, rest) => [Image(ty, vs[0], ts[0])] + ImageFields(rest, vs[1..], ts[1..])
  }

  function ImageStruct(fs: Fields, v: Val): Val
    requires TypedStruct(fs, v)
    decreases fs, 1
  {
    VStruct(ImageFields(fs, v.fields, FreshFields(fs)))
  }

  function ImageStructs(fs: Fields, vs: seq<Val>): (r: seq<Val>)
    requires forall i :: 0 <= i < |vs| ==> TypedStruct(fs, vs[i])
    ensures |r| == |vs| && forall i :: 0 <= i < |vs| ==> r[i] == ImageStruct(fs, vs[i])
    decreases fs, |vs| + 2
  {
    if vs == [] then [] else ImageStructs(fs, vs[..|vs| - 1]) + [ImageStruct(fs, vs[|vs| - 1])]
  }

  function ImageStructEntries(fs: Fields, es: seq<(string, Val)>): (r: seq<(string, Val)>)
    requires forall i :: 0 <= i < |es| ==> TypedStruct(fs, es[i].1)
    ensures |r| == |es| && forall i :: 0 <= i < |es| ==> r[i] == (es[i].0, ImageStruct(fs, es[i].1))
    decreases fs, |es| + 2
  {
    if es == [] then []
    else ImageStructEntries(fs, es[..|es| - 1]) + [(es[|es| - 1].0, ImageStruct(fs, es[|es| - 1].1))]
  }

  // ---------------------------------------------------------------- reading a written value

  lemma {:induction false} NativeBack(n: Native, v: Val)
    requires TypedNative(n, v)
    ensures ReadNative(n, WriteNative(n, v)) == Ok(ImageNative(n, v))
    decreases n, 0
  {
    match n
    case TVector(e) => ItemsBack(e, v.items);
    case TMap(e) => EntriesBack(e, v.entries);
    case _ =>
  }

  lemma {:induction false} ItemsBack(e: Native, vs: seq<Val>)
    requires forall i :: 0 <= i < |vs| ==> TypedNative(e, vs[i])
    ensures ReadItems(e, WriteItems(e, vs)) == Ok(ImageItems(e, vs))
    decreases e, |vs| + 1
  {
    if vs != [] {
      var init, v := InitLast(vs);
      ItemsSnoc(e, vs, init, v);
      ItemsBack(e, init);
      NativeBack(e, v);
      ItemsExtend(e, WriteItems(e, init), ImageItems(e, init), WriteNative(e, v), ImageNative(e, v));
    }
  }

  lemma ItemsSnoc(e: Native, vs: seq<Val>, init: seq<Val>, v: Val)
    requires vs != [] && init == vs[..|vs| - 1] && v == vs[|vs| - 1]
    requires forall i :: 0 <= i < |vs| ==> TypedNative(e, vs[i])
    ensures TypedNative(e, v) && WriteItems(e, vs) == WriteItems(e, init) + [WriteNative(e, v)]
    ensures ImageItems(e, vs) == ImageItems(e, init) + [ImageNative(e, v)]
  {
  }

  lemma ItemsExtend(e: Native, js: seq<Json>, vs: seq<Val>, j: Json, v: Val)
    requires ReadItems(e, js) == Ok(vs) && ReadNative(e, j) == Ok(v)
    ensures ReadItems(e, js + [j]) == Ok(vs + [v])
  {
    assert (js + [j])[..|js|] == js;
  }

  lemma EntriesExtend(e: Native, ms: seq<(string, Json)>, es: seq<(string, Val)>, key: string, j: Json, v: Val)
    requires ReadEntries(e, ms) == Ok(es) && ReadNative(e, j) == Ok(v)
    requires forall i :: 0 <= i < |es| ==> Less(es[i].0, key)
    ensures ReadEntries(e, ms + [(key, j)]) == Ok(es + [(key, v)])
  {
    assert (ms + [(key, j)])[..|ms|] == ms;
    PutLast(es, key, v);
  }

  lemma EntriesSnoc(e: Native, es: seq<(string, Val)>, init: seq<(string, Val)>, key: string, v: Val)
    requires es != [] && init == es[..|es| - 1] && (key, v) == es[|es| - 1]
    requires forall i :: 0 <= i < |es| ==> TypedNative(e, es[i].1)
    ensures WriteEntries(e, es) == WriteEntries(e, init) + [(key, WriteNative(e, v))]
    ensures ImageEntries(e, es) == ImageEntries(e, init) + [(key, ImageNative(e, v))]
  {
  }

  lemma KeysBelow(e: Native, es: seq<(string, Val)>, key: string)
    requires forall i :: 0 <= i < |es| ==> TypedNative(e, es[i].1) && Less(es[i].0, key)
    ensures forall i :: 0 <= i < |ImageEntries(e, es)| ==> Less(ImageEntries(e, es)[i].0, key)
  {
  }

  lemma {:induction false} EntriesBack(e: Native, es: seq<(string, Val)>)
    requires SortedKeys(es) && forall i :: 0 <= i < |es| ==> TypedNative(e, es[i].1)
    ensures ReadEntries(e, WriteEntries(e, es)) == Ok(ImageEntries(e, es))
    decreases e, |es| + 1
  {
    if es != [] {
      var init, key, v := es[..|es| - 1], es[|es| - 1].0, es[|es| - 1].1;
      EntriesBack(e, init);
      NativeBack(e, v);
      KeysBelow(e, init, key);
      EntriesExtend(e, WriteEntries(e, init), ImageEntries(e, init), key, WriteNative(e, v), ImageNative(e, v));
      EntriesSnoc(e, es, init, key, v);
    }
  }

  /** Optionals are not nested directly, and the keys of a struct are distinct. */
  predicate WellFormed(ty: Type) {
    match ty
    case Pod(_) => true
    case Struct(fs) => WellFormedFields(fs)
    case Optional(t) => !t.Optional? && WellFormed(t)
    case StructVector(fs) => WellFormedFields(fs)
    case StructMap(fs) => WellFormedFields(fs)
  }

  predicate WellFormedFields(fs: Fields) {
    match fs
    case End => true
    case Field(name, ty, rest) => name !in Names(rest) && WellFormed(ty) && WellFormedFields(rest)
  }

  function Names(fs: Fields): set<string> {
    match fs
    case End => {}
    case Field(name, _, rest) => {name} + Names(rest)
  }

  /** Looking up each field in `members` finds what the writer wrote for it, or nothing where it
      wrote nothing. Other members do not matter. */
  predicate Holds(fs: Fields, vs: seq<Val>, members: seq<(string, Json)>)
    requires TypedFields(fs, vs)
  {
    match fs
    case End => true
    case Field(name, ty, rest) =>
      Find(members, name) == Written(ty, vs[0]) && Holds(rest, vs[1..], members)
  }

  lemma WrittenIsNoNull(ty: Type, v: Val)
    requires WellFormed(ty) && Typed(ty, v) && !ty.Optional?
    ensures Written(ty, v).Some? && !Written(ty, v).value.JNull?
  {
  }

  lemma {:induction false} MemberBack(ty: Type, v: Val, t: Val, members: seq<(string, Json)>, name: string)
    requires WellFormed(ty) && Typed(ty, v) && Typed(ty, t)
    requires Find(members, name) == Written(ty, v)
    ensures ReadMember(ty, JObject(members), name, t) == Ok(Image(ty, v, t))
    decreases ty, 0
  {
    match ty
    case Pod(n) => NativeBack(n, v);
    case Struct(fs) =>
      WriteHolds(fs, v.fields);
      FieldsBack(fs, v.fields, t.fields, WriteFields(fs, v.fields));
    case Optional(s) =>
      if v.VSome? {
        WrittenIsNoNull(s, v.value);
        MemberBack(s, v.value, Fresh(s), members, name);
      }
    case StructVector(fs) => StructsBack(fs, v.items);
    case StructMap(fs) => StructEntriesBack(fs, v.entries);
  }

  /** Reading any object that holds the written fields gives the image of the value. */
  lemma {:induction false} FieldsBack(fs: Fields, vs: seq<Val>, ts: seq<Val>, members: seq<(string, Json)>)
    requires WellFormedFields(fs) && TypedFields(fs, vs) && TypedFields(fs, ts) && Holds(fs, vs, members)
    ensures ReadFields(fs, JObject(members), ts) == Ok(ImageFields(fs, vs, ts))
    decreases fs, 0
  {
    match fs
    case End =>
    case Field(name, ty, rest) =>
      MemberBack(ty, vs[0], ts[0], members, name);
      FieldsBack(rest, vs[1..], ts[1..], members);
  }

  lemma {:induction false} StructBack(fs: Fields, v: Val)
    requires WellFormedFields(fs) && TypedStruct(fs, v)
    ensures ReadFields(fs, JObject(WriteFields(fs, v.fields)), FreshFields(fs)) == Ok(ImageStruct(fs, v).fields)
    decreases fs, 1
  {
    WriteHolds(fs, v.fields);
    FieldsBack(fs, v.fields, FreshFields(fs), WriteFields(fs, v.fields));
  }

  lemma {:induction false} StructsBack(fs: Fields, vs: seq<Val>)
    requires WellFormedFields(fs) && forall i :: 0 <= i < |vs| ==> TypedStruct(fs, vs[i])
    ensures ReadStructs(fs, WriteStructs(fs, vs)) == Ok(ImageStructs(fs, vs))
    decreases fs, |vs| + 2
  {
    if vs != [] {
      var init, v := InitLast(vs);
      StructsSnoc(fs, vs, init, v);
      StructsBack(fs, init);
      StructBack(fs, v);
      StructsExtend(fs, WriteStructs(fs, init), ImageStructs(fs, init), JObject(WriteFields(fs, v.fields)), ImageStruct(fs, v));
    }
  }

  lemma StructsSnoc(fs: Fields, vs: seq<Val>, init: seq<Val>, v: Val)
    requires vs != [] && init == vs[..|vs| - 1] && v == vs[|vs| - 1]
    requires forall i :: 0 <= i < |vs| ==> TypedStruct(fs, vs[i])
    ensures TypedStruct(fs, v) && WriteStructs(fs, vs) == WriteStructs(fs, init) + [JObject(WriteFields(fs, v.fields))]
    ensures ImageStructs(fs, vs) == ImageStructs(fs, init) + [ImageStruct(fs, v)]
  {
    assert TypedStruct(fs, vs[|vs| - 1]);
  }

  lemma StructsExtend(fs: Fields, js: seq<Json>, vs: seq<Val>, j: Json, v: Val)
    requires ReadStructs(fs, js) == Ok(vs) && v.VStruct? && ReadFields(fs, j, FreshFields(fs)) == Ok(v.fields)
    ensures ReadStructs(fs, js + [j]) == Ok(vs + [v])
  {
    assert (js + [j])[..|js|] == js;
  }

  lemma StructEntriesExtend(fs: Fields, ms: seq<(string, Json)>, es: seq<(string, Val)>, key: string, j: Json, v: Val)
    requires ReadStructEntries(fs, ms) == Ok(es)
    requires v.VStruct? && ReadFields(fs, j, FreshFields(fs)) == Ok(v.fields)
    requires forall i :: 0 <= i < |es| ==> Less(es[i].0, key)
    ensures ReadStructEntries(fs, ms + [(key, j)]) == Ok(es + [(key, v)])
  {
    assert (ms + [(key, j)])[..|ms|] == ms;
    PutLast(es, key, v);
  }

  lemma StructEntriesSnoc(fs: Fields, es: seq<(string, Val)>, init: seq<(string, Val)>, key: string, v: Val)
    requires es != [] && init == es[..|es| - 1] && (key, v) == es[|es| - 1]
    requires forall i :: 0 <= i < |es| ==> TypedStruct(fs, es[i].1)
    ensures TypedStruct(fs, v)
    ensures WriteStructEntries(fs, es) == WriteStructEntries(fs, init) + [(key, JObject(WriteFields(fs, v.fields)))]
    ensures ImageStructEntries(fs, es) == ImageStructEntries(fs, init) + [(key, ImageStruct(fs, v))]
  {
    assert TypedStruct(fs, es[|es| - 1].1);
  }

  lemma StructKeysBelow(fs: Fields, es: seq<(string, Val)>, key: string)
    requires forall i :: 0 <= i < |es| ==> TypedStruct(fs, es[i].1)
    requires forall i :: 0 <= i < |es| ==> Less(es[i].0, key)
    ensures forall i :: 0 <= i < |ImageStructEntries(fs, es)| ==> Less(ImageStructEntries(fs, es)[i].0, key)
  {
  }

  lemma {:induction false} StructEntriesBack(fs: Fields, es: seq<(string, Val)>)
    requires WellFormedFields(fs) && SortedKeys(es) && forall i :: 0 <= i < |es| ==> TypedStruct(fs, es[i].1)
    ensures ReadStructEntries(fs, WriteStructEntries(fs, es)) == Ok(ImageStructEntries(fs, es))
    decreases fs, |es| + 2
  {
    if es != [] {
      var init, last := InitLast(es);
      var key, v := last.0, last.1;
      StructEntriesSnoc(fs, es, init, key, v);
      StructEntriesBack(fs, init);
      StructBack(fs, v);
      StructKeysBelow(fs, init, key);
      StructEntriesExtend(fs, WriteStructEntries(fs, init), ImageStructEntries(fs, init),
                          key, JObject(WriteFields(fs, v.fields)), ImageStruct(fs, v));
    }
  }

  // ---------------------------------------------------------------- the writer's own output holds

  lemma {:induction false} FindConcat(a: seq<(string, Json)>, b: seq<(string, Json)>, name: string)
    ensures Find(a + b, name) == if Find(a, name).Some? then Find(a, name) else Find(b, name)
  {
    if a == [] {
      assert a + b == b;
    } else {
      assert (a + b)[1..] == a[1..] + b;
      FindConcat(a[1..], b, name);
    }
  }

  lemma {:induction false} WritesOnlyNames(fs: Fields, vs: seq<Val>, name: string)
    requires TypedFields(fs, vs) && name !in Names(fs)
    ensures Find(WriteFields(fs, vs), name) == None
  {
    match fs
    case End =>
    case Field(_, ty, rest) =>
      WritesOnlyNames(rest, vs[1..], name);
      var w := Written(ty, vs[0]);
      FindConcat(if w.Some? then [(fs.name, w.value)] else [], WriteFields(rest, vs[1..]), name);
  }

  lemma {:induction false} WriteHoldsAfter(fs: Fields, vs: seq<Val>, pre: seq<(string, Json)>)
    requires WellFormedFields(fs) && TypedFields(fs, vs)
    requires forall name :: name in Names(fs) ==> Find(pre, name) == None
    ensures Holds(fs, vs, pre + WriteFields(fs, vs))
  {
    match fs
    case End =>
    case Field(name, ty, rest) =>
      var w := Written(ty, vs[0]);
      var own := if w.Some? then [(name, w.value)] else [];
      var tail := WriteFields(rest, vs[1..]);
      assert pre + WriteFields(fs, vs) == (pre + own) + tail;
      forall other | other in Names(rest) ensures Find(pre + own, other) == None {
        FindConcat(pre, own, other);
      }
      WriteHoldsAfter(rest, vs[1..], pre + own);
      FindConcat(pre + own, tail, name);
      FindConcat(pre, own, name);
      WritesOnlyNames(rest, vs[1..], name);
  }

  lemma WriteHolds(fs: Fields, vs: seq<Val>)
    requires WellFormedFields(fs) && TypedFields(fs, vs)
    ensures Holds(fs, vs, WriteFields(fs, vs))
  {
    WriteHoldsAfter(fs, vs, []);
    assert [] + WriteFields(fs, vs) == WriteFields(fs, vs);
  }

  // ---------------------------------------------------------------- when the value itself comes back

  predicate NulFreeNative(n: Native, v: Val)
    requires TypedNative(n, v)
  {
    match n
    case TString => 0 as char !in v.s
    case TVector(e) => forall i :: 0 <= i < |v.items| ==> NulFreeNative(e, v.items[i])
    case TMap(e) => forall i :: 0 <= i < |v.entries| ==> NulFreeNative(e, v.entries[i].1)
    case TBool => true
    case TInt => true
    case TInt64 => true
    case TDouble => true
  }

  /** No string value holds a NUL; keys of maps may. */
  predicate NulFree(ty: Type, v: Val)
    requires Typed(ty, v)
  {
    match ty
    case Pod(n) => NulFreeNative(n, v)
    case Struct(fs) => NulFreeFields(fs, v.fields)
    case Optional(t) => v.VSome? ==> NulFree(t, v.value)
    case StructVector(fs) => forall i :: 0 <= i < |v.items| ==> NulFreeFields(fs, v.items[i].fields)
    case StructMap(fs) => forall i :: 0 <= i < |v.entries| ==> NulFreeFields(fs, v.entries[i].1.fields)
  }

  predicate NulFreeFields(fs: Fields, vs: seq<Val>)
    requires TypedFields(fs, vs)
  {
    match fs
    case End => true
    case Field(_, ty, rest) => NulFree(ty, vs[0]) && NulFreeFields(rest, vs[1..])
  }

  /** Where `v` has an empty optional that is read in place, `t` has one too. */
  predicate Covers(ty: Type, v: Val, t: Val)
    requires Typed(ty, v) && Typed(ty, t)
  {
    match ty
    case Struct(fs) => CoversFields(fs, v.fields, t.fields)
    case Optional(_) => v.VNone? ==> t.VNone?
    case Pod(_) => true
    case StructVector(_) => true
    case StructMap(_) => true
  }

  predicate CoversFields(fs: Fields, vs: seq<Val>, ts: seq<Val>)
    requires TypedFields(fs, vs) && TypedFields(fs, ts)
  {
    match fs
    case End => true
    case Field(_, ty, rest) => Covers(ty, vs[0], ts[0]) && CoversFields(rest, vs[1..], ts[1..])
  }

  lemma {:induction false} FreshCovers(ty: Type, v: Val)
    requires Typed(ty, v)
    ensures Covers(ty, v, Fresh(ty))
  {
    if ty.Struct? { FreshCoversFields(ty.fields, v.fields); }
  }

  lemma {:induction false} FreshCoversFields(fs: Fields, vs: seq<Val>)
    requires TypedFields(fs, vs)
    ensures CoversFields(fs, vs, FreshFields(fs))
  {
    if fs.Field? {
      FreshCovers(fs.ty, vs[0]);
      FreshCoversFields(fs.rest, vs[1..]);
      assert FreshFields(fs)[1..] == FreshFields(fs.rest);
    }
  }

  lemma {:induction false} NativeSame(n: Native, v: Val)
    requires TypedNative(n, v)
    ensures ImageNative(n, v) == v <==> NulFreeNative(n, v)
  {
    match n
    case TVector(e) =>
      forall i | 0 <= i < |v.items| ensures ImageNative(e, v.items[i]) == v.items[i] <==> NulFreeNative(e, v.items[i]) {
        NativeSame(e, v.items[i]);
      }
      assert ImageItems(e, v.items) == v.items <==>
             forall i :: 0 <= i < |v.items| ==> ImageNative(e, v.items[i]) == v.items[i];
    case TMap(e) =>
      forall i | 0 <= i < |v.entries|
        ensures ImageNative(e, v.entries[i].1) == v.entries[i].1 <==> NulFreeNative(e, v.entries[i].1)
      {
        NativeSame(e, v.entries[i].1);
      }
      var r := ImageEntries(e, v.entries);
      assert r == v.entries <==> forall i :: 0 <= i < |v.entries| ==> r[i].1 == v.entries[i].1;
    case _ =>
  }

  lemma {:induction false} Same(ty: Type, v: Val, t: Val)
    requires Typed(ty, v) && Typed(ty, t)
    ensures Image(ty, v, t) == v <==> NulFree(ty, v) && Covers(ty, v, t)
    decreases ty, 0
  {
    match ty
    case Pod(n) => NativeSame(n, v);
    case Struct(fs) => FieldsSame(fs, v.fields, t.fields);
    case Optional(s) =>
      if v.VSome? {
        Same(s, v.value, Fresh(s));
        FreshCovers(s, v.value);
      }
    case StructVector(fs) =>
      forall i | 0 <= i < |v.items|
        ensures ImageStruct(fs, v.items[i]) == v.items[i] <==> NulFreeFields(fs, v.items[i].fields)
      {
        FieldsSame(fs, v.items[i].fields, FreshFields(fs));
        FreshCoversFields(fs, v.items[i].fields);
      }
      assert ImageStructs(fs, v.items) == v.items <==>
             forall i :: 0 <= i < |v.items| ==> ImageStruct(fs, v.items[i]) == v.items[i];
    case StructMap(fs) =>
      forall i | 0 <= i < |v.entries|
        ensures ImageStruct(fs, v.entries[i].1) == v.entries[i].1 <==> NulFreeFields(fs, v.entries[i].1.fields)
      {
        FieldsSame(fs, v.entries[i].1.fields, FreshFields(fs));
        FreshCoversFields(fs, v.entries[i].1.fields);
      }
      var r := ImageStructEntries(fs, v.entries);
      assert r == v.entries <==> forall i :: 0 <= i < |v.entries| ==> r[i].1 == v.entries[i].1;
  }

  lemma {:induction false} FieldsSame(fs: Fields, vs: seq<Val>, ts: seq<Val>)
    requires TypedFields(fs, vs) && TypedFields(fs, ts)
    ensures ImageFields(fs, vs, ts) == vs <==> NulFreeFields(fs, vs) && CoversFields(fs, vs, ts)
    decreases fs, 0
  {
    if fs.Field? {
      Same(fs.ty, vs[0], ts[0]);
      FieldsSame(fs.rest, vs[1..], ts[1..]);
      assert vs == [vs[0]] + vs[1..];
    }
  }

  /** Serialize then deserialize into `ts` gives the value back exactly when its strings are free
      of NUL and no optional that is empty in the value is already set in `ts`. */
  lemma RoundTrip(fs: Fields, vs: seq<Val>, ts: seq<Val>)
    requires WellFormedFields(fs) && TypedFields(fs, vs) && TypedFields(fs, ts)
    ensures ReadFields(fs, JObject(WriteFields(fs, vs)), ts) == Ok(vs) <==>
            NulFreeFields(fs, vs) && CoversFields(fs, vs, ts)
  {
    WriteHolds(fs, vs);
    FieldsBack(fs, vs, ts, WriteFields(fs, vs));
    FieldsSame(fs, vs, ts);
  }

  /** Into a default-constructed object, only NULs can spoil the round trip. */
  lemma RoundTripFresh(fs: Fields, vs: seq<Val>)
    requires WellFormedFields(fs) && TypedFields(fs, vs)
    ensures ReadFields(fs, JObject(WriteFields(fs, vs)), FreshFields(fs)) == Ok(vs) <==> NulFreeFields(fs, vs)
  {
    RoundTrip(fs, vs, FreshFields(fs));
    FreshCoversFields(fs, vs);
  }
}
