/**
 * Reading messages: a header type reads its part of a full message (core/service/
 * signaling_client.cpp dispatches on such headers), and what any successful read returns can be
 * written and read again without change.
 */
module JsonMessages {
  import opened Basics
  import opened JsonModel
  import opened JsonLaws

  // ---------------------------------------------------------------- header projection

  predicate Has(full: Fields, name: string, ty: Type) {
    full.Field? && ((full.name == name && full.ty == ty) || Has(full.rest, name, ty))
  }

  /** Every field of `header` is a field of `full`. */
  predicate PartOf(header: Fields, full: Fields) {
    match header
    case End => true
    case Field(name, ty, rest) => Has(full, name, ty) && PartOf(rest, full)
  }

  function Pick(full: Fields, vs: seq<Val>, name: string, ty: Type): (v: Val)
    requires TypedFields(full, vs) && Has(full, name, ty)
    ensures Typed(ty, v)
  {
    if full.name == name && full.ty == ty then vs[0] else Pick(full.rest, vs[1..], name, ty)
  }

  /** The part of a message value that a header type can see. */
  function Project(header: Fields, full: Fields, vs: seq<Val>): (r: seq<Val>)
    requires TypedFields(full, vs) && PartOf(header, full)
    ensures TypedFields(header, r)
  {
    match header
    case End => []
    case Field(name, ty, rest) => [Pick(full, vs, name, ty)] + Project(rest, full, vs)
  }

  lemma {:induction false} PickHolds(full: Fields, vs: seq<Val>, members: seq<(string, Json)>, name: string, ty: Type)
    requires TypedFields(full, vs) && Has(full, name, ty) && Holds(full, vs, members)
    ensures Find(members, name) == Written(ty, Pick(full, vs, name, ty))
  {
    if !(full.name == name && full.ty == ty) {
      PickHolds(full.rest, vs[1..], members, name, ty);
    }
  }

  lemma {:induction false} ProjectHolds(header: Fields, full: Fields, vs: seq<Val>, members: seq<(string, Json)>)
    requires TypedFields(full, vs) && PartOf(header, full) && Holds(full, vs, members)
    ensures Holds(header, Project(header, full, vs), members)
  {
    if header.Field? {
      PickHolds(full, vs, members, header.name, header.ty);
      ProjectHolds(header.rest, full, vs, members);
    }
  }

  /** A header type reads exactly its part of a message, whatever else the message carries. */
  lemma HeaderProjection(header: Fields, full: Fields, vs: seq<Val>, members: seq<(string, Json)>, ts: seq<Val>)
    requires WellFormedFields(header) && PartOf(header, full)
    requires TypedFields(full, vs) && TypedFields(header, ts) && Holds(full, vs, members)
    ensures ReadFields(header, JObject(members), ts) == Ok(ImageFields(header, Project(header, full, vs), ts))
    ensures ts == FreshFields(header) && NulFreeFields(header, Project(header, full, vs)) ==>
            ReadFields(header, JObject(members), ts) == Ok(Project(header, full, vs))
  {
    var part := Project(header, full, vs);
    ProjectHolds(header, full, vs, members);
    FieldsBack(header, part, ts, members);
    FieldsSame(header, part, ts);
    FreshCoversFields(header, part);
  }

  // ---------------------------------------------------------------- member order

  predicate UniqueKeys(ms: seq<(string, Json)>) {
    forall i, j :: 0 <= i < j < |ms| ==> ms[i].0 != ms[j].0
  }

  lemma {:induction false} FoundIsMember(ms: seq<(string, Json)>, name: string)
    ensures Find(ms, name).Some? ==> (name, Find(ms, name).value) in ms
  {
    if ms != [] { FoundIsMember(ms[1..], name); }
  }

  lemma {:induction false} MemberIsFound(ms: seq<(string, Json)>, i: nat)
    requires UniqueKeys(ms) && i < |ms|
    ensures Find(ms, ms[i].0) == Some(ms[i].1)
  {
    if i > 0 { MemberIsFound(ms[1..], i - 1); }
  }

  lemma {:induction false} HoldsTransfers(fs: Fields, vs: seq<Val>, a: seq<(string, Json)>, b: seq<(string, Json)>)
    requires TypedFields(fs, vs) && Holds(fs, vs, a)
    requires forall name :: name in Names(fs) ==> Find(a, name) == Find(b, name)
    ensures Holds(fs, vs, b)
  {
    if fs.Field? { HoldsTransfers(fs.rest, vs[1..], a, b); }
  }

  /** A message holds the value if it has the written members among its own, in any order and with
      any others, as long as keys are unique and fields that were not written are absent. */
  lemma HoldsInAnyOrder(fs: Fields, vs: seq<Val>, members: seq<(string, Json)>)
    requires WellFormedFields(fs) && TypedFields(fs, vs) && UniqueKeys(members)
    requires forall m :: m in WriteFields(fs, vs) ==> m in members
    requires forall name :: name in Names(fs) && Find(WriteFields(fs, vs), name) == None ==> Find(members, name) == None
    ensures Holds(fs, vs, members)
  {
    var own := WriteFields(fs, vs);
    WriteHolds(fs, vs);
    forall name | name in Names(fs) ensures Find(own, name) == Find(members, name) {
      FoundIsMember(own, name);
      if Find(own, name).Some? {
        var i :| 0 <= i < |members| && members[i] == (name, Find(own, name).value);
        MemberIsFound(members, i);
      }
    }
    HoldsTransfers(fs, vs, own, members);
  }

  // ---------------------------------------------------------------- reads are clean

  predicate CleanNative(n: Native, v: Val) { TypedNative(n, v) && NulFreeNative(n, v) }

  predicate CleanFields(fs: Fields, vs: seq<Val>) { TypedFields(fs, vs) && NulFreeFields(fs, vs) }

  predicate CleanStruct(fs: Fields, v: Val) { v.VStruct? && CleanFields(fs, v.fields) }

  predicate AllClean(fs: Fields, vs: seq<Val>) { forall i :: 0 <= i < |vs| ==> CleanStruct(fs, vs[i]) }

  predicate AllCleanNative(e: Native, vs: seq<Val>) { forall i :: 0 <= i < |vs| ==> CleanNative(e, vs[i]) }

  lemma StructVectorClean(fs: Fields, vs: seq<Val>)
    requires AllClean(fs, vs)
    ensures Typed(StructVector(fs), VVector(vs)) && NulFree(StructVector(fs), VVector(vs))
  {
    assert forall i :: 0 <= i < |vs| ==> vs[i].VStruct? && TypedFields(fs, vs[i].fields) by {
      forall i | 0 <= i < |vs| ensures vs[i].VStruct? && TypedFields(fs, vs[i].fields) {
        assert CleanStruct(fs, vs[i]);
      }
    }
    forall i | 0 <= i < |vs| ensures NulFreeFields(fs, vs[i].fields) { assert CleanStruct(fs, vs[i]); }
  }

  lemma StructMapClean(fs: Fields, es: seq<(string, Val)>)
    requires SortedKeys(es) && forall i :: 0 <= i < |es| ==> CleanStruct(fs, es[i].1)
    ensures Typed(StructMap(fs), VMap(es)) && NulFree(StructMap(fs), VMap(es))
  {
    assert forall i :: 0 <= i < |es| ==> es[i].1.VStruct? && TypedFields(fs, es[i].1.fields) by {
      forall i | 0 <= i < |es| ensures es[i].1.VStruct? && TypedFields(fs, es[i].1.fields) {
        assert CleanStruct(fs, es[i].1);
      }
    }
    forall i | 0 <= i < |es| ensures NulFreeFields(fs, es[i].1.fields) { assert CleanStruct(fs, es[i].1); }
  }

  lemma {:induction false} NativeClean(n: Native, j: Json)
    ensures var r := ReadNative(n, j); r.Ok? ==> CleanNative(n, r.value)
    decreases n, 0
  {
    match n
    case TVector(e) => if j.JArray? { ItemsClean(e, j.items); }
    case TMap(e) => if j.JObject? { EntriesClean(e, j.members); }
    case _ =>
  }

  lemma {:induction false} ItemsClean(e: Native, js: seq<Json>)
    ensures ReadItems(e, js).Ok? ==> AllCleanNative(e, ReadItems(e, js).value)
    decreases e, |js| + 1
  {
    if js != [] && ReadItems(e, js).Ok? {
      var k := |js| - 1;
      ItemsClean(e, js[..k]);
      NativeClean(e, js[k]);
      CleanSnocNative(e, ReadItems(e, js[..k]).value, ReadNative(e, js[k]).value);
    }
  }

  lemma CleanSnocNative(e: Native, vs: seq<Val>, v: Val)
    requires AllCleanNative(e, vs) && CleanNative(e, v)
    ensures AllCleanNative(e, vs + [v])
  {
  }

  lemma {:induction false} EntriesClean(e: Native, ms: seq<(string, Json)>)
    ensures var r := ReadEntries(e, ms);
            r.Ok? ==> SortedKeys(r.value) && forall i :: 0 <= i < |r.value| ==> CleanNative(e, r.value[i].1)
    decreases e, |ms| + 1
  {
    if ms != [] {
      var k := |ms| - 1;
      EntriesClean(e, ms[..k]);
      NativeClean(e, ms[k].1);
      if ReadEntries(e, ms).Ok? {
        PutSorted(ReadEntries(e, ms[..k]).value, ms[k].0, ReadNative(e, ms[k].1).value);
      }
    }
  }

  lemma {:induction false} MemberClean(ty: Type, j: Json, name: string, t: Val)
    requires Typed(ty, t) && NulFree(ty, t)
    ensures var r := ReadMember(ty, j, name, t);
            r.Ok? ==> Typed(ty, r.value) && NulFree(ty, r.value) && Covers(ty, r.value, t)
    decreases ty, 0
  {
    if j.JObject? && Find(j.members, name).Some? {
      var m := Find(j.members, name).value;
      match ty
      case Pod(n) => NativeClean(n, m);
      case Struct(fs) => FieldsClean(fs, m, t.fields);
      case Optional(s) =>
        FreshNulFree(s);
        MemberClean(s, j, name, Fresh(s));
      case StructVector(fs) =>
        if m.JArray? && ReadStructs(fs, m.items).Ok? {
          StructsClean(fs, m.items);
          StructVectorClean(fs, ReadStructs(fs, m.items).value);
        }
      case StructMap(fs) =>
        if m.JObject? && ReadStructEntries(fs, m.members).Ok? {
          StructEntriesClean(fs, m.members);
          StructMapClean(fs, ReadStructEntries(fs, m.members).value);
        }
    }
  }

  lemma {:induction false} FieldsClean(fs: Fields, j: Json, ts: seq<Val>)
    requires CleanFields(fs, ts)
    ensures var r := ReadFields(fs, j, ts);
            r.Ok? ==> CleanFields(fs, r.value) && CoversFields(fs, r.value, ts)
    decreases fs, 0
  {
    if fs.Field? {
      MemberClean(fs.ty, j, fs.name, ts[0]);
      FieldsClean(fs.rest, j, ts[1..]);
    }
  }

  lemma StructClean(fs: Fields, j: Json)
    ensures var r := ReadFields(fs, j, FreshFields(fs)); r.Ok? ==> CleanStruct(fs, VStruct(r.value))
    decreases fs, 1
  {
    FreshNulFreeFields(fs);
    FieldsClean(fs, j, FreshFields(fs));
  }

  lemma {:induction false} StructsClean(fs: Fields, js: seq<Json>)
    ensures ReadStructs(fs, js).Ok? ==> AllClean(fs, ReadStructs(fs, js).value)
    decreases fs, |js| + 2
  {
    if js != [] && ReadStructs(fs, js).Ok? {
      var k := |js| - 1;
      StructsClean(fs, js[..k]);
      StructClean(fs, js[k]);
      CleanSnoc(fs, ReadStructs(fs, js[..k]).value, VStruct(ReadFields(fs, js[k], FreshFields(fs)).value));
    }
  }

  lemma CleanSnoc(fs: Fields, vs: seq<Val>, v: Val)
    requires AllClean(fs, vs) && CleanStruct(fs, v)
    ensures AllClean(fs, vs + [v])
  {
  }

  lemma {:induction false} StructEntriesClean(fs: Fields, ms: seq<(string, Json)>)
    ensures var r := ReadStructEntries(fs, ms);
            r.Ok? ==> SortedKeys(r.value) && forall i :: 0 <= i < |r.value| ==> CleanStruct(fs, r.value[i].1)
    decreases fs, |ms| + 2
  {
    if ms != [] {
      var k := |ms| - 1;
      StructEntriesClean(fs, ms[..k]);
      StructClean(fs, ms[k].1);
      if ReadStructEntries(fs, ms).Ok? {
        var init, last := ReadStructEntries(fs, ms[..k]).value, ReadFields(fs, ms[k].1, FreshFields(fs)).value;
        CleanPut(fs, init, ms[k].0, VStruct(last));
      }
    }
  }

  lemma CleanPut(fs: Fields, es: seq<(string, Val)>, key: string, v: Val)
    requires SortedKeys(es) && (forall i :: 0 <= i < |es| ==> CleanStruct(fs, es[i].1)) && CleanStruct(fs, v)
    ensures var r := Put(es, key, v);
            SortedKeys(r) && forall i :: 0 <= i < |r| ==> CleanStruct(fs, r[i].1)
  {
    PutSorted(es, key, v);
  }

  lemma {:induction false} FreshNulFree(ty: Type)
    ensures NulFree(ty, Fresh(ty))
  {
    if ty.Struct? { FreshNulFreeFields(ty.fields); }
  }

  lemma {:induction false} FreshNulFreeFields(fs: Fields)
    ensures NulFreeFields(fs, FreshFields(fs))
  {
    if fs.Field? {
      FreshNulFree(fs.ty);
      FreshNulFreeFields(fs.rest);
      assert FreshFields(fs)[1..] == FreshFields(fs.rest);
    }
  }

  /** Normalisation: whatever tree was read, writing the result and reading it into the same kind
      of target gives the result again. */
  lemma ReadNormalises(fs: Fields, j: Json, ts: seq<Val>)
    requires WellFormedFields(fs) && CleanFields(fs, ts)
    ensures var r := ReadFields(fs, j, ts);
            r.Ok? ==> TypedFields(fs, r.value) && ReadFields(fs, JObject(WriteFields(fs, r.value)), ts) == r
  {
    FieldsClean(fs, j, ts);
    var r := ReadFields(fs, j, ts);
    if r.Ok? {
      RoundTrip(fs, r.value, ts);
    }
  }
}
