/**
 * The loops of core/json/serialization.hpp: filling and reading arrays and objects element by
 * element, and the field-by-field dispatch over the argument pack. Each is proved equal to the
 * function of JsonModel that describes it.
 */
module JsonLoops {
  import opened Basics
  import opened JsonModel

  /** `JsonValueAdapter::set` */
  method SetNative(n: Native, v: Val) returns (j: Json)
    requires TypedNative(n, v)
    ensures j == WriteNative(n, v)
    decreases n
  {
    match n
    case TBool => j := JBool(v.b);
    case TInt => j := JInt(v.i);
    case TInt64 => j := JInt(v.i);
    case TDouble => j := JDouble(v.d);
    case TString => j := JString(v.s);
    case TVector(e) =>
      var arr := [];
      for i := 0 to |v.items|
        invariant arr == WriteItems(e, v.items[..i])
      {
        assert v.items[..i + 1][..i] == v.items[..i];
        var item := SetNative(e, v.items[i]);
        arr := arr + [item];
      }
      assert v.items[..|v.items|] == v.items;
      j := JArray(arr);
    case TMap(e) =>
      var obj := [];
      for i := 0 to |v.entries|
        invariant obj == WriteEntries(e, v.entries[..i])
      {
        assert v.entries[..i + 1][..i] == v.entries[..i];
        var item := SetNative(e, v.entries[i].1);
        obj := obj + [(v.entries[i].0, item)];
      }
      assert v.entries[..|v.entries|] == v.entries;
      j := JObject(obj);
  }

  /** `JsonValueAdapter::operator()`: containers are cleared and filled; the first bad item throws. */
  method AdaptNative(n: Native, j: Json) returns (r: Result<Val>)
    ensures r == ReadNative(n, j)
    decreases n, 0
  {
    match n
    case TVector(e) =>
      if !j.JArray? { return Err(TypeMismatch); }
      var value := AdaptItems(e, j.items);
      r := if value.Ok? then Ok(VVector(value.value)) else Err(value.error);
    case TMap(e) =>
      if !j.JObject? { return Err(TypeMismatch); }
      var value := AdaptEntries(e, j.members);
      r := if value.Ok? then Ok(VMap(value.value)) else Err(value.error);
    case _ => r := ReadNative(n, j);
  }

  method AdaptItems(e: Native, js: seq<Json>) returns (r: Result<seq<Val>>)
    ensures r == ReadItems(e, js)
    decreases e, 1
  {
    var value := [];
    for i := 0 to |js|
      invariant ReadItems(e, js[..i]) == Ok(value)
    {
      var v := AdaptNative(e, js[i]);
      ReadItemsStep(e, js, i);
      if v.Err? {
        ReadItemsFails(e, js, i + 1);
        return Err(v.error);
      }
      value := value + [v.value];
    }
    assert js[..|js|] == js;
    r := Ok(value);
  }

  lemma ReadItemsStep(e: Native, js: seq<Json>, i: nat)
    requires i < |js| && ReadItems(e, js[..i]).Ok?
    ensures var v := ReadNative(e, js[i]);
            ReadItems(e, js[..i + 1]) == if v.Err? then Err(v.error) else Ok(ReadItems(e, js[..i]).value + [v.value])
  {
    assert js[..i + 1][..i] == js[..i];
  }

  method AdaptEntries(e: Native, ms: seq<(string, Json)>) returns (r: Result<seq<(string, Val)>>)
    ensures r == ReadEntries(e, ms)
    decreases e, 1
  {
    var value := [];
    for i := 0 to |ms|
      invariant ReadEntries(e, ms[..i]) == Ok(value)
    {
      var v := AdaptNative(e, ms[i].1);
      ReadEntriesStep(e, ms, i);
      if v.Err? {
        ReadEntriesFails(e, ms, i + 1);
        return Err(v.error);
      }
      value := Put(value, ms[i].0, v.value);
    }
    assert ms[..|ms|] == ms;
    r := Ok(value);
  }

  lemma ReadEntriesStep(e: Native, ms: seq<(string, Json)>, i: nat)
    requires i < |ms| && ReadEntries(e, ms[..i]).Ok?
    ensures var v := ReadNative(e, ms[i].1);
            ReadEntries(e, ms[..i + 1]) ==
            if v.Err? then Err(v.error) else Ok(Put(ReadEntries(e, ms[..i]).value, ms[i].0, v.value))
  {
    assert ms[..i + 1][..i] == ms[..i];
  }

  lemma {:induction false} ReadItemsFails(e: Native, js: seq<Json>, k: nat)
    requires k <= |js| && ReadItems(e, js[..k]).Err?
    ensures ReadItems(e, js) == ReadItems(e, js[..k])
    decreases |js|
  {
    if k < |js| {
      assert js[..|js| - 1][..k] == js[..k];
      ReadItemsFails(e, js[..|js| - 1], k);
    } else {
      assert js[..k] == js;
    }
  }

  lemma {:induction false} ReadEntriesFails(e: Native, ms: seq<(string, Json)>, k: nat)
    requires k <= |ms| && ReadEntries(e, ms[..k]).Err?
    ensures ReadEntries(e, ms) == ReadEntries(e, ms[..k])
    decreases |ms|
  {
    if k < |ms| {
      assert ms[..|ms| - 1][..k] == ms[..k];
      ReadEntriesFails(e, ms[..|ms| - 1], k);
    } else {
      assert ms[..k] == ms;
    }
  }

  /** `jserialize`: the fields are added in declaration order. */
  method Serialize(fs: Fields, vs: seq<Val>) returns (members: seq<(string, Json)>)
    requires TypedFields(fs, vs)
    ensures members == WriteFields(fs, vs)
    decreases fs
  {
    match fs
    case End => members := [];
    case Field(name, ty, rest) =>
      var w := SerializeMember(ty, vs[0]);
      members := if w.Some? then [(name, w.value)] else [];
      var more := Serialize(rest, vs[1..]);
      members := members + more;
  }

  /** `forward` of JsonSerializer, JsonSerializerVector and JsonSerializerMap. */
  method SerializeMember(ty: Type, v: Val) returns (w: Option<Json>)
    requires Typed(ty, v)
    ensures w == Written(ty, v)
    decreases ty
  {
    match ty
    case Pod(n) =>
      var j := SetNative(n, v);
      w := Some(j);
    case Struct(fs) =>
      var members := Serialize(fs, v.fields);
      w := Some(JObject(members));
    case Optional(t) =>
      w := None;
      if v.VSome? { w := SerializeMember(t, v.value); }
    case StructVector(fs) =>
      var arr := [];
      assert forall i :: 0 <= i < |v.items| ==> TypedStruct(fs, v.items[i]);
      for i := 0 to |v.items|
        invariant arr == WriteStructs(fs, v.items[..i])
      {
        assert v.items[..i + 1][..i] == v.items[..i];
        var item := Serialize(fs, v.items[i].fields);
        arr := arr + [JObject(item)];
      }
      assert v.items[..|v.items|] == v.items;
      w := Some(JArray(arr));
    case StructMap(fs) =>
      var obj := [];
      assert forall i :: 0 <= i < |v.entries| ==> TypedStruct(fs, v.entries[i].1);
      for i := 0 to |v.entries|
        invariant obj == WriteStructEntries(fs, v.entries[..i])
      {
        assert v.entries[..i + 1][..i] == v.entries[..i];
        var item := Serialize(fs, v.entries[i].1.fields);
        obj := obj + [(v.entries[i].0, JObject(item))];
      }
      assert v.entries[..|v.entries|] == v.entries;
      w := Some(JObject(obj));
  }

  /** `jdeserialize`: reads into the fields of an object, in declaration order. */
  method Deserialize(fs: Fields, j: Json, targets: seq<Val>) returns (r: Result<seq<Val>>)
    requires TypedFields(fs, targets)
    ensures r == ReadFields(fs, j, targets)
    decreases fs, 0
  {
    match fs
    case End => r := Ok([]);
    case Field(name, ty, rest) =>
      var v := DeserializeMember(ty, j, name, targets[0]);
      if v.Err? { return Err(v.error); }
      var vs := Deserialize(rest, j, targets[1..]);
      if vs.Err? { return vs; }
      r := Ok([v.value] + vs.value);
  }

  /** `backward` of JsonSerializerPod, JsonSerializer, JsonSerializerVector and JsonSerializerMap. */
  method DeserializeMember(ty: Type, j: Json, name: string, target: Val) returns (r: Result<Val>)
    requires Typed(ty, target)
    ensures r == ReadMember(ty, j, name, target)
    decreases ty, 0
  {
    if !j.JObject? {
      return Err(if ty.Struct? || ty.Optional? then TypeMismatch else Assertion);
    }
    var member := Find(j.members, name);
    if member.None? {
      return match ty
        case Pod(_) => Err(MissingKey)
        case Struct(_) => Err(MissingKey)
        case Optional(_) => Ok(target)
        case StructVector(_) => Ok(VVector([]))
        case StructMap(_) => Ok(VMap([]));
    }
    var m := member.value;
    match ty
    case Pod(n) => r := AdaptNative(n, m);
    case Struct(fs) =>
      var vs := Deserialize(fs, m, target.fields);
      r := if vs.Ok? then Ok(VStruct(vs.value)) else Err(vs.error);
    case Optional(t) =>
      r := Ok(target);
      if !m.JNull? {
        var v := DeserializeMember(t, j, name, Fresh(t));
        r := if v.Ok? then Ok(VSome(v.value)) else v;
      }
    case StructVector(fs) => r := DeserializeVector(fs, m);
    case StructMap(fs) => r := DeserializeMap(fs, m);
  }

  method DeserializeVector(fs: Fields, j: Json) returns (r: Result<Val>)
    ensures r == if !j.JArray? then Err(TypeMismatch)
                 else match ReadStructs(fs, j.items)
                   case Ok(vs) => Ok(VVector(vs))
                   case Err(e) => Err(e)
    decreases fs, 1
  {
    if !j.JArray? { return Err(TypeMismatch); }
    var value := [];
    for i := 0 to |j.items|
      invariant ReadStructs(fs, j.items[..i]) == Ok(value)
    {
      assert j.items[..i + 1][..i] == j.items[..i];
      var v := Deserialize(fs, j.items[i], FreshFields(fs));
      if v.Err? {
        ReadStructsFails(fs, j.items, i + 1);
        return Err(v.error);
      }
      value := value + [VStruct(v.value)];
    }
    assert j.items[..|j.items|] == j.items;
    r := Ok(VVector(value));
  }

  method DeserializeMap(fs: Fields, j: Json) returns (r: Result<Val>)
    ensures r == if !j.JObject? then Err(TypeMismatch)
                 else match ReadStructEntries(fs, j.members)
                   case Ok(es) => Ok(VMap(es))
                   case Err(e) => Err(e)
    decreases fs, 1
  {
    if !j.JObject? { return Err(TypeMismatch); }
    var value := [];
    for i := 0 to |j.members|
      invariant ReadStructEntries(fs, j.members[..i]) == Ok(value)
    {
      var v := Deserialize(fs, j.members[i].1, FreshFields(fs));
      ReadStructEntriesStep(fs, j.members, i);
      if v.Err? {
        ReadStructEntriesFails(fs, j.members, i + 1);
        return Err(v.error);
      }
      value := Put(value, j.members[i].0, VStruct(v.value));
    }
    assert j.members[..|j.members|] == j.members;
    r := Ok(VMap(value));
  }

  lemma {:induction false} ReadStructsFails(fs: Fields, js: seq<Json>, k: nat)
    requires k <= |js| && ReadStructs(fs, js[..k]).Err?
    ensures ReadStructs(fs, js) == ReadStructs(fs, js[..k])
    decreases |js|
  {
    if k < |js| {
      assert js[..|js| - 1][..k] == js[..k];
      ReadStructsFails(fs, js[..|js| - 1], k);
    } else {
      assert js[..k] == js;
    }
  }

  lemma ReadStructEntriesStep(fs: Fields, ms: seq<(string, Json)>, i: nat)
    requires i < |ms| && ReadStructEntries(fs, ms[..i]).Ok?
    ensures var v := ReadFields(fs, ms[i].1, FreshFields(fs));
            ReadStructEntries(fs, ms[..i + 1]) ==
            if v.Err? then Err(v.error)
            else Ok(Put(ReadStructEntries(fs, ms[..i]).value, ms[i].0, VStruct(v.value)))
  {
    assert ms[..i + 1][..i] == ms[..i];
  }

  lemma {:induction false} ReadStructEntriesFails(fs: Fields, ms: seq<(string, Json)>, k: nat)
    requires k <= |ms| && ReadStructEntries(fs, ms[..k]).Err?
    ensures ReadStructEntries(fs, ms) == ReadStructEntries(fs, ms[..k])
    decreases |ms|
  {
    if k < |ms| {
      assert ms[..|ms| - 1][..k] == ms[..k];
      ReadStructEntriesFails(fs, ms[..|ms| - 1], k);
    } else {
      assert ms[..k] == ms;
    }
  }
}
