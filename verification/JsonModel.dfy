/**
 * The object mapping of core/json/serialization.hpp: a type-directed writer from C++ values to
 * JSON trees (section 4 of RFC 8259) and the reader that updates a value from a tree or throws.
 */
module JsonModel {
  import opened Basics

  // ---------------------------------------------------------------- trees, types, values

  /** A parsed tree. Member order and repeated keys are kept, as rapidjson keeps them. */
  datatype Json =
    | JNull
    | JBool(b: bool)
    | JInt(i: int)
    | JDouble(d: real)
    | JString(s: string)
    | JArray(items: seq<Json>)
    | JObject(members: seq<(string, Json)>)

  /** `is_native_type`: scalars, strings, and vectors and maps of native types. */
  datatype Native = TBool | TInt | TInt64 | TDouble | TString | TVector(elem: Native) | TMap(elem: Native)

  /** Types of data members; `Fields` is the argument pack of the JSON_SERIALIZE macro. */
  datatype Type =
    | Pod(native: Native)
    | Struct(fields: Fields)
    | Optional(inner: Type)
    | StructVector(fields: Fields)
    | StructMap(fields: Fields)

  datatype Fields = End | Field(name: string, ty: Type, rest: Fields)

  datatype Val =
    | VBool(b: bool)
    | VInt(i: int)
    | VDouble(d: real)
    | VString(s: string)
    | VVector(items: seq<Val>)
    | VMap(entries: seq<(string, Val)>)
    | VStruct(fields: seq<Val>)
    | VNone
    | VSome(value: Val)

  /** JsonMissingKey, JsonTypeMismatch, or a failed rapidjson assertion (`FindMember` on a tree
      that is no object). */
  datatype Error = MissingKey | TypeMismatch | Assertion

  datatype Result<+T> = Ok(value: T) | Err(error: Error) {
    predicate IsFailure() { Err? }
    function PropagateFailure<U>(): Result<U>
      requires Err?
    {
      Err(error)
    }
    function Extract(): T
      requires Ok?
    {
      value
    }
  }

  // ---------------------------------------------------------------- sorted maps

  /** `std::string` order. */
  predicate Less(a: string, b: string) {
    if b == "" then false
    else if a == "" then true
    else if a[0] != b[0] then a[0] < b[0]
    else Less(a[1..], b[1..])
  }

  predicate SortedKeys<T>(entries: seq<(string, T)>) {
    forall i, j :: 0 <= i < j < |entries| ==> Less(entries[i].0, entries[j].0)
  }

  /** `value[key] = mapped` on a `std::map` kept as its sorted list of entries. */
  function Put<T>(entries: seq<(string, T)>, key: string, v: T): seq<(string, T)> {
    if entries == [] then [(key, v)]
    else if entries[0].0 == key then [(key, v)] + entries[1..]
    else if Less(key, entries[0].0) then [(key, v)] + entries
    else [entries[0]] + Put(entries[1..], key, v)
  }

  // ---------------------------------------------------------------- typing

  predicate TypedNative(n: Native, v: Val) {
    match n
    case TBool => v.VBool?
    case TInt => v.VInt? && -0x8000_0000 <= v.i < 0x8000_0000
    case TInt64 => v.VInt? && -0x8000_0000_0000_0000 <= v.i < 0x8000_0000_0000_0000
    case TDouble => v.VDouble?
    case TString => v.VString?
    case TVector(e) => v.VVector? && forall i :: 0 <= i < |v.items| ==> TypedNative(e, v.items[i])
    case TMap(e) =>
      v.VMap? && SortedKeys(v.entries) && forall i :: 0 <= i < |v.entries| ==> TypedNative(e, v.entries[i].1)
  }

  predicate Typed(ty: Type, v: Val) {
    match ty
    case Pod(n) => TypedNative(n, v)
    case Struct(fs) => v.VStruct? && TypedFields(fs, v.fields)
    case Optional(t) => v.VNone? || (v.VSome? && Typed(t, v.value))
    case StructVector(fs) =>
      v.VVector? && forall i :: 0 <= i < |v.items| ==> v.items[i].VStruct? && TypedFields(fs, v.items[i].fields)
    case StructMap(fs) =>
      v.VMap? && SortedKeys(v.entries) &&
      forall i :: 0 <= i < |v.entries| ==> v.entries[i].1.VStruct? && TypedFields(fs, v.entries[i].1.fields)
  }

  predicate TypedStruct(fs: Fields, v: Val) {
    v.VStruct? && TypedFields(fs, v.fields)
  }

  predicate TypedFields(fs: Fields, vs: seq<Val>) {
    match fs
    case End => vs == []
    case Field(_, ty, rest) => vs != [] && Typed(ty, vs[0]) && TypedFields(rest, vs[1..])
  }

  /** A default-constructed value: optionals and containers are empty. */
  function FreshNative(n: Native): (v: Val)
    ensures TypedNative(n, v)
  {
    match n
    case TBool => VBool(false)
    case TInt => VInt(0)
    case TInt64 => VInt(0)
    case TDouble => VDouble(0.0)
    case TString => VString("")
    case TVector(_) => VVector([])
    case TMap(_) => VMap([])
  }

  function Fresh(ty: Type): (v: Val)
    ensures Typed(ty, v)
  {
    match ty
    case Pod(n) => FreshNative(n)
    case Struct(fs) => VStruct(FreshFields(fs))
    case Optional(_) => VNone
    case StructVector(_) => VVector([])
    case StructMap(_) => VMap([])
  }

  function FreshFields(fs: Fields): (vs: seq<Val>)
    ensures TypedFields(fs, vs)
  {
    match fs
    case End => []
    case Field(_, ty, rest) => [Fresh(ty)] + FreshFields(rest)
  }

  // ---------------------------------------------------------------- writing

  function WriteNative(n: Native, v: Val): Json
    requires TypedNative(n, v)
    decreases n, 0
  {
    match n
    case TBool => JBool(v.b)
    case TInt => JInt(v.i)
    case TInt64 => JInt(v.i)
    case TDouble => JDouble(v.d)
    case TString => JString(v.s)
    case TVector(e) => JArray(WriteItems(e, v.items))
    case TMap(e) => JObject(WriteEntries(e, v.entries))
  }

  function WriteItems(e: Native, vs: seq<Val>): (js: seq<Json>)
    requires forall i :: 0 <= i < |vs| ==> TypedNative(e, vs[i])
    ensures |js| == |vs|
    decreases e, |vs| + 1
  {
    if vs == [] then []
    else WriteItems(e, vs[..|vs| - 1]) + [WriteNative(e, vs[|vs| - 1])]
  }

  function WriteEntries(e: Native, es: seq<(string, Val)>): (ms: seq<(string, Json)>)
    requires forall i :: 0 <= i < |es| ==> TypedNative(e, es[i].1)
    ensures |ms| == |es|
    decreases e, |es| + 1
  {
    if es == [] then []
    else
      var (k, v) := es[|es| - 1];
      WriteEntries(e, es[..|es| - 1]) + [(k, WriteNative(e, v))]
  }

  /** The tree a data member adds to its object, if it adds one: an empty optional adds none. */
  function Written(ty: Type, v: Val): Option<Json>
    requires Typed(ty, v)
    decreases ty, 0
  {
    match ty
    case Pod(n) => Some(WriteNative(n, v))
    case Struct(fs) => Some(JObject(WriteFields(fs, v.fields)))
    case Optional(t) => if v.VNone? then None else Written(t, v.value)
    case StructVector(fs) => Some(JArray(WriteStructs(fs, v.items)))
    case StructMap(fs) => Some(JObject(WriteStructEntries(fs, v.entries)))
  }

  function WriteFields(fs: Fields, vs: seq<Val>): seq<(string, Json)>
    requires TypedFields(fs, vs)
    decreases fs, 0
  {
    match fs
    case End => []
    case Field(name, ty, rest) =>
      var w := Written(ty, vs[0]);
      (if w.Some? then [(name, w.value)] else []) + WriteFields(rest, vs[1..])
  }

  function WriteStructs(fs: Fields, vs: seq<Val>): (js: seq<Json>)
    requires forall i :: 0 <= i < |vs| ==> TypedStruct(fs, vs[i])
    ensures |js| == |vs|
    decreases fs, |vs| + 1
  {
    if vs == [] then []
    else
      assert TypedStruct(fs, vs[|vs| - 1]);
      WriteStructs(fs, vs[..|vs| - 1]) + [JObject(WriteFields(fs, vs[|vs| - 1].fields))]
  }

  function WriteStructEntries(fs: Fields, es: seq<(string, Val)>): (ms: seq<(string, Json)>)
    requires forall i :: 0 <= i < |es| ==> TypedStruct(fs, es[i].1)
    ensures |ms| == |es|
    decreases fs, |es| + 1
  {
    if es == [] then []
    else
      var (k, v) := es[|es| - 1];
      assert TypedStruct(fs, es[|es| - 1].1);
      WriteStructEntries(fs, es[..|es| - 1]) + [(k, JObject(WriteFields(fs, v.fields)))]
  }

  // ---------------------------------------------------------------- reading

  /** `FindMember`: the first member of that name. */
  function Find(members: seq<(string, Json)>, name: string): Option<Json> {
    if members == [] then None
    else if members[0].0 == name then Some(members[0].1)
    else Find(members[1..], name)
  }

  /** A string read through `const char *`: up to the first NUL. */
  function CString(s: string): (r: string)
    ensures 0 as char !in r
    ensures 0 as char !in s ==> r == s
  {
    if s == "" || s[0] == 0 as char then "" else [s[0]] + CString(s[1..])
  }

  function ReadNative(n: Native, j: Json): Result<Val>
    decreases n, 0
  {
    match n
    case TBool => if j.JBool? then Ok(VBool(j.b)) else Err(TypeMismatch)
    case TInt => if j.JInt? && -0x8000_0000 <= j.i < 0x8000_0000 then Ok(VInt(j.i)) else Err(TypeMismatch)
    case TInt64 =>
      if j.JInt? && -0x8000_0000_0000_0000 <= j.i < 0x8000_0000_0000_0000 then Ok(VInt(j.i)) else Err(TypeMismatch)
    case TDouble => if j.JDouble? then Ok(VDouble(j.d)) else Err(TypeMismatch)
    case TString => if j.JString? then Ok(VString(CString(j.s))) else Err(TypeMismatch)
    case TVector(e) =>
      if !j.JArray? then Err(TypeMismatch)
      else
        var vs :- ReadItems(e, j.items);
        Ok(VVector(vs))
    case TMap(e) =>
      if !j.JObject? then Err(TypeMismatch)
      else
        var es :- ReadEntries(e, j.members);
        Ok(VMap(es))
  }

  function ReadItems(e: Native, js: seq<Json>): Result<seq<Val>>
    decreases e, |js| + 1
  {
    if js == [] then Ok([])
    else
      var vs :- ReadItems(e, js[..|js| - 1]);
      var v :- ReadNative(e, js[|js| - 1]);
      Ok(vs + [v])
  }

  function ReadEntries(e: Native, ms: seq<(string, Json)>): Result<seq<(string, Val)>>
    decreases e, |ms| + 1
  {
    if ms == [] then Ok([])
    else
      var es :- ReadEntries(e, ms[..|ms| - 1]);
      var v :- ReadNative(e, ms[|ms| - 1].1);
      Ok(Put(es, ms[|ms| - 1].0, v))
  }

  /** `backward(j, name, target)`: the new value of the data member `target`. */
  function ReadMember(ty: Type, j: Json, name: string, target: Val): Result<Val>
    requires Typed(ty, target)
    decreases ty, 0
  {
    match ty
    case Pod(n) =>
      if !j.JObject? then Err(Assertion)
      else
        var m := Find(j.members, name);
        if m.None? then Err(MissingKey) else ReadNative(n, m.value)
    case Struct(fs) =>
      if !j.JObject? then Err(TypeMismatch)
      else
        var m := Find(j.members, name);
        if m.None? then Err(MissingKey)
        else
          var vs :- ReadFields(fs, m.value, target.fields);
          Ok(VStruct(vs))
    case Optional(t) =>
      if !j.JObject? then Err(TypeMismatch)
      else
        var m := Find(j.members, name);
        if m.None? || m.value.JNull? then Ok(target)
        else
          var v :- ReadMember(t, j, name, Fresh(t));
          Ok(VSome(v))
    case StructVector(fs) =>
      if !j.JObject? then Err(Assertion)
      else
        var m := Find(j.members, name);
        if m.None? then Ok(VVector([]))
        else if !m.value.JArray? then Err(TypeMismatch)
        else
          var vs :- ReadStructs(fs, m.value.items);
          Ok(VVector(vs))
    case StructMap(fs) =>
      if !j.JObject? then Err(Assertion)
      else
        var m := Find(j.members, name);
        if m.None? then Ok(VMap([]))
        else if !m.value.JObject? then Err(TypeMismatch)
        else
          var es :- ReadStructEntries(fs, m.value.members);
          Ok(VMap(es))
  }

  /** `jdeserialize`: the data members are read in declaration order; the first failure throws. */
  function ReadFields(fs: Fields, j: Json, targets: seq<Val>): Result<seq<Val>>
    requires TypedFields(fs, targets)
    decreases fs, 0
  {
    match fs
    case End => Ok([])
    case Field(name, ty, rest) =>
      var v :- ReadMember(ty, j, name, targets[0]);
      var vs :- ReadFields(rest, j, targets[1..]);
      Ok([v] + vs)
  }

  function ReadStructs(fs: Fields, js: seq<Json>): Result<seq<Val>>
    decreases fs, |js| + 1
  {
    if js == [] then Ok([])
    else
      var vs :- ReadStructs(fs, js[..|js| - 1]);
      var v :- ReadFields(fs, js[|js| - 1], FreshFields(fs));
      Ok(vs + [VStruct(v)])
  }

  function ReadStructEntries(fs: Fields, ms: seq<(string, Json)>): Result<seq<(string, Val)>>
    decreases fs, |ms| + 1
  {
    if ms == [] then Ok([])
    else
      var es :- ReadStructEntries(fs, ms[..|ms| - 1]);
      var v :- ReadFields(fs, ms[|ms| - 1].1, FreshFields(fs));
      Ok(Put(es, ms[|ms| - 1].0, VStruct(v)))
  }
}
