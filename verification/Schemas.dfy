/** Structural signatures of schemas and the registry of named schemas. */
module Schemas {
  import opened Text

  /** JSON values, objects with their keys in order. Numbers keep their notation. */
  datatype Json = Null | Bool(b: bool) | Num(notation: string) | Str(s: string) | Arr(items: Items) | Obj(fields: Fields)
  datatype Items = NoItems | Item(head: Json, tail: Items)
  datatype Fields = NoFields | Field(key: string, value: Json, rest: Fields)

  function Find(fs: Fields, key: string): (r: Option<Json>)
    ensures r.Some? ==> r.value < fs
  {
    match fs
    case NoFields => None
    case Field(k, v, rest) => if k == key then Some(v) else Find(rest, key)
  }

  /** Objects have distinct keys at every depth. */
  predicate WellFormed(j: Json) {
    match j
    case Arr(items) => WellFormedItems(items)
    case Obj(fields) => WellFormedFields(fields)
    case _ => true
  }

  predicate WellFormedItems(items: Items) {
    items.Item? ==> WellFormed(items.head) && WellFormedItems(items.tail)
  }

  predicate WellFormedFields(fs: Fields) {
    fs.Field? ==> Find(fs.rest, fs.key).None? && WellFormed(fs.value) && WellFormedFields(fs.rest)
  }

  /** Equality up to the order of object keys, at every depth. */
  ghost predicate Same(a: Json, b: Json)
    decreases a
  {
    match (a, b)
    case (Arr(x), Arr(y)) => SameItems(x, y)
    case (Obj(x), Obj(y)) => SameFields(x, y)
    case (Arr(_), _) => false
    case (Obj(_), _) => false
    case _ => a == b
  }

  ghost predicate SameItems(a: Items, b: Items)
    decreases a
  {
    a.Item? == b.Item? && (a.Item? ==> Same(a.head, b.head) && SameItems(a.tail, b.tail))
  }

  ghost predicate SameFields(a: Fields, b: Fields)
    decreases a
  {
    forall key :: match (Find(a, key), Find(b, key))
      case (None, None) => true
      case (Some(x), Some(y)) => Same(x, y)
      case _ => false
  }

  // ---------- stableJson ----------

  /** Inserts a field at its place among sorted ones. */
  function InsertField(key: string, value: Json, fs: Fields): Fields {
    match fs
    case NoFields => Field(key, value, NoFields)
    case Field(k, v, rest) => if StrLe(key, k) then Field(key, value, fs) else Field(k, v, InsertField(key, value, rest))
  }

  function StableJson(j: Json): Json {
    match j
    case Arr(items) => Arr(StableItems(items))
    case Obj(fields) => Obj(StableFields(fields))
    case _ => j
  }

  function StableItems(items: Items): Items {
    match items
    case NoItems => NoItems
    case Item(head, tail) => Item(StableJson(head), StableItems(tail))
  }

  function StableFields(fs: Fields): Fields {
    match fs
    case NoFields => NoFields
    case Field(k, v, rest) => InsertField(k, StableJson(v), StableFields(rest))
  }

  // ---------- the canonical form decides sameness ----------

  lemma {:induction false} FindInsert(key: string, value: Json, fs: Fields, q: string)
    requires Find(fs, key).None?
    ensures Find(InsertField(key, value, fs), q) == if q == key then Some(value) else Find(fs, q)
  {
    match fs
    case NoFields =>
    case Field(k, v, rest) =>
      if !StrLe(key, k) {
        FindInsert(key, value, rest, q);
      }
  }

  lemma {:induction false} FindStable(fs: Fields, q: string)
    requires WellFormedFields(fs)
    ensures Find(StableFields(fs), q) ==
              match Find(fs, q) case None => None case Some(v) => Some(StableJson(v))
  {
    match fs
    case NoFields =>
    case Field(k, v, rest) =>
      FindStable(rest, k);
      FindStable(rest, q);
      FindInsert(k, StableJson(v), StableFields(rest), q);
  }

  /** Keys in strictly increasing order. */
  predicate Ascending(fs: Fields) {
    fs.Field? && fs.rest.Field? ==> fs.key != fs.rest.key && StrLe(fs.key, fs.rest.key) && Ascending(fs.rest)
  }

  lemma {:induction false} InsertAscending(key: string, value: Json, fs: Fields)
    requires Ascending(fs) && Find(fs, key).None?
    ensures Ascending(InsertField(key, value, fs))
  {
    match fs
    case NoFields =>
    case Field(k, v, rest) =>
      if !StrLe(key, k) {
        StrLeTotal(key, k);
        InsertAscending(key, value, rest);
      }
  }

  lemma {:induction false} StableAscending(fs: Fields)
    requires WellFormedFields(fs)
    ensures Ascending(StableFields(fs))
  {
    match fs
    case NoFields =>
    case Field(k, v, rest) =>
      StableAscending(rest);
      FindStable(rest, k);
      InsertAscending(k, StableJson(v), StableFields(rest));
  }

  lemma {:induction false} AscendingBounds(fs: Fields, q: string)
    requires Ascending(fs) && fs.Field? && Find(fs, q).Some?
    ensures StrLe(fs.key, q)
  {
    if q == fs.key {
      StrLeTotal(q, q);
    } else {
      AscendingBounds(fs.rest, q);
      StrLeTransitive(fs.key, fs.rest.key, q);
    }
  }

  lemma {:induction false} AscendingFresh(fs: Fields)
    requires Ascending(fs) && fs.Field?
    ensures Find(fs.rest, fs.key).None?
  {
    if Find(fs.rest, fs.key).Some? {
      AscendingBounds(fs.rest, fs.key);
      StrLeTotal(fs.key, fs.rest.key);
    }
  }

  /** Ascending fields are determined by what they map each key to. */
  lemma {:induction false} AscendingUnique(a: Fields, b: Fields)
    requires Ascending(a) && Ascending(b)
    requires forall q :: Find(a, q) == Find(b, q)
    ensures a == b
  {
    if a.Field? {
      assert Find(b, a.key).Some?;
    }
    if b.Field? {
      assert Find(a, b.key).Some?;
    }
    if a.Field? {
      AscendingBounds(a, b.key);
      AscendingBounds(b, a.key);
      StrLeTotal(a.key, b.key);
      AscendingFresh(a);
      AscendingFresh(b);
      forall q
        ensures Find(a.rest, q) == Find(b.rest, q)
      {
        assert Find(a, q) == Find(b, q);
      }
      AscendingUnique(a.rest, b.rest);
    }
  }

  /** Two schemas have the same stable form exactly when they are equal up to the order of
      object keys at any depth. */
  lemma {:induction false} StableDecidesSame(a: Json, b: Json)
    requires WellFormed(a) && WellFormed(b)
    ensures StableJson(a) == StableJson(b) <==> Same(a, b)
    decreases a
  {
    match (a, b)
    case (Arr(x), Arr(y)) => StableDecidesItems(x, y);
    case (Obj(x), Obj(y)) => StableDecidesFields(x, y);
    case _ =>
  }

  lemma {:induction false} StableDecidesItems(a: Items, b: Items)
    requires WellFormedItems(a) && WellFormedItems(b)
    ensures StableItems(a) == StableItems(b) <==> SameItems(a, b)
    decreases a
  {
    if a.Item? && b.Item? {
      StableDecidesSame(a.head, b.head);
      StableDecidesItems(a.tail, b.tail);
    }
  }

  lemma {:induction false} FoundWellFormed(fs: Fields, q: string)
    requires WellFormedFields(fs)
    ensures var r := Find(fs, q); r.Some? ==> WellFormed(r.value)
  {
    if fs.Field? {
      FoundWellFormed(fs.rest, q);
    }
  }

  lemma {:induction false} StableDecidesFields(a: Fields, b: Fields)
    requires WellFormedFields(a) && WellFormedFields(b)
    ensures StableFields(a) == StableFields(b) <==> SameFields(a, b)
    decreases a
  {
    forall q
      ensures Find(StableFields(a), q) == Find(StableFields(b), q) <==>
              match (Find(a, q), Find(b, q))
              case (None, None) => true
              case (Some(x), Some(y)) => Same(x, y)
              case _ => false
    {
      FindStable(a, q);
      FindStable(b, q);
      FoundWellFormed(a, q);
      FoundWellFormed(b, q);
      match (Find(a, q), Find(b, q)) {
        case (Some(x), Some(y)) => StableDecidesSame(x, y);
        case _ =>
      }
    }
    StableAscending(a);
    StableAscending(b);
    if SameFields(a, b) {
      AscendingUnique(StableFields(a), StableFields(b));
    }
  }

  // ---------- the registry ----------

  /** One call of `registerNamedSchema`; `id` is the identity of the schema object. */
  datatype Registration = Registration(name: string, id: nat, schema: Json)

  /** `stringify` is `JSON.stringify`. */
  function Signature(stringify: Json -> string, schema: Json): string {
    stringify(StableJson(schema))
  }

  datatype Registry = Registry(byObject: map<nat, string>, bySignature: map<string, string>, duplicates: set<string>)

  function Register(stringify: Json -> string, reg: Registry, r: Registration): Registry {
    var signature := Signature(stringify, r.schema);
    var named := reg.(byObject := reg.byObject[r.id := r.name]);
    if signature in reg.duplicates then named
    else if signature in reg.bySignature then
      named.(bySignature := reg.bySignature - {signature}, duplicates := reg.duplicates + {signature})
    else named.(bySignature := reg.bySignature[signature := r.name])
  }

  function RegisterAll(stringify: Json -> string, rs: seq<Registration>): Registry {
    if rs == [] then Registry(map[], map[], {})
    else Register(stringify, RegisterAll(stringify, rs[..|rs| - 1]), rs[|rs| - 1])
  }

  /** `namedSchema`: by identity first, then by structure if that is allowed. */
  function NamedSchema(stringify: Json -> string, reg: Registry, id: nat, schema: Json, structural: bool): Option<string> {
    if id in reg.byObject then Some(reg.byObject[id])
    else
      var signature := Signature(stringify, schema);
      if structural && signature in reg.bySignature then Some(reg.bySignature[signature]) else None
  }

  class SchemaNames {
    const stringify: Json -> string
    var schemaNameByObject: map<nat, string>
    var schemaNameBySignature: map<string, string>
    var duplicateSchemaSignatures: set<string>

    ghost function Now(): Registry
      reads this
    {
      Registry(schemaNameByObject, schemaNameBySignature, duplicateSchemaSignatures)
    }

    constructor (stringify: Json -> string)
      ensures this.stringify == stringify && Now() == RegisterAll(stringify, [])
    {
      this.stringify := stringify;
      schemaNameByObject, schemaNameBySignature, duplicateSchemaSignatures := map[], map[], {};
    }

    method RegisterNamedSchema(r: Registration)
      modifies this
      ensures Now() == Register(stringify, old(Now()), r)
    {
      schemaNameByObject := schemaNameByObject[r.id := r.name];
      var signature := Signature(stringify, r.schema);
      if signature in duplicateSchemaSignatures {
        return;
      }
      if signature in schemaNameBySignature {
        schemaNameBySignature := schemaNameBySignature - {signature};
        duplicateSchemaSignatures := duplicateSchemaSignatures + {signature};
        return;
      }
      schemaNameBySignature := schemaNameBySignature[signature := r.name];
    }
  }

  /** The registrations whose schema has this signature. */
  function WithSignature(stringify: Json -> string, rs: seq<Registration>, signature: string): seq<Registration> {
    if rs == [] then []
    else WithSignature(stringify, rs[..|rs| - 1], signature) +
         if Signature(stringify, rs[|rs| - 1].schema) == signature then [rs[|rs| - 1]] else []
  }

  /** A signature names a schema exactly when one registration has it, and is set aside
      exactly when several do. */
  lemma {:induction false} RegistryCounts(stringify: Json -> string, rs: seq<Registration>, signature: string)
    ensures var reg, found := RegisterAll(stringify, rs), WithSignature(stringify, rs, signature);
            && (signature in reg.bySignature <==> |found| == 1)
            && (|found| == 1 ==> reg.bySignature[signature] == found[0].name)
            && (signature in reg.duplicates <==> |found| >= 2)
  {
    if rs != [] {
      RegistryCounts(stringify, rs[..|rs| - 1], signature);
    }
  }

  /** The registrations whose schema equals the given one up to key order. */
  ghost function SameAs(rs: seq<Registration>, schema: Json): seq<Registration> {
    if rs == [] then []
    else SameAs(rs[..|rs| - 1], schema) + if Same(rs[|rs| - 1].schema, schema) then [rs[|rs| - 1]] else []
  }

  lemma {:induction false} SignatureMeansSame(stringify: Json -> string, rs: seq<Registration>, schema: Json)
    requires forall x, y :: stringify(x) == stringify(y) ==> x == y
    requires WellFormed(schema) && forall r <- rs :: WellFormed(r.schema)
    ensures WithSignature(stringify, rs, Signature(stringify, schema)) == SameAs(rs, schema)
  {
    if rs != [] {
      var n := |rs| - 1;
      assert rs[n] in rs && forall r <- rs[..n] :: r in rs;
      SignatureMeansSame(stringify, rs[..n], schema);
      StableDecidesSame(rs[n].schema, schema);
    }
  }

  /** For an object that was not registered itself, structural lookup gives a name exactly
      when one and only one registered schema equals it up to key order, and then that
      schema's name. */
  lemma StructuralLookup(stringify: Json -> string, rs: seq<Registration>, id: nat, schema: Json)
    requires forall x, y :: stringify(x) == stringify(y) ==> x == y
    requires WellFormed(schema) && forall r <- rs :: WellFormed(r.schema)
    requires forall r <- rs :: r.id != id
    ensures NamedSchema(stringify, RegisterAll(stringify, rs), id, schema, true) ==
              if |SameAs(rs, schema)| == 1 then Some(SameAs(rs, schema)[0].name) else None
  {
    RegistryCounts(stringify, rs, Signature(stringify, schema));
    SignatureMeansSame(stringify, rs, schema);
    ByIdentity(stringify, rs, id);
  }

  lemma RegisterIdentity(stringify: Json -> string, reg: Registry, r: Registration)
    ensures Register(stringify, reg, r).byObject == reg.byObject[r.id := r.name]
  {
  }

  /** Lookup by identity finds the name given last to that object, and nothing else. */
  lemma {:induction false} ByIdentity(stringify: Json -> string, rs: seq<Registration>, id: nat)
    ensures var reg := RegisterAll(stringify, rs);
            && (id in reg.byObject <==> exists r :: r in rs && r.id == id)
            && (forall i | 0 <= i < |rs| && rs[i].id == id && (forall j | i < j < |rs| :: rs[j].id != id) ::
                  id in reg.byObject && reg.byObject[id] == rs[i].name)
  {
    hide Register;
    if rs != [] {
      var init, last := rs[..|rs| - 1], rs[|rs| - 1];
      RegisterIdentity(stringify, RegisterAll(stringify, init), last);
      ByIdentity(stringify, init, id);
      assert rs == init + [last];
      var reg := RegisterAll(stringify, rs);
      forall i | 0 <= i < |rs| && rs[i].id == id && (forall j | i < j < |rs| :: rs[j].id != id)
        ensures id in reg.byObject && reg.byObject[id] == rs[i].name
      {
        if i < |init| {
          assert rs[|init|].id != id && init[i].id == id;
          assert forall j | i < j < |init| :: init[j].id != id;
        }
      }
    }
  }

  /** A registered object always has the name it was given last, whether or not structural
      lookup is allowed and whatever other schemas are registered. */
  lemma NamedByIdentity(stringify: Json -> string, rs: seq<Registration>, i: nat, schema: Json, structural: bool)
    requires i < |rs| && forall j | i < j < |rs| :: rs[j].id != rs[i].id
    ensures NamedSchema(stringify, RegisterAll(stringify, rs), rs[i].id, schema, structural) == Some(rs[i].name)
  {
    hide Signature, RegisterAll;
    ByIdentity(stringify, rs, rs[i].id);
  }

  /** Any other object has no name unless structural lookup is allowed. */
  lemma UnregisteredHasNoName(stringify: Json -> string, rs: seq<Registration>, id: nat, schema: Json)
    requires forall r <- rs :: r.id != id
    ensures NamedSchema(stringify, RegisterAll(stringify, rs), id, schema, false) == None
  {
    hide Signature, RegisterAll;
    ByIdentity(stringify, rs, id);
  }
}
