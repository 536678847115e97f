/**
  Expanding the values a user gives for an application, persisting the result as JSON, and
  recovering the user's values from it for an upgrade.
*/
module Derived {
  import opened Wrappers

  datatype Result<+T> = Ok(value: T) | Err | Panicked

  datatype Network = Network(
    name: string, ingressClass: string, certificateIssuer: string, domain: string, allocatePortAddr: string)

  /** The dynamic values that occur, by their Go type. */
  datatype Value =
    | Bool(b: bool)
    | Str(s: string)
    | Num(n: int)
    | Strings(ss: seq<string>)             // []string
    | List(vs: seq<Value>)                 // []any
    | Obj(m: map<string, Value>)           // map[string]any
    | StrObj(sm: map<string, string>)      // map[string]string
    | Net(net: Network)

  datatype Kind =
    | KindBoolean | KindInt | KindString | KindNetwork | KindAuth | KindSSHKey | KindNumber | KindArrayString

  datatype Schema = Basic(kind: Kind) | Struct(fields: seq<Field>)
  {
    predicate Is(k: Kind) { Basic? && kind == k }
    predicate Nested() { Struct? || kind == KindAuth || kind == KindSSHKey }
  }

  datatype Field = Field(name: string, schema: Schema)

  const AUTH_FIELDS := [Field("enabled", Basic(KindBoolean)), Field("groups", Basic(KindString))]
  const SSH_KEY_FIELDS := [Field("public", Basic(KindString)), Field("private", Basic(KindString))]

  /** The fields that a nested value is processed with. */
  function Sub(s: Schema): seq<Field> {
    match s
    case Struct(fs) => fs
    case Basic(KindAuth) => AUTH_FIELDS
    case Basic(KindSSHKey) => SSH_KEY_FIELDS
    case _ => []
  }

  function Rank(s: Schema): nat
    decreases s, 1
  {
    match s
    case Struct(fs) => 1 + RankAll(fs)
    case Basic(k) => if s.Nested() then 5 else 1
  }

  function RankAll(fs: seq<Field>): nat
    decreases fs, 0
  {
    if fs == [] then 0 else RankAll(fs[..|fs| - 1]) + 1 + Rank(fs[|fs| - 1].schema)
  }

  lemma RankSub(s: Schema)
    requires s.Nested()
    ensures RankAll(Sub(s)) < Rank(s)
  {
    assert RankAll(AUTH_FIELDS) == 4 by { assert AUTH_FIELDS[..1] == [AUTH_FIELDS[0]]; }
    assert RankAll(SSH_KEY_FIELDS) == 4 by { assert SSH_KEY_FIELDS[..1] == [SSH_KEY_FIELDS[0]]; }
  }

  /** Key generation: one pair per field that needs one, named by the path to that field. */
  type KeyGen = seq<string> -> (string, string)

  // ---------------------------------------------------------------- deriving

  function FindNetwork(networks: seq<Network>, name: string): Option<Network> {
    if networks == [] then None
    else if networks[0].name == name then Some(networks[0])
    else FindNetwork(networks[1..], name)
  }

  function DeriveValue(x: Value, s: Schema, networks: seq<Network>, gen: KeyGen, path: seq<string>): Result<Value>
    decreases Rank(s), 0
  {
    if s.Nested() then
      RankSub(s);
      match DeriveFields(x, Sub(s), networks, gen, path)
      case Ok(m) => Ok(Obj(m))
      case Err => Err
      case Panicked => Panicked
    else
      match s.kind
      case KindArrayString => if x.Strings? then Ok(x) else Err
      case KindNetwork =>
        if !x.Str? then Panicked
        else
          (match FindNetwork(networks, x.s)
           case None => Err
           case Some(n) => Ok(Net(n)))
      case KindNumber => Err
      case _ => Ok(x)
  }

  /** One iteration of the loop over the fields: what is stored under the field's name, if anything. */
  function DeriveField(v: Value, f: Field, networks: seq<Network>, gen: KeyGen,
    path: seq<string>): Result<Option<Value>>
    decreases Rank(f.schema), 1
  {
    if !v.Obj? then Panicked
    else if f.name !in v.m then
      Ok(if f.schema.Is(KindSSHKey) then Some(StrObj(GeneratedKey(gen, path + [f.name]))) else None)
    else
      match DeriveValue(v.m[f.name], f.schema, networks, gen, path + [f.name])
      case Ok(x) => Ok(Some(x))
      case Err => Err
      case Panicked => Panicked
  }

  function GeneratedKey(gen: KeyGen, path: seq<string>): map<string, string> {
    map["public" := gen(path).0, "private" := gen(path).1]
  }

  function Put(m: map<string, Value>, name: string, x: Option<Value>): map<string, Value> {
    if x.Some? then m[name := x.value] else m
  }

  function DeriveFields(v: Value, fs: seq<Field>, networks: seq<Network>, gen: KeyGen,
    path: seq<string>): Result<map<string, Value>>
    decreases RankAll(fs), 2
  {
    if fs == [] then Ok(map[])
    else
      match DeriveFields(v, fs[..|fs| - 1], networks, gen, path)
      case Ok(ret) =>
        (match DeriveField(v, fs[|fs| - 1], networks, gen, path)
         case Ok(x) => Ok(Put(ret, fs[|fs| - 1].name, x))
         case Err => Err
         case Panicked => Panicked)
      case Err => Err
      case Panicked => Panicked
  }

  // ---------------------------------------------------------------- recovering

  function RecoverValue(x: Value, s: Schema): Result<Value>
    decreases Rank(s), 0
  {
    if s.Nested() then
      if !x.Obj? then Err
      else
        RankSub(s);
        match RecoverFields(x.m, Sub(s))
        case Ok(m) => Ok(Obj(m))
        case Err => Err
        case Panicked => Panicked
    else
      match s.kind
      case KindArrayString => if x.Strings? then Ok(x) else Err
      case KindNetwork => if x.Obj? && "name" in x.m then Ok(x.m["name"]) else Err
      case KindNumber => Err
      case _ => Ok(x)
  }

  function RecoverField(m: map<string, Value>, f: Field): Result<Option<Value>>
    decreases Rank(f.schema), 1
  {
    if f.name !in m then Ok(None)
    else
      match RecoverValue(m[f.name], f.schema)
      case Ok(x) => Ok(Some(x))
      case Err => Err
      case Panicked => Panicked
  }

  function RecoverFields(m: map<string, Value>, fs: seq<Field>): Result<map<string, Value>>
    decreases RankAll(fs), 2
  {
    if fs == [] then Ok(map[])
    else
      match RecoverFields(m, fs[..|fs| - 1])
      case Ok(ret) =>
        (match RecoverField(m, fs[|fs| - 1])
         case Ok(x) => Ok(Put(ret, fs[|fs| - 1].name, x))
         case Err => Err
         case Panicked => Panicked)
      case Err => Err
      case Panicked => Panicked
  }

  // ---------------------------------------------------------------- persistence

  function NetworkEntry(n: Network, key: string): string {
    match key
    case "name" => n.name
    case "ingressClass" => n.ingressClass
    case "certificateIssuer" => n.certificateIssuer
    case "domain" => n.domain
    case "allocatePortAddr" => n.allocatePortAddr
    case _ => ""
  }

  const NETWORK_KEYS := {"name", "ingressClass", "certificateIssuer", "domain", "allocatePortAddr"}

  /** Writing a value as JSON and reading it back into a map[string]any; empty network entries are omitted. */
  function Persist(v: Value): Value {
    match v
    case Strings(ss) => List(seq(|ss|, i requires 0 <= i < |ss| => Str(ss[i])))
    case List(vs) => List(seq(|vs|, i requires 0 <= i < |vs| => Persist(vs[i])))
    case Obj(m) => Obj(map k | k in m :: Persist(m[k]))
    case StrObj(sm) => Obj(map k | k in sm :: Str(sm[k]))
    case Net(n) => Obj(map k | k in NETWORK_KEYS && NetworkEntry(n, k) != "" :: Str(NetworkEntry(n, k)))
    case _ => v
  }

  // ---------------------------------------------------------------- the reference

  predicate WellFormed(fs: seq<Field>)
    decreases fs
  {
    && (forall i, j | 0 <= i < j < |fs| :: fs[i].name != fs[j].name)
    && forall i | 0 <= i < |fs| :: fs[i].schema.Struct? ==> WellFormed(fs[i].schema.fields)
  }

  predicate TypedValue(x: Value, s: Schema, networks: seq<Network>)
    decreases Rank(s), 0
  {
    if s.Nested() then RankSub(s); Typed(x, Sub(s), networks)
    else
      match s.kind
      case KindBoolean => x.Bool?
      case KindString => x.Str?
      case KindArrayString => x.Strings?
      case KindNetwork => x.Str? && FindNetwork(networks, x.s).Some?
      case _ => x.Num?
  }

  /** The input is a map whose present fields have the types that the schema says. */
  predicate Typed(v: Value, fs: seq<Field>, networks: seq<Network>)
    decreases RankAll(fs), 2
  {
    && v.Obj?
    && (fs != [] ==>
          var f := fs[|fs| - 1];
          && Typed(v, fs[..|fs| - 1], networks)
          && (f.name in v.m ==> TypedValue(v.m[f.name], f.schema, networks)))
  }

  /** Some present field satisfies `bad`, at any depth. */
  predicate Holds(v: Value, fs: seq<Field>, bad: (Value, Kind) -> bool)
    decreases RankAll(fs), 2
  {
    v.Obj? && fs != [] &&
    var f := fs[|fs| - 1];
    (Holds(v, fs[..|fs| - 1], bad) || (f.name in v.m && HoldsValue(v.m[f.name], f.schema, bad)))
  }

  predicate HoldsValue(x: Value, s: Schema, bad: (Value, Kind) -> bool)
    decreases Rank(s), 0
  {
    if s.Nested() then RankSub(s); Holds(x, Sub(s), bad) else bad(x, s.kind)
  }

  const IsNumber: (Value, Kind) -> bool := (x, k) => k == KindNumber
  /** A list, or a choice of the network whose name is empty. */
  const IsLost: (Value, Kind) -> bool := (x, k) => k == KindArrayString || (k == KindNetwork && x == Str(""))

  /** The input restricted to the schema, plus the generated keys. */
  function Complete(v: Value, fs: seq<Field>, gen: KeyGen, path: seq<string>): map<string, Value>
    decreases RankAll(fs), 2
  {
    if fs == [] || !v.Obj? then map[]
    else
      var f := fs[|fs| - 1];
      var rest := Complete(v, fs[..|fs| - 1], gen, path);
      if f.name in v.m then rest[f.name := CompleteValue(v.m[f.name], f.schema, gen, path + [f.name])]
      else if f.schema.Is(KindSSHKey) then rest[f.name := Persist(StrObj(GeneratedKey(gen, path + [f.name])))]
      else rest
  }

  function CompleteValue(x: Value, s: Schema, gen: KeyGen, path: seq<string>): Value
    decreases Rank(s), 0
  {
    if s.Nested() then RankSub(s); Obj(Complete(x, Sub(s), gen, path)) else x
  }

  // ---------------------------------------------------------------- frames

  /** Two maps agree on the names of the fields. */
  predicate Agree(a: map<string, Value>, b: map<string, Value>, fs: seq<Field>) {
    forall i | 0 <= i < |fs| ::
      (fs[i].name in a <==> fs[i].name in b) && (fs[i].name in a ==> a[fs[i].name] == b[fs[i].name])
  }

  lemma {:induction false} RecoverFrame(a: map<string, Value>, b: map<string, Value>, fs: seq<Field>)
    requires Agree(a, b, fs)
    ensures RecoverFields(a, fs) == RecoverFields(b, fs)
  {
    if fs != [] {
      var init, f := fs[..|fs| - 1], fs[|fs| - 1];
      assert forall i | 0 <= i < |init| :: init[i] == fs[i];
      RecoverFrame(a, b, init);
      assert f.name in a <==> f.name in b;
    }
  }

  lemma {:induction false} DeriveFrame(a: map<string, Value>, b: map<string, Value>, fs: seq<Field>,
    networks: seq<Network>, gen: KeyGen, path: seq<string>)
    requires Agree(a, b, fs)
    ensures DeriveFields(Obj(a), fs, networks, gen, path) == DeriveFields(Obj(b), fs, networks, gen, path)
  {
    if fs != [] {
      var init, f := fs[..|fs| - 1], fs[|fs| - 1];
      assert forall i | 0 <= i < |init| :: init[i] == fs[i];
      DeriveFrame(a, b, init, networks, gen, path);
      assert f.name in a <==> f.name in b;
    }
  }

  /** A later field of a well-formed list does not disturb the earlier ones. */
  lemma PutAgrees(m: map<string, Value>, fs: seq<Field>, x: Option<Value>)
    requires WellFormed(fs) && fs != []
    ensures Agree(Put(m, fs[|fs| - 1].name, x), m, fs[..|fs| - 1])
    ensures WellFormed(fs[..|fs| - 1])
  {
    var init := fs[..|fs| - 1];
    forall i | 0 <= i < |init| ensures init[i].name != fs[|fs| - 1].name {
    }
  }

  lemma PersistPut(m: map<string, Value>, name: string, x: Option<Value>)
    ensures
      var px := if x.Some? then Some(Persist(x.value)) else None;
      Persist(Obj(Put(m, name, x))).m == Put(Persist(Obj(m)).m, name, px)
  {
  }

  // ---------------------------------------------------------------- theorems

  lemma {:induction false} SubWellFormed(fs: seq<Field>, i: nat)
    requires WellFormed(fs) && i < |fs|
    ensures WellFormed(Sub(fs[i].schema))
  {
    match fs[i].schema
    case Struct(_) =>
    case Basic(KindAuth) => assert |AUTH_FIELDS[0].name| != |AUTH_FIELDS[1].name|;
    case Basic(KindSSHKey) => assert |SSH_KEY_FIELDS[0].name| != |SSH_KEY_FIELDS[1].name|;
    case _ =>
  }

  lemma {:induction false} FoundNetwork(networks: seq<Network>, name: string)
    ensures FindNetwork(networks, name).Some? ==> FindNetwork(networks, name).value.name == name
  {
    if networks != [] { FoundNetwork(networks[1..], name); }
  }

  lemma {:induction false} DeriveValueSucceeds(x: Value, s: Schema, networks: seq<Network>, gen: KeyGen,
    path: seq<string>)
    requires TypedValue(x, s, networks)
    ensures !DeriveValue(x, s, networks, gen, path).Panicked?
    ensures DeriveValue(x, s, networks, gen, path).Ok? <==> !HoldsValue(x, s, IsNumber)
    decreases Rank(s), 0
  {
    if s.Nested() {
      RankSub(s);
      DeriveSucceeds(x, Sub(s), networks, gen, path);
    }
  }

  /** Well-typed input never panics, and derives exactly when no number field is present. */
  lemma {:induction false} DeriveSucceeds(v: Value, fs: seq<Field>, networks: seq<Network>, gen: KeyGen,
    path: seq<string>)
    requires Typed(v, fs, networks)
    ensures !DeriveFields(v, fs, networks, gen, path).Panicked?
    ensures DeriveFields(v, fs, networks, gen, path).Ok? <==> !Holds(v, fs, IsNumber)
    decreases RankAll(fs), 2
  {
    if fs != [] {
      var f := fs[|fs| - 1];
      DeriveSucceeds(v, fs[..|fs| - 1], networks, gen, path);
      if f.name in v.m {
        DeriveValueSucceeds(v.m[f.name], f.schema, networks, gen, path + [f.name]);
      }
    }
  }

  lemma {:induction false} DerivedKeys(v: Value, fs: seq<Field>, networks: seq<Network>, gen: KeyGen,
    path: seq<string>, k: string)
    requires DeriveFields(v, fs, networks, gen, path).Ok? && k in DeriveFields(v, fs, networks, gen, path).value
    ensures exists i | 0 <= i < |fs| :: fs[i].name == k
    decreases |fs|
  {
    var init := fs[..|fs| - 1];
    if k != fs[|fs| - 1].name {
      DerivedKeys(v, init, networks, gen, path, k);
      var i :| 0 <= i < |init| && init[i].name == k;
      assert fs[i].name == k;
    }
  }

  lemma {:induction false} CompleteKeys(v: Value, fs: seq<Field>, gen: KeyGen, path: seq<string>, k: string)
    requires k in Complete(v, fs, gen, path)
    ensures exists i | 0 <= i < |fs| :: fs[i].name == k
    decreases |fs|
  {
    var init := fs[..|fs| - 1];
    if k != fs[|fs| - 1].name {
      CompleteKeys(v, init, gen, path, k);
      var i :| 0 <= i < |init| && init[i].name == k;
      assert fs[i].name == k;
    }
  }

  /** The stored form of a generated key pair is a valid SSH key input. */
  lemma KeyRecovers(key: map<string, string>, networks: seq<Network>, gen: KeyGen, path: seq<string>)
    requires key.Keys == {"public", "private"}
    ensures RecoverFields(Persist(StrObj(key)).m, SSH_KEY_FIELDS) == Ok(Persist(StrObj(key)).m)
    ensures DeriveFields(Persist(StrObj(key)), SSH_KEY_FIELDS, networks, gen, path) == Ok(Persist(StrObj(key)).m)
    ensures Persist(Persist(StrObj(key))) == Persist(StrObj(key))
  {
    var m := Persist(StrObj(key)).m;
    var f0, f1 := SSH_KEY_FIELDS[0], SSH_KEY_FIELDS[1];
    assert SSH_KEY_FIELDS[..1] == [f0] && [f0][..0] == [];
    assert RecoverFields(m, [f0]) == Ok(map["public" := m["public"]]);
    assert DeriveFields(Obj(m), [f0], networks, gen, path) == Ok(map["public" := m["public"]]);
    assert m == map["public" := m["public"], "private" := m["private"]];
  }

  lemma {:induction false} ValueRoundTrip(x: Value, s: Schema, networks: seq<Network>, gen: KeyGen, path: seq<string>)
    requires TypedValue(x, s, networks) && DeriveValue(x, s, networks, gen, path).Ok? && WellFormed(Sub(s))
    ensures RecoverValue(Persist(DeriveValue(x, s, networks, gen, path).value), s)
            == if HoldsValue(x, s, IsLost) then Err else Ok(CompleteValue(x, s, gen, path))
    decreases Rank(s), 0
  {
    if s.Nested() {
      RankSub(s);
      RoundTrip(x, Sub(s), networks, gen, path);
    } else if s.kind == KindNetwork {
      FoundNetwork(networks, x.s);
      var n := FindNetwork(networks, x.s).value;
      assert NetworkEntry(n, "name") == x.s;
    }
  }

  /** The value stored for one field comes back as the completed input value, or not at all. */
  lemma FieldRoundTrip(v: Value, f: Field, networks: seq<Network>, gen: KeyGen, path: seq<string>,
    m: map<string, Value>)
    requires v.Obj? && (f.name in v.m ==> TypedValue(v.m[f.name], f.schema, networks)) && WellFormed(Sub(f.schema))
    requires DeriveField(v, f, networks, gen, path).Ok?
    requires
      var x := DeriveField(v, f, networks, gen, path).value;
      (f.name in m <==> x.Some?) && (x.Some? ==> m[f.name] == Persist(x.value))
    ensures RecoverField(m, f) ==
      if f.name !in v.m then
        Ok(if f.schema.Is(KindSSHKey) then Some(Persist(StrObj(GeneratedKey(gen, path + [f.name])))) else None)
      else if HoldsValue(v.m[f.name], f.schema, IsLost) then Err
      else Ok(Some(CompleteValue(v.m[f.name], f.schema, gen, path + [f.name])))
    decreases Rank(f.schema), 1
  {
    if f.name in v.m {
      ValueRoundTrip(v.m[f.name], f.schema, networks, gen, path + [f.name]);
    } else if f.schema.Is(KindSSHKey) {
      KeyRecovers(GeneratedKey(gen, path + [f.name]), networks, gen, path);
    }
  }

  /**
    Recovering from the persisted derived values gives back the input restricted to the schema plus
    the generated keys, if and only if no list is present and no network with an empty name is chosen;
    otherwise it fails.
  */
  lemma {:induction false} RoundTrip(v: Value, fs: seq<Field>, networks: seq<Network>, gen: KeyGen, path: seq<string>)
    requires WellFormed(fs) && Typed(v, fs, networks) && DeriveFields(v, fs, networks, gen, path).Ok?
    ensures RecoverFields(Persist(Obj(DeriveFields(v, fs, networks, gen, path).value)).m, fs)
            == if Holds(v, fs, IsLost) then Err else Ok(Complete(v, fs, gen, path))
    decreases RankAll(fs), 2
  {
    if fs != [] {
      var init, f := fs[..|fs| - 1], fs[|fs| - 1];
      var d0 := DeriveFields(v, init, networks, gen, path).value;
      var x := DeriveField(v, f, networks, gen, path).value;
      var p0, px := Persist(Obj(d0)).m, if x.Some? then Some(Persist(x.value)) else None;
      var m := Put(p0, f.name, px);
      PersistPut(d0, f.name, x);
      PutAgrees(p0, fs, px);
      RoundTrip(v, init, networks, gen, path);
      RecoverFrame(m, p0, init);
      SubWellFormed(fs, |fs| - 1);
      if f.name in d0 { DerivedKeys(v, init, networks, gen, path, f.name); }
      FieldRoundTrip(v, f, networks, gen, path, m);
    }
  }

  lemma {:induction false} ValueRederived(x: Value, s: Schema, networks: seq<Network>, gen: KeyGen,
    path: seq<string>, again: KeyGen)
    requires TypedValue(x, s, networks) && DeriveValue(x, s, networks, gen, path).Ok? && WellFormed(Sub(s))
    ensures
      var r := DeriveValue(CompleteValue(x, s, gen, path), s, networks, again, path);
      r.Ok? && Persist(r.value) == Persist(DeriveValue(x, s, networks, gen, path).value)
    decreases Rank(s), 0
  {
    if s.Nested() {
      RankSub(s);
      Rederived(x, Sub(s), networks, gen, path, again);
    }
  }

  lemma FieldRederived(v: Value, f: Field, networks: seq<Network>, gen: KeyGen, path: seq<string>,
    again: KeyGen, c: map<string, Value>)
    requires v.Obj? && (f.name in v.m ==> TypedValue(v.m[f.name], f.schema, networks)) && WellFormed(Sub(f.schema))
    requires DeriveField(v, f, networks, gen, path).Ok?
    requires f.name in v.m ==> f.name in c && c[f.name] == CompleteValue(v.m[f.name], f.schema, gen, path + [f.name])
    requires f.name !in v.m && f.schema.Is(KindSSHKey) ==>
      f.name in c && c[f.name] == Persist(StrObj(GeneratedKey(gen, path + [f.name])))
    requires f.name !in v.m && !f.schema.Is(KindSSHKey) ==> f.name !in c
    ensures
      var x, y := DeriveField(v, f, networks, gen, path), DeriveField(Obj(c), f, networks, again, path);
      y.Ok? && y.value.Some? == x.value.Some? && (x.value.Some? ==> Persist(y.value.value) == Persist(x.value.value))
    decreases Rank(f.schema), 1
  {
    if f.name in v.m {
      ValueRederived(v.m[f.name], f.schema, networks, gen, path + [f.name], again);
    } else if f.schema.Is(KindSSHKey) {
      KeyRecovers(GeneratedKey(gen, path + [f.name]), networks, again, path + [f.name]);
    }
  }

  /**
    Deriving again from the recovered values stores the same derived values, whatever keys the
    generator would make now: every generated key is found in the recovered values.
  */
  lemma {:induction false} Rederived(v: Value, fs: seq<Field>, networks: seq<Network>, gen: KeyGen,
    path: seq<string>, again: KeyGen)
    requires WellFormed(fs) && Typed(v, fs, networks) && DeriveFields(v, fs, networks, gen, path).Ok?
    ensures
      var r := DeriveFields(Obj(Complete(v, fs, gen, path)), fs, networks, again, path);
      r.Ok? && Persist(Obj(r.value)) == Persist(Obj(DeriveFields(v, fs, networks, gen, path).value))
    decreases RankAll(fs), 2
  {
    if fs != [] {
      var init, f := fs[..|fs| - 1], fs[|fs| - 1];
      var c0, c := Complete(v, init, gen, path), Complete(v, fs, gen, path);
      Rederived(v, init, networks, gen, path, again);
      PutAgrees(c0, fs, if f.name in c then Some(c[f.name]) else None);
      if f.name in c0 { CompleteKeys(v, init, gen, path, f.name); }
      assert c == Put(c0, f.name, if f.name in c then Some(c[f.name]) else None);
      DeriveFrame(c, c0, init, networks, again, path);
      SubWellFormed(fs, |fs| - 1);
      FieldRederived(v, f, networks, gen, path, again, c);
      var x, y := DeriveField(v, f, networks, gen, path).value, DeriveField(Obj(c), f, networks, again, path).value;
      PersistPut(DeriveFields(v, init, networks, gen, path).value, f.name, x);
      PersistPut(DeriveFields(Obj(c0), init, networks, again, path).value, f.name, y);
    }
  }

  // ---------------------------------------------------------------- what is derived and stored

  /** n is the first network of that name. */
  ghost predicate FirstNamed(networks: seq<Network>, name: string, n: Network) {
    exists j :: 0 <= j < |networks| && networks[j] == n && n.name == name
      && forall k | 0 <= k < j :: networks[k].name != name
  }

  lemma {:induction false} FoundFirst(networks: seq<Network>, name: string)
    requires FindNetwork(networks, name).Some?
    ensures FirstNamed(networks, name, FindNetwork(networks, name).value)
  {
    if networks[0].name != name {
      FoundFirst(networks[1..], name);
      var n, rest := FindNetwork(networks, name).value, networks[1..];
      var j :| 0 <= j < |rest| && rest[j] == n && n.name == name && forall k | 0 <= k < j :: rest[k].name != name;
      forall k | 0 <= k < j + 1 ensures networks[k].name != name { assert k > 0 ==> rest[k - 1] == networks[k]; }
      assert networks[j + 1] == n;
    }
  }

  /** What is derived for a field that is present. */
  ghost predicate DerivedFrom(x: Value, y: Value, s: Schema, networks: seq<Network>, gen: KeyGen, path: seq<string>) {
    if s.Nested() then y.Obj? && DeriveFields(x, Sub(s), networks, gen, path) == Ok(y.m)
    else if s.kind == KindNetwork then x.Str? && y.Net? && FirstNamed(networks, x.s, y.net)
    else s.kind != KindNumber && y == x
  }

  lemma DerivedValueFrom(x: Value, s: Schema, networks: seq<Network>, gen: KeyGen, path: seq<string>)
    requires DeriveValue(x, s, networks, gen, path).Ok?
    ensures DerivedFrom(x, DeriveValue(x, s, networks, gen, path).value, s, networks, gen, path)
  {
    if !s.Nested() && s.kind == KindNetwork { FoundFirst(networks, x.s); }
  }

  /**
    What the derived values hold under one field name: for a network the whole of the first network of the
    chosen name, for a missing key the generated pair with each half in its place, for a plain value the
    value itself, and nothing for any other missing field.
  */
  lemma {:induction false} DerivedAt(v: Value, fs: seq<Field>, networks: seq<Network>, gen: KeyGen, path: seq<string>,
    i: nat)
    requires WellFormed(fs) && v.Obj? && DeriveFields(v, fs, networks, gen, path).Ok? && i < |fs|
    ensures
      var f, d := fs[i], DeriveFields(v, fs, networks, gen, path).value;
      && (f.name in d <==> f.name in v.m || f.schema.Is(KindSSHKey))
      && (f.name in v.m ==> DerivedFrom(v.m[f.name], d[f.name], f.schema, networks, gen, path + [f.name]))
      && (f.name !in v.m && f.schema.Is(KindSSHKey) ==>
            && d[f.name].StrObj? && d[f.name].sm.Keys == {"public", "private"}
            && d[f.name].sm["public"] == gen(path + [f.name]).0
            && d[f.name].sm["private"] == gen(path + [f.name]).1)
    decreases |fs|
  {
    var init, last := fs[..|fs| - 1], fs[|fs| - 1];
    var d0 := DeriveFields(v, init, networks, gen, path).value;
    PutAgrees(d0, fs, None);
    if i < |init| {
      DerivedAt(v, init, networks, gen, path, i);
      assert last.name != init[i].name;
    } else {
      if last.name in d0 { DerivedKeys(v, init, networks, gen, path, last.name); }
      if last.name in v.m { DerivedValueFrom(v.m[last.name], last.schema, networks, gen, path + [last.name]); }
    }
  }

  /** A stored network has each of its non-empty entries under its own key, and nothing else. */
  lemma StoredNetwork(n: Network)
    ensures
      var m := Persist(Net(n)).m;
      && m.Keys <= {"name", "ingressClass", "certificateIssuer", "domain", "allocatePortAddr"}
      && (if n.name == "" then "name" !in m else "name" in m && m["name"] == Str(n.name))
      && (if n.ingressClass == "" then "ingressClass" !in m
          else "ingressClass" in m && m["ingressClass"] == Str(n.ingressClass))
      && (if n.certificateIssuer == "" then "certificateIssuer" !in m
          else "certificateIssuer" in m && m["certificateIssuer"] == Str(n.certificateIssuer))
      && (if n.domain == "" then "domain" !in m else "domain" in m && m["domain"] == Str(n.domain))
      && (if n.allocatePortAddr == "" then "allocatePortAddr" !in m
          else "allocatePortAddr" in m && m["allocatePortAddr"] == Str(n.allocatePortAddr))
  {
  }

  /** Nested objects, generated keys and lists are stored entry by entry. */
  lemma StoredEntries(m: map<string, Value>, sm: map<string, string>, ss: seq<string>)
    ensures Persist(Obj(m)).Obj? && Persist(Obj(m)).m.Keys == m.Keys
    ensures forall k | k in m :: Persist(Obj(m)).m[k] == Persist(m[k])
    ensures Persist(StrObj(sm)).Obj? && Persist(StrObj(sm)).m.Keys == sm.Keys
    ensures forall k | k in sm :: Persist(StrObj(sm)).m[k] == Str(sm[k])
    ensures Persist(Strings(ss)).List? && |Persist(Strings(ss)).vs| == |ss|
    ensures forall i | 0 <= i < |ss| :: Persist(Strings(ss)).vs[i] == Str(ss[i])
  {
  }

  /** The settings of an authentication field are both kept. */
  lemma AuthKept(enabled: bool, groups: string, networks: seq<Network>, gen: KeyGen, path: seq<string>)
    ensures
      var auth: map<string, Value> := map["enabled" := Bool(enabled), "groups" := Str(groups)];
      && DeriveFields(Obj(auth), Sub(Basic(KindAuth)), networks, gen, path) == Ok(auth)
      && RecoverFields(auth, Sub(Basic(KindAuth))) == Ok(auth)
  {
    var auth: map<string, Value> := map["enabled" := Bool(enabled), "groups" := Str(groups)];
    var fs := AUTH_FIELDS;
    var one: map<string, Value> := map["enabled" := Bool(enabled)];
    assert fs[..1] == [fs[0]] && fs[..1][..0] == [] && fs[..|fs| - 1] == fs[..1];
    assert DeriveFields(Obj(auth), fs[..1], networks, gen, path) == Ok(one);
    assert RecoverFields(auth, fs[..1]) == Ok(one);
  }

  // ---------------------------------------------------------------- deriving what was recovered

  /** A network field that does not name one of the networks. */
  function UnknownIn(networks: seq<Network>): (Value, Kind) -> bool {
    (x: Value, k: Kind) => k == KindNetwork && !(x.Str? && FindNetwork(networks, x.s).Some?)
  }

  /** A network field that does not hold a name at all. */
  const NoName: (Value, Kind) -> bool := (x: Value, k: Kind) => k == KindNetwork && !x.Str?

  lemma {:induction false} HoldsFrame(a: map<string, Value>, b: map<string, Value>, fs: seq<Field>,
    bad: (Value, Kind) -> bool)
    requires Agree(a, b, fs)
    ensures Holds(Obj(a), fs, bad) == Holds(Obj(b), fs, bad)
  {
    if fs != [] {
      var init, f := fs[..|fs| - 1], fs[|fs| - 1];
      assert forall i | 0 <= i < |init| :: init[i] == fs[i];
      HoldsFrame(a, b, init, bad);
      assert f.name in a <==> f.name in b;
    }
  }

  lemma {:induction false} RecoveredKeys(m: map<string, Value>, fs: seq<Field>, k: string)
    requires RecoverFields(m, fs).Ok? && k in RecoverFields(m, fs).value
    ensures exists i | 0 <= i < |fs| :: fs[i].name == k
  {
    var init := fs[..|fs| - 1];
    if k != fs[|fs| - 1].name {
      RecoveredKeys(m, init, k);
      var i :| 0 <= i < |init| && init[i].name == k;
      assert fs[i].name == k;
    }
  }

  lemma {:induction false} RecoveredValueDerives(y: Value, s: Schema, networks: seq<Network>, gen: KeyGen,
    path: seq<string>)
    requires WellFormed(Sub(s)) && RecoverValue(y, s).Ok?
    ensures
      var x := RecoverValue(y, s).value;
      var d := DeriveValue(x, s, networks, gen, path);
      && (d.Ok? <==> !HoldsValue(x, s, UnknownIn(networks)))
      && (d.Panicked? ==> HoldsValue(x, s, NoName))
    decreases Rank(s), 0
  {
    if s.Nested() {
      RankSub(s);
      RecoveredDerives(y.m, Sub(s), networks, gen, path);
    }
  }

  /**
    Values that were recovered, from whatever was stored, can be derived again if and only if every network
    field names one of the networks; deriving them panics only if some network field holds no name.
  */
  lemma {:induction false} RecoveredDerives(m: map<string, Value>, fs: seq<Field>, networks: seq<Network>, gen: KeyGen,
    path: seq<string>)
    requires WellFormed(fs) && RecoverFields(m, fs).Ok?
    ensures
      var r := RecoverFields(m, fs).value;
      var d := DeriveFields(Obj(r), fs, networks, gen, path);
      && (d.Ok? <==> !Holds(Obj(r), fs, UnknownIn(networks)))
      && (d.Panicked? ==> Holds(Obj(r), fs, NoName))
    decreases RankAll(fs), 2
  {
    if fs != [] {
      var init, f := fs[..|fs| - 1], fs[|fs| - 1];
      var r0, x := RecoverFields(m, init).value, RecoverField(m, f).value;
      var r := Put(r0, f.name, x);
      PutAgrees(r0, fs, x);
      RecoveredDerives(m, init, networks, gen, path);
      DeriveFrame(r, r0, init, networks, gen, path);
      HoldsFrame(r, r0, init, UnknownIn(networks));
      HoldsFrame(r, r0, init, NoName);
      SubWellFormed(fs, |fs| - 1);
      RecoveredLast(m, f, r0, init);
      if f.name in m { RecoveredValueDerives(m[f.name], f.schema, networks, gen, path + [f.name]); }
    }
  }

  /** A field that was not stored is not among the recovered values. */
  lemma RecoveredLast(m: map<string, Value>, f: Field, r0: map<string, Value>, init: seq<Field>)
    requires RecoverFields(m, init) == Ok(r0) && forall i | 0 <= i < |init| :: init[i].name != f.name
    ensures f.name !in r0
  {
    if f.name in r0 { RecoveredKeys(m, init, f.name); }
  }

  /** A schema of one field, and an input that sets it. */
  function OneField(name: string, kind: Kind): seq<Field> { [Field(name, Basic(kind))] }

  function OneValue(name: string, x: Value): Value { Obj(map[name := x]) }

  lemma OneFieldFacts(name: string, kind: Kind, x: Value, networks: seq<Network>, bad: (Value, Kind) -> bool)
    requires !Basic(kind).Nested() && TypedValue(x, Basic(kind), networks)
    ensures WellFormed(OneField(name, kind)) && Typed(OneValue(name, x), OneField(name, kind), networks)
    ensures Holds(OneValue(name, x), OneField(name, kind), bad) <==> bad(x, kind)
  {
    var v, fs := OneValue(name, x), OneField(name, kind);
    assert fs[..0] == [] && fs[|fs| - 1] == Field(name, Basic(kind));
    assert Typed(v, [], networks) && !Holds(v, [], bad);
    assert v.m[name] == x;
  }

  /** A number field makes deriving fail, whatever the number. */
  lemma NumberFails(name: string, n: int, networks: seq<Network>, gen: KeyGen)
    ensures Typed(OneValue(name, Num(n)), OneField(name, KindNumber), networks)
    ensures DeriveFields(OneValue(name, Num(n)), OneField(name, KindNumber), networks, gen, []) == Err
  {
    OneFieldFacts(name, KindNumber, Num(n), networks, IsNumber);
    DeriveSucceeds(OneValue(name, Num(n)), OneField(name, KindNumber), networks, gen, []);
  }

  lemma OneValueLost(name: string, kind: Kind, x: Value, networks: seq<Network>, gen: KeyGen)
    requires kind != KindNumber && !Basic(kind).Nested() && TypedValue(x, Basic(kind), networks) && IsLost(x, kind)
    ensures
      var derived := DeriveFields(OneValue(name, x), OneField(name, kind), networks, gen, []);
      derived.Ok? && RecoverFields(Persist(Obj(derived.value)).m, OneField(name, kind)) == Err
  {
    OneFieldFacts(name, kind, x, networks, IsNumber);
    OneFieldFacts(name, kind, x, networks, IsLost);
    DeriveSucceeds(OneValue(name, x), OneField(name, kind), networks, gen, []);
    RoundTrip(OneValue(name, x), OneField(name, kind), networks, gen, []);
  }

  /** A list of strings is derived and stored, and cannot be recovered, not even the empty one. */
  lemma ListLost(name: string, ss: seq<string>, networks: seq<Network>, gen: KeyGen)
    ensures
      var derived := DeriveFields(OneValue(name, Strings(ss)), OneField(name, KindArrayString), networks, gen, []);
      derived.Ok? && RecoverFields(Persist(Obj(derived.value)).m, OneField(name, KindArrayString)) == Err
  {
    OneValueLost(name, KindArrayString, Strings(ss), networks, gen);
  }

  /** So is the choice of a network with an empty name. */
  lemma EmptyNetworkLost(name: string, n: Network, gen: KeyGen)
    requires n.name == ""
    ensures
      var derived := DeriveFields(OneValue(name, Str("")), OneField(name, KindNetwork), [n], gen, []);
      derived.Ok? && RecoverFields(Persist(Obj(derived.value)).m, OneField(name, KindNetwork)) == Err
  {
    OneValueLost(name, KindNetwork, Str(""), [n], gen);
  }

  /** Recovering the stored values and deriving them again stores what was stored before. */
  lemma StoredAgain(v: Value, fs: seq<Field>, networks: seq<Network>, gen: KeyGen, again: KeyGen)
    requires WellFormed(fs) && Typed(v, fs, networks) && !Holds(v, fs, IsNumber) && !Holds(v, fs, IsLost)
    ensures
      var derived := DeriveFields(v, fs, networks, gen, []);
      derived.Ok? &&
      var recovered := RecoverFields(Persist(Obj(derived.value)).m, fs);
      recovered.Ok? &&
      var rederived := DeriveFields(Obj(recovered.value), fs, networks, again, []);
      rederived.Ok? && Persist(Obj(rederived.value)) == Persist(Obj(derived.value))
  {
    DeriveSucceeds(v, fs, networks, gen, []);
    RoundTrip(v, fs, networks, gen, []);
    Rederived(v, fs, networks, gen, [], again);
  }

  /** What the completed input holds under one field name. */
  lemma {:induction false} CompleteAt(v: Value, fs: seq<Field>, gen: KeyGen, path: seq<string>, i: nat)
    requires WellFormed(fs) && v.Obj? && i < |fs|
    ensures
      var f, c := fs[i], Complete(v, fs, gen, path);
      && (f.name in c <==> f.name in v.m || f.schema.Is(KindSSHKey))
      && (f.name in v.m && !f.schema.Nested() ==> c[f.name] == v.m[f.name])
      && (f.name in v.m && f.schema.Nested() ==>
            c[f.name] == Obj(Complete(v.m[f.name], Sub(f.schema), gen, path + [f.name])))
      && (f.name !in v.m && f.schema.Is(KindSSHKey) ==>
            c[f.name] == Persist(StrObj(GeneratedKey(gen, path + [f.name]))))
    decreases |fs|
  {
    var init, last := fs[..|fs| - 1], fs[|fs| - 1];
    PutAgrees(Complete(v, init, gen, path), fs, None);
    if i < |init| {
      CompleteAt(v, init, gen, path, i);
    } else if last.name in Complete(v, init, gen, path) {
      CompleteKeys(v, init, gen, path, last.name);
    }
  }

  // ---------------------------------------------------------------- the loops

  method FindNetworkLoop(networks: seq<Network>, name: string) returns (r: Option<Network>)
    ensures r == FindNetwork(networks, name)
    ensures r.Some? ==> r.value in networks && r.value.name == name
    ensures r.None? ==> forall i | 0 <= i < |networks| :: networks[i].name != name
  {
    for i := 0 to |networks|
      invariant FindNetwork(networks, name) == FindNetwork(networks[i..], name)
      invariant forall j | 0 <= j < i :: networks[j].name != name
    {
      assert networks[i..][1..] == networks[i + 1..];
      if networks[i].name == name { return Some(networks[i]); }
    }
    r := None;
  }

  lemma {:induction false} RankAt(fs: seq<Field>, i: nat)
    requires i < |fs|
    ensures Rank(fs[i].schema) < RankAll(fs)
    decreases |fs|
  {
    if i < |fs| - 1 { RankAt(fs[..|fs| - 1], i); }
  }

  /** The first field that fails decides the result. */
  lemma {:induction false} DeriveStops(v: Value, fs: seq<Field>, networks: seq<Network>, gen: KeyGen,
    path: seq<string>, i: nat)
    requires i <= |fs| && !DeriveFields(v, fs[..i], networks, gen, path).Ok?
    ensures DeriveFields(v, fs, networks, gen, path) == DeriveFields(v, fs[..i], networks, gen, path)
    decreases |fs|
  {
    if i == |fs| {
      assert fs[..i] == fs;
    } else {
      assert fs[..|fs| - 1][..i] == fs[..i];
      DeriveStops(v, fs[..|fs| - 1], networks, gen, path, i);
    }
  }

  lemma {:induction false} RecoverStops(m: map<string, Value>, fs: seq<Field>, i: nat)
    requires i <= |fs| && !RecoverFields(m, fs[..i]).Ok?
    ensures RecoverFields(m, fs) == RecoverFields(m, fs[..i])
    decreases |fs|
  {
    if i == |fs| {
      assert fs[..i] == fs;
    } else {
      assert fs[..|fs| - 1][..i] == fs[..i];
      RecoverStops(m, fs[..|fs| - 1], i);
    }
  }

  /** The body of the switch over the kind of a present field. */
  method DeriveOne(x: Value, s: Schema, networks: seq<Network>, gen: KeyGen,
    path: seq<string>) returns (r: Result<Value>)
    ensures r == DeriveValue(x, s, networks, gen, path)
    decreases Rank(s), 0
  {
    if s.Nested() {
      RankSub(s);
      var nested := DeriveValues(x, Sub(s), networks, gen, path);
      r := match nested case Ok(m) => Ok(Obj(m)) case Err => Err case Panicked => Panicked;
    } else {
      match s.kind
      case KindArrayString => r := if x.Strings? then Ok(x) else Err;
      case KindNetwork =>
        if !x.Str? { return Panicked; }
        var n := FindNetworkLoop(networks, x.s);
        r := match n case Some(net) => Ok(Net(net)) case None => Err;
      case KindNumber => r := Err;
      case _ => r := Ok(x);
    }
  }

  /** `values.(map[string]any)` is evaluated once per field, so it can only panic when there is a field. */
  method DeriveValues(values: Value, fs: seq<Field>, networks: seq<Network>, gen: KeyGen, path: seq<string>)
    returns (r: Result<map<string, Value>>)
    ensures r == DeriveFields(values, fs, networks, gen, path)
    decreases RankAll(fs), 2
  {
    var ret := map[];
    for i := 0 to |fs|
      invariant DeriveFields(values, fs[..i], networks, gen, path) == Ok(ret)
    {
      var f := fs[i];
      RankAt(fs, i);
      assert fs[..i + 1][..i] == fs[..i] && fs[..i + 1][i] == f;
      if !values.Obj? {
        DeriveStops(values, fs, networks, gen, path, i + 1);
        return Panicked;
      }
      if f.name !in values.m {
        if f.schema.Is(KindSSHKey) {
          ret := ret[f.name := StrObj(GeneratedKey(gen, path + [f.name]))];
        }
      } else {
        var x := DeriveOne(values.m[f.name], f.schema, networks, gen, path + [f.name]);
        if !x.Ok? {
          DeriveStops(values, fs, networks, gen, path, i + 1);
          return if x.Err? then Err else Panicked;
        }
        ret := ret[f.name := x.value];
      }
    }
    assert fs[..|fs|] == fs;
    r := Ok(ret);
  }

  method RecoverOne(x: Value, s: Schema) returns (r: Result<Value>)
    ensures r == RecoverValue(x, s)
    decreases Rank(s), 0
  {
    if s.Nested() {
      if !x.Obj? { return Err; }
      RankSub(s);
      var nested := DerivedToConfig(x.m, Sub(s));
      r := match nested case Ok(m) => Ok(Obj(m)) case Err => Err case Panicked => Panicked;
    } else {
      match s.kind
      case KindArrayString => r := if x.Strings? then Ok(x) else Err;
      case KindNetwork => r := if x.Obj? && "name" in x.m then Ok(x.m["name"]) else Err;
      case KindNumber => r := Err;
      case _ => r := Ok(x);
    }
  }

  method DerivedToConfig(derived: map<string, Value>, fs: seq<Field>) returns (r: Result<map<string, Value>>)
    ensures r == RecoverFields(derived, fs)
    decreases RankAll(fs), 2
  {
    var ret := map[];
    for i := 0 to |fs|
      invariant RecoverFields(derived, fs[..i]) == Ok(ret)
    {
      var f := fs[i];
      RankAt(fs, i);
      assert fs[..i + 1][..i] == fs[..i] && fs[..i + 1][i] == f;
      if f.name in derived {
        var x := RecoverOne(derived[f.name], f.schema);
        if !x.Ok? {
          RecoverStops(derived, fs, i + 1);
          return if x.Err? then Err else Panicked;
        }
        ret := ret[f.name := x.value];
      }
    }
    assert fs[..|fs|] == fs;
    r := Ok(ret);
  }
}
