/** Extending the GraphQL schema: every object type gets an event type, and event types get none. */
module SchemaExtension {
  import opened GraphQL
  import opened Wrappers

  predicate HasPrefix(s: string, prefix: string) { |prefix| <= |s| && s[..|prefix|] == prefix }

  /** shouldIgnoreDefinition */
  predicate Ignored(d: Definition) {
    || !d.kind.Object?
    || d.name == "Query" || d.name == "Mutation"
    || HasPrefix(d.name, "__") || HasSuffix(d.name, "Payload") || HasSuffix(d.name, "Event")
  }

  function EventName(name: string): string { name + "Event" }

  /** Schema text: a definition somebody wrote, or the event template filled in for a type. */
  datatype Decl = Define(def: Definition) | Event(of: string)

  function Defined(d: Decl): Definition {
    match d
    case Define(def) => def
    case Event(of) => Definition(Object, EventName(of))
  }

  function Name(d: Decl): string { Defined(d).name }

  predicate Unique(doc: seq<Decl>) {
    forall i, j | 0 <= i < j < |doc| :: Name(doc[i]) != Name(doc[j])
  }

  /** Loading the document on top of the types succeeds: nothing is defined twice. */
  predicate Loads(types: Types, doc: seq<Decl>) {
    Unique(doc) && forall i | 0 <= i < |doc| :: Name(doc[i]) !in types
  }

  predicate Defines(doc: seq<Decl>, name: string) { exists i :: 0 <= i < |doc| && Name(doc[i]) == name }

  function Loaded(types: Types, doc: seq<Decl>): Types {
    if doc == [] then types
    else Loaded(types, doc[..|doc| - 1])[Name(doc[|doc| - 1]) := Defined(doc[|doc| - 1])]
  }

  lemma {:induction false} LoadedAt(types: Types, doc: seq<Decl>, name: string)
    requires Loads(types, doc)
    ensures name in Loaded(types, doc) <==> name in types || Defines(doc, name)
    ensures name in types ==> Loaded(types, doc)[name] == types[name]
    ensures forall i | 0 <= i < |doc| && Name(doc[i]) == name :: Loaded(types, doc)[name] == Defined(doc[i])
  {
    if doc != [] {
      var init, last := doc[..|doc| - 1], doc[|doc| - 1];
      LoadedAt(types, init, name);
      assert forall i | 0 <= i < |init| :: init[i] == doc[i];
      assert Defines(doc, name) <==> Defines(init, name) || Name(last) == name by {
        if Defines(init, name) {
          var i :| 0 <= i < |init| && Name(init[i]) == name;
          assert Name(doc[i]) == name;
        }
        if Name(last) == name { assert Name(doc[|doc| - 1]) == name; }
      }
    }
  }

  // ---------------------------------------------------------------- extendSchema

  /** A type that needs an event type and has none. */
  predicate Missing(types: Types, name: string) {
    name in types && !Ignored(types[name]) && EventName(name) !in types
  }

  predicate Closed(types: Types) { forall n | n in types :: !Missing(types, n) }

  /** The templates written for the missing event types, in the order in which the map is ranged over. */
  ghost predicate Completes(types: Types, events: seq<Decl>) {
    && (forall i | 0 <= i < |events| :: events[i].Event? && Missing(types, events[i].of))
    && (forall i, j | 0 <= i < j < |events| :: events[i].of != events[j].of)
    && (forall n | Missing(types, n) :: Event(n) in events)
  }

  /** The new schema text: what the user wrote so far, the addition, and the templates. */
  ghost predicate Extends(user: seq<Decl>, types: Types, addition: seq<Decl>, r: seq<Decl>) {
    && |r| >= |user + addition| && r[..|user + addition|] == user + addition
    && Completes(Loaded(types, addition), r[|user + addition|..])
  }

  /** `parses` says whether the parser accepts the text apart from double definitions. */
  method ExtendSchema(user: seq<Decl>, types: Types, addition: seq<Decl>, parses: bool) returns (r: Option<seq<Decl>>)
    ensures r.Some? <==> parses && Loads(types, addition)
    ensures r.Some? ==> Extends(user, types, addition, r.value)
  {
    if !parses || !Loads(types, addition) { return None; }
    var parsed := Loaded(types, addition);
    var extended := user + addition;
    ghost var events := [];
    var todo := parsed.Keys;
    while todo != {}
      invariant todo <= parsed.Keys
      invariant extended == user + addition + events
      invariant forall i | 0 <= i < |events| ::
        events[i].Event? && Missing(parsed, events[i].of) && events[i].of !in todo
      invariant forall i, j | 0 <= i < j < |events| :: events[i].of != events[j].of
      invariant forall n | Missing(parsed, n) && n !in todo :: Event(n) in events
      decreases |todo|
    {
      var t :| t in todo;
      todo := todo - {t};
      if Ignored(parsed[t]) || EventName(t) in parsed { continue; }
      extended := extended + [Event(t)];
      events := events + [Event(t)];
      assert events[|events| - 1] == Event(t);
    }
    assert extended[|user + addition|..] == events;
    r := Some(extended);
  }

  /**
    A template is written for exactly the object types that have no event type yet, that are not Query or
    Mutation, that do not start with two underscores, and that do not end in Payload or Event.
  */
  lemma TemplatesExactly(user: seq<Decl>, types: Types, addition: seq<Decl>, r: seq<Decl>, n: string)
    requires Extends(user, types, addition, r) && Loads(types, addition)
    requires forall m | m in types :: types[m].name == m
    ensures
      var parsed := Loaded(types, addition);
      Event(n) in r[|user + addition|..] <==>
        && n in parsed && parsed[n].kind.Object? && n + "Event" !in parsed && n != "Query" && n != "Mutation"
        && !(|n| >= 2 && n[0] == '_' && n[1] == '_')
        && !HasSuffix(n, "Payload") && !HasSuffix(n, "Event")
  {
    var parsed := Loaded(types, addition);
    if n in parsed { LoadedNames(types, addition, n); }
    assert |n| >= 2 ==> (n[..2] == "__" <==> n[0] == '_' && n[1] == '_');
    assert Missing(parsed, n) <==> Event(n) in r[|user + addition|..];
  }

  /** Extending with nothing appends nothing exactly when every event type is there. */
  lemma EmptyAddition(user: seq<Decl>, types: Types, r: seq<Decl>)
    requires Extends(user, types, [], r)
    ensures r == user <==> Closed(types)
  {
    assert user + [] == user;
    var events := r[|user|..];
    assert r == user + events;
    assert events != [] ==> Missing(types, events[0].of);
    assert forall n | Missing(types, n) :: Event(n) in events;
  }

  // ---------------------------------------------------------------- the store over runs

  datatype Store = Store(user: seq<Decl>, types: Types)

  /** The generated schema has every definition of the text, under its own name. */
  ghost predicate Includes(user: seq<Decl>, types: Types) {
    && (forall i | 0 <= i < |user| :: Name(user[i]) in types && types[Name(user[i])] == Defined(user[i]))
    && (forall n | n in types :: types[n].name == n)
  }

  /** What it has besides is ignored, and not named like an event. */
  ghost predicate Tame(user: seq<Decl>, types: Types) {
    forall n | n in types && !Defines(user, n) :: Ignored(types[n]) && !HasSuffix(n, "Event")
  }

  /** Types named like events are in the text. */
  ghost predicate EventsInText(user: seq<Decl>, types: Types) {
    forall n | n in types && HasSuffix(n, "Event") :: Defines(user, n)
  }

  ghost predicate Generates(user: seq<Decl>, types: Types) { Includes(user, types) && Tame(user, types) }

  /** A successful AddSchema, whatever the server generates; what users add are definitions. */
  ghost predicate Adds(s: Store, addition: seq<Decl>, t: Store) {
    && (forall i | 0 <= i < |addition| :: addition[i].Define?)
    && Loads(s.types, addition) && Extends(s.user, s.types, addition, t.user)
  }

  lemma EventNameSuffix(n: string)
    ensures HasSuffix(EventName(n), "Event")
  {
  }

  lemma DefinesConcat(a: seq<Decl>, b: seq<Decl>, name: string)
    ensures Defines(a + b, name) <==> Defines(a, name) || Defines(b, name)
  {
    if Defines(a, name) {
      var i :| 0 <= i < |a| && Name(a[i]) == name;
      assert Name((a + b)[i]) == name;
    }
    if Defines(b, name) {
      var i :| 0 <= i < |b| && Name(b[i]) == name;
      assert Name((a + b)[|a| + i]) == name;
    }
  }

  /** The one place where the text defines the name. */
  ghost predicate DefinedOnce(doc: seq<Decl>, name: string) {
    exists i :: 0 <= i < |doc| && Name(doc[i]) == name && forall j | 0 <= j < |doc| && j != i :: Name(doc[j]) != name
  }

  lemma UniqueOnce(doc: seq<Decl>, name: string)
    requires Unique(doc) && Defines(doc, name)
    ensures DefinedOnce(doc, name)
  {
    var i :| 0 <= i < |doc| && Name(doc[i]) == name;
    forall j | 0 <= j < |doc| && j != i ensures Name(doc[j]) != name {
      if j < i { assert Name(doc[j]) != Name(doc[i]); }
    }
  }

  /** Nothing is defined twice, and no template was filled in for an event type. */
  ghost predicate Clean(doc: seq<Decl>) {
    Unique(doc) && forall i | 0 <= i < |doc| && doc[i].Event? :: !HasSuffix(doc[i].of, "Event")
  }

  /** Every type that is not ignored has exactly one event type, and no event type has one. */
  ghost predicate Complete(s: Store) {
    && Generates(s.user, s.types)
    && Clean(s.user)
    && (forall n | n in s.types && !Ignored(s.types[n]) :: DefinedOnce(s.user, EventName(n)))
  }

  lemma CompleteIsClosed(s: Store)
    requires Complete(s)
    ensures Closed(s.types)
  {
    forall n | n in s.types && !Ignored(s.types[n]) ensures EventName(n) in s.types {
      assert DefinedOnce(s.user, EventName(n));
    }
  }

  /** The parsed schema has the definitions of the text. */
  lemma Parsed(s: Store, addition: seq<Decl>, i: nat)
    requires Includes(s.user, s.types) && Loads(s.types, addition) && i < |s.user + addition|
    ensures
      var d := (s.user + addition)[i];
      Name(d) in Loaded(s.types, addition) && Loaded(s.types, addition)[Name(d)] == Defined(d)
  {
    hide Unique, Loaded;
    var d := (s.user + addition)[i];
    LoadedAt(s.types, addition, Name(d));
    if i < |s.user| {
      assert s.user[i] == d;
    } else {
      assert addition[i - |s.user|] == d;
    }
  }

  /** It has them just as the server will have them. */
  lemma Carried(s: Store, addition: seq<Decl>, t: Store, name: string)
    requires Includes(s.user, s.types) && Includes(t.user, t.types) && Adds(s, addition, t)
    requires Defines(s.user + addition, name)
    ensures name in Loaded(s.types, addition) && name in t.types && Loaded(s.types, addition)[name] == t.types[name]
  {
    hide Completes, Unique, Loads, Loaded;
    var text := s.user + addition;
    var i :| 0 <= i < |text| && Name(text[i]) == name;
    assert t.user[..|text|][i] == t.user[i];
    Parsed(s, addition, i);
  }

  lemma TextOf(s: Store, addition: seq<Decl>, t: Store) returns (events: seq<Decl>)
    requires Adds(s, addition, t)
    ensures t.user == s.user + addition + events && Completes(Loaded(s.types, addition), events)
  {
    events := t.user[|s.user + addition|..];
  }

  lemma EventsNamed(types: Types, events: seq<Decl>, name: string)
    requires Completes(types, events) && Defines(events, name)
    ensures HasSuffix(name, "Event") && name !in types
  {
    var i :| 0 <= i < |events| && Name(events[i]) == name;
    EventNameSuffix(events[i].of);
  }

  lemma UniqueConcat(a: seq<Decl>, b: seq<Decl>)
    requires Unique(a) && Unique(b)
    requires forall i, j | 0 <= i < |a| && 0 <= j < |b| :: Name(a[i]) != Name(b[j])
    ensures Unique(a + b)
  {
  }

  lemma EventsUnique(types: Types, events: seq<Decl>)
    requires Completes(types, events)
    ensures Unique(events)
  {
    forall i, j | 0 <= i < j < |events| ensures Name(events[i]) != Name(events[j]) {
      EventNameInjective(events[i].of, events[j].of);
    }
  }

  lemma EventNameInjective(m: string, n: string)
    ensures EventName(m) == EventName(n) ==> m == n
  {
    assert m == EventName(m)[..|EventName(m)| - 5];
    assert n == EventName(n)[..|EventName(n)| - 5];
  }

  /** The text that an addition sends defines nothing twice. */
  lemma AddIsUnique(s: Store, addition: seq<Decl>, t: Store)
    requires Includes(s.user, s.types) && Unique(s.user) && Adds(s, addition, t)
    ensures Unique(t.user)
  {
    hide Loaded, Completes, Extends;
    var events := TextOf(s, addition, t);
    var text := s.user + addition;
    UniqueConcat(s.user, addition);
    EventsUnique(Loaded(s.types, addition), events);
    forall i, j | 0 <= i < |text| && 0 <= j < |events| ensures Name(text[i]) != Name(events[j]) {
      assert Defines(events, Name(events[j]));
      Parsed(s, addition, i);
      EventsNamed(Loaded(s.types, addition), events, Name(events[j]));
    }
    UniqueConcat(text, events);
  }

  /** A type of the text that is not ignored has its event type in the text, unless the server had it before. */
  lemma HasEvent(s: Store, addition: seq<Decl>, t: Store, name: string)
    requires Includes(s.user, s.types) && Includes(t.user, t.types) && Adds(s, addition, t)
    requires name in t.types && !Ignored(t.types[name]) && Defines(t.user, name)
    ensures Defines(t.user, EventName(name)) || EventName(name) in s.types
  {
    hide Loaded, Defines, Extends, Unique, Includes, Loads;
    var events := TextOf(s, addition, t);
    var parsed, text := Loaded(s.types, addition), s.user + addition;
    Named(t, name);
    DefinesConcat(text, events, name);
    assert Defines(events, name) ==> HasSuffix(name, "Event") by {
      if Defines(events, name) { EventsNamed(parsed, events, name); }
    }
    Carried(s, addition, t, name);
    DefinesConcat(text, events, EventName(name));
    if EventName(name) in parsed {
      LoadedAt(s.types, addition, EventName(name));
      DefinesConcat(s.user, addition, EventName(name));
    } else {
      assert Missing(parsed, name);
      EventAmong(events, name);
    }
  }

  lemma Named(s: Store, name: string)
    requires Includes(s.user, s.types) && name in s.types
    ensures s.types[name].name == name
  {
  }

  lemma EventAmong(events: seq<Decl>, name: string)
    requires Event(name) in events
    ensures Defines(events, EventName(name))
  {
    var i :| 0 <= i < |events| && events[i] == Event(name);
    assert Name(events[i]) == EventName(name);
  }

  lemma LoadedNames(types: Types, doc: seq<Decl>, name: string)
    requires Loads(types, doc) && name in Loaded(types, doc) && (forall n | n in types :: types[n].name == n)
    ensures Loaded(types, doc)[name].name == name
  {
    LoadedAt(types, doc, name);
  }

  lemma EventsOfNoEvent(s: Store, addition: seq<Decl>, events: seq<Decl>)
    requires Includes(s.user, s.types) && Loads(s.types, addition) && Completes(Loaded(s.types, addition), events)
    ensures forall i | 0 <= i < |events| :: !HasSuffix(events[i].of, "Event")
  {
    forall i | 0 <= i < |events| ensures !HasSuffix(events[i].of, "Event") {
      LoadedNames(s.types, addition, events[i].of);
    }
  }

  /** One addition keeps the text free of double definitions and of event types of event types. */
  lemma AddIsClean(s: Store, addition: seq<Decl>, t: Store)
    requires Includes(s.user, s.types) && Clean(s.user) && Adds(s, addition, t)
    ensures Clean(t.user)
  {
    hide Includes, Loaded, Unique, Loads, Extends, Completes;
    AddIsUnique(s, addition, t);
    var events := TextOf(s, addition, t);
    EventsOfNoEvent(s, addition, events);
  }

  /**
    Whatever the server generated before and generates now besides the text: after one addition every event
    type is there if and only if it is there for every type that is not in the text and for every type
    whose event type the server had before.
  */
  lemma ClosedExactly(s: Store, addition: seq<Decl>, t: Store)
    requires Includes(s.user, s.types) && Includes(t.user, t.types) && Adds(s, addition, t)
    ensures Closed(t.types) <==>
      forall n | n in t.types && (!Defines(t.user, n) || EventName(n) in s.types) :: !Missing(t.types, n)
  {
    hide Defines, Adds, Ignored;
    forall n | n in t.types && Defines(t.user, n) && EventName(n) !in s.types ensures !Missing(t.types, n) {
      if !Ignored(t.types[n]) {
        HasEvent(s, addition, t, n);
        InText(t, EventName(n));
      }
    }
  }

  lemma InText(s: Store, name: string)
    requires Includes(s.user, s.types) && Defines(s.user, name)
    ensures name in s.types
  {
  }

  /** A generated object type that nobody wrote: the next extension appends something. */
  lemma UnwrittenType(name: string, r: seq<Decl>)
    requires !Ignored(Definition(Object, name)) && Extends([], map[name := Definition(Object, name)], [], r)
    ensures Includes([], map[name := Definition(Object, name)]) && r == [Event(name)]
  {
    var types: Types := map[name := Definition(Object, name)];
    var none: seq<Decl> := [];
    assert none + none == none && Loaded(types, none) == types && r[0..] == r;
    assert |EventName(name)| == |name| + 5;
    assert Missing(types, name) && Event(name) in r;
    assert forall i | 0 <= i < |r| :: r[i].of == name;
    assert Completes(types, r) && r[0].of == name && r[|r| - 1].of == name;
  }

  // ---------------------------------------------------------------- a server that keeps generating

  const RESULT := "AggregateResult"

  /** The server generates an object type for every object type of the text, and otherwise only what is ignored. */
  ghost predicate Prolific(user: seq<Decl>, types: Types) {
    && Includes(user, types)
    && (forall i | 0 <= i < |user| && Defined(user[i]).kind.Object? ::
          Name(user[i]) + RESULT in types && types[Name(user[i]) + RESULT].kind.Object?)
    && (forall n | n in types && HasSuffix(n, "Event") :: Defines(user, n))
  }

  /** An object type of the text for which the generated one is not ignored. */
  predicate Grows(d: Decl) { Defined(d).kind.Object? && !HasPrefix(Name(d), "__") }

  /** Nobody wrote an event type for a generated type by hand. */
  ghost predicate ByTemplate(user: seq<Decl>) {
    forall i | 0 <= i < |user| && user[i].Define? :: !HasSuffix(Name(user[i]), "ResultEvent")
  }

  lemma {:induction false} Longest(user: seq<Decl>) returns (m: nat)
    requires exists i | 0 <= i < |user| :: Grows(user[i])
    ensures m < |user| && Grows(user[m])
    ensures forall i | 0 <= i < |user| && Grows(user[i]) :: |Name(user[i])| <= |Name(user[m])|
  {
    var init := user[..|user| - 1];
    assert forall i | 0 <= i < |init| :: init[i] == user[i];
    if exists i | 0 <= i < |init| :: Grows(init[i]) {
      m := Longest(init);
      if Grows(user[|user| - 1]) && |Name(user[|user| - 1])| > |Name(user[m])| { m := |user| - 1; }
    } else {
      m := |user| - 1;
    }
  }

  lemma ResultNames(n: string)
    requires !HasPrefix(n, "__")
    ensures !Ignored(Definition(Object, n + RESULT)) && !HasPrefix(n + RESULT, "__")
    ensures HasSuffix(EventName(n + RESULT), "ResultEvent") && HasSuffix(EventName(n + RESULT), "Event")
    ensures |EventName(n + RESULT)| == |n| + 20
  {
    var r := n + RESULT;
    assert |RESULT| == 15 && r[|r| - 1] == 't' && r[|r| - 6] == 'R' && r[|r| - 7] == 'e';
    assert "Payload"[6] == 'd' && "Query"[4] == 'y' && "Mutation"[7] == 'n';
    assert r[|r| - 5..] != "Event" by { assert r[|r| - 5..][0] == r[|r| - 5] == 'e'; }
    assert |n| >= 2 ==> r[..2] == n[..2];
    assert |n| == 1 ==> r[..2][1] == 'A';
    assert |n| == 0 ==> r[..2][0] == 'A';
    assert EventName(r)[|EventName(r)| - 11..] == "ResultEvent";
  }

  lemma ResultPrefix(n: string)
    requires !HasPrefix(n, "__")
    ensures !HasPrefix(EventName(n + RESULT), "__")
  {
    ResultNames(n);
    var r := n + RESULT;
    assert EventName(r)[..2] == r[..2];
  }

  /** With such a server no schema that has an object type of its own is closed. */
  lemma NeverClosed(user: seq<Decl>, types: Types)
    requires Prolific(user, types) && ByTemplate(user) && exists i | 0 <= i < |user| :: Grows(user[i])
    ensures !Closed(types)
  {
    var m := Longest(user);
    var n := Name(user[m]);
    ResultNames(n);
    ResultPrefix(n);
    assert types[n + RESULT] == Definition(Object, n + RESULT);
    forall i | 0 <= i < |user| ensures Name(user[i]) != EventName(n + RESULT) {
      assert Name(user[i]) == EventName(n + RESULT) ==> Grows(user[i]);
    }
    assert Missing(types, n + RESULT);
  }

  /** In a run of additions with such a server the schema is never closed again once it has an object type. */
  lemma {:induction false} EveryRunStaysOpen(stores: seq<Store>, additions: seq<seq<Decl>>, n: nat)
    requires |stores| == |additions| + 1 && n <= |additions|
    requires forall i | 0 <= i < |stores| :: Prolific(stores[i].user, stores[i].types)
    requires forall i | 0 <= i < |additions| :: Adds(stores[i], additions[i], stores[i + 1]) && ByTemplate(additions[i])
    requires ByTemplate(stores[0].user) && exists i | 0 <= i < |stores[0].user| :: Grows(stores[0].user[i])
    ensures ByTemplate(stores[n].user) && exists i | 0 <= i < |stores[n].user| :: Grows(stores[n].user[i])
    ensures !Closed(stores[n].types)
    ensures forall r :: Extends(stores[n].user, stores[n].types, [], r) ==> r != stores[n].user
  {
    hide Adds, Prolific, ByTemplate, Grows, Closed, Extends;
    if n > 0 {
      EveryRunStaysOpen(stores, additions, n - 1);
      assert Adds(stores[n - 1], additions[n - 1], stores[n - 1 + 1]);
      AddGrows(stores[n - 1], additions[n - 1], stores[n]);
    }
    NeverClosed(stores[n].user, stores[n].types);
    forall r | Extends(stores[n].user, stores[n].types, [], r) ensures r != stores[n].user {
      EmptyAddition(stores[n].user, stores[n].types, r);
    }
  }

  lemma AddGrows(s: Store, addition: seq<Decl>, t: Store)
    requires Adds(s, addition, t) && ByTemplate(s.user) && ByTemplate(addition)
    requires exists i | 0 <= i < |s.user| :: Grows(s.user[i])
    ensures ByTemplate(t.user) && exists i | 0 <= i < |t.user| :: Grows(t.user[i])
  {
    hide Loads, Loaded, Extends, Grows;
    var events := TextOf(s, addition, t);
    var i :| 0 <= i < |s.user| && Grows(s.user[i]);
    assert t.user[i] == s.user[i];
    assert forall j | 0 <= j < |events| :: events[j].Event?;
  }

  // ---------------------------------------------------------------- a server that adds only what is ignored

  /** With a server that adds only what is ignored, one addition gives every other type exactly one event type. */
  lemma {:induction false} AddCompletes(s: Store, addition: seq<Decl>, t: Store)
    requires Generates(s.user, s.types) && Generates(t.user, t.types) && Clean(s.user) && Adds(s, addition, t)
    ensures Complete(t)
  {
    AddIsClean(s, addition, t);
    TameEvents(s);
    forall n | n in t.types && !Ignored(t.types[n]) ensures DefinedOnce(t.user, EventName(n)) {
      hide Adds, Ignored, DefinedOnce, Unique, Includes;
      HasEvent(s, addition, t, n);
      if EventName(n) in s.types { StillDefined(s, addition, t, n); }
      UniqueOnce(t.user, EventName(n));
    }
  }

  /** An event type of the old text is in the new text. */
  lemma StillDefined(s: Store, addition: seq<Decl>, t: Store, name: string)
    requires EventsInText(s.user, s.types) && Adds(s, addition, t) && EventName(name) in s.types
    ensures Defines(t.user, EventName(name))
  {
    hide Loads, Loaded, Defines, Extends, Completes;
    var events := TextOf(s, addition, t);
    EventNameSuffix(name);
    DefinesConcat(s.user, addition, EventName(name));
    DefinesConcat(s.user + addition, events, EventName(name));
  }

  lemma TameEvents(s: Store)
    requires Generates(s.user, s.types)
    ensures EventsInText(s.user, s.types)
  {
  }

  /** Every run of additions keeps the schema complete, and extending with nothing then appends nothing. */
  lemma {:induction false} EveryRunCompletes(stores: seq<Store>, additions: seq<seq<Decl>>, n: nat)
    requires |stores| == |additions| + 1 && Clean(stores[0].user)
    requires forall i | 0 <= i < |stores| :: Generates(stores[i].user, stores[i].types)
    requires forall i | 0 <= i < |additions| :: Adds(stores[i], additions[i], stores[i + 1])
    requires n <= |additions|
    ensures n > 0 ==> Complete(stores[n])
    ensures n > 0 ==> forall r :: Extends(stores[n].user, stores[n].types, [], r) ==> r == stores[n].user
    ensures Clean(stores[n].user)
  {
    hide Adds, Generates, Clean, Extends, DefinedOnce, Ignored, Closed;
    if n > 0 {
      EveryRunCompletes(stores, additions, n - 1);
      assert Adds(stores[n - 1], additions[n - 1], stores[n - 1 + 1]);
      AddCompletes(stores[n - 1], additions[n - 1], stores[n]);
      CompleteIsClosed(stores[n]);
      forall r | Extends(stores[n].user, stores[n].types, [], r) ensures r == stores[n].user {
        EmptyAddition(stores[n].user, stores[n].types, r);
      }
    }
  }

  // ---------------------------------------------------------------- the client

  function Written(definitions: seq<Definition>): seq<Decl> {
    seq(|definitions|, i requires 0 <= i < |definitions| => Define(definitions[i]))
  }

  /** Dgraph's answer to a schema text: an error, or the text as it keeps it and the generated schema. */
  type Server = seq<Decl> -> Option<Store>

  /** A server that keeps the text as it was sent. */
  ghost predicate Echoes(server: Server) { forall text :: server(text).Some? ==> server(text).value.user == text }

  class DgraphClient {
    var userSchema: seq<Decl>
    var schema: Types

    ghost function Value(): Store reads this { Store(userSchema, schema) }

    method AddSchema(definitions: seq<Definition>, parses: bool, server: Server) returns (ok: bool)
      modifies this
      ensures ok ==> exists sent ::
        server(sent) == Some(Value()) && Adds(old(Value()), Written(definitions), Store(sent, schema))
      ensures ok && Echoes(server) ==> Adds(old(Value()), Written(definitions), Value())
      ensures !ok ==> Value() == old(Value())
      ensures !parses || !Loads(old(schema), Written(definitions)) ==> !ok
    {
      var extended := ExtendSchema(userSchema, schema, Written(definitions), parses);
      if extended.None? { return false; }
      var response := server(extended.value);
      if response.None? { return false; }
      userSchema, schema := response.value.user, response.value.types;
      ok := true;
    }
  }
}
