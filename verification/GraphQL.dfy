/** Rewriting GraphQL mutations: every eligible input object gets an event list as its last child. */
module GraphQL {
  import opened Wrappers

  datatype DefKind = Scalar | Object | Interface | Union | Enum | InputObject

  datatype Definition = Definition(kind: DefKind, name: string)

  datatype ValueKind =
    | Variable | IntValue | FloatValue | StringValue | BlockValue | BooleanValue | NullValue | EnumValue
    | ListValue | ObjectValue

  datatype Value = Value(kind: ValueKind, raw: string, def: Definition, children: seq<Child>)

  datatype Child = Child(name: string, value: Value)

  /** The types of the parsed schema, by name. */
  type Types = map<string, Definition>

  predicate HasSuffix(s: string, suffix: string) { |suffix| <= |s| && s[|s| - |suffix|..] == suffix }

  /** The definitions that are skipped although they are input objects. */
  predicate Skipped(name: string) {
    || HasSuffix(name, "Event") || HasSuffix(name, "EventInput") || HasSuffix(name, "Ref")
    || HasSuffix(name, "Filter") || HasSuffix(name, "Patch")
  }

  predicate Eligible(v: Value) { v.kind.ObjectValue? && v.def.kind.InputObject? && !Skipped(v.def.name) }

  function EventInputName(d: Definition): string
    requires HasSuffix(d.name, "Input")
  {
    d.name[..|d.name| - 5] + "EventInput"
  }

  /** newEventListValue finds the definitions it needs; it panics otherwise. */
  predicate HasEventInput(d: Definition, types: Types) {
    HasSuffix(d.name, "Input") && EventInputName(d) in types && "EventState" in types
  }

  function EventList(d: Definition, types: Types): Child
    requires HasEventInput(d, types)
  {
    var input := types[EventInputName(d)];
    var state := Child("state", Value(EnumValue, "NEW", types["EventState"], []));
    var event := Child("events", Value(ObjectValue, "", input, [state]));
    Child("events", Value(ListValue, "", input, [event]))
  }

  // ---------------------------------------------------------------- rewriting

  /** rewriteValue; None is a panic. */
  function Rewrite(v: Value, types: Types): Option<Value>
    decreases v, 1
  {
    if !v.kind.ListValue? && !v.kind.ObjectValue? then Some(v)
    else
      match RewriteAll(v.children, types)
      case None => None
      case Some(cs) =>
        if !Eligible(v) then Some(v.(children := cs))
        else if HasEventInput(v.def, types) then Some(v.(children := cs + [EventList(v.def, types)]))
        else None
  }

  function RewriteAll(cs: seq<Child>, types: Types): Option<seq<Child>>
    decreases cs, 0
  {
    if cs == [] then Some([])
    else
      match RewriteAll(cs[..|cs| - 1], types)
      case None => None
      case Some(rest) =>
        var c := cs[|cs| - 1];
        match Rewrite(c.value, types)
        case None => None
        case Some(w) => Some(rest + [c.(value := w)])
  }

  /** Every eligible object, at any depth, has the definitions that its event list needs. */
  predicate Ready(v: Value, types: Types)
    decreases v
  {
    v.kind.ListValue? || v.kind.ObjectValue? ==>
      && (forall i | 0 <= i < |v.children| :: Ready(v.children[i].value, types))
      && (Eligible(v) ==> HasEventInput(v.def, types))
  }

  /** Takes the last child off every eligible object. */
  function Erase(v: Value): Value
    decreases v, 1
  {
    if !v.kind.ListValue? && !v.kind.ObjectValue? then v
    else
      var injected := Eligible(v) && v.children != [];
      v.(children := EraseAll(if injected then v.children[..|v.children| - 1] else v.children))
  }

  function EraseAll(cs: seq<Child>): (r: seq<Child>)
    ensures |r| == |cs|
    decreases cs, 0
  {
    if cs == [] then [] else EraseAll(cs[..|cs| - 1]) + [cs[|cs| - 1].(value := Erase(cs[|cs| - 1].value))]
  }

  lemma {:induction false} RewriteAllAt(cs: seq<Child>, types: Types)
    requires RewriteAll(cs, types).Some?
    ensures
      var ds := RewriteAll(cs, types).value;
      |ds| == |cs| && forall i | 0 <= i < |cs| ::
        Rewrite(cs[i].value, types) == Some(ds[i].value) && ds[i].name == cs[i].name
  {
    if cs != [] { RewriteAllAt(cs[..|cs| - 1], types); }
  }

  lemma {:induction false} RewriteAllReady(cs: seq<Child>, types: Types)
    requires forall i | 0 <= i < |cs| :: Rewrite(cs[i].value, types).Some? <==> Ready(cs[i].value, types)
    ensures RewriteAll(cs, types).Some? <==> forall i | 0 <= i < |cs| :: Ready(cs[i].value, types)
  {
    if cs != [] {
      var init := cs[..|cs| - 1];
      RewriteAllReady(init, types);
      assert forall i | 0 <= i < |init| :: init[i] == cs[i];
    }
  }

  /** Rewriting panics exactly when some eligible object lacks its event definitions. */
  lemma {:induction false} RewriteSucceeds(v: Value, types: Types)
    ensures Rewrite(v, types).Some? <==> Ready(v, types)
    decreases v
  {
    if v.kind.ListValue? || v.kind.ObjectValue? {
      forall i | 0 <= i < |v.children|
        ensures Rewrite(v.children[i].value, types).Some? <==> Ready(v.children[i].value, types)
      {
        RewriteSucceeds(v.children[i].value, types);
      }
      RewriteAllReady(v.children, types);
    }
  }

  lemma {:induction false} EraseAllUndoes(cs: seq<Child>, types: Types)
    requires RewriteAll(cs, types).Some?
    ensures EraseAll(RewriteAll(cs, types).value) == cs
    decreases cs, 0
  {
    if cs != [] {
      var init, c := cs[..|cs| - 1], cs[|cs| - 1];
      EraseAllUndoes(init, types);
      EraseUndoes(c.value, types);
      var ds := RewriteAll(cs, types).value;
      assert ds[..|ds| - 1] == RewriteAll(init, types).value;
    }
  }

  /** Erasing the event lists gives back the original value. */
  lemma {:induction false} EraseUndoes(v: Value, types: Types)
    requires Rewrite(v, types).Some?
    ensures Erase(Rewrite(v, types).value) == v
    decreases v, 1
  {
    if v.kind.ListValue? || v.kind.ObjectValue? {
      EraseAllUndoes(v.children, types);
      var cs := RewriteAll(v.children, types).value;
      if Eligible(v) { assert (cs + [EventList(v.def, types)])[..|cs|] == cs; }
    }
  }

  /** The value reached by following child indices. */
  function At(v: Value, path: seq<nat>): Option<Value>
    decreases |path|
  {
    if path == [] then Some(v)
    else if path[0] < |v.children| then At(v.children[path[0]].value, path[1..])
    else None
  }

  /** Scalars have no children. */
  predicate WellFormed(v: Value) {
    && (!v.kind.ListValue? && !v.kind.ObjectValue? ==> v.children == [])
    && forall i | 0 <= i < |v.children| :: WellFormed(v.children[i].value)
  }

  /** The injected child: a list of one event object, whose only entry is the state NEW. */
  predicate NewEvents(c: Child, d: Definition, types: Types) {
    && HasSuffix(d.name, "Input")
    && var input := d.name[..|d.name| - |"Input"|] + "EventInput";
    && input in types && "EventState" in types
    && c.name == "events" && c.value.kind.ListValue? && c.value.raw == "" && c.value.def == types[input]
    && |c.value.children| == 1
    && var event := c.value.children[0];
    && event.name == "events" && event.value.kind.ObjectValue? && event.value.raw == ""
    && event.value.def == types[input]
    && |event.value.children| == 1
    && var state := event.value.children[0];
    && state.name == "state" && state.value.kind.EnumValue? && state.value.raw == "NEW"
    && state.value.def == types["EventState"] && state.value.children == []
  }

  lemma EventsAreNew(d: Definition, types: Types)
    requires HasEventInput(d, types)
    ensures NewEvents(EventList(d, types), d, types)
  {
  }

  /**
    At every place of the original value, the rewritten one has the same node with the same children
    names in order, plus exactly one list with a NEW event at the end if and only if the node is eligible.
  */
  lemma {:induction false} RewriteAt(v: Value, types: Types, path: seq<nat>)
    requires Rewrite(v, types).Some? && WellFormed(v) && At(v, path).Some?
    ensures
      var a, b := At(v, path).value, At(Rewrite(v, types).value, path);
      && b.Some? && b.value.kind == a.kind && b.value.raw == a.raw && b.value.def == a.def
      && |b.value.children| == |a.children| + (if Eligible(a) then 1 else 0)
      && (forall i | 0 <= i < |a.children| :: b.value.children[i].name == a.children[i].name)
      && (Eligible(a) ==> NewEvents(b.value.children[|a.children|], a.def, types))
    decreases |path|
  {
    hide NewEvents, EventList, Skipped, HasEventInput, RewriteAll;
    var w := Rewrite(v, types).value;
    if v.kind.ListValue? || v.kind.ObjectValue? {
      RewriteAllAt(v.children, types);
      if Eligible(v) { EventsAreNew(v.def, types); }
      if path != [] {
        RewriteAt(v.children[path[0]].value, types, path[1..]);
        assert Rewrite(v.children[path[0]].value, types) == Some(w.children[path[0]].value);
      }
    }
  }

  /**
    Nothing is injected into a node that is no input object, or whose type is named like an event, a
    reference, a filter or a patch.
  */
  lemma RewriteSpares(v: Value, types: Types, path: seq<nat>, stem: string)
    requires Rewrite(v, types).Some? && WellFormed(v) && At(v, path).Some?
    requires
      var a := At(v, path).value;
      || !a.kind.ObjectValue? || !a.def.kind.InputObject?
      || a.def.name in {stem + "Event", stem + "EventInput", stem + "Ref", stem + "Filter", stem + "Patch"}
    ensures
      var a, b := At(v, path).value, At(Rewrite(v, types).value, path);
      b.Some? && |b.value.children| == |a.children|
  {
    SuffixOfConcat(stem, "Event");
    SuffixOfConcat(stem, "EventInput");
    SuffixOfConcat(stem, "Ref");
    SuffixOfConcat(stem, "Filter");
    SuffixOfConcat(stem, "Patch");
    RewriteAt(v, types, path);
  }

  /** Nor does such a node need any event definition: rewriting it succeeds exactly when it does for its children. */
  lemma SparedSucceeds(v: Value, types: Types, stem: string)
    requires v.kind.ListValue? || v.kind.ObjectValue?
    requires
      || !v.kind.ObjectValue? || !v.def.kind.InputObject?
      || v.def.name in {stem + "Event", stem + "EventInput", stem + "Ref", stem + "Filter", stem + "Patch"}
    ensures Rewrite(v, types).Some? <==> forall i | 0 <= i < |v.children| :: Rewrite(v.children[i].value, types).Some?
  {
    SuffixOfConcat(stem, "Event");
    SuffixOfConcat(stem, "EventInput");
    SuffixOfConcat(stem, "Ref");
    SuffixOfConcat(stem, "Filter");
    SuffixOfConcat(stem, "Patch");
    RewriteSucceeds(v, types);
    forall i | 0 <= i < |v.children|
      ensures Rewrite(v.children[i].value, types).Some? <==> Ready(v.children[i].value, types)
    {
      RewriteSucceeds(v.children[i].value, types);
    }
  }

  lemma SuffixOfConcat(a: string, b: string)
    ensures HasSuffix(a + b, b)
  {
  }

  /** The injected objects are themselves never eligible. */
  lemma EventsAreSkipped(d: Definition, types: Types, path: seq<nat>)
    requires HasEventInput(d, types) && types[EventInputName(d)].name == EventInputName(d)
    requires At(EventList(d, types).value, path).Some?
    ensures !Eligible(At(EventList(d, types).value, path).value)
  {
    SuffixOfConcat(d.name[..|d.name| - 5], "EventInput");
    var list := EventList(d, types).value;
    var event := list.children[0].value;
    var state := event.children[0].value;
    assert list.kind.ListValue? && Skipped(event.def.name) && state.kind.EnumValue? && state.children == [];
    if path != [] {
      var rest := path[1..];
      assert At(list, path) == At(event, rest);
      if rest != [] {
        assert At(event, rest) == At(state, rest[1..]);
        assert rest[1..] == [];
      }
    }
  }

  // ---------------------------------------------------------------- documents

  datatype OpKind = Query | Mutation | Subscription

  datatype Selection = FieldSelection(name: string, args: seq<Child>) | FragmentSelection

  datatype Operation = Operation(kind: OpKind, selections: seq<Selection>)

  /** The top-level selections of a mutation must be fields; only their arguments are rewritten. */
  function RewriteSelections(ss: seq<Selection>, types: Types): Option<seq<Selection>> {
    if ss == [] then Some([])
    else
      match RewriteSelections(ss[..|ss| - 1], types)
      case None => None
      case Some(rest) =>
        var s := ss[|ss| - 1];
        if s.FragmentSelection? then None
        else
          match RewriteAll(s.args, types)
          case None => None
          case Some(args) => Some(rest + [s.(args := args)])
  }

  function RewriteOps(ops: seq<Operation>, types: Types): Option<seq<Operation>> {
    if ops == [] then Some([])
    else
      match RewriteOps(ops[..|ops| - 1], types)
      case None => None
      case Some(rest) =>
        var op := ops[|ops| - 1];
        if !op.kind.Mutation? then Some(rest + [op])
        else
          match RewriteSelections(op.selections, types)
          case None => None
          case Some(ss) => Some(rest + [op.(selections := ss)])
  }

  function EraseSelections(ss: seq<Selection>): (r: seq<Selection>)
    ensures |r| == |ss|
  {
    seq(|ss|, i requires 0 <= i < |ss| => if ss[i].FieldSelection? then ss[i].(args := EraseAll(ss[i].args)) else ss[i])
  }

  function EraseOps(ops: seq<Operation>): (r: seq<Operation>)
    ensures |r| == |ops|
  {
    seq(|ops|, i requires 0 <= i < |ops| =>
      if ops[i].kind.Mutation? then ops[i].(selections := EraseSelections(ops[i].selections)) else ops[i])
  }

  lemma EraseSelectionsUndoes(ss: seq<Selection>, types: Types)
    requires RewriteSelections(ss, types).Some?
    ensures EraseSelections(RewriteSelections(ss, types).value) == ss
  {
    hide RewriteSelections, RewriteAll, EraseAll;
    var ts := RewriteSelections(ss, types).value;
    RewriteSelectionsLength(ss, types);
    forall j | 0 <= j < |ss| ensures EraseSelections(ts)[j] == ss[j] {
      SelectionsAt(ss, types, j);
      EraseAllUndoes(ss[j].args, types);
    }
  }

  lemma {:induction false} RewriteSelectionsLength(ss: seq<Selection>, types: Types)
    requires RewriteSelections(ss, types).Some?
    ensures |RewriteSelections(ss, types).value| == |ss|
  {
    if ss != [] { RewriteSelectionsLength(ss[..|ss| - 1], types); }
  }

  lemma {:induction false} RewriteOpsLength(ops: seq<Operation>, types: Types)
    requires RewriteOps(ops, types).Some?
    ensures |RewriteOps(ops, types).value| == |ops|
  {
    if ops != [] { RewriteOpsLength(ops[..|ops| - 1], types); }
  }

  /** Rewriting a document leaves other operations alone, and erasing the event lists gives it back. */
  lemma DocumentRoundTrip(ops: seq<Operation>, types: Types)
    requires RewriteOps(ops, types).Some?
    ensures EraseOps(RewriteOps(ops, types).value) == ops
    ensures |RewriteOps(ops, types).value| == |ops|
    ensures forall i | 0 <= i < |ops| && !ops[i].kind.Mutation? :: RewriteOps(ops, types).value[i] == ops[i]
  {
    hide RewriteOps, RewriteSelections, EraseSelections;
    var rs := RewriteOps(ops, types).value;
    RewriteOpsLength(ops, types);
    forall i | 0 <= i < |ops|
      ensures EraseOps(rs)[i] == ops[i] && (!ops[i].kind.Mutation? ==> rs[i] == ops[i])
    {
      OpsAt(ops, types, i);
      if ops[i].kind.Mutation? { EraseSelectionsUndoes(ops[i].selections, types); }
    }
  }

  // ---------------------------------------------------------------- exactly which documents, and where

  predicate ArgsReady(args: seq<Child>, types: Types) { forall i | 0 <= i < |args| :: Ready(args[i].value, types) }

  predicate SelectionReady(s: Selection, types: Types) { s.FieldSelection? && ArgsReady(s.args, types) }

  predicate OpReady(op: Operation, types: Types) {
    op.kind.Mutation? ==> forall i | 0 <= i < |op.selections| :: SelectionReady(op.selections[i], types)
  }

  lemma ArgsSucceed(args: seq<Child>, types: Types)
    ensures RewriteAll(args, types).Some? <==> ArgsReady(args, types)
  {
    forall i | 0 <= i < |args| ensures Rewrite(args[i].value, types).Some? <==> Ready(args[i].value, types) {
      RewriteSucceeds(args[i].value, types);
    }
    RewriteAllReady(args, types);
  }

  lemma {:induction false} SelectionsSucceed(ss: seq<Selection>, types: Types)
    ensures RewriteSelections(ss, types).Some? <==> forall i | 0 <= i < |ss| :: SelectionReady(ss[i], types)
  {
    hide SelectionReady;
    if ss != [] {
      var init, s := ss[..|ss| - 1], ss[|ss| - 1];
      SelectionsSucceed(init, types);
      assert SelectionReady(s, types) <==> s.FieldSelection? && RewriteAll(s.args, types).Some? by {
        if s.FieldSelection? { ArgsSucceed(s.args, types); }
        SelectionReadyIs(s, types);
      }
      assert forall i | 0 <= i < |init| :: init[i] == ss[i];
    }
  }

  lemma SelectionReadyIs(s: Selection, types: Types)
    ensures SelectionReady(s, types) <==> s.FieldSelection? && ArgsReady(s.args, types)
  {
  }

  /** A document is rewritten without a panic exactly when every mutation is ready. */
  lemma {:induction false} DocumentSucceeds(ops: seq<Operation>, types: Types)
    ensures RewriteOps(ops, types).Some? <==> forall i | 0 <= i < |ops| :: OpReady(ops[i], types)
  {
    if ops != [] {
      var init, op := ops[..|ops| - 1], ops[|ops| - 1];
      DocumentSucceeds(init, types);
      SelectionsSucceed(op.selections, types);
      assert forall i | 0 <= i < |init| :: init[i] == ops[i];
    }
  }

  lemma {:induction false} SelectionsAt(ss: seq<Selection>, types: Types, j: nat)
    requires RewriteSelections(ss, types).Some? && j < |ss|
    ensures
      var ts := RewriteSelections(ss, types).value;
      && |ts| == |ss| && ts[j].FieldSelection? && ss[j].FieldSelection? && ts[j].name == ss[j].name
      && RewriteAll(ss[j].args, types) == Some(ts[j].args)
  {
    var init := ss[..|ss| - 1];
    if init != [] {
      SelectionsAt(init, types, if j < |init| then j else 0);
      assert j < |init| ==> init[j] == ss[j];
    }
  }

  lemma {:induction false} OpsAt(ops: seq<Operation>, types: Types, i: nat)
    requires RewriteOps(ops, types).Some? && i < |ops|
    ensures
      var rs := RewriteOps(ops, types).value;
      && |rs| == |ops| && rs[i].kind == ops[i].kind
      && (!ops[i].kind.Mutation? ==> rs[i] == ops[i])
      && (ops[i].kind.Mutation? ==> RewriteSelections(ops[i].selections, types) == Some(rs[i].selections))
  {
    var init := ops[..|ops| - 1];
    if init != [] {
      OpsAt(init, types, if i < |init| then i else 0);
      assert i < |init| ==> init[i] == ops[i];
    }
  }

  /** Every argument of every mutation is rewritten in its place; RewriteAt says what that does at every depth. */
  lemma DocumentAt(ops: seq<Operation>, types: Types, i: nat, j: nat, k: nat)
    requires RewriteOps(ops, types).Some? && i < |ops| && ops[i].kind.Mutation? && j < |ops[i].selections|
    requires ops[i].selections[j].FieldSelection? && k < |ops[i].selections[j].args|
    ensures
      var rs := RewriteOps(ops, types).value;
      var arg := ops[i].selections[j].args[k];
      && |rs| == |ops| && |rs[i].selections| == |ops[i].selections|
      && rs[i].selections[j].FieldSelection? && |rs[i].selections[j].args| == |ops[i].selections[j].args|
      && rs[i].selections[j].args[k].name == arg.name
      && Rewrite(arg.value, types) == Some(rs[i].selections[j].args[k].value)
  {
    OpsAt(ops, types, i);
    SelectionsAt(ops[i].selections, types, j);
    RewriteAllAt(ops[i].selections[j].args, types);
  }

  // ---------------------------------------------------------------- the loops

  lemma {:induction false} RewriteAllStops(cs: seq<Child>, types: Types, i: nat)
    requires i <= |cs| && RewriteAll(cs[..i], types).None?
    ensures RewriteAll(cs, types).None?
    decreases |cs|
  {
    if i == |cs| {
      assert cs[..i] == cs;
    } else {
      assert cs[..|cs| - 1][..i] == cs[..i];
      RewriteAllStops(cs[..|cs| - 1], types, i);
    }
  }

  lemma {:induction false} RewriteSelectionsStops(ss: seq<Selection>, types: Types, i: nat)
    requires i <= |ss| && RewriteSelections(ss[..i], types).None?
    ensures RewriteSelections(ss, types).None?
    decreases |ss|
  {
    if i == |ss| {
      assert ss[..i] == ss;
    } else {
      assert ss[..|ss| - 1][..i] == ss[..i];
      RewriteSelectionsStops(ss[..|ss| - 1], types, i);
    }
  }

  lemma {:induction false} RewriteOpsStops(ops: seq<Operation>, types: Types, i: nat)
    requires i <= |ops| && RewriteOps(ops[..i], types).None?
    ensures RewriteOps(ops, types).None?
    decreases |ops|
  {
    if i == |ops| {
      assert ops[..i] == ops;
    } else {
      assert ops[..|ops| - 1][..i] == ops[..i];
      RewriteOpsStops(ops[..|ops| - 1], types, i);
    }
  }

  method RewriteValue(v: Value, types: Types) returns (r: Option<Value>)
    ensures r == Rewrite(v, types)
    decreases v
  {
    if !v.kind.ListValue? && !v.kind.ObjectValue? { return Some(v); }
    var children := [];
    for i := 0 to |v.children|
      invariant RewriteAll(v.children[..i], types) == Some(children)
    {
      var c := v.children[i];
      assert v.children[..i + 1][..i] == v.children[..i] && v.children[..i + 1][i] == c;
      var w := RewriteValue(c.value, types);
      if w.None? {
        RewriteAllStops(v.children, types, i + 1);
        return None;
      }
      children := children + [c.(value := w.value)];
    }
    assert v.children[..|v.children|] == v.children;
    if Eligible(v) {
      if !HasEventInput(v.def, types) { return None; }
      children := children + [EventList(v.def, types)];
    }
    r := Some(v.(children := children));
  }

  method RewriteArguments(args: seq<Child>, types: Types) returns (r: Option<seq<Child>>)
    ensures r == RewriteAll(args, types)
  {
    var out := [];
    for i := 0 to |args|
      invariant RewriteAll(args[..i], types) == Some(out)
    {
      assert args[..i + 1][..i] == args[..i] && args[..i + 1][i] == args[i];
      var w := RewriteValue(args[i].value, types);
      if w.None? {
        RewriteAllStops(args, types, i + 1);
        return None;
      }
      out := out + [args[i].(value := w.value)];
    }
    assert args[..|args|] == args;
    r := Some(out);
  }

  method RewriteFields(ss: seq<Selection>, types: Types) returns (r: Option<seq<Selection>>)
    ensures r == RewriteSelections(ss, types)
  {
    var out := [];
    for i := 0 to |ss|
      invariant RewriteSelections(ss[..i], types) == Some(out)
    {
      assert ss[..i + 1][..i] == ss[..i] && ss[..i + 1][i] == ss[i];
      if ss[i].FragmentSelection? {
        RewriteSelectionsStops(ss, types, i + 1);
        return None;
      }
      var args := RewriteArguments(ss[i].args, types);
      if args.None? {
        RewriteSelectionsStops(ss, types, i + 1);
        return None;
      }
      out := out + [ss[i].(args := args.value)];
    }
    assert ss[..|ss|] == ss;
    r := Some(out);
  }

  method RewriteQuery(ops: seq<Operation>, types: Types) returns (r: Option<seq<Operation>>)
    ensures r == RewriteOps(ops, types)
  {
    var out := [];
    for i := 0 to |ops|
      invariant RewriteOps(ops[..i], types) == Some(out)
    {
      assert ops[..i + 1][..i] == ops[..i] && ops[..i + 1][i] == ops[i];
      if !ops[i].kind.Mutation? {
        out := out + [ops[i]];
        continue;
      }
      var selections := RewriteFields(ops[i].selections, types);
      if selections.None? {
        RewriteOpsStops(ops, types, i + 1);
        return None;
      }
      out := out + [ops[i].(selections := selections.value)];
    }
    assert ops[..|ops|] == ops;
    r := Some(out);
  }
}
