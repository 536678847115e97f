/** Zone records as values, and what the TXT operations mean on them. */
module DnsRecords {

  datatype RR =
    | Txt(name: string, parts: seq<string>, ttl: nat)
    | Soa(name: string, serial: nat, rest: string)
    | Other(text: string)

  function Join(parts: seq<string>): string { if parts == [] then "" else parts[0] + Join(parts[1..]) }

  predicate Match(rr: RR, name: string, value: string) { rr.Txt? && rr.name == name && Join(rr.parts) == value }

  predicate HasMatch(s: seq<RR>, name: string, value: string) { exists i | 0 <= i < |s| :: Match(s[i], name, value) }

  /** The index of the first matching record, or the length of the list. */
  function FirstMatch(s: seq<RR>, name: string, value: string): (f: nat)
    ensures f <= |s| && (f < |s| ==> Match(s[f], name, value))
    ensures forall i | 0 <= i < f :: !Match(s[i], name, value)
  {
    if s == [] then 0 else if Match(s[0], name, value) then 0 else 1 + FirstMatch(s[1..], name, value)
  }

  /** The plain filter that a deletion is meant to be. */
  function Without(s: seq<RR>, name: string, value: string): seq<RR> {
    if s == [] then []
    else if Match(s[0], name, value) then Without(s[1..], name, value)
    else [s[0]] + Without(s[1..], name, value)
  }

  /** What the loop that deletes while it ranges computes: it skips the record after each deleted one. */
  function Sweep(s: seq<RR>, name: string, value: string): seq<RR> {
    if s == [] then []
    else if !Match(s[0], name, value) then [s[0]] + Sweep(s[1..], name, value)
    else if |s| == 1 then []
    else [s[1]] + Sweep(s[2..], name, value)
  }

  /** The loop reads the stale last slot and slices past the end. */
  predicate Faults(s: seq<RR>, name: string, value: string) {
    s != [] && Match(s[|s| - 1], name, value) && FirstMatch(s, name, value) < |s| - 1
  }

  predicate Adjacent(s: seq<RR>, name: string, value: string) {
    exists i | 0 <= i < |s| - 1 :: Match(s[i], name, value) && Match(s[i + 1], name, value)
  }

  /** No two TXT records share a name and a joined value. */
  predicate Unique(s: seq<RR>) {
    forall i, j | 0 <= i < j < |s| && s[i].Txt? && s[j].Txt? ::
      s[i].name != s[j].name || Join(s[i].parts) != Join(s[j].parts)
  }

  lemma {:induction false} WithoutSound(s: seq<RR>, name: string, value: string)
    ensures forall x | x in Without(s, name, value) :: x in s && !Match(x, name, value)
  {
    if s != [] { WithoutSound(s[1..], name, value); }
  }

  /** The sweep is the filter exactly when no two matching records are neighbours. */
  lemma {:induction false} SweepIsFilter(s: seq<RR>, name: string, value: string)
    ensures Sweep(s, name, value) == Without(s, name, value) <==> !Adjacent(s, name, value)
    decreases |s|
  {
    if s != [] && !Match(s[0], name, value) {
      SweepIsFilter(s[1..], name, value);
      AdjacentTail(s, 1, name, value);
      assert Sweep(s, name, value)[1..] == Sweep(s[1..], name, value);
      assert Without(s, name, value)[1..] == Without(s[1..], name, value);
    } else if |s| > 1 {
      var w := Without(s[1..], name, value);
      assert Without(s, name, value) == w;
      if Match(s[1], name, value) {
        WithoutSound(s[1..], name, value);
        assert Sweep(s, name, value)[0] == s[1];
        assert w == [] || w[0] in w;
      } else {
        SweepIsFilter(s[2..], name, value);
        assert s[1..][1..] == s[2..];
        AdjacentTail(s, 2, name, value);
        assert Sweep(s, name, value)[1..] == Sweep(s[2..], name, value);
        assert w[1..] == Without(s[2..], name, value);
      }
    }
  }

  /** Dropping a front that is part of no matching pair keeps the matching neighbours. */
  lemma AdjacentTail(s: seq<RR>, k: nat, name: string, value: string)
    requires 1 <= k <= |s| && !Match(s[k - 1], name, value) && k <= 2
    ensures Adjacent(s, name, value) <==> Adjacent(s[k..], name, value)
  {
    if Adjacent(s, name, value) {
      var i :| 0 <= i < |s| - 1 && Match(s[i], name, value) && Match(s[i + 1], name, value);
      assert i >= k && s[k..][i - k] == s[i] && s[k..][i - k + 1] == s[i + 1];
    }
    if Adjacent(s[k..], name, value) {
      var i :| 0 <= i < |s[k..]| - 1 && Match(s[k..][i], name, value) && Match(s[k..][i + 1], name, value);
      assert s[k + i] == s[k..][i] && s[k + i + 1] == s[k..][i + 1];
    }
  }

  /** In a zone without duplicates the deletion loop never faults and is the filter. */
  lemma {:induction false} UniqueIsSafe(s: seq<RR>, name: string, value: string)
    requires Unique(s)
    ensures !Faults(s, name, value) && Sweep(s, name, value) == Without(s, name, value)
  {
    SweepIsFilter(s, name, value);
  }

  /** Some record other than the last matches as well as the last. */
  predicate LastRepeats(s: seq<RR>, name: string, value: string) {
    && s != [] && Match(s[|s| - 1], name, value)
    && exists i | 0 <= i < |s| - 1 :: Match(s[i], name, value)
  }

  /**
    The deletion ends normally and leaves exactly the records that do not match, if and only if no two
    matching records are neighbours and the last record does not match together with an earlier one.
  */
  lemma {:induction false} DeletesExactly(s: seq<RR>, name: string, value: string)
    ensures (!Faults(s, name, value) && Sweep(s, name, value) == Without(s, name, value))
      <==> (!Adjacent(s, name, value) && !LastRepeats(s, name, value))
  {
    hide Sweep, Without, Adjacent, Match;
    SweepIsFilter(s, name, value);
    FaultsExactly(s, name, value);
  }

  lemma FaultsExactly(s: seq<RR>, name: string, value: string)
    ensures Faults(s, name, value) <==> LastRepeats(s, name, value)
  {
    hide Match;
    var f := FirstMatch(s, name, value);
    assert f < |s| ==> Match(s[f], name, value);
  }

  /**
    Three zones with two equal TXT records t: as neighbours at the end or with a record between them the
    loop panics, as neighbours before another record one of them survives.
  */
  lemma DuplicateFaults(name: string, value: string)
    ensures
      var t := Txt(name, [value], 300);
      && Faults([t, t], name, value)
      && Faults([t, Other(""), t], name, value) && !Adjacent([t, Other(""), t], name, value)
      && Sweep([t, t, Other("")], name, value) != Without([t, t, Other("")], name, value)
  {
    var t := Txt(name, [value], 300);
    JoinOne(value);
    assert Match([t, t, Other("")][0], name, value) && Match([t, t, Other("")][1], name, value);
    SweepIsFilter([t, t, Other("")], name, value);
    FaultsExactly([t, t], name, value);
    FaultsExactly([t, Other(""), t], name, value);
    assert Match([t, t][0], name, value) && Match([t, Other(""), t][0], name, value);
  }

  lemma JoinOne(value: string)
    ensures Join([value]) == value
  {
    assert Join([value][1..]) == "";
    assert value + "" == value;
  }

  /** What adding a TXT record does: the first equal record moves to the end, or a new one is appended. */
  function Added(s: seq<RR>, name: string, value: string): seq<RR> {
    var f := FirstMatch(s, name, value);
    if f < |s| then s[..f] + s[f + 1..] + [s[f].(parts := [value])] else s + [Txt(name, [value], 300)]
  }

  // ---------------------------------------------------------------- set semantics

  /** The TXT records of a zone as a set of (name, joined value) pairs. */
  function Pairs(s: seq<RR>): set<(string, string)> {
    set i | 0 <= i < |s| && s[i].Txt? :: (s[i].name, Join(s[i].parts))
  }

  /** All other records, in order. */
  function Rest(s: seq<RR>): seq<RR> {
    if s == [] then [] else if s[0].Txt? then Rest(s[1..]) else [s[0]] + Rest(s[1..])
  }

  lemma RestHead(x: RR, s: seq<RR>)
    ensures Rest([]) == []
    ensures Rest([x] + s) == if x.Txt? then Rest(s) else [x] + Rest(s)
  {
    assert ([x] + s)[1..] == s;
  }

  lemma WithoutHead(x: RR, s: seq<RR>, name: string, value: string)
    ensures Without([], name, value) == []
    ensures Without([x] + s, name, value)
         == if Match(x, name, value) then Without(s, name, value) else [x] + Without(s, name, value)
  {
    assert ([x] + s)[1..] == s;
  }

  lemma Regroup(a: seq<RR>, x: seq<RR>, r: seq<RR>)
    ensures a + (x + r) == (a + x) + r
  {
  }

  lemma {:induction false} RestConcat(a: seq<RR>, b: seq<RR>)
    ensures Rest(a + b) == Rest(a) + Rest(b)
  {
    hide Rest;
    if a == [] {
      RestHead(Other(""), []);
      assert a + b == b && Rest(a) == [];
    } else {
      var x, s := a[0], a[1..];
      assert a == [x] + s;
      Regroup([x], s, b);
      RestHead(x, s);
      RestHead(x, s + b);
      RestConcat(s, b);
      Regroup([x], Rest(s), Rest(b));
    }
  }

  lemma {:induction false} WithoutConcat(a: seq<RR>, b: seq<RR>, name: string, value: string)
    ensures Without(a + b, name, value) == Without(a, name, value) + Without(b, name, value)
  {
    hide Without, Match;
    if a == [] {
      WithoutHead(Other(""), [], name, value);
      assert a + b == b && Without(a, name, value) == [];
    } else {
      var x, s := a[0], a[1..];
      assert a == [x] + s;
      Regroup([x], s, b);
      WithoutHead(x, s, name, value);
      WithoutHead(x, s + b, name, value);
      WithoutConcat(s, b, name, value);
      Regroup([x], Without(s, name, value), Without(b, name, value));
    }
  }

  /** A matching record counts for nothing, wherever it stands. */
  lemma DropMatch(a: seq<RR>, x: RR, b: seq<RR>, name: string, value: string)
    requires Match(x, name, value)
    ensures Without(a + [x] + b, name, value) == Without(a + b, name, value)
    ensures Rest(a + [x] + b) == Rest(a + b)
  {
    assert x.Txt? && [x][1..] == [];
    hide Match, Join;
    WithoutConcat(a + [x], b, name, value);
    WithoutConcat(a, [x], name, value);
    WithoutConcat(a, b, name, value);
    RestConcat(a + [x], b);
    RestConcat(a, [x]);
    RestConcat(a, b);
  }

  lemma {:induction false} WithoutMember(s: seq<RR>, name: string, value: string, x: RR)
    requires x in s && !Match(x, name, value)
    ensures x in Without(s, name, value)
  {
    if x != s[0] { WithoutMember(s[1..], name, value, x); }
  }

  lemma {:induction false} WithoutRest(s: seq<RR>, name: string, value: string)
    ensures Rest(Without(s, name, value)) == Rest(s)
  {
    if s != [] {
      WithoutRest(s[1..], name, value);
      if !Match(s[0], name, value) {
        assert Without(s, name, value)[1..] == Without(s[1..], name, value);
      }
    }
  }

  lemma {:induction false} WithoutUnique(s: seq<RR>, name: string, value: string)
    requires Unique(s)
    ensures Unique(Without(s, name, value))
  {
    if s != [] {
      var tail := Without(s[1..], name, value);
      assert forall i | 0 <= i < |s[1..]| :: s[1..][i] == s[i + 1];
      WithoutUnique(s[1..], name, value);
      WithoutSound(s[1..], name, value);
      if !Match(s[0], name, value) {
        forall j | 0 <= j < |tail| && s[0].Txt? && tail[j].Txt?
          ensures s[0].name != tail[j].name || Join(s[0].parts) != Join(tail[j].parts)
        {
          assert tail[j] in tail;
          var i :| 0 <= i < |s[1..]| && s[1..][i] == tail[j];
          assert s[i + 1] == tail[j];
        }
        assert Without(s, name, value) == [s[0]] + tail;
      } else {
        assert Without(s, name, value) == tail;
      }
    }
  }

  lemma PairsMember(s: seq<RR>, name: string, value: string)
    ensures (name, value) in Pairs(s) <==> HasMatch(s, name, value)
  {
    if HasMatch(s, name, value) {
      var i :| 0 <= i < |s| && Match(s[i], name, value);
      assert (s[i].name, Join(s[i].parts)) == (name, value);
    }
  }

  lemma WithoutPairs(s: seq<RR>, name: string, value: string)
    ensures Pairs(Without(s, name, value)) == Pairs(s) - {(name, value)}
  {
    var r := Without(s, name, value);
    WithoutSound(s, name, value);
    forall p | p in Pairs(s) - {(name, value)} ensures p in Pairs(r) {
      var i :| 0 <= i < |s| && s[i].Txt? && (s[i].name, Join(s[i].parts)) == p;
      WithoutMember(s, name, value, s[i]);
      var j :| 0 <= j < |r| && r[j] == s[i];
    }
    forall p | p in Pairs(r) ensures p in Pairs(s) - {(name, value)} {
      var j :| 0 <= j < |r| && r[j].Txt? && (r[j].name, Join(r[j].parts)) == p;
      assert r[j] in r;
      var i :| 0 <= i < |s| && s[i] == r[j];
    }
  }

  /** Adding keeps every other record in its order and puts the record last. */
  lemma AddedOrder(s: seq<RR>, name: string, value: string)
    ensures Without(Added(s, name, value), name, value) == Without(s, name, value)
    ensures Match(Added(s, name, value)[|Added(s, name, value)| - 1], name, value)
    ensures Rest(Added(s, name, value)) == Rest(s)
  {
    JoinOne(value);
    var f := FirstMatch(s, name, value);
    var last := Added(s, name, value)[|Added(s, name, value)| - 1];
    if f < |s| {
      var u := s[..f] + s[f + 1..];
      DropMatch(s[..f], s[f], s[f + 1..], name, value);
      assert s == s[..f] + [s[f]] + s[f + 1..];
      DropMatch(u, last, [], name, value);
      assert u + [last] + [] == Added(s, name, value) && u + [] == u;
    } else {
      DropMatch(s, last, [], name, value);
      assert s + [last] + [] == Added(s, name, value) && s + [] == s;
    }
  }

  lemma AddedPairs(s: seq<RR>, name: string, value: string)
    ensures Pairs(Added(s, name, value)) == Pairs(s) + {(name, value)}
  {
    var t := Added(s, name, value);
    AddedOrder(s, name, value);
    WithoutPairs(s, name, value);
    WithoutPairs(t, name, value);
    PairsMember(t, name, value);
    assert Pairs(t) == Pairs(t) - {(name, value)} + {(name, value)};
  }

  lemma {:induction false} AddedUnique(s: seq<RR>, name: string, value: string)
    requires Unique(s)
    ensures Unique(Added(s, name, value))
  {
    JoinOne(value);
    var f := FirstMatch(s, name, value);
    if f < |s| {
      var u := s[..f] + s[f + 1..];
      forall i | 0 <= i < |u| ensures !Match(u[i], name, value) {
        var k := if i < f then i else i + 1;
        assert u[i] == s[k];
      }
      forall i, j | 0 <= i < j < |u| && u[i].Txt? && u[j].Txt?
        ensures u[i].name != u[j].name || Join(u[i].parts) != Join(u[j].parts)
      {
        assert u[i] == s[if i < f then i else i + 1] && u[j] == s[if j < f then j else j + 1];
      }
    }
  }

  // ---------------------------------------------------------------- serials

  const WORD := 0x1_0000_0000
  const HALF := 0x8000_0000

  /** NowUnix: the conversion and the multiplication both wrap at 32 bits. */
  function NowUnix(now: nat): (serial: nat)
    ensures serial < WORD
  {
    (10 * (now % WORD)) % WORD
  }

  /** Section 3.2 of RFC 1982: serial a is greater than serial b. */
  predicate SerialGreater(a: nat, b: nat) {
    (b < a && a - b < HALF) || (a < b && b - a > HALF)
  }

  lemma WrapProduct(now: nat)
    ensures NowUnix(now) == (10 * now) % WORD
  {
    assert 10 * now == 10 * (now % WORD) + WORD * (10 * (now / WORD));
  }

  /** A later write is announced as newer exactly while the wrapped distance stays under half the number space. */
  lemma {:induction false} SerialAdvances(t1: nat, t2: nat)
    requires t1 <= t2
    ensures SerialGreater(NowUnix(t2), NowUnix(t1)) <==> 0 < (10 * (t2 - t1)) % WORD < HALF
    ensures 0 < 10 * (t2 - t1) < HALF ==> SerialGreater(NowUnix(t2), NowUnix(t1))
  {
    WrapProduct(t1);
    WrapProduct(t2);
    var a, d := 10 * t1, 10 * (t2 - t1);
    assert 10 * t2 == a + d;
    ModAdd(a, d);
  }

  lemma ModAdd(a: nat, d: nat)
    ensures (a + d) % WORD == a % WORD + d % WORD || (a + d) % WORD == a % WORD + d % WORD - WORD
  {
    var r := a % WORD + d % WORD;
    assert a + d == WORD * (a / WORD + d / WORD) + r;
    if r < WORD {
      assert (a + d) % WORD == r;
    } else {
      assert a + d == WORD * (a / WORD + d / WORD + 1) + (r - WORD);
    }
  }

  /** What a write does to the records. */
  function Stamp(s: seq<RR>, serial: nat): seq<RR> {
    seq(|s|, i requires 0 <= i < |s| => if s[i].Soa? then s[i].(serial := serial) else s[i])
  }

  /** The same records in the same order, but for the serials of SOA records. */
  predicate Alike(s: seq<RR>, t: seq<RR>) {
    && |s| == |t|
    && forall i | 0 <= i < |s| ::
         s[i] == t[i] || (s[i].Soa? && t[i].Soa? && s[i].name == t[i].name && s[i].rest == t[i].rest)
  }

  lemma AlikeTrans(s: seq<RR>, t: seq<RR>, u: seq<RR>)
    requires Alike(s, t) && Alike(t, u)
    ensures Alike(s, u)
  {
  }

  predicate Stamped(s: seq<RR>, serial: nat) { forall i | 0 <= i < |s| && s[i].Soa? :: s[i].serial == serial }

  /**
    After a write every SOA carries the new serial; the TXT records are the same set and as unique as
    they were, and the other records keep their order and, but for the serial, their content.
  */
  lemma {:induction false} StampKeeps(s: seq<RR>, serial: nat)
    ensures Stamped(Stamp(s, serial), serial)
    ensures Pairs(Stamp(s, serial)) == Pairs(s)
    ensures Unique(s) ==> Unique(Stamp(s, serial))
    ensures Alike(Rest(Stamp(s, serial)), Rest(s))
  {
    var t := Stamp(s, serial);
    forall p | p in Pairs(s) ensures p in Pairs(t) {
      var i :| 0 <= i < |s| && s[i].Txt? && (s[i].name, Join(s[i].parts)) == p;
      assert t[i] == s[i];
    }
    StampRest(s, serial);
  }

  lemma {:induction false} StampRest(s: seq<RR>, serial: nat)
    ensures Rest(Stamp(s, serial)) == Stamp(Rest(s), serial)
  {
    if s != [] {
      StampRest(s[1..], serial);
      assert Stamp(s, serial)[1..] == Stamp(s[1..], serial);
    }
  }

  // ---------------------------------------------------------------- runs of the store

  datatype Op = Add(entry: string, txt: string, now: nat) | Delete(entry: string, txt: string, now: nat)

  function Fqdn(entry: string, zone: string): string { entry + "." + zone + "." }

  /** One read-modify-write; a deletion that faults never reaches the write. */
  function Served(file: seq<RR>, zone: string, op: Op): seq<RR> {
    var name := Fqdn(op.entry, zone);
    if op.Add? then Stamp(Added(file, name, op.txt), NowUnix(op.now))
    else if Faults(file, name, op.txt) then file
    else Stamp(Sweep(file, name, op.txt), NowUnix(op.now))
  }

  function Serve(file: seq<RR>, zone: string, ops: seq<Op>): seq<RR> {
    if ops == [] then file else Served(Serve(file, zone, ops[..|ops| - 1]), zone, ops[|ops| - 1])
  }

  /** The same run on a set of pairs. */
  function SetAfter(pairs: set<(string, string)>, zone: string, ops: seq<Op>): set<(string, string)> {
    if ops == [] then pairs
    else
      var op := ops[|ops| - 1];
      var before := SetAfter(pairs, zone, ops[..|ops| - 1]);
      if op.Add? then before + {(Fqdn(op.entry, zone), op.txt)} else before - {(Fqdn(op.entry, zone), op.txt)}
  }

  lemma ServedRefines(file: seq<RR>, zone: string, op: Op)
    requires Unique(file)
    ensures
      var p := (Fqdn(op.entry, zone), op.txt);
      var after := Served(file, zone, op);
      && Unique(after)
      && Pairs(after) == (if op.Add? then Pairs(file) + {p} else Pairs(file) - {p})
      && Alike(Rest(after), Rest(file))
      && Stamped(after, NowUnix(op.now))
  {
    var name := Fqdn(op.entry, zone);
    if op.Add? {
      var u := Added(file, name, op.txt);
      AddedUnique(file, name, op.txt);
      AddedPairs(file, name, op.txt);
      AddedOrder(file, name, op.txt);
      StampKeeps(u, NowUnix(op.now));
    } else {
      var u := Without(file, name, op.txt);
      UniqueIsSafe(file, name, op.txt);
      WithoutUnique(file, name, op.txt);
      WithoutPairs(file, name, op.txt);
      WithoutRest(file, name, op.txt);
      StampKeeps(u, NowUnix(op.now));
    }
  }

  /**
    After an addition the last record is the TXT record of that entry in the zone, fully qualified, with the
    given text as its only part; its TTL is 300 if it is new, and what it was otherwise.
  */
  lemma AddServes(file: seq<RR>, zone: string, entry: string, txt: string, now: nat)
    ensures
      var name := entry + "." + zone + ".";
      var after := Served(file, zone, Add(entry, txt, now));
      && after != [] && after[|after| - 1].Txt? && after[|after| - 1].name == name && after[|after| - 1].parts == [txt]
      && ((name, txt) !in Pairs(file) ==> after[|after| - 1].ttl == 300 && |after| == |file| + 1)
      && ((name, txt) in Pairs(file) ==> |after| == |file|)
      && ((name, txt) in Pairs(file) ==>
            exists i :: 0 <= i < |file| && Match(file[i], name, txt) && after[|after| - 1].ttl == file[i].ttl)
  {
    var name := entry + "." + zone + ".";
    PairsMember(file, name, txt);
    var f := FirstMatch(file, name, txt);
    assert f < |file| ==> Match(file[f], name, txt);
    if HasMatch(file, name, txt) {
      var i :| 0 <= i < |file| && Match(file[i], name, txt);
      assert f <= i;
    }
  }

  /**
    Starting from a zone without TXT records, in every run of the store: no two TXT records share
    name and value, the TXT records are exactly the set that the calls describe, every other record
    keeps its place, no deletion can fault, and every SOA carries the serial of the last call.
  */
  lemma {:induction false} EveryRunRefines(template: seq<RR>, zone: string, ops: seq<Op>)
    requires forall i | 0 <= i < |template| :: !template[i].Txt?
    ensures
      var file := Serve(template, zone, ops);
      && Unique(file)
      && Pairs(file) == SetAfter({}, zone, ops)
      && Alike(Rest(file), Rest(template))
      && (forall name, value :: !Faults(file, name, value))
      && (ops != [] ==> Stamped(file, NowUnix(ops[|ops| - 1].now)))
  {
    var file := Serve(template, zone, ops);
    if ops != [] {
      EveryRunRefines(template, zone, ops[..|ops| - 1]);
      ServedRefines(Serve(template, zone, ops[..|ops| - 1]), zone, ops[|ops| - 1]);
      AlikeTrans(Rest(file), Rest(Serve(template, zone, ops[..|ops| - 1])), Rest(template));
    }
    forall name, value ensures !Faults(file, name, value) {
      UniqueIsSafe(file, name, value);
    }
  }

  function Decimal(n: nat): string {
    var digit := "0123456789"[n % 10..n % 10 + 1];
    if n < 10 then digit else Decimal(n / 10) + digit
  }

  function Address(name: string, ip: string): RR { Other(name + " 10800 IN A " + ip) }

  /** The zone that NewStore writes when there is none: one SOA, stamped, and address records. */
  function Template(
    zone: string, now: nat, nameserverIP: seq<string>, publicIP: seq<string>, privateIP: string): (r: seq<RR>)
    ensures forall i | 0 <= i < |r| :: !r[i].Txt?
    ensures forall i | 0 <= i < |r| :: r[i].Soa? <==> i == 0
    ensures Stamped(r, NowUnix(now))
    ensures |r| == 2 + |nameserverIP| + 3 * |publicIP|
  {
    var soa := "ns1." + zone + ". hostmaster." + zone + ". # 7200 3600 1209600 3600";
    [Soa(zone + ".", NowUnix(now), soa)]
    + seq(|nameserverIP|, i requires 0 <= i < |nameserverIP| =>
        Address("ns" + Decimal(i + 1) + "." + zone + ".", nameserverIP[i]))
    + PublicRecords(zone, publicIP)
    + [Address("*.p." + zone + ".", privateIP)]
  }

  function PublicRecords(zone: string, ips: seq<string>): (r: seq<RR>)
    ensures |r| == 3 * |ips| && forall i | 0 <= i < |r| :: r[i].Other?
  {
    if ips == [] then []
    else
      [Address(zone + ".", ips[0]), Address("*." + zone + ".", ips[0]), Address("*.*." + zone + ".", ips[0])]
      + PublicRecords(zone, ips[1..])
  }

  function DigitValue(c: char): nat { if '0' <= c <= '9' then c as nat - '0' as nat else 0 }

  /** The number that a string of digits stands for. */
  function Number(s: string): nat { if s == "" then 0 else Number(s[..|s| - 1]) * 10 + DigitValue(s[|s| - 1]) }

  lemma DigitOf(d: nat)
    requires d < 10
    ensures "0123456789"[d..d + 1] == ["0123456789"[d]] && DigitValue("0123456789"[d]) == d
  {
  }

  lemma {:induction false} DecimalReads(n: nat)
    ensures Number(Decimal(n)) == n
  {
    var digit := "0123456789"[n % 10..n % 10 + 1];
    DigitOf(n % 10);
    if n >= 10 {
      DecimalReads(n / 10);
      var s := Decimal(n / 10) + digit;
      assert s[..|s| - 1] == Decimal(n / 10) && s[|s| - 1] == digit[0];
    } else {
      assert digit[..0] == "";
    }
  }

  lemma {:induction false} PublicAt(zone: string, ips: seq<string>, j: nat)
    requires j < |ips|
    ensures
      var r := PublicRecords(zone, ips);
      && r[3 * j] == Other(zone + "." + " 10800 IN A " + ips[j])
      && r[3 * j + 1] == Other("*." + zone + "." + " 10800 IN A " + ips[j])
      && r[3 * j + 2] == Other("*.*." + zone + "." + " 10800 IN A " + ips[j])
    decreases |ips|
  {
    if j > 0 {
      var r, rest := PublicRecords(zone, ips), PublicRecords(zone, ips[1..]);
      PublicAt(zone, ips[1..], j - 1);
      assert forall k | 0 <= k < |rest| :: r[k + 3] == rest[k];
    }
  }

  /** Name server i has the record ns(i+1), every public address three, the private one the last. */
  lemma TemplateRecords(zone: string, now: nat, ns: seq<string>, public: seq<string>, private: string)
    ensures
      var r := Template(zone, now, ns, public, private);
      && r[0].name == zone + "." && r[|r| - 1] == Other("*.p." + zone + "." + " 10800 IN A " + private)
      && (forall i | 0 <= i < |ns| ::
            r[1 + i] == Other("ns" + Decimal(i + 1) + "." + zone + "." + " 10800 IN A " + ns[i]))
      && (forall j | 0 <= j < |public| ::
            && r[1 + |ns| + 3 * j] == Other(zone + "." + " 10800 IN A " + public[j])
            && r[1 + |ns| + 3 * j + 1] == Other("*." + zone + "." + " 10800 IN A " + public[j])
            && r[1 + |ns| + 3 * j + 2] == Other("*.*." + zone + "." + " 10800 IN A " + public[j]))
  {
    var r, p := Template(zone, now, ns, public, private), PublicRecords(zone, public);
    assert forall k | 0 <= k < |p| :: r[1 + |ns| + k] == p[k];
    forall j | 0 <= j < |public|
      ensures r[1 + |ns| + 3 * j] == p[3 * j] && r[1 + |ns| + 3 * j + 1] == p[3 * j + 1]
      ensures r[1 + |ns| + 3 * j + 2] == p[3 * j + 2]
    {
      assert 3 * j + 2 < |p|;
    }
    forall j: nat | j < |public|
      ensures p[3 * j] == Other(zone + "." + " 10800 IN A " + public[j])
      ensures p[3 * j + 1] == Other("*." + zone + "." + " 10800 IN A " + public[j])
      ensures p[3 * j + 2] == Other("*.*." + zone + "." + " 10800 IN A " + public[j])
    {
      PublicAt(zone, public, j);
    }
  }

  /**
    The zone as the program runs it: from the template it writes, every run of the store serves exactly
    the set of challenges that the calls describe, and the records of the template stay in order.
  */
  lemma TemplateRuns(zone: string, now: nat, ns: seq<string>, public: seq<string>, private: string, ops: seq<Op>)
    ensures
      var template := Template(zone, now, ns, public, private);
      var file := Serve(template, zone, ops);
      && Unique(file) && Pairs(file) == SetAfter({}, zone, ops)
      && Alike(Rest(file), template)
      && Stamped(file, NowUnix(if ops == [] then now else ops[|ops| - 1].now))
  {
    var template := Template(zone, now, ns, public, private);
    EveryRunRefines(template, zone, ops);
    RestAll(template);
  }

  lemma {:induction false} RestAll(s: seq<RR>)
    requires forall i | 0 <= i < |s| :: !s[i].Txt?
    ensures Rest(s) == s
  {
    if s != [] { RestAll(s[1..]); }
  }
}
