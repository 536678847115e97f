/** The record list as the program keeps it: a slice over a backing array that is shifted in place. */
module DnsStore {
  import opened DnsRecords

  /**
    The range loop over the list s, about to read slot i of the backing array `cur`, with `len`
    records left: the slots before i are decided, the rest is a tail of s, and the slots past the end
    all hold the last record of s.
  */
  ghost predicate Ranging(s: seq<RR>, i: nat, cur: seq<RR>, len: nat, name: string, value: string) {
    var n := |s|;
    && |cur| == n && i <= n && len <= n
    && (len == n <==> i <= FirstMatch(s, name, value))
    && (forall k | len <= k < n :: cur[k] == s[n - 1])
    && (i <= len ==>
          cur[i..len] == s[i + n - len..] && Sweep(s, name, value) == cur[..i] + Sweep(s[i + n - len..], name, value))
    && (i > len ==> cur[..len] == Sweep(s, name, value))
    && (i == n && FirstMatch(s, name, value) < n - 1 ==> !Match(s[n - 1], name, value))
  }

  lemma CutIs(cur: seq<RR>, i: nat)
    requires i < |cur|
    ensures Cut(cur, i, |cur|)[..|cur| - 1] == cur[..i] + cur[i + 1..]
  {
  }

  lemma RangeStart(s: seq<RR>, name: string, value: string)
    ensures Ranging(s, 0, s, |s|, name, value)
  {
  }

  lemma SweepKeepAt(s: seq<RR>, j: nat, name: string, value: string)
    requires j < |s| && !Match(s[j], name, value)
    ensures Sweep(s[j..], name, value) == [s[j]] + Sweep(s[j + 1..], name, value)
  {
    hide Match;
    assert s[j..][1..] == s[j + 1..];
  }

  lemma TailStep(cur: seq<RR>, i: nat, len: nat, s: seq<RR>, j: nat)
    requires i < len <= |cur| && j <= |s| && cur[i..len] == s[j..]
    ensures j < |s| && cur[i] == s[j] && cur[i + 1..len] == s[j + 1..] && cur[..i + 1] == cur[..i] + [s[j]]
  {
    assert |s[j..]| == len - i;
    assert cur[i..len][0] == cur[i];
    assert cur[i..len][1..] == cur[i + 1..len] && s[j..][1..] == s[j + 1..];
  }

  /** Passing over a record inside the list. */
  lemma RangeKeepInside(s: seq<RR>, i: nat, cur: seq<RR>, len: nat, name: string, value: string)
    requires Ranging(s, i, cur, len, name, value) && i < len && !Match(cur[i], name, value)
    ensures
      var j := i + |s| - len;
      && j < |s| && cur[i] == s[j] && cur[i + 1..len] == s[j + 1..]
      && Sweep(s, name, value) == cur[..i + 1] + Sweep(s[j + 1..], name, value)
  {
    hide Sweep, Match, FirstMatch;
    var j := i + |s| - len;
    TailStep(cur, i, len, s, j);
    SweepKeepAt(s, j, name, value);
    Regroup(cur[..i], [s[j]], Sweep(s[j + 1..], name, value));
  }

  /** Passing over the first slot behind the list. */
  lemma RangeKeepEnd(s: seq<RR>, cur: seq<RR>, len: nat, name: string, value: string)
    requires Ranging(s, len, cur, len, name, value)
    ensures cur[..len] == Sweep(s, name, value)
  {
    hide Match, FirstMatch;
    assert s[len + |s| - len..] == [];
  }

  lemma RangeKeep(s: seq<RR>, i: nat, cur: seq<RR>, len: nat, name: string, value: string)
    requires Ranging(s, i, cur, len, name, value) && i < |s| && !Match(cur[i], name, value)
    ensures Ranging(s, i + 1, cur, len, name, value)
  {
    hide Sweep, Match, FirstMatch;
    FirstMatchIs(s, name, value);
    if i < len {
      RangeKeepInside(s, i, cur, len, name, value);
    } else if i == len {
      RangeKeepEnd(s, cur, len, name, value);
    }
  }

  lemma FirstMatchIs(s: seq<RR>, name: string, value: string)
    ensures var f := FirstMatch(s, name, value);
      f <= |s| && (f < |s| ==> Match(s[f], name, value)) && forall i | 0 <= i < f :: !Match(s[i], name, value)
  {
  }

  /** The backing array after the record in slot i is cut out of the first `len`. */
  function Cut(cur: seq<RR>, i: nat, len: nat): seq<RR>
    requires i < len <= |cur|
  {
    cur[..i] + cur[i + 1..len] + cur[len - 1..]
  }

  lemma CutSlices(cur: seq<RR>, i: nat, len: nat)
    requires i + 1 < len <= |cur|
    ensures Cut(cur, i, len)[..i + 1] == cur[..i] + [cur[i + 1]]
    ensures Cut(cur, i, len)[i + 1..len - 1] == cur[i + 2..len]
  {
  }

  lemma SweepMatchAt(s: seq<RR>, j: nat, name: string, value: string)
    requires j + 1 < |s| && Match(s[j], name, value)
    ensures Sweep(s[j..], name, value) == [s[j + 1]] + Sweep(s[j + 2..], name, value)
  {
    assert s[j..][2..] == s[j + 2..];
  }

  lemma TailShift(cur: seq<RR>, i: nat, len: nat, s: seq<RR>, j: nat)
    requires i + 1 < len <= |cur| && j <= |s| && cur[i..len] == s[j..]
    ensures j + 1 < |s| && cur[i] == s[j] && cur[i + 1] == s[j + 1] && cur[i + 2..len] == s[j + 2..]
  {
    assert |s[j..]| == len - i;
    assert cur[i..len][0] == cur[i] && cur[i..len][1] == cur[i + 1];
    assert cur[i..len][2..] == cur[i + 2..len] && s[j..][2..] == s[j + 2..];
  }

  /** Cutting inside the list: the next record slides into slot i and is passed over. */
  lemma RangeCutInside(s: seq<RR>, i: nat, cur: seq<RR>, len: nat, name: string, value: string)
    requires Ranging(s, i, cur, len, name, value) && i + 1 < len && Match(cur[i], name, value)
    ensures
      var next, j := Cut(cur, i, len), i + |s| - len;
      && next[i + 1..len - 1] == s[j + 2..]
      && Sweep(s, name, value) == next[..i + 1] + Sweep(s[j + 2..], name, value)
  {
    var j := i + |s| - len;
    TailShift(cur, i, len, s, j);
    CutSlices(cur, i, len);
    SweepMatchAt(s, j, name, value);
    Regroup(cur[..i], [cur[i + 1]], Sweep(s[j + 2..], name, value));
  }

  lemma RangeCutLast(s: seq<RR>, i: nat, cur: seq<RR>, len: nat, name: string, value: string)
    requires Ranging(s, i, cur, len, name, value) && i + 1 == len && Match(cur[i], name, value)
    ensures Cut(cur, i, len)[..len - 1] == Sweep(s, name, value)
  {
    var t := s[i + |s| - len..];
    assert cur[i..len] == t && cur[i] == t[0] && |t| == 1;
    assert Cut(cur, i, len)[..len - 1] == cur[..i];
  }

  lemma RangeCutTail(s: seq<RR>, i: nat, cur: seq<RR>, len: nat, name: string, value: string)
    requires Ranging(s, i, cur, len, name, value) && i < len && Match(cur[i], name, value)
    ensures forall k | len - 1 <= k < |s| :: Cut(cur, i, len)[k] == s[|s| - 1]
    ensures Match(s[i + |s| - len], name, value)
  {
    var t := s[i + |s| - len..];
    assert cur[i..len] == t && cur[i] == t[0] && cur[len - 1] == t[|t| - 1];
  }

  lemma RangeCut(s: seq<RR>, i: nat, cur: seq<RR>, len: nat, name: string, value: string)
    requires Ranging(s, i, cur, len, name, value) && i < len && Match(cur[i], name, value)
    ensures Ranging(s, i + 1, Cut(cur, i, len), len - 1, name, value)
  {
    hide Sweep, Match;
    RangeCutTail(s, i, cur, len, name, value);
    if i + 1 < len { RangeCutInside(s, i, cur, len, name, value); } else { RangeCutLast(s, i, cur, len, name, value); }
  }

  lemma RangeFault(s: seq<RR>, i: nat, cur: seq<RR>, len: nat, name: string, value: string)
    requires Ranging(s, i, cur, len, name, value) && len <= i < |s| && Match(cur[i], name, value)
    ensures Faults(s, name, value)
  {
  }

  lemma RangeEnd(s: seq<RR>, cur: seq<RR>, len: nat, name: string, value: string)
    requires Ranging(s, |s|, cur, len, name, value)
    ensures !Faults(s, name, value) && cur[..len] == Sweep(s, name, value)
  {
    if len == |s| { assert s[|s|..] == []; }
  }

  class RecordsFile {
    var data: array<RR>
    var len: nat

    ghost predicate Valid()
      reads this
    {
      len <= data.Length
    }

    ghost function Contents(): seq<RR>
      requires Valid()
      reads this, data
    {
      data[..len]
    }

    constructor (rrs: seq<RR>)
      ensures Valid() && fresh(data) && Contents() == rrs
    {
      var a := new RR[|rrs|](i requires 0 <= i < |rrs| => rrs[i]);
      data, len := a, |rrs|;
      new;
      assert data[..len] == rrs;
    }

    /** Cuts record i out in place: the records after it move down, and the old last slot keeps its value. */
    method CutAt(i: nat, ghost n: nat)
      requires Valid() && i < len <= n <= data.Length
      modifies data, this`len
      ensures Valid() && data == old(data) && len == old(len) - 1
      ensures data[..n] == Cut(old(data[..n]), i, old(len))
    {
      forall k | i <= k < len - 1 {
        data[k] := data[k + 1];
      }
      len := len - 1;
    }

    /**
      Deletes while it ranges over the list it started with. The range keeps the original length,
      so after a deletion it runs on into the stale tail; a match there slices past the end.
    */
    method DeleteTxtRecord(name: string, value: string) returns (panicked: bool)
      requires Valid()
      modifies data, this`len
      ensures Valid() && data == old(data)
      ensures panicked <==> Faults(old(Contents()), name, value)
      ensures !panicked ==> Contents() == Sweep(old(Contents()), name, value)
    {
      hide Ranging, Sweep, Faults, Match, Cut;
      var n := len;
      ghost var s := Contents();
      RangeStart(s, name, value);
      for i := 0 to n
        invariant Valid() && data == old(data) && n <= data.Length && len <= n
        invariant Ranging(s, i, data[..n], len, name, value)
      {
        assert data[..n][i] == data[i];
        if Match(data[i], name, value) {
          if i >= len {
            RangeFault(s, i, data[..n], len, name, value);
            return true;
          }
          RangeCut(s, i, data[..n], len, name, value);
          CutAt(i, n);
        } else {
          RangeKeep(s, i, data[..n], len, name, value);
        }
      }
      RangeEnd(s, data[..n], len, name, value);
      assert data[..len] == data[..n][..len];
      panicked := false;
    }

    /** `append`: in place while there is room behind the list, into a larger array otherwise. */
    method Append(rr: RR)
      requires Valid()
      modifies data, this
      ensures Valid() && (data == old(data) || fresh(data))
      ensures Contents() == old(Contents()) + [rr]
    {
      if len == data.Length {
        var bigger := new RR[2 * len + 1](i requires 0 <= i <= 2 * len reads this, data =>
          if i < len <= data.Length then data[i] else rr);
        assert bigger[..len] == data[..len];
        data := bigger;
      }
      data[len] := rr;
      len := len + 1;
    }

    method CreateOrReplaceTxtRecord(name: string, value: string)
      requires Valid()
      modifies data, this
      ensures Valid() && (data == old(data) || fresh(data))
      ensures Contents() == Added(old(Contents()), name, value)
    {
      ghost var s := Contents();
      for i := 0 to len
        invariant Valid() && len == old(len) && data == old(data) && Contents() == s
        invariant i <= FirstMatch(s, name, value)
      {
        if Match(data[i], name, value) {
          assert i == FirstMatch(s, name, value) && data[i] == s[i];
          var txt := data[i].(parts := [value]);
          CutAt(i, len);
          CutIs(s, i);
          assert Contents() == data[..len + 1][..len];
          Append(txt);
          return;
        }
      }
      Append(Txt(name, [value], 300));
    }

    /** Stamps every SOA in place while it writes the records out. */
    method Write(now: nat) returns (file: seq<RR>)
      requires Valid()
      modifies data
      ensures Valid() && file == Contents() == Stamp(old(Contents()), NowUnix(now))
    {
      file := [];
      ghost var s := Contents();
      var serial := NowUnix(now);
      for i := 0 to len
        invariant Valid() && len == old(len) && |file| == i
        invariant forall k | 0 <= k < i :: file[k] == data[k] == Stamp(s, serial)[k]
        invariant forall k | i <= k < len :: data[k] == s[k]
      {
        if data[i].Soa? { data[i] := data[i].(serial := serial); }
        file := file + [data[i]];
      }
      assert file == Contents() == Stamp(s, serial);
    }
  }

  /** The store: each call reads the zone file, changes the records and writes the file back. */
  class FsRecordStore {
    const zone: string
    var file: seq<RR>

    constructor (zone: string, now: nat, nameserverIP: seq<string>, publicIP: seq<string>, privateIP: string)
      ensures this.zone == zone && file == Template(zone, now, nameserverIP, publicIP, privateIP)
    {
      this.zone := zone;
      file := Template(zone, now, nameserverIP, publicIP, privateIP);
    }

    method Add(entry: string, txt: string, now: nat)
      modifies this
      ensures file == Served(old(file), zone, Op.Add(entry, txt, now))
    {
      var z := new RecordsFile(file);
      z.CreateOrReplaceTxtRecord(Fqdn(entry, zone), txt);
      file := z.Write(now);
    }

    method Delete(entry: string, txt: string, now: nat) returns (panicked: bool)
      modifies this
      ensures file == Served(old(file), zone, Op.Delete(entry, txt, now))
      ensures panicked <==> Faults(old(file), Fqdn(entry, zone), txt)
    {
      var z := new RecordsFile(file);
      panicked := z.DeleteTxtRecord(Fqdn(entry, zone), txt);
      if !panicked { file := z.Write(now); }
    }
  }
}
