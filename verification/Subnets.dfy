/** Handing out environment subnets, and the addresses that every environment derives from its own. */
module Subnets {
  import opened Wrappers

  type Byte = x: int | 0 <= x < 256

  /** A parsed address: four bytes for IPv4, sixteen for IPv6. */
  type Addr = a: seq<Byte> | |a| == 4 || |a| == 16 witness [0, 0, 0, 0]

  /** The twelve bytes in front of an IPv4 address that is written in sixteen. */
  const MAPPED: seq<Byte> := [0, 0, 0, 0, 0, 0, 0, 0, 0, 0, 255, 255]

  /** Printing an IP of any length and parsing the text: mapped addresses come back as IPv4. */
  function Parse(ip: seq<Byte>): Option<Addr> {
    if |ip| == 4 then Some(ip)
    else if |ip| != 16 then None
    else if ip[..12] == MAPPED then Some(ip[12..])
    else Some(ip)
  }

  /** The sixteen bytes that parsing a printed address as an IP gives. */
  function To16(a: Addr): (ip: seq<Byte>)
    ensures |ip| == 16
  {
    if |a| == 4 then MAPPED + a else a
  }

  /** The big-endian number that an address stands for. */
  function Num(a: seq<Byte>): nat {
    if a == [] then 0 else Num(a[..|a| - 1]) * 256 + a[|a| - 1]
  }

  /** Every IPv4 address is below every IPv6 address. */
  predicate Below(a: Addr, b: Addr) { |a| < |b| || (|a| == |b| && Num(a) < Num(b)) }

  const BASE: Addr := [10, 0, 0, 0]

  lemma ParseMapped(a: Addr)
    requires |a| == 4
    ensures Parse(To16(a)) == Some(a)
  {
    assert To16(a)[..12] == MAPPED && To16(a)[12..] == a;
  }

  lemma Num4(a: Addr)
    requires |a| == 4
    ensures Num(a) == (((a[0] as int) * 256 + a[1]) * 256 + a[2]) * 256 + a[3]
  {
    var b, c, d := a[..3], a[..2], a[..1];
    assert b[..2] == c && c[..1] == d && d[..0] == [];
    assert Num(d) == a[0] && Num(c) == Num(d) * 256 + a[1] && Num(b) == Num(c) * 256 + a[2];
  }

  lemma {:induction false} NumInjective(a: seq<Byte>, b: seq<Byte>)
    requires |a| == |b| && Num(a) == Num(b)
    ensures a == b
  {
    if a != [] { NumInjective(a[..|a| - 1], b[..|b| - 1]); }
  }

  // ---------------------------------------------------------------- the next start address

  predicate Readable(cidrs: seq<seq<Byte>>) { forall i | 0 <= i < |cidrs| :: Parse(cidrs[i]).Some? }

  /** m is the greatest of 10.0.0.0 and the recorded addresses. */
  ghost predicate Greatest(cidrs: seq<seq<Byte>>, m: Addr) {
    && (m == BASE || exists i :: 0 <= i < |cidrs| && Parse(cidrs[i]) == Some(m))
    && !Below(m, BASE)
    && forall i | 0 <= i < |cidrs| && Parse(cidrs[i]).Some? :: !Below(m, Parse(cidrs[i]).value)
  }

  lemma GreatestUnique(cidrs: seq<seq<Byte>>, m: Addr, n: Addr)
    requires Greatest(cidrs, m) && Greatest(cidrs, n)
    ensures m == n
  {
    assert !Below(m, n) && !Below(n, m);
    NumInjective(m, n);
  }

  function Inc(b: Byte): Byte { (b + 1) % 256 }

  /** The address after m: the third byte counts to 254 and carries into the second, which must not reach 255. */
  function Bump(m: Addr): Option<Addr> {
    var carry := Inc(m[2]) == 255;
    var third: Byte := if carry then 0 else Inc(m[2]);
    var second := if carry then Inc(m[1]) else m[1];
    if second == 255 then None else Some(m[1 := second][2 := third])
  }

  predicate Answer(m: Addr, start: Option<seq<Byte>>) {
    start == if Bump(m).Some? then Some(To16(Bump(m).value)) else None
  }

  method FindNextStartIP(cidrs: seq<seq<Byte>>) returns (r: Option<seq<Byte>>)
    ensures !Readable(cidrs) ==> r.None?
    ensures Readable(cidrs) ==> exists m: Addr :: Greatest(cidrs, m) && Answer(m, r)
  {
    var m: Addr := BASE;
    for i := 0 to |cidrs|
      invariant Readable(cidrs[..i]) && Greatest(cidrs[..i], m)
    {
      var a := Parse(cidrs[i]);
      if a.None? { return None; }
      ghost var before, was := cidrs[..i], m;
      if Below(m, a.value) { m := a.value; }
      assert cidrs[..i + 1] == before + [cidrs[i]];
      GreatestExtends(before, was, cidrs[i]);
    }
    assert cidrs[..|cidrs|] == cidrs;
    var sl := new Byte[|m|](i requires 0 <= i < |m| => m[i]);
    assert sl[..] == m;
    sl[2] := Inc(sl[2]);
    if sl[2] == 255 {
      sl[2] := 0;
      sl[1] := Inc(sl[1]);
    }
    if sl[1] == 255 {
      assert Answer(m, None);
      return None;
    }
    assert sl[..] == Bump(m).value;
    r := Some(To16(sl[..]));
    assert Answer(m, r);
  }

  lemma GreatestExtends(cidrs: seq<seq<Byte>>, m: Addr, ip: seq<Byte>)
    requires Readable(cidrs) && Greatest(cidrs, m) && Parse(ip).Some?
    ensures Readable(cidrs + [ip])
    ensures Greatest(cidrs + [ip], if Below(m, Parse(ip).value) then Parse(ip).value else m)
  {
    var all := cidrs + [ip];
    assert all[|cidrs|] == ip;
    assert forall i | 0 <= i < |cidrs| :: all[i] == cidrs[i];
  }

  lemma BumpBytes(m: Addr)
    requires |m| == 4 && Bump(m).Some?
    ensures
      var n := Bump(m).value;
      && |n| == 4 && n[0] == m[0] && n[3] == m[3]
      && n[2] == (if m[2] >= 254 then 0 else m[2] + 1)
      && n[1] == (if m[2] != 254 then m[1] else if m[1] == 255 then 0 else m[1] + 1)
  {
  }

  lemma BumpGoesUp(m: Addr)
    requires |m| == 4 && Bump(m).Some?
    ensures Below(m, Bump(m).value) <==> m[2] != 255 && !(m[1] == 255 && m[2] == 254)
    ensures Below(m, Bump(m).value) <==> Num(m) / 256 < Num(Bump(m).value) / 256
  {
    hide Bump, Num;
    BumpBytes(m);
    var n := Bump(m).value;
    Num4(m);
    Num4(n);
    Prefix(m);
    Prefix(n);
  }

  /**
    From any list of IPv4 addresses, the new /24 is above every recorded one exactly when neither the third
    byte nor the second wraps around; a recorded third byte of 255 makes the allocator go backwards.
  */
  lemma FreshExactly(cidrs: seq<seq<Byte>>, m: Addr)
    requires Readable(cidrs) && Greatest(cidrs, m) && |m| == 4 && Bump(m).Some?
    ensures (forall i | 0 <= i < |cidrs| :: Num(Parse(cidrs[i]).value) / 256 < Num(Bump(m).value) / 256)
      <==> (m[2] != 255 && !(m[1] == 255 && m[2] == 254))
  {
    hide Bump, Num;
    BumpGoesUp(m);
    forall i | 0 <= i < |cidrs| ensures Num(Parse(cidrs[i]).value) / 256 <= Num(m) / 256 {
      assert !Below(m, Parse(cidrs[i]).value);
    }
  }

  /** The /24 of an IPv4 address. */
  lemma Prefix(a: Addr)
    requires |a| == 4
    ensures Num(a) / 256 == ((a[0] as int) * 256 + a[1]) * 256 + a[2]
  {
    Num4(a);
  }

  /** A file that records 10.0.255.0 beside 10.0.0.0: the next subnet is one that is already taken. */
  lemma ReusedSubnet()
    ensures Greatest([[10, 0, 0, 0], [10, 0, 255, 0]], [10, 0, 255, 0])
    ensures Bump([10, 0, 255, 0]) == Some([10, 0, 0, 0])
  {
    var cidrs: seq<seq<Byte>> := [[10, 0, 0, 0], [10, 0, 255, 0]];
    assert Parse(cidrs[1]) == Some([10, 0, 255, 0]);
    Num4([10, 0, 0, 0]);
    Num4([10, 0, 255, 0]);
    assert cidrs[1][1 := 0][2 := 0] == [10, 0, 0, 0];
  }

  // ---------------------------------------------------------------- runs from an empty list

  const CAPACITY: nat := 65024

  /** The n-th subnet. */
  function Start(n: nat): Addr
    requires n <= CAPACITY
  {
    [10, n / 255, n % 255, 0]
  }

  function Allocated(n: nat): (s: seq<seq<Byte>>)
    requires n <= CAPACITY
    ensures |s| == n
  {
    seq(n, i requires 0 <= i < n => To16(Start(i + 1)))
  }

  lemma StartNum(n: nat)
    requires n <= CAPACITY
    ensures Num(Start(n)) == ((2560 + n / 255) * 256 + n % 255) * 256
  {
    Num4(Start(n));
  }

  lemma StartBelow(j: nat, k: nat)
    requires j < k <= CAPACITY
    ensures Num(Start(j)) + 256 <= Num(Start(k))
  {
    StartNum(j);
    StartNum(k);
  }

  lemma AllocatedGreatest(n: nat)
    requires n <= CAPACITY
    ensures Readable(Allocated(n)) && Greatest(Allocated(n), Start(n))
  {
    var s := Allocated(n);
    forall i | 0 <= i < n ensures Parse(s[i]) == Some(Start(i + 1)) && !Below(Start(n), Start(i + 1)) {
      ParseMapped(Start(i + 1));
      if i + 1 < n { StartBelow(i + 1, n); }
    }
    if n > 0 {
      assert Parse(s[n - 1]) == Some(Start(n));
      StartBelow(0, n);
    }
  }

  lemma AllocatedNext(n: nat)
    requires n < CAPACITY
    ensures Allocated(n + 1) == Allocated(n) + [To16(Start(n + 1))]
  {
  }

  lemma BumpStart(n: nat)
    requires n <= CAPACITY
    ensures Bump(Start(n)) == if n < CAPACITY then Some(Start(n + 1)) else None
  {
    if n % 255 == 254 {
      assert n + 1 == 255 * (n / 255 + 1);
      assert (n + 1) / 255 == n / 255 + 1 && (n + 1) % 255 == 0;
      if n < CAPACITY { assert Start(n)[1 := n / 255 + 1][2 := 0] == Start(n + 1); }
    } else {
      assert (n + 1) / 255 == n / 255 && (n + 1) % 255 == n % 255 + 1;
      assert Start(n)[1 := n / 255][2 := n % 255 + 1] == Start(n + 1);
    }
  }

  /** One request, from any list: it answers with the address after the greatest one, and records it. */
  ghost predicate Allocates(cidrs: seq<seq<Byte>>, start: Option<seq<Byte>>, after: seq<seq<Byte>>) {
    && after == (if start.Some? then cidrs + [start.value] else cidrs)
    && (!Readable(cidrs) ==> start.None?)
    && (Readable(cidrs) ==> exists m: Addr :: Greatest(cidrs, m) && Answer(m, start))
  }

  /** The recorded subnets, as createEnv reads and writes them. */
  class EnvServer {
    var cidrs: seq<seq<Byte>>

    constructor ()
      ensures cidrs == []
    {
      cidrs := [];
    }

    method Allocate() returns (start: Option<seq<Byte>>)
      modifies this
      ensures Allocates(old(cidrs), start, cidrs)
    {
      start := FindNextStartIP(cidrs);
      if start.Some? { cidrs := cidrs + [start.value]; }
    }
  }

  function Served(n: nat): (k: nat)
    ensures k <= CAPACITY
  {
    if n < CAPACITY then n else CAPACITY
  }

  lemma AllocatesNext(n: nat, start: Option<seq<Byte>>, after: seq<seq<Byte>>)
    requires n <= CAPACITY && Allocates(Allocated(n), start, after)
    ensures n < CAPACITY ==> start == Some(To16(Start(n + 1))) && after == Allocated(n + 1)
    ensures n == CAPACITY ==> start.None? && after == Allocated(n)
  {
    hide Readable, Greatest, Bump, Start, To16, Allocated;
    AllocatedGreatest(n);
    BumpStart(n);
    var m: Addr :| Greatest(Allocated(n), m) && Answer(m, start);
    GreatestUnique(Allocated(n), m, Start(n));
    if n < CAPACITY { AllocatedNext(n); }
  }

  /** Every run from an empty list: request n gets subnet n for the first 65024 requests, and no other succeeds. */
  lemma {:induction false} EveryRun(lists: seq<seq<seq<Byte>>>, starts: seq<Option<seq<Byte>>>, n: nat)
    requires |lists| == |starts| + 1 && lists[0] == []
    requires forall i | 0 <= i < |starts| :: Allocates(lists[i], starts[i], lists[i + 1])
    requires n <= |starts|
    ensures lists[n] == Allocated(Served(n))
    ensures 1 <= n <= CAPACITY ==> starts[n - 1] == Some(To16(Start(n)))
    ensures n > CAPACITY ==> starts[n - 1].None?
  {
    hide Allocates, Allocated, To16, Start;
    if n == 0 {
      NoneAllocated();
    } else {
      EveryRun(lists, starts, n - 1);
      AllocatesNext(Served(n - 1), starts[n - 1], lists[n - 1 + 1]);
    }
  }

  lemma NoneAllocated()
    ensures Allocated(0) == []
  {
  }

  // ---------------------------------------------------------------- the network of one environment

  datatype EnvNetwork = EnvNetwork(
    dns: seq<Byte>, dnsInClusterIP: seq<Byte>, ingress: seq<Byte>, headscale: seq<Byte>,
    servicesFrom: seq<Byte>, servicesTo: seq<Byte>)

  datatype NetworkResult = Ok(network: EnvNetwork) | NotAnAddress | NotIPv4 | LastByte(b: Byte)

  /** The next address with carries; None past the last one. */
  function Next(a: Option<seq<Byte>>): (r: Option<seq<Byte>>)
    ensures r.Some? ==> a.Some? && |r.value| == |a.value| && Num(r.value) == Num(a.value) + 1
    decreases if a.Some? then |a.value| else 0
  {
    if a.None? || a.value == [] then None
    else
      var init, last := a.value[..|a.value| - 1], a.value[|a.value| - 1];
      if last < 255 then Some(init + [last + 1])
      else
        match Next(Some(init))
        case None => None
        case Some(up) => assert (up + [0])[..|up|] == up; Some(up + [0])
  }

  method NewEnvNetwork(subnet: seq<Byte>) returns (r: NetworkResult)
    ensures r.NotAnAddress? <==> Parse(subnet).None?
    ensures r.NotIPv4? <==> Parse(subnet).Some? && |Parse(subnet).value| == 16
    ensures r.LastByte? <==> Parse(subnet).Some? && |Parse(subnet).value| == 4 && Parse(subnet).value[3] != 0
    ensures r.LastByte? ==> r.b == Parse(subnet).value[3]
    ensures r.Ok? ==> IsNetworkOf(r.network, Parse(subnet).value)
  {
    var parsed := Parse(subnet);
    if parsed.None? { return NotAnAddress; }
    var addr: Addr := parsed.value;
    if |addr| != 4 { return NotIPv4; }
    var dns := Next(Some(addr));
    var ingress := Next(dns);
    var headscale := Next(ingress);
    var b := new Byte[4](i requires 0 <= i < 4 => addr[i]);
    assert b[..] == addr;
    if b[3] != 0 { return LastByte(b[3]); }
    NextFromZero(addr);
    b[3] := 10;
    var servicesFrom := b[..];
    b[3] := 254;
    var servicesTo := b[..];
    b[3] := b[2];
    b[2] := b[1];
    b[0] := 10;
    b[1] := 44;
    var inCluster := b[..];
    r := Ok(EnvNetwork(To16(dns.value), To16(inCluster), To16(ingress.value), To16(headscale.value),
      To16(servicesFrom), To16(servicesTo)));
  }

  lemma NextFromZero(a: Addr)
    requires |a| == 4 && a[3] == 0
    ensures Next(Some(a)) == Some(a[3 := 1])
    ensures Next(Some(a[3 := 1])) == Some(a[3 := 2])
    ensures Next(Some(a[3 := 2])) == Some(a[3 := 3])
  {
    assert a[..3] + [1] == a[3 := 1];
    assert a[3 := 1][..3] + [2] == a[3 := 2];
    assert a[3 := 2][..3] + [3] == a[3 := 3];
  }

  /** What every environment is promised about its own addresses. */
  predicate IsNetworkOf(net: EnvNetwork, subnet: Addr) {
    && |subnet| == 4 && subnet[3] == 0
    && net.dns == To16(subnet[3 := 1])
    && net.ingress == To16(subnet[3 := 2])
    && net.headscale == To16(subnet[3 := 3])
    && net.servicesFrom == To16(subnet[3 := 10])
    && net.servicesTo == To16(subnet[3 := 254])
    && net.dnsInClusterIP == To16([10, 44, subnet[1], subnet[2]])
  }

  // ---------------------------------------------------------------- no two ranges meet

  datatype Use = Dns | Ingress | Headscale | Services

  /** The number of an address given in sixteen bytes. */
  function Value(ip: seq<Byte>): nat {
    if Parse(ip).Some? then Num(Parse(ip).value) else 0
  }

  function First(net: EnvNetwork, u: Use): nat {
    match u
    case Dns => Value(net.dns)
    case Ingress => Value(net.ingress)
    case Headscale => Value(net.headscale)
    case Services => Value(net.servicesFrom)
  }

  function Last(net: EnvNetwork, u: Use): nat {
    if u.Services? then Value(net.servicesTo) else First(net, u)
  }

  predicate Within(x: nat, net: EnvNetwork, u: Use) { First(net, u) <= x <= Last(net, u) }

  lemma ValueMapped(a: Addr, b: Byte)
    requires |a| == 4 && a[3] == 0
    ensures Value(To16(a[3 := b])) == Num(a) + b
  {
    ParseMapped(a[3 := b]);
    Num4(a);
    Num4(a[3 := b]);
  }

  function Offset(u: Use): nat {
    match u
    case Dns => 1
    case Ingress => 2
    case Headscale => 3
    case Services => 10
  }

  lemma UsesAt(net: EnvNetwork, n: nat, u: Use)
    requires n <= CAPACITY && IsNetworkOf(net, Start(n))
    ensures First(net, u) == Num(Start(n)) + Offset(u)
    ensures Last(net, u) == if u.Services? then Num(Start(n)) + 254 else First(net, u)
  {
    match u
    case Dns => ValueMapped(Start(n), 1);
    case Ingress => ValueMapped(Start(n), 2);
    case Headscale => ValueMapped(Start(n), 3);
    case Services =>
      ValueMapped(Start(n), 10);
      ValueMapped(Start(n), 254);
  }

  /** Within and across environments, no address has two uses. */
  lemma UsesDisjoint(a: EnvNetwork, j: nat, u: Use, b: EnvNetwork, k: nat, v: Use)
    requires j <= CAPACITY && k <= CAPACITY && (j, u) != (k, v)
    requires IsNetworkOf(a, Start(j)) && IsNetworkOf(b, Start(k))
    ensures forall x: nat :: !(Within(x, a, u) && Within(x, b, v))
  {
    UsesAt(a, j, u);
    UsesAt(b, k, v);
    if j < k { StartBelow(j, k); } else if k < j { StartBelow(k, j); }
  }

  // ---------------------------------------------------------------- DNS inside the cluster

  lemma InClusterAt(net: EnvNetwork, k: nat)
    requires k <= CAPACITY && IsNetworkOf(net, Start(k))
    ensures Value(net.dnsInClusterIP) == (2604 * 256 + k / 255) * 256 + k % 255
  {
    var a: Addr := [10, 44, k / 255, k % 255];
    ParseMapped(a);
    Num4(a);
  }

  /** No two environments share their in-cluster DNS address. */
  lemma InClusterInjective(a: EnvNetwork, j: nat, b: EnvNetwork, k: nat)
    requires j <= CAPACITY && k <= CAPACITY
    requires IsNetworkOf(a, Start(j)) && IsNetworkOf(b, Start(k))
    requires a.dnsInClusterIP == b.dnsInClusterIP
    ensures j == k
  {
    InClusterAt(a, j);
    InClusterAt(b, k);
  }

  function NetworkOf(n: nat): (net: EnvNetwork)
    requires n <= CAPACITY
    ensures IsNetworkOf(net, Start(n))
  {
    var s := Start(n);
    EnvNetwork(To16(s[3 := 1]), To16([10, 44, s[1], s[2]]), To16(s[3 := 2]), To16(s[3 := 3]),
      To16(s[3 := 10]), To16(s[3 := 254]))
  }

  /** The in-cluster DNS address of the k-th environment is in the subnet of the j-th. */
  ghost predicate Inside(k: nat, j: nat)
    requires k <= CAPACITY && j <= CAPACITY
  {
    Num(Start(j)) <= Value(NetworkOf(k).dnsInClusterIP) < Num(Start(j)) + 256
  }

  lemma InsideExactly(k: nat, j: nat)
    requires k <= CAPACITY && j <= CAPACITY
    ensures Inside(k, j) <==> j / 255 == 44 && j % 255 == k / 255
  {
    StartNum(j);
    InClusterAt(NetworkOf(k), k);
  }

  /** The in-cluster DNS addresses of the first n environments avoid all their subnets for n up to 11219, no further. */
  lemma InClusterAvoids(n: nat)
    requires n <= CAPACITY
    ensures (forall k, j | 1 <= k <= n && 1 <= j <= n :: !Inside(k, j)) <==> n <= 11219
  {
    forall k, j | 1 <= k <= n && 1 <= j <= n ensures Inside(k, j) <==> j / 255 == 44 && j % 255 == k / 255 {
      InsideExactly(k, j);
    }
    if n <= 11219 {
      forall j: nat | 1 <= j <= n ensures j / 255 != 44 || j % 255 > n / 255 { }
    } else {
      assert Inside(1, 11220);
    }
  }
}
