/**
 * The web-facing address lookup of updater/iplookup.go: a cache keyed by
 * record type and interface name, a staleness gate, and a search that asks
 * three public services (in shuffled order) through every usable source
 * address of the interface, the first answer winning.
 *
 * The network is an oracle (Network): which interfaces exist and what
 * addresses they carry, what each HTTP exchange returns, and Go's
 * strings.TrimSpace, net.ParseIP and net.IP.IsGlobalUnicast. The random
 * source of rand.Shuffle is a function from step to draw.
 */
module Lookup {
  import opened Net

  /** How long a discovered address would count as fresh. */
  const StaleTime: Duration := 10 * Minute

  /** A cache key: the record type and the interface name. */
  datatype IPSource = IPSource(rtype: RecordType, iname: string)

  /** The three public "what is my address" services. */
  datatype IPService = Icanhazip | Ipify | Wtfismyip

  const IPServices: seq<IPService> := [Icanhazip, Ipify, Wtfismyip]

  /** The endpoint a service is asked for an IPv4 address (v6 == false) or an IPv6 address. */
  function ServiceURL(service: IPService, v6: bool): string
  {
    match service
    case Icanhazip => if v6 then "https://v6.icanhazip.com" else "https://v4.icanhazip.com"
    case Ipify => if v6 then "https://api6.ipify.org" else "https://api.ipify.org"
    case Wtfismyip => if v6 then "https://ipv6.wtfismyip.com/text" else "https://ipv4.wtfismyip.com/text"
  }

  /** One entry of net.Interface.Addrs: an address with its network (*net.IPNet), or another kind of net.Addr. */
  datatype Addr = IPNet(ip: IP) | OtherAddr

  /** What Addrs() reports for an interface: a failure, or its addresses. */
  datatype InterfaceAddrs = AddrsFailed | Addrs(addrs: seq<Addr>)

  /** How a request is dialled: by the default route, or bound to a local source address. */
  datatype Dial = DefaultRoute | FromAddr(source: IP)

  /** The outcome of asking one service once: an address (nil is []) with a nil error, or an error. */
  datatype Fetched = Fetched(ip: IP) | FetchFailed(reason: string)

  /** Everything outside the process the lookup consults. */
  datatype Network = Network(
    interfaceByName: string -> Option<InterfaceAddrs>,
    exchange: (string, Dial) -> HttpReply,
    trimSpace: string -> string,
    parseIP: string -> ParsedIP,
    isGlobalUnicast: IP -> bool)

  // ---------------------------------------------------------------------
  // Source addresses
  // ---------------------------------------------------------------------

  predicate IsIPv4(ip: IP)
  {
    |ip| == 4
  }

  predicate IsIPv6(ip: IP)
  {
    |ip| == 16
  }

  /** The family test of sourceAddresses: IPv4 for A, IPv6 for AAAA, nothing for any other type. */
  predicate FamilyMatches(rtype: RecordType, ip: IP)
  {
    if rtype == ARecord then IsIPv4(ip)
    else if rtype == AAAARecord then IsIPv6(ip)
    else false
  }

  /** An interface address sourceAddresses keeps. */
  predicate Qualifies(rtype: RecordType, a: Addr, isGlobalUnicast: IP -> bool)
  {
    a.IPNet? && FamilyMatches(rtype, a.ip) && isGlobalUnicast(a.ip)
  }

  /** The qualifying addresses of `addrs`, in their order. */
  function SourceFilter(rtype: RecordType, addrs: seq<Addr>, isGlobalUnicast: IP -> bool): seq<IP>
  {
    if |addrs| == 0 then []
    else
      var rest := SourceFilter(rtype, addrs[..|addrs| - 1], isGlobalUnicast);
      var a := addrs[|addrs| - 1];
      if Qualifies(rtype, a, isGlobalUnicast) then rest + [a.ip] else rest
  }

  /** What sourceAddresses returns: nothing when Addrs() fails, else the qualifying addresses. */
  function SourceAddressesOf(rtype: RecordType, intf: InterfaceAddrs, isGlobalUnicast: IP -> bool): seq<IP>
  {
    match intf
    case AddrsFailed => []
    case Addrs(addrs) => SourceFilter(rtype, addrs, isGlobalUnicast)
  }

  /**
   * An address is kept exactly when some entry is a *net.IPNet carrying it,
   * of the record type's family and global unicast; nothing is invented.
   */
  lemma {:induction false} SourceFilterMembers(rtype: RecordType, addrs: seq<Addr>, isGlobalUnicast: IP -> bool, ip: IP)
    ensures |SourceFilter(rtype, addrs, isGlobalUnicast)| <= |addrs|
    ensures ip in SourceFilter(rtype, addrs, isGlobalUnicast) <==>
      exists k :: 0 <= k < |addrs| && addrs[k] == IPNet(ip) && FamilyMatches(rtype, ip) && isGlobalUnicast(ip)
  {
    if |addrs| > 0 {
      var init := addrs[..|addrs| - 1];
      SourceFilterMembers(rtype, init, isGlobalUnicast, ip);
      if ip in SourceFilter(rtype, addrs, isGlobalUnicast) {
        if ip !in SourceFilter(rtype, init, isGlobalUnicast) {
          assert addrs[|addrs| - 1] == IPNet(ip);
        } else {
          var k :| 0 <= k < |init| && init[k] == IPNet(ip) && FamilyMatches(rtype, ip) && isGlobalUnicast(ip);
          assert addrs[k] == init[k];
        }
      } else {
        forall k | 0 <= k < |addrs| && addrs[k] == IPNet(ip)
          ensures !(FamilyMatches(rtype, ip) && isGlobalUnicast(ip))
        {
          if k < |init| {
            assert init[k] == addrs[k];
          }
        }
      }
    }
  }

  /** An interface whose addresses cannot be read, or which has no qualifying one, yields no source address. */
  lemma SourceAddressesEmpty(rtype: RecordType, intf: InterfaceAddrs, isGlobalUnicast: IP -> bool)
    requires intf.AddrsFailed? || (rtype != ARecord && rtype != AAAARecord)
    ensures SourceAddressesOf(rtype, intf, isGlobalUnicast) == []
  {
    if intf.Addrs? {
      var r := SourceAddressesOf(rtype, intf, isGlobalUnicast);
      if r != [] {
        SourceFilterMembers(rtype, intf.addrs, isGlobalUnicast, r[0]);
        assert false;
      }
    }
  }

  /** sourceAddresses: the loop that appends every qualifying interface address. */
  method SourceAddresses(rtype: RecordType, intf: InterfaceAddrs, isGlobalUnicast: IP -> bool) returns (addrs: seq<IP>)
    ensures addrs == SourceAddressesOf(rtype, intf, isGlobalUnicast)
    ensures forall ip :: ip in addrs ==> FamilyMatches(rtype, ip) && isGlobalUnicast(ip)
  {
    addrs := [];
    if intf.AddrsFailed? {
      return;
    }
    var iaddrs := intf.addrs;
    var i := 0;
    while i < |iaddrs|
      invariant 0 <= i <= |iaddrs|
      invariant addrs == SourceFilter(rtype, iaddrs[..i], isGlobalUnicast)
      invariant forall ip :: ip in addrs ==> FamilyMatches(rtype, ip) && isGlobalUnicast(ip)
    {
      assert iaddrs[..i + 1][..i] == iaddrs[..i];
      match iaddrs[i] {
        case IPNet(ip) =>
          var oktype: bool;
          if rtype == ARecord {
            oktype := IsIPv4(ip);
          } else if rtype == AAAARecord {
            oktype := IsIPv6(ip);
          } else {
            oktype := false;
          }
          if oktype && isGlobalUnicast(ip) {
            addrs := addrs + [ip];
          }
        case OtherAddr =>
      }
      i := i + 1;
    }
    assert iaddrs[..i] == iaddrs;
  }

  // ---------------------------------------------------------------------
  // Dialling and asking the services
  // ---------------------------------------------------------------------

  /** The dial contexts tried per service: one per source address, or the default route when there is none. */
  function Dials(addrs: seq<IP>): (dcs: seq<Dial>)
    ensures |dcs| == if |addrs| == 0 then 1 else |addrs|
    ensures |addrs| == 0 ==> dcs == [DefaultRoute]
    ensures forall i :: 0 <= i < |addrs| ==> dcs[i] == FromAddr(addrs[i])
  {
    if |addrs| == 0 then [DefaultRoute]
    else seq(|addrs|, i requires 0 <= i < |addrs| => FromAddr(addrs[i]))
  }

  /** The loop that builds the dial contexts for one service. */
  method DialContexts(addrs: seq<IP>) returns (dcs: seq<Dial>)
    ensures dcs == Dials(addrs)
  {
    if |addrs| == 0 {
      dcs := [DefaultRoute];
      return;
    }
    dcs := [];
    var i := 0;
    while i < |addrs|
      invariant 0 <= i <= |addrs|
      invariant |dcs| == i
      invariant forall k :: 0 <= k < i ==> dcs[k] == FromAddr(addrs[k])
    {
      dcs := dcs + [FromAddr(addrs[i])];
      i := i + 1;
    }
  }

  /**
   * retrieve: a transport failure or a status other than 200 is an error;
   * otherwise the trimmed body is parsed and returned with a nil error,
   * so an unparsable body comes back as a successful nil address.
   */
  function Retrieve(url: string, dial: Dial, net: Network): (r: Fetched)
    ensures r.Fetched? <==> net.exchange(url, dial).Reply? && net.exchange(url, dial).status == StatusOK
    ensures r.Fetched? ==> r.ip == net.parseIP(net.trimSpace(net.exchange(url, dial).body))
  {
    match net.exchange(url, dial)
    case TransportError => FetchFailed("transport error")
    case Reply(status, body) =>
      if status != StatusOK then FetchFailed("bad response code")
      else Fetched(net.parseIP(net.trimSpace(body)))
  }

  /** A 200 reply whose body does not parse is a success carrying nil. */
  lemma RetrieveUnparsable(url: string, dial: Dial, net: Network)
    requires net.exchange(url, dial).Reply? && net.exchange(url, dial).status == StatusOK
    requires net.parseIP(net.trimSpace(net.exchange(url, dial).body)) == []
    ensures Retrieve(url, dial, net) == Fetched([])
  {
  }

  /**
   * One attempt of the search: IPv4Addr for A, IPv6Addr for AAAA. For any
   * other record type neither branch of the switch runs, leaving a nil
   * address and a nil error, which counts as a success.
   */
  function Attempt(service: IPService, rtype: RecordType, dial: Dial, net: Network): (r: Fetched)
    ensures rtype != ARecord && rtype != AAAARecord ==> r == Fetched([])
    ensures rtype == ARecord ==> r == Retrieve(ServiceURL(service, false), dial, net)
    ensures rtype == AAAARecord ==> r == Retrieve(ServiceURL(service, true), dial, net)
  {
    if rtype == ARecord then Retrieve(ServiceURL(service, false), dial, net)
    else if rtype == AAAARecord then Retrieve(ServiceURL(service, true), dial, net)
    else Fetched([])
  }

  /** How one attempt turns out: the service asked through the dial context. */
  type Try = (IPService, Dial) -> Fetched

  /** The attempts of WebFacingIP for one record type. */
  function Attempts(rtype: RecordType, net: Network): Try
  {
    (service, dial) => Attempt(service, rtype, dial, net)
  }

  /** The first answer when one service is tried through each dial context in turn. */
  function SearchDials(service: IPService, dials: seq<Dial>, try: Try): Option<IP>
  {
    if |dials| == 0 then None
    else
      var prev := SearchDials(service, dials[..|dials| - 1], try);
      if prev.Some? then prev
      else
        var f := try(service, dials[|dials| - 1]);
        if f.Fetched? then Some(f.ip) else None
  }

  /** The first answer when each service, in the given order, is tried through every dial context. */
  function SearchServices(services: seq<IPService>, dials: seq<Dial>, try: Try): Option<IP>
  {
    if |services| == 0 then None
    else
      var prev := SearchServices(services[..|services| - 1], dials, try);
      if prev.Some? then prev else SearchDials(services[|services| - 1], dials, try)
  }

  /** Over dial contexts: no answer exactly when every attempt fails; an answer is the first success. */
  lemma {:induction false} SearchDialsFirst(service: IPService, dials: seq<Dial>, try: Try)
    ensures SearchDials(service, dials, try) == None <==>
      forall j :: 0 <= j < |dials| ==> try(service, dials[j]).FetchFailed?
    ensures SearchDials(service, dials, try).Some? ==>
      exists j :: 0 <= j < |dials| && try(service, dials[j]) == Fetched(SearchDials(service, dials, try).value) &&
        forall j' :: 0 <= j' < j ==> try(service, dials[j']).FetchFailed?
  {
    if |dials| > 0 {
      var init := dials[..|dials| - 1];
      SearchDialsFirst(service, init, try);
      var r := SearchDials(service, dials, try);
      if SearchDials(service, init, try).Some? {
        var j :| 0 <= j < |init| && try(service, init[j]) == Fetched(r.value) &&
          forall j' :: 0 <= j' < j ==> try(service, init[j']).FetchFailed?;
        assert dials[j] == init[j];
        forall j' | 0 <= j' < j
          ensures try(service, dials[j']).FetchFailed?
        {
          assert dials[j'] == init[j'];
        }
      } else {
        assert forall j :: 0 <= j < |init| ==> dials[j] == init[j];
      }
    }
  }

  /** Over services and dial contexts: no answer exactly when every attempt fails. */
  lemma {:induction false} SearchServicesNone(services: seq<IPService>, dials: seq<Dial>, try: Try)
    ensures SearchServices(services, dials, try) == None <==>
      forall i, j :: 0 <= i < |services| && 0 <= j < |dials| ==> try(services[i], dials[j]).FetchFailed?
  {
    if |services| > 0 {
      var n := |services| - 1;
      var init := services[..n];
      SearchServicesNone(init, dials, try);
      SearchDialsFirst(services[n], dials, try);
      assert forall i :: 0 <= i < n ==> services[i] == init[i];
    }
  }

  /**
   * The attempt of service i through dial context j answered ip, and every
   * attempt of an earlier service, and every earlier attempt of service i,
   * failed.
   */
  ghost predicate FirstSuccessAt(services: seq<IPService>, dials: seq<Dial>, try: Try, i: int, j: int, ip: IP)
  {
    0 <= i < |services| && 0 <= j < |dials| && try(services[i], dials[j]) == Fetched(ip) &&
    (forall i', j' :: 0 <= i' < i && 0 <= j' < |dials| ==> try(services[i'], dials[j']).FetchFailed?) &&
    (forall j' :: 0 <= j' < j ==> try(services[i], dials[j']).FetchFailed?)
  }

  /** Over services and dial contexts: an answer is the first success in service-major order. */
  lemma {:induction false} SearchServicesFirst(services: seq<IPService>, dials: seq<Dial>, try: Try)
    ensures SearchServices(services, dials, try).Some? ==>
      exists i, j :: FirstSuccessAt(services, dials, try, i, j, SearchServices(services, dials, try).value)
  {
    var r := SearchServices(services, dials, try);
    if |services| > 0 && r.Some? {
      var n := |services| - 1;
      var init := services[..n];
      if SearchServices(init, dials, try).Some? {
        SearchServicesFirst(init, dials, try);
        var i, j :| FirstSuccessAt(init, dials, try, i, j, r.value);
        FirstSuccessExtends(init, services, dials, try, i, j, r.value);
      } else {
        SearchServicesNone(init, dials, try);
        SearchDialsFirst(services[n], dials, try);
        var j :| 0 <= j < |dials| && try(services[n], dials[j]) == Fetched(r.value) &&
          forall j' :: 0 <= j' < j ==> try(services[n], dials[j']).FetchFailed?;
        assert forall i' :: 0 <= i' < n ==> services[i'] == init[i'];
        assert FirstSuccessAt(services, dials, try, n, j, r.value);
      }
    }
  }

  /** A first success among a prefix of the services stays one among all of them. */
  lemma FirstSuccessExtends(init: seq<IPService>, services: seq<IPService>, dials: seq<Dial>, try: Try, i: int, j: int, ip: IP)
    requires init <= services && FirstSuccessAt(init, dials, try, i, j, ip)
    ensures FirstSuccessAt(services, dials, try, i, j, ip)
  {
    assert services[i] == init[i];
    assert forall i' :: 0 <= i' < i ==> services[i'] == init[i'];
  }

  lemma {:induction false} SearchDialsPrefix(service: IPService, dials: seq<Dial>, k: nat, try: Try)
    requires k <= |dials| && SearchDials(service, dials[..k], try).Some?
    ensures SearchDials(service, dials, try) == SearchDials(service, dials[..k], try)
    decreases |dials|
  {
    if k < |dials| {
      var init := dials[..|dials| - 1];
      assert init[..k] == dials[..k];
      SearchDialsPrefix(service, init, k, try);
    } else {
      assert dials[..k] == dials;
    }
  }

  lemma {:induction false} SearchServicesPrefix(services: seq<IPService>, dials: seq<Dial>, k: nat, try: Try)
    requires k <= |services| && SearchServices(services[..k], dials, try).Some?
    ensures SearchServices(services, dials, try) == SearchServices(services[..k], dials, try)
    decreases |services|
  {
    if k < |services| {
      var init := services[..|services| - 1];
      assert init[..k] == services[..k];
      SearchServicesPrefix(init, dials, k, try);
    } else {
      assert services[..k] == services;
    }
  }

  // ---------------------------------------------------------------------
  // Shuffling the services
  // ---------------------------------------------------------------------

  /** Exchanges positions i and j, as the swap function handed to rand.Shuffle does. */
  function Swap<T>(s: seq<T>, i: nat, j: nat): (r: seq<T>)
    requires i < |s| && j < |s|
    ensures |r| == |s| && r[i] == s[j] && r[j] == s[i]
    ensures forall k :: 0 <= k < |s| && k != i && k != j ==> r[k] == s[k]
  {
    s[i := s[j]][j := s[i]]
  }

  lemma SwapPermutes<T>(s: seq<T>, i: nat, j: nat)
    requires i < |s| && j < |s|
    ensures multiset(Swap(s, i, j)) == multiset(s)
  {
  }

  /**
   * rand.Shuffle from step i down to step 1: step i swaps position i with a
   * position drawn from 0..i; `rand` gives the draw of each step.
   */
  function ShuffleFrom<T>(s: seq<T>, i: nat, rand: nat -> nat): (r: seq<T>)
    requires i < |s|
    ensures |r| == |s|
    decreases i
  {
    if i == 0 then s else ShuffleFrom(Swap(s, i, rand(i) % (i + 1)), i - 1, rand)
  }

  /** The order rand.Shuffle leaves `s` in. */
  function Shuffled<T>(s: seq<T>, rand: nat -> nat): (r: seq<T>)
    ensures |r| == |s|
  {
    if |s| == 0 then s else ShuffleFrom(s, |s| - 1, rand)
  }

  lemma {:induction false} ShuffleFromPermutes<T>(s: seq<T>, i: nat, rand: nat -> nat)
    requires i < |s|
    ensures multiset(ShuffleFrom(s, i, rand)) == multiset(s)
    decreases i
  {
    if i > 0 {
      var j := rand(i) % (i + 1);
      SwapPermutes(s, i, j);
      ShuffleFromPermutes(Swap(s, i, j), i - 1, rand);
    }
  }

  /** Whatever the draws, the shuffle is a permutation. */
  lemma ShuffledPermutes<T>(s: seq<T>, rand: nat -> nat)
    ensures multiset(Shuffled(s, rand)) == multiset(s)
  {
    if |s| > 0 {
      ShuffleFromPermutes(s, |s| - 1, rand);
    }
  }

  /** Every service is asked exactly once, whatever the draws. */
  lemma ShuffledServices(rand: nat -> nat)
    ensures |Shuffled(IPServices, rand)| == 3
    ensures forall s: IPService :: multiset(Shuffled(IPServices, rand))[s] == 1
  {
    var r := Shuffled(IPServices, rand);
    ShuffledPermutes(IPServices, rand);
    assert multiset(IPServices) == multiset{Icanhazip} + multiset{Ipify} + multiset{Wtfismyip};
    forall s: IPService
      ensures multiset(r)[s] == 1
    {
      match s
      case Icanhazip =>
      case Ipify =>
      case Wtfismyip =>
    }
  }

  /** Draws that always pick the current position leave the order as it was. */
  lemma ShuffleCanKeepOrder<T>(s: seq<T>)
    ensures Shuffled(s, i => i) == s
  {
    if |s| > 0 {
      ShuffleIdentity(s, |s| - 1);
    }
  }

  lemma {:induction false} ShuffleIdentity<T>(s: seq<T>, i: nat)
    requires i < |s|
    ensures ShuffleFrom(s, i, i => i) == s
  {
    if i > 0 {
      assert i % (i + 1) == i;
      assert Swap(s, i, i) == s;
      ShuffleIdentity(s, i - 1);
    }
  }

  lemma SwapStep<T>(before: seq<T>, after: seq<T>, i: nat, j: nat, rand: nat -> nat)
    requires 0 < i < |before| && j == rand(i) % (i + 1) && |after| == |before|
    requires after[i] == before[j] && after[j] == before[i]
    requires forall k :: 0 <= k < |before| && k != i && k != j ==> after[k] == before[k]
    ensures ShuffleFrom(after, i - 1, rand) == ShuffleFrom(before, i, rand)
  {
    assert after == Swap(before, i, j);
  }

  /** The copy of the service list shuffled in place, as WebFacingIP does it. */
  method ShuffleServices(rand: nat -> nat) returns (shuffled: seq<IPService>)
    ensures shuffled == Shuffled(IPServices, rand)
  {
    var a := new IPService[|IPServices|];
    a[0], a[1], a[2] := IPServices[0], IPServices[1], IPServices[2];
    assert a[..] == IPServices;
    var i := a.Length - 1;
    while i > 0
      invariant 0 <= i < a.Length
      invariant ShuffleFrom(a[..], i, rand) == Shuffled(IPServices, rand)
    {
      var j := rand(i) % (i + 1);
      ghost var before := a[..];
      a[i], a[j] := a[j], a[i];
      SwapStep(before, a[..], i, j, rand);
      i := i - 1;
    }
    shuffled := a[..];
  }

  /** The attempts (service, dial) => Attempt(service, rtype, dial, net). */
  lemma AttemptsApply(rtype: RecordType, net: Network, service: IPService, dial: Dial)
    ensures Attempts(rtype, net)(service, dial) == Attempt(service, rtype, dial, net)
  {
  }

  /**
   * The inner loop of WebFacingIP: one service through each dial context,
   * stopping at the first attempt without an error.
   */
  method TryDials(service: IPService, rtype: RecordType, dcs: seq<Dial>, net: Network) returns (found: Option<IP>)
    ensures found == SearchDials(service, dcs, Attempts(rtype, net))
  {
    ghost var try := Attempts(rtype, net);
    var di := 0;
    while di < |dcs|
      invariant 0 <= di <= |dcs|
      invariant SearchDials(service, dcs[..di], try) == None
    {
      var fetched: Fetched;
      if rtype == ARecord {
        fetched := Retrieve(ServiceURL(service, false), dcs[di], net);
      } else if rtype == AAAARecord {
        fetched := Retrieve(ServiceURL(service, true), dcs[di], net);
      } else {
        fetched := Fetched([]);
      }
      AttemptsApply(rtype, net, service, dcs[di]);
      assert dcs[..di + 1][..di] == dcs[..di];
      if fetched.Fetched? {
        SearchDialsPrefix(service, dcs, di + 1, try);
        return Some(fetched.ip);
      }
      di := di + 1;
    }
    assert dcs[..di] == dcs;
    return None;
  }

  /**
   * The outer loop of WebFacingIP: each service in turn, through each dial
   * context, stopping at the first attempt without an error.
   */
  method FirstSuccess(shuffled: seq<IPService>, rtype: RecordType, addrs: seq<IP>, net: Network) returns (found: Option<IP>)
    ensures found == SearchServices(shuffled, Dials(addrs), Attempts(rtype, net))
  {
    ghost var try := Attempts(rtype, net);
    var si := 0;
    while si < |shuffled|
      invariant 0 <= si <= |shuffled|
      invariant SearchServices(shuffled[..si], Dials(addrs), try) == None
    {
      var dcs := DialContexts(addrs);
      found := TryDials(shuffled[si], rtype, dcs, net);
      assert shuffled[..si + 1][..si] == shuffled[..si];
      if found.Some? {
        SearchServicesPrefix(shuffled, Dials(addrs), si + 1, try);
        return;
      }
      si := si + 1;
    }
    assert shuffled[..si] == shuffled;
    return None;
  }

  // ---------------------------------------------------------------------
  // The cache
  // ---------------------------------------------------------------------

  /** A Go map read: a missing key gives the zero value, nil. */
  function CachedIP(cache: map<IPSource, IP>, key: IPSource): IP
  {
    if key in cache then cache[key] else []
  }

  /** A Go map read: a missing key gives the zero time.Time, which is 0 here. */
  function RetrievedAt(retrieved: map<IPSource, Time>, key: IPSource): Time
  {
    if key in retrieved then retrieved[key] else 0
  }

  /** The gate: rediscover only when now is strictly after the last retrieval plus StaleTime. */
  predicate IsStale(now: Time, since: Time)
  {
    now > since + StaleTime
  }

  /** The source addresses WebFacingIP uses: none when the interface is unknown. */
  function SourcesFor(rtype: RecordType, intname: string, net: Network): seq<IP>
  {
    match net.interfaceByName(intname)
    case None => []
    case Some(intf) => SourceAddressesOf(rtype, intf, net.isGlobalUnicast)
  }

  /** A full discovery: every shuffled service through every dial context, first success wins. */
  function Discover(rtype: RecordType, intname: string, net: Network, rand: nat -> nat): Option<IP>
  {
    SearchServices(Shuffled(IPServices, rand), Dials(SourcesFor(rtype, intname, net)), Attempts(rtype, net))
  }

  datatype Resolution = Resolution(ip: IP, cache: map<IPSource, IP>)

  /**
   * What one WebFacingIP call returns and leaves in the cache. The cache
   * is either untouched or has the entry of its own key set to the
   * returned address; either way the returned address is the one the
   * cache then holds for that key.
   */
  function Resolve(cache: map<IPSource, IP>, retrieved: map<IPSource, Time>, key: IPSource, now: Time,
                   net: Network, rand: nat -> nat): (r: Resolution)
    ensures r.ip == CachedIP(r.cache, key)
  {
    if IsStale(now, RetrievedAt(retrieved, key)) then Rediscover(cache, key, net, rand)
    else Resolution(CachedIP(cache, key), cache)
  }

  /** Past the gate: the first success is cached and returned; without one the cached entry (possibly nil) is returned. */
  function Rediscover(cache: map<IPSource, IP>, key: IPSource, net: Network, rand: nat -> nat): (r: Resolution)
    ensures r.ip == CachedIP(r.cache, key)
    ensures r.cache == cache || r.cache == cache[key := r.ip]
  {
    match Discover(key.rtype, key.iname, net, rand)
    case Some(ip) => Resolution(ip, cache[key := ip])
    case None => Resolution(CachedIP(cache, key), cache)
  }

  /** Within StaleTime of the last retrieval the cache is answered untouched. */
  lemma ResolveFresh(cache: map<IPSource, IP>, retrieved: map<IPSource, Time>, key: IPSource, now: Time,
                     net: Network, rand: nat -> nat)
    requires !IsStale(now, RetrievedAt(retrieved, key))
    ensures Resolve(cache, retrieved, key, now, net, rand) == Resolution(CachedIP(cache, key), cache)
  {
  }

  /** When every attempt fails the cache is untouched and its previous entry (possibly nil) is returned. */
  lemma ResolveFallback(cache: map<IPSource, IP>, retrieved: map<IPSource, Time>, key: IPSource, now: Time,
                        net: Network, rand: nat -> nat)
    requires forall s, d :: s in IPServices && d in Dials(SourcesFor(key.rtype, key.iname, net)) ==>
      Attempt(s, key.rtype, d, net).FetchFailed?
    ensures Resolve(cache, retrieved, key, now, net, rand) == Resolution(CachedIP(cache, key), cache)
  {
    var services := Shuffled(IPServices, rand);
    var dials := Dials(SourcesFor(key.rtype, key.iname, net));
    SearchServicesNone(services, dials, Attempts(key.rtype, net));
    ShuffledPermutes(IPServices, rand);
    forall i, j | 0 <= i < |services| && 0 <= j < |dials|
      ensures Attempts(key.rtype, net)(services[i], dials[j]).FetchFailed?
    {
      assert services[i] in multiset(services);
      assert services[i] in IPServices;
      assert dials[j] in dials;
    }
  }

  /** A stale entry with a successful attempt is replaced by the first success, which is returned. */
  lemma ResolveDiscovers(cache: map<IPSource, IP>, retrieved: map<IPSource, Time>, key: IPSource, now: Time,
                         net: Network, rand: nat -> nat)
    requires IsStale(now, RetrievedAt(retrieved, key))
    requires exists s, d :: (s in IPServices && d in Dials(SourcesFor(key.rtype, key.iname, net)) &&
                             Attempt(s, key.rtype, d, net).Fetched?)
    ensures Discover(key.rtype, key.iname, net, rand).Some?
    ensures var r := Resolve(cache, retrieved, key, now, net, rand);
      r.ip == Discover(key.rtype, key.iname, net, rand).value && r.cache == cache[key := r.ip]
  {
    var services := Shuffled(IPServices, rand);
    var dials := Dials(SourcesFor(key.rtype, key.iname, net));
    var s, d :| s in IPServices && d in dials && Attempt(s, key.rtype, d, net).Fetched?;
    ShuffledPermutes(IPServices, rand);
    assert s in multiset(services);
    var i :| 0 <= i < |services| && services[i] == s;
    var j :| 0 <= j < |dials| && dials[j] == d;
    SearchServicesNone(services, dials, Attempts(key.rtype, net));
  }

  /** A call changes no entry but that of its own key. */
  lemma ResolveKeepsOtherKeys(cache: map<IPSource, IP>, retrieved: map<IPSource, Time>, key: IPSource, now: Time,
                              net: Network, rand: nat -> nat, other: IPSource)
    requires other != key
    ensures var r := Resolve(cache, retrieved, key, now, net, rand);
      (other in r.cache <==> other in cache) && (other in cache ==> r.cache[other] == cache[other])
  {
  }

  /** A call reads only its own key: caches and retrieval times that agree there give the same answer. */
  lemma ResolveReadsOwnKey(cache1: map<IPSource, IP>, retrieved1: map<IPSource, Time>,
                           cache2: map<IPSource, IP>, retrieved2: map<IPSource, Time>,
                           key: IPSource, now: Time, net: Network, rand: nat -> nat)
    requires CachedIP(cache1, key) == CachedIP(cache2, key)
    requires RetrievedAt(retrieved1, key) == RetrievedAt(retrieved2, key)
    ensures Resolve(cache1, retrieved1, key, now, net, rand).ip == Resolve(cache2, retrieved2, key, now, net, rand).ip
  {
  }

  /**
   * Nothing ever records a retrieval time, so every key keeps the zero
   * time and any instant more than StaleTime after it rediscovers.
   */
  lemma NeverRetrievedAlwaysStale(key: IPSource, now: Time)
    requires now > StaleTime
    ensures IsStale(now, RetrievedAt(map[], key))
  {
  }

  /** So with nothing recorded, every call after StaleTime is a full rediscovery, whatever the cache holds. */
  lemma ResolveUnrecorded(cache: map<IPSource, IP>, key: IPSource, now: Time, net: Network, rand: nat -> nat)
    requires now > StaleTime
    ensures Resolve(cache, map[], key, now, net, rand) == Rediscover(cache, key, net, rand)
  {
    NeverRetrievedAlwaysStale(key, now);
  }

  /**
   * Every address a discovery finds came from net.ParseIP or is the nil
   * of a record type without a lookup: it is nil or 16 bytes, never the
   * 4-byte form of an IPv4 address.
   */
  lemma DiscoverParsed(rtype: RecordType, intname: string, net: Network, rand: nat -> nat)
    ensures Discover(rtype, intname, net, rand).Some? ==>
      Discover(rtype, intname, net, rand).value == [] || |Discover(rtype, intname, net, rand).value| == 16
  {
    var services, dials, try := Shuffled(IPServices, rand), Dials(SourcesFor(rtype, intname, net)), Attempts(rtype, net);
    SearchServicesFirst(services, dials, try);
    if SearchServices(services, dials, try).Some? {
      var ip := SearchServices(services, dials, try).value;
      var i, j :| FirstSuccessAt(services, dials, try, i, j, ip);
      AttemptsApply(rtype, net, services[i], dials[j]);
    }
  }

  /** The lookup cache shared by all updaters of one configuration. */
  class IPLookup {
    var cache: map<IPSource, IP>
    var retrieved: map<IPSource, Time>

    /** No entry is ever written to `retrieved`. */
    ghost predicate Valid()
      reads this
    {
      retrieved == map[]
    }

    /** NewIPLookup: two empty maps. */
    constructor ()
      ensures cache == map[] && retrieved == map[]
      ensures Valid()
    {
      cache := map[];
      retrieved := map[];
    }

    /**
     * WebFacingIP at instant `now`: behind the staleness gate, shuffle the
     * services and try each through every dial context, caching and
     * returning the first success; otherwise return the cached entry.
     */
    method WebFacingIP(rtype: RecordType, intname: string, now: Time, net: Network, rand: nat -> nat) returns (ip: IP)
      requires Valid()
      modifies this
      ensures Valid() && retrieved == old(retrieved)
      ensures Resolution(ip, cache) == Resolve(old(cache), old(retrieved), IPSource(rtype, intname), now, net, rand)
      ensures now > StaleTime ==> Resolution(ip, cache) == Rediscover(old(cache), IPSource(rtype, intname), net, rand)
    {
      var key := IPSource(rtype, intname);
      var since := RetrievedAt(retrieved, key);
      if now > since + StaleTime {
        var addrs: seq<IP> := [];
        var intf := net.interfaceByName(intname);
        if intf.Some? {
          var iaddrs := SourceAddresses(rtype, intf.value, net.isGlobalUnicast);
          if |iaddrs| > 0 {
            addrs := iaddrs;
          }
        }
        assert addrs == SourcesFor(rtype, intname, net);

        var shuffled := ShuffleServices(rand);
        var found := FirstSuccess(shuffled, rtype, addrs, net);
        if found.Some? {
          cache := cache[key := found.value];
          ip := found.value;
          return;
        }
      }
      ip := if key in cache then cache[key] else [];
    }
  }
}
