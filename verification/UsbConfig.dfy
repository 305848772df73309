// The USB configuration tree (usb.cpp): a device's descriptors one after the other, each starting with its length and
// its type. count_tree counts the interfaces, fill_interfaces collects them with their endpoints.
module UsbConfig {
  import opened Options

  type byte = x: int | 0 <= x < 256

  type Bytes = seq<byte>

  const INTERFACE := 4
  const ENDPOINT := 5
  const COMPANION := 0x30

  datatype Endpoint = Endpoint(address: byte, transferType: int, maxPacketSize: int, interval: byte,
                               interfaceNumber: byte, alternateSetting: byte, descriptor: Bytes,
                               companion: Option<Bytes>)

  datatype Interface = Interface(descriptor: Bytes, endpoints: seq<Endpoint>)

  /** What an endpoint descriptor of an interface says. */
  function EndpointOf(header: Bytes, d: Bytes, companion: Option<Bytes>): Endpoint
    requires |header| == 9 && |d| == 7
  {
    Endpoint(d[2], d[3] % 4, (256 * (d[5] as int) + d[4]) % 2048, d[6], header[2], header[3], d, companion)
  }

  /** The interface and endpoint descriptors of USB 2.0, tables 9-12 and 9-13. */
  function InterfaceRecord(number: byte, alternate: byte, endpoints: byte, classCode: byte, subclass: byte, protocol: byte): Bytes {
    [9, INTERFACE, number, alternate, endpoints, classCode, subclass, protocol, 0]
  }

  function EndpointRecord(address: byte, attributes: byte, maxPacketSize: nat, interval: byte): Bytes
    requires maxPacketSize < 65536
  {
    [7, ENDPOINT, address, attributes, maxPacketSize % 256, maxPacketSize / 256, interval]
  }

  /** Each field that a device writes to these descriptors is read from where it stands: two bits of the attributes,
      eleven of the packet size. */
  lemma FieldsAreRead(number: byte, alternate: byte, endpoints: byte, address: byte, attributes: byte, maxPacketSize: nat,
                      interval: byte, companion: Option<Bytes>)
    requires maxPacketSize < 65536
    ensures var h := InterfaceRecord(number, alternate, endpoints, 0, 0, 0);
            var d := EndpointRecord(address, attributes, maxPacketSize, interval);
            EndpointOf(h, d, companion) ==
            Endpoint(address, attributes % 4, maxPacketSize % 2048, interval, number, alternate, d, companion)
  {
    assert 256 * (maxPacketSize / 256) + maxPacketSize % 256 == maxPacketSize;
  }

  // ----- the meaning of a tree -----

  /** Where the descriptor at `at` ends, if its length makes sense. */
  function End(tree: Bytes, at: nat): (r: Option<nat>)
    ensures r.Some? ==> at + 2 <= r.value <= |tree|
  {
    if |tree| - at < 2 || tree[at] < 2 || tree[at] > |tree| - at then None else Some(at + tree[at])
  }

  function CountOf(tree: Bytes, at: nat, kind: byte): nat
    decreases |tree| - at
  {
    match End(tree, at)
    case None => 0
    case Some(next) => (if tree[at + 1] == kind then 1 else 0) + CountOf(tree, next, kind)
  }

  /** A SuperSpeed companion right behind an endpoint: none, its first six bytes, or (None) a malformed one. */
  function CompanionOf(tree: Bytes, at: nat): Option<Option<Bytes>> {
    if |tree| - at < 2 || tree[at + 1] != COMPANION then Some(None)
    else if tree[at] < 6 || tree[at] > |tree| - at then None
    else Some(Some(tree[at..at + 6]))
  }

  /** The endpoints of an interface and where the last of them ends. */
  datatype Endpoints = Endpoints(list: seq<Endpoint>, end: nat)

  /** The next n endpoints. */
  function EndpointsOf(header: Bytes, tree: Bytes, at: nat, n: nat): (r: Option<Endpoints>)
    requires |header| == 9 && at <= |tree|
    ensures r.Some? ==> |r.value.list| == n && at <= r.value.end <= |tree|
    decreases |tree| - at
  {
    if n == 0 then Some(Endpoints([], at)) else
      match End(tree, at)
      case None => None
      case Some(next) =>
        if tree[at + 1] == INTERFACE then None
        else if tree[at + 1] != ENDPOINT then EndpointsOf(header, tree, next, n)
        else if next - at < 7 || CompanionOf(tree, next).None? then None
        else Joined([EndpointOf(header, tree[at..at + 7], CompanionOf(tree, next).value)],
                    EndpointsOf(header, tree, next, n - 1))
  }

  function Joined(done: seq<Endpoint>, more: Option<Endpoints>): Option<Endpoints> {
    match more
    case None => None
    case Some(e) => Some(Endpoints(done + e.list, e.end))
  }

  /** The next n interfaces. */
  function InterfacesOf(tree: Bytes, at: nat, n: nat): (r: Option<seq<Interface>>)
    requires at <= |tree|
    ensures r.Some? ==> |r.value| == n
    decreases |tree| - at
  {
    if n == 0 then Some([]) else
      match End(tree, at)
      case None => None
      case Some(next) =>
        if tree[at + 1] != INTERFACE then InterfacesOf(tree, next, n)
        else if next - at < 9 then None
        else
          match EndpointsOf(tree[at..at + 9], tree, next, tree[at + 4])
          case None => None
          case Some(e) => Prepend([Interface(tree[at..at + 9], e.list)], InterfacesOf(tree, e.end, n - 1))
  }

  function Prepend(done: seq<Interface>, more: Option<seq<Interface>>): Option<seq<Interface>> {
    match more
    case None => None
    case Some(s) => Some(done + s)
  }

  // ----- the loops -----

  /** The checks before a descriptor is looked at. */
  method ReadDescriptor(tree: Bytes, at: nat) returns (ok: bool, next: nat)
    requires at <= |tree|
    ensures ok ==> next <= |tree|
    ensures End(tree, at) == if ok then Some(next) else None
  {
    if |tree| - at < 2 {
      return false, 0;
    }
    var length := tree[at];
    if length < 2 || length > |tree| - at {
      return false, 0;
    }
    return true, at + length;
  }

  /** The check for a companion behind an endpoint. */
  method ReadCompanion(tree: Bytes, next: nat) returns (ok: bool, companion: Option<Bytes>)
    requires next <= |tree|
    ensures CompanionOf(tree, next) == if ok then Some(companion) else None
  {
    if |tree| - next >= 2 && tree[next + 1] == COMPANION {
      if tree[next] < 6 || tree[next] > |tree| - next {
        return false, None;
      }
      return true, Some(tree[next..next + 6]);
    }
    return true, None;
  }

  /** count_tree. */
  method CountTree(tree: Bytes, kind: byte) returns (count: nat)
    ensures count == CountOf(tree, 0, kind)
  {
    count := 0;
    var at: nat := 0;
    while at < |tree|
      invariant at <= |tree| && count + CountOf(tree, at, kind) == CountOf(tree, 0, kind)
      decreases |tree| - at
    {
      var ok, next := ReadDescriptor(tree, at);
      if !ok {
        return;
      }
      if tree[at + 1] == kind {
        count := count + 1;
      }
      at := next;
    }
  }

  lemma JoinedMore(done: seq<Endpoint>, e: Endpoint, more: Option<Endpoints>)
    ensures Joined(done + [e], more) == Joined(done, Joined([e], more))
  {
    if more.Some? {
      assert done + [e] + more.value.list == done + ([e] + more.value.list);
    }
  }

  lemma JoinedNothing(more: Option<Endpoints>)
    ensures Joined([], more) == more
  {
    if more.Some? {
      assert [] + more.value.list == more.value.list;
    }
  }

  lemma PrependMore(done: seq<Interface>, i: Interface, more: Option<seq<Interface>>)
    ensures Prepend(done + [i], more) == Prepend(done, Prepend([i], more))
  {
    if more.Some? {
      assert done + [i] + more.value == done + ([i] + more.value);
    }
  }

  lemma PrependNothing(more: Option<seq<Interface>>)
    ensures Prepend([], more) == more
  {
    if more.Some? {
      assert [] + more.value == more.value;
    }
  }

  /** The endpoint loop of fill_interfaces, from behind the interface descriptor. */
  method FillEndpoints(header: Bytes, tree: Bytes, start: nat, n: nat) returns (r: Option<Endpoints>)
    requires |header| == 9 && start <= |tree|
    ensures r == EndpointsOf(header, tree, start, n)
  {
    var at, endpoints := start, [];
    JoinedNothing(EndpointsOf(header, tree, start, n));
    while |endpoints| < n
      invariant start <= at <= |tree| && |endpoints| <= n
      invariant EndpointsOf(header, tree, start, n) == Joined(endpoints, EndpointsOf(header, tree, at, n - |endpoints|))
      decreases |tree| - at
    {
      var ok, next := ReadDescriptor(tree, at);
      if !ok || tree[at + 1] == INTERFACE {
        return None;
      }
      if tree[at + 1] == ENDPOINT {
        if next - at < 7 {
          return None;
        }
        var good, companion := ReadCompanion(tree, next);
        if !good {
          return None;
        }
        var e := EndpointOf(header, tree[at..at + 7], companion);
        JoinedMore(endpoints, e, EndpointsOf(header, tree, next, n - |endpoints| - 1));
        endpoints := endpoints + [e];
      }
      at := next;
    }
    assert endpoints + [] == endpoints;
    return Some(Endpoints(endpoints, at));
  }

  /** fill_interfaces: for any bytes, it ends and reads inside the tree only. */
  method FillInterfaces(tree: Bytes, n: nat) returns (r: Option<seq<Interface>>)
    ensures r == InterfacesOf(tree, 0, n)
  {
    var at: nat, interfaces := 0, [];
    PrependNothing(InterfacesOf(tree, 0, n));
    while at < |tree| && |interfaces| < n
      invariant at <= |tree| && |interfaces| <= n
      invariant InterfacesOf(tree, 0, n) == Prepend(interfaces, InterfacesOf(tree, at, n - |interfaces|))
      decreases |tree| - at
    {
      var ok, next := ReadDescriptor(tree, at);
      if !ok {
        return None;
      }
      if tree[at + 1] == INTERFACE {
        if next - at < 9 {
          return None;
        }
        var endpoints := FillEndpoints(tree[at..at + 9], tree, next, tree[at + 4]);
        if endpoints.None? {
          return None;
        }
        var i := Interface(tree[at..at + 9], endpoints.value.list);
        PrependMore(interfaces, i, InterfacesOf(tree, endpoints.value.end, n - |interfaces| - 1));
        interfaces := interfaces + [i];
        next := endpoints.value.end;
      }
      at := next;
    }
    assert interfaces + [] == interfaces;
    r := if |interfaces| == n then Some(interfaces) else None;
  }

  // ----- printing a configuration -----

  predicate WellFormed(d: Bytes) {
    2 <= |d| < 256 && d[0] == |d|
  }

  predicate Unrelated(d: Bytes) {
    WellFormed(d) && d[1] != INTERFACE && d[1] != ENDPOINT && d[1] != COMPANION
  }

  /** An endpoint as a device lists it: its descriptor, maybe a companion, and descriptors of other kinds. */
  datatype ListedEndpoint = ListedEndpoint(descriptor: Bytes, companion: Option<Bytes>, others: seq<Bytes>)

  datatype ListedInterface = ListedInterface(descriptor: Bytes, others: seq<Bytes>, endpoints: seq<ListedEndpoint>)

  predicate AllUnrelated(ds: seq<Bytes>) { forall k :: 0 <= k < |ds| ==> Unrelated(ds[k]) }

  predicate GoodEndpoint(e: ListedEndpoint) {
    && WellFormed(e.descriptor) && e.descriptor[1] == ENDPOINT && |e.descriptor| >= 7
    && (e.companion.Some? ==> WellFormed(e.companion.value) && e.companion.value[1] == COMPANION && |e.companion.value| >= 6)
    && AllUnrelated(e.others)
  }

  predicate GoodEndpoints(es: seq<ListedEndpoint>) { forall k :: 0 <= k < |es| ==> GoodEndpoint(es[k]) }

  predicate GoodInterface(i: ListedInterface) {
    && WellFormed(i.descriptor) && i.descriptor[1] == INTERFACE && |i.descriptor| >= 9
    && i.descriptor[4] == |i.endpoints| && AllUnrelated(i.others) && GoodEndpoints(i.endpoints)
  }

  predicate GoodInterfaces(listed: seq<ListedInterface>) { forall k :: 0 <= k < |listed| ==> GoodInterface(listed[k]) }

  function PrintAll(ds: seq<Bytes>): Bytes {
    if ds == [] then [] else ds[0] + PrintAll(ds[1..])
  }

  /** What is printed after an endpoint's own descriptor. */
  function PrintAfter(e: ListedEndpoint): Bytes {
    (if e.companion.Some? then e.companion.value else []) + PrintAll(e.others)
  }

  function PrintEndpoints(es: seq<ListedEndpoint>): Bytes {
    if es == [] then [] else es[0].descriptor + (PrintAfter(es[0]) + PrintEndpoints(es[1..]))
  }

  function PrintInterface(i: ListedInterface): Bytes {
    i.descriptor + (PrintAll(i.others) + PrintEndpoints(i.endpoints))
  }

  function PrintInterfaces(listed: seq<ListedInterface>): Bytes {
    if listed == [] then [] else PrintInterface(listed[0]) + PrintInterfaces(listed[1..])
  }

  function MeantCompanion(e: ListedEndpoint): Option<Bytes>
    requires GoodEndpoint(e)
  {
    if e.companion.Some? then Some(e.companion.value[..6]) else None
  }

  function MeantEndpoints(header: Bytes, es: seq<ListedEndpoint>): seq<Endpoint>
    requires |header| == 9 && GoodEndpoints(es)
  {
    if es == [] then [] else
      [EndpointOf(header, es[0].descriptor[..7], MeantCompanion(es[0]))] + MeantEndpoints(header, es[1..])
  }

  function MeantInterface(i: ListedInterface): Interface
    requires GoodInterface(i)
  {
    Interface(i.descriptor[..9], MeantEndpoints(i.descriptor[..9], i.endpoints))
  }

  function Meant(listed: seq<ListedInterface>): seq<Interface>
    requires GoodInterfaces(listed)
  {
    if listed == [] then [] else [MeantInterface(listed[0])] + Meant(listed[1..])
  }

  // ----- parsing what was printed -----

  /** The bytes of `piece` stand in the tree from `at` on. */
  predicate At(tree: Bytes, at: nat, piece: Bytes) {
    at + |piece| <= |tree| && forall k {:trigger piece[k]} :: 0 <= k < |piece| ==> tree[at + k] == piece[k]
  }

  lemma AtSplit(tree: Bytes, at: nat, a: Bytes, b: Bytes)
    requires At(tree, at, a + b)
    ensures At(tree, at, a) && At(tree, at + |a|, b)
  {
    var c := a + b;
    forall k | 0 <= k < |a| ensures tree[at + k] == a[k] { assert c[k] == a[k]; }
    forall k | 0 <= k < |b| ensures tree[at + |a| + k] == b[k] { assert c[|a| + k] == b[k]; }
  }

  lemma AtSplit3(tree: Bytes, at: nat, a: Bytes, b: Bytes, c: Bytes)
    requires At(tree, at, a + (b + c))
    ensures At(tree, at, a) && At(tree, at + |a|, b) && At(tree, at + |a| + |b|, c)
  {
    AtSplit(tree, at, a, b + c);
    AtSplit(tree, at + |a|, b, c);
  }

  lemma AtSlice(tree: Bytes, at: nat, d: Bytes, n: nat)
    requires At(tree, at, d) && n <= |d|
    ensures tree[at..at + n] == d[..n]
  {
    forall k | 0 <= k < n ensures tree[at..at + n][k] == d[..n][k] { assert tree[at + k] == d[k]; }
  }

  /** Descriptors, endpoints and interfaces laid out in the tree from `at` up to `end`. */
  predicate LaidAll(tree: Bytes, at: nat, ds: seq<Bytes>, end: nat)
    decreases |ds|
  {
    if ds == [] then at == end <= |tree|
    else At(tree, at, ds[0]) && LaidAll(tree, at + |ds[0]|, ds[1..], end)
  }

  predicate LaidAfter(tree: Bytes, at: nat, e: ListedEndpoint, end: nat) {
    if e.companion.Some? then At(tree, at, e.companion.value) && LaidAll(tree, at + |e.companion.value|, e.others, end)
    else LaidAll(tree, at, e.others, end)
  }

  ghost predicate LaidEndpoints(tree: Bytes, at: nat, es: seq<ListedEndpoint>, end: nat)
    decreases |es|
  {
    if es == [] then at == end <= |tree|
    else
      && At(tree, at, es[0].descriptor)
      && exists mid: nat :: LaidAfter(tree, at + |es[0].descriptor|, es[0], mid) && LaidEndpoints(tree, mid, es[1..], end)
  }

  ghost predicate LaidInterface(tree: Bytes, at: nat, i: ListedInterface, end: nat) {
    && At(tree, at, i.descriptor)
    && exists mid: nat :: LaidAll(tree, at + |i.descriptor|, i.others, mid) && LaidEndpoints(tree, mid, i.endpoints, end)
  }

  lemma {:induction false} AllAreLaid(tree: Bytes, at: nat, ds: seq<Bytes>)
    requires At(tree, at, PrintAll(ds))
    ensures LaidAll(tree, at, ds, at + |PrintAll(ds)|)
    decreases |ds|
  {
    if ds != [] {
      AtSplit(tree, at, ds[0], PrintAll(ds[1..]));
      AllAreLaid(tree, at + |ds[0]|, ds[1..]);
    }
  }

  lemma AfterIsLaid(tree: Bytes, at: nat, e: ListedEndpoint)
    requires At(tree, at, PrintAfter(e))
    ensures LaidAfter(tree, at, e, at + |PrintAfter(e)|)
  {
    var c := if e.companion.Some? then e.companion.value else [];
    AtSplit(tree, at, c, PrintAll(e.others));
    AllAreLaid(tree, at + |c|, e.others);
  }

  lemma {:induction false} EndpointsAreLaid(tree: Bytes, at: nat, es: seq<ListedEndpoint>)
    requires At(tree, at, PrintEndpoints(es))
    ensures LaidEndpoints(tree, at, es, at + |PrintEndpoints(es)|)
    decreases |es|
  {
    if es != [] {
      var d, after, more := es[0].descriptor, PrintAfter(es[0]), PrintEndpoints(es[1..]);
      AtSplit3(tree, at, d, after, more);
      AfterIsLaid(tree, at + |d|, es[0]);
      EndpointsAreLaid(tree, at + |d| + |after|, es[1..]);
    }
  }

  lemma InterfaceIsLaid(tree: Bytes, at: nat, i: ListedInterface)
    requires At(tree, at, PrintInterface(i))
    ensures LaidInterface(tree, at, i, at + |PrintInterface(i)|)
  {
    var d, others, more := i.descriptor, PrintAll(i.others), PrintEndpoints(i.endpoints);
    AtSplit3(tree, at, d, others, more);
    AllAreLaid(tree, at + |d|, i.others);
    EndpointsAreLaid(tree, at + |d| + |others|, i.endpoints);
  }

  lemma EndAt(tree: Bytes, at: nat, d: Bytes)
    requires WellFormed(d) && At(tree, at, d)
    ensures End(tree, at) == Some(at + |d|) && tree[at + 1] == d[1]
  {
    assert tree[at + 0] == d[0] && tree[at + 1] == d[1];
  }

  /** Parsing from either place finds the same interfaces, and the same endpoints if some are wanted. */
  ghost predicate SameFrom(header: Bytes, tree: Bytes, a: nat, b: nat, n: nat)
    requires |header| == 9
  {
    && a <= |tree| && b <= |tree|
    && (n > 0 ==> EndpointsOf(header, tree, a, n) == EndpointsOf(header, tree, b, n))
    && (n > 0 ==> InterfacesOf(tree, a, n) == InterfacesOf(tree, b, n))
    && CountOf(tree, a, INTERFACE) == CountOf(tree, b, INTERFACE)
  }

  /** Descriptors of other kinds are skipped wherever an interface or an endpoint is looked for. */
  lemma {:induction false} SkipOthers(header: Bytes, tree: Bytes, at: nat, ds: seq<Bytes>, end: nat, n: nat)
    requires |header| == 9 && AllUnrelated(ds) && LaidAll(tree, at, ds, end)
    ensures SameFrom(header, tree, at, end, n)
    decreases |ds|
  {
    if ds != [] {
      EndAt(tree, at, ds[0]);
      SkipOthers(header, tree, at + |ds[0]|, ds[1..], end, n);
    }
  }

  /** And so is what follows an endpoint. */
  lemma SkipAfter(header: Bytes, tree: Bytes, at: nat, e: ListedEndpoint, end: nat, n: nat)
    requires |header| == 9 && GoodEndpoint(e) && LaidAfter(tree, at, e, end)
    ensures SameFrom(header, tree, at, end, n)
  {
    if e.companion.Some? {
      EndAt(tree, at, e.companion.value);
      SkipOthers(header, tree, at + |e.companion.value|, e.others, end, n);
    } else {
      SkipOthers(header, tree, at, e.others, end, n);
    }
  }

  /** No companion descriptor starts here. */
  predicate NoCompanion(tree: Bytes, at: nat) { |tree| - at < 2 || tree[at + 1] != COMPANION }

  /** The descriptor behind an endpoint is taken for its companion exactly when it is one. */
  lemma CompanionIsRead(tree: Bytes, at: nat, e: ListedEndpoint, end: nat)
    requires GoodEndpoint(e) && LaidAfter(tree, at, e, end) && NoCompanion(tree, end)
    ensures CompanionOf(tree, at) == Some(MeantCompanion(e))
  {
    if e.companion.Some? {
      EndAt(tree, at, e.companion.value);
      AtSlice(tree, at, e.companion.value, 6);
    } else if e.others != [] {
      EndAt(tree, at, e.others[0]);
    }
  }

  /** Parsing endpoints from `at` gives the first one listed there and then what is found behind its descriptor. */
  lemma EndpointIsRead(header: Bytes, tree: Bytes, at: nat, e: ListedEndpoint, end: nat, m: nat)
    requires |header| == 9 && GoodEndpoint(e) && m > 0 && NoCompanion(tree, end)
    requires At(tree, at, e.descriptor) && LaidAfter(tree, at + |e.descriptor|, e, end)
    ensures EndpointsOf(header, tree, at, m) ==
            Joined([EndpointOf(header, e.descriptor[..7], MeantCompanion(e))],
                   EndpointsOf(header, tree, at + |e.descriptor|, m - 1))
  {
    EndAt(tree, at, e.descriptor);
    AtSlice(tree, at, e.descriptor, 7);
    CompanionIsRead(tree, at + |e.descriptor|, e, end);
  }

  /** With more endpoints wanted, parsing goes on behind everything that belongs to the first one. */
  lemma FirstEndpoint(header: Bytes, tree: Bytes, at: nat, e: ListedEndpoint, end: nat, m: nat)
    requires |header| == 9 && GoodEndpoint(e) && NoCompanion(tree, end) && end <= |tree|
    requires At(tree, at, e.descriptor) && LaidAfter(tree, at + |e.descriptor|, e, end)
    ensures var one := [EndpointOf(header, e.descriptor[..7], MeantCompanion(e))];
            EndpointsOf(header, tree, at, m + 1) ==
            if m == 0 then Some(Endpoints(one, at + |e.descriptor|)) else Joined(one, EndpointsOf(header, tree, end, m))
  {
    EndpointIsRead(header, tree, at, e, end, m + 1);
    SkipAfter(header, tree, at + |e.descriptor|, e, end, m);
    var one := [EndpointOf(header, e.descriptor[..7], MeantCompanion(e))];
    assert one + [] == one;
  }

  lemma BehindFirst(tree: Bytes, at: nat, es: seq<ListedEndpoint>, after: nat) returns (mid: nat)
    requires LaidEndpoints(tree, at, es, after) && es != []
    ensures At(tree, at, es[0].descriptor) && LaidAfter(tree, at + |es[0].descriptor|, es[0], mid)
    ensures LaidEndpoints(tree, mid, es[1..], after)
  {
    mid :| LaidAfter(tree, at + |es[0].descriptor|, es[0], mid) && LaidEndpoints(tree, mid, es[1..], after);
  }

  lemma {:induction false} EndpointsCount(tree: Bytes, at: nat, es: seq<ListedEndpoint>, after: nat)
    requires GoodEndpoints(es) && LaidEndpoints(tree, at, es, after) && NoCompanion(tree, after)
    ensures CountOf(tree, at, INTERFACE) == CountOf(tree, after, INTERFACE) && NoCompanion(tree, at)
    decreases |es|
  {
    if es != [] {
      var next := at + |es[0].descriptor|;
      var mid := BehindFirst(tree, at, es, after);
      EndpointsCount(tree, mid, es[1..], after);
      EndAt(tree, at, es[0].descriptor);
      SkipAfter(seq(9, _ => 0), tree, next, es[0], mid, 0);
    }
  }

  lemma MeantOne(header: Bytes, es: seq<ListedEndpoint>)
    requires |header| == 9 && GoodEndpoints(es) && |es| == 1
    ensures MeantEndpoints(header, es) == [EndpointOf(header, es[0].descriptor[..7], MeantCompanion(es[0]))]
  {
    assert MeantEndpoints(header, es[1..]) == [];
  }

  /** The endpoints listed are found; parsing goes on behind the descriptor of the last one. */
  lemma {:induction false} EndpointsRoundTrip(header: Bytes, tree: Bytes, at: nat, es: seq<ListedEndpoint>, after: nat)
    returns (end: nat)
    requires |header| == 9 && GoodEndpoints(es) && LaidEndpoints(tree, at, es, after) && NoCompanion(tree, after)
    ensures EndpointsOf(header, tree, at, |es|) == Some(Endpoints(MeantEndpoints(header, es), end))
    ensures es == [] ==> end == at == after
    ensures es != [] ==> LaidAfter(tree, end, es[|es| - 1], after)
    decreases |es|
  {
    if es == [] {
      return at;
    }
    var e, m: nat := es[0], |es| - 1;
    var next := at + |e.descriptor|;
    var mid := BehindFirst(tree, at, es, after);
    EndpointsCount(tree, mid, es[1..], after);
    FirstEndpoint(header, tree, at, e, mid, m);
    if m == 0 {
      MeantOne(header, es);
      return next;
    }
    end := EndpointsRoundTrip(header, tree, mid, es[1..], after);
  }

  /** The interface descriptor is read, and the search for its endpoints goes on behind it. */
  lemma HeaderIsRead(tree: Bytes, at: nat, i: ListedInterface, e: Endpoints, n: nat)
    requires GoodInterface(i) && At(tree, at, i.descriptor) && n > 0
    requires EndpointsOf(i.descriptor[..9], tree, at + |i.descriptor|, |i.endpoints|) == Some(e)
    ensures InterfacesOf(tree, at, n) == Prepend([Interface(i.descriptor[..9], e.list)], InterfacesOf(tree, e.end, n - 1))
    ensures CountOf(tree, at, INTERFACE) == 1 + CountOf(tree, at + |i.descriptor|, INTERFACE) && NoCompanion(tree, at)
  {
    EndAt(tree, at, i.descriptor);
    AtSlice(tree, at, i.descriptor, 9);
    assert tree[at + 4] == i.descriptor[4];
  }

  lemma InterfaceRoundTrip(tree: Bytes, at: nat, i: ListedInterface, after: nat, n: nat)
    requires GoodInterface(i) && LaidInterface(tree, at, i, after) && n > 0 && NoCompanion(tree, after)
    ensures after <= |tree| && InterfacesOf(tree, at, n) == Prepend([MeantInterface(i)], InterfacesOf(tree, after, n - 1))
    ensures CountOf(tree, at, INTERFACE) == 1 + CountOf(tree, after, INTERFACE) && NoCompanion(tree, at)
  {
    var behind, header := at + |i.descriptor|, i.descriptor[..9];
    var mid: nat :| LaidAll(tree, behind, i.others, mid) && LaidEndpoints(tree, mid, i.endpoints, after);
    SkipOthers(header, tree, behind, i.others, mid, |i.endpoints|);
    EndpointsCount(tree, mid, i.endpoints, after);
    var end := EndpointsRoundTrip(header, tree, mid, i.endpoints, after);
    if i.endpoints == [] {
      SkipOthers(header, tree, behind, i.others, mid, n - 1);
      HeaderIsRead(tree, at, i, Endpoints([], behind), n);
    } else {
      SkipAfter(header, tree, end, i.endpoints[|i.endpoints| - 1], after, n - 1);
      HeaderIsRead(tree, at, i, Endpoints(MeantEndpoints(header, i.endpoints), end), n);
    }
  }

  /** Printing any list of interfaces and parsing it gives back those interfaces and endpoints, in order. */
  lemma {:induction false} InterfacesRoundTrip(tree: Bytes, at: nat, listed: seq<ListedInterface>)
    requires GoodInterfaces(listed) && At(tree, at, PrintInterfaces(listed)) && at + |PrintInterfaces(listed)| == |tree|
    ensures CountOf(tree, at, INTERFACE) == |listed|
    ensures InterfacesOf(tree, at, |listed|) == Some(Meant(listed))
    ensures NoCompanion(tree, at)
    decreases |listed|
  {
    if listed != [] {
      var first := PrintInterface(listed[0]);
      var after := at + |first|;
      AtSplit(tree, at, first, PrintInterfaces(listed[1..]));
      InterfaceIsLaid(tree, at, listed[0]);
      InterfacesRoundTrip(tree, after, listed[1..]);
      InterfaceRoundTrip(tree, at, listed[0], after, |listed|);
    }
  }

  /** With any unrelated descriptors in front; the configuration descriptor is one. */
  lemma PrintedIsMeant(tree: Bytes, before: seq<Bytes>, listed: seq<ListedInterface>)
    requires AllUnrelated(before) && GoodInterfaces(listed) && tree == PrintAll(before) + PrintInterfaces(listed)
    ensures CountOf(tree, 0, INTERFACE) == |listed| && InterfacesOf(tree, 0, |listed|) == Some(Meant(listed))
  {
    var a, b := PrintAll(before), PrintInterfaces(listed);
    assert At(tree, 0, a + b);
    AtSplit(tree, 0, a, b);
    AllAreLaid(tree, 0, before);
    SkipOthers(seq(9, _ => 0), tree, 0, before, |a|, |listed|);
    InterfacesRoundTrip(tree, |a|, listed);
  }

  /** get_device counts, then collects: it gets the interfaces that were printed. */
  method ParsePrinted(before: seq<Bytes>, listed: seq<ListedInterface>) returns (count: nat, r: Option<seq<Interface>>)
    requires AllUnrelated(before) && GoodInterfaces(listed)
    ensures count == |listed| && r == Some(Meant(listed))
  {
    var tree := PrintAll(before) + PrintInterfaces(listed);
    PrintedIsMeant(tree, before, listed);
    count := CountTree(tree, INTERFACE);
    r := FillInterfaces(tree, count);
  }
}
