/**
 The per-bank docker-compose generator (scripts/gen-bank-stacks.py): `transform` as a rewriting pass
 over a parsed compose file. A Python exception is None.
 */
module Compose {
  import opened Wrappers
  import opened Decimal

  // ---------- YAML values and ordered mappings ----------

  datatype Yaml =
    | Null
    | Bool(flag: bool)
    | Num(n: int)
    | Str(s: string)
    | List(items: seq<Yaml>)
    | Dict(pairs: Mapping)

  /** A Python dict in insertion order. */
  type Mapping = seq<(string, Yaml)>

  function Get(d: Mapping, k: string): Option<Yaml> {
    if d == [] then None else if d[0].0 == k then Some(d[0].1) else Get(d[1..], k)
  }

  predicate Has(d: Mapping, k: string) { Get(d, k).Some? }

  function GetOr(d: Mapping, k: string, default: Yaml): Yaml {
    match Get(d, k) case None => default case Some(v) => v
  }

  /** d[k] = v: in place if the key exists, appended otherwise. */
  function Set(d: Mapping, k: string, v: Yaml): Mapping {
    if d == [] then [(k, v)]
    else if d[0].0 == k then [(k, v)] + d[1..]
    else [d[0]] + Set(d[1..], k, v)
  }

  /** d.pop(k, None). */
  function Pop(d: Mapping, k: string): Mapping {
    if d == [] then []
    else if d[0].0 == k then Pop(d[1..], k)
    else [d[0]] + Pop(d[1..], k)
  }

  lemma {:induction false} GetAfterSet(d: Mapping, k: string, v: Yaml, j: string)
    ensures Get(Set(d, k, v), j) == if j == k then Some(v) else Get(d, j)
  {
    if d != [] && d[0].0 != k {
      GetAfterSet(d[1..], k, v, j);
      assert Set(d, k, v)[1..] == Set(d[1..], k, v);
    } else if d != [] {
      assert Set(d, k, v)[1..] == d[1..];
    }
  }

  lemma {:induction false} GetAfterPop(d: Mapping, k: string, j: string)
    ensures Get(Pop(d, k), j) == if j == k then None else Get(d, j)
  {
    if d != [] {
      GetAfterPop(d[1..], k, j);
      if d[0].0 != k {
        assert Pop(d, k)[1..] == Pop(d[1..], k);
      }
    }
  }

  /** Assigning the value a key already has changes nothing, not even the order. */
  lemma {:induction false} SetSame(d: Mapping, k: string, v: Yaml)
    requires Get(d, k) == Some(v)
    ensures Set(d, k, v) == d
  {
    if d[0].0 != k {
      SetSame(d[1..], k, v);
    }
  }

  lemma {:induction false} PopAbsent(d: Mapping, k: string)
    requires Get(d, k) == None
    ensures Pop(d, k) == d
  {
    if d != [] {
      PopAbsent(d[1..], k);
    }
  }

  lemma {:induction false} SetTwice(d: Mapping, k: string, v: Yaml, u: Yaml)
    ensures Set(Set(d, k, v), k, u) == Set(d, k, u)
  {
    if d != [] && d[0].0 != k {
      SetTwice(d[1..], k, v, u);
      assert Set(d, k, v)[1..] == Set(d[1..], k, v);
    }
  }

  /** Reassigning an existing key commutes with assigning another one. */
  lemma {:induction false} SetApart(d: Mapping, k: string, v: Yaml, j: string, x: Yaml)
    requires Has(d, k) && j != k
    ensures Set(Set(d, j, x), k, v) == Set(Set(d, k, v), j, x)
  {
    if d[0].0 == k {
      assert Set(d, k, v)[1..] == d[1..];
      assert Set(d, j, x) == [d[0]] + Set(d[1..], j, x);
    } else if d[0].0 == j {
      assert Set(d, j, x)[1..] == d[1..];
      assert Set(d, k, v)[1..] == Set(d[1..], k, v);
    } else {
      SetApart(d[1..], k, v, j, x);
      assert Set(d, j, x)[1..] == Set(d[1..], j, x);
      assert Set(d, k, v)[1..] == Set(d[1..], k, v);
    }
  }

  /** Removing one key commutes with reassigning another. */
  lemma {:induction false} PopApart(d: Mapping, k: string, j: string, x: Yaml)
    requires Has(d, j) && j != k
    ensures Pop(Set(d, j, x), k) == Set(Pop(d, k), j, x)
  {
    if d[0].0 == j {
      assert Set(d, j, x)[1..] == d[1..];
      assert Pop(d, k) == [d[0]] + Pop(d[1..], k);
    } else {
      PopApart(d[1..], k, j, x);
      assert Set(d, j, x)[1..] == Set(d[1..], j, x);
      if d[0].0 != k {
        assert Pop(d, k) == [d[0]] + Pop(d[1..], k);
      }
    }
  }

  // ---------- one service ----------

  const IMAGE_PREFIX := "exbanka-1-backend"
  const HOST_GATEWAY := "host.docker.internal:host-gateway"
  const GATEWAY := "api-gateway"

  predicate Observability(name: string) { name == "prometheus" || name == "grafana" }

  const PROFILES := List([Str("observability")])

  function Image(name: string): Yaml { Str(IMAGE_PREFIX + "-" + name + ":latest") }

  function DefaultBuild(name: string): Yaml {
    Dict([("context", Str("..")), ("dockerfile", Str(name + "/Dockerfile"))])
  }

  function PortList(port: int): Yaml { List([Str(FormatInt(port) + ":8080")]) }

  /** The build section with its context moved one level up. */
  function Rebase(name: string, b: Yaml): Yaml {
    if b.Dict? then
      if GetOr(b.pairs, "context", Str(".")) == Str(".") then Dict(Set(b.pairs, "context", Str(".."))) else b
    else DefaultBuild(name)
  }

  predicate Substring(s: string, t: string) {
    exists i :: 0 <= i <= |t| && s <= t[i..]
  }

  /** `HOST_GATEWAY in eh`, for the types that support it; only a list can then be appended to. */
  function ExtraHosts(eh: Yaml): Option<Yaml> {
    match eh
    case List(items) => Some(if Str(HOST_GATEWAY) in items then eh else List(items + [Str(HOST_GATEWAY)]))
    case Dict(pairs) => if Has(pairs, HOST_GATEWAY) then Some(eh) else None
    case Str(s) => if Substring(HOST_GATEWAY, s) then Some(eh) else None
    case _ => None
  }

  /** container_name, profiles, image and build. */
  function Common(name: string, svc: Mapping): Mapping {
    var d := Pop(svc, "container_name");
    var d := if Observability(name) then Set(d, "profiles", PROFILES) else d;
    match Get(d, "build")
    case None => d
    case Some(b) => Set(Set(d, "image", Image(name)), "build", Rebase(name, b))
  }

  /** ports and extra_hosts. */
  function Published(name: string, d: Mapping, port: int): Option<Mapping> {
    if name == GATEWAY then
      var d := Set(d, "ports", PortList(port));
      match ExtraHosts(GetOr(d, "extra_hosts", List([])))
      case None => None
      case Some(eh) => Some(Set(d, "extra_hosts", eh))
    else Some(Pop(d, "ports"))
  }

  function Service(name: string, svc: Yaml, port: int): Option<Yaml> {
    if !svc.Dict? then None
    else match Published(name, Common(name, svc.pairs), port)
      case None => None
      case Some(d) => Some(Dict(d))
  }

  // ---------- the document ----------

  datatype Bank = Bank(name: string, port: int)

  function Services(ss: Mapping, port: int): Option<Mapping> {
    if ss == [] then Some([])
    else match (Service(ss[0].0, ss[0].1, port), Services(ss[1..], port))
      case (Some(svc), Some(rest)) => Some([(ss[0].0, svc)] + rest)
      case _ => None
  }

  function Kept(doc: Mapping, k: string): Mapping {
    match Get(doc, k) case None => [] case Some(v) => [(k, v)]
  }

  function Assemble(name: string, ss: Mapping, doc: Mapping): Yaml {
    Dict([("name", Str(name))] + ([("services", Dict(ss))] + (Kept(doc, "volumes") + Kept(doc, "networks"))))
  }

  function Transform(root: Yaml, bank: Bank): Option<Yaml> {
    if !root.Dict? then None
    else
      var doc := Pop(root.pairs, "name");
      var ss := GetOr(doc, "services", Dict([]));
      if !ss.Dict? then None
      else match Services(ss.pairs, bank.port)
        case None => None
        case Some(out) => Some(Assemble(bank.name, out, doc))
  }

  // ---------- the pass in place ----------

  /** A mapping object; here, a service's build section. */
  class MapNode {
    var pairs: Mapping

    constructor (pairs: Mapping)
      ensures this.pairs == pairs
    {
      this.pairs := pairs;
    }
  }

  /** A list object; here, a service's extra_hosts. */
  class ListNode {
    var items: seq<Yaml>

    constructor (items: seq<Yaml>)
      ensures this.items == items
    {
      this.items := items;
    }
  }

  /** A mapping in which two entries are objects of their own: their value is the object's. */
  function Overlay(pairs: Mapping, build: Option<Mapping>, hosts: Option<seq<Yaml>>): Mapping {
    var d := if build.Some? then Set(pairs, "build", Dict(build.value)) else pairs;
    if hosts.Some? then Set(d, "extra_hosts", List(hosts.value)) else d
  }

  /** The two objects stand for entries the mapping has. */
  predicate Placed(pairs: Mapping, build: Option<Mapping>, hosts: Option<seq<Yaml>>) {
    (build.Some? ==> Has(pairs, "build")) && (hosts.Some? ==> Has(pairs, "extra_hosts"))
  }

  lemma OverlayGets(pairs: Mapping, build: Option<Mapping>, hosts: Option<seq<Yaml>>, k: string)
    ensures Get(Overlay(pairs, build, hosts), k) ==
      if k == "build" && build.Some? then Some(Dict(build.value))
      else if k == "extra_hosts" && hosts.Some? then Some(List(hosts.value))
      else Get(pairs, k)
  {
    var d := if build.Some? then Set(pairs, "build", Dict(build.value)) else pairs;
    if build.Some? {
      GetAfterSet(pairs, "build", Dict(build.value), k);
    }
    if hosts.Some? {
      GetAfterSet(d, "extra_hosts", List(hosts.value), k);
    }
  }

  lemma OverlayPops(pairs: Mapping, build: Option<Mapping>, hosts: Option<seq<Yaml>>, k: string)
    requires Placed(pairs, build, hosts) && k != "build" && k != "extra_hosts"
    ensures Overlay(Pop(pairs, k), build, hosts) == Pop(Overlay(pairs, build, hosts), k)
    ensures Placed(Pop(pairs, k), build, hosts)
  {
    var d := if build.Some? then Set(pairs, "build", Dict(build.value)) else pairs;
    GetAfterPop(pairs, k, "build");
    GetAfterPop(pairs, k, "extra_hosts");
    if build.Some? {
      PopApart(pairs, k, "build", Dict(build.value));
      GetAfterSet(pairs, "build", Dict(build.value), "extra_hosts");
    }
    if hosts.Some? {
      PopApart(d, k, "extra_hosts", List(hosts.value));
    }
  }

  lemma OverlaySets(pairs: Mapping, build: Option<Mapping>, hosts: Option<seq<Yaml>>, k: string, v: Yaml)
    requires Placed(pairs, build, hosts) && k != "build" && k != "extra_hosts"
    ensures Overlay(Set(pairs, k, v), build, hosts) == Set(Overlay(pairs, build, hosts), k, v)
    ensures Placed(Set(pairs, k, v), build, hosts)
  {
    var d := if build.Some? then Set(pairs, "build", Dict(build.value)) else pairs;
    GetAfterSet(pairs, k, v, "build");
    GetAfterSet(pairs, k, v, "extra_hosts");
    if build.Some? {
      SetApart(pairs, "build", Dict(build.value), k, v);
      GetAfterSet(pairs, "build", Dict(build.value), "extra_hosts");
    }
    if hosts.Some? {
      SetApart(d, "extra_hosts", List(hosts.value), k, v);
    }
  }

  /** Replacing the build section, or writing into it, is assigning it. */
  lemma OverlayBuild(pairs: Mapping, build: Option<Mapping>, hosts: Option<seq<Yaml>>, v: Yaml, now: Mapping)
    requires Placed(pairs, build, hosts) && Has(pairs, "build")
    ensures Overlay(Set(pairs, "build", v), Some(now), hosts) == Set(Overlay(pairs, build, hosts), "build", Dict(now))
    ensures Placed(Set(pairs, "build", v), Some(now), hosts)
  {
    var d := if build.Some? then Set(pairs, "build", Dict(build.value)) else pairs;
    GetAfterSet(pairs, "build", v, "build");
    GetAfterSet(pairs, "build", v, "extra_hosts");
    SetTwice(pairs, "build", v, Dict(now));
    if build.Some? {
      SetTwice(pairs, "build", Dict(build.value), Dict(now));
      GetAfterSet(pairs, "build", Dict(build.value), "build");
    }
    if hosts.Some? {
      SetApart(d, "build", Dict(now), "extra_hosts", List(hosts.value));
    }
  }

  /** Replacing the host list, or appending to it, is assigning it. */
  lemma OverlayHosts(pairs: Mapping, build: Option<Mapping>, hosts: Option<seq<Yaml>>, v: Yaml, now: seq<Yaml>)
    requires Placed(pairs, build, hosts)
    ensures Overlay(Set(pairs, "extra_hosts", v), build, Some(now)) == Set(Overlay(pairs, build, hosts), "extra_hosts", List(now))
    ensures Placed(Set(pairs, "extra_hosts", v), build, Some(now))
  {
    var d := if build.Some? then Set(pairs, "build", Dict(build.value)) else pairs;
    GetAfterSet(pairs, "extra_hosts", v, "extra_hosts");
    GetAfterSet(pairs, "extra_hosts", v, "build");
    if build.Some? {
      SetApart(pairs, "build", Dict(build.value), "extra_hosts", v);
    }
    SetTwice(d, "extra_hosts", v, List(now));
    if hosts.Some? {
      SetTwice(d, "extra_hosts", List(hosts.value), List(now));
    }
  }

  ghost function BuildOf(m: MapNode?): Option<Mapping>
    reads m
  {
    if m == null then None else Some(m.pairs)
  }

  ghost function HostsOf(l: ListNode?): Option<seq<Yaml>>
    reads l
  {
    if l == null then None else Some(l.items)
  }

  /** A service: a mapping object whose build mapping and extra_hosts list are objects too. */
  class Node {
    var pairs: Mapping
    var build: MapNode?
    var hosts: ListNode?

    ghost predicate Valid()
      reads this
    {
      && (if build != null then Has(pairs, "build") else Has(pairs, "build") ==> !Get(pairs, "build").value.Dict?)
      && (if hosts != null then Has(pairs, "extra_hosts") else Has(pairs, "extra_hosts") ==> !Get(pairs, "extra_hosts").value.List?)
    }

    ghost function Repr(): set<object>
      reads this
    {
      {this} + (if build == null then {} else {build}) + (if hosts == null then {} else {hosts})
    }

    ghost function View(): Mapping
      reads this, build, hosts
    {
      Overlay(pairs, BuildOf(build), HostsOf(hosts))
    }

    constructor (pairs: Mapping, build: MapNode?, hosts: ListNode?)
      ensures this.pairs == pairs && this.build == build && this.hosts == hosts
    {
      this.pairs, this.build, this.hosts := pairs, build, hosts;
    }

    method Remove(k: string)
      requires Valid() && k != "build" && k != "extra_hosts"
      modifies this`pairs
      ensures Valid() && View() == Pop(old(View()), k)
    {
      OverlayPops(pairs, BuildOf(build), HostsOf(hosts), k);
      GetAfterPop(pairs, k, "build");
      GetAfterPop(pairs, k, "extra_hosts");
      pairs := Pop(pairs, k);
    }

    method Assign(k: string, v: Yaml)
      requires Valid() && k != "build" && k != "extra_hosts"
      modifies this`pairs
      ensures Valid() && View() == Set(old(View()), k, v)
    {
      OverlaySets(pairs, BuildOf(build), HostsOf(hosts), k, v);
      GetAfterSet(pairs, k, v, "build");
      GetAfterSet(pairs, k, v, "extra_hosts");
      pairs := Set(pairs, k, v);
    }
  }

  /** The build section of a service: written into if it is a mapping, replaced by a new mapping otherwise. */
  method RewriteBuild(svcName: string, svc: Node)
    requires svc.Valid() && Has(svc.pairs, "build")
    modifies svc, svc.build
    ensures svc.Valid() && svc.hosts == old(svc.hosts) && (svc.build == old(svc.build) || fresh(svc.build))
    ensures Has(old(svc.View()), "build")
    ensures svc.View() == Set(old(svc.View()), "build", Rebase(svcName, Get(old(svc.View()), "build").value))
  {
    ghost var pairs, build, hosts := svc.pairs, BuildOf(svc.build), HostsOf(svc.hosts);
    OverlayGets(pairs, build, hosts, "build");
    if svc.build != null {
      if GetOr(svc.build.pairs, "context", Str(".")) == Str(".") {
        svc.build.pairs := Set(svc.build.pairs, "context", Str(".."));
      }
      OverlayBuild(pairs, build, hosts, Get(pairs, "build").value, svc.build.pairs);
      SetSame(pairs, "build", Get(pairs, "build").value);
    } else {
      GetAfterSet(pairs, "build", Null, "build");
      GetAfterSet(pairs, "build", Null, "extra_hosts");
      svc.build := new MapNode([("context", Str("..")), ("dockerfile", Str(svcName + "/Dockerfile"))]);
      svc.pairs := Set(svc.pairs, "build", Null);
      OverlayBuild(pairs, build, hosts, Null, svc.build.pairs);
    }
  }

  method RewriteCommon(svcName: string, svc: Node)
    requires svc.Valid()
    modifies svc, svc.build
    ensures svc.Valid() && svc.hosts == old(svc.hosts) && (svc.build == old(svc.build) || fresh(svc.build))
    ensures svc.View() == Common(svcName, old(svc.View()))
  {
    svc.Remove("container_name");
    if svcName == "prometheus" || svcName == "grafana" {
      svc.Assign("profiles", PROFILES);
    }
    ghost var before := svc.View();
    OverlayGets(svc.pairs, BuildOf(svc.build), HostsOf(svc.hosts), "build");
    if Has(svc.pairs, "build") {
      svc.Assign("image", Image(svcName));
      GetAfterSet(before, "image", Image(svcName), "build");
      OverlayGets(svc.pairs, BuildOf(svc.build), HostsOf(svc.hosts), "build");
      RewriteBuild(svcName, svc);
    }
  }

  /** The host list of the gateway: appended to if it is a list, created if there is none. */
  method RewriteHosts(svc: Node) returns (ok: bool)
    requires svc.Valid()
    modifies svc, svc.hosts
    ensures svc.Valid() && svc.build == old(svc.build) && (svc.hosts == old(svc.hosts) || fresh(svc.hosts))
    ensures var eh := ExtraHosts(GetOr(old(svc.View()), "extra_hosts", List([])));
      ok == eh.Some? && (ok ==> svc.View() == Set(old(svc.View()), "extra_hosts", eh.value))
  {
    ghost var pairs, build, hosts := svc.pairs, BuildOf(svc.build), HostsOf(svc.hosts);
    OverlayGets(pairs, build, hosts, "extra_hosts");
    if svc.hosts != null {
      if Str(HOST_GATEWAY) !in svc.hosts.items {
        svc.hosts.items := svc.hosts.items + [Str(HOST_GATEWAY)];
      }
      OverlayHosts(pairs, build, hosts, Get(pairs, "extra_hosts").value, svc.hosts.items);
      SetSame(pairs, "extra_hosts", Get(pairs, "extra_hosts").value);
      return true;
    }
    if Has(svc.pairs, "extra_hosts") {
      ok := ExtraHosts(Get(svc.pairs, "extra_hosts").value).Some?;
      if ok {
        SetSame(svc.View(), "extra_hosts", Get(pairs, "extra_hosts").value);
      }
      return;
    }
    GetAfterSet(pairs, "extra_hosts", Null, "build");
    GetAfterSet(pairs, "extra_hosts", Null, "extra_hosts");
    svc.hosts := new ListNode([Str(HOST_GATEWAY)]);
    svc.pairs := Set(svc.pairs, "extra_hosts", Null);
    OverlayHosts(pairs, build, hosts, Null, svc.hosts.items);
    assert [] + [Str(HOST_GATEWAY)] == [Str(HOST_GATEWAY)];
    return true;
  }

  method RewritePublished(svcName: string, svc: Node, port: int) returns (ok: bool)
    requires svc.Valid()
    modifies svc, svc.hosts
    ensures svc.Valid() && svc.build == old(svc.build) && (svc.hosts == old(svc.hosts) || fresh(svc.hosts))
    ensures ok == Published(svcName, old(svc.View()), port).Some?
    ensures ok ==> svc.View() == Published(svcName, old(svc.View()), port).value
  {
    if svcName == GATEWAY {
      svc.Assign("ports", PortList(port));
      ok := RewriteHosts(svc);
    } else {
      svc.Remove("ports");
      ok := true;
    }
  }

  /** A loaded compose file: its services are objects, shared by everyone who holds the file. */
  datatype Loaded = Loaded(rest: Mapping, services: seq<(string, Node)>)

  ghost function NodesOf(ss: seq<(string, Node)>): set<Node> {
    set x | x in ss :: x.1
  }

  /** The services and everything inside them. */
  ghost function ReprOf(ss: seq<(string, Node)>): set<object>
    reads NodesOf(ss)
  {
    set x, o | x in ss && o in x.1.Repr() :: o
  }

  ghost predicate AllValid(ss: seq<(string, Node)>)
    reads NodesOf(ss)
  {
    forall i :: 0 <= i < |ss| ==> ss[i].1.Valid()
  }

  ghost function Values(ss: seq<(string, Node)>): (vs: Mapping)
    reads ReprOf(ss), NodesOf(ss)
    ensures |vs| == |ss| && forall i :: 0 <= i < |ss| ==> vs[i] == (ss[i].0, Dict(ss[i].1.View()))
  {
    if ss == [] then []
    else
      assert forall x :: x in ss[1..] ==> x in ss;
      assert ss[0] in ss && ss[0].1.Repr() <= ReprOf(ss);
      [(ss[0].0, Dict(ss[0].1.View()))] + Values(ss[1..])
  }

  /** The document as it stands. */
  ghost function ValueOf(root: Loaded): Yaml
    reads ReprOf(root.services), NodesOf(root.services)
  {
    Dict(root.rest + [("services", Dict(Values(root.services)))])
  }

  ghost predicate WellFormed(root: Loaded)
    reads NodesOf(root.services)
  {
    !Has(root.rest, "services") && AllValid(root.services)
  }

  /** copy.deepcopy of one service: the nested objects are copied too. */
  method CopyNode(node: Node) returns (copy: Node)
    requires node.Valid()
    ensures fresh(copy.Repr()) && copy.Valid() && copy.View() == node.View()
  {
    var build: MapNode? := null;
    if node.build != null {
      build := new MapNode(node.build.pairs);
    }
    var hosts: ListNode? := null;
    if node.hosts != null {
      hosts := new ListNode(node.hosts.items);
    }
    copy := new Node(node.pairs, build, hosts);
  }

  /** One pass of the loop body over one service. */
  method Rewrite(svcName: string, svc: Node, port: int) returns (ok: bool)
    requires svc.Valid()
    modifies svc, svc.build, svc.hosts
    ensures svc.Valid() && fresh(svc.Repr() - old(svc.Repr()))
    ensures ok == Service(svcName, Dict(old(svc.View())), port).Some?
    ensures ok ==> Service(svcName, Dict(old(svc.View())), port) == Some(Dict(svc.View()))
  {
    RewriteCommon(svcName, svc);
    ok := RewritePublished(svcName, svc, port);
  }

  /** The value a service is dumped as. */
  method Dump(svc: Node) returns (d: Mapping)
    ensures d == svc.View()
  {
    d := svc.pairs;
    if svc.build != null {
      d := Set(d, "build", Dict(svc.build.pairs));
    }
    if svc.hosts != null {
      d := Set(d, "extra_hosts", List(svc.hosts.items));
    }
  }

  /** One service: rewritten in a deep copy, of which nothing is shared with the original. */
  method RewriteCopy(svcName: string, svc: Node, port: int) returns (out: Option<Yaml>)
    requires svc.Valid()
    ensures svc.Valid() && svc.View() == old(svc.View())
    ensures out == Service(svcName, Dict(svc.View()), port)
  {
    var copy := CopyNode(svc);
    var ok := Rewrite(svcName, copy, port);
    if !ok {
      return None;
    }
    var d := Dump(copy);
    return Some(Dict(d));
  }

  /** The loop over the services. */
  method RewriteAll(ss: seq<(string, Node)>, port: int, ghost vals: Mapping) returns (out: Option<Mapping>)
    requires AllValid(ss) && |vals| == |ss|
    requires forall i :: 0 <= i < |ss| ==> vals[i] == (ss[i].0, Dict(ss[i].1.View()))
    ensures out == Services(vals, port)
  {
    var done: Mapping := [];
    for k := 0 to |ss|
      invariant |done| == k && AllValid(ss)
      invariant forall i :: k <= i < |ss| ==> vals[i] == (ss[i].0, Dict(ss[i].1.View()))
      invariant forall i :: 0 <= i < k ==> done[i].0 == vals[i].0 && Service(vals[i].0, vals[i].1, port) == Some(done[i].1)
    {
      var svc := RewriteCopy(ss[k].0, ss[k].1, port);
      if svc.None? {
        ServicesUndefined(vals, port, k);
        return None;
      }
      done := done + [(ss[k].0, svc.value)];
    }
    ServicesElementwise(vals, done, port);
    return Some(done);
  }

  /** transform: rewrites a deep copy in place; nothing of the root is touched, however deep. */
  method TransformCopy(root: Loaded, bank: Bank) returns (out: Option<Yaml>)
    requires WellFormed(root)
    ensures WellFormed(root) && ValueOf(root) == old(ValueOf(root))
    ensures out == Transform(old(ValueOf(root)), bank)
  {
    ghost var vals := Values(root.services);
    LoadedTransform(root.rest, vals, bank);
    var services := RewriteAll(root.services, bank.port, vals);
    assert Values(root.services) == vals;
    if services.None? {
      return None;
    }
    return Some(Assemble(bank.name, services.value, Pop(root.rest, "name")));
  }

  /** main's loop: every bank's stack is generated from the same, unchanged root. */
  method GenerateStacks(root: Loaded, banks: seq<Bank>) returns (stacks: seq<Option<Yaml>>)
    requires WellFormed(root)
    ensures |stacks| == |banks|
    ensures forall i :: 0 <= i < |banks| ==> stacks[i] == Transform(ValueOf(root), banks[i])
  {
    stacks := [];
    ghost var doc := ValueOf(root);
    for k := 0 to |banks|
      invariant |stacks| == k && WellFormed(root) && ValueOf(root) == doc
      invariant forall i :: 0 <= i < k ==> stacks[i] == Transform(doc, banks[i])
    {
      var stack := TransformCopy(root, banks[k]);
      stacks := stacks + [stack];
    }
  }

  lemma {:induction false} ServicesElementwise(ss: Mapping, out: Mapping, port: int)
    requires |ss| == |out|
    requires forall i :: 0 <= i < |ss| ==> out[i].0 == ss[i].0 && Service(ss[i].0, ss[i].1, port) == Some(out[i].1)
    ensures Services(ss, port) == Some(out)
  {
    if ss != [] {
      ServicesElementwise(ss[1..], out[1..], port);
      assert out == [(ss[0].0, out[0].1)] + out[1..];
    }
  }

  lemma {:induction false} ServicesUndefined(ss: Mapping, port: int, k: nat)
    requires k < |ss| && Service(ss[k].0, ss[k].1, port) == None
    ensures Services(ss, port) == None
  {
    if k > 0 {
      ServicesUndefined(ss[1..], port, k - 1);
    }
  }

  /** Where transform looks into a loaded document. */
  lemma LoadedTransform(rest: Mapping, ss: Mapping, bank: Bank)
    requires !Has(rest, "services")
    ensures Transform(Dict(rest + [("services", Dict(ss))]), bank) ==
      match Services(ss, bank.port)
      case None => None
      case Some(out) => Some(Assemble(bank.name, out, Pop(rest, "name")))
  {
    LoadedGets(rest, ss, "services");
    LoadedGets(rest, ss, "volumes");
    LoadedGets(rest, ss, "networks");
  }

  lemma LoadedGets(rest: Mapping, ss: Mapping, k: string)
    requires k != "name"
    ensures var doc := Pop(rest + [("services", Dict(ss))], "name");
      Get(doc, k) == if Has(rest, k) || k != "services" then Get(Pop(rest, "name"), k) else Some(Dict(ss))
  {
    var last := [("services", Dict(ss))];
    GetAfterPop(rest + last, "name", k);
    GetAfterPop(rest, "name", k);
    GetConcat(rest, last, k);
    assert last[1..] == [];
  }

  // ---------- normal forms ----------

  /** A service on which the pass has nothing left to do but choose the gateway port. */
  predicate Normal(name: string, d: Mapping) {
    && !Has(d, "container_name")
    && (Observability(name) ==> Get(d, "profiles") == Some(PROFILES))
    && (Has(d, "build") ==> Get(d, "image") == Some(Image(name)) && Rebase(name, Get(d, "build").value) == Get(d, "build").value)
    && (if name == GATEWAY
        then Has(d, "ports") && ExtraHosts(GetOr(d, "extra_hosts", List([]))) == Get(d, "extra_hosts")
        else !Has(d, "ports"))
  }

  lemma RebaseSettles(name: string, b: Yaml)
    ensures Rebase(name, Rebase(name, b)) == Rebase(name, b)
  {
    if b.Dict? {
      GetAfterSet(b.pairs, "context", Str(".."), "context");
    }
  }

  lemma ExtraHostsSettles(eh: Yaml)
    requires ExtraHosts(eh).Some?
    ensures ExtraHosts(ExtraHosts(eh).value) == ExtraHosts(eh)
  {
  }

  /** What the common part leaves under each key. */
  lemma CommonGets(name: string, svc: Mapping, k: string)
    ensures Get(Common(name, svc), k) ==
      if k == "container_name" then None
      else if k == "profiles" && Observability(name) then Some(PROFILES)
      else if k == "image" && Has(svc, "build") then Some(Image(name))
      else if k == "build" && Has(svc, "build") then Some(Rebase(name, Get(svc, "build").value))
      else Get(svc, k)
  {
    GetAfterPop(svc, "container_name", k);
    GetAfterPop(svc, "container_name", "build");
    var d0 := Pop(svc, "container_name");
    GetAfterSet(d0, "profiles", PROFILES, k);
    GetAfterSet(d0, "profiles", PROFILES, "build");
    var d1 := if Observability(name) then Set(d0, "profiles", PROFILES) else d0;
    if Has(svc, "build") {
      GetAfterSet(d1, "image", Image(name), k);
      GetAfterSet(Set(d1, "image", Image(name)), "build", Rebase(name, Get(svc, "build").value), k);
    }
  }

  /** What the published part leaves under each key. */
  lemma PublishedGets(name: string, d: Mapping, port: int, k: string)
    requires Published(name, d, port).Some?
    ensures Get(Published(name, d, port).value, k) ==
      if k == "ports" then (if name == GATEWAY then Some(PortList(port)) else None)
      else if k == "extra_hosts" && name == GATEWAY then ExtraHosts(GetOr(d, "extra_hosts", List([])))
      else Get(d, k)
  {
    if name == GATEWAY {
      GetAfterSet(d, "ports", PortList(port), k);
      GetAfterSet(d, "ports", PortList(port), "extra_hosts");
      var d1 := Set(d, "ports", PortList(port));
      GetAfterSet(d1, "extra_hosts", ExtraHosts(GetOr(d1, "extra_hosts", List([]))).value, k);
    } else {
      GetAfterPop(d, "ports", k);
    }
  }

  /** Every service the pass emits is in normal form. */
  lemma ServiceIsNormal(name: string, svc: Mapping, port: int)
    requires Published(name, Common(name, svc), port).Some?
    ensures Normal(name, Published(name, Common(name, svc), port).value)
  {
    var c := Common(name, svc);
    var d := Published(name, c, port).value;
    PublishedGets(name, c, port, "container_name");
    PublishedGets(name, c, port, "profiles");
    PublishedGets(name, c, port, "image");
    PublishedGets(name, c, port, "build");
    PublishedGets(name, c, port, "ports");
    PublishedGets(name, c, port, "extra_hosts");
    CommonGets(name, svc, "container_name");
    CommonGets(name, svc, "profiles");
    CommonGets(name, svc, "image");
    CommonGets(name, svc, "build");
    if Has(svc, "build") {
      RebaseSettles(name, Get(svc, "build").value);
    }
    if name == GATEWAY {
      PublishedNeedsHosts(c, port);
      ExtraHostsSettles(GetOr(c, "extra_hosts", List([])));
    }
  }

  lemma PublishedNeedsHosts(d: Mapping, port: int)
    ensures Published(GATEWAY, d, port).Some? <==> ExtraHosts(GetOr(d, "extra_hosts", List([]))).Some?
  {
    GetAfterSet(d, "ports", PortList(port), "extra_hosts");
  }

  /** Choosing the gateway port, and touching nothing else. */
  function SetPort(name: string, d: Mapping, port: int): Mapping {
    if name == GATEWAY then Set(d, "ports", PortList(port)) else d
  }

  /** On a normal form the pass only chooses the port. */
  lemma NormalIsFixed(name: string, d: Mapping, port: int)
    requires Normal(name, d)
    ensures Common(name, d) == d
    ensures Published(name, d, port) == Some(SetPort(name, d, port))
  {
    PopAbsent(d, "container_name");
    if Observability(name) {
      SetSame(d, "profiles", PROFILES);
    }
    if Has(d, "build") {
      SetSame(d, "image", Image(name));
      SetSame(d, "build", Get(d, "build").value);
    }
    if name == GATEWAY {
      var d1 := Set(d, "ports", PortList(port));
      GetAfterSet(d, "ports", PortList(port), "extra_hosts");
      SetSame(d1, "extra_hosts", Get(d, "extra_hosts").value);
    } else {
      PopAbsent(d, "ports");
    }
  }

  /** The port is the only thing in which two banks' versions of a service differ. */
  lemma PortIsIndependent(name: string, c: Mapping, p: int, q: int)
    ensures Published(name, c, p).Some? <==> Published(name, c, q).Some?
    ensures Published(name, c, p).Some? ==>
      Published(name, c, q) == Some(SetPort(name, Published(name, c, p).value, q))
  {
    if name == GATEWAY {
      PublishedNeedsHosts(c, p);
      PublishedNeedsHosts(c, q);
      GetAfterSet(c, "ports", PortList(p), "extra_hosts");
      GetAfterSet(c, "ports", PortList(q), "extra_hosts");
      GetAfterSet(c, "ports", PortList(p), "ports");
      var eh := ExtraHosts(GetOr(c, "extra_hosts", List([])));
      if eh.Some? {
        SetApart(Set(c, "ports", PortList(p)), "ports", PortList(q), "extra_hosts", eh.value);
        SetTwice(c, "ports", PortList(p), PortList(q));
      }
    }
  }

  // ---------- whole documents ----------

  function SetPorts(ss: Mapping, port: int): Mapping {
    if ss == [] then []
    else [(ss[0].0, if ss[0].1.Dict? then Dict(SetPort(ss[0].0, ss[0].1.pairs, port)) else ss[0].1)] + SetPorts(ss[1..], port)
  }

  /** The same stack for another bank: a new name, a new gateway port, everything else verbatim. */
  function Rebrand(doc: Yaml, bank: Bank): Yaml {
    if !doc.Dict? then doc
    else
      var ss := GetOr(doc.pairs, "services", Dict([]));
      Dict(Set(Set(doc.pairs, "name", Str(bank.name)), "services", if ss.Dict? then Dict(SetPorts(ss.pairs, bank.port)) else ss))
  }

  lemma {:induction false} ServicesRebrand(ss: Mapping, p: int, q: int)
    ensures Services(ss, p).Some? <==> Services(ss, q).Some?
    ensures Services(ss, p).Some? ==> Services(ss, q) == Some(SetPorts(Services(ss, p).value, q))
  {
    if ss != [] {
      ServicesRebrand(ss[1..], p, q);
      if ss[0].1.Dict? {
        PortIsIndependent(ss[0].0, Common(ss[0].0, ss[0].1.pairs), p, q);
      }
      if Services(ss, p).Some? {
        assert Services(ss, p).value[1..] == Services(ss[1..], p).value;
      }
    }
  }

  lemma {:induction false} ServicesAgain(ss: Mapping, p: int, q: int)
    requires Services(ss, p).Some?
    ensures Services(Services(ss, p).value, q) == Some(SetPorts(Services(ss, p).value, q))
  {
    if ss != [] {
      ServicesAgain(ss[1..], p, q);
      var name, svc := ss[0].0, ss[0].1;
      ServiceIsNormal(name, svc.pairs, p);
      var d := Published(name, Common(name, svc.pairs), p).value;
      NormalIsFixed(name, d, q);
      assert Services(ss, p).value == [(name, Dict(d))] + Services(ss[1..], p).value;
      assert Services(ss, p).value[1..] == Services(ss[1..], p).value;
    }
  }

  lemma {:induction false} GetConcat(a: Mapping, b: Mapping, k: string)
    ensures Get(a + b, k) == if Has(a, k) then Get(a, k) else Get(b, k)
  {
    if a == [] {
      assert a + b == b;
    } else {
      assert (a + b)[1..] == a[1..] + b;
      GetConcat(a[1..], b, k);
    }
  }

  lemma SetFirst(k: string, v: Yaml, rest: Mapping, j: string, x: Yaml)
    ensures Set([(k, v)] + rest, j, x) == if j == k then [(k, x)] + rest else [(k, v)] + Set(rest, j, x)
  {
    assert ([(k, v)] + rest)[1..] == rest;
  }

  lemma KeptGets(doc: Mapping, k: string, j: string)
    ensures Get(Kept(doc, k), j) == if j == k then Get(doc, k) else None
  {
    if Get(doc, k).Some? {
      assert Kept(doc, k)[1..] == [];
    }
  }

  /** Looking into an assembled document. */
  lemma AssembledGets(name: string, ss: Mapping, doc: Mapping, k: string)
    ensures Get(Assemble(name, ss, doc).pairs, k) ==
      if k == "name" then Some(Str(name))
      else if k == "services" then Some(Dict(ss))
      else if k == "volumes" || k == "networks" then Get(doc, k)
      else None
    ensures k != "name" ==> Get(Pop(Assemble(name, ss, doc).pairs, "name"), k) == Get(Assemble(name, ss, doc).pairs, k)
  {
    var v, n := Kept(doc, "volumes"), Kept(doc, "networks");
    KeptGets(doc, "volumes", k);
    KeptGets(doc, "networks", k);
    GetConcat(v, n, k);
    GetConcat([("services", Dict(ss))], v + n, k);
    GetConcat([("name", Str(name))], [("services", Dict(ss))] + (v + n), k);
    assert [("services", Dict(ss))][1..] == [] && [("name", Str(name))][1..] == [];
    GetAfterPop(Assemble(name, ss, doc).pairs, "name", k);
  }

  lemma AssembledRebrand(name: string, ss: Mapping, doc: Mapping, bank: Bank)
    ensures Rebrand(Assemble(name, ss, doc), bank) == Assemble(bank.name, SetPorts(ss, bank.port), doc)
  {
    AssembledGets(name, ss, doc, "services");
    var tail := Kept(doc, "volumes") + Kept(doc, "networks");
    SetFirst("name", Str(name), [("services", Dict(ss))] + tail, "name", Str(bank.name));
    var out := Dict(SetPorts(ss, bank.port));
    SetFirst("name", Str(bank.name), [("services", Dict(ss))] + tail, "services", out);
    SetFirst("services", Dict(ss), tail, "services", out);
  }

  /** Reassembling an assembled document keeps its volumes and networks. */
  lemma Reassembled(name: string, ss: Mapping, doc: Mapping, name': string, ss': Mapping)
    ensures Assemble(name', ss', Pop(Assemble(name, ss, doc).pairs, "name")) == Assemble(name', ss', doc)
  {
    AssembledGets(name, ss, doc, "volumes");
    AssembledGets(name, ss, doc, "networks");
  }

  /** Two banks' stacks differ in the project name and the gateway's port list, and in nothing else. */
  lemma BanksDifferInNameAndPort(root: Yaml, a: Bank, b: Bank)
    ensures Transform(root, a).Some? <==> Transform(root, b).Some?
    ensures Transform(root, a).Some? ==> Transform(root, b) == Some(Rebrand(Transform(root, a).value, b))
  {
    if root.Dict? {
      var doc := Pop(root.pairs, "name");
      var ss := GetOr(doc, "services", Dict([]));
      if ss.Dict? {
        ServicesRebrand(ss.pairs, a.port, b.port);
        if Services(ss.pairs, a.port).Some? {
          AssembledRebrand(a.name, Services(ss.pairs, a.port).value, doc, b);
        }
      }
    }
  }

  /** Absorption: generating from an already generated stack is generating from the root. */
  lemma Absorption(root: Yaml, a: Bank, b: Bank)
    requires Transform(root, a).Some?
    ensures Transform(Transform(root, a).value, b) == Transform(root, b)
  {
    var doc := Pop(root.pairs, "name");
    var ss := GetOr(doc, "services", Dict([])).pairs;
    var out := Services(ss, a.port).value;
    AssembledGets(a.name, out, doc, "services");
    ServicesAgain(ss, a.port, b.port);
    Reassembled(a.name, out, doc, b.name, SetPorts(out, b.port));
    BanksDifferInNameAndPort(root, a, b);
    AssembledRebrand(a.name, out, doc, b);
  }

  lemma Idempotence(root: Yaml, a: Bank)
    requires Transform(root, a).Some?
    ensures Transform(Transform(root, a).value, a) == Transform(root, a)
  {
    Absorption(root, a, a);
  }

  /** A service the script can process: a mapping whose extra_hosts, on the gateway, can hold the host entry. */
  predicate Processable(name: string, svc: Yaml) {
    svc.Dict? && (name == GATEWAY ==> ExtraHosts(GetOr(svc.pairs, "extra_hosts", List([]))).Some?)
  }

  lemma {:induction false} ServicesDefined(ss: Mapping, port: int)
    ensures Services(ss, port).Some? <==> forall i :: 0 <= i < |ss| ==> Processable(ss[i].0, ss[i].1)
  {
    if ss != [] {
      ServicesDefined(ss[1..], port);
      assert ss == [ss[0]] + ss[1..];
      if ss[0].1.Dict? {
        CommonGets(ss[0].0, ss[0].1.pairs, "extra_hosts");
        PublishedNeedsHosts(Common(ss[0].0, ss[0].1.pairs), port);
      }
      assert Service(ss[0].0, ss[0].1, port).Some? <==> Processable(ss[0].0, ss[0].1);
    }
  }

  /** The script raises exactly on documents whose root, services section or some service it cannot process. */
  lemma TransformDefined(root: Yaml, bank: Bank)
    ensures Transform(root, bank).Some? <==>
      root.Dict?
      && GetOr(root.pairs, "services", Dict([])).Dict?
      && forall i :: 0 <= i < |GetOr(root.pairs, "services", Dict([])).pairs| ==>
           Processable(GetOr(root.pairs, "services", Dict([])).pairs[i].0, GetOr(root.pairs, "services", Dict([])).pairs[i].1)
  {
    if root.Dict? {
      GetAfterPop(root.pairs, "name", "services");
      var ss := GetOr(root.pairs, "services", Dict([]));
      if ss.Dict? {
        ServicesDefined(ss.pairs, bank.port);
      }
    }
  }

  // ---------- what an emitted stack says ----------

  /** The emitted build section: the old mapping with its context one level up, or a new one for the service's Dockerfile. */
  lemma EmittedBuild(name: string, b: Yaml, k: string)
    ensures Rebase(name, b).Dict?
    ensures b.Dict? && k != "context" ==> Get(Rebase(name, b).pairs, k) == Get(b.pairs, k)
    ensures b.Dict? ==>
      var was := Get(b.pairs, "context");
      Get(Rebase(name, b).pairs, "context") == if was == None || was == Some(Str(".")) then Some(Str("..")) else was
    ensures !b.Dict? ==> Rebase(name, b).pairs == [("context", Str("..")), ("dockerfile", Str(name + "/Dockerfile"))]
  {
    if b.Dict? {
      GetAfterSet(b.pairs, "context", Str(".."), k);
      GetAfterSet(b.pairs, "context", Str(".."), "context");
    }
  }

  /** The emitted host list of the gateway: the old one, with the entry for the host if it lacked it. */
  lemma EmittedHosts(hosts: Option<Yaml>)
    requires hosts.None? || hosts.value.List?
    ensures var items := if hosts.Some? then hosts.value.items else [];
      var host := Str("host.docker.internal:host-gateway");
      ExtraHosts(if hosts.Some? then hosts.value else List([])) == Some(List(if host in items then items else items + [host]))
  {
  }

  /** Any other value of extra_hosts is kept if it contains the entry as Python's `in` has it, and cannot be processed otherwise. */
  lemma OtherHosts(eh: Yaml)
    requires !eh.List?
    ensures ExtraHosts(eh) ==
      if (eh.Dict? && Get(eh.pairs, "host.docker.internal:host-gateway").Some?)
         || (eh.Str? && exists i :: 0 <= i <= |eh.s| && "host.docker.internal:host-gateway" <= eh.s[i..])
      then Some(eh) else None
  {
  }

  /** Every key of an emitted service, from the service in the root. */
  lemma EmittedService(name: string, svc: Mapping, port: int, k: string)
    requires Service(name, Dict(svc), port).Some?
    ensures Service(name, Dict(svc), port).value.Dict?
    ensures Get(Service(name, Dict(svc), port).value.pairs, k) ==
      if k == "container_name" then None
      else if k == "profiles" && (name == "prometheus" || name == "grafana") then Some(List([Str("observability")]))
      else if k == "image" && Has(svc, "build") then Some(Str("exbanka-1-backend-" + name + ":latest"))
      else if k == "build" && Has(svc, "build") then Some(Rebase(name, Get(svc, "build").value))
      else if k == "ports" then (if name == "api-gateway" then Some(List([Str(FormatInt(port) + ":8080")])) else None)
      else if k == "extra_hosts" && name == "api-gateway" then ExtraHosts(GetOr(svc, "extra_hosts", List([])))
      else Get(svc, k)
  {
    PublishedGets(name, Common(name, svc), port, k);
    CommonGets(name, svc, k);
    CommonGets(name, svc, "extra_hosts");
    assert IMAGE_PREFIX + "-" + name + ":latest" == "exbanka-1-backend-" + name + ":latest" by {
      assert IMAGE_PREFIX + "-" == "exbanka-1-backend-";
    }
  }

  /** Every key of an emitted document, and every service in it. */
  lemma EmittedDocument(root: Yaml, bank: Bank, k: string)
    requires Transform(root, bank).Some?
    ensures root.Dict? && GetOr(root.pairs, "services", Dict([])).Dict? && Transform(root, bank).value.Dict?
    ensures var ss := GetOr(root.pairs, "services", Dict([])).pairs;
      Services(ss, bank.port).Some? &&
      Get(Transform(root, bank).value.pairs, k) ==
        if k == "name" then Some(Str(bank.name))
        else if k == "services" then Some(Dict(Services(ss, bank.port).value))
        else if k == "volumes" || k == "networks" then Get(root.pairs, k)
        else None
  {
    var doc := Pop(root.pairs, "name");
    GetAfterPop(root.pairs, "name", "services");
    GetAfterPop(root.pairs, "name", k);
    AssembledGets(bank.name, Services(GetOr(doc, "services", Dict([])).pairs, bank.port).value, doc, k);
  }

  /** The top-level keys of an emitted document, in the order the script keeps: name, services, volumes, networks. */
  lemma EmittedOrder(root: Yaml, bank: Bank)
    requires Transform(root, bank).Some?
    ensures root.Dict? && Transform(root, bank).value.Dict?
    ensures var keys := KeysOf(Transform(root, bank).value.pairs);
      keys == ["name", "services"] + (if Has(root.pairs, "volumes") then ["volumes"] else [])
              + (if Has(root.pairs, "networks") then ["networks"] else [])
  {
    var doc := Pop(root.pairs, "name");
    GetAfterPop(root.pairs, "name", "volumes");
    GetAfterPop(root.pairs, "name", "networks");
  }

  function KeysOf(d: Mapping): seq<string> {
    seq(|d|, i requires 0 <= i < |d| => d[i].0)
  }

  // ---------- published host ports ----------

  function ServiceOf(doc: Yaml, name: string): Option<Mapping> {
    if !doc.Dict? then None
    else match Get(doc.pairs, "services")
      case Some(Dict(ss)) => (match Get(ss, name) case Some(Dict(d)) => Some(d) case _ => None)
      case _ => None
  }

  /** The host side of a "host:container" port entry. */
  function HostPart(entry: string): string {
    if entry == [] || entry[0] == ':' then [] else [entry[0]] + HostPart(entry[1..])
  }

  /** The port entries of one service. */
  function PortEntries(doc: Yaml, name: string): seq<Yaml> {
    match ServiceOf(doc, name)
    case None => []
    case Some(d) => (match Get(d, "ports") case Some(List(entries)) => entries case _ => [])
  }

  predicate Publishes(doc: Yaml, name: string, host: string) {
    exists i :: 0 <= i < |PortEntries(doc, name)|
      && PortEntries(doc, name)[i].Str? && HostPart(PortEntries(doc, name)[i].s) == host
  }

  lemma {:induction false} HostPartOf(h: string, rest: string)
    requires ':' !in h
    ensures HostPart(h + ":" + rest) == h
  {
    var e := h + ":" + rest;
    if h != [] {
      assert e[1..] == h[1..] + ":" + rest;
      HostPartOf(h[1..], rest);
    } else {
      assert e[0] == ':';
    }
  }

  lemma {:induction false} ServicesGet(ss: Mapping, port: int, name: string)
    requires Services(ss, port).Some?
    ensures match Get(ss, name)
            case None => Get(Services(ss, port).value, name) == None
            case Some(svc) => Service(name, svc, port).Some? && Get(Services(ss, port).value, name) == Service(name, svc, port)
  {
    if ss != [] {
      ServicesGet(ss[1..], port, name);
      assert Services(ss, port).value[1..] == Services(ss[1..], port).value;
    }
  }

  /** The port entries of a generated service. */
  lemma GeneratedEntries(root: Yaml, bank: Bank, name: string)
    requires Transform(root, bank).Some?
    ensures PortEntries(Transform(root, bank).value, name) ==
      if name == GATEWAY && ServiceOf(root, GATEWAY).Some? then [Str(FormatInt(bank.port) + ":8080")] else []
  {
    var doc := Pop(root.pairs, "name");
    GetAfterPop(root.pairs, "name", "services");
    var ss := GetOr(doc, "services", Dict([])).pairs;
    AssembledGets(bank.name, Services(ss, bank.port).value, doc, "services");
    ServicesGet(ss, bank.port, name);
    if Get(ss, name).Some? {
      PublishedGets(name, Common(name, Get(ss, name).value.pairs), bank.port, "ports");
    }
  }

  /** A generated stack publishes the gateway's host port and no other. */
  lemma PublishesOnlyGateway(root: Yaml, bank: Bank, name: string, host: string)
    requires Transform(root, bank).Some?
    ensures Publishes(Transform(root, bank).value, name, host) <==>
      name == GATEWAY && ServiceOf(root, GATEWAY).Some? && host == FormatInt(bank.port)
  {
    GeneratedEntries(root, bank, name);
    NoColon(bank.port);
    HostPartOf(FormatInt(bank.port), "8080");
    assert FormatInt(bank.port) + ":8080" == FormatInt(bank.port) + ":" + "8080";
    if name == GATEWAY && ServiceOf(root, GATEWAY).Some? {
      assert HostPart(PortEntries(Transform(root, bank).value, name)[0].s) == FormatInt(bank.port);
    }
  }

  /** Stacks with different gateway ports share no host port, so they can run side by side. */
  lemma StacksDoNotCollide(root: Yaml, a: Bank, b: Bank, m: string, n: string, host: string)
    requires Transform(root, a).Some? && a.port != b.port
    ensures Transform(root, b).Some?
    ensures !(Publishes(Transform(root, a).value, m, host) && Publishes(Transform(root, b).value, n, host))
  {
    BanksDifferInNameAndPort(root, a, b);
    PublishesOnlyGateway(root, a, m, host);
    PublishesOnlyGateway(root, b, n, host);
    if FormatInt(a.port) == FormatInt(b.port) {
      FormatInjective(a.port, b.port);
    }
  }
}
