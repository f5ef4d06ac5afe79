/** Deduplication of filter names (trpc_util.go). */
module FirstOccurrences {
  /** First occurrences of a list, in order. */
  function Firsts(s: seq<string>): (r: seq<string>) {
    if s == [] then []
    else
      var n := |s| - 1;
      var r := Firsts(s[..n]);
      if s[n] in r then r else r + [s[n]]
  }

  predicate NoDuplicates(s: seq<string>) {
    forall i, j | 0 <= i < j < |s| :: s[i] != s[j]
  }

  /** deduplicate: a loop over both lists with a set of the names seen. */
  method Deduplicate(a: seq<string>, b: seq<string>) returns (r: seq<string>)
    ensures r == Firsts(a + b)
  {
    r := [];
    var seen: set<string> := {};
    var all := a + b;
    for i := 0 to |all|
      invariant r == Firsts(all[..i])
      invariant forall x :: x in seen <==> x in r
    {
      assert all[..i + 1][..i] == all[..i];
      if all[i] !in seen {
        seen := seen + {all[i]};
        r := r + [all[i]];
      }
    }
    assert all[..|all|] == all;
  }

  lemma {:induction false} FirstsElements(s: seq<string>, x: string)
    ensures x in Firsts(s) <==> x in s
  {
    if s != [] {
      var n := |s| - 1;
      FirstsElements(s[..n], x);
      FirstsElements(s[..n], s[n]);
      assert s == s[..n] + [s[n]];
    }
  }

  lemma {:induction false} FirstsNoDuplicates(s: seq<string>)
    ensures NoDuplicates(Firsts(s))
  {
    if s != [] {
      FirstsNoDuplicates(s[..|s| - 1]);
    }
  }

  /** Position i of s is the first occurrence of its element. */
  predicate FirstAt(s: seq<string>, i: nat) {
    i < |s| && forall k | 0 <= k < i :: s[k] != s[i]
  }

  lemma FirstInFront(s: seq<string>, n: nat, i: nat)
    requires n <= |s| && FirstAt(s[..n], i)
    ensures i < n && FirstAt(s, i) && s[i] == s[..n][i]
  {
    assert forall k | 0 <= k < n :: s[k] == s[..n][k];
  }

  lemma NewAtEnd(s: seq<string>, n: nat)
    requires n < |s| && s[n] !in s[..n]
    ensures FirstAt(s, n)
  {
    assert forall k | 0 <= k < n :: s[k] == s[..n][k];
  }

  /** The order is kept: each element comes from its first position, and those positions increase. */
  lemma {:induction false} FirstsInOrder(s: seq<string>) returns (at: seq<nat>)
    ensures |at| == |Firsts(s)|
    ensures forall i | 0 <= i < |at| :: FirstAt(s, at[i]) && s[at[i]] == Firsts(s)[i]
    ensures forall i, j | 0 <= i < j < |at| :: at[i] < at[j]
  {
    at := [];
    if s != [] {
      var n := |s| - 1;
      var front := s[..n];
      at := FirstsInOrder(front);
      forall i | 0 <= i < |at|
        ensures FirstAt(s, at[i]) && s[at[i]] == Firsts(front)[i]
      {
        FirstInFront(s, n, at[i]);
      }
      FirstsElements(front, s[n]);
      if s[n] !in Firsts(front) {
        NewAtEnd(s, n);
        at := at + [n];
      }
    }
  }

  /** Elements already there add nothing. */
  lemma {:induction false} FirstsOfSeen(x: seq<string>, y: seq<string>)
    requires forall e | e in y :: e in x
    ensures Firsts(x + y) == Firsts(x)
  {
    if y == [] {
      assert x + y == x;
    } else {
      var n := |y| - 1;
      assert (x + y)[..|x| + n] == x + y[..n];
      FirstsOfSeen(x, y[..n]);
      assert y[n] in x;
      FirstsElements(x, y[n]);
    }
  }

  /** New elements without repetition are all added. */
  lemma {:induction false} FirstsOfFresh(x: seq<string>, y: seq<string>)
    requires NoDuplicates(y) && forall e | e in y :: e !in x
    ensures Firsts(x + y) == Firsts(x) + y
  {
    if y == [] {
      assert x + y == x && Firsts(x) + y == Firsts(x);
    } else {
      var n := |y| - 1;
      var y' := y[..n];
      assert (x + y)[..|x| + n] == x + y';
      FirstsOfFresh(x, y');
      FirstsElements(x + y', y[n]);
      assert y[n] !in y' && y[n] !in x;
      assert Firsts(x) + y == Firsts(x) + y' + [y[n]];
    }
  }

  /** Appending a list adds what of it is new, each once. */
  lemma {:induction false} FirstsOfConcat(a: seq<string>, b: seq<string>) returns (r: seq<string>)
    ensures Firsts(a + b) == Firsts(a) + r
    ensures NoDuplicates(r) && forall e | e in r :: e !in a
  {
    if b == [] {
      assert a + b == a;
      r := [];
    } else {
      var n := |b| - 1;
      assert (a + b)[..|a| + n] == a + b[..n];
      r := FirstsOfConcat(a, b[..n]);
      FirstsElements(a, b[n]);
      if b[n] !in Firsts(a + b[..n]) {
        assert b[n] !in r;
        r := r + [b[n]];
      }
    }
  }

  /** Deduplicating again with the same global list changes nothing. */
  lemma DeduplicateAbsorbs(a: seq<string>, b: seq<string>)
    ensures Firsts(a + Firsts(a + b)) == Firsts(a + b)
  {
    var da := Firsts(a);
    var r := FirstsOfConcat(a, b);
    forall e | e in da
      ensures e in a
    {
      FirstsElements(a, e);
    }
    FirstsOfSeen(a, da);
    FirstsOfFresh(a + da, r);
    assert a + (da + r) == (a + da) + r;
  }
}

/** The repair pass over the framework configuration (config.go). */
module FrameworkConfig {
  import opened Bytes
  import opened Outcomes
  import opened FirstOccurrences

  const DefaultIdleTimeout := 60000
  const DefaultReaderSize := 4096
  const DefaultIP := "0.0.0.0"

  datatype Controller = Controller(id: int)

  /** overloadctrl.Impl: a builder name and the controller it built. */
  datatype Overload = Overload(builder: string, controller: Option<Controller>)

  datatype Service = Service(
    name: string, ip: string, nic: string, port: uint16, address: string, network: string, protocol: string,
    timeout: int, idletime: int, serverAsync: Option<bool>, writev: Option<bool>, transport: string,
    overload: Overload)

  datatype Server = Server(
    protocol: string, network: string, transport: string, timeout: int, overload: Overload,
    adminIP: string, adminNic: string)

  datatype Global = Global(localIP: string, namespace: string, readBufferSize: Option<int>)

  datatype Backend = Backend(
    callee: string, serviceName: string, namespace: string, network: string, protocol: string, transport: string,
    target: string, discovery: string, serviceRouter: string, loadbalance: string, circuitbreaker: string,
    timeout: int, filter: seq<string>, streamFilter: seq<string>)

  /** ClientConfig without its list of backends: the defaults for each of them. */
  datatype Client = Client(
    namespace: string, network: string, protocol: string, transport: string,
    discovery: string, serviceRouter: string, loadbalance: string, circuitbreaker: string,
    timeout: int, filter: seq<string>, streamFilter: seq<string>)

  datatype Config = Config(
    global: Global, server: Server, services: seq<Service>, client: Client, backends: seq<Backend>)

  /** What the repair asks of its surroundings: NIC addresses and overload control builders. */
  datatype Env = Env(
    getIP: string -> string,
    hasBuilder: string -> bool,
    newController: (string, string) -> Option<Controller>)

  datatype RepairError = NoIPForNic(nic: string) | NoBuilder(builder: string)

  /** The outcome of a pass that writes in place: a value, or an error and what it leaves behind. */
  datatype Attempt<+T> = Done(value: T) | Failed(left: T, error: RepairError) {
    function Left(): T {
      if Done? then value else left
    }

    function Error(): Option<RepairError> {
      if Done? then None else Some(error)
    }
  }

  // ------------------------------------------------------------------ specification

  function SetDefault(dst: string, def: string): string {
    if dst == "" then def else dst
  }

  /** net.JoinHostPort */
  function JoinHostPort(host: string, port: string): (s: string)
    ensures s != ""
  {
    if ':' in host then "[" + host + "]:" + port else host + ":" + port
  }

  /** Impl.Build */
  function Built(env: Env, oc: Overload, serviceName: string): Result<Overload, RepairError> {
    if oc.builder == "" then Ok(oc)
    else if !env.hasBuilder(oc.builder) then Err(NoBuilder(oc.builder))
    else Ok(oc.(controller := env.newController(oc.builder, serviceName)))
  }

  /** The IP of a service or of the admin: as configured, else that of its NIC. */
  function NicIP(env: Env, ip: string, nic: string): Result<string, RepairError> {
    if ip != "" then Ok(ip)
    else if env.getIP(nic) == "" && nic != "" then Err(NoIPForNic(nic))
    else Ok(env.getIP(nic))
  }

  /** The loop of repairServiceIPWithNic: services in order, the first address found becoming the local IP. */
  function ServiceIPs(env: Env, services: seq<Service>, localIP: string): Attempt<(seq<Service>, string)> {
    if services == [] then Done(([], localIP))
    else
      match NicIP(env, services[0].ip, services[0].nic)
      case Err(e) => Failed((services, localIP), e)
      case Ok(ip) => AddressedFirst([services[0].(ip := ip)], ServiceIPs(env, services[1..], SetDefault(localIP, ip)))
  }

  /** The result of the NIC loop on a rest, with the services already done put in front. */
  function AddressedFirst(done: seq<Service>, r: Attempt<(seq<Service>, string)>): Attempt<(seq<Service>, string)> {
    match r
    case Done((rest, localIP)) => Done((done + rest, localIP))
    case Failed((rest, localIP), e) => Failed((done + rest, localIP), e)
  }

  function WithNicIPs(env: Env, c: Config): Attempt<Config> {
    var r := ServiceIPs(env, c.services, c.global.localIP);
    var (services, localIP) := r.Left();
    var d := c.(services := services, global := c.global.(localIP := localIP));
    if r.Failed? then Failed(d, r.error)
    else
      match NicIP(env, c.server.adminIP, c.server.adminNic)
      case Err(e) => Failed(d, e)
      case Ok(ip) => Done(d.(server := c.server.(adminIP := ip)))
  }

  /** The overload control of a service: inherited, kept, or built for it. */
  function ServiceOverload(env: Env, s: Service, server: Overload): Result<Overload, RepairError> {
    if s.overload.builder == "" then Ok(server)
    else if s.overload.controller.None? then Built(env, s.overload, s.name)
    else Ok(s.overload)
  }

  /** The defaults a service takes before its overload control is looked at. */
  function Defaulted(s: Service, server: Server, localIP: string): Service {
    var ip := SetDefault(s.ip, localIP);
    s.(
      protocol := SetDefault(s.protocol, server.protocol),
      network := SetDefault(s.network, server.network),
      ip := ip,
      transport := SetDefault(s.transport, server.transport),
      address := SetDefault(s.address, JoinHostPort(ip, Itoa(s.port))),
      serverAsync := Some(s.serverAsync.None? || s.serverAsync.value),
      writev := Some(s.writev.Some? && s.writev.value),
      timeout := if s.timeout == 0 then server.timeout else s.timeout)
  }

  function RepairedService(env: Env, s: Service, server: Server, localIP: string): Attempt<Service> {
    var t := Defaulted(s, server, localIP);
    match ServiceOverload(env, s, server.overload)
    case Err(e) => Failed(t, e)
    case Ok(overload) =>
      Done(t.(
        overload := overload,
        idletime := if s.idletime != 0 then s.idletime
                    else if t.timeout > DefaultIdleTimeout then t.timeout else DefaultIdleTimeout))
  }

  /** The service loop of RepairConfig. */
  function RepairedServices(env: Env, services: seq<Service>, server: Server, localIP: string): Attempt<seq<Service>> {
    Swept(services, Fixer(env, server, localIP))
  }

  function Fixer(env: Env, server: Server, localIP: string): Service -> Attempt<Service> {
    s => RepairedService(env, s, server, localIP)
  }

  /** Services fixed one after another, up to the first that fails. */
  function Swept(services: seq<Service>, fix: Service -> Attempt<Service>): Attempt<seq<Service>> {
    if services == [] then Done([])
    else
      var s := fix(services[0]);
      if s.Failed? then Failed([s.left] + services[1..], s.error)
      else RepairedFirst([s.value], Swept(services[1..], fix))
  }

  /** The result of the service loop on a rest, with the services already repaired put in front. */
  function RepairedFirst(done: seq<Service>, r: Attempt<seq<Service>>): Attempt<seq<Service>> {
    match r
    case Done(rest) => Done(done + rest)
    case Failed(rest, e) => Failed(done + rest, e)
  }

  /** repairClientConfig */
  function RepairedBackend(b: Backend, client: Client): Backend {
    var callee := SetDefault(b.callee, b.serviceName);
    var free := b.target == "";
    b.(
      callee := callee,
      serviceName := SetDefault(b.serviceName, callee),
      namespace := SetDefault(b.namespace, client.namespace),
      network := SetDefault(b.network, client.network),
      protocol := SetDefault(b.protocol, client.protocol),
      transport := SetDefault(b.transport, client.transport),
      discovery := if free then SetDefault(b.discovery, client.discovery) else b.discovery,
      serviceRouter := if free then SetDefault(b.serviceRouter, client.serviceRouter) else b.serviceRouter,
      loadbalance := if free then SetDefault(b.loadbalance, client.loadbalance) else b.loadbalance,
      circuitbreaker := if free then SetDefault(b.circuitbreaker, client.circuitbreaker) else b.circuitbreaker,
      timeout := if b.timeout == 0 then client.timeout else b.timeout,
      filter := Firsts(client.filter + b.filter),
      streamFilter := Firsts(client.streamFilter + b.streamFilter))
  }

  function RepairedBackends(bs: seq<Backend>, client: Client): (r: seq<Backend>)
    ensures |r| == |bs| && forall i | 0 <= i < |bs| :: r[i] == RepairedBackend(bs[i], client)
  {
    seq(|bs|, i requires 0 <= i < |bs| => RepairedBackend(bs[i], client))
  }

  /** Defaults of the global section and the admin address, once the NICs have been asked. */
  function WithGlobalDefaults(c: Config): Config {
    var localIP := SetDefault(c.global.localIP, DefaultIP);
    c.(global := c.global.(localIP := localIP),
       server := c.server.(adminIP := SetDefault(c.server.adminIP, localIP)))
  }

  function WithReadBuffer(c: Config): Config {
    if c.global.readBufferSize.None? then c.(global := c.global.(readBufferSize := Some(DefaultReaderSize))) else c
  }

  /** Everything behind the NIC lookups. */
  function Completed(env: Env, c: Config): Attempt<Config> {
    match Built(env, c.server.overload, "")
    case Err(e) => Failed(c, e)
    case Ok(overload) =>
      var c := WithGlobalDefaults(c.(server := c.server.(overload := overload)));
      match RepairedServices(env, c.services, c.server, c.global.localIP)
      case Failed(services, e) => Failed(c.(services := services), e)
      case Done(services) =>
        var client := c.client.(namespace := SetDefault(c.client.namespace, c.global.namespace));
        Done(c.(services := services, client := client, backends := RepairedBackends(c.backends, client)))
  }

  /** RepairConfig: the NIC lookups run before and after the read buffer default. */
  function Repaired(env: Env, c: Config): Attempt<Config> {
    var c1 := WithNicIPs(env, c);
    if c1.Failed? then c1
    else
      var c2 := WithNicIPs(env, WithReadBuffer(c1.value));
      if c2.Failed? then c2 else Completed(env, c2.value)
  }

  // ------------------------------------------------------------------ which value a field gets

  /** A configured text is kept, an empty one takes the default. */
  predicate Chosen(got: string, own: string, default: string) {
    (own != "" ==> got == own) && (own == "" ==> got == default)
  }

  /** Host, colon and decimal port; a host with colons of its own goes in brackets. */
  ghost predicate IsHostPort(address: string, host: string, port: nat) {
    exists digits: string ::
      && (forall i | 0 <= i < |digits| :: IsDigit(digits[i])) && ValueOf(digits) == port
      && address == (if ':' in host then "[" + host + "]" else host) + ":" + digits
  }

  lemma HostPort(host: string, port: nat)
    ensures IsHostPort(JoinHostPort(host, Itoa(port)), host, port)
  {
    ItoaRoundTrip(port);
    var digits := Itoa(port);
    assert (if ':' in host then "[" + host + "]" else host) + ":" + digits == JoinHostPort(host, digits);
  }

  /** What becomes of a service, field by field. */
  ghost predicate ServiceGets(env: Env, s: Service, d: Service, server: Server, localIP: string) {
    && d.name == s.name && d.nic == s.nic && d.port == s.port
    && Chosen(d.protocol, s.protocol, server.protocol)
    && Chosen(d.network, s.network, server.network)
    && Chosen(d.transport, s.transport, server.transport)
    && Chosen(d.ip, s.ip, if env.getIP(s.nic) != "" then env.getIP(s.nic) else localIP)
    && (s.address != "" ==> d.address == s.address)
    && (s.address == "" ==> IsHostPort(d.address, d.ip, s.port))
    && (s.timeout != 0 ==> d.timeout == s.timeout) && (s.timeout == 0 ==> d.timeout == server.timeout)
    && (s.serverAsync.Some? ==> d.serverAsync == s.serverAsync) && (s.serverAsync.None? ==> d.serverAsync == Some(true))
    && (s.writev.Some? ==> d.writev == s.writev) && (s.writev.None? ==> d.writev == Some(false))
    && (s.idletime != 0 ==> d.idletime == s.idletime)
    && (s.idletime == 0 ==> d.idletime >= 60000 && d.idletime >= d.timeout && d.idletime in {60000, d.timeout})
    && OverloadGets(env, s, d.overload, server.overload)
  }

  /** A service without a builder takes the server's control, one with a controller keeps it, else it is built. */
  ghost predicate OverloadGets(env: Env, s: Service, got: Overload, server: Overload) {
    && (s.overload.builder == "" ==> got == server)
    && (s.overload.builder != "" ==> got.builder == s.overload.builder)
    && (s.overload.builder != "" && s.overload.controller.Some? ==> got == s.overload)
    && (s.overload.builder != "" && s.overload.controller.None? ==>
          got.controller == env.newController(s.overload.builder, s.name))
  }

  lemma RepairedServiceGets(env: Env, s: Service, server: Server, localIP: string)
    requires RepairedService(env, s, server, localIP).Done?
    requires s.ip == "" ==> env.getIP(s.nic) == ""
    ensures ServiceGets(env, s, RepairedService(env, s, server, localIP).value, server, localIP)
  {
    HostPort(SetDefault(s.ip, localIP), s.port);
  }

  /** The first address among services, if any. */
  function FirstIP(services: seq<Service>): string {
    if services == [] then "" else if services[0].ip != "" then services[0].ip else FirstIP(services[1..])
  }

  /** What the NIC loop does to each service, and to the local IP. */
  lemma {:induction false} ServiceIPsAt(env: Env, services: seq<Service>, localIP: string)
    requires ServiceIPs(env, services, localIP).Done?
    ensures var (r, local) := ServiceIPs(env, services, localIP).value;
            && |r| == |services|
            && (forall i | 0 <= i < |r| ::
                  r[i] == services[i].(ip := if services[i].ip != "" then services[i].ip else env.getIP(services[i].nic)))
            && local == (if localIP != "" then localIP else FirstIP(r))
            && (forall i | 0 <= i < |r| && r[i].ip == "" :: services[i].nic == "")
  {
    if services != [] {
      var ip := NicIP(env, services[0].ip, services[0].nic).value;
      var rest := ServiceIPs(env, services[1..], SetDefault(localIP, ip)).value.0;
      ServiceIPsAt(env, services[1..], SetDefault(localIP, ip));
      var r := ServiceIPs(env, services, localIP).value.0;
      assert r[0] == services[0].(ip := ip) && r[1..] == rest;
      forall i | 0 < i < |services|
        ensures services[i] == services[1..][i - 1] && r[i] == rest[i - 1]
      {
      }
    }
  }

  /** What becomes of a backend, field by field: discovery and the like are left alone when there is a target. */
  ghost predicate BackendGets(b: Backend, d: Backend, client: Client) {
    && d.target == b.target
    && Chosen(d.callee, b.callee, b.serviceName) && Chosen(d.serviceName, b.serviceName, b.callee)
    && Chosen(d.namespace, b.namespace, client.namespace) && Chosen(d.network, b.network, client.network)
    && Chosen(d.protocol, b.protocol, client.protocol) && Chosen(d.transport, b.transport, client.transport)
    && (b.target == "" ==>
          && Chosen(d.discovery, b.discovery, client.discovery)
          && Chosen(d.serviceRouter, b.serviceRouter, client.serviceRouter)
          && Chosen(d.loadbalance, b.loadbalance, client.loadbalance)
          && Chosen(d.circuitbreaker, b.circuitbreaker, client.circuitbreaker))
    && (b.target != "" ==>
          && d.discovery == b.discovery && d.serviceRouter == b.serviceRouter
          && d.loadbalance == b.loadbalance && d.circuitbreaker == b.circuitbreaker)
    && (b.timeout != 0 ==> d.timeout == b.timeout) && (b.timeout == 0 ==> d.timeout == client.timeout)
    && GlobalFirst(d.filter, client.filter, b.filter)
    && GlobalFirst(d.streamFilter, client.streamFilter, b.streamFilter)
  }

  /** The client's filters come first, then the backend's that are not among them, each once, in order. */
  ghost predicate GlobalFirst(got: seq<string>, client: seq<string>, own: seq<string>) {
    && NoDuplicates(got)
    && (forall x :: x in got <==> x in client || x in own)
    && exists rest: seq<string> :: got == Firsts(client) + rest && forall x | x in rest :: x !in client && x in own
  }

  lemma FiltersGlobalFirst(client: seq<string>, own: seq<string>)
    ensures GlobalFirst(Firsts(client + own), client, own)
  {
    var got := Firsts(client + own);
    FirstsNoDuplicates(client + own);
    forall x
      ensures x in got <==> x in client || x in own
    {
      FirstsElements(client + own, x);
    }
    var rest := FirstsOfConcat(client, own);
    forall x | x in rest
      ensures x !in client && x in own
    {
      assert x in got;
    }
  }

  lemma RepairedBackendGets(b: Backend, client: Client)
    ensures BackendGets(b, RepairedBackend(b, client), client)
  {
    FiltersGlobalFirst(client.filter, b.filter);
    FiltersGlobalFirst(client.streamFilter, b.streamFilter);
  }

  /** What RepairConfig comes to, field by field, in terms of the configuration it was given. */
  ghost predicate RepairGets(env: Env, c: Config, d: Config, addressed: seq<Service>) {
    && |d.services| == |c.services| == |addressed| && |d.backends| == |c.backends|
    && (forall i | 0 <= i < |c.services| ::
          addressed[i].ip == if c.services[i].ip != "" then c.services[i].ip else env.getIP(c.services[i].nic))
    && (forall i | 0 <= i < |c.services| :: ServiceGets(env, c.services[i], d.services[i], d.server, d.global.localIP))
    && (forall i | 0 <= i < |c.backends| :: BackendGets(c.backends[i], d.backends[i], d.client))
    && SectionsGet(env, c, d, addressed)
  }

  /** The same for the global, server and client sections. */
  ghost predicate SectionsGet(env: Env, c: Config, d: Config, addressed: seq<Service>) {
    && Chosen(d.global.localIP, c.global.localIP, if FirstIP(addressed) != "" then FirstIP(addressed) else "0.0.0.0")
    && Chosen(d.server.adminIP, c.server.adminIP,
         if env.getIP(c.server.adminNic) != "" then env.getIP(c.server.adminNic) else d.global.localIP)
    && (c.global.readBufferSize.Some? ==> d.global.readBufferSize == c.global.readBufferSize)
    && (c.global.readBufferSize.None? ==> d.global.readBufferSize == Some(4096))
    && Chosen(d.client.namespace, c.client.namespace, c.global.namespace)
    && d.client == c.client.(namespace := d.client.namespace)
    && d.global.namespace == c.global.namespace
    && d.server == c.server.(adminIP := d.server.adminIP, overload := d.server.overload)
    && d.server.overload.builder == c.server.overload.builder
    && (c.server.overload.builder != "" ==>
          d.server.overload.controller == env.newController(c.server.overload.builder, ""))
  }

  /** Behind the NIC lookups. */
  lemma CompletedGets(env: Env, c: Config)
    requires Completed(env, c).Done?
    requires forall i | 0 <= i < |c.services| && c.services[i].ip == "" :: env.getIP(c.services[i].nic) == ""
    ensures var d := Completed(env, c).value;
            && |d.services| == |c.services| && |d.backends| == |c.backends|
            && (forall i | 0 <= i < |c.services| :: ServiceGets(env, c.services[i], d.services[i], d.server, d.global.localIP))
            && (forall i | 0 <= i < |c.backends| :: BackendGets(c.backends[i], d.backends[i], d.client))
  {
    var d := Completed(env, c).value;
    var fix := Fixer(env, d.server, d.global.localIP);
    SweptAt(c.services, fix);
    forall i | 0 <= i < |c.services|
      ensures ServiceGets(env, c.services[i], d.services[i], d.server, d.global.localIP)
    {
      assert fix(c.services[i]) == Done(d.services[i]);
      RepairedServiceGets(env, c.services[i], d.server, d.global.localIP);
    }
    forall i | 0 <= i < |c.backends|
      ensures BackendGets(c.backends[i], d.backends[i], d.client)
    {
      RepairedBackendGets(c.backends[i], d.client);
    }
  }

  /** The second NIC pass finds nothing to do. */
  lemma NicPassTwice(env: Env, c: Config)
    requires WithNicIPs(env, c).Done?
    ensures var c1 := WithNicIPs(env, c).value;
            && WithNicIPs(env, WithReadBuffer(c1)) == Done(WithReadBuffer(c1))
            && |c1.services| == |c.services|
            && (forall i | 0 <= i < |c.services| ::
                  c1.services[i] == c.services[i].(ip :=
                    if c.services[i].ip != "" then c.services[i].ip else env.getIP(c.services[i].nic)))
            && c1.global.localIP == (if c.global.localIP != "" then c.global.localIP else FirstIP(c1.services))
  {
    var c1 := WithReadBuffer(WithNicIPs(env, c).value);
    ServiceIPsAt(env, c.services, c.global.localIP);
    NicLoopTwice(env, c.services, c1.services, c1.global.localIP);
  }

  lemma {:induction false} NicLoopTwice(env: Env, services: seq<Service>, r: seq<Service>, local: string)
    requires |r| == |services| && (local != "" || FirstIP(r) == "")
    requires forall i | 0 <= i < |r| ::
      r[i] == services[i].(ip := if services[i].ip != "" then services[i].ip else env.getIP(services[i].nic))
    requires forall i | 0 <= i < |r| && r[i].ip == "" :: services[i].nic == ""
    ensures ServiceIPs(env, r, local) == Done((r, local))
    decreases |r|
  {
    if r != [] {
      assert r[0].ip == "" ==> env.getIP(r[0].nic) == "" && r[0].nic == "";
      assert NicIP(env, r[0].ip, r[0].nic) == Ok(r[0].ip) && SetDefault(local, r[0].ip) == local;
      NicLoopTwice(env, services[1..], r[1..], local);
      assert [r[0]] + r[1..] == r;
    }
  }

  /**
    What RepairConfig does to a configuration: every field that was set keeps its value,
    and every empty one takes the value of its NIC, or the named default of the server, the
    client or the global section.
   */
  lemma RepairMeans(env: Env, c: Config)
    requires Repaired(env, c).Done?
    ensures RepairGets(env, c, Repaired(env, c).value, WithNicIPs(env, c).value.services)
  {
    NicPassTwice(env, c);
    var c1 := WithNicIPs(env, c).value;
    var c2 := WithReadBuffer(c1);
    CompletedGets(env, c2);
    var d := Repaired(env, c).value;
    forall i | 0 <= i < |c.services|
      ensures ServiceGets(env, c.services[i], d.services[i], d.server, d.global.localIP)
    {
      assert ServiceGets(env, c2.services[i], d.services[i], d.server, d.global.localIP);
      SameButAddressed(env, c.services[i], c2.services[i], d.services[i], d.server, d.global.localIP);
    }
    RepairedSections(env, c);
  }

  lemma RepairedSections(env: Env, c: Config)
    requires Repaired(env, c).Done?
    ensures SectionsGet(env, c, Repaired(env, c).value, WithNicIPs(env, c).value.services)
  {
    NicPassTwice(env, c);
  }

  lemma SameButAddressed(env: Env, s: Service, t: Service, d: Service, server: Server, localIP: string)
    requires t == s.(ip := if s.ip != "" then s.ip else env.getIP(s.nic))
    requires ServiceGets(env, t, d, server, localIP)
    ensures ServiceGets(env, s, d, server, localIP)
  {
  }

  // ------------------------------------------------------------------ when it fails

  /** A NIC is named, no address is configured, and the NIC has none. */
  predicate NoAddress(env: Env, ip: string, nic: string) {
    ip == "" && nic != "" && env.getIP(nic) == ""
  }

  /** A builder is named that is not registered. */
  predicate Unbuildable(env: Env, builder: string) {
    builder != "" && !env.hasBuilder(builder)
  }

  lemma {:induction false} ServiceIPsDoneIff(env: Env, services: seq<Service>, localIP: string)
    ensures ServiceIPs(env, services, localIP).Done? <==>
            forall i | 0 <= i < |services| :: !NoAddress(env, services[i].ip, services[i].nic)
  {
    if services != [] {
      var ip := NicIP(env, services[0].ip, services[0].nic);
      if ip.Ok? {
        ServiceIPsDoneIff(env, services[1..], SetDefault(localIP, ip.value));
      }
      assert forall i | 0 < i < |services| :: services[i] == services[1..][i - 1];
      assert forall i | 0 <= i < |services| - 1 :: services[1..][i] == services[i + 1];
    }
  }

  lemma {:induction false} SweptDoneIff(services: seq<Service>, fix: Service -> Attempt<Service>)
    ensures Swept(services, fix).Done? <==> forall i | 0 <= i < |services| :: fix(services[i]).Done?
  {
    if services != [] {
      SweptDoneIff(services[1..], fix);
      assert forall i | 0 < i < |services| :: services[i] == services[1..][i - 1];
      assert forall i | 0 <= i < |services| - 1 :: services[1..][i] == services[i + 1];
    }
  }

  /**
    RepairConfig fails exactly if a service or the admin names a NIC without an address and
    has none configured, or the server, or a service without a controller, names an
    overload control builder that is not registered.
   */
  lemma RepairFailsIff(env: Env, c: Config)
    ensures Repaired(env, c).Failed? <==>
      || (exists i :: 0 <= i < |c.services| && NoAddress(env, c.services[i].ip, c.services[i].nic))
      || NoAddress(env, c.server.adminIP, c.server.adminNic)
      || Unbuildable(env, c.server.overload.builder)
      || (exists i :: 0 <= i < |c.services| && c.services[i].overload.controller.None?
                      && Unbuildable(env, c.services[i].overload.builder))
  {
    ServiceIPsDoneIff(env, c.services, c.global.localIP);
    if WithNicIPs(env, c).Done? {
      NicPassTwice(env, c);
      var c2 := WithReadBuffer(WithNicIPs(env, c).value);
      CompletedFailsIff(env, c2);
      assert forall i | 0 <= i < |c.services| :: c2.services[i].overload == c.services[i].overload;
    }
  }

  lemma CompletedFailsIff(env: Env, c: Config)
    ensures Completed(env, c).Failed? <==>
      || Unbuildable(env, c.server.overload.builder)
      || (exists i :: 0 <= i < |c.services| && c.services[i].overload.controller.None?
                      && Unbuildable(env, c.services[i].overload.builder))
  {
    var built := Built(env, c.server.overload, "");
    if built.Ok? {
      var d := WithGlobalDefaults(c.(server := c.server.(overload := built.value)));
      var fix := Fixer(env, d.server, d.global.localIP);
      SweptDoneIff(c.services, fix);
      assert forall i | 0 <= i < |c.services| :: fix(c.services[i]).Failed? <==>
        c.services[i].overload.controller.None? && Unbuildable(env, c.services[i].overload.builder);
    }
  }

  // ------------------------------------------------------------------ laws

  /** A repaired service: the fields the repair is there to fill are filled. */
  predicate Filled(s: Service) {
    && s.ip != "" && s.address != ""
    && s.serverAsync.Some? && s.writev.Some? && s.idletime != 0
  }

  /** A sweep that comes to its end has fixed every service. */
  lemma {:induction false} SweptAt(services: seq<Service>, fix: Service -> Attempt<Service>)
    requires Swept(services, fix).Done?
    ensures var r := Swept(services, fix).value;
            |r| == |services| && forall i | 0 <= i < |services| :: fix(services[i]) == Done(r[i])
  {
    if services != [] {
      SweptAt(services[1..], fix);
      var r := Swept(services, fix).value;
      assert r[1..] == Swept(services[1..], fix).value;
      forall i | 0 < i < |services|
        ensures fix(services[i]) == Done(r[i])
      {
        assert services[i] == services[1..][i - 1] && r[i] == r[1..][i - 1];
      }
    }
  }

  /** With every service addressed and a local IP known, the NIC loop changes nothing. */
  lemma {:induction false} ServiceIPsSettled(env: Env, services: seq<Service>, localIP: string)
    requires localIP != "" && forall i | 0 <= i < |services| :: services[i].ip != ""
    ensures ServiceIPs(env, services, localIP) == Done((services, localIP))
  {
    if services != [] {
      ServiceIPsSettled(env, services[1..], localIP);
      assert [services[0]] + services[1..] == services;
    }
  }

  /**
    The one way a second repair can differ: the server's overload builder makes no
    controller for the server, a service has inherited builder and missing controller,
    and the builder does make one when asked again for that service by name.
   */
  predicate RebuildsInherited(env: Env, server: Overload, s: Service) {
    && server.builder != "" && env.newController(server.builder, "").None?
    && s.overload.builder == "" && env.newController(server.builder, s.name).Some?
  }

  /** Repairing a repaired service again, under the server section the first repair left. */
  lemma ServiceTwice(env: Env, s: Service, server: Server, localIP: string, built: Overload)
    requires localIP != "" && Built(env, built, "") == Ok(server.overload)
    requires RepairedService(env, s, server, localIP).Done?
    ensures var r := RepairedService(env, s, server, localIP).value;
            && Filled(r) && r.name == s.name
            && RepairedService(env, r, server, localIP).Done?
            && (RepairedService(env, r, server, localIP) == Done(r) <==> !RebuildsInherited(env, built, s))
  {
  }

  lemma BackendTwice(b: Backend, client: Client)
    ensures RepairedBackend(RepairedBackend(b, client), client) == RepairedBackend(b, client)
  {
    DeduplicateAbsorbs(client.filter, b.filter);
    DeduplicateAbsorbs(client.streamFilter, b.streamFilter);
  }

  /** What the second pass finds after the first: addresses everywhere, so no NIC is asked again. */
  lemma CompletedIsSettled(env: Env, c: Config)
    requires Completed(env, c).Done? && c.global.readBufferSize.Some?
    ensures var d := Completed(env, c).value;
            && d.global.localIP != "" && d.server.adminIP != "" && d.global.readBufferSize.Some?
            && (forall i | 0 <= i < |d.services| :: Filled(d.services[i]))
            && WithNicIPs(env, d) == Done(d) && WithReadBuffer(d) == d
  {
    var d := Completed(env, c).value;
    var overload := Built(env, c.server.overload, "").value;
    var c' := WithGlobalDefaults(c.(server := c.server.(overload := overload)));
    SweptAt(c'.services, Fixer(env, c'.server, c'.global.localIP));
    ServiceIPsSettled(env, d.services, d.global.localIP);
  }

  /** All services, repaired twice. */
  lemma {:induction false} ServicesTwice(env: Env, services: seq<Service>, server: Server, localIP: string,
                                         built: Overload)
    requires localIP != "" && Built(env, built, "") == Ok(server.overload)
    requires RepairedServices(env, services, server, localIP).Done?
    ensures var r := RepairedServices(env, services, server, localIP).value;
            && RepairedServices(env, r, server, localIP).Done?
            && (RepairedServices(env, r, server, localIP) == Done(r) <==>
                  forall i | 0 <= i < |services| :: !RebuildsInherited(env, built, services[i]))
  {
    if services != [] {
      var s, rest := services[0], services[1..];
      ServiceTwice(env, s, server, localIP, built);
      ServicesTwice(env, rest, server, localIP, built);
      var r := RepairedServices(env, services, server, localIP).value;
      assert r[1..] == RepairedServices(env, rest, server, localIP).value;
      assert (forall i | 0 <= i < |services| :: !RebuildsInherited(env, built, services[i])) <==>
             !RebuildsInherited(env, built, s) &&
             forall i | 0 <= i < |rest| :: !RebuildsInherited(env, built, rest[i]) by {
        assert forall i | 0 <= i < |rest| :: rest[i] == services[i + 1];
        assert forall i | 0 < i < |services| :: services[i] == rest[i - 1];
      }
    }
  }

  /** The NIC loop keeps names and overload controls. */
  lemma {:induction false} ServiceIPsKeep(env: Env, services: seq<Service>, localIP: string)
    requires ServiceIPs(env, services, localIP).Done?
    ensures var r := ServiceIPs(env, services, localIP).value.0;
            |r| == |services| &&
            forall i | 0 <= i < |r| :: r[i].name == services[i].name && r[i].overload == services[i].overload
  {
    if services != [] {
      var ip := NicIP(env, services[0].ip, services[0].nic).value;
      ServiceIPsKeep(env, services[1..], SetDefault(localIP, ip));
      assert forall i | 0 < i < |services| :: services[i] == services[1..][i - 1];
    }
  }

  lemma NicIPsKeep(env: Env, c: Config)
    requires WithNicIPs(env, c).Done?
    ensures var d := WithNicIPs(env, c).value;
            && d.server.overload == c.server.overload && d.global.readBufferSize == c.global.readBufferSize
            && |d.services| == |c.services|
            && forall i | 0 <= i < |d.services| ::
                 d.services[i].name == c.services[i].name && d.services[i].overload == c.services[i].overload
  {
    ServiceIPsKeep(env, c.services, c.global.localIP);
  }

  /** The second half of the repair, run on its own result. */
  lemma CompletedTwice(env: Env, c: Config)
    requires Completed(env, c).Done?
    ensures var d := Completed(env, c).value;
            && Completed(env, d).Done?
            && (Completed(env, d) == Done(d) <==>
                  forall i | 0 <= i < |c.services| :: !RebuildsInherited(env, c.server.overload, c.services[i]))
  {
    var d := Completed(env, c).value;
    var c' := WithGlobalDefaults(c.(server := c.server.(overload := Built(env, c.server.overload, "").value)));
    ServicesTwice(env, c.services, c'.server, c'.global.localIP, c.server.overload);
    assert WithGlobalDefaults(d.(server := d.server.(overload := Built(env, d.server.overload, "").value))) == d;
    var again := RepairedServices(env, d.services, d.server, d.global.localIP).value;
    forall i | 0 <= i < |d.backends|
      ensures RepairedBackend(d.backends[i], d.client) == d.backends[i]
    {
      BackendTwice(c.backends[i], d.client);
    }
    assert RepairedBackends(d.backends, d.client) == d.backends;
    assert Completed(env, d) == Done(d.(services := again));
  }

  /**
    RepairConfig may run more than once: on every configuration it repairs, a second run
    succeeds, and it changes nothing exactly when no service would rebuild an inherited
    overload control. Afterwards every service has an IP and an address.
   */
  lemma RepairTwice(env: Env, c: Config)
    requires Repaired(env, c).Done?
    ensures var d := Repaired(env, c).value;
            && (forall i | 0 <= i < |d.services| :: Filled(d.services[i]))
            && Repaired(env, d).Done?
            && (Repaired(env, d) == Done(d) <==>
                  forall i | 0 <= i < |c.services| :: !RebuildsInherited(env, c.server.overload, c.services[i]))
  {
    NicIPsKeep(env, c);
    var c1 := WithReadBuffer(WithNicIPs(env, c).value);
    NicIPsKeep(env, c1);
    var c2 := WithNicIPs(env, c1).value;
    CompletedIsSettled(env, c2);
    CompletedTwice(env, c2);
    assert forall i | 0 <= i < |c.services| ::
      RebuildsInherited(env, c2.server.overload, c2.services[i])
      == RebuildsInherited(env, c.server.overload, c.services[i]);
  }

  /** A builder that serves named services only, and the configuration its second repair changes. */
  lemma SecondRepairCanDiffer()
    ensures exists env, c :: Repaired(env, c).Done? && Repaired(env, Repaired(env, c).value) != Repaired(env, c)
  {
    var env := Env(_ => "", _ => true, (b, s) => if s == "" then None else Some(Controller(1)));
    var s := Service("svc", "10.0.0.1", "", 8000, "", "tcp", "trpc", 0, 0, None, None, "", Overload("", None));
    var c := Config(
      Global("", "", None), Server("trpc", "tcp", "", 0, Overload("limiter", None), "10.0.0.1", ""), [s],
      Client("", "", "", "", "", "", "", "", 0, [], []), []);
    ServiceIPsSettled(env, [s][1..], "10.0.0.1");
    assert NicIP(env, s.ip, s.nic) == Ok("10.0.0.1") && s.(ip := "10.0.0.1") == s && [s] + [s][1..] == [s];
    assert ServiceIPs(env, [s], "") == Done(([s], "10.0.0.1"));
    var c1 := c.(global := Global("10.0.0.1", "", Some(DefaultReaderSize)));
    assert WithReadBuffer(WithNicIPs(env, c).value) == c1;
    ServiceIPsSettled(env, [s], "10.0.0.1");
    assert WithNicIPs(env, c1) == Done(c1);
    var server := c.server.(overload := Overload("limiter", None));
    assert RepairedServices(env, [s][1..], server, "10.0.0.1") == Done([]);
    assert RepairedServices(env, [s], server, "10.0.0.1").Done?;
    assert Repaired(env, c).Done?;
    RepairTwice(env, c);
    assert RebuildsInherited(env, c.server.overload, c.services[0]);
  }

  // ------------------------------------------------------------------ code

  lemma ServiceIPsStep(env: Env, done: seq<Service>, todo: seq<Service>, localIP: string)
    requires todo != []
    ensures var ip := NicIP(env, todo[0].ip, todo[0].nic);
            AddressedFirst(done, ServiceIPs(env, todo, localIP)) ==
            if ip.Err? then Failed((done + todo, localIP), ip.error)
            else AddressedFirst(done + [todo[0].(ip := ip.value)],
                                ServiceIPs(env, todo[1..], SetDefault(localIP, ip.value)))
  {
    var ip := NicIP(env, todo[0].ip, todo[0].nic);
    if ip.Ok? {
      var r := ServiceIPs(env, todo[1..], SetDefault(localIP, ip.value)).Left();
      assert done + ([todo[0].(ip := ip.value)] + r.0) == done + [todo[0].(ip := ip.value)] + r.0;
    }
  }

  /** A sweep whose first i services are fixed goes on with the others. */
  lemma {:induction false} SweptFrom(services: seq<Service>, fix: Service -> Attempt<Service>, r: seq<Service>, i: nat)
    requires i <= |services| == |r|
    requires forall k | 0 <= k < i :: fix(services[k]) == Done(r[k])
    ensures Swept(services, fix) == RepairedFirst(r[..i], Swept(services[i..], fix))
    decreases i
  {
    if i == 0 {
      var all := Swept(services, fix).Left();
      assert services[0..] == services && r[..0] + all == all;
    } else {
      SweptFrom(services, fix, r, i - 1);
      var todo := services[i - 1..];
      assert todo[0] == services[i - 1] && todo[1..] == services[i..] && fix(todo[0]) == Done(r[i - 1]);
      var rest := Swept(services[i..], fix).Left();
      assert r[..i - 1] + ([r[i - 1]] + rest) == r[..i] + rest;
    }
  }

  /** So it ends with the fixed services, or stops at the first that fails. */
  lemma SweptEnds(services: seq<Service>, fix: Service -> Attempt<Service>, r: seq<Service>)
    requires |services| == |r| && forall k | 0 <= k < |r| :: fix(services[k]) == Done(r[k])
    ensures Swept(services, fix) == Done(r)
  {
    SweptFrom(services, fix, r, |r|);
    assert services[|r|..] == [] && r[..|r|] + [] == r;
  }

  lemma SweptStops(services: seq<Service>, fix: Service -> Attempt<Service>, r: seq<Service>, i: nat)
    requires i < |services| == |r| && fix(services[i]).Failed?
    requires forall k | 0 <= k < i :: fix(services[k]) == Done(r[k])
    requires forall k | i <= k < |r| :: r[k] == services[k]
    ensures Swept(services, fix) == Failed(r[i := fix(services[i]).left], fix(services[i]).error)
  {
    SweptFrom(services, fix, r, i);
    var todo, s := services[i..], fix(services[i]).left;
    assert todo[0] == services[i] && todo[1..] == services[i + 1..];
    assert Swept(todo, fix) == Failed([s] + services[i + 1..], fix(services[i]).error);
    assert r[..i] + ([s] + services[i + 1..]) == r[i := s];
  }

  /** A sequence around one of its positions. */
  lemma UpdateSplits(s: seq<Service>, i: nat, x: Service)
    requires i < |s|
    ensures s[..i] + s[i..] == s && s[i..][0] == s[i] && s[i..][1..] == s[i + 1..]
    ensures s[i := x][..i + 1] == s[..i] + [x] && s[i := x][i + 1..] == s[i + 1..]
  {
  }

  /** The configuration as RepairConfig writes it, field by field. */
  class Store {
    const env: Env
    var global: Global
    var server: Server
    var services: seq<Service>
    var client: Client
    var backends: seq<Backend>

    constructor (env: Env, c: Config)
      ensures this.env == env && View() == c
    {
      this.env := env;
      global, server, services, client, backends := c.global, c.server, c.services, c.client, c.backends;
    }

    ghost function View(): Config
      reads this
    {
      Config(global, server, services, client, backends)
    }

    /** The loop of repairServiceIPWithNic. */
    method RepairServiceIPs() returns (err: Option<RepairError>)
      modifies this`services, this`global
      ensures var r := ServiceIPs(env, old(services), old(global.localIP));
              && err == r.Error()
              && services == r.Left().0 && global == old(global).(localIP := r.Left().1)
    {
      ghost var goal := ServiceIPs(env, services, global.localIP);
      var i := 0;
      assert AddressedFirst([], goal) == goal by {
        assert [] + goal.Left().0 == goal.Left().0;
      }
      assert services[0..] == services && services[..0] == [];
      while i < |services|
        invariant 0 <= i <= |services|
        invariant global == old(global).(localIP := global.localIP)
        invariant AddressedFirst(services[..i], ServiceIPs(env, services[i..], global.localIP)) == goal
      {
        ServiceIPsStep(env, services[..i], services[i..], global.localIP);
        var ip := services[i].ip;
        if ip == "" {
          ip := env.getIP(services[i].nic);
          if ip == "" && services[i].nic != "" {
            UpdateSplits(services, i, services[i]);
            return Some(NoIPForNic(services[i].nic));
          }
        }
        UpdateSplits(services, i, services[i].(ip := ip));
        services := services[i := services[i].(ip := ip)];
        global := global.(localIP := SetDefault(global.localIP, ip));
        i := i + 1;
      }
      assert services[..i] + [] == services;
      return None;
    }

    /** repairServiceIPWithNic */
    method RepairServiceIPWithNic() returns (err: Option<RepairError>)
      modifies this`services, this`global, this`server
      ensures err == WithNicIPs(env, old(View())).Error() && View() == WithNicIPs(env, old(View())).Left()
    {
      err := RepairServiceIPs();
      if err.Some? {
        return;
      }
      if server.adminIP == "" {
        var ip := env.getIP(server.adminNic);
        if ip == "" && server.adminNic != "" {
          return Some(NoIPForNic(server.adminNic));
        }
        server := server.(adminIP := ip);
      }
      return None;
    }

    /** The service loop of RepairConfig. */
    method RepairServices() returns (err: Option<RepairError>)
      modifies this`services
      ensures var r := RepairedServices(env, old(services), server, global.localIP);
              err == r.Error() && services == r.Left()
    {
      ghost var was, fix := services, Fixer(env, server, global.localIP);
      var i := 0;
      while i < |services|
        invariant 0 <= i <= |services| == |was|
        invariant forall k | 0 <= k < i :: fix(was[k]) == Done(services[k])
        invariant forall k | i <= k < |was| :: services[k] == was[k]
      {
        ghost var before := services;
        var r := RepairService(services[i], fix);
        services := services[i := r.Left()];
        if r.Failed? {
          SweptStops(was, fix, before, i);
          return Some(r.error);
        }
        i := i + 1;
      }
      SweptEnds(was, fix, services);
      return None;
    }

    /** The body of that loop: one default after another. */
    method RepairService(s: Service, ghost fix: Service -> Attempt<Service>) returns (r: Attempt<Service>)
      requires fix == Fixer(env, server, global.localIP)
      ensures r == fix(s)
    {
      var t := s;
      t := t.(protocol := SetDefault(t.protocol, server.protocol));
      t := t.(network := SetDefault(t.network, server.network));
      t := t.(ip := SetDefault(t.ip, global.localIP));
      t := t.(transport := SetDefault(t.transport, server.transport));
      t := t.(address := SetDefault(t.address, JoinHostPort(t.ip, Itoa(t.port))));
      if t.serverAsync.None? {
        t := t.(serverAsync := Some(true));
      }
      if t.writev.None? {
        t := t.(writev := Some(false));
      }
      if t.timeout == 0 {
        t := t.(timeout := server.timeout);
      }
      if t.overload.builder == "" {
        t := t.(overload := server.overload);
      } else if t.overload.controller.None? {
        var built := Built(env, t.overload, t.name);
        if built.Err? {
          return Failed(t, built.error);
        }
        t := t.(overload := built.value);
      }
      if t.idletime == 0 {
        t := t.(idletime := DefaultIdleTimeout);
        if t.timeout > DefaultIdleTimeout {
          t := t.(idletime := t.timeout);
        }
      }
      return Done(t);
    }

    /** repairClientConfig, for every backend. */
    method RepairBackends()
      modifies this`backends
      ensures backends == RepairedBackends(old(backends), client)
    {
      ghost var was := backends;
      var i := 0;
      while i < |backends|
        invariant 0 <= i <= |backends| == |was|
        invariant forall k | 0 <= k < i :: backends[k] == RepairedBackend(was[k], client)
        invariant forall k | i <= k < |was| :: backends[k] == was[k]
      {
        var b := RepairClientConfig(backends[i]);
        backends := backends[i := b];
        i := i + 1;
      }
    }

    method RepairClientConfig(backend: Backend) returns (b: Backend)
      ensures b == RepairedBackend(backend, client)
    {
      b := backend;
      b := b.(callee := SetDefault(b.callee, b.serviceName));
      b := b.(serviceName := SetDefault(b.serviceName, b.callee));
      b := b.(namespace := SetDefault(b.namespace, client.namespace));
      b := b.(network := SetDefault(b.network, client.network));
      b := b.(protocol := SetDefault(b.protocol, client.protocol));
      b := b.(transport := SetDefault(b.transport, client.transport));
      if b.target == "" {
        b := b.(discovery := SetDefault(b.discovery, client.discovery));
        b := b.(serviceRouter := SetDefault(b.serviceRouter, client.serviceRouter));
        b := b.(loadbalance := SetDefault(b.loadbalance, client.loadbalance));
        b := b.(circuitbreaker := SetDefault(b.circuitbreaker, client.circuitbreaker));
      }
      if b.timeout == 0 {
        b := b.(timeout := client.timeout);
      }
      var f := Deduplicate(client.filter, b.filter);
      var sf := Deduplicate(client.streamFilter, b.streamFilter);
      b := b.(filter := f, streamFilter := sf);
    }

    /** RepairConfig */
    method RepairConfig() returns (err: Option<RepairError>)
      modifies this
      ensures err == Repaired(env, old(View())).Error() && View() == Repaired(env, old(View())).Left()
    {
      err := RepairServiceIPWithNic();
      if err.Some? {
        return;
      }
      if global.readBufferSize.None? {
        global := global.(readBufferSize := Some(DefaultReaderSize));
      }
      err := RepairServiceIPWithNic();
      if err.Some? {
        return;
      }
      err := Complete();
    }

    method Complete() returns (err: Option<RepairError>)
      modifies this
      ensures err == Completed(env, old(View())).Error() && View() == Completed(env, old(View())).Left()
    {
      var built := Built(env, server.overload, "");
      if built.Err? {
        return Some(built.error);
      }
      server := server.(overload := built.value);
      global := global.(localIP := SetDefault(global.localIP, DefaultIP));
      server := server.(adminIP := SetDefault(server.adminIP, global.localIP));
      err := RepairServices();
      if err.Some? {
        return;
      }
      client := client.(namespace := SetDefault(client.namespace, global.namespace));
      RepairBackends();
    }
  }
}
