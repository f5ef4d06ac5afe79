/**
  The global registry of backend configurations (client/config.go): two maps kept in
  step, looked up with two levels of fallback, against a plain log of registrations.
 */
module ClientRegistry {
  import opened Outcomes

  /** A generated Options object; only its identity matters here. */
  datatype Opts = Opts(id: int)

  /** What a BackendConfig says: the two fields registration looks at, and the rest. */
  datatype Content = Content(callee: string, serviceName: string, rest: int)

  /** A BackendConfig object; callers, the registry and the user's tables share it. */
  class BackendConfig {
    var callee: string
    var serviceName: string
    const rest: int

    constructor (c: Content)
      ensures View() == c
    {
      callee, serviceName, rest := c.callee, c.serviceName, c.rest;
    }

    function View(): Content
      reads this
    {
      Content(callee, serviceName, rest)
    }
  }

  /** The wildcard's config has no names of its own. */
  function Nameless(c: Content): Content {
    c.(callee := "", serviceName := "")
  }

  /** genOptions: the options a config generates, or None for its error. */
  type Generator = Content -> Option<Opts>

  /** optionsWithFallback and configsWithFallback. */
  datatype Entry<T> = Entry(fallback: T, serviceNames: map<string, T>)

  // ------------------------------------------------------------------ specification

  datatype Row<T> = Row(service: string, value: T)

  /** A registration: one callee, or the replacement of the whole table. */
  datatype Registration<T> = Put(callee: string, row: Row<T>) | Reset(table: map<string, Row<T>>)

  /** The two-level table after a run of registrations. */
  function TableAfter<T>(log: seq<Registration<T>>): map<string, Entry<T>> {
    if log == [] then map[]
    else Applied(TableAfter(log[..|log| - 1]), log[|log| - 1])
  }

  function Applied<T>(table: map<string, Entry<T>>, r: Registration<T>): map<string, Entry<T>> {
    match r
    case Put(callee, row) =>
      var names := if callee in table then table[callee].serviceNames else map[];
      table[callee := Entry(row.value, names[row.service := row.value])]
    case Reset(rows) => ResetTable(rows)
  }

  function ResetTable<T>(rows: map<string, Row<T>>): map<string, Entry<T>> {
    map callee | callee in rows :: EntryOf(rows[callee].service, rows[callee].value)
  }

  /** The entry of a callee registered once. */
  function EntryOf<T>(service: string, value: T): Entry<T> {
    Entry(value, map[service := value])
  }

  /** The last registration of a callee since the last reset, scanning the log backwards. */
  function LastFor<T>(log: seq<Registration<T>>, callee: string): Option<T> {
    if log == [] then None
    else
      match log[|log| - 1]
      case Put(c, row) => if c == callee then Some(row.value) else LastFor(log[..|log| - 1], callee)
      case Reset(rows) => if callee in rows then Some(rows[callee].value) else None
  }

  /** The last registration of a callee under a service name. */
  function LastForPair<T>(log: seq<Registration<T>>, callee: string, service: string): Option<T> {
    if log == [] then None
    else
      match log[|log| - 1]
      case Put(c, row) =>
        if c == callee && row.service == service then Some(row.value)
        else LastForPair(log[..|log| - 1], callee, service)
      case Reset(rows) =>
        if callee in rows && rows[callee].service == service then Some(rows[callee].value) else None
  }

  function OrElse<T>(a: Option<T>, b: Option<T>): Option<T> {
    if a.Some? then a else b
  }

  /** Lookup by callee: the callee's last registration, else the wildcard's, else the default. */
  function ScanCallee<T>(log: seq<Registration<T>>, callee: string, default: T): T {
    OrElse(OrElse(LastFor(log, callee), LastFor(log, "*")), Some(default)).value
  }

  /** Lookup by callee and service name: the pair's last registration, else as by callee. */
  function ScanPair<T>(log: seq<Registration<T>>, callee: string, service: string, default: T): T {
    OrElse(LastForPair(log, callee, service), Some(ScanCallee(log, callee, default))).value
  }

  /** The two-level table holds exactly what the backward scans find. */
  lemma {:induction false} TableIsScan<T>(log: seq<Registration<T>>, callee: string, service: string)
    ensures callee in TableAfter(log) <==> LastFor(log, callee).Some?
    ensures callee in TableAfter(log) ==>
      && LastFor(log, callee) == Some(TableAfter(log)[callee].fallback)
      && (service in TableAfter(log)[callee].serviceNames <==> LastForPair(log, callee, service).Some?)
      && (service in TableAfter(log)[callee].serviceNames ==>
            LastForPair(log, callee, service) == Some(TableAfter(log)[callee].serviceNames[service]))
    ensures LastForPair(log, callee, service).Some? ==> callee in TableAfter(log)
  {
    if log != [] {
      TableIsScan(log[..|log| - 1], callee, service);
    }
  }

  /** The registration gives a callee this value. */
  predicate Gives<T(==)>(r: Registration<T>, callee: string, v: T) {
    match r
    case Put(c, row) => c == callee && row.value == v
    case Reset(rows) => callee in rows && rows[callee].value == v
  }

  /** The registration says something about a callee; a reset does about every callee. */
  predicate Concerns<T>(r: Registration<T>, callee: string) {
    r.Reset? || r.callee == callee
  }

  /** The same for a callee under a service name. */
  predicate GivesPair<T(==)>(r: Registration<T>, callee: string, service: string, v: T) {
    match r
    case Put(c, row) => c == callee && row == Row(service, v)
    case Reset(rows) => callee in rows && rows[callee] == Row(service, v)
  }

  predicate ConcernsPair<T>(r: Registration<T>, callee: string, service: string) {
    r.Reset? || (r.callee == callee && r.row.service == service)
  }

  ghost predicate LastGiving<T>(log: seq<Registration<T>>, callee: string, v: T, i: nat) {
    i < |log| && Gives(log[i], callee, v) && forall j | i < j < |log| :: !Concerns(log[j], callee)
  }

  ghost predicate LastGivingPair<T>(log: seq<Registration<T>>, callee: string, service: string, v: T, i: nat) {
    i < |log| && GivesPair(log[i], callee, service, v) && forall j | i < j < |log| :: !ConcernsPair(log[j], callee, service)
  }

  /** A scan finds a value exactly if some registration gives it and no later one concerns the callee. */
  lemma {:induction false} ScanIsLast<T>(log: seq<Registration<T>>, callee: string, v: T)
    ensures LastFor(log, callee) == Some(v) <==> exists i :: LastGiving(log, callee, v, i)
  {
    if log != [] {
      var n := |log| - 1;
      var front := log[..n];
      ScanIsLast(front, callee, v);
      forall i: nat
        ensures Concerns(log[n], callee) ==> (LastGiving(log, callee, v, i) <==> i == n && Gives(log[n], callee, v))
        ensures !Concerns(log[n], callee) ==> (LastGiving(log, callee, v, i) <==> LastGiving(front, callee, v, i))
      {
        assert forall j | 0 <= j < n :: front[j] == log[j];
      }
      if Concerns(log[n], callee) && Gives(log[n], callee, v) {
        assert LastGiving(log, callee, v, n);
      }
    }
  }

  lemma {:induction false} PairScanIsLast<T>(log: seq<Registration<T>>, callee: string, service: string, v: T)
    ensures LastForPair(log, callee, service) == Some(v) <==> exists i :: LastGivingPair(log, callee, service, v, i)
  {
    if log != [] {
      var n := |log| - 1;
      var front := log[..n];
      PairScanIsLast(front, callee, service, v);
      forall i: nat
        ensures ConcernsPair(log[n], callee, service) ==>
          (LastGivingPair(log, callee, service, v, i) <==> i == n && GivesPair(log[n], callee, service, v))
        ensures !ConcernsPair(log[n], callee, service) ==>
          (LastGivingPair(log, callee, service, v, i) <==> LastGivingPair(front, callee, service, v, i))
      {
        assert forall j | 0 <= j < n :: front[j] == log[j];
      }
      if ConcernsPair(log[n], callee, service) && GivesPair(log[n], callee, service, v) {
        assert LastGivingPair(log, callee, service, v, n);
      }
    }
  }

  /** Where a lookup falls back to: the pair, the callee, the wildcard, the default, each only without the one before. */
  lemma LookupFalls<T>(log: seq<Registration<T>>, callee: string, service: string, d: T)
    ensures LastForPair(log, callee, service).Some? ==>
      LastForPair(log, callee, service) == Some(ScanPair(log, callee, service, d))
    ensures LastForPair(log, callee, service).None? ==>
      ScanPair(log, callee, service, d) == ScanCallee(log, callee, d)
    ensures LastFor(log, callee).Some? ==> LastFor(log, callee) == Some(ScanCallee(log, callee, d))
    ensures LastFor(log, callee).None? && LastFor(log, "*").Some? ==>
      LastFor(log, "*") == Some(ScanCallee(log, callee, d))
    ensures LastFor(log, callee).None? && LastFor(log, "*").None? ==> ScanCallee(log, callee, d) == d
  {
  }

  /** After a replacement of the whole table, callees in it get their row and all others its wildcard or the default. */
  lemma ResetVisibility<T>(log: seq<Registration<T>>, rows: map<string, Row<T>>, callee: string, service: string, d: T)
    ensures var log' := log + [Reset(rows)];
            && ScanCallee(log', callee, d) ==
               (if callee in rows then rows[callee].value else if "*" in rows then rows["*"].value else d)
            && (callee in rows && rows[callee].service == service ==>
                  ScanPair(log', callee, service, d) == rows[callee].value)
            && (callee !in rows || rows[callee].service != service ==>
                  ScanPair(log', callee, service, d) == ScanCallee(log', callee, d))
  {
    var log' := log + [Reset(rows)];
    assert log'[..|log'| - 1] == log;
  }

  /** A registration of one callee is seen by lookups of that callee and, for the wildcard, by callees without one. */
  lemma PutVisibility<T>(log: seq<Registration<T>>, callee: string, row: Row<T>, other: string, service: string, d: T)
    ensures LastFor(log, other).None? && LastForPair(log, other, service).None? && other != "*" ==>
      ScanPair(log + [Put("*", row)], other, service, d) == row.value
    ensures var log' := log + [Put(callee, row)];
            && ScanPair(log', callee, row.service, d) == row.value
            && ScanCallee(log', callee, d) == row.value
            && (other != callee && (callee != "*" || LastFor(log, other).Some?) ==>
                  && ScanCallee(log', other, d) == ScanCallee(log, other, d)
                  && ScanPair(log', other, service, d) == ScanPair(log, other, service, d))
  {
    var log', wild := log + [Put(callee, row)], log + [Put("*", row)];
    assert log'[..|log'| - 1] == log && wild[..|wild| - 1] == log;
  }

  // ------------------------------------------------------------------ code

  /** Two logs of the same registrations, one of options and one of configs. */
  ghost predicate SameShape<T, U>(a: seq<Registration<T>>, b: seq<Registration<U>>) {
    |a| == |b| && forall i | 0 <= i < |a| :: SameRegistration(a[i], b[i])
  }

  ghost predicate SameRegistration<T, U>(a: Registration<T>, b: Registration<U>) {
    match (a, b)
    case (Put(c, r), Put(d, q)) => c == d && r.service == q.service
    case (Reset(t), Reset(u)) => t.Keys == u.Keys && forall k | k in t :: t[k].service == u[k].service
    case _ => false
  }

  /** Then the two tables know the same callees and the same service names. */
  lemma {:induction false} SameTables<T, U>(a: seq<Registration<T>>, b: seq<Registration<U>>)
    requires SameShape(a, b)
    ensures TableAfter(a).Keys == TableAfter(b).Keys
    ensures forall c | c in TableAfter(a) ::
      TableAfter(a)[c].serviceNames.Keys == TableAfter(b)[c].serviceNames.Keys
  {
    if a != [] {
      assert SameRegistration(a[|a| - 1], b[|b| - 1]);
      SameTables(a[..|a| - 1], b[..|b| - 1]);
    }
  }

  /** Both tables are what the same registrations made them. */
  ghost predicate InStep<T, U>(t: map<string, Entry<T>>, u: map<string, Entry<U>>,
                               a: seq<Registration<T>>, b: seq<Registration<U>>)
  {
    t == TableAfter(a) && u == TableAfter(b) && SameShape(a, b)
  }

  lemma InStepAfter<T, U>(t: map<string, Entry<T>>, u: map<string, Entry<U>>,
                          a: seq<Registration<T>>, b: seq<Registration<U>>, r: Registration<T>, q: Registration<U>)
    requires InStep(t, u, a, b) && SameRegistration(r, q)
    ensures InStep(Applied(t, r), Applied(u, q), a + [r], b + [q])
  {
    assert (a + [r])[..|a|] == a && (b + [q])[..|b|] == b;
  }

  class Registry {
    const generate: Generator
    const defaultOptions: Opts
    const defaultConfig: BackendConfig
    var options: map<string, Entry<Opts>>
    var configs: map<string, Entry<BackendConfig>>
    ghost var optionLog: seq<Registration<Opts>>
    ghost var configLog: seq<Registration<BackendConfig>>

    ghost predicate Valid()
      reads this
    {
      InStep(options, configs, optionLog, configLog)
    }

    constructor (generate: Generator, defaultOptions: Opts, defaultConfig: BackendConfig)
      ensures Valid() && optionLog == [] && configLog == []
      ensures this.generate == generate && this.defaultOptions == defaultOptions && this.defaultConfig == defaultConfig
    {
      this.generate, this.defaultOptions, this.defaultConfig := generate, defaultOptions, defaultConfig;
      options, configs := map[], map[];
      optionLog, configLog := [], [];
    }

    /** The options and configs maps keep equal keys, on both levels. */
    lemma KeysInStep()
      requires Valid()
      ensures options.Keys == configs.Keys
      ensures forall c | c in options :: options[c].serviceNames.Keys == configs[c].serviceNames.Keys
    {
      SameTables(optionLog, configLog);
    }

    /** The config objects the registry holds, the default one included. */
    ghost function Held(): set<BackendConfig>
      reads this`configs
    {
      {defaultConfig}
      + (set c | c in configs :: configs[c].fallback)
      + (set c, n | c in configs && n in configs[c].serviceNames :: configs[c].serviceNames[n])
    }

    /** What a table of configs says at this moment. */
    static ghost function Contents(conf: map<string, BackendConfig>): (cs: map<string, Content>)
      reads conf.Values
      ensures cs.Keys == conf.Keys
    {
      map k | k in conf :: conf[k].View()
    }

    ghost predicate AllGenerate(cs: map<string, Content>) {
      forall k | k in cs :: generate(cs[k]).Some?
    }

    /** The rows a table of configs registers: generated options, and the configs themselves. */
    ghost function OptionRows(cs: map<string, Content>): map<string, Row<Opts>>
      requires AllGenerate(cs)
    {
      map k | k in cs :: Row(cs[k].serviceName, generate(cs[k]).value)
    }

    ghost function ConfigRows(conf: map<string, BackendConfig>, cs: map<string, Content>): map<string, Row<BackendConfig>>
      requires cs.Keys == conf.Keys
    {
      map k | k in cs :: Row(cs[k].serviceName, conf[k])
    }

    /**
      RegisterConfig replaces both maps, or changes nothing if any config is refused; the
      order in which the configs are visited does not matter.
     */
    method RegisterConfig(conf: map<string, BackendConfig>) returns (ok: bool)
      requires Valid()
      modifies this
      ensures Valid()
      ensures ok <==> AllGenerate(old(Contents(conf)))
      ensures !ok ==> unchanged(this)
      ensures ok ==>
        && optionLog == old(optionLog) + [Reset(OptionRows(old(Contents(conf))))]
        && configLog == old(configLog) + [Reset(ConfigRows(conf, old(Contents(conf))))]
    {
      ghost var cs := Contents(conf);
      var built := BuildTables(conf);
      if built.None? {
        return false;
      }
      Install(built.value.0, built.value.1, Reset(OptionRows(cs)), Reset(ConfigRows(conf, cs)));
      return true;
    }

    /** Both maps are replaced under the lock by what one and the same registration makes of them. */
    method Install(newOptions: map<string, Entry<Opts>>, newConfigs: map<string, Entry<BackendConfig>>,
                   ghost r: Registration<Opts>, ghost q: Registration<BackendConfig>)
      requires Valid() && SameRegistration(r, q)
      requires newOptions == Applied(options, r) && newConfigs == Applied(configs, q)
      modifies this
      ensures Valid() && options == newOptions && configs == newConfigs
      ensures optionLog == old(optionLog) + [r] && configLog == old(configLog) + [q]
    {
      InStepAfter(options, configs, optionLog, configLog, r, q);
      options, configs := newOptions, newConfigs;
      optionLog, configLog := optionLog + [r], configLog + [q];
    }

    /** The loop of RegisterConfig: both new maps, or None at the first refused config. */
    method BuildTables(conf: map<string, BackendConfig>)
      returns (r: Option<(map<string, Entry<Opts>>, map<string, Entry<BackendConfig>>)>)
      ensures r.Some? <==> AllGenerate(Contents(conf))
      ensures r.Some? ==>
        && r.value.0 == ResetTable(OptionRows(Contents(conf)))
        && r.value.1 == ResetTable(ConfigRows(conf, Contents(conf)))
    {
      var opts: map<string, Entry<Opts>> := map[];
      var confs: map<string, Entry<BackendConfig>> := map[];
      var keys := conf.Keys;
      ghost var cs := Contents(conf);
      while keys != {}
        invariant keys <= conf.Keys
        invariant opts.Keys == confs.Keys == conf.Keys - keys
        invariant forall k | k in opts ::
          generate(cs[k]).Some? && opts[k] == EntryOf(cs[k].serviceName, generate(cs[k]).value)
        invariant forall k | k in confs :: confs[k] == EntryOf(cs[k].serviceName, conf[k])
        decreases keys
      {
        var key :| key in keys;
        var cfg := conf[key];
        var o := generate(cfg.View());
        if o.None? {
          assert cs[key] == cfg.View();
          return None;
        }
        opts := opts[key := EntryOf(cfg.serviceName, o.value)];
        confs := confs[key := EntryOf(cfg.serviceName, cfg)];
        keys := keys - {key};
      }
      OptionsBuilt(cs, opts);
      ConfigsBuilt(conf, cs, confs);
      return Some((opts, confs));
    }

    lemma OptionsBuilt(cs: map<string, Content>, opts: map<string, Entry<Opts>>)
      requires opts.Keys == cs.Keys
      requires forall k | k in opts ::
        generate(cs[k]).Some? && opts[k] == EntryOf(cs[k].serviceName, generate(cs[k]).value)
      ensures AllGenerate(cs) && opts == ResetTable(OptionRows(cs))
    {
    }

    lemma ConfigsBuilt(conf: map<string, BackendConfig>, cs: map<string, Content>, confs: map<string, Entry<BackendConfig>>)
      requires confs.Keys == cs.Keys == conf.Keys
      requires forall k | k in confs :: confs[k] == EntryOf(cs[k].serviceName, conf[k])
      ensures confs == ResetTable(ConfigRows(conf, cs))
    {
    }

    /**
      RegisterClientConfig replaces the entry of one callee. For the wildcard the config
      object loses its names first, even if it is then refused. So a refused registration
      leaves the two maps alone, and what the held configs say exactly when the callee is
      not the wildcard, or the object is not one the registry holds, or it had no names.
     */
    method RegisterClientConfig(callee: string, conf: BackendConfig) returns (ok: bool)
      requires Valid()
      modifies this, conf`callee, conf`serviceName
      ensures Valid()
      ensures conf.View() == if callee == "*" then Nameless(old(conf.View())) else old(conf.View())
      ensures ok <==> generate(conf.View()).Some?
      ensures !ok ==>
        && unchanged(this)
        && ((forall o | o in Held() :: o.View() == old(o.View())) <==>
            callee != "*" || conf !in Held() || old(conf.callee) == old(conf.serviceName) == "")
      ensures ok ==>
        && optionLog == old(optionLog) + [Put(callee, Row(conf.serviceName, generate(conf.View()).value))]
        && configLog == old(configLog) + [Put(callee, Row(conf.serviceName, conf))]
    {
      if callee == "*" {
        conf.callee := "";
        conf.serviceName := "";
      }
      var o := generate(conf.View());
      if o.None? {
        assert conf in Held() ==> (conf.View() == old(conf.View()) <==>
          callee != "*" || old(conf.callee) == old(conf.serviceName) == "");
        return false;
      }
      PutEntry(callee, conf, o.value);
      return true;
    }

    /** The locked half of RegisterClientConfig. */
    method PutEntry(callee: string, conf: BackendConfig, o: Opts)
      requires Valid()
      modifies this
      ensures Valid()
      ensures optionLog == old(optionLog) + [Put(callee, Row(conf.serviceName, o))]
      ensures configLog == old(configLog) + [Put(callee, Row(conf.serviceName, conf))]
    {
      SameTables(optionLog, configLog);
      var names: map<string, Opts> := map[];
      var confNames: map<string, BackendConfig> := map[];
      if callee in options {
        names, confNames := options[callee].serviceNames, configs[callee].serviceNames;
      }
      Install(
        options[callee := Entry(o, names[conf.serviceName := o])],
        configs[callee := Entry(conf, confNames[conf.serviceName := conf])],
        Put(callee, Row(conf.serviceName, o)), Put(callee, Row(conf.serviceName, conf)));
    }

    /** getOptions */
    method GetOptions(callee: string) returns (o: Opts)
      requires Valid()
      ensures o == ScanCallee(optionLog, callee, defaultOptions)
    {
      TableIsScan(optionLog, callee, "");
      TableIsScan(optionLog, "*", "");
      if |options| == 0 {
        return defaultOptions;
      }
      if callee in options {
        return options[callee].fallback;
      }
      if "*" in options {
        return options["*"].fallback;
      }
      return defaultOptions;
    }

    /** getOptionsByCalleeAndServiceName */
    method GetOptionsByCalleeAndServiceName(callee: string, serviceName: string) returns (o: Opts)
      requires Valid()
      ensures o == ScanPair(optionLog, callee, serviceName, defaultOptions)
    {
      TableIsScan(optionLog, callee, serviceName);
      if callee !in options {
        o := GetOptions(callee);
        return;
      }
      if serviceName !in options[callee].serviceNames {
        o := GetOptions(callee);
        return;
      }
      return options[callee].serviceNames[serviceName];
    }

    /** Config */
    method Config(callee: string) returns (c: BackendConfig)
      requires Valid()
      ensures c == ScanCallee(configLog, callee, defaultConfig)
      ensures c in Held()
    {
      TableIsScan(configLog, callee, "");
      TableIsScan(configLog, "*", "");
      if |configs| == 0 {
        return defaultConfig;
      }
      if callee in configs {
        return configs[callee].fallback;
      }
      if "*" in configs {
        return configs["*"].fallback;
      }
      return defaultConfig;
    }
  }

  /**
    The failing case: the config of a callee, read from the registry, offered for the
    wildcard and refused. The registry then answers for that callee with a config that has
    lost its names.
   */
  method OfferForWildcard(r: Registry, callee: string) returns (c: BackendConfig)
    requires r.Valid() && callee in r.configs
    requires r.generate(Nameless(r.configs[callee].fallback.View())).None?
    modifies r, r.configs[callee].fallback
    ensures r.Valid() && r.configs == old(r.configs) && r.options == old(r.options)
    ensures c == r.configs[callee].fallback == ScanCallee(r.configLog, callee, r.defaultConfig)
    ensures c.View() == Nameless(old(r.configs[callee].fallback.View()))
  {
    TableIsScan(r.configLog, callee, "");
    c := r.Config(callee);
    var ok := r.RegisterClientConfig("*", c);
    c := r.Config(callee);
  }
}
