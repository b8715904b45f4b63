/** The layered override policy the bootstrap relies on: a hard override
    replaces any binding (and clears it when the value is absent), a soft
    override binds only a namespace that is still unbound, and an expansion
    succeeds exactly for a bound namespace. The registry implementing this
    is not part of this model; `Layered` is that behaviour written down, and
    the lemmas here say what table the bootstrap leaves behind under it. */
module Policy {

  import opened Wrappers
  import opened Namespaces
  import opened Discovery
  import opened Bootstrap

  /** The path bound to `k` in `t`, if any. */
  function Bound(t: Table, k: Kind): Option<string> {
    if k in t then Some(t[k]) else None
  }

  /** Hard override: `k` ends up bound to `v` exactly, nothing else moves. */
  function HardBind(t: Table, v: Option<string>, k: Kind): (r: Table)
    ensures Bound(r, k) == v
    ensures forall j :: j != k ==> Bound(r, j) == Bound(t, j)
  {
    if v.Some? then t[k := v.value] else t - {k}
  }

  /** Soft override: an existing binding of `k` wins over `v`. */
  function SoftBind(t: Table, v: Option<string>, k: Kind): (r: Table)
    ensures Bound(r, k) == Bound(t, k).OrElse(v)
    ensures forall j :: j != k ==> Bound(r, j) == Bound(t, j)
  {
    if k !in t && v.Some? then t[k := v.value] else t
  }

  /** Expansion: the bound path, with `/suffix` appended for a non-empty
      suffix; absent for an unbound namespace. */
  function ExpandBound(t: Table, suffix: string, k: Kind): (r: Option<string>)
    ensures r.Some? <==> k in t
    ensures r.Some? && suffix == "" ==> r == Bound(t, k)
  {
    if k !in t then None
    else if suffix == "" then Some(t[k])
    else Some(t[k] + "/" + suffix)
  }

  const Layered: Registry := Registry(HardBind, SoftBind, ExpandBound)

  /** The path with `/sub` appended, when there is a path. */
  function Under(p: Option<string>, sub: string): Option<string> {
    match p
    case None => None
    case Some(v) => Some(v + "/" + sub)
  }

  /** The environment's value for `k`. */
  function FromEnv(env: Environment, k: Kind): Option<string> {
    env(EnvName(k))
  }

  /** Reference definition of the table the bootstrap leaves behind: the
      environment wins; otherwise the discovered location, with the
      resource-derived directories taken from the discovered resource
      directory before the one the environment names. */
  function Expected(env: Environment, d: Discovered, k: Kind): Option<string> {
    var shared := FromEnv(env, ApplShared).OrElse(d.resources);
    var resdir := d.resources.OrElse(FromEnv(env, ApplShared));
    FromEnv(env, k).OrElse(
      match k
      case SysBins => d.bin
      case SysLibs => d.lib
      case ApplShared => d.resources
      case SysDebug => Under(resdir, "logs")
      case ApplState => resdir
      case SysFont => Under(resdir, "fonts")
      case SysApplBase => d.appl
      case SysApplStore => d.appl
      case SysApplState => Under(shared, "savestates")
      case _ => None)
  }

  // ----- the table after each phase -----

  /** The environment overrides from table position `i` on replace the
      binding of every namespace at or after `i`. */
  lemma {:induction false} EnvTable(env: Environment, ses: Session, i: nat, k: Kind)
    requires i <= KindCount
    ensures Bound(EnvOverrides(env, Layered, ses, i).table, k)
            == if Index(k) >= i then FromEnv(env, k) else Bound(ses.table, k)
    decreases KindCount - i
  {
    if i < KindCount {
      var next := Write(Layered, ses, EnvOverride(env, i));
      EnvTable(env, next, i + 1, k);
      if Index(k) == i {
        KindAtIndex(k);
      }
    }
  }

  /** The first value soft-overridden into `k` by `ops`. */
  function FirstValue(ops: seq<Op>, k: Kind): Option<string> {
    if ops == [] then None
    else if ops[0].SoftOverride? && ops[0].kind == k && ops[0].value.Some? then ops[0].value
    else FirstValue(ops[1..], k)
  }

  /** A run of soft overrides fills each unbound namespace with the first
      value offered for it and leaves bound ones alone. */
  lemma {:induction false} SoftWrites(ses: Session, ops: seq<Op>, k: Kind)
    requires AllSoft(ops)
    ensures Bound(WriteAll(Layered, ses, ops).table, k) == Bound(ses.table, k).OrElse(FirstValue(ops, k))
    decreases |ops|
  {
    if ops != [] {
      var next := Write(Layered, ses, ops[0]);
      SoftWrites(next, ops[1..], k);
    }
  }

  /** What the resource phase offers `k` when the resource directory is `dir`. */
  function ResourceOffer(dir: Option<string>, k: Kind): Option<string> {
    if dir.Some? then FirstValue(ResourceOps(dir.value), k) else None
  }

  /** The resource phase offers its four namespaces the directory it
      discovered, or else the one APPL_SHARED is bound to. */
  lemma ResourceTable(found: Option<string>, ses: Session, k: Kind)
    ensures Bound(ResourcePhase(found, Layered, ses).table, k) ==
            Bound(ses.table, k).OrElse(ResourceOffer(found.OrElse(Bound(ses.table, ApplShared)), k))
  {
    var dir := found.OrElse(Bound(ses.table, ApplShared));
    if found.Some? {
      SoftWrites(ses, ResourceOps(found.value), k);
    } else {
      var (a, s1) := Ask(Layered, ses, "", ApplShared);
      assert a == dir;
      if a.Some? {
        SoftWrites(s1, ResourceOps(a.value), k);
      }
    }
  }

  /** The save-state step binds an unbound SYS_APPLSTATE to `savestates`
      under APPL_SHARED and touches nothing else. */
  lemma StateTable(ses: Session, k: Kind)
    ensures Bound(StatePhase(Layered, ses).table, k) ==
            if k == SysApplState then Bound(ses.table, k).OrElse(Under(Bound(ses.table, ApplShared), "savestates"))
            else Bound(ses.table, k)
  {
  }

  lemma LegacyOffers(d: Discovered, k: Kind)
    ensures FirstValue(LegacyOps(d), k) == if k == SysBins then d.bin else if k == SysLibs then d.lib else None
  {
    var ops := LegacyOps(d);
    assert ops[1..] == [ops[1]] && ops[1..][1..] == [];
    assert FirstValue(ops[1..], k) == if k == SysLibs then d.lib else None;
  }

  lemma ResourceOffers(dir: Option<string>, k: Kind)
    ensures ResourceOffer(dir, k) ==
      match k
      case ApplShared => dir
      case SysDebug => Under(dir, "logs")
      case ApplState => dir
      case SysFont => Under(dir, "fonts")
      case _ => None
  {
    if dir.Some? {
      var ops := ResourceOps(dir.value);
      assert ops[1..] == [ops[1], ops[2], ops[3]];
      assert ops[1..][1..] == [ops[2], ops[3]];
      assert ops[1..][1..][1..] == [ops[3]];
      assert ops[1..][1..][1..][1..] == [];
      assert dir.value + "/logs" == dir.value + "/" + "logs";
      assert dir.value + "/fonts" == dir.value + "/" + "fonts";
      assert FirstValue(ops[1..][1..][1..], k) == if k == SysFont then ops[3].value else None;
      assert FirstValue(ops[1..][1..], k) ==
        if k == ApplState then dir else if k == SysFont then ops[3].value else None;
      assert FirstValue(ops[1..], k) ==
        if k == SysDebug then ops[1].value else if k == ApplState then dir else if k == SysFont then ops[3].value else None;
    }
  }

  lemma ApplOffers(scrpath: Option<string>, k: Kind)
    ensures FirstValue(ApplOps(scrpath), k) == if k == SysApplBase || k == SysApplStore then scrpath else None
  {
    if scrpath.Some? {
      var ops := ApplOps(scrpath);
      assert ops[1..] == [ops[1]] && ops[1..][1..] == [];
      assert FirstValue(ops[1..], k) == if k == SysApplStore then scrpath else None;
    }
  }

  /** The binding of `k` once the soft overrides are done: the
      environment's value, else the first one the discovery offered. */
  function Layer(env: Environment, d: Discovered, k: Kind): Option<string> {
    FromEnv(env, k)
      .OrElse(FirstValue(LegacyOps(d), k))
      .OrElse(ResourceOffer(d.resources.OrElse(FromEnv(env, ApplShared)), k))
      .OrElse(FirstValue(ApplOps(d.appl), k))
  }

  /** The table after the environment and every soft override. */
  lemma SoftTable(env: Environment, d: Discovered, t0: Table, s4: Session, k: Kind)
    requires s4 == ApplPhase(d.appl, Layered, ResourcePhase(d.resources, Layered,
                    WriteAll(Layered, EnvOverrides(env, Layered, Session(t0, []), 0), LegacyOps(d))))
    ensures Bound(s4.table, k) == Layer(env, d, k)
  {
    var s1 := EnvOverrides(env, Layered, Session(t0, []), 0);
    var s2 := WriteAll(Layered, s1, LegacyOps(d));
    var s3 := ResourcePhase(d.resources, Layered, s2);
    assert Bound(s2.table, ApplShared) == FromEnv(env, ApplShared) by {
      EnvTable(env, Session(t0, []), 0, ApplShared);
      SoftWrites(s1, LegacyOps(d), ApplShared);
      LegacyOffers(d, ApplShared);
    }
    EnvTable(env, Session(t0, []), 0, k);
    SoftWrites(s1, LegacyOps(d), k);
    ResourceTable(d.resources, s2, k);
    SoftWrites(s3, ApplOps(d.appl), k);
  }

  /** The save-state step completes the layered bindings to the reference
      table. */
  lemma LayerExpected(env: Environment, d: Discovered, k: Kind)
    ensures k != SysApplState ==> Layer(env, d, k) == Expected(env, d, k)
    ensures k == SysApplState ==>
      Layer(env, d, k).OrElse(Under(Layer(env, d, ApplShared), "savestates")) == Expected(env, d, k)
  {
    var resdir := d.resources.OrElse(FromEnv(env, ApplShared));
    LegacyOffers(d, k);
    LegacyOffers(d, ApplShared);
    ResourceOffers(resdir, k);
    ResourceOffers(resdir, ApplShared);
    ApplOffers(d.appl, k);
    ApplOffers(d.appl, ApplShared);
  }

  /** Under the layered policy, the table the bootstrap leaves behind is
      the reference one, whatever the registry held before. */
  lemma DefaultsTable(env: Environment, d: Discovered, t0: Table, k: Kind)
    ensures Bound(Defaults(env, d, Layered, t0).table, k) == Expected(env, d, k)
  {
    var s4 := ApplPhase(d.appl, Layered, ResourcePhase(d.resources, Layered,
                WriteAll(Layered, EnvOverrides(env, Layered, Session(t0, []), 0), LegacyOps(d))));
    assert StatePhase(Layered, s4) == Defaults(env, d, Layered, t0);
    SoftTable(env, d, t0, s4, k);
    SoftTable(env, d, t0, s4, ApplShared);
    StateTable(s4, k);
    LayerExpected(env, d, k);
  }

  /** Two tables that bind every namespace alike are the same table. */
  lemma SameBindings(a: Table, b: Table)
    requires forall k :: Bound(a, k) == Bound(b, k)
    ensures a == b
  {
    forall k ensures (k in a <==> k in b) && (k in a ==> a[k] == b[k]) {
      assert Bound(a, k) == Bound(b, k);
    }
  }

  /** The registry's state before the bootstrap makes no difference: every
      namespace is hard-overridden first. */
  lemma PriorStateIrrelevant(env: Environment, d: Discovered, t0: Table, t1: Table)
    ensures Defaults(env, d, Layered, t0).table == Defaults(env, d, Layered, t1).table
  {
    var a := Defaults(env, d, Layered, t0).table;
    var b := Defaults(env, d, Layered, t1).table;
    forall k ensures Bound(a, k) == Bound(b, k) {
      DefaultsTable(env, d, t0, k);
      DefaultsTable(env, d, t1, k);
    }
    SameBindings(a, b);
  }

  /** arcan_set_namespace_defaults under the layered policy: what the
      environment sets wins over anything discovered. */
  lemma EnvironmentWins(env: Environment, fs: FileSystem, cwd: Option<string>, t0: Table, k: Kind)
    requires FromEnv(env, k).Some?
    ensures Bound(SetNamespaceDefaults(env, fs, cwd, Layered, t0).table, k) == FromEnv(env, k)
  {
    DefaultsTable(env, Discover(env, fs, cwd), t0, k);
  }

  /** In the reference table, a silent environment leaves the binary,
      library, resource and application directories to discovery. */
  lemma ExpectedDiscovered(env: Environment, d: Discovered)
    ensures FromEnv(env, SysBins).None? ==> Expected(env, d, SysBins) == d.bin
    ensures FromEnv(env, SysLibs).None? ==> Expected(env, d, SysLibs) == d.lib
    ensures FromEnv(env, ApplShared).None? ==> Expected(env, d, ApplShared) == d.resources
    ensures FromEnv(env, SysApplBase).None? ==> Expected(env, d, SysApplBase) == d.appl
  {
  }

  /** With the environment silent, the discovered binary and library
      directories, resource directory and application directory are what
      the bootstrap binds. */
  lemma DiscoveryFallback(env: Environment, fs: FileSystem, cwd: Option<string>, t0: Table, r: Session)
    requires r == SetNamespaceDefaults(env, fs, cwd, Layered, t0)
    ensures FromEnv(env, SysBins).None? ==> Bound(r.table, SysBins) == BinPath(fs)
    ensures FromEnv(env, SysLibs).None? ==> Bound(r.table, SysLibs) == LibPath(fs, env, cwd)
    ensures FromEnv(env, ApplShared).None? ==> Bound(r.table, ApplShared) == UnixFind(fs, env, "resources")
    ensures FromEnv(env, SysApplBase).None? ==> Bound(r.table, SysApplBase) == ApplDir(fs, env)
  {
    var d := Discover(env, fs, cwd);
    assert r.table == Defaults(env, d, Layered, t0).table;
    ExpectedDiscovered(env, d);
    DefaultsTable(env, d, t0, SysBins);
    DefaultsTable(env, d, t0, SysLibs);
    DefaultsTable(env, d, t0, ApplShared);
    DefaultsTable(env, d, t0, SysApplBase);
  }
}
