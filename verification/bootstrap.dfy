/** arcan_set_namespace_defaults of src/platform/posix/paths.c. The
    namespace registry lives outside this file: its state is a table from
    namespace to bound path, and its three entry points are oracles
    gathered in a `Registry`. The bootstrap returns the final table and the
    trace of every registry request it issued, in order. */
module Bootstrap {

  import opened Wrappers
  import opened Namespaces
  import opened Discovery

  /** A registry request. An expansion records the answer it received. */
  datatype Op =
    | Override(value: Option<string>, kind: Kind)              // arcan_override_namespace
    | SoftOverride(value: Option<string>, kind: Kind)          // arcan_softoverride_namespace
    | Expand(suffix: string, kind: Kind, answer: Option<string>) // arcan_expand_resource

  /** The registry's state: at most one path bound per namespace. */
  type Table = map<Kind, string>

  /** The registry's entry points, left uninterpreted. */
  datatype Registry = Registry(
    hard: (Table, Option<string>, Kind) -> Table,
    soft: (Table, Option<string>, Kind) -> Table,
    expand: (Table, string, Kind) -> Option<string>)

  /** The registry state together with the requests issued so far. */
  datatype Session = Session(table: Table, trace: seq<Op>)

  /** The effect of one request on the registry; expansions only read it. */
  function Apply(reg: Registry, t: Table, op: Op): Table {
    match op
    case Override(v, k) => reg.hard(t, v, k)
    case SoftOverride(v, k) => reg.soft(t, v, k)
    case Expand(_, _, _) => t
  }

  /** The registry state reached from `t` by the requests `ops`. */
  function Replay(reg: Registry, t: Table, ops: seq<Op>): Table {
    if ops == [] then t
    else Apply(reg, Replay(reg, t, ops[..|ops| - 1]), ops[|ops| - 1])
  }

  /** Every expansion in `ops` records what the registry answered in the
      state the earlier requests left it in. */
  predicate Answered(reg: Registry, t: Table, ops: seq<Op>) {
    if ops == [] then true
    else
      var init := ops[..|ops| - 1];
      var last := ops[|ops| - 1];
      && Answered(reg, t, init)
      && (last.Expand? ==> last.answer == reg.expand(Replay(reg, t, init), last.suffix, last.kind))
  }

  /** The session's trace, replayed from `t0`, explains its state and its
      answers. */
  predicate Faithful(reg: Registry, t0: Table, ses: Session) {
    Replay(reg, t0, ses.trace) == ses.table && Answered(reg, t0, ses.trace)
  }

  /** Issue an override or soft override. */
  function Write(reg: Registry, ses: Session, op: Op): Session
    requires !op.Expand?
  {
    Session(Apply(reg, ses.table, op), ses.trace + [op])
  }

  /** Issue a sequence of overrides and soft overrides, in order. */
  function WriteAll(reg: Registry, ses: Session, ops: seq<Op>): (r: Session)
    requires forall i :: 0 <= i < |ops| ==> !ops[i].Expand?
    ensures r.trace == ses.trace + ops
    decreases |ops|
  {
    if ops == [] then ses
    else
      var r := WriteAll(reg, Write(reg, ses, ops[0]), ops[1..]);
      assert ses.trace + [ops[0]] + ops[1..] == ses.trace + ops;
      r
  }

  /** arcan_expand_resource(suffix, kind): the answer and the session with
      the request recorded. */
  function Ask(reg: Registry, ses: Session, suffix: string, kind: Kind): (Option<string>, Session) {
    var answer := reg.expand(ses.table, suffix, kind);
    (answer, Session(ses.table, ses.trace + [Expand(suffix, kind, answer)]))
  }

  // ----- the four phases of arcan_set_namespace_defaults -----

  /** The environment override of the namespace at table position `i`. */
  function EnvOverride(env: Environment, i: nat): Op
    requires i < KindCount
  {
    Override(env(EnvName(KindAt(i))), KindAt(i))
  }

  /** Hard overrides from the environment for table positions `i` to 10,
      whether or not the variable is set. */
  function EnvOverrides(env: Environment, reg: Registry, ses: Session, i: nat): (r: Session)
    requires i <= KindCount
    ensures r.trace == ses.trace + EnvTrace(env)[i..]
    decreases KindCount - i
  {
    if i == KindCount then ses
    else
      assert EnvTrace(env)[i..] == [EnvOverride(env, i)] + EnvTrace(env)[i + 1..];
      EnvOverrides(env, reg, Write(reg, ses, EnvOverride(env, i)), i + 1)
  }

  /** Every request in `ops` is a soft override. */
  predicate AllSoft(ops: seq<Op>) {
    forall i :: 0 <= i < |ops| ==> ops[i].SoftOverride?
  }

  /** The resource-directory soft overrides derived from `dir`. */
  function ResourceOps(dir: string): (ops: seq<Op>)
    ensures AllSoft(ops)
  {
    [ SoftOverride(Some(dir), ApplShared),
      SoftOverride(Some(dir + "/logs"), SysDebug),
      SoftOverride(Some(dir), ApplState),
      SoftOverride(Some(dir + "/fonts"), SysFont) ]
  }

  /** The resource soft overrides for a resource directory, if any. */
  function ResourceOpsFor(dir: Option<string>): seq<Op> {
    match dir
    case None => []
    case Some(d) => ResourceOps(d)
  }

  /** Resource directory: the discovered one, else the expansion of
      APPL_SHARED. */
  function ResourcePhase(found: Option<string>, reg: Registry, ses: Session): (r: Session)
    ensures found.Some? ==> r.trace == ses.trace + ResourceOps(found.value)
    ensures found.None? ==>
      && |r.trace| > |ses.trace|
      && r.trace[|ses.trace|] == Expand("", ApplShared, reg.expand(ses.table, "", ApplShared))
      && r.trace == ses.trace + [r.trace[|ses.trace|]] + ResourceOpsFor(r.trace[|ses.trace|].answer)
  {
    var (respath, s1) := if found.Some? then (found, ses) else Ask(reg, ses, "", ApplShared);
    match respath
    case None => s1
    case Some(dir) => WriteAll(reg, s1, ResourceOps(dir))
  }

  /** The application directory: `appl` is looked for in every base before
      `themes` is looked for in any. */
  function ApplDir(fs: FileSystem, env: Environment): (r: Option<string>)
    ensures r.Some? ==> IsDir(fs, r)
    ensures r == FirstHit(DirProbes(SearchBases(env), "appl") + DirProbes(SearchBases(env), "themes"),
                          p => IsDir(fs, p))
  {
    var appl := DirProbes(SearchBases(env), "appl");
    assert forall i :: 0 <= i < |appl| ==> appl[i].found.Some?;
    FirstHitConcat(appl, DirProbes(SearchBases(env), "themes"), p => IsDir(fs, p));
    UnixFind(fs, env, "appl").OrElse(UnixFind(fs, env, "themes"))
  }

  /** The application directory, if any, as SYS_APPL_BASE and SYS_APPL_STORE. */
  function ApplPhase(scrpath: Option<string>, reg: Registry, ses: Session): (r: Session)
    ensures scrpath.Some? ==>
      r.trace == ses.trace + [SoftOverride(scrpath, SysApplBase), SoftOverride(scrpath, SysApplStore)]
    ensures scrpath.None? ==> r == ses
  {
    if scrpath.Some? then
      WriteAll(reg, ses, [SoftOverride(scrpath, SysApplBase), SoftOverride(scrpath, SysApplStore)])
    else ses
  }

  /** The three ways the save-state step can end a trace: SYS_APPLSTATE
      expands; or it does not and neither does `savestates` under
      APPL_SHARED; or it does not, `savestates` does, and SYS_APPLSTATE is
      hard-overridden to that expansion. */
  predicate StateTail(t: seq<Op>) {
    || (|t| == 1 && Asked(t[0], "", SysApplState) && t[0].answer.Some?)
    || (t == [Expand("", SysApplState, None), Expand("savestates", ApplShared, None)])
    || (|t| == 3 && t[0] == Expand("", SysApplState, None)
        && Asked(t[1], "savestates", ApplShared) && t[1].answer.Some?
        && t[2] == Override(t[1].answer, SysApplState))
  }

  /** `op` is an expansion of `suffix` under `kind`, whatever its answer. */
  predicate Asked(op: Op, suffix: string, kind: Kind) {
    op.Expand? && op.suffix == suffix && op.kind == kind
  }

  /** Save states: only when SYS_APPLSTATE does not expand, hard-override it
      with the `savestates` expansion of APPL_SHARED, if that exists. */
  function StatePhase(reg: Registry, ses: Session): (r: Session)
    ensures |r.trace| > |ses.trace| && r.trace[..|ses.trace|] == ses.trace
    ensures StateTail(r.trace[|ses.trace|..])
  {
    var (state, s1) := Ask(reg, ses, "", SysApplState);
    if state.Some? then s1
    else
      var (saves, s2) := Ask(reg, s1, "savestates", ApplShared);
      if saves.Some? then Write(reg, s2, Override(saves, SysApplState)) else s2
  }

  /** What arcan_set_namespace_defaults discovers on the file system; none
      of it depends on the registry. */
  datatype Discovered = Discovered(bin: Option<string>, lib: Option<string>,
                                   resources: Option<string>, appl: Option<string>)

  function Discover(env: Environment, fs: FileSystem, cwd: Option<string>): Discovered {
    Discovered(BinPath(fs), LibPath(fs, env, cwd), UnixFind(fs, env, "resources"), ApplDir(fs, env))
  }

  /** The soft overrides of the binary and library paths. */
  function LegacyOps(d: Discovered): (ops: seq<Op>)
    ensures AllSoft(ops)
  {
    [SoftOverride(d.bin, SysBins), SoftOverride(d.lib, SysLibs)]
  }

  /** The registry requests of arcan_set_namespace_defaults, given what it
      discovers, from registry state `t0`. */
  function Defaults(env: Environment, d: Discovered, reg: Registry, t0: Table): Session {
    var s1 := EnvOverrides(env, reg, Session(t0, []), 0);
    var s2 := WriteAll(reg, s1, LegacyOps(d));
    StatePhase(reg, ApplPhase(d.appl, reg, ResourcePhase(d.resources, reg, s2)))
  }

  /** arcan_set_namespace_defaults; `cwd` is what realpath("./") returns.
      Whatever the registry does, the returned table is what the recorded
      requests produce from `t0`; the requests open with the environment
      overrides, then the soft overrides of the binary and library paths. */
  function SetNamespaceDefaults(env: Environment, fs: FileSystem, cwd: Option<string>,
                                reg: Registry, t0: Table): (r: Session)
    ensures Faithful(reg, t0, r)
    ensures |r.trace| >= KindCount + 3
    ensures forall i :: 0 <= i < KindCount ==> r.trace[i] == Override(env(EnvName(KindAt(i))), KindAt(i))
    ensures r.trace[KindCount] == SoftOverride(BinPath(fs), SysBins)
    ensures r.trace[KindCount + 1] == SoftOverride(LibPath(fs, env, cwd), SysLibs)
  {
    var d := Discover(env, fs, cwd);
    DefaultsFaithful(env, d, reg, t0);
    DefaultsStart(env, d, reg, t0);
    Defaults(env, d, reg, t0)
  }

  /** The environment overrides, one per table position, in table order. */
  function EnvTrace(env: Environment): seq<Op> {
    seq(KindCount, i requires 0 <= i < KindCount => EnvOverride(env, i))
  }

  /** The requests of the resource phase when the discovered resource
      directory is `found`. */
  predicate ResourceShape(found: Option<string>, ops: seq<Op>) {
    if found.Some? then ops == ResourceOps(found.value)
    else |ops| >= 1 && Asked(ops[0], "", ApplShared) && ops[1..] == ResourceOpsFor(ops[0].answer)
  }

  /** The requests of the application phase. */
  function ApplOps(scrpath: Option<string>): (ops: seq<Op>)
    ensures AllSoft(ops)
  {
    if scrpath.Some? then [SoftOverride(scrpath, SysApplBase), SoftOverride(scrpath, SysApplStore)] else []
  }

  /** A trace cut into the phases of arcan_set_namespace_defaults: the
      environment, the binary and library paths, the resource directory
      `res`, the application directory and the save-state step `tail`. */
  predicate Shaped(env: Environment, d: Discovered, t: seq<Op>, res: seq<Op>, tail: seq<Op>) {
    && t == EnvTrace(env) + LegacyOps(d) + res + ApplOps(d.appl) + tail
    && ResourceShape(d.resources, res)
    && StateTail(tail)
  }

  /** The phases after the binary and library paths append the resource,
      application and save-state requests, whatever the registry answers. */
  lemma PhasesShaped(env: Environment, d: Discovered, reg: Registry, s2: Session, r: Session)
    returns (res: seq<Op>, tail: seq<Op>)
    requires s2.trace == EnvTrace(env) + LegacyOps(d)
    requires r == StatePhase(reg, ApplPhase(d.appl, reg, ResourcePhase(d.resources, reg, s2)))
    ensures Shaped(env, d, r.trace, res, tail)
  {
    var s3 := ResourcePhase(d.resources, reg, s2);
    var s4 := ApplPhase(d.appl, reg, s3);
    res := s3.trace[|s2.trace|..];
    tail := r.trace[|s4.trace|..];
    assert s3.trace == s2.trace + res;
    assert s4.trace == s3.trace + ApplOps(d.appl);
    assert r.trace == s4.trace + tail;
  }

  /** Every trace of Defaults has the phase structure, whatever the
      registry answers. */
  lemma DefaultsShaped(env: Environment, d: Discovered, reg: Registry, t0: Table, r: Session)
    returns (res: seq<Op>, tail: seq<Op>)
    requires r == Defaults(env, d, reg, t0)
    ensures Shaped(env, d, r.trace, res, tail)
  {
    var s1 := EnvOverrides(env, reg, Session(t0, []), 0);
    var s2 := WriteAll(reg, s1, LegacyOps(d));
    res, tail := PhasesShaped(env, d, reg, s2, r);
  }

  /** The environment is applied first, in table order and whether or not
      each variable is set; the binary and library paths follow. */
  lemma EnvironmentFirst(env: Environment, d: Discovered, t: seq<Op>, res: seq<Op>, tail: seq<Op>)
    requires Shaped(env, d, t, res, tail)
    ensures |t| >= KindCount + 3
    ensures forall i :: 0 <= i < KindCount ==> t[i] == Override(env(EnvName(KindAt(i))), KindAt(i))
    ensures t[KindCount] == SoftOverride(d.bin, SysBins)
    ensures t[KindCount + 1] == SoftOverride(d.lib, SysLibs)
  {
    assert t[..KindCount + 2] == EnvTrace(env) + LegacyOps(d);
  }

  /** The opening requests of Defaults, for any registry. */
  lemma DefaultsStart(env: Environment, d: Discovered, reg: Registry, t0: Table)
    ensures |Defaults(env, d, reg, t0).trace| >= KindCount + 3
    ensures forall i :: 0 <= i < KindCount ==>
      Defaults(env, d, reg, t0).trace[i] == Override(env(EnvName(KindAt(i))), KindAt(i))
    ensures Defaults(env, d, reg, t0).trace[KindCount] == SoftOverride(d.bin, SysBins)
    ensures Defaults(env, d, reg, t0).trace[KindCount + 1] == SoftOverride(d.lib, SysLibs)
  {
    var r := Defaults(env, d, reg, t0);
    var res, tail := DefaultsShaped(env, d, reg, t0, r);
    EnvironmentFirst(env, d, r.trace, res, tail);
  }

  /** The middle part of a three-part sequence, cut out again. */
  lemma MiddleSlice<T>(p: seq<T>, m: seq<T>, q: seq<T>)
    ensures (p + m + q)[|p|..|p| + |m|] == m
  {
  }

  /** The resource directory comes next: the discovered one, or else the
      expansion of APPL_SHARED; when there is one, its four soft overrides
      follow. */
  lemma ResourcesNext(env: Environment, d: Discovered, t: seq<Op>, res: seq<Op>, tail: seq<Op>)
    requires Shaped(env, d, t, res, tail)
    ensures d.resources.Some? ==>
      |t| >= KindCount + 6 && t[KindCount + 2..KindCount + 6] == ResourceOps(d.resources.value)
    ensures d.resources.None? ==>
      && |t| > KindCount + 2
      && Asked(t[KindCount + 2], "", ApplShared)
      && (t[KindCount + 2].answer.Some? ==>
            |t| >= KindCount + 7 && t[KindCount + 3..KindCount + 7] == ResourceOps(t[KindCount + 2].answer.value))
  {
    var pre := EnvTrace(env) + LegacyOps(d);
    assert |pre| == KindCount + 2;
    assert t == pre + res + (ApplOps(d.appl) + tail);
    MiddleSlice(pre, res, ApplOps(d.appl) + tail);
    if d.resources.None? {
      assert t[KindCount + 2] == res[0];
      assert t[KindCount + 3..KindCount + 2 + |res|] == res[1..];
    }
  }

  /** `op` soft-overrides one of the two application namespaces. */
  predicate ApplWrite(op: Op) {
    op.SoftOverride? && (op.kind == SysApplBase || op.kind == SysApplStore)
  }

  /** The application directory is soft-overridden into both SYS_APPL_BASE
      and SYS_APPL_STORE when it exists, and no other soft override writes
      them (the environment loop hard-overrides both). */
  lemma ApplicationDirectory(env: Environment, d: Discovered, t: seq<Op>, res: seq<Op>, tail: seq<Op>)
    requires Shaped(env, d, t, res, tail)
    ensures d.appl.Some? ==>
      SoftOverride(d.appl, SysApplBase) in t && SoftOverride(d.appl, SysApplStore) in t
    ensures forall j :: 0 <= j < |t| && ApplWrite(t[j]) ==> d.appl.Some? && t[j].value == d.appl
  {
    forall j | 0 <= j < |t| && ApplWrite(t[j])
      ensures d.appl.Some? && t[j].value == d.appl
    {
      var op := t[j];
      assert op in EnvTrace(env) || op in LegacyOps(d) || op in res || op in ApplOps(d.appl) || op in tail;
    }
  }

  /** No request in `ops` is a hard override. */
  predicate NoOverride(ops: seq<Op>) {
    forall j :: 0 <= j < |ops| ==> !ops[j].Override?
  }

  lemma NoOverrideConcat(a: seq<Op>, b: seq<Op>)
    requires NoOverride(a) && NoOverride(b)
    ensures NoOverride(a + b)
  {
    forall j | 0 <= j < |a + b| ensures !(a + b)[j].Override? {
      if j >= |a| {
        assert (a + b)[j] == b[j - |a|];
      }
    }
  }

  /** The requests after the environment, all but the last, contain no
      hard override. */
  lemma PhasesNoOverride(d: Discovered, res: seq<Op>, tail: seq<Op>)
    requires ResourceShape(d.resources, res) && StateTail(tail)
    ensures |tail| >= 1
    ensures NoOverride(LegacyOps(d) + res + ApplOps(d.appl) + tail[..|tail| - 1])
  {
    assert NoOverride(res) by {
      if d.resources.None? {
        assert res == [res[0]] + ResourceOpsFor(res[0].answer);
      }
    }
    NoOverrideConcat(LegacyOps(d), res);
    NoOverrideConcat(LegacyOps(d) + res, ApplOps(d.appl));
    NoOverrideConcat(LegacyOps(d) + res + ApplOps(d.appl), tail[..|tail| - 1]);
  }

  /** After the environment, only the last request may be a hard
      override. */
  lemma OverrideLast(env: Environment, d: Discovered, t: seq<Op>, res: seq<Op>, tail: seq<Op>)
    requires Shaped(env, d, t, res, tail)
    ensures |t| > KindCount + 2
    ensures NoOverride(t[KindCount..|t| - 1])
  {
    PhasesNoOverride(d, res, tail);
    var before := LegacyOps(d) + res + ApplOps(d.appl);
    assert t == EnvTrace(env) + (before + tail);
    assert t[KindCount..|t| - 1] == before + tail[..|tail| - 1];
  }

  /** The save-state step ends the trace. */
  lemma SaveStatesLast(env: Environment, d: Discovered, t: seq<Op>, res: seq<Op>, tail: seq<Op>)
    requires Shaped(env, d, t, res, tail)
    ensures |t| > KindCount + 2
    ensures || StateTail(t[|t| - 1..])
            || StateTail(t[|t| - 2..])
            || StateTail(t[|t| - 3..])
  {
    assert t[|t| - |tail|..] == tail;
  }

  // ----- the trace explains the registry state -----

  lemma ReplaySnoc(reg: Registry, t: Table, ops: seq<Op>, op: Op)
    ensures Replay(reg, t, ops + [op]) == Apply(reg, Replay(reg, t, ops), op)
    ensures Answered(reg, t, ops + [op]) <==>
      Answered(reg, t, ops) && (op.Expand? ==> op.answer == reg.expand(Replay(reg, t, ops), op.suffix, op.kind))
  {
    assert (ops + [op])[..|ops|] == ops;
  }

  lemma WriteFaithful(reg: Registry, t0: Table, ses: Session, op: Op)
    requires !op.Expand? && Faithful(reg, t0, ses)
    ensures Faithful(reg, t0, Write(reg, ses, op))
  {
    ReplaySnoc(reg, t0, ses.trace, op);
  }

  /** An expansion answers from the current state and leaves it alone. */
  lemma AskFaithful(reg: Registry, t0: Table, ses: Session, suffix: string, kind: Kind)
    requires Faithful(reg, t0, ses)
    ensures Faithful(reg, t0, Ask(reg, ses, suffix, kind).1)
    ensures Ask(reg, ses, suffix, kind).0 == reg.expand(Replay(reg, t0, ses.trace), suffix, kind)
  {
    ReplaySnoc(reg, t0, ses.trace, Expand(suffix, kind, reg.expand(ses.table, suffix, kind)));
  }

  lemma {:induction false} WriteAllFaithful(reg: Registry, t0: Table, ses: Session, ops: seq<Op>)
    requires forall i :: 0 <= i < |ops| ==> !ops[i].Expand?
    requires Faithful(reg, t0, ses)
    ensures Faithful(reg, t0, WriteAll(reg, ses, ops))
    decreases |ops|
  {
    if ops != [] {
      WriteFaithful(reg, t0, ses, ops[0]);
      WriteAllFaithful(reg, t0, Write(reg, ses, ops[0]), ops[1..]);
    }
  }

  lemma {:induction false} EnvOverridesFaithful(env: Environment, reg: Registry, t0: Table, ses: Session, i: nat)
    requires i <= KindCount && Faithful(reg, t0, ses)
    ensures Faithful(reg, t0, EnvOverrides(env, reg, ses, i))
    decreases KindCount - i
  {
    if i < KindCount {
      WriteFaithful(reg, t0, ses, EnvOverride(env, i));
      EnvOverridesFaithful(env, reg, t0, Write(reg, ses, EnvOverride(env, i)), i + 1);
    }
  }

  lemma ResourcePhaseFaithful(reg: Registry, t0: Table, found: Option<string>, ses: Session)
    requires Faithful(reg, t0, ses)
    ensures Faithful(reg, t0, ResourcePhase(found, reg, ses))
  {
    if found.Some? {
      WriteAllFaithful(reg, t0, ses, ResourceOps(found.value));
    } else {
      AskFaithful(reg, t0, ses, "", ApplShared);
      var (a, s1) := Ask(reg, ses, "", ApplShared);
      if a.Some? {
        WriteAllFaithful(reg, t0, s1, ResourceOps(a.value));
      }
    }
  }

  lemma StatePhaseFaithful(reg: Registry, t0: Table, ses: Session)
    requires Faithful(reg, t0, ses)
    ensures Faithful(reg, t0, StatePhase(reg, ses))
  {
    AskFaithful(reg, t0, ses, "", SysApplState);
    var (state, s1) := Ask(reg, ses, "", SysApplState);
    if state.None? {
      AskFaithful(reg, t0, s1, "savestates", ApplShared);
      var (saves, s2) := Ask(reg, s1, "savestates", ApplShared);
      if saves.Some? {
        WriteFaithful(reg, t0, s2, Override(saves, SysApplState));
      }
    }
  }

  /** Whatever the registry does, the table Defaults returns is the replay
      of its trace from `t0`, and every recorded answer is the one the
      registry gave in the state the earlier requests left. */
  lemma DefaultsFaithful(env: Environment, d: Discovered, reg: Registry, t0: Table)
    ensures Faithful(reg, t0, Defaults(env, d, reg, t0))
  {
    var s0 := Session(t0, []);
    EnvOverridesFaithful(env, reg, t0, s0, 0);
    var s1 := EnvOverrides(env, reg, s0, 0);
    WriteAllFaithful(reg, t0, s1, LegacyOps(d));
    var s2 := WriteAll(reg, s1, LegacyOps(d));
    ResourcePhaseFaithful(reg, t0, d.resources, s2);
    var s3 := ResourcePhase(d.resources, reg, s2);
    WriteAllFaithful(reg, t0, s3, ApplOps(d.appl));
    StatePhaseFaithful(reg, t0, ApplPhase(d.appl, reg, s3));
  }
}
