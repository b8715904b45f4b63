/** The eleven resource namespaces and the `envvs` name table of
    src/platform/posix/paths.c. Position `i` of the table names the
    namespace whose bit is `1 << i`. */
module Namespaces {

  import opened Wrappers

  /** One constructor per namespace, in table order. The constructors carry
      the names of the registry's RESOURCE_* constants. */
  datatype Kind =
    | Appl          // ARCAN_APPLPATH
    | ApplShared    // ARCAN_RESOURCEPATH
    | ApplTemp      // ARCAN_APPLTEMPPATH
    | ApplState     // ARCAN_STATEPATH (deprecated)
    | SysApplBase   // ARCAN_APPLBASEPATH
    | SysApplStore  // ARCAN_APPLSTOREPATH
    | SysApplState  // ARCAN_STATEBASEPATH
    | SysFont       // ARCAN_FONTPATH
    | SysBins       // ARCAN_BINPATH
    | SysLibs       // ARCAN_LIBPATH
    | SysDebug      // ARCAN_LOGPATH

  const KindCount: nat := 11

  /** Table position of a namespace. */
  function Index(k: Kind): (i: nat)
    ensures i < KindCount
  {
    match k
    case Appl => 0
    case ApplShared => 1
    case ApplTemp => 2
    case ApplState => 3
    case SysApplBase => 4
    case SysApplStore => 5
    case SysApplState => 6
    case SysFont => 7
    case SysBins => 8
    case SysLibs => 9
    case SysDebug => 10
  }

  /** The namespace at a table position; the inverse of Index. */
  function KindAt(i: nat): (k: Kind)
    requires i < KindCount
    ensures Index(k) == i
  {
    if i == 0 then Appl
    else if i == 1 then ApplShared
    else if i == 2 then ApplTemp
    else if i == 3 then ApplState
    else if i == 4 then SysApplBase
    else if i == 5 then SysApplStore
    else if i == 6 then SysApplState
    else if i == 7 then SysFont
    else if i == 8 then SysBins
    else if i == 9 then SysLibs
    else SysDebug
  }

  lemma KindAtIndex(k: Kind)
    ensures KindAt(Index(k)) == k
  {
  }

  /** The `envvs` table: the environment variable, and token, naming each
      namespace. */
  function EnvName(k: Kind): string {
    match k
    case Appl => "ARCAN_APPLPATH"
    case ApplShared => "ARCAN_RESOURCEPATH"
    case ApplTemp => "ARCAN_APPLTEMPPATH"
    case ApplState => "ARCAN_STATEPATH"
    case SysApplBase => "ARCAN_APPLBASEPATH"
    case SysApplStore => "ARCAN_APPLSTOREPATH"
    case SysApplState => "ARCAN_STATEBASEPATH"
    case SysFont => "ARCAN_FONTPATH"
    case SysBins => "ARCAN_BINPATH"
    case SysLibs => "ARCAN_LIBPATH"
    case SysDebug => "ARCAN_LOGPATH"
  }

  function Pow2(n: nat): (p: nat)
    ensures p >= 1
  {
    if n == 0 then 1 else 2 * Pow2(n - 1)
  }

  /** The namespace mask `1 << i` that paths.c passes for table position i. */
  function Bit(k: Kind): nat {
    Pow2(Index(k))
  }

  lemma {:induction false} Pow2Monotone(m: nat, n: nat)
    requires m < n
    ensures Pow2(m) < Pow2(n)
    decreases n
  {
    if m < n - 1 {
      Pow2Monotone(m, n - 1);
    }
  }

  lemma Pow2Injective(m: nat, n: nat)
    ensures Pow2(m) == Pow2(n) ==> m == n
  {
    if m < n {
      Pow2Monotone(m, n);
    } else if n < m {
      Pow2Monotone(n, m);
    }
  }

  /** Distinct namespaces are asked for with distinct single-bit masks, all
      below 1 << 11. */
  lemma BitInjective(a: Kind, b: Kind)
    ensures Bit(a) < Pow2(KindCount)
    ensures Bit(a) == Bit(b) ==> a == b
  {
    Pow2Monotone(Index(a), KindCount);
    Pow2Injective(Index(a), Index(b));
    KindAtIndex(a);
    KindAtIndex(b);
  }

  /** Every table name is a non-empty string free of brackets. */
  lemma NameShape(k: Kind)
    ensures |EnvName(k)| > 0
    ensures '[' !in EnvName(k) && ']' !in EnvName(k)
  {
    match k
    case Appl =>
    case ApplShared =>
    case ApplTemp =>
    case ApplState =>
    case SysApplBase =>
    case SysApplStore =>
    case SysApplState =>
    case SysFont =>
    case SysBins =>
    case SysLibs =>
    case SysDebug =>
  }

  /** The table holds eleven distinct names. */
  lemma NamesDistinct(a: Kind, b: Kind)
    ensures EnvName(a) == EnvName(b) ==> a == b
  {
    if EnvName(a) == EnvName(b) {
      assert |EnvName(a)| == |EnvName(b)|;
      assert EnvName(a)[8] == EnvName(b)[8];
      assert EnvName(a)[9] == EnvName(b)[9];
      assert EnvName(a)[10] == EnvName(b)[10];
      assert EnvName(a)[11] == EnvName(b)[11];
    }
  }

  /** strcmp(a, b) == 0: the strings agree character by character and end
      together. */
  function SameString(a: string, b: string): bool {
    if a == [] || b == [] then |a| == 0 && |b| == 0
    else a[0] == b[0] && SameString(a[1..], b[1..])
  }

  lemma {:induction false} SameStringIsEquality(a: string, b: string)
    ensures SameString(a, b) <==> a == b
  {
    if a != [] && b != [] {
      SameStringIsEquality(a[1..], b[1..]);
      assert a == [a[0]] + a[1..] && b == [b[0]] + b[1..];
    }
  }

  /** The first of the first `n` table entries equal to `name` under
      strcmp: what the loop of rep_str has found after `n` iterations. */
  function LookupUpTo(name: string, n: nat): Option<Kind>
    requires n <= KindCount
  {
    if n == 0 then None
    else match LookupUpTo(name, n - 1)
      case Some(k) => Some(k)
      case None => if SameString(EnvName(KindAt(n - 1)), name) then Some(KindAt(n - 1)) else None
  }

  lemma {:induction false} LookupUpToFinds(name: string, n: nat)
    requires n <= KindCount
    ensures LookupUpTo(name, n).Some? ==>
      EnvName(LookupUpTo(name, n).value) == name && Index(LookupUpTo(name, n).value) < n
    ensures LookupUpTo(name, n).None? ==> forall k :: Index(k) < n ==> EnvName(k) != name
  {
    if n > 0 {
      SameStringIsEquality(EnvName(KindAt(n - 1)), name);
      LookupUpToFinds(name, n - 1);
      forall k | Index(k) == n - 1 ensures k == KindAt(n - 1) {
        KindAtIndex(k);
      }
    }
  }

  /** The namespace whose table entry is `name`, if any. */
  function LookupName(name: string): Option<Kind> {
    LookupUpTo(name, KindCount)
  }

  /** Name lookup is the exact inverse of the table. */
  lemma LookupNameInverse(name: string, k: Kind)
    ensures LookupName(name) == Some(k) <==> EnvName(k) == name
  {
    var r := LookupName(name);
    LookupUpToFinds(name, KindCount);
    if EnvName(k) == name {
      assert r.Some?;
      NamesDistinct(r.value, k);
    }
  }
}
