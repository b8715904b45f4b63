/** Bracket-token substitution: `rep_str` and `arcan_expand_namespaces` of
    src/platform/posix/paths.c. A C string is a `string` without NUL; the
    registry lookup `arcan_expand_resource("", 1 << i)` is the oracle
    `expand`, fixed for the duration of a substitution. */
module Substitution {

  import opened Wrappers
  import opened Namespaces

  /** What rep_str leaves behind: the string the caller sees and the names
      reported through `arcan_warning`, in order. */
  datatype Rewrite = Rewrite(text: string, warnings: seq<string>)

  /** The expansion oracle never yields an opening bracket; this is what
      makes the rescan after each substitution terminate. */
  predicate BracketFree(expand: Kind -> Option<string>) {
    forall k :: expand(k).Some? ==> '[' !in expand(k).value
  }

  /** Number of opening brackets in `s`. */
  function Opens(s: string): nat {
    multiset(s)['[']
  }

  /** strchr from position `from`: the first position at or after `from`
      holding `c`. */
  function Find(s: string, c: char, from: nat): (r: Option<nat>)
    requires from <= |s|
    ensures r.Some? ==> from <= r.value < |s| && s[r.value] == c && c !in s[from..r.value]
    ensures r.None? ==> c !in s[from..]
    decreases |s| - from
  {
    if from == |s| then None
    else if s[from] == c then Some(from)
    else
      assert s[from..] == [s[from]] + s[from + 1..];
      var r := Find(s, c, from + 1);
      assert r.Some? ==> s[from..r.value] == [s[from]] + s[from + 1..r.value];
      r
  }

  /** Splicing an expansion free of `[` over the token `s[b..c+1]`, which
      opens with `[` and closes with `]`, removes that bracket and every
      bracket inside the token. */
  lemma SpliceDropsOpen(s: string, b: nat, c: nat, e: string)
    requires b < c < |s| && s[b] == '[' && s[c] == ']'
    requires '[' !in e
    ensures Opens(s[..b] + e + s[c + 1..]) == Opens(s) - 1 - Opens(s[b + 1..c])
  {
    assert s == s[..b] + [s[b]] + s[b + 1..c] + [s[c]] + s[c + 1..];
  }

  /** The outcome of one pass of rep_str over a string: finished, or a new
      string to be scanned again from its start. */
  datatype Pass = Done(result: Rewrite) | Again(next: string)

  /** One pass of rep_str: look at the leftmost `[`, the first `]` after
      it, and the name between them. */
  function Step(s: string, expand: Kind -> Option<string>): (r: Pass)
    requires BracketFree(expand)
    ensures '[' !in s ==> r == Done(Rewrite(s, []))
    ensures r.Done? ==> |r.result.warnings| <= 1
    ensures r.Done? ==> ('[' in r.result.text <==> |r.result.warnings| == 1)
  {
    match Find(s, '[', 0)
    case None => Done(Rewrite(s, []))
    case Some(b) =>
      var close := Find(s, ']', b + 1);
      // a `]` found here is overwritten by NUL before the first strcmp
      var name := if close.Some? then s[b + 1..close.value] else s[b + 1..];
      var kept := if close.Some? then s[..close.value] else s;
      assert kept[b] == '[';
      var found := LookupName(name);
      var exp := if found.Some? then expand(found.value) else None;
      if exp.None? then
        Done(Rewrite(kept, [name]))
      else if close.None? then
        assert '[' !in s[..b];
        Done(Rewrite(s[..b] + exp.value, []))
      else
        Again(s[..b] + exp.value + s[close.value + 1..])
  }

  /** A pass that asks for a rescan has removed at least one `[`. */
  lemma StepShrinks(s: string, expand: Kind -> Option<string>)
    requires BracketFree(expand)
    ensures Step(s, expand).Again? ==> Opens(Step(s, expand).next) < Opens(s)
  {
    var r := Step(s, expand);
    if r.Again? {
      var b := Find(s, '[', 0).value;
      var close := Find(s, ']', b + 1);
      assert close.Some?;
      var c := close.value;
      var found := LookupName(s[b + 1..c]);
      assert found.Some?;
      var e := expand(found.value).value;
      assert r.next == s[..b] + e + s[c + 1..];
      SpliceDropsOpen(s, b, c, e);
    }
  }

  /** rep_str: repeat passes until one finishes. */
  function RepStr(s: string, expand: Kind -> Option<string>): (r: Rewrite)
    requires BracketFree(expand)
    ensures '[' !in s ==> r == Rewrite(s, [])
    ensures |r.warnings| <= 1
    ensures '[' in r.text <==> |r.warnings| == 1
    decreases Opens(s)
  {
    match Step(s, expand)
    case Done(r) => r
    case Again(t) =>
      StepShrinks(s, expand);
      RepStr(t, expand)
  }

  /** Find returns exactly the first occurrence. */
  lemma FindFirst(s: string, c: char, from: nat, i: nat)
    requires from <= i < |s| && s[i] == c && c !in s[from..i]
    ensures Find(s, c, from) == Some(i)
  {
  }

  /** Shape of a string with a leftmost `[` after `pre`: rep_str's first
      strchr lands on it. */
  lemma FindOpen(pre: string, rest: string)
    requires '[' !in pre
    ensures Find(pre + "[" + rest, '[', 0) == Some(|pre|)
  {
    var s := pre + "[" + rest;
    assert s[..|pre|] == pre;
    FindFirst(s, '[', 0, |pre|);
  }

  /** One unfolding of rep_str at a resolved terminated token. */
  lemma ResolvedStep(s: string, b: nat, c: nat, k: Kind, e: string, expand: Kind -> Option<string>)
    requires BracketFree(expand)
    requires b < c < |s|
    requires Find(s, '[', 0) == Some(b) && Find(s, ']', b + 1) == Some(c)
    requires LookupName(s[b + 1..c]) == Some(k) && expand(k) == Some(e)
    ensures Step(s, expand) == Again(s[..b] + e + s[c + 1..])
  {
  }

  /** A pass that asks for a rescan leaves the final result to the rescan. */
  lemma Rescan(s: string, t: string, expand: Kind -> Option<string>)
    requires BracketFree(expand)
    requires Step(s, expand) == Again(t)
    ensures RepStr(s, expand) == RepStr(t, expand)
  {
  }

  /** A pass that finishes gives the final result. */
  lemma Finish(s: string, r: Rewrite, expand: Kind -> Option<string>)
    requires BracketFree(expand)
    requires Step(s, expand) == Done(r)
    ensures RepStr(s, expand) == r
  {
  }

  /** One pass at a resolved unterminated token. */
  lemma ResolvedOpenStep(s: string, b: nat, k: Kind, e: string, expand: Kind -> Option<string>)
    requires BracketFree(expand)
    requires b < |s|
    requires Find(s, '[', 0) == Some(b) && Find(s, ']', b + 1).None?
    requires LookupName(s[b + 1..]) == Some(k) && expand(k) == Some(e)
    ensures Step(s, expand) == Done(Rewrite(s[..b] + e, []))
  {
  }

  /** The lookup of `name` fails: it names no namespace, or its namespace
      does not expand. */
  predicate Unresolved(name: string, expand: Kind -> Option<string>) {
    var found := LookupName(name);
    found.None? || expand(found.value).None?
  }

  /** One pass at a terminated token that does not resolve. */
  lemma FailedStep(s: string, b: nat, c: nat, expand: Kind -> Option<string>)
    requires BracketFree(expand)
    requires b < c < |s|
    requires Find(s, '[', 0) == Some(b) && Find(s, ']', b + 1) == Some(c)
    requires Unresolved(s[b + 1..c], expand)
    ensures Step(s, expand) == Done(Rewrite(s[..c], [s[b + 1..c]]))
  {
  }

  /** One pass at an unterminated token that does not resolve. */
  lemma FailedOpenStep(s: string, b: nat, expand: Kind -> Option<string>)
    requires BracketFree(expand)
    requires b < |s|
    requires Find(s, '[', 0) == Some(b) && Find(s, ']', b + 1).None?
    requires Unresolved(s[b + 1..], expand)
    ensures Step(s, expand) == Done(Rewrite(s, [s[b + 1..]]))
  {
  }

  /** The pieces of `pre [ n ] tail` that rep_str cuts out. */
  lemma TerminatedSlices(pre: string, n: string, tail: string)
    ensures (pre + "[" + n + "]" + tail)[|pre| + 1..|pre| + 1 + |n|] == n
    ensures (pre + "[" + n + "]" + tail)[..|pre|] == pre
    ensures (pre + "[" + n + "]" + tail)[|pre| + 2 + |n|..] == tail
    ensures (pre + "[" + n + "]" + tail)[..|pre| + 1 + |n|] == pre + "[" + n
  {
  }

  /** Where rep_str's two strchr calls land on `pre [ n ] tail`. */
  lemma TerminatedFinds(pre: string, n: string, tail: string)
    requires '[' !in pre && ']' !in n
    ensures Find(pre + "[" + n + "]" + tail, '[', 0) == Some(|pre|)
    ensures Find(pre + "[" + n + "]" + tail, ']', |pre| + 1) == Some(|pre| + 1 + |n|)
  {
    var s := pre + "[" + n + "]" + tail;
    TerminatedSlices(pre, n, tail);
    FindToken(s, |pre|, |pre| + 1 + |n|);
  }

  lemma FindToken(s: string, b: nat, c: nat)
    requires b < c < |s| && s[b] == '[' && s[c] == ']'
    requires '[' !in s[..b] && ']' !in s[b + 1..c]
    ensures Find(s, '[', 0) == Some(b) && Find(s, ']', b + 1) == Some(c)
  {
    assert s[0..b] == s[..b];
    FindFirst(s, '[', 0, b);
    FindFirst(s, ']', b + 1, c);
  }

  /** Where rep_str's strchr calls land on `pre [ n` with no `]` in `n`. */
  lemma UnterminatedFinds(pre: string, n: string)
    requires '[' !in pre && ']' !in n
    ensures Find(pre + "[" + n, '[', 0) == Some(|pre|)
    ensures Find(pre + "[" + n, ']', |pre| + 1).None?
    ensures (pre + "[" + n)[|pre| + 1..] == n
    ensures (pre + "[" + n)[..|pre|] == pre
  {
    var s := pre + "[" + n;
    FindOpen(pre, n);
    assert s[|pre| + 1..] == n;
  }

  /** One pass over `pre [ n ] tail` when `n` resolves to `e`. */
  lemma ResolvedTokenStep(pre: string, n: string, tail: string, k: Kind, e: string, expand: Kind -> Option<string>)
    requires BracketFree(expand)
    requires '[' !in pre && ']' !in n
    requires LookupName(n) == Some(k) && expand(k) == Some(e)
    ensures Step(pre + "[" + n + "]" + tail, expand) == Again(pre + e + tail)
  {
    var s := pre + "[" + n + "]" + tail;
    TerminatedFinds(pre, n, tail);
    TerminatedSlices(pre, n, tail);
    ResolvedStep(s, |pre|, |pre| + 1 + |n|, k, e, expand);
  }

  /** A terminated token whose name resolves to a namespace expanding to `e`. */
  lemma ResolvedToken(pre: string, n: string, tail: string, k: Kind, e: string, expand: Kind -> Option<string>)
    requires BracketFree(expand)
    requires '[' !in pre && ']' !in n
    requires LookupName(n) == Some(k) && expand(k) == Some(e)
    ensures RepStr(pre + "[" + n + "]" + tail, expand) == RepStr(pre + e + tail, expand)
  {
    ResolvedTokenStep(pre, n, tail, k, e, expand);
    Rescan(pre + "[" + n + "]" + tail, pre + e + tail, expand);
  }

  /** Replacing a bracket-free token by a bracket-free expansion removes
      exactly one opening bracket. */
  lemma TokenOpens(pre: string, n: string, tail: string, e: string)
    requires '[' !in n && '[' !in e
    ensures Opens(pre + e + tail) == Opens(pre + "[" + n + "]" + tail) - 1
  {
    assert multiset(pre + "[" + n + "]" + tail)
        == multiset(pre) + multiset{'['} + multiset(n) + multiset{']'} + multiset(tail);
    assert multiset(pre + e + tail) == multiset(pre) + multiset(e) + multiset(tail);
    assert multiset(n)['['] == 0 && multiset(e)['['] == 0;
  }

  /** A terminated token `[NAME]` whose namespace expands to `e` is replaced
      by `e`, and the whole new string is scanned again from its start. */
  lemma TerminatedToken(pre: string, k: Kind, tail: string, e: string, expand: Kind -> Option<string>)
    requires BracketFree(expand)
    requires '[' !in pre
    requires expand(k) == Some(e)
    ensures RepStr(pre + "[" + EnvName(k) + "]" + tail, expand) == RepStr(pre + e + tail, expand)
    ensures Opens(pre + e + tail) == Opens(pre + "[" + EnvName(k) + "]" + tail) - 1
  {
    NameShape(k);
    LookupNameInverse(EnvName(k), k);
    ResolvedToken(pre, EnvName(k), tail, k, e, expand);
    TokenOpens(pre, EnvName(k), tail, e);
  }

  /** An unterminated token `[NAME` at the end of the string is replaced by
      `e` and nothing is rescanned. */
  lemma UnterminatedToken(pre: string, k: Kind, e: string, expand: Kind -> Option<string>)
    requires BracketFree(expand)
    requires '[' !in pre
    requires expand(k) == Some(e)
    ensures RepStr(pre + "[" + EnvName(k), expand) == Rewrite(pre + e, [])
  {
    var s := pre + "[" + EnvName(k);
    NameShape(k);
    UnterminatedFinds(pre, EnvName(k));
    LookupNameInverse(EnvName(k), k);
    ResolvedOpenStep(s, |pre|, k, e, expand);
    Finish(s, Rewrite(pre + e, []), expand);
  }

  /** A terminated token that cannot be resolved ends the rewrite with one
      warning; the `]` has already been overwritten by NUL, so the caller sees
      the input cut off just before it. */
  lemma FailedToken(pre: string, name: string, tail: string, expand: Kind -> Option<string>)
    requires BracketFree(expand)
    requires '[' !in pre && ']' !in name
    requires Unresolved(name, expand)
    ensures RepStr(pre + "[" + name + "]" + tail, expand) == Rewrite(pre + "[" + name, [name])
    ensures RepStr(pre + "[" + name + "]" + tail, expand).text != pre + "[" + name + "]" + tail
  {
    var s := pre + "[" + name + "]" + tail;
    var c := |pre| + 1 + |name|;
    TerminatedFinds(pre, name, tail);
    TerminatedSlices(pre, name, tail);
    FailedStep(s, |pre|, c, expand);
    Finish(s, Rewrite(pre + "[" + name, [name]), expand);
    assert |pre + "[" + name| < |s|;
  }

  /** An unterminated token that cannot be resolved ends the rewrite with one
      warning and the input unchanged. */
  lemma FailedUnterminated(pre: string, name: string, expand: Kind -> Option<string>)
    requires BracketFree(expand)
    requires '[' !in pre && ']' !in name
    requires Unresolved(name, expand)
    ensures RepStr(pre + "[" + name, expand) == Rewrite(pre + "[" + name, [name])
  {
    var s := pre + "[" + name;
    UnterminatedFinds(pre, name);
    FailedOpenStep(s, |pre|, expand);
    Finish(s, Rewrite(s, [name]), expand);
  }

  /** The empty token `[]` names nothing: one warning, and the text is cut
      before the `]`. */
  lemma EmptyToken(pre: string, tail: string, expand: Kind -> Option<string>)
    requires BracketFree(expand)
    requires '[' !in pre
    ensures RepStr(pre + "[]" + tail, expand) == Rewrite(pre + "[", [""])
  {
    var r := LookupName("");
    if r.Some? {
      LookupNameInverse("", r.value);
      NameShape(r.value);
    }
    assert pre + "[]" + tail == pre + "[" + "" + "]" + tail;
    assert pre + "[" == pre + "[" + "";
    FailedToken(pre, "", tail, expand);
  }

  /** Two resolvable tokens are replaced left to right:
      `a[N1]b[N2]c` becomes `a E1 b E2 c`. */
  lemma TwoTokens(a: string, k1: Kind, b: string, k2: Kind, c: string,
                  e1: string, e2: string, expand: Kind -> Option<string>)
    requires BracketFree(expand)
    requires '[' !in a && '[' !in b && '[' !in c
    requires expand(k1) == Some(e1) && expand(k2) == Some(e2)
    ensures RepStr(a + "[" + EnvName(k1) + "]" + b + "[" + EnvName(k2) + "]" + c, expand)
         == Rewrite(a + e1 + b + e2 + c, [])
  {
    NameShape(k1);
    NameShape(k2);
    LookupNameInverse(EnvName(k1), k1);
    LookupNameInverse(EnvName(k2), k2);
    ResolvedPair(a, EnvName(k1), k1, b, EnvName(k2), k2, c, e1, e2, expand);
  }

  /** The regroupings of `a [ n1 ] b [ n2 ] c` used when its two tokens are
      replaced one after the other. */
  lemma PairRegroup(a: string, n1: string, b: string, n2: string, c: string, e1: string, e2: string)
    ensures a + "[" + n1 + "]" + b + "[" + n2 + "]" + c == a + "[" + n1 + "]" + (b + "[" + n2 + "]" + c)
    ensures a + e1 + (b + "[" + n2 + "]" + c) == (a + e1 + b) + "[" + n2 + "]" + c
    ensures (a + e1 + b) + e2 + c == a + e1 + b + e2 + c
  {
  }

  lemma ResolvedPair(a: string, n1: string, k1: Kind, b: string, n2: string, k2: Kind, c: string,
                     e1: string, e2: string, expand: Kind -> Option<string>)
    requires BracketFree(expand)
    requires '[' !in a && '[' !in b && '[' !in c
    requires ']' !in n1 && ']' !in n2
    requires LookupName(n1) == Some(k1) && LookupName(n2) == Some(k2)
    requires expand(k1) == Some(e1) && expand(k2) == Some(e2)
    ensures RepStr(a + "[" + n1 + "]" + b + "[" + n2 + "]" + c, expand)
         == Rewrite(a + e1 + b + e2 + c, [])
  {
    PairRegroup(a, n1, b, n2, c, e1, e2);
    ResolvedToken(a, n1, b + "[" + n2 + "]" + c, k1, e1, expand);
    assert '[' !in a + e1 + b;
    ResolvedToken(a + e1 + b, n2, c, k2, e2, expand);
    assert '[' !in a + e1 + b + e2 + c;
  }

  /** The rewritten arguments, element by element. */
  function Texts(args: seq<string>, expand: Kind -> Option<string>): (t: seq<string>)
    requires BracketFree(expand)
    ensures |t| == |args|
    ensures forall i :: 0 <= i < |args| ==> t[i] == RepStr(args[i], expand).text
  {
    if args == [] then []
    else
      var init := args[..|args| - 1];
      var t := Texts(init, expand);
      assert forall i :: 0 <= i < |init| ==> args[i] == init[i];
      t + [RepStr(args[|args| - 1], expand).text]
  }

  /** The warnings issued while rewriting `args`, element by element. */
  function Warnings(args: seq<string>, expand: Kind -> Option<string>): (w: seq<string>)
    requires BracketFree(expand)
    ensures |w| <= |args|
  {
    if args == [] then []
    else Warnings(args[..|args| - 1], expand) + RepStr(args[|args| - 1], expand).warnings
  }

  lemma Extend(args: seq<string>, i: nat, expand: Kind -> Option<string>)
    requires BracketFree(expand)
    requires i < |args|
    ensures Texts(args[..i + 1], expand) == Texts(args[..i], expand) + [RepStr(args[i], expand).text]
    ensures Warnings(args[..i + 1], expand) == Warnings(args[..i], expand) + RepStr(args[i], expand).warnings
  {
    assert args[..i + 1][..i] == args[..i];
  }

  /** arcan_expand_namespaces: rewrite every argument in place, in order,
      each one on its own. */
  method ExpandNamespaces(args: seq<string>, expand: Kind -> Option<string>)
    returns (out: seq<string>, log: seq<string>)
    requires BracketFree(expand)
    ensures |out| == |args|
    ensures forall i :: 0 <= i < |args| ==> out[i] == RepStr(args[i], expand).text
    ensures log == Warnings(args, expand)
    ensures |log| <= |args|
  {
    out, log := [], [];
    var i := 0;
    while i < |args|
      invariant 0 <= i <= |args|
      invariant out == Texts(args[..i], expand)
      invariant log == Warnings(args[..i], expand)
    {
      var r := RepStr(args[i], expand);
      Extend(args, i, expand);
      out := out + [r.text];
      log := log + r.warnings;
      i := i + 1;
    }
    assert args[..i] == args;
  }
}
