/** Named groups of ignore patterns, expanded through the groups they include. */
module Presets {
  import opened Prelude
  import Sorting

  /** Own patterns, and the names of the presets included. */
  datatype Preset = Preset(patterns: seq<string>, patternSet: seq<string>)

  type PresetMap = map<string, Preset>

  datatype ExpandError = Cycle(path: seq<string>) | UnknownPreset(name: string)

  // ── The walk ─────────────────────────────────────────────────────────────

  function Elems(s: seq<string>): set<string> {
    set x | x in s
  }

  /** Every pattern met from `name`, repeats included: its own first, then its
      members'. `stack` is the path that led here. */
  function Walk(p: PresetMap, name: string, stack: seq<string>): Result<seq<string>, ExpandError>
    decreases p.Keys - Elems(stack), 0
  {
    if name in stack then Err(Cycle(stack + [name]))
    else if name !in p then Err(UnknownPreset(name))
    else
      assert name in p.Keys - Elems(stack) && name !in p.Keys - Elems(stack + [name]);
      match WalkAll(p, p[name].patternSet, stack + [name])
      case Err(e) => Err(e)
      case Ok(below) => Ok(p[name].patterns + below)
  }

  function WalkAll(p: PresetMap, names: seq<string>, stack: seq<string>): Result<seq<string>, ExpandError>
    decreases p.Keys - Elems(stack), 1, |names|
  {
    if names == [] then Ok([])
    else match Walk(p, names[0], stack)
      case Err(e) => Err(e)
      case Ok(first) =>
        match WalkAll(p, names[1..], stack)
        case Err(e) => Err(e)
        case Ok(rest) => Ok(first + rest)
  }

  /** `out` with the patterns it lacks, each where it is first met. */
  function Push(out: seq<string>, patterns: seq<string>): seq<string>
    decreases |patterns|
  {
    if patterns == [] then out
    else Push(if patterns[0] in out then out else out + [patterns[0]], patterns[1..])
  }

  function Expanded(p: PresetMap, names: seq<string>): Result<seq<string>, ExpandError> {
    match WalkAll(p, names, [])
    case Err(e) => Err(e)
    case Ok(patterns) => Ok(Push([], patterns))
  }

  lemma {:induction false} PushTwice(out: seq<string>, a: seq<string>, b: seq<string>)
    ensures Push(out, a + b) == Push(Push(out, a), b)
    decreases |a|
  {
    if a == [] {
      assert a + b == b;
    } else {
      assert (a + b)[1..] == a[1..] + b;
      PushTwice(if a[0] in out then out else out + [a[0]], a[1..], b);
    }
  }

  // ── The code ─────────────────────────────────────────────────────────────

  /** What is left of a walk once `before` has been met. */
  ghost function After(before: seq<string>, rest: Result<seq<string>, ExpandError>): Result<seq<string>, ExpandError> {
    match rest case Err(e) => Err(e) case Ok(more) => Ok(before + more)
  }

  lemma AfterNothing(p: PresetMap, names: seq<string>, stack: seq<string>)
    ensures After([], WalkAll(p, names[0..], stack)) == WalkAll(p, names, stack)
  {
    assert names[0..] == names;
    var r := WalkAll(p, names, stack);
    assert r.Ok? ==> [] + r.value == r.value;
  }

  /** One more name of a list walked. */
  lemma AfterOne(p: PresetMap, names: seq<string>, stack: seq<string>, i: nat, before: seq<string>)
    requires i < |names|
    ensures After(before, WalkAll(p, names[i..], stack)) ==
      match Walk(p, names[i], stack)
      case Err(e) => Err(e)
      case Ok(more) => After(before + more, WalkAll(p, names[i + 1..], stack))
  {
    assert names[i..][1..] == names[i + 1..];
    var walk, rest := Walk(p, names[i], stack), WalkAll(p, names[i + 1..], stack);
    if walk.Ok? && rest.Ok? {
      assert before + (walk.value + rest.value) == before + walk.value + rest.value;
    }
  }

  lemma AfterAll(p: PresetMap, names: seq<string>, stack: seq<string>, before: seq<string>)
    ensures After(before, WalkAll(p, names[|names|..], stack)) == Ok(before)
  {
    assert before + [] == before;
  }

  class Expansion {
    var out: seq<string>
    var seen: set<string>
    var stack: seq<string>

    constructor ()
      ensures Valid() && out == [] && stack == []
    {
      out, seen, stack := [], {}, [];
    }

    ghost predicate Valid()
      reads this
    {
      forall x :: x in seen <==> x in out
    }

    /** Appends each pattern not seen yet. */
    method PushPatterns(patterns: seq<string>)
      requires Valid()
      modifies this`out, this`seen
      ensures Valid() && out == Push(old(out), patterns)
    {
      for i := 0 to |patterns|
        invariant Valid()
        invariant Push(out, patterns[i..]) == Push(old(out), patterns)
      {
        assert patterns[i..][1..] == patterns[i + 1..];
        if patterns[i] !in seen {
          seen := seen + {patterns[i]};
          out := out + [patterns[i]];
        }
      }
      assert patterns[|patterns|..] == [];
    }

    /** Appends `name`'s patterns and its members', guarding against cycles. */
    method ExpandInto(p: PresetMap, name: string) returns (r: Result<(), ExpandError>)
      requires Valid()
      modifies this
      ensures Valid()
      ensures match Walk(p, name, old(stack))
        case Err(e) => r == Err(e)
        case Ok(patterns) => r == Ok(()) && out == Push(old(out), patterns) && stack == old(stack)
      decreases p.Keys - Elems(stack)
    {
      if name in stack {
        stack := stack + [name];
        return Err(Cycle(stack));
      }
      if name !in p {
        return Err(UnknownPreset(name));
      }
      ghost var outer := stack;
      stack := stack + [name];
      assert name in p.Keys - Elems(outer) && name !in p.Keys - Elems(stack);
      PushPatterns(p[name].patterns);
      ghost var before := out;
      ghost var met: seq<string> := [];
      var members := p[name].patternSet;
      AfterNothing(p, members, stack);
      for i := 0 to |members|
        invariant Valid() && stack == outer + [name] && out == Push(before, met)
        invariant After(met, WalkAll(p, members[i..], stack)) == WalkAll(p, members, stack)
      {
        AfterOne(p, members, stack, i, met);
        var sub := ExpandInto(p, members[i]);
        if sub.Err? {
          return Err(sub.error);
        }
        ghost var more := Walk(p, members[i], stack).value;
        PushTwice(before, met, more);
        met := met + more;
      }
      AfterAll(p, members, stack, met);
      PushTwice(old(out), p[name].patterns, met);
      stack := stack[..|stack| - 1];
      return Ok(());
    }
  }

  /** The ordered, de-duplicated patterns of the named presets. */
  method Expand(p: PresetMap, names: seq<string>) returns (r: Result<seq<string>, ExpandError>)
    ensures r == Expanded(p, names)
  {
    var e := new Expansion();
    ghost var met: seq<string> := [];
    AfterNothing(p, names, []);
    for i := 0 to |names|
      invariant e.Valid() && e.out == Push([], met)
      invariant After(met, WalkAll(p, names[i..], [])) == WalkAll(p, names, [])
    {
      AfterOne(p, names, [], i, met);
      e.stack := [];
      var sub := e.ExpandInto(p, names[i]);
      if sub.Err? {
        return Err(sub.error);
      }
      ghost var more := Walk(p, names[i], []).value;
      PushTwice([], met, more);
      met := met + more;
    }
    AfterAll(p, names, [], met);
    return Ok(e.out);
  }

  // ── Reachable presets ────────────────────────────────────────────────────

  /** Each preset of `path` is known and includes the next one. */
  ghost predicate IsPath(p: PresetMap, path: seq<string>) {
    path != [] && forall i :: 0 <= i < |path| - 1 ==> Includes(p, path[i], path[i + 1])
  }

  predicate Includes(p: PresetMap, name: string, member: string) {
    name in p && member in p[name].patternSet
  }

  ghost predicate PathFrom(p: PresetMap, names: seq<string>, path: seq<string>, name: string) {
    IsPath(p, path) && path[0] in names && path[|path| - 1] == name
  }

  ghost predicate Reachable(p: PresetMap, names: seq<string>, name: string) {
    exists path :: PathFrom(p, names, path, name)
  }

  ghost predicate OnCycle(p: PresetMap, name: string) {
    exists path :: IsPath(p, path) && |path| > 1 && path[0] == name && path[|path| - 1] == name
  }

  lemma {:induction false} WalkAllEach(p: PresetMap, names: seq<string>, stack: seq<string>, i: nat)
    requires WalkAll(p, names, stack).Ok? && i < |names|
    ensures Walk(p, names[i], stack).Ok?
    ensures forall x :: x in Walk(p, names[i], stack).value ==> x in WalkAll(p, names, stack).value
    decreases |names|
  {
    if i > 0 {
      WalkAllEach(p, names[1..], stack, i - 1);
      assert names[1..][i - 1] == names[i];
    }
  }

  lemma WalkDown(p: PresetMap, name: string, stack: seq<string>, member: string)
    requires Walk(p, name, stack).Ok? && Includes(p, name, member)
    ensures Walk(p, member, stack + [name]).Ok?
    ensures forall x :: x in Walk(p, member, stack + [name]).value ==> x in Walk(p, name, stack).value
  {
    var members := p[name].patternSet;
    var i :| 0 <= i < |members| && members[i] == member;
    WalkAllEach(p, members, stack + [name], i);
  }

  lemma PathTail(p: PresetMap, path: seq<string>)
    requires IsPath(p, path) && |path| > 1
    ensures IsPath(p, path[1..]) && Includes(p, path[0], path[1])
  {
    assert Includes(p, path[0], path[0 + 1]);
    forall i | 0 <= i < |path[1..]| - 1 ensures Includes(p, path[1..][i], path[1..][i + 1]) {
      assert Includes(p, path[i + 1], path[i + 1 + 1]);
    }
  }

  /** A walk that succeeds meets, along any path, only known presets and none twice. */
  lemma {:induction false} WalkClearsPath(p: PresetMap, name: string, stack: seq<string>, path: seq<string>)
    requires Walk(p, name, stack).Ok? && IsPath(p, path) && path[0] == name
    ensures forall i :: 0 <= i < |path| ==> path[i] in p && path[i] !in stack
    ensures forall i, j :: 0 <= i < j < |path| ==> path[i] != path[j]
    ensures forall x :: x in p[path[|path| - 1]].patterns ==> x in Walk(p, name, stack).value
    decreases |path|
  {
    if |path| > 1 {
      PathTail(p, path);
      WalkDown(p, name, stack, path[1]);
      WalkClearsPath(p, path[1], stack + [name], path[1..]);
      assert forall i :: 0 < i < |path| ==> path[i] == path[1..][i - 1];
    }
  }

  /** What a pattern of a walk comes from. */
  lemma {:induction false} PatternComesFrom(p: PresetMap, name: string, stack: seq<string>, x: string)
    returns (path: seq<string>)
    requires Walk(p, name, stack).Ok? && x in Walk(p, name, stack).value
    ensures IsPath(p, path) && path[0] == name && path[|path| - 1] in p && x in p[path[|path| - 1]].patterns
    decreases p.Keys - Elems(stack), 0
  {
    if x in p[name].patterns {
      path := [name];
    } else {
      assert name in p.Keys - Elems(stack) && name !in p.Keys - Elems(stack + [name]);
      var tail := PatternComesFromAll(p, p[name].patternSet, stack + [name], x);
      path := [name] + tail;
      assert Includes(p, name, tail[0]);
      forall i | 0 <= i < |path| - 1 ensures Includes(p, path[i], path[i + 1]) {
        if i > 0 {
          assert Includes(p, tail[i - 1], tail[i - 1 + 1]);
        }
      }
    }
  }

  lemma {:induction false} PatternComesFromAll(p: PresetMap, names: seq<string>, stack: seq<string>, x: string)
    returns (path: seq<string>)
    requires WalkAll(p, names, stack).Ok? && x in WalkAll(p, names, stack).value
    ensures IsPath(p, path) && path[0] in names && path[|path| - 1] in p && x in p[path[|path| - 1]].patterns
    decreases p.Keys - Elems(stack), 1, |names|
  {
    if x in Walk(p, names[0], stack).value {
      path := PatternComesFrom(p, names[0], stack, x);
    } else {
      path := PatternComesFromAll(p, names[1..], stack, x);
    }
  }

  /** What a refused walk found, with the path that led there. */
  ghost predicate Fault(p: PresetMap, e: ExpandError, start: string) {
    match e
    case UnknownPreset(name) =>
      name !in p && exists path :: IsPath(p, path) && path[0] == start && path[|path| - 1] == name
    case Cycle(path) => IsPath(p, path) && |path| > 1 && path[0] == start && path[|path| - 1] in path[..|path| - 1]
  }

  lemma {:induction false} WalkFault(p: PresetMap, name: string, stack: seq<string>)
    requires Walk(p, name, stack).Err? && IsPath(p, stack + [name])
    ensures Fault(p, Walk(p, name, stack).error, (stack + [name])[0])
    decreases p.Keys - Elems(stack), 0
  {
    var path := stack + [name];
    if name in stack {
      assert path[..|path| - 1] == stack;
    } else if name in p {
      assert name in p.Keys - Elems(stack) && name !in p.Keys - Elems(path);
      WalkAllFault(p, p[name].patternSet, path);
    }
  }

  lemma {:induction false} WalkAllFault(p: PresetMap, names: seq<string>, stack: seq<string>)
    requires WalkAll(p, names, stack).Err? && IsPath(p, stack) && stack[|stack| - 1] in p
    requires forall i :: 0 <= i < |names| ==> names[i] in p[stack[|stack| - 1]].patternSet
    ensures Fault(p, WalkAll(p, names, stack).error, stack[0])
    decreases p.Keys - Elems(stack), 1, |names|
  {
    if Walk(p, names[0], stack).Err? {
      var path := stack + [names[0]];
      forall i | 0 <= i < |path| - 1 ensures Includes(p, path[i], path[i + 1]) {
        if i < |stack| - 1 {
          assert Includes(p, stack[i], stack[i + 1]);
        }
      }
      WalkFault(p, names[0], stack);
      assert path[0] == stack[0];
    } else {
      WalkAllFault(p, names[1..], stack);
    }
  }

  lemma {:induction false} ExpandFault(p: PresetMap, names: seq<string>) returns (start: string)
    requires WalkAll(p, names, []).Err?
    ensures start in names && Fault(p, WalkAll(p, names, []).error, start)
    decreases |names|
  {
    if Walk(p, names[0], []).Err? {
      assert [] + [names[0]] == [names[0]];
      WalkFault(p, names[0], []);
      start := names[0];
    } else {
      start := ExpandFault(p, names[1..]);
    }
  }

  // ── The theorems ─────────────────────────────────────────────────────────

  lemma ReachableFromOne(p: PresetMap, names: seq<string>, path: seq<string>, name: string) returns (i: nat)
    requires PathFrom(p, names, path, name)
    ensures i < |names| && names[i] == path[0]
  {
    i :| 0 <= i < |names| && names[i] == path[0];
  }

  lemma Joined(p: PresetMap, a: seq<string>, b: seq<string>)
    requires IsPath(p, a) && IsPath(p, b) && a[|a| - 1] == b[0]
    ensures IsPath(p, a + b[1..])
  {
    var c := a + b[1..];
    forall i | 0 <= i < |c| - 1 ensures Includes(p, c[i], c[i + 1]) {
      if i < |a| - 1 {
        assert Includes(p, a[i], a[i + 1]);
      } else {
        assert Includes(p, b[i - |a| + 1], b[i - |a| + 1 + 1]);
      }
    }
  }

  lemma SubPath(p: PresetMap, path: seq<string>, i: nat, j: nat)
    requires IsPath(p, path) && i < j <= |path|
    ensures IsPath(p, path[i..j])
  {
    forall k | 0 <= k < j - i - 1 ensures Includes(p, path[i..j][k], path[i..j][k + 1]) {
      assert Includes(p, path[i + k], path[i + k + 1]);
    }
  }

  /** Expansion succeeds exactly when every preset reachable from the names
      exists and none of them lies on a cycle. */
  lemma ExpandsIffSound(p: PresetMap, names: seq<string>)
    ensures Expanded(p, names).Ok? <==>
      (forall name :: Reachable(p, names, name) ==> name in p && !OnCycle(p, name))
  {
    if Expanded(p, names).Ok? {
      forall name | Reachable(p, names, name) ensures name in p && !OnCycle(p, name) {
        var path :| PathFrom(p, names, path, name);
        ReachedIsSound(p, names, path, name);
      }
    } else {
      var start := ExpandFault(p, names);
      FaultIsReached(p, names, WalkAll(p, names, []).error, start);
    }
  }

  lemma ReachedIsSound(p: PresetMap, names: seq<string>, path: seq<string>, name: string)
    requires WalkAll(p, names, []).Ok? && PathFrom(p, names, path, name)
    ensures name in p && !OnCycle(p, name)
  {
    var i := ReachableFromOne(p, names, path, name);
    WalkAllEach(p, names, [], i);
    WalkClearsPath(p, names[i], [], path);
    forall loop | IsPath(p, loop) && |loop| > 1 && loop[0] == name ensures loop[|loop| - 1] != name {
      Joined(p, path, loop);
      var long := path + loop[1..];
      WalkClearsPath(p, names[i], [], long);
      assert long[|path| - 1] == name && long[|long| - 1] == loop[|loop| - 1];
    }
  }

  lemma FaultIsReached(p: PresetMap, names: seq<string>, e: ExpandError, start: string)
    requires start in names && Fault(p, e, start)
    ensures exists name :: Reachable(p, names, name) && (name !in p || OnCycle(p, name))
  {
    match e {
      case UnknownPreset(name) =>
        var path :| IsPath(p, path) && path[0] == start && path[|path| - 1] == name;
        assert PathFrom(p, names, path, name);
        assert Reachable(p, names, name);
      case Cycle(path) =>
        var k := |path| - 1;
        var name := path[k];
        var i :| 0 <= i < k && path[i] == name;
        SubPath(p, path, i, k + 1);
        assert path[i..k + 1][0] == name && path[i..k + 1][k - i] == name;
        assert OnCycle(p, name);
        assert PathFrom(p, names, path, name);
        assert Reachable(p, names, name);
    }
  }

  // ── The result ───────────────────────────────────────────────────────────

  lemma {:induction false} PushKeeps(out: seq<string>, patterns: seq<string>)
    requires Sorting.Distinct(out)
    ensures Sorting.Distinct(Push(out, patterns))
    ensures forall x :: x in Push(out, patterns) <==> x in out || x in patterns
    ensures out <= Push(out, patterns)
    decreases |patterns|
  {
    if patterns != [] {
      var next := if patterns[0] in out then out else out + [patterns[0]];
      PushKeeps(next, patterns[1..]);
      assert patterns == [patterns[0]] + patterns[1..];
    }
  }

  /** The expansion holds each pattern of each reachable preset exactly once,
      and nothing else. */
  lemma ExpansionIsReachablePatterns(p: PresetMap, names: seq<string>, x: string)
    requires Expanded(p, names).Ok?
    ensures Sorting.Distinct(Expanded(p, names).value)
    ensures x in Expanded(p, names).value <==>
      exists name :: Reachable(p, names, name) && name in p && x in p[name].patterns
  {
    var met := WalkAll(p, names, []).value;
    PushKeeps([], met);
    if x in met {
      var path := PatternComesFromAll(p, names, [], x);
      assert PathFrom(p, names, path, path[|path| - 1]);
      assert Reachable(p, names, path[|path| - 1]);
    }
    if name :| Reachable(p, names, name) && name in p && x in p[name].patterns {
      var path :| PathFrom(p, names, path, name);
      var i := ReachableFromOne(p, names, path, name);
      WalkAllEach(p, names, [], i);
      WalkClearsPath(p, names[i], [], path);
    }
  }

  lemma ElemsMore(s: seq<string>, x: string)
    ensures Elems(s + [x]) == Elems(s) + {x}
  {
  }

  /** A walk that succeeds from a longer stack meets the same patterns from a shorter one. */
  lemma {:induction false} WalkForgetsStack(p: PresetMap, name: string, stack: seq<string>, fewer: seq<string>)
    requires Walk(p, name, stack).Ok? && Elems(fewer) <= Elems(stack)
    ensures Walk(p, name, fewer) == Walk(p, name, stack)
    decreases p.Keys - Elems(stack), 0
  {
    assert name in p.Keys - Elems(stack) && name !in p.Keys - Elems(stack + [name]);
    assert name !in Elems(fewer);
    ElemsMore(fewer, name);
    ElemsMore(stack, name);
    WalkAllForgetsStack(p, p[name].patternSet, stack + [name], fewer + [name]);
  }

  lemma {:induction false} WalkAllForgetsStack(
    p: PresetMap, names: seq<string>, stack: seq<string>, fewer: seq<string>)
    requires WalkAll(p, names, stack).Ok? && Elems(fewer) <= Elems(stack)
    ensures WalkAll(p, names, fewer) == WalkAll(p, names, stack)
    decreases p.Keys - Elems(stack), 1, |names|
  {
    if names != [] {
      WalkForgetsStack(p, names[0], stack, fewer);
      WalkAllForgetsStack(p, names[1..], stack, fewer);
    }
  }

  /** `all` is `first` and then what `more` holds besides, in its order. */
  ghost predicate Followed(first: seq<string>, more: seq<string>, all: seq<string>) {
    && first <= all && Sorting.Distinct(all)
    && (forall x :: x in all <==> x in first || x in more)
    && forall a, b :: a in more && b in more && a !in first && b !in first
                      && FirstAt(more, a) < FirstAt(more, b) ==>
         FirstAt(all, a) < FirstAt(all, b)
  }

  lemma PushFollows(out: seq<string>, more: seq<string>)
    requires Sorting.Distinct(out)
    ensures Followed(out, more, Push(out, more))
  {
    PushKeeps(out, more);
    forall a, b | a in more && b in more && a !in out && b !in out && FirstAt(more, a) < FirstAt(more, b)
      ensures FirstAt(Push(out, more), a) < FirstAt(Push(out, more), b)
    {
      PushOrders(out, more, a, b);
    }
  }

  lemma PushOrders(out: seq<string>, more: seq<string>, a: string, b: string)
    requires Sorting.Distinct(out) && a in more && b in more && a !in out && b !in out
    requires FirstAt(more, a) < FirstAt(more, b)
    ensures a in Push(out, more) && b in Push(out, more)
    ensures FirstAt(Push(out, more), a) < FirstAt(Push(out, more), b)
  {
    var k := FirstAt(more, a) + 1;
    FirstUpTo(more, a, b);
    assert more == more[..k] + more[k..];
    PushInParts(out, more[..k], more[k..]);
    PushKeeps(out, more);
    PrefixComesFirst(Push(out, more[..k]), Push(out, more), a, b);
  }

  lemma PushInParts(out: seq<string>, a: seq<string>, b: seq<string>)
    requires Sorting.Distinct(out)
    ensures Push(out, a) <= Push(out, a + b) && forall x :: x in Push(out, a) <==> x in out || x in a
  {
    PushKeeps(out, a);
    PushTwice(out, a, b);
    PushKeeps(Push(out, a), b);
  }

  lemma FirstUpTo(s: seq<string>, a: string, b: string)
    requires a in s && b in s && FirstAt(s, a) < FirstAt(s, b)
    ensures a in s[..FirstAt(s, a) + 1] && b !in s[..FirstAt(s, a) + 1]
  {
    var k := FirstAt(s, a) + 1;
    assert s[..k][k - 1] == a;
    assert forall i :: 0 <= i < k ==> s[i] in s[..FirstAt(s, b)];
  }

  /** Pushing what was pushed is pushing it. */
  lemma {:induction false} PushPushed(out: seq<string>, kept: seq<string>, more: seq<string>)
    ensures Push(out, Push(kept, more)) == Push(Push(out, kept), more)
    decreases |more|
  {
    if more != [] {
      var next := if more[0] in kept then kept else kept + [more[0]];
      PushPushed(out, next, more[1..]);
      PushHas(out, kept);
      if more[0] !in kept {
        PushTwice(out, kept, [more[0]]);
        assert [more[0]][1..] == [];
      }
    }
  }

  lemma {:induction false} PushHas(out: seq<string>, patterns: seq<string>)
    ensures forall x :: x in Push(out, patterns) <==> x in out || x in patterns
    decreases |patterns|
  {
    if patterns != [] {
      PushHas(if patterns[0] in out then out else out + [patterns[0]], patterns[1..]);
      assert patterns == [patterns[0]] + patterns[1..];
    }
  }

  lemma {:induction false} WalkAllJoins(p: PresetMap, names: seq<string>, more: seq<string>, stack: seq<string>)
    requires WalkAll(p, names + more, stack).Ok?
    ensures WalkAll(p, names, stack).Ok? && WalkAll(p, more, stack).Ok?
    ensures WalkAll(p, names + more, stack).value == WalkAll(p, names, stack).value + WalkAll(p, more, stack).value
    decreases |names|
  {
    if names == [] {
      assert names + more == more;
    } else {
      assert (names + more)[1..] == names[1..] + more;
      WalkAllJoins(p, names[1..], more, stack);
    }
  }

  /** A preset expands to its own patterns first, each once, and then to what its members,
      taken in the order listed, expand to besides. */
  lemma OwnPatternsFirst(p: PresetMap, name: string)
    requires Expanded(p, [name]).Ok?
    ensures name in p && Expanded(p, p[name].patternSet).Ok?
    ensures Followed(Push([], p[name].patterns), Expanded(p, p[name].patternSet).value, Expanded(p, [name]).value)
    ensures Followed([], p[name].patterns, Push([], p[name].patterns))
  {
    assert [name][1..] == [];
    assert [] + [name] == [name];
    assert Walk(p, name, []).Ok?;
    var own, members := p[name].patterns, p[name].patternSet;
    WalkAllForgetsStack(p, members, [name], []);
    var below := WalkAll(p, members, []).value;
    assert WalkAll(p, [name], []).value == own + below + [];
    assert own + below + [] == own + below;
    PushTwice([], own, below);
    PushPushed(Push([], own), [], below);
    PushFollows([], own);
    PushFollows(Push([], own), Push([], below));
  }

  /** A list of names expands to what its beginning does and then to what the rest does
      besides. */
  lemma EarlierNamesFirst(p: PresetMap, names: seq<string>, more: seq<string>)
    requires Expanded(p, names + more).Ok?
    ensures Expanded(p, names).Ok? && Expanded(p, more).Ok?
    ensures Followed(Expanded(p, names).value, Expanded(p, more).value, Expanded(p, names + more).value)
  {
    WalkAllJoins(p, names, more, []);
    var a, b := WalkAll(p, names, []).value, WalkAll(p, more, []).value;
    PushTwice([], a, b);
    PushPushed(Push([], a), [], b);
    PushFollows([], a);
    PushFollows(Push([], a), Push([], b));
  }

  /** Where `x` is first met. */
  ghost function FirstAt(s: seq<string>, x: string): (i: nat)
    requires x in s
    ensures i < |s| && s[i] == x && x !in s[..i]
  {
    if s[0] == x then 0
    else
      assert s == [s[0]] + s[1..];
      var i := FirstAt(s[1..], x);
      assert s[..i + 1] == [s[0]] + s[1..][..i];
      i + 1
  }

  /** The patterns of the walk appear in the expansion in the order they are
      first met: those of the first k steps come before any met later. */
  lemma FirstVisitOrder(p: PresetMap, names: seq<string>, a: string, b: string)
    requires Expanded(p, names).Ok? && a in Expanded(p, names).value && b in Expanded(p, names).value
    requires var met := WalkAll(p, names, []).value; a in met && b in met && FirstAt(met, a) < FirstAt(met, b)
    ensures FirstAt(Expanded(p, names).value, a) < FirstAt(Expanded(p, names).value, b)
  {
    PushKeepsOrder(WalkAll(p, names, []).value, a, b);
  }

  /** Leaving out repetitions keeps the order of first occurrences. */
  lemma PushKeepsOrder(met: seq<string>, a: string, b: string)
    requires a in met && b in met && FirstAt(met, a) < FirstAt(met, b)
    ensures a in Push([], met) && b in Push([], met) && FirstAt(Push([], met), a) < FirstAt(Push([], met), b)
  {
    PushOrders([], met, a, b);
  }

  lemma {:induction false} FirstAtMost(s: seq<string>, x: string, i: nat)
    requires i < |s| && s[i] == x
    ensures FirstAt(s, x) <= i
  {
    if s[0] != x {
      FirstAtMost(s[1..], x, i - 1);
    }
  }

  lemma PrefixComesFirst(before: seq<string>, all: seq<string>, a: string, b: string)
    requires before <= all && a in before && b !in before && b in all
    ensures FirstAt(all, a) < FirstAt(all, b)
  {
    var i := FirstAt(before, a);
    FirstAtMost(all, a, i);
    assert forall j :: 0 <= j < |before| ==> all[j] == before[j] && before[j] in before;
  }
}
