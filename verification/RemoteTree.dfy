/** Recursive removal and recursive mode changes on a remote file system, reached through
    single operations that may each fail. No one else changes the file system meanwhile. */
module RemoteTree {
  import opened Bytes

  /** A path without symbolic links in its inner components. */
  type Path = seq<string>

  /** A link carries the path it finally resolves to. */
  datatype Entry = File(mode: nat) | Dir(mode: nat) | Link(target: Path)

  type Tree = map<Path, Entry>

  function Parent(p: Path): Path
    requires p != []
  {
    p[..|p| - 1]
  }

  /** There is a root, and everything else lies in a directory. */
  ghost predicate WellFormed(t: Tree) {
    && [] in t && t[[]].Dir?
    && forall p: Path | p in t && p != [] :: Parent(p) in t && t[Parent(p)].Dir?
  }

  function Subtree(t: Tree, f: Path): set<Path> {
    set p | p in t && f <= p
  }

  function ChildNames(t: Tree, f: Path): (names: set<string>)
    ensures forall n :: n in names <==> f + [n] in t
  {
    var names := set p | p in t && f < p && |p| == |f| + 1 :: p[|f|];
    assert forall n | f + [n] in t :: f < f + [n] && (f + [n])[|f|] == n;
    assert forall p | p in t && f < p && |p| == |f| + 1 :: p == f + [p[|f|]];
    names
  }

  predicate Distinct(names: seq<string>) {
    forall i, j | 0 <= i < j < |names| :: names[i] != names[j]
  }

  ghost predicate Lists(t: Tree, f: Path, names: seq<string>) {
    forall n :: n in names <==> f + [n] in t
  }

  predicate HasChildren(t: Tree, f: Path) {
    exists p | p in t :: f <= p && |p| == |f| + 1
  }

  /** What the operations of the remote server do. Any of them may fail, unless the server is
      `reliable`. `refused` counts requests to remove a directory that was not empty. */
  class Sftp {
    const reliable: bool
    var fs: Tree
    var refused: nat

    constructor (fs: Tree, reliable: bool)
      ensures this.fs == fs && refused == 0 && this.reliable == reliable
    {
      this.fs, refused, this.reliable := fs, 0, reliable;
    }

    /** Looks at the entry itself, without following a link. */
    method Lstat(p: Path) returns (e: Option<Entry>)
      ensures e.Some? ==> p in fs && e.value == fs[p]
      ensures reliable && p in fs ==> e.Some?
    {
      var fails := *;
      e := if p in fs && (reliable || !fails) then Some(fs[p]) else None;
    }

    /** Lists each child of a directory once, in some order. */
    method ReadDir(p: Path) returns (names: Option<seq<string>>)
      ensures reliable && p in fs && fs[p].Dir? ==> names.Some?
      ensures names.Some? ==> p in fs && fs[p].Dir? && Lists(fs, p, names.value) && Distinct(names.value)
    {
      var fails := *;
      if p !in fs || !fs[p].Dir? || (fails && !reliable) {
        return None;
      }
      var list: seq<string> := [];
      var todo := ChildNames(fs, p);
      while todo != {}
        invariant forall n :: n in ChildNames(fs, p) <==> n in todo || n in list
        invariant forall n | n in todo :: n !in list
        invariant Distinct(list)
        decreases todo
      {
        var n :| n in todo;
        list := list + [n];
        todo := todo - {n};
      }
      names := Some(list);
    }

    /** Removes anything but a directory. */
    method Remove(p: Path) returns (ok: bool)
      modifies this`fs
      ensures ok ==> p in old(fs) && !old(fs)[p].Dir? && fs == old(fs) - {p}
      ensures !ok ==> fs == old(fs)
      ensures reliable && p in old(fs) && !old(fs)[p].Dir? ==> ok
    {
      var fails := *;
      ok := p in fs && !fs[p].Dir? && (reliable || !fails);
      if ok {
        fs := fs - {p};
      }
    }

    /** Removes an empty directory that is not the root. */
    method RemoveDirectory(p: Path) returns (ok: bool)
      modifies this
      ensures ok ==> p in old(fs) && old(fs)[p].Dir? && p != [] && !HasChildren(old(fs), p) && fs == old(fs) - {p}
      ensures !ok ==> fs == old(fs)
      ensures reliable && p in old(fs) && old(fs)[p].Dir? && p != [] && !HasChildren(old(fs), p) ==> ok
      ensures refused == old(refused) + (if HasChildren(old(fs), p) then 1 else 0)
    {
      var fails := *;
      if HasChildren(fs, p) {
        refused := refused + 1;
      }
      ok := p in fs && fs[p].Dir? && p != [] && !HasChildren(fs, p) && (reliable || !fails);
      if ok {
        fs := fs - {p};
      }
    }

    /** Sets the mode of what the path resolves to, following a final link. */
    method Chmod(p: Path, perm: nat) returns (ok: bool)
      modifies this`fs
      ensures ok ==> Resolve(old(fs), p).Some? && fs == WithModes(old(fs), {Resolve(old(fs), p).value}, perm)
      ensures !ok ==> fs == old(fs)
      ensures reliable && Resolve(old(fs), p).Some? ==> ok
    {
      var fails := *;
      var q := Resolve(fs, p);
      ok := q.Some? && (reliable || !fails);
      if ok {
        fs := fs[q.value := SetMode(fs[q.value], perm)];
        assert fs == WithModes(old(fs), {q.value}, perm);
      }
    }
  }

  // ----- recursive removal -----

  /** `after` lost some entries under `f` and nothing else changed. */
  ghost predicate Thinned(before: Tree, after: Tree, f: Path) {
    && after.Keys <= before.Keys
    && (forall p | p in after :: after[p] == before[p])
    && (forall p | p in before && !(f <= p) :: p in after)
  }

  /** Every ancestor of an entry exists, and is a directory if it is a proper one. */
  lemma {:induction false} AncestorExists(t: Tree, p: Path, k: nat)
    requires WellFormed(t) && p in t && k <= |p|
    ensures p[..k] in t
    ensures k < |p| ==> t[p[..k]].Dir?
    decreases |p|
  {
    if k < |p| {
      if k < |p| - 1 {
        AncestorExists(t, Parent(p), k);
        assert Parent(p)[..k] == p[..k];
      }
    } else {
      assert p[..k] == p;
    }
  }

  /** Something strictly below `f` lies below one of its children. */
  lemma ChildAbove(t: Tree, f: Path, p: Path)
    requires WellFormed(t) && p in t && f < p
    ensures p[..|f| + 1] in t && p[..|f| + 1] == f + [p[|f|]]
  {
    AncestorExists(t, p, |f| + 1);
  }

  lemma SmallerSubtree(t: Tree, t': Tree, f: Path, g: Path)
    requires f in t && f < g && t'.Keys <= t.Keys
    ensures |Subtree(t', g)| < |Subtree(t, f)|
  {
    assert Subtree(t', g) <= Subtree(t, f) - {f};
    CardinalityMonotone(Subtree(t', g), Subtree(t, f) - {f});
  }

  lemma {:induction false} CardinalityMonotone(a: set<Path>, b: set<Path>)
    requires a <= b
    ensures |a| <= |b|
  {
    if a != {} {
      var x :| x in a;
      CardinalityMonotone(a - {x}, b - {x});
    }
  }

  /** A removed subtree leaves a well-formed tree. */
  lemma RemovedWellFormed(t: Tree, f: Path)
    requires WellFormed(t) && f != []
    ensures WellFormed(t - Subtree(t, f))
  {
    var t' := t - Subtree(t, f);
    forall p | p in t' && p != [] ensures Parent(p) in t' && t'[Parent(p)].Dir? {
      assert Parent(p) in t;
    }
  }

  /** `done` children of `f` are gone, with everything below them. */
  ghost predicate ChildrenGone(before: Tree, after: Tree, f: Path, done: seq<string>) {
    && after.Keys <= before.Keys
    && (forall p | p in after :: after[p] == before[p])
    && (forall p | p in before :: p in after <==> !(f < p && p[|f|] in done))
  }

  lemma OneMoreGone(before: Tree, mid: Tree, after: Tree, f: Path, done: seq<string>, name: string)
    requires ChildrenGone(before, mid, f, done) && after == mid - Subtree(mid, f + [name])
    ensures ChildrenGone(before, after, f, done + [name])
  {
    forall p | p in before ensures p in after <==> !(f < p && p[|f|] in done + [name]) {
      assert f + [name] <= p <==> (f < p && p[|f|] == name);
    }
  }

  lemma ThinnedFurther(before: Tree, mid: Tree, after: Tree, f: Path, done: seq<string>, name: string)
    requires ChildrenGone(before, mid, f, done) && Thinned(mid, after, f + [name])
    ensures Thinned(before, after, f)
  {
  }

  /** Nothing strictly below `f` is left, and nothing else changed. */
  ghost predicate Emptied(before: Tree, after: Tree, f: Path) {
    && after.Keys <= before.Keys
    && (forall p | p in after :: after[p] == before[p])
    && (forall p | p in before :: p in after <==> !(f < p))
  }

  lemma AllChildrenGone(before: Tree, after: Tree, f: Path, names: seq<string>)
    requires WellFormed(before) && f in before
    requires ChildrenGone(before, after, f, names)
    requires Lists(before, f, names)
    ensures Emptied(before, after, f)
  {
    forall p | p in before && f < p ensures p[|f|] in names {
      ChildAbove(before, f, p);
    }
  }

  lemma EmptiedThenRemoved(before: Tree, after: Tree, f: Path)
    requires Emptied(before, after, f)
    ensures !HasChildren(after, f)
    ensures Thinned(before, after, f)
    ensures f in before ==> f in after && after[f] == before[f] && after - {f} == before - Subtree(before, f)
  {
    assert forall p | p in before :: f <= p <==> p == f || f < p;
  }

  lemma NoneGone(t: Tree, f: Path)
    ensures ChildrenGone(t, t, f, [])
    ensures Thinned(t, t, f)
  {
  }

  /** Success removes exactly the entries at or under `f`; links are removed, not followed, and a
      directory is only asked away when it is empty. On failure the rest is still a well-formed
      tree that differs only under `f`. */
  method RecDelete(c: Sftp, f: Path) returns (ok: bool)
    requires WellFormed(c.fs)
    modifies c
    ensures WellFormed(c.fs) && c.refused == old(c.refused)
    ensures ok ==> f in old(c.fs) && f != [] && c.fs == old(c.fs) - Subtree(old(c.fs), f)
    ensures !ok ==> Thinned(old(c.fs), c.fs, f)
    ensures c.reliable && f in old(c.fs) && f != [] ==> ok
    decreases |Subtree(c.fs, f)|
  {
    hide WellFormed, HasChildren, Subtree, Thinned, ChildrenGone, Emptied, Lists, Distinct;
    ghost var before := c.fs;
    NoneGone(before, f);
    var e := c.Lstat(f);
    if e.None? {
      return false;
    }
    if e.value.Dir? {
      var names := c.ReadDir(f);
      if names.None? {
        return false;
      }
      var i := 0;
      assert names.value[..i] == [];
      while i < |names.value|
        invariant 0 <= i <= |names.value|
        invariant WellFormed(c.fs) && c.refused == old(c.refused)
        invariant ChildrenGone(before, c.fs, f, names.value[..i])
      {
        ghost var mid := c.fs;
        var name := names.value[i];
        NextChild(before, f, names.value, i);
        GoneKeys(before, mid, f, names.value[..i], name);
        SmallerSubtree(before, mid, f, f + [name]);
        var done := RecDelete(c, f + [name]);
        if !done {
          ThinnedFurther(before, mid, c.fs, f, names.value[..i], name);
          return false;
        }
        OneMoreGone(before, mid, c.fs, f, names.value[..i], name);
        assert names.value[..i + 1] == names.value[..i] + [name];
        i := i + 1;
      }
      assert names.value[..i] == names.value;
      AllChildrenGone(before, c.fs, f, names.value);
      EmptiedThenRemoved(before, c.fs, f);
      ok := c.RemoveDirectory(f);
    } else {
      LeafSubtree(before, f);
      ok := c.Remove(f);
    }
    if ok {
      RemovedWellFormed(before, f);
    }
  }

  lemma NextChild(t: Tree, f: Path, names: seq<string>, i: nat)
    requires i < |names| && Lists(t, f, names) && Distinct(names)
    ensures f + [names[i]] in t && names[i] !in names[..i]
  {
    assert names[i] in names;
  }

  lemma GoneKeys(before: Tree, after: Tree, f: Path, done: seq<string>, name: string)
    requires ChildrenGone(before, after, f, done)
    ensures after.Keys <= before.Keys
    ensures f + [name] in before && name !in done ==> f + [name] in after
  {
  }

  /** Nothing lies below an entry that is not a directory. */
  lemma LeafSubtree(t: Tree, f: Path)
    requires WellFormed(t) && f in t && !t[f].Dir?
    ensures Subtree(t, f) == {f} && f != []
  {
    forall p | p in Subtree(t, f) ensures p == f {
      AncestorExists(t, p, |f|);
      assert p[..|f|] == f;
    }
  }

  // ----- recursive mode changes -----

  /** The entry a mode change lands on; a link that leads to nothing or to a link resolves to nothing. */
  function Resolve(t: Tree, p: Path): (q: Option<Path>)
    ensures q.Some? ==> q.value in t && !t[q.value].Link?
  {
    if p !in t then None
    else if !t[p].Link? then Some(p)
    else if t[p].target in t && !t[t[p].target].Link? then Some(t[p].target)
    else None
  }

  function SetMode(e: Entry, perm: nat): Entry {
    match e
    case File(_) => File(perm)
    case Dir(_) => Dir(perm)
    case Link(_) => e
  }

  function WithModes(t: Tree, ps: set<Path>, perm: nat): Tree {
    map p | p in t :: if p in ps then SetMode(t[p], perm) else t[p]
  }

  /** Everything mode changes on all of `ps` land on. */
  function Targets(t: Tree, ps: set<Path>): set<Path> {
    set p | p in ps && Resolve(t, p).Some? :: Resolve(t, p).value
  }

  lemma ModesKeepShape(t: Tree, ps: set<Path>, perm: nat, more: set<Path>)
    ensures WithModes(WithModes(t, ps, perm), more, perm) == WithModes(t, ps + more, perm)
    ensures forall p :: Resolve(WithModes(t, ps, perm), p) == Resolve(t, p)
    ensures forall f :: Subtree(WithModes(t, ps, perm), f) == Subtree(t, f)
  {
  }

  lemma TargetsUnion(t: Tree, a: set<Path>, b: set<Path>)
    ensures Targets(t, a + b) == Targets(t, a) + Targets(t, b)
  {
  }

  /** The entries below the first `n` listed children of `f`, and `f` itself. */
  function Visited(t: Tree, f: Path, names: seq<string>): set<Path> {
    set p | p in t && (p == f || (f < p && p[|f|] in names))
  }

  lemma VisitedMore(t: Tree, f: Path, names: seq<string>, name: string)
    ensures Visited(t, f, names + [name]) == Visited(t, f, names) + Subtree(t, f + [name])
  {
    forall p | p in t ensures f + [name] <= p <==> (f < p && p[|f|] == name) {
    }
  }

  lemma VisitedAll(t: Tree, f: Path, names: seq<string>)
    requires WellFormed(t) && f in t
    requires Lists(t, f, names)
    ensures Visited(t, f, names) == Subtree(t, f)
  {
    forall p | p in t && f < p ensures p[|f|] in names {
      ChildAbove(t, f, p);
    }
  }

  /** `after` is `before` with the mode of everything `done` resolves to changed; all of it resolves. */
  ghost predicate Applied(before: Tree, after: Tree, done: set<Path>, perm: nat) {
    && after == WithModes(before, Targets(before, done), perm)
    && forall p | p in done :: Resolve(before, p).Some?
  }

  /** Only modes changed, and only of things entries under `f` resolve to. */
  ghost predicate PartlyApplied(before: Tree, after: Tree, f: Path, perm: nat) {
    exists ps | ps <= Targets(before, Subtree(before, f)) :: after == WithModes(before, ps, perm)
  }

  ghost predicate AllResolve(t: Tree, f: Path) {
    forall p | p in Subtree(t, f) :: Resolve(t, p).Some?
  }

  lemma ChildResolves(before: Tree, mid: Tree, done: set<Path>, perm: nat, f: Path, name: string)
    requires Applied(before, mid, done, perm) && AllResolve(before, f)
    ensures AllResolve(mid, f + [name])
  {
    ModesKeepShape(before, Targets(before, done), perm, {});
    assert Subtree(mid, f + [name]) <= Subtree(before, f);
  }

  lemma SelfResolves(t: Tree, f: Path)
    requires f in t && AllResolve(t, f)
    ensures Resolve(t, f).Some?
  {
    assert f in Subtree(t, f);
  }

  lemma AppliedShape(before: Tree, after: Tree, done: set<Path>, perm: nat, f: Path)
    requires Applied(before, after, done, perm)
    ensures WellFormed(before) ==> WellFormed(after)
    ensures after.Keys == before.Keys && Subtree(after, f) == Subtree(before, f)
    ensures f in before ==> (after[f].Dir? <==> before[f].Dir?)
  {
  }

  lemma AppliedOne(before: Tree, f: Path, perm: nat)
    requires Resolve(before, f).Some?
    ensures Applied(before, WithModes(before, {Resolve(before, f).value}, perm), {f}, perm)
    ensures f in before
  {
    assert Targets(before, {f}) == {Resolve(before, f).value};
  }

  lemma AppliedMore(before: Tree, mid: Tree, after: Tree, done: set<Path>, more: set<Path>, perm: nat)
    requires Applied(before, mid, done, perm) && Applied(mid, after, more, perm)
    ensures Applied(before, after, done + more, perm)
  {
    ModesKeepShape(before, Targets(before, done), perm, Targets(before, more));
    TargetsUnion(before, done, more);
    assert Targets(mid, more) == Targets(before, more);
  }

  lemma AppliedSoFar(before: Tree, after: Tree, done: set<Path>, f: Path, perm: nat)
    requires Applied(before, after, done, perm) && done <= Subtree(before, f)
    ensures PartlyApplied(before, after, f, perm)
  {
    assert Targets(before, done) <= Targets(before, Subtree(before, f));
  }

  lemma NothingApplied(t: Tree, f: Path, perm: nat)
    ensures PartlyApplied(t, t, f, perm)
  {
    assert t == WithModes(t, {}, perm);
  }

  lemma PartlyMore(before: Tree, mid: Tree, after: Tree, done: set<Path>, f: Path, g: Path, perm: nat)
    requires Applied(before, mid, done, perm) && done <= Subtree(before, f)
    requires f <= g && PartlyApplied(mid, after, g, perm)
    ensures PartlyApplied(before, after, f, perm)
  {
    var ps :| ps <= Targets(mid, Subtree(mid, g)) && after == WithModes(mid, ps, perm);
    ModesKeepShape(before, Targets(before, done), perm, ps);
    assert Subtree(before, g) <= Subtree(before, f);
    assert ps <= Targets(before, Subtree(before, f));
    assert Targets(before, done) + ps <= Targets(before, Subtree(before, f));
  }

  lemma ListsSame(t: Tree, t': Tree, f: Path, names: seq<string>)
    requires t.Keys == t'.Keys && Lists(t, f, names)
    ensures Lists(t', f, names)
  {
  }

  lemma VisitedInside(t: Tree, f: Path, names: seq<string>)
    ensures Visited(t, f, names) <= Subtree(t, f)
    ensures f in t ==> Visited(t, f, []) == {f}
  {
  }

  /** Success changes the modes of exactly what the subtree's entries resolve to; failure at most of those. */
  method Chmod(c: Sftp, f: Path, perm: nat, rec: bool) returns (ok: bool)
    requires WellFormed(c.fs)
    modifies c`fs
    ensures ok && rec ==> f in old(c.fs) && Applied(old(c.fs), c.fs, Subtree(old(c.fs), f), perm)
    ensures ok && !rec ==> Applied(old(c.fs), c.fs, {f}, perm)
    ensures !ok ==> PartlyApplied(old(c.fs), c.fs, f, perm)
    ensures c.reliable && f in old(c.fs) && AllResolve(old(c.fs), f) ==> ok
    decreases |Subtree(c.fs, f)|
  {
    hide WellFormed, Subtree, Applied, PartlyApplied, Visited, Resolve, WithModes, AllResolve, Lists, Distinct;
    ghost var before := c.fs;
    NothingApplied(before, f, perm);
    if f in before && AllResolve(before, f) {
      SelfResolves(before, f);
    }
    ok := c.Chmod(f, perm);
    if !ok {
      return;
    }
    AppliedOne(before, f, perm);
    if !rec {
      return;
    }
    VisitedInside(before, f, []);
    AppliedSoFar(before, c.fs, {f}, f, perm);
    AppliedShape(before, c.fs, {f}, perm, f);
    var e := c.Lstat(f);
    if e.None? {
      return false;
    }
    if !e.value.Dir? {
      LeafSubtree(before, f);
      return;
    }
    var names := c.ReadDir(f);
    if names.None? {
      return false;
    }
    ListsSame(c.fs, before, f, names.value);
    var i := 0;
    assert names.value[..0] == [];
    while i < |names.value|
      invariant 0 <= i <= |names.value|
      invariant Applied(before, c.fs, Visited(before, f, names.value[..i]), perm)
    {
      ghost var done := Visited(before, f, names.value[..i]);
      var name := names.value[i];
      ghost var mid := c.fs;
      NextChild(before, f, names.value, i);
      AppliedShape(before, mid, done, perm, f + [name]);
      SmallerSubtree(before, mid, f, f + [name]);
      if AllResolve(before, f) {
        ChildResolves(before, mid, done, perm, f, name);
      }
      ok := Chmod(c, f + [name], perm, rec);
      VisitedInside(before, f, names.value[..i]);
      if !ok {
        PartlyMore(before, mid, c.fs, done, f, f + [name], perm);
        return;
      }
      AppliedMore(before, mid, c.fs, done, Subtree(before, f + [name]), perm);
      VisitedMore(before, f, names.value[..i], name);
      assert names.value[..i + 1] == names.value[..i] + [name];
      i := i + 1;
    }
    assert names.value[..i] == names.value;
    VisitedAll(before, f, names.value);
    ok := true;
  }

  function ModeOf(e: Entry): Option<nat> {
    if e.Link? then None else Some(e.mode)
  }

  /** The recursive change sets exactly the modes of the subtree if and only if every link in it
      leads back into it, or to something that has that mode already. */
  lemma ChmodConfined(t: Tree, f: Path, perm: nat)
    requires AllResolve(t, f)
    ensures WithModes(t, Targets(t, Subtree(t, f)), perm) == WithModes(t, Subtree(t, f), perm) <==>
            forall p | p in Subtree(t, f) && t[p].Link? ::
              t[p].target in Subtree(t, f) || ModeOf(t[t[p].target]) == Some(perm)
  {
    var sub := Subtree(t, f);
    var left, right := WithModes(t, Targets(t, sub), perm), WithModes(t, sub, perm);
    if forall p | p in sub && t[p].Link? :: t[p].target in sub || ModeOf(t[t[p].target]) == Some(perm) {
      forall q | q in t ensures left[q] == right[q] {
        if q in sub && !t[q].Link? {
          assert Resolve(t, q).value == q;
        } else if q in Targets(t, sub) {
          var p :| p in sub && Resolve(t, p) == Some(q);
        }
      }
    } else {
      var p :| p in sub && t[p].Link? && t[p].target !in sub && ModeOf(t[t[p].target]) != Some(perm);
      var q := t[p].target;
      assert Resolve(t, p) == Some(q) && q in Targets(t, sub);
      assert left[q] != right[q];
    }
  }

  /** A directory with a link to a file beside it. */
  function LinkOut(): Tree {
    map[[] := Dir(7), ["d"] := Dir(7), ["d", "l"] := Link(["f"]), ["f"] := File(6)]
  }

  /** Changing the directory recursively changes the file outside it. */
  lemma ChmodEscapes()
    ensures WellFormed(LinkOut()) && AllResolve(LinkOut(), ["d"]) && ["f"] !in Subtree(LinkOut(), ["d"])
    ensures WithModes(LinkOut(), Targets(LinkOut(), Subtree(LinkOut(), ["d"])), 7)[["f"]] == File(7)
    ensures LinkOut()[["f"]] == File(6)
  {
    var t := LinkOut();
    assert Parent(["d"]) == [] && Parent(["f"]) == [] && Parent(["d", "l"]) == ["d"];
    assert ["d"] <= ["d", "l"];
    assert ["f"][0] == "f" && "f"[0] != "d"[0];
    assert ["d", "l"] in Subtree(t, ["d"]);
    assert Resolve(t, ["d", "l"]) == Some(["f"]);
    assert ["f"] in Targets(t, Subtree(t, ["d"]));
  }

  /** A successful recursive change, entry by entry: everything at or under the path that is not a link, and
      everything a link there leads to, has the mode and is otherwise what it was; nothing else changed. */
  lemma ChmodEntryByEntry(before: Tree, after: Tree, f: Path, perm: nat)
    requires Applied(before, after, Subtree(before, f), perm)
    ensures after.Keys == before.Keys
    ensures forall p | p in before ::
              if before[p].Link? then after[p] == before[p]
              else if f <= p || (exists l | l in before :: f <= l && before[l] == Link(p))
              then ModeOf(after[p]) == Some(perm) && (after[p].Dir? <==> before[p].Dir?)
              else after[p] == before[p]
  {
    var done := Subtree(before, f);
    forall p | p in before && !before[p].Link?
      ensures p in Targets(before, done) <==> f <= p || exists l | l in before :: f <= l && before[l] == Link(p)
    {
      if p in Targets(before, done) {
        var l :| l in done && Resolve(before, l) == Some(p);
      }
      if f <= p {
        assert p in done && Resolve(before, p) == Some(p);
      }
      if l :| l in before && f <= l && before[l] == Link(p) {
        assert l in done && Resolve(before, l) == Some(p);
      }
    }
  }
}
