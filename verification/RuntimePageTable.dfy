/**
 Page-table memory and the operations of kernel/src/runtime_page_table.rs on it,
 in place. `PhysMemory.seen` records the memory after every single `write_entry`.
 */
module RuntimePageTables {
  import opened Machine
  import opened PageTableModel

  datatype Outcome<T> = Ok(value: T) | Err(error: Error)

  /** Nothing but the tables `fs` differs. */
  ghost predicate SameOutside(a: Tables, b: Tables, fs: seq<Frame>) {
    forall f :: f in a && f !in fs ==> f in b && b[f] == a[f]
  }

  class PhysMemory {
    const g: Geometry
    var tables: Tables
    var free: seq<Frame>
    ghost var seen: seq<Tables>

    ghost predicate Valid()
      reads this
    {
      && g.Valid()
      && (forall f :: f in tables ==> |tables[f]| == g.width)
      && (forall i :: 0 <= i < |free| ==> free[i] !in tables && (g.format.Sentinel? ==> free[i] !in g.format.invalid))
      && Distinct(free)
    }

    function BlankTable(level: nat): (t: seq<Entry>)
      requires g.Valid()
      ensures |t| == g.width && forall i :: 0 <= i < g.width ==> t[i] == g.Blank(level)
    {
      seq(g.width, i => g.Blank(level))
    }

    function ReadEntry(f: Frame, i: nat): Entry
      requires g.HasTable(tables, f) && i < g.width
      reads this
    {
      tables[f][i]
    }

    method WriteEntry(f: Frame, i: nat, e: Entry)
      requires Valid() && g.HasTable(tables, f) && i < g.width
      modifies this
      ensures Valid() && free == old(free)
      ensures tables == g.Write(old(tables), f, i, e)
      ensures seen == old(seen) + [tables]
    {
      tables := tables[f := tables[f][i := e]];
      seen := seen + [tables];
    }

    method AllocateTable(level: nat) returns (r: Outcome<Frame>)
      requires Valid()
      modifies this
      ensures Valid() && seen == old(seen)
      ensures r.Err? <==> old(free) == []
      ensures r.Err? ==> tables == old(tables) && free == old(free) && r.error == OutOfFrames
      ensures r.Ok? ==>
        r.value == old(free)[0] && free == old(free)[1..] && tables == old(tables)[r.value := BlankTable(level)]
    {
      if free == [] {
        return Err(OutOfFrames);
      }
      var f := free[0];
      free := free[1..];
      tables := tables[f := BlankTable(level)];
      return Ok(f);
    }

    method FreeTable(f: Frame)
      requires Valid() && f in tables && (g.format.Sentinel? ==> f !in g.format.invalid)
      modifies this
      ensures Valid() && seen == old(seen) && tables == old(tables) - {f} && free == old(free) + [f]
    {
      tables := tables - {f};
      free := free + [f];
    }

    /** The loop of `synchronize_kernel_mappings`: copy the upper half of one root into another. */
    method CopyHighHalf(dst: Frame, src: Frame)
      requires Valid() && g.HasTable(tables, dst) && g.HasTable(tables, src) && dst != src
      modifies this
      ensures Valid() && free == old(free)
      ensures tables == old(tables)[dst := old(tables)[dst][..g.width / 2] + old(tables)[src][g.width / 2..]]
      ensures AllMerged(g, old(tables), seen, |old(seen)|, dst, src)
    {
      ghost var a := tables;
      var index := g.width / 2;
      HalfEnds(g, a, dst, src);
      while index < g.width
        invariant g.width / 2 <= index <= g.width && Valid() && free == old(free)
        invariant tables == Half(g, a, dst, src, index) && AllMerged(g, a, seen, |old(seen)|, dst, src)
      {
        HalfStep(g, a, dst, src, index);
        WriteEntry(dst, index, ReadEntry(src, index));
        index := index + 1;
      }
    }

    /** A fresh root page that holds a copy of the upper half of `src`. */
    method NewRootTable(src: Frame) returns (r: Outcome<Frame>)
      requires Valid() && g.HasTable(tables, src)
      modifies this
      ensures Valid()
      ensures r.Err? <==> old(free) == []
      ensures r.Err? ==> tables == old(tables) && free == old(free) && r.error == OutOfFrames
      ensures r.Ok? ==> r.value == old(free)[0] && free == old(free)[1..] && r.value !in old(tables)
      ensures r.Ok? ==> tables == old(tables)[r.value := BlankTable(0)[..g.width / 2] + old(tables)[src][g.width / 2..]]
    {
      r := AllocateTable(0);
      if r.Ok? {
        CopyHighHalf(r.value, src);
      }
    }

    /** The first `n` free frames have become blank tables for the levels after `m`. */
    ghost predicate Allocated(before: Tables, free0: seq<Frame>, m: nat, fs: seq<Frame>)
      requires g.Valid()
      reads this
    {
      AllocatedIn(before, free0, m, fs, tables, free)
    }

    ghost predicate AllocatedIn(before: Tables, free0: seq<Frame>, m: nat, fs: seq<Frame>, now: Tables,
                                left: seq<Frame>)
      requires g.Valid()
    {
      && |fs| <= |free0| && fs == free0[..|fs|] && left == free0[|fs|..]
      && now.Keys == before.Keys + (set f | f in fs)
      && (forall j :: 0 <= j < |fs| ==> fs[j] in now && now[fs[j]] == BlankTable(m + 1 + j))
      && (forall f :: f in before ==> now[f] == before[f])
    }

    lemma OneMoreAllocated(before: Tables, free0: seq<Frame>, m: nat, fs: seq<Frame>, now: Tables, left: seq<Frame>)
      requires g.Valid() && AllocatedIn(before, free0, m, fs, now, left) && left != [] && left[0] !in now
      ensures AllocatedIn(before, free0, m, fs + [left[0]], now[left[0] := BlankTable(m + 1 + |fs|)], left[1..])
    {
      assert free0[..|fs| + 1] == fs + [left[0]];
      assert forall f :: f in before ==> f in now;
    }

    lemma AllocatedIsAdded(before: Tables, free0: seq<Frame>, m: nat, fs: seq<Frame>)
      requires g.Valid() && Allocated(before, free0, m, fs) && Distinct(free0)
      requires forall i :: 0 <= i < |free0| ==>
        free0[i] !in before && (g.format.Sentinel? ==> free0[i] !in g.format.invalid)
      ensures Added(g, before, tables, m, fs)
    {
      forall j | 0 <= j < |fs| ensures fs[j] == free0[j] {}
    }

    method AllocateChain(m: nat) returns (fs: seq<Frame>)
      requires Valid() && m + 1 < g.levels
      modifies this
      ensures Valid() && seen == old(seen) && Allocated(old(tables), old(free), m, fs)
      ensures |fs| == if |old(free)| < g.levels - 1 - m then |old(free)| else g.levels - 1 - m
    {
      fs := [];
      while |fs| < g.levels - 1 - m
        invariant |fs| <= g.levels - 1 - m
        invariant Valid() && seen == old(seen) && Allocated(old(tables), old(free), m, fs)
        decreases g.levels - 1 - m - |fs|
      {
        ghost var now, left := tables, free;
        var r := AllocateTable(m + 1 + |fs|);
        if r.Err? {
          return;
        }
        OneMoreAllocated(old(tables), old(free), m, fs, now, left);
        fs := fs + [r.value];
      }
    }

    method FreeAll(fs: seq<Frame>)
      requires Valid() && Distinct(fs) && (forall j :: 0 <= j < |fs| ==> fs[j] in tables)
      requires forall j :: 0 <= j < |fs| ==> g.format.Sentinel? ==> fs[j] !in g.format.invalid
      modifies this
      ensures Valid() && seen == old(seen) && free == old(free) + fs
      ensures tables == old(tables) - set f | f in fs
    {
      var i := 0;
      while i < |fs|
        invariant 0 <= i <= |fs|
        invariant Valid() && seen == old(seen) && free == old(free) + fs[..i]
        invariant tables == old(tables) - set f | f in fs[..i]
      {
        assert fs[..i + 1] == fs[..i] + [fs[i]];
        FreeTable(fs[i]);
        i := i + 1;
      }
      assert fs[..i] == fs;
    }

    /** The arguments of a chain that is being built. */
    ghost predicate Setup(t: Tables, page: Path, m: nat, fs: seq<Frame>) {
      && g.Valid() && g.IsPath(page) && m + |fs| + 1 == g.levels && fs != [] && g.AllTables(t, fs) && Distinct(fs)
    }

    /** The chain is built from its bottom up to table `index`. */
    ghost function Built(t: Tables, page: Path, m: nat, fs: seq<Frame>, index: nat, leaf: Entry): (r: Tables)
      requires Setup(t, page, m, fs) && index < |fs|
      ensures r.Keys == t.Keys && g.AllTables(r, fs)
    {
      g.Chained(t, fs[index], page, m + 1 + index, fs[index + 1..], leaf)
    }

    lemma BuiltFirst(t: Tables, page: Path, m: nat, fs: seq<Frame>, leaf: Entry)
      requires Setup(t, page, m, fs)
      ensures g.Write(t, fs[|fs| - 1], page[g.levels - 1], leaf) == Built(t, page, m, fs, |fs| - 1, leaf)
    {
    }

    /** Until it is linked to its parent a chain touches only its own tables. */
    lemma BuiltInside(t: Tables, page: Path, m: nat, fs: seq<Frame>, index: nat, leaf: Entry)
      requires Setup(t, page, m, fs) && index < |fs|
      ensures SameOutside(t, Built(t, page, m, fs, index, leaf), fs)
    {
      forall f | f in t && f !in fs ensures Built(t, page, m, fs, index, leaf)[f] == t[f] {
        g.ChainedFrame(t, fs[index], page, m + 1 + index, fs[index + 1..], leaf, f);
      }
    }

    /** One more link on top of the chain. */
    lemma BuiltAbove(t: Tables, page: Path, m: nat, fs: seq<Frame>, index: nat, leaf: Entry, f: Frame)
      requires Setup(t, page, m, fs) && index < |fs| && g.HasTable(t, f) && f !in fs[index..]
      ensures
        && g.HasTable(Built(t, page, m, fs, index, leaf), f)
        && g.Write(Built(t, page, m, fs, index, leaf), f, page[m + index], Pointer(fs[index]))
           == g.Chained(t, f, page, m + index, fs[index..], leaf)
    {
      var rest := fs[index + 1..];
      assert fs[index..][1..] == rest && fs[index..][0] == fs[index];
      g.ChainedFrame(t, fs[index], page, m + 1 + index, rest, leaf, f);
      g.ChainCommutes(t, fs[index], page, m + 1 + index, rest, leaf, f, t[f][page[m + index] := Pointer(fs[index])]);
    }

    /** The memories a chain goes through while it is built. */
    ghost predicate Stages(t: Tables, page: Path, m: nat, fs: seq<Frame>, leaf: Entry, st: seq<Tables>)
      requires Setup(t, page, m, fs)
    {
      && |st| == |fs|
      && st[|fs| - 1] == g.Write(t, fs[|fs| - 1], page[g.levels - 1], leaf)
      && (forall i :: 0 <= i < |fs| ==> SameOutside(t, st[i], fs) && st[i].Keys == t.Keys)
      && (forall i {:trigger LinkedAt(page, m, fs, st, i)} :: 0 < i < |fs| ==> LinkedAt(page, m, fs, st, i))
    }

    ghost predicate LinkedAt(page: Path, m: nat, fs: seq<Frame>, st: seq<Tables>, i: nat) {
      && 0 < i < |fs| && |st| == |fs| && m + i < |page| && page[m + i] < g.width
      && g.HasTable(st[i], fs[i - 1]) && st[i - 1] == g.Write(st[i], fs[i - 1], page[m + i], Pointer(fs[i]))
    }

    lemma BuiltLinked(t: Tables, page: Path, m: nat, fs: seq<Frame>, i: nat, leaf: Entry, st: seq<Tables>)
      requires Setup(t, page, m, fs) && 0 < i < |fs| && |st| == |fs|
      requires st[i] == Built(t, page, m, fs, i, leaf) && st[i - 1] == Built(t, page, m, fs, i - 1, leaf)
      ensures LinkedAt(page, m, fs, st, i)
    {
      BuiltAbove(t, page, m, fs, i, leaf, fs[i - 1]);
    }

    lemma BuiltStages(t: Tables, page: Path, m: nat, fs: seq<Frame>, leaf: Entry) returns (st: seq<Tables>)
      requires Setup(t, page, m, fs)
      ensures Stages(t, page, m, fs, leaf, st) && st[0] == Built(t, page, m, fs, 0, leaf)
    {
      st := seq(|fs|, i requires 0 <= i < |fs| => Built(t, page, m, fs, i, leaf));
      BuiltFirst(t, page, m, fs, leaf);
      StagesPrivate(t, page, m, fs, leaf, st);
      StagesLinked(t, page, m, fs, leaf, st);
    }

    lemma StagesPrivate(t: Tables, page: Path, m: nat, fs: seq<Frame>, leaf: Entry, st: seq<Tables>)
      requires Setup(t, page, m, fs) && |st| == |fs|
      requires forall i :: 0 <= i < |fs| ==> st[i] == Built(t, page, m, fs, i, leaf)
      ensures forall i :: 0 <= i < |fs| ==> SameOutside(t, st[i], fs) && st[i].Keys == t.Keys
    {
      forall i | 0 <= i < |fs| ensures SameOutside(t, st[i], fs) && st[i].Keys == t.Keys {
        BuiltInside(t, page, m, fs, i, leaf);
      }
    }

    lemma StagesLinked(t: Tables, page: Path, m: nat, fs: seq<Frame>, leaf: Entry, st: seq<Tables>)
      requires Setup(t, page, m, fs) && |st| == |fs|
      requires forall i :: 0 <= i < |fs| ==> st[i] == Built(t, page, m, fs, i, leaf)
      ensures forall i {:trigger LinkedAt(page, m, fs, st, i)} :: 0 < i < |fs| ==> LinkedAt(page, m, fs, st, i)
    {
      forall i {:trigger LinkedAt(page, m, fs, st, i)} | 0 < i < |fs| ensures LinkedAt(page, m, fs, st, i) {
        BuiltLinked(t, page, m, fs, i, leaf, st);
      }
    }

    /** Every memory recorded since `from` is as `t` outside `fs`. */
    ghost predicate Private(t: Tables, from: nat, fs: seq<Frame>)
      reads this
    {
      from <= |seen| && forall k :: from <= k < |seen| ==> SameOutside(t, seen[k], fs)
    }

    /**
     Fill in a chain of fresh tables from the leaf upwards and publish it with one
     last write to `parent`. Before that write nothing outside the chain has changed.
     */
    method LinkChain(parent: Frame, m: nat, page: Path, fs: seq<Frame>, leaf: Entry) returns (ok: bool)
      requires Valid() && Setup(tables, page, m, fs)
      requires g.HasTable(tables, parent) && parent !in fs
      modifies this
      ensures Valid() && free == old(free)
      ensures ok <==> forall j :: 0 <= j < |fs| ==> g.TableEncodable(fs[j])
      ensures ok ==> tables == g.Chained(old(tables), parent, page, m, fs, leaf)
      ensures !ok ==> SameOutside(old(tables), tables, fs) && tables.Keys == old(tables).Keys
      ensures |seen| >= |old(seen)|
      ensures forall k :: |old(seen)| <= k < |seen| ==>
        SameOutside(old(tables), seen[k], fs) || (ok && seen[k] == tables)
    {
      ghost var t, from := tables, |seen|;
      ok := BuildChain(m, page, fs, leaf);
      if ok && g.TableEncodable(fs[0]) {
        assert fs[0..] == fs;
        BuiltAbove(t, page, m, fs, 0, leaf, parent);
        WriteEntry(parent, page[m], Pointer(fs[0]));
      } else {
        ok := false;
      }
    }

    /** A write into one of the tables `fs` nobody else sees. */
    method WritePrivate(f: Frame, i: nat, e: Entry, ghost fs: seq<Frame>, ghost t: Tables, ghost from: nat)
      requires Valid() && g.HasTable(tables, f) && i < g.width && f in fs
      requires Private(t, from, fs) && SameOutside(t, tables, fs)
      modifies this
      ensures Valid() && free == old(free) && tables == g.Write(old(tables), f, i, e)
      ensures Private(t, from, fs) && SameOutside(t, tables, fs)
    {
      WriteEntry(f, i, e);
    }

    method BuildChain(m: nat, page: Path, fs: seq<Frame>, leaf: Entry) returns (ok: bool)
      requires Valid() && Setup(tables, page, m, fs)
      modifies this
      ensures Valid() && free == old(free) && Private(old(tables), |old(seen)|, fs)
      ensures ok <==> forall j :: 1 <= j < |fs| ==> g.TableEncodable(fs[j])
      ensures ok ==> tables == Built(old(tables), page, m, fs, 0, leaf)
      ensures SameOutside(old(tables), tables, fs) && tables.Keys == old(tables).Keys
    {
      ghost var t, from := tables, |seen|;
      ghost var st := BuiltStages(t, page, m, fs, leaf);
      var index := |fs| - 1;
      WritePrivate(fs[index], page[g.levels - 1], leaf, fs, t, from);
      while index > 0
        invariant 0 <= index < |fs|
        invariant Valid() && free == old(free) && Private(t, from, fs) && SameOutside(t, tables, fs)
        invariant tables == st[index]
        invariant forall j :: index < j < |fs| ==> g.TableEncodable(fs[j])
      {
        if !g.TableEncodable(fs[index]) {
          return false;
        }
        assert LinkedAt(page, m, fs, st, index);
        WritePrivate(fs[index - 1], page[m + index], Pointer(fs[index]), fs, t, from);
        index := index - 1;
      }
      return true;
    }
  }

  // ------------------------------------------------------ facts on values

  /** The frame is the table of some prefix other than the root. */
  ghost predicate Hangs(layout: Layout, f: Frame) {
    exists p :: p in layout && p != [] && layout[p] == f
  }

  ghost predicate InLayout(layout: Layout, f: Frame) {
    exists p :: p in layout && layout[p] == f
  }

  /** Every page below `span` has the same answer in both memories. */
  ghost predicate SameView(g: Geometry, root: Frame, span: nat, a: Tables, b: Tables)
    requires g.Valid()
  {
    forall q :: g.IsPath(q) && q[0] < span ==> g.Walk(a, root, q, 0) == g.Walk(b, root, q, 0)
  }

  /** Every page but `page` has the same answer, and `page` has the answer `now` in `b`. */
  ghost predicate OneChange(g: Geometry, root: Frame, span: nat, a: Tables, b: Tables, page: Path, now: Lookup)
    requires g.Valid()
  {
    forall q :: g.IsPath(q) && q[0] < span ==>
      g.Walk(b, root, q, 0) == if q == page then now else g.Walk(a, root, q, 0)
  }

  /** Whatever memory a walker looks at, it gets the old answers or the new ones. */
  ghost predicate OldOrNew(g: Geometry, root: Frame, span: nat, a: Tables, b: Tables, seen: seq<Tables>, from: nat)
    requires g.Valid()
  {
    && from <= |seen|
    && forall k :: from <= k < |seen| ==>
         SameView(g, root, span, a, seen[k]) || SameView(g, root, span, b, seen[k])
  }

  /** `b` is `a`, but for some entries in the upper half of `dst` that were taken from `src`. */
  ghost predicate Merged(g: Geometry, a: Tables, b: Tables, dst: Frame, src: Frame) {
    && g.HasTable(a, dst) && g.HasTable(a, src) && g.HasTable(b, dst)
    && (forall f :: f in a && f != dst ==> f in b && b[f] == a[f])
    && (forall i :: 0 <= i < g.width / 2 ==> b[dst][i] == a[dst][i])
    && (forall i :: g.width / 2 <= i < g.width ==> b[dst][i] == a[dst][i] || b[dst][i] == a[src][i])
  }

  ghost predicate AllMerged(g: Geometry, a: Tables, seen: seq<Tables>, from: nat, dst: Frame, src: Frame) {
    from <= |seen| && forall k :: from <= k < |seen| ==> Merged(g, a, seen[k], dst, src)
  }

  /** The copy up to `index`. */
  ghost function Half(g: Geometry, a: Tables, dst: Frame, src: Frame, index: nat): Tables
    requires g.HasTable(a, dst) && g.HasTable(a, src) && g.width / 2 <= index <= g.width
  {
    a[dst := a[dst][..g.width / 2] + a[src][g.width / 2..index] + a[dst][index..]]
  }

  lemma HalfEnds(g: Geometry, a: Tables, dst: Frame, src: Frame)
    requires g.HasTable(a, dst) && g.HasTable(a, src)
    ensures Half(g, a, dst, src, g.width / 2) == a
    ensures Half(g, a, dst, src, g.width) == a[dst := a[dst][..g.width / 2] + a[src][g.width / 2..]]
  {
    var half := g.width / 2;
    assert a[dst][..half] + a[src][half..half] + a[dst][half..] == a[dst];
    assert a[dst][..half] + a[src][half..g.width] + a[dst][g.width..] == a[dst][..half] + a[src][half..];
  }

  lemma HalfStep(g: Geometry, a: Tables, dst: Frame, src: Frame, index: nat)
    requires g.HasTable(a, dst) && g.HasTable(a, src) && g.width / 2 <= index < g.width && dst != src
    ensures
      var now, next := Half(g, a, dst, src, index), Half(g, a, dst, src, index + 1);
      && g.HasTable(now, dst) && g.HasTable(now, src) && now[src] == a[src]
      && g.Write(now, dst, index, a[src][index]) == next && Merged(g, a, next, dst, src)
  {
    var half := g.width / 2;
    var t := a[dst][..half] + a[src][half..index] + a[dst][index..];
    assert t[index := a[src][index]] == a[dst][..half] + a[src][half..index + 1] + a[dst][index + 1..];
  }

  /** A page below `span` has its old answer or none at every look. */
  ghost predicate OldOrGone(g: Geometry, root: Frame, span: nat, a: Tables, seen: seq<Tables>, from: nat)
    requires g.Valid()
  {
    from <= |seen| && forall k :: from <= k < |seen| ==> MayBeGone(g, root, span, a, seen[k])
  }

  ghost predicate MayBeGone(g: Geometry, root: Frame, span: nat, a: Tables, b: Tables)
    requires g.Valid()
  {
    forall q :: g.IsPath(q) && q[0] < span ==>
      g.Walk(b, root, q, 0) == g.Walk(a, root, q, 0) || g.Walk(b, root, q, 0) == Unmapped
  }

  /** Below its root a walk does not depend on the root. */
  lemma {:induction false} BelowRoot(g: Geometry, a: Tables, b: Tables, root: Frame, layout: Layout, span: nat,
                                     q: Path, k: nat)
    requires g.Valid() && g.Tree(a, root, layout, span) && g.IsPath(q) && q[0] < span
    requires 0 < k < g.levels && q[..k] in layout
    requires forall f :: f in a && f != root ==> f in b && b[f] == a[f]
    ensures g.Walk(b, layout[q[..k]], q, k) == g.Walk(a, layout[q[..k]], q, k)
    decreases g.levels - k
  {
    assert g.Node(a, layout, span, q[..k]);
    assert layout[q[..k]] != layout[[]];
    assert g.Child(a, layout, q[..k], q[k]);
    assert q[..k] + [q[k]] == q[..k + 1];
    if g.Link(k, a[layout[q[..k]]][q[k]]) {
      BelowRoot(g, a, b, root, layout, span, q, k + 1);
    }
  }

  /** While the root is cleared entry by entry a page keeps its answer until it has none. */
  lemma ClearedViews(g: Geometry, a: Tables, root: Frame, layout: Layout, span: nat, n: nat)
    requires g.Valid() && g.Tree(a, root, layout, span) && g.HasTable(a, root) && n <= span
    ensures MayBeGone(g, root, span, a, a[root := Cleared(g, a[root], n)])
  {
    var b := a[root := Cleared(g, a[root], n)];
    forall q | g.IsPath(q) && q[0] < span
      ensures g.Walk(b, root, q, 0) == g.Walk(a, root, q, 0) || g.Walk(b, root, q, 0) == Unmapped
    {
      if q[0] >= n && g.Link(0, a[root][q[0]]) {
        assert g.Node(a, layout, span, []);
        assert g.Child(a, layout, [], q[0]);
        assert [] + [q[0]] == q[..1];
        BelowRoot(g, a, b, root, layout, span, q, 1);
      }
    }
  }

  /** A step on one tree leaves the tables outside it alone; the tree grows only by frames that were free. */
  ghost predicate Local(a: Tables, layoutA: Layout, b: Tables, layoutB: Layout) {
    && (forall f :: f in a && !InLayout(layoutA, f) ==> f in b && b[f] == a[f])
    && (forall p :: p in layoutB ==> InLayout(layoutA, layoutB[p]) || layoutB[p] !in a)
  }

  ghost predicate SameRoot(g: Geometry, root: Frame, a: Tables, b: Tables) {
    g.HasTable(a, root) && g.HasTable(b, root) && a[root] == b[root]
  }

  /** The root is unchanged but for the missing entry that leads to `page`. */
  ghost predicate RootFilled(g: Geometry, root: Frame, a: Tables, b: Tables, page: Path)
    requires g.Valid()
  {
    && g.HasTable(a, root) && g.HasTable(b, root)
    && forall i :: 0 <= i < g.width && b[root][i] != a[root][i] ==>
         0 < |page| && i == page[0] && g.Missing(0, a[root][i])
  }

  /** The root is unchanged but that the entry which leads to `page` may be missing now. */
  ghost predicate RootCleared(g: Geometry, root: Frame, a: Tables, b: Tables, page: Path)
    requires g.Valid()
  {
    && g.HasTable(a, root) && g.HasTable(b, root)
    && forall i :: 0 <= i < g.width && b[root][i] != a[root][i] ==>
         0 < |page| && i == page[0] && b[root][i] == g.Blank(0)
  }

  /** `b` is `a` with the blank tables `fs` added for the levels after `m`. */
  ghost predicate Added(g: Geometry, a: Tables, b: Tables, m: nat, fs: seq<Frame>)
    requires g.Valid()
  {
    && b.Keys == a.Keys + (set f | f in fs)
    && (forall f :: f in a ==> f in b && b[f] == a[f])
    && (forall j :: 0 <= j < |fs| ==>
          fs[j] !in a && g.IsBlank(b, fs[j], m + 1 + j) && (g.format.Sentinel? ==> fs[j] !in g.format.invalid))
    && Distinct(fs)
  }

  lemma TreeTables(g: Geometry, t: Tables, root: Frame, layout: Layout, span: nat)
    requires g.Valid() && g.Tree(t, root, layout, span)
    ensures forall p :: p in layout ==> g.HasTable(t, layout[p])
  {
    forall p | p in layout ensures g.HasTable(t, layout[p]) {
      assert g.Node(t, layout, span, p);
    }
  }

  /** Adding unrelated tables, or changing tables outside the tree, changes no answer. */
  lemma Elsewhere(g: Geometry, a: Tables, b: Tables, root: Frame, layout: Layout, span: nat)
    requires g.Valid() && g.Tree(a, root, layout, span)
    requires forall p :: p in layout ==> layout[p] in a ==> layout[p] in b && b[layout[p]] == a[layout[p]]
    ensures g.Tree(b, root, layout, span) && SameView(g, root, span, a, b)
  {
    TreeTables(g, a, root, layout, span);
    forall p | p in layout ensures g.SameTable(a, b, layout[p]) {
    }
    g.TreeFrame(a, b, root, layout, span);
  }

  lemma AddedChain(g: Geometry, a: Tables, b: Tables, root: Frame, layout: Layout, span: nat, m: nat, fs: seq<Frame>)
    requires g.Valid() && g.Tree(a, root, layout, span) && Added(g, a, b, m, fs)
    ensures g.Tree(b, root, layout, span) && SameView(g, root, span, a, b)
    ensures g.FreshChain(b, layout, m, fs) && g.AllTables(b, fs)
  {
    TreeTables(g, a, root, layout, span);
    Elsewhere(g, a, b, root, layout, span);
    forall j | 0 <= j < |fs| ensures g.IsBlank(b, fs[j], m + 1 + j) && g.Unknown(layout, fs[j]) {
    }
  }

  lemma {:induction false} ExtendedTables(g: Geometry, layout: Layout, q: Path, k: nat, fs: seq<Frame>)
    requires k + |fs| <= |q| && forall j :: k < j <= |q| ==> q[..j] !in layout
    ensures forall p :: p in layout ==>
      p in g.Extended(layout, q, k, fs) && g.Extended(layout, q, k, fs)[p] == layout[p]
    ensures forall p :: p in g.Extended(layout, q, k, fs) ==> p in layout || g.Extended(layout, q, k, fs)[p] in fs
    ensures forall j :: 0 <= j < |fs| ==> Hangs(g.Extended(layout, q, k, fs), fs[j])
    decreases |fs|
  {
    if fs != [] {
      var next := layout[q[..k + 1] := fs[0]];
      forall j | k + 1 < j <= |q| ensures q[..j] !in next { assert |q[..j]| != |q[..k + 1]|; }
      ExtendedTables(g, next, q, k + 1, fs[1..]);
      assert q[..k + 1] in next && next[q[..k + 1]] == fs[0];
      forall j | 0 <= j < |fs| ensures Hangs(g.Extended(layout, q, k, fs), fs[j]) {
        if j > 0 { assert fs[j] == fs[1..][j - 1]; }
      }
    }
  }

  /** Publishing a chain of added tables maps exactly one page. */
  lemma ChainPublished(g: Geometry, a: Tables, b: Tables, root: Frame, layout: Layout, span: nat,
                       page: Path, m: nat, fs: seq<Frame>, frame: Frame, options: Options)
    requires g.Valid() && g.Tree(a, root, layout, span) && Added(g, a, b, m, fs)
    requires g.IsPath(page) && page[0] < span && m + |fs| + 1 == g.levels && fs != [] && page[..m] in layout
    requires g.HasTable(a, layout[page[..m]]) && g.Missing(m, a[layout[page[..m]]][page[m]])
    ensures g.HasTable(b, layout[page[..m]]) && layout[page[..m]] !in fs && g.AllTables(b, fs)
    ensures
      var c := g.Chained(b, layout[page[..m]], page, m, fs, Leaf(frame, options));
      && g.Tree(c, root, g.Extended(layout, page, m, fs), span)
      && OneChange(g, root, span, a, c, page, Mapped(frame, options))
  {
    AddedChain(g, a, b, root, layout, span, m, fs);
    g.Install(b, root, layout, span, page, m, fs, Leaf(frame, options));
  }

  lemma ChainRoot(g: Geometry, a: Tables, b: Tables, root: Frame, layout: Layout, span: nat,
                  page: Path, m: nat, fs: seq<Frame>, leaf: Entry)
    requires g.Valid() && g.Tree(a, root, layout, span) && Added(g, a, b, m, fs)
    requires g.IsPath(page) && m + |fs| + 1 == g.levels && fs != [] && page[..m] in layout && g.AllTables(b, fs)
    requires g.HasTable(b, layout[page[..m]]) && g.HasTable(a, layout[page[..m]])
    requires g.Missing(m, a[layout[page[..m]]][page[m]])
    ensures RootFilled(g, root, a, g.Chained(b, layout[page[..m]], page, m, fs, leaf), page)
  {
    TreeTables(g, a, root, layout, span);
    assert g.HasTable(a, layout[[]]);
    var parent := layout[page[..m]];
    if parent == root {
      assert page[..m] == [];
      g.ChainedParent(b, parent, page, m, fs, leaf);
    } else {
      g.ChainedFrame(b, parent, page, m, fs, leaf, root);
    }
  }

  /** Dropping the added tables again restores the old memory. */
  lemma GivenBack(g: Geometry, a: Tables, b: Tables, t: Tables, m: nat, fs: seq<Frame>)
    requires g.Valid() && Added(g, a, b, m, fs) && SameOutside(b, t, fs) && t.Keys == b.Keys
    ensures t - (set f | f in fs) == a
  {
  }

  /** While a chain is private the tree answers as before. */
  lemma ChainSeen(g: Geometry, a: Tables, b: Tables, root: Frame, layout: Layout, span: nat, m: nat, fs: seq<Frame>,
                  seen: seq<Tables>, from: nat, c: Tables)
    requires g.Valid() && g.Tree(a, root, layout, span) && Added(g, a, b, m, fs) && from <= |seen|
    requires forall k :: from <= k < |seen| ==> SameOutside(b, seen[k], fs) || seen[k] == c
    ensures OldOrNew(g, root, span, a, c, seen, from)
  {
    TreeTables(g, a, root, layout, span);
    forall k | from <= k < |seen| ensures SameView(g, root, span, a, seen[k]) || SameView(g, root, span, c, seen[k]) {
      if SameOutside(b, seen[k], fs) {
        Elsewhere(g, a, seen[k], root, layout, span);
      }
    }
  }

  /** The tree and the list of owned tables grow by the chain, and nothing else changes. */
  lemma ChainGrows(g: Geometry, a: Tables, b: Tables, root: Frame, layout: Layout, span: nat, page: Path, m: nat,
                   fs: seq<Frame>,
                   frame: Frame, options: Options, owned: seq<Frame>)
    requires g.Valid() && g.Tree(a, root, layout, span) && Added(g, a, b, m, fs)
    requires g.IsPath(page) && page[0] < span && m + |fs| + 1 == g.levels && fs != [] && page[..m] in layout
    requires g.HasTable(a, layout[page[..m]]) && g.Missing(m, a[layout[page[..m]]][page[m]])
    requires g.HasTable(b, layout[page[..m]]) && g.AllTables(b, fs)
    requires Distinct(owned) && forall i :: 0 <= i < |owned| ==> Hangs(layout, owned[i])
    ensures Distinct(owned + fs)
    ensures forall i :: 0 <= i < |owned + fs| ==> Hangs(g.Extended(layout, page, m, fs), (owned + fs)[i])
    ensures Local(a, layout, g.Chained(b, layout[page[..m]], page, m, fs, Leaf(frame, options)),
                  g.Extended(layout, page, m, fs))
  {
    TreeTables(g, a, root, layout, span);
    g.MissingEnds(a, root, layout, span, page[..m], page[m]);
    assert page[..m] + [page[m]] == page[..m + 1];
    forall j | m < j <= |page| ensures page[..j] !in layout {
      if page[..j] in layout { g.Prefixes(a, root, layout, span, page, j, m + 1); }
    }
    ExtendedTables(g, layout, page, m, fs);
    var c := g.Chained(b, layout[page[..m]], page, m, fs, Leaf(frame, options));
    var layout' := g.Extended(layout, page, m, fs);
    forall f | f in a && !InLayout(layout, f) ensures f in c && c[f] == a[f] {
      g.ChainedFrame(b, layout[page[..m]], page, m, fs, Leaf(frame, options), f);
    }
    forall p | p in layout' ensures InLayout(layout, layout'[p]) || layout'[p] !in a {
      if p in layout { assert layout[p] == layout'[p]; }
    }
    forall i | 0 <= i < |owned| ensures Hangs(layout', owned[i]) && owned[i] !in fs {
      var p :| p in layout && p != [] && layout[p] == owned[i];
      assert p in layout' && layout'[p] == owned[i];
    }
  }

  datatype Change = Protect(options: Options) | Replace(frame: Frame, options: Options) | Unmap {
    /** What a page mapped to `old_` looks like afterwards. */
    function After(old_: Frame): (r: Lookup)
      ensures !r.Broken?
    {
      match this
      case Protect(options) => Mapped(old_, options)
      case Replace(frame, options) => Mapped(frame, options)
      case Unmap => Unmapped
    }
  }

  /** `b` is `a` without some prefixes of `page` longer than `level`. */
  ghost predicate Shrunk(a: Layout, b: Layout, page: Path, level: nat) {
    && (forall p :: p in b ==> p in a && b[p] == a[p])
    && (forall p :: p in a && p !in b ==> level < |p| <= |page| && p == page[..|p|])
  }

  lemma ShrunkMore(a: Tables, b: Tables, c: Tables, before: Layout, middle: Layout, page: Path, level: nat)
    requires Shrunk(before, middle, page, level) && 0 < level <= |page| && page[..level] in middle
    requires Local(a, before, b, middle) && Local(b, middle, c, middle - {page[..level]})
    ensures Shrunk(before, middle - {page[..level]}, page, level - 1)
    ensures Local(a, before, c, middle - {page[..level]})
  {
    var after := middle - {page[..level]};
    assert forall p :: p in middle ==> InLayout(before, middle[p]) by {
      assert forall p :: p in middle ==> before[p] == middle[p];
    }
    forall p | p in after ensures InLayout(before, after[p]) {
      assert before[p] == after[p];
    }
  }

  /** The way to `page` goes through tables down to the last level. */
  ghost predicate HasLeafTable(g: Geometry, layout: Layout, page: Path) {
    0 <= g.levels - 1 <= |page| && page[..g.levels - 1] in layout
  }

  /** The tables found on the way to `page`, down to `level`. */
  ghost predicate OnChain(layout: Layout, page: Path, chain: seq<Frame>, level: nat) {
    && level < |chain| <= |page|
    && forall j :: 0 <= j <= level ==> page[..j] in layout && chain[j] == layout[page[..j]]
  }

  lemma ShorterChain(layout: Layout, page: Path, chain: seq<Frame>, level: nat)
    requires 0 < level && OnChain(layout, page, chain, level)
    ensures OnChain(layout - {page[..level]}, page, chain, level - 1)
    ensures page[..level] in layout && layout[page[..level]] == chain[level]
    ensures page[..level - 1] in layout && layout[page[..level - 1]] == chain[level - 1]
  {
    assert chain[level] == layout[page[..level]] && chain[level - 1] == layout[page[..level - 1]];
    forall j | 0 <= j < level ensures page[..j] in layout - {page[..level]} && chain[j] == layout[page[..j]] {
      assert chain[j] == chain[j] && |page[..j]| != |page[..level]|;
    }
  }

  /** A root table whose first `n` entries are blank again. */
  function Cleared(g: Geometry, t: seq<Entry>, n: nat): (r: seq<Entry>)
    requires g.Valid() && n <= |t|
    ensures |r| == |t|
  {
    seq(n, i => g.Blank(0)) + t[n..]
  }

  /** A root with nothing below its managed entries is a tree, and maps nothing there. */
  lemma BareRoot(g: Geometry, t: Tables, root: Frame, span: nat)
    requires g.Valid() && span <= g.width && g.HasTable(t, root)
    requires forall i :: 0 <= i < span ==> t[root][i] == g.Blank(0)
    ensures g.Tree(t, root, map[[] := root], span)
    ensures forall q :: g.IsPath(q) && q[0] < span ==> g.Walk(t, root, q, 0) == Unmapped
  {
    var layout: Layout := map[[] := root];
    forall i | 0 <= i < g.Span(span, 0) ensures g.Child(t, layout, [], i) {
      assert [] + [i] != [];
    }
    assert g.Node(t, layout, span, []);
  }

  /** `owned0` has been split between `mine` and what was added to `retired0`; the latter hangs nowhere. */
  ghost predicate HandedOver(layout: Layout, mine: seq<Frame>, owned0: seq<Frame>, retired0: seq<Frame>,
                             retired: seq<Frame>) {
    && multiset(mine) + multiset(retired) == multiset(owned0) + multiset(retired0)
    && retired0 <= retired
    && (forall i :: |retired0| <= i < |retired| ==> retired[i] in owned0 && !InLayout(layout, retired[i]))
    && (forall x :: x in mine ==> x in owned0)
  }

  lemma HandOver(layout: Layout, p: Path, mine: seq<Frame>, position: nat, owned0: seq<Frame>, retired0: seq<Frame>,
                 retired: seq<Frame>)
    requires HandedOver(layout, mine, owned0, retired0, retired) && Distinct(mine) && position < |mine|
    requires !InLayout(layout - {p}, mine[position])
    ensures HandedOver(layout - {p}, SwapRemove(mine, position), owned0, retired0, retired + [mine[position]])
  {
    SwapRemoveCounts(mine, position);
    SwapRemoveKeeps(mine, position);
    var retired', layout' := retired + [mine[position]], layout - {p};
    forall i | |retired0| <= i < |retired'| ensures retired'[i] in owned0 && !InLayout(layout', retired'[i]) {
      if i < |retired| { assert retired'[i] == retired[i] && !InLayout(layout, retired[i]); }
    }
  }

  class RuntimePageTable {
    const memory: PhysMemory
    const root: Frame
    const owned: bool
    var runtimeTables: seq<Frame>
    ghost var layout: Layout

    /** Adopt the tree the boot code built. */
    constructor FromBoot(memory: PhysMemory, root: Frame, ghost layout: Layout)
      requires memory.Valid() && memory.g.Tree(memory.tables, root, layout, memory.g.width)
      ensures Valid() && this.memory == memory && this.root == root && !owned && runtimeTables == []
      ensures this.layout == layout
    {
      this.memory, this.root, this.owned, this.runtimeTables, this.layout := memory, root, false, [], layout;
    }

    /** A fresh root whose managed entries are all blank. */
    constructor FromUserRoot(memory: PhysMemory, root: Frame)
      requires memory.Valid() && memory.g.HasTable(memory.tables, root)
      requires forall i :: 0 <= i < (if memory.g.format.Plain? then memory.g.width / 2 else memory.g.width) ==>
        memory.tables[root][i] == memory.g.Blank(0)
      ensures Valid() && this.memory == memory && this.root == root && owned && runtimeTables == []
      ensures layout == map[[] := root]
    {
      this.memory, this.root, this.owned, this.runtimeTables, this.layout := memory, root, true, [], map[[] := root];
      new;
      BareRoot(memory.g, memory.tables, root, Span());
    }

    /** How many root entries this table manages: a RISC-V user root borrows its upper half. */
    function Span(): nat {
      if owned && memory.g.format.Plain? then memory.g.width / 2 else memory.g.width
    }

    ghost predicate Valid()
      reads this, memory
    {
      && memory.Valid()
      && memory.g.Tree(memory.tables, root, layout, Span())
      && Owned(layout)
    }

    /** What a walk from the root answers for a page. */
    ghost function View(q: Path): Lookup
      requires memory.g.Valid() && memory.g.IsPath(q)
      reads memory
    {
      memory.g.Walk(memory.tables, root, q, 0)
    }

    predicate Manages(q: Path) {
      memory.g.levels > 0 && memory.g.IsPath(q) && q[0] < Span()
    }

    /** The level and the entry at which the way to `page` ends. */
    ghost function End(page: Path): (nat, Entry)
      requires Valid() && Manages(page)
      reads this, memory
    {
      assert page[..0] == [];
      memory.g.WalkDecided(memory.tables, root, layout, Span(), page);
      var d := memory.g.Depth(layout, page, 0);
      (d, memory.tables[layout[page[..d]]][page[d]])
    }

    /** Follow the links towards `page` as far as they go. */
    method Locate(page: Path) returns (current: Frame, level: nat, chain: seq<Frame>)
      requires Valid() && Manages(page)
      ensures level < memory.g.levels && page[..level] in layout && layout[page[..level]] == current
      ensures |chain| == level + 1
      ensures forall j :: 0 <= j <= level ==> page[..j] in layout && chain[j] == layout[page[..j]]
      ensures memory.g.HasTable(memory.tables, current)
      ensures !memory.g.Link(level, memory.tables[current][page[level]])
      ensures View(page) == memory.g.Classify(level, memory.tables[current][page[level]])
      ensures (level, memory.tables[current][page[level]]) == End(page)
    {
      ghost var g, tables := memory.g, memory.tables;
      current, level, chain := root, 0, [root];
      assert page[..0] == [];
      assert g.Node(tables, layout, Span(), []);
      while memory.g.Link(level, memory.ReadEntry(current, page[level]))
        invariant level < g.levels && page[..level] in layout && layout[page[..level]] == current
        invariant |chain| == level + 1
        invariant forall j :: 0 <= j <= level ==> page[..j] in layout && chain[j] == layout[page[..j]]
        invariant g.HasTable(tables, current)
        decreases g.levels - level
      {
        assert g.Node(tables, layout, Span(), page[..level]);
        assert g.Child(tables, layout, page[..level], page[level]);
        assert page[..level] + [page[level]] == page[..level + 1];
        current := memory.ReadEntry(current, page[level]).frame;
        level := level + 1;
        chain := chain + [current];
        assert g.Node(tables, layout, Span(), page[..level]);
      }
      LocateDecides(page, level);
    }

    lemma LocateDecides(page: Path, level: nat)
      requires Valid() && Manages(page) && level < memory.g.levels && page[..level] in layout
      requires memory.g.HasTable(memory.tables, layout[page[..level]])
      requires !memory.g.Link(level, memory.tables[layout[page[..level]]][page[level]])
      ensures View(page) == memory.g.Classify(level, memory.tables[layout[page[..level]]][page[level]])
      ensures (level, memory.tables[layout[page[..level]]][page[level]]) == End(page)
    {
      var g, tables := memory.g, memory.tables;
      g.WalkFrom(tables, root, layout, Span(), page, 0);
      g.DepthReaches(tables, root, layout, Span(), page, level);
      g.MissingEnds(tables, root, layout, Span(), page[..level], page[level]);
      assert page[..level] + [page[level]] == page[..level + 1];
      if g.Depth(layout, page, 0) > level {
        g.Prefixes(tables, root, layout, Span(), page, g.Depth(layout, page, 0), level + 1);
      }
    }

    /** A root that owns its pages may only change the user half. */
    predicate Denied(page: Path) {
      owned && !Manages(page)
    }

    /** Everything a caller may rely on when nothing was changed. */
    twostate predicate Untouched()
      reads this, memory
    {
      && memory.tables == old(memory.tables) && layout == old(layout) && runtimeTables == old(runtimeTables)
      && multiset(memory.free) == multiset(old(memory.free))
    }

    /** Link a chain of added tables, or give the tables back. */
    method PublishChain(parent: Frame, m: nat, page: Path, fs: seq<Frame>, frame: Frame, options: Options,
                        ghost a: Tables)
      returns (ok: bool)
      requires memory.Valid() && Manages(page) && m + |fs| + 1 == memory.g.levels && fs != []
      requires page[..m] in layout && layout[page[..m]] == parent
      requires memory.g.Tree(a, root, layout, Span()) && Added(memory.g, a, memory.tables, m, fs) && Owned(layout)
      requires memory.g.HasTable(a, parent) && memory.g.Missing(m, a[parent][page[m]])
      modifies this, memory
      ensures memory.Valid()
      ensures ok <==> forall j :: 0 <= j < |fs| ==> memory.g.TableEncodable(fs[j])
      ensures !ok ==>
        && memory.tables == a && memory.free == old(memory.free) + fs
        && layout == old(layout) && runtimeTables == old(runtimeTables)
      ensures ok ==> Valid() && OneChange(memory.g, root, Span(), a, memory.tables, page, Mapped(frame, options))
      ensures OldOrNew(memory.g, root, Span(), a, memory.tables, memory.seen, |old(memory.seen)|)
      ensures Local(a, old(layout), memory.tables, layout)
      ensures RootFilled(memory.g, root, a, memory.tables, page)
    {
      ghost var g, b, span := memory.g, memory.tables, Span();
      ChainPublished(g, a, b, root, layout, span, page, m, fs, frame, options);
      ok := memory.LinkChain(parent, m, page, fs, Leaf(frame, options));
      if ok {
        ChainRoot(g, a, b, root, layout, span, page, m, fs, Leaf(frame, options));
        ChainGrows(g, a, b, root, layout, span, page, m, fs, frame, options, runtimeTables);
        ChainSeen(g, a, b, root, layout, span, m, fs, memory.seen, |old(memory.seen)|, memory.tables);
        layout := g.Extended(layout, page, m, fs);
        runtimeTables := runtimeTables + fs;
      } else {
        ChainSeen(g, a, b, root, layout, span, m, fs, memory.seen, |old(memory.seen)|, a);
        GivenBack(g, a, b, memory.tables, m, fs);
        memory.FreeAll(fs);
        TreeTables(g, a, root, layout, span);
      }
    }

    /** The tables this root has allocated are in its tree. */
    ghost predicate Owned(layout: Layout)
      reads this
    {
      && Distinct(runtimeTables)
      && (forall i :: 0 <= i < |runtimeTables| ==> Hangs(layout, runtimeTables[i]))
      && (memory.g.format.Sentinel? ==>
            forall i :: 0 <= i < |runtimeTables| ==> runtimeTables[i] !in memory.g.format.invalid)
    }

    /** Whether the allocator can serve `n` new tables. */
    predicate Supplied(free: seq<Frame>, n: nat) {
      n <= |free| && forall j :: 0 <= j < n ==> memory.g.TableEncodable(free[j])
    }

    method InstallMissingChain(parent: Frame, m: nat, page: Path, frame: Frame, options: Options)
      returns (r: Outcome<()>)
      requires Valid() && Manages(page) && m + 1 < memory.g.levels && page[..m] in layout && layout[page[..m]] == parent
      requires memory.g.HasTable(memory.tables, parent) && memory.g.Missing(m, memory.tables[parent][page[m]])
      modifies this, memory
      ensures Valid()
      ensures r.Ok? <==> Supplied(old(memory.free), memory.g.levels - 1 - m)
      ensures r.Err? ==> Untouched()
      ensures r.Err? ==> r.error == if |old(memory.free)| < memory.g.levels - 1 - m then OutOfFrames else BadEntry
      ensures r.Ok? ==>
        OneChange(memory.g, root, Span(), old(memory.tables), memory.tables, page, Mapped(frame, options))
      ensures OldOrNew(memory.g, root, Span(), old(memory.tables), memory.tables, memory.seen, |old(memory.seen)|)
      ensures Local(old(memory.tables), old(layout), memory.tables, layout)
      ensures RootFilled(memory.g, root, old(memory.tables), memory.tables, page)
    {
      ghost var a, free0 := memory.tables, memory.free;
      var fs := memory.AllocateChain(m);
      memory.AllocatedIsAdded(a, free0, m, fs);
      assert free0 == free0[..|fs|] + free0[|fs|..];
      if |fs| < memory.g.levels - 1 - m {
        GivenBack(memory.g, a, memory.tables, memory.tables, m, fs);
        memory.FreeAll(fs);
        SelfLocal(a, layout);
        TreeTables(memory.g, a, root, layout, Span());
        return Err(OutOfFrames);
      }
      var ok := PublishChain(parent, m, page, fs, frame, options, a);
      r := if ok then Ok(()) else Err(BadEntry);
    }

    /**
     Why an encodable leaf cannot be put where the way to a page ends: the leaf
     entry is not empty, or there are no usable frames for the missing chain, or
     the entry is neither a link nor missing.
     */
    ghost function MapRefusal(level: nat, e: Entry, free: seq<Frame>): Option<Error>
      requires memory.g.Valid() && level < memory.g.levels
    {
      var needed := memory.g.levels - 1 - level;
      if memory.g.Missing(level, e) then
        if Supplied(free, needed) then None else if |free| < needed then Some(OutOfFrames) else Some(BadEntry)
      else if needed == 0 then Some(AlreadyMapped)
      else Some(memory.g.Classify(level, e).error)
    }

    method MapPage(page: Path, frame: Frame, options: Options) returns (r: Outcome<()>)
      requires Valid()
      modifies this, memory
      ensures Valid()
      ensures r.Ok? ==>
        && Manages(page) && old(View(page)) == Unmapped
        && OneChange(memory.g, root, Span(), old(memory.tables), memory.tables, page, Mapped(frame, options))
      ensures r.Err? ==> Untouched()
      ensures Denied(page) ==> r == Err(KernelMappingMutationDenied)
      ensures !owned && !memory.g.IsPath(page) ==> r == Err(InvalidVirtualAddress)
      ensures Manages(page) && !memory.g.LeafEncodable(frame, options) ==> r == Err(BadEntry)
      ensures Manages(page) && memory.g.LeafEncodable(frame, options) && old(View(page)).Mapped? ==>
        r == Err(AlreadyMapped)
      ensures Manages(page) && memory.g.LeafEncodable(frame, options) ==>
        var refusal := MapRefusal(old(End(page)).0, old(End(page)).1, old(memory.free));
        (r.Ok? <==> refusal.None?) && (r.Err? ==> r.error == refusal.value)
      ensures
        (Manages(page) && memory.g.LeafEncodable(frame, options) && old(View(page)) == Unmapped
         && memory.g.format.Plain? && Supplied(old(memory.free), memory.g.levels - 1)) ==> r.Ok?
      ensures OldOrNew(memory.g, root, Span(), old(memory.tables), memory.tables, memory.seen, |old(memory.seen)|)
      ensures Local(old(memory.tables), old(layout), memory.tables, layout)
      ensures RootFilled(memory.g, root, old(memory.tables), memory.tables, page)
    {
      SelfLocal(memory.tables, layout);
      TreeTables(memory.g, memory.tables, root, layout, Span());
      if Denied(page) {
        return Err(KernelMappingMutationDenied);
      }
      if !memory.g.IsPath(page) {
        return Err(InvalidVirtualAddress);
      }
      if !memory.g.LeafEncodable(frame, options) {
        return Err(BadEntry);
      }
      var current, level, _ := Locate(page);
      var entry := memory.ReadEntry(current, page[level]);
      assert End(page) == (level, entry);
      if level + 1 < memory.g.levels {
        if memory.g.Missing(level, entry) {
          r := InstallMissingChain(current, level, page, frame, options);
        } else {
          r := Err(memory.g.Classify(level, entry).error);
        }
      } else if !entry.Empty? {
        r := Err(AlreadyMapped);
      } else {
        WriteLeaf(page, current, Leaf(frame, options));
        r := Ok(());
      }
    }

    /** Overwrite the leaf entry of `page`, whose leaf table is `current`. */
    method WriteLeaf(page: Path, current: Frame, entry: Entry)
      requires Valid() && Manages(page)
      requires page[..memory.g.levels - 1] in layout && layout[page[..memory.g.levels - 1]] == current
      modifies memory
      ensures Valid() && memory.free == old(memory.free)
      ensures OneChange(memory.g, root, Span(), old(memory.tables), memory.tables, page,
                        memory.g.Classify(memory.g.levels - 1, entry))
      ensures OldOrNew(memory.g, root, Span(), old(memory.tables), memory.tables, memory.seen, |old(memory.seen)|)
      ensures Local(old(memory.tables), layout, memory.tables, layout)
      ensures SameRoot(memory.g, root, old(memory.tables), memory.tables)
    {
      ghost var a := memory.tables;
      TreeTables(memory.g, a, root, layout, Span());
      memory.g.LeafWrite(a, root, layout, Span(), page, entry);
      SelfLocal(a, layout);
      memory.WriteEntry(current, page[memory.g.levels - 1], entry);
    }

    /** Walk towards any page, borrowed ones too; `None` where a link leads to no table. */
    method Descend(page: Path) returns (current: Frame, level: nat, entry: Option<Entry>)
      requires Valid() && memory.g.IsPath(page)
      ensures level < memory.g.levels
      ensures View(page) ==
        if entry.None? then Broken(PageTableAccess) else memory.g.Classify(level, entry.value)
      ensures entry.Some? ==>
        memory.g.HasTable(memory.tables, current) && memory.tables[current][page[level]] == entry.value
      ensures Manages(page) && entry.Some? ==> page[..level] in layout && layout[page[..level]] == current
    {
      ghost var g, tables := memory.g, memory.tables;
      current, level := root, 0;
      assert page[..0] == [];
      assert g.Node(tables, layout, Span(), []);
      while memory.g.HasTable(memory.tables, current) && memory.g.Link(level, memory.ReadEntry(current, page[level]))
        invariant level < g.levels && View(page) == g.Walk(tables, current, page, level)
        invariant Manages(page) ==> page[..level] in layout && layout[page[..level]] == current
        decreases g.levels - level
      {
        if Manages(page) {
          assert g.Node(tables, layout, Span(), page[..level]);
          assert g.Child(tables, layout, page[..level], page[level]);
          assert page[..level] + [page[level]] == page[..level + 1];
        }
        current := memory.ReadEntry(current, page[level]).frame;
        level := level + 1;
      }
      entry := if memory.g.HasTable(memory.tables, current) then Some(memory.ReadEntry(current, page[level])) else None;
    }

    /** The leaf entry of a mapped page. */
    method LeafEntry(page: Path) returns (r: Outcome<(Frame, Entry)>)
      requires Valid()
      ensures r.Ok? ==>
        && memory.g.HasTable(memory.tables, r.value.0) && memory.g.IsPath(page)
        && memory.tables[r.value.0][page[memory.g.levels - 1]] == r.value.1
        && r.value.1.Leaf? && View(page) == Mapped(r.value.1.frame, r.value.1.options)
      ensures r.Ok? && Manages(page) ==>
        page[..memory.g.levels - 1] in layout && layout[page[..memory.g.levels - 1]] == r.value.0
      ensures r.Err? ==>
        r.error == if !memory.g.IsPath(page) then InvalidVirtualAddress
                   else if View(page).Broken? then View(page).error else NotMapped
      ensures r.Ok? <==> memory.g.IsPath(page) && View(page).Mapped?
    {
      if !memory.g.IsPath(page) {
        return Err(InvalidVirtualAddress);
      }
      var current, level, entry := Descend(page);
      if entry.None? {
        return Err(PageTableAccess);
      }
      match memory.g.Classify(level, entry.value)
      case Unmapped => return Err(NotMapped);
      case Broken(error) => return Err(error);
      case Mapped(_, _) => return Ok((current, entry.value));
    }

    /** `protect_page`, `replace_page` and `unmap_page`: rewrite the leaf of one mapped page. */
    method Remap(page: Path, change: Change) returns (r: Outcome<Frame>)
      requires Valid()
      modifies memory
      ensures Valid() && memory.free == old(memory.free)
      ensures r.Err? ==> memory.tables == old(memory.tables) && memory.seen == old(memory.seen)
      ensures r.Ok? ==> Manages(page) && old(View(page)).Mapped? && r.value == old(View(page)).frame
      ensures r.Ok? ==>
        OneChange(memory.g, root, Span(), old(memory.tables), memory.tables, page, change.After(old(View(page)).frame))
      ensures Denied(page) ==> r == Err(KernelMappingMutationDenied)
      ensures !owned && !memory.g.IsPath(page) ==> r == Err(InvalidVirtualAddress)
      ensures Manages(page) && old(View(page)) == Unmapped ==> r == Err(NotMapped)
      ensures Manages(page) && old(View(page)).Broken? ==> r == Err(old(View(page)).error)
      ensures r.Ok? && change.Protect? ==> View(page) == Mapped(r.value, change.options)
      ensures r.Ok? && change.Replace? ==> View(page) == Mapped(change.frame, change.options)
      ensures r.Ok? && change.Unmap? ==> View(page) == Unmapped
      ensures Manages(page) && old(View(page)).Mapped? ==>
        var encodable := match change
          case Protect(options) => memory.g.LeafEncodable(old(View(page)).frame, options)
          case Replace(frame, options) => memory.g.LeafEncodable(frame, options)
          case Unmap => true;
        if encodable then r.Ok? else r == Err(BadEntry)
      ensures OldOrNew(memory.g, root, Span(), old(memory.tables), memory.tables, memory.seen, |old(memory.seen)|)
      ensures Local(old(memory.tables), layout, memory.tables, layout)
      ensures SameRoot(memory.g, root, old(memory.tables), memory.tables)
    {
      SelfLocal(memory.tables, layout);
      TreeTables(memory.g, memory.tables, root, layout, Span());
      if Denied(page) {
        return Err(KernelMappingMutationDenied);
      }
      var leaf := LeafEntry(page);
      if leaf.Err? {
        return Err(leaf.error);
      }
      var (table, entry) := leaf.value;
      var after := change.After(entry.frame);
      if after.Unmapped? {
        WriteLeaf(page, table, Empty);
      } else {
        if !memory.g.LeafEncodable(after.frame, after.options) {
          return Err(BadEntry);
        }
        WriteLeaf(page, table, Leaf(after.frame, after.options));
      }
      return Ok(entry.frame);
    }

    method Translate(page: Path) returns (r: Outcome<Lookup>)
      requires Valid()
      ensures r == if !memory.g.IsPath(page) then Err(InvalidVirtualAddress)
                   else if View(page).Broken? then Err(View(page).error) else Ok(View(page))
    {
      if !memory.g.IsPath(page) {
        return Err(InvalidVirtualAddress);
      }
      var current, level, entry := Descend(page);
      var answer := if entry.None? then Broken(PageTableAccess) else memory.g.Classify(level, entry.value);
      return if answer.Broken? then Err(answer.error) else Ok(answer);
    }

    method TableIsFilled(f: Frame, level: nat) returns (filled: bool)
      requires memory.Valid() && memory.g.HasTable(memory.tables, f)
      ensures filled <==> memory.g.IsBlank(memory.tables, f, level)
    {
      var i := 0;
      while i < memory.g.width
        invariant 0 <= i <= memory.g.width
        invariant forall j :: 0 <= j < i ==> memory.tables[f][j] == memory.g.Blank(level)
      {
        if memory.ReadEntry(f, i) != memory.g.Blank(level) {
          return false;
        }
        i := i + 1;
      }
      return true;
    }

    /** The position of a table this root has allocated, or the length of the list. */
    method Position(f: Frame) returns (position: nat)
      ensures position <= |runtimeTables|
      ensures position < |runtimeTables| ==> runtimeTables[position] == f
      ensures position == |runtimeTables| ==> f !in runtimeTables
    {
      position := 0;
      while position < |runtimeTables| && runtimeTables[position] != f
        invariant position <= |runtimeTables| && f !in runtimeTables[..position]
      {
        position := position + 1;
      }
    }

    /** Unlink the blank table at `page[..level]`, which this root owns at `position`. */
    method Retire(page: Path, level: nat, parent: Frame, position: nat)
      requires Valid() && Manages(page) && 0 < level < memory.g.levels && page[..level] in layout
      requires page[..level - 1] in layout
      requires layout[page[..level - 1]] == parent && position < |runtimeTables|
      requires runtimeTables[position] == layout[page[..level]]
      requires memory.g.IsBlank(memory.tables, layout[page[..level]], level)
      modifies this, memory
      ensures Valid() && memory.free == old(memory.free)
      ensures layout == old(layout) - {page[..level]}
      ensures runtimeTables == SwapRemove(old(runtimeTables), position)
      ensures SameView(memory.g, root, Span(), old(memory.tables), memory.tables)
      ensures memory.seen == old(memory.seen) + [memory.tables]
      ensures Local(old(memory.tables), old(layout), memory.tables, layout)
      ensures memory.g.HasTable(old(memory.tables), parent)
      ensures memory.tables == memory.g.Write(old(memory.tables), parent, page[level - 1], memory.g.Blank(level - 1))
      ensures !InLayout(layout, old(runtimeTables)[position])
    {
      Unlinked(memory.g, memory.tables, root, layout, Span(), page, level);
      DetachedOwned(layout, page[..level], runtimeTables, position);
      memory.WriteEntry(parent, page[level - 1], memory.g.Blank(level - 1));
      runtimeTables := SwapRemove(runtimeTables, position);
      layout := layout - {page[..level]};
    }

    /**
     How far reclaiming has come: tables below `level` on the way to `page` are
     gone from the tree, and nothing but that has changed since `a`.
     */
    ghost predicate Reclaimed(a: Tables, before: Layout, owned0: seq<Frame>, from: nat, page: Path, level: nat,
                              retired0: seq<Frame>, retired: seq<Frame>)
      requires memory.g.Valid()
      reads this, memory
    {
      && SameView(memory.g, root, Span(), a, memory.tables)
      && OldOrNew(memory.g, root, Span(), a, a, memory.seen, from)
      && Local(a, before, memory.tables, layout)
      && RootCleared(memory.g, root, a, memory.tables, page) && memory.tables.Keys == a.Keys
      && Shrunk(before, layout, page, level)
      && HandedOver(layout, runtimeTables, owned0, retired0, retired)
    }

    method ReclaimOne(page: Path, level: nat, parent: Frame, position: nat, retired: seq<Frame>,
                      ghost a: Tables, ghost before: Layout, ghost owned0: seq<Frame>, ghost from: nat,
                      ghost retired0: seq<Frame>)
      returns (retired': seq<Frame>)
      requires Valid() && Manages(page) && 0 < level < memory.g.levels && page[..level] in layout
      requires page[..level - 1] in layout
      requires layout[page[..level - 1]] == parent && position < |runtimeTables|
      requires runtimeTables[position] == layout[page[..level]]
      requires memory.g.IsBlank(memory.tables, layout[page[..level]], level)
      requires Reclaimed(a, before, owned0, from, page, level, retired0, retired)
      modifies this, memory
      ensures Valid() && memory.free == old(memory.free)
      ensures layout == old(layout) - {page[..level]}
      ensures Reclaimed(a, before, owned0, from, page, level - 1, retired0, retired')
    {
      var f := runtimeTables[position];
      ghost var b, middle := memory.tables, layout;
      ghost var mine := runtimeTables;
      Retire(page, level, parent, position);
      retired' := retired + [f];
      HandOver(middle, page[..level], mine, position, owned0, retired0, retired);
      ShrunkMore(a, b, memory.tables, before, middle, page, level);
    }

    /** Where the way to `page` ends, and why it cannot be shortened. */
    ghost predicate EndsAt(page: Path, level: nat)
      reads this
    {
      level < |page| && page[..level] in layout && (level + 1 < memory.g.levels ==> page[..level + 1] !in layout)
    }

    ghost predicate Stuck(page: Path, level: nat)
      requires memory.g.Valid() && level <= |page|
      reads this, memory
    {
      || level == 0 || page[..level] !in layout || layout[page[..level]] !in runtimeTables
      || !memory.g.IsBlank(memory.tables, layout[page[..level]], level)
    }

    /** One round of reclaiming: unlink the table at `level`, or find that it must stay. */
    method ReclaimLevel(page: Path, chain: seq<Frame>, level: nat, retired: seq<Frame>,
                        ghost a: Tables, ghost before: Layout, ghost owned0: seq<Frame>, ghost from: nat,
                        ghost retired0: seq<Frame>)
      returns (go: bool, retired': seq<Frame>)
      requires Valid() && Manages(page) && 0 < level < memory.g.levels && EndsAt(page, level)
      requires OnChain(layout, page, chain, level)
      requires Reclaimed(a, before, owned0, from, page, level, retired0, retired)
      modifies this, memory
      ensures Valid() && memory.free == old(memory.free)
      ensures go ==> EndsAt(page, level - 1) && OnChain(layout, page, chain, level - 1)
      ensures go ==> Reclaimed(a, before, owned0, from, page, level - 1, retired0, retired')
      ensures !go ==>
        EndsAt(page, level) && Stuck(page, level) && Reclaimed(a, before, owned0, from, page, level, retired0, retired')
    {
      retired' := retired;
      var f, parent := chain[level], chain[level - 1];
      ShorterChain(layout, page, chain, level);
      TreeTables(memory.g, memory.tables, root, layout, Span());
      var position := Position(f);
      if position == |runtimeTables| {
        return false, retired;
      }
      var filled := TableIsFilled(f, level);
      if !filled {
        return false, retired;
      }
      retired' := ReclaimOne(page, level, parent, position, retired, a, before, owned0, from, retired0);
      go := true;
    }

    method ReclaimChain(page: Path, chain: seq<Frame>, retired0: seq<Frame>) returns (retired: seq<Frame>)
      requires Valid() && Manages(page) && |chain| == memory.g.levels
      requires OnChain(layout, page, chain, memory.g.levels - 1)
      modifies this, memory
      ensures Valid() && memory.free == old(memory.free) && Exhausted(page)
      ensures Reclaimed(old(memory.tables), old(layout), old(runtimeTables), |old(memory.seen)|, page, 0,
                        retired0, retired)
    {
      retired := retired0;
      ghost var a, before, owned0, from := memory.tables, layout, runtimeTables, |memory.seen|;
      SelfLocal(a, layout);
      TreeTables(memory.g, a, root, layout, Span());
      var level, go := memory.g.levels - 1, true;
      ghost var last := chain[level];
      while level > 0 && go
        invariant 0 <= level < memory.g.levels && EndsAt(page, level)
        invariant if go then OnChain(layout, page, chain, level) else Stuck(page, level)
        invariant Valid() && memory.free == old(memory.free)
        invariant Reclaimed(a, before, owned0, from, page, level, retired0, retired)
        decreases level, go
      {
        go, retired := ReclaimLevel(page, chain, level, retired, a, before, owned0, from, retired0);
        level := if go then level - 1 else level;
      }
      ExhaustedHere(page, level);
      ReclaimedEnough(a, before, owned0, from, page, level, retired0, retired);
    }

    lemma ReclaimedEnough(a: Tables, before: Layout, owned0: seq<Frame>, from: nat, page: Path, level: nat,
                          retired0: seq<Frame>, retired: seq<Frame>)
      requires memory.g.Valid() && Reclaimed(a, before, owned0, from, page, level, retired0, retired)
      ensures Reclaimed(a, before, owned0, from, page, 0, retired0, retired)
    {
    }

    /**
     Free the page's chain of owned tables from the leaf upwards while they are
     empty. Nobody's answer changes; the tables move to `retired`, each once.
     */
    method ReclaimEmptyTables(page: Path, retired0: seq<Frame>) returns (r: Outcome<()>, retired: seq<Frame>)
      requires Valid()
      modifies this, memory
      ensures Valid() && memory.free == old(memory.free)
      ensures Reclaimed(old(memory.tables), old(layout), old(runtimeTables), |old(memory.seen)|, page, 0,
                        retired0, retired)
      ensures r.Err? ==> Untouched() && retired == retired0
      ensures r.Ok? && HasLeafTable(memory.g, old(layout), page) ==> Exhausted(page)
      ensures Denied(page) ==> r == Err(KernelMappingMutationDenied)
      ensures !owned && !memory.g.IsPath(page) ==> r == Err(InvalidVirtualAddress)
    {
      retired := retired0;
      SelfLocal(memory.tables, layout);
      TreeTables(memory.g, memory.tables, root, layout, Span());
      if Denied(page) {
        return Err(KernelMappingMutationDenied), retired;
      }
      if !memory.g.IsPath(page) {
        return Err(InvalidVirtualAddress), retired;
      }
      var current, level, chain := Locate(page);
      if level + 1 < memory.g.levels {
        EndsHere(page, level);
        var entry := memory.ReadEntry(current, page[level]);
        r := if memory.g.Missing(level, entry) then Ok(()) else Err(InvalidTableEntry(level));
        return;
      }
      r := Ok(());
      assert OnChain(layout, page, chain, level);
      retired := ReclaimChain(page, chain, retired0);
    }

    /** Final teardown of a user root: every managed entry is cleared and every owned table is handed over. */
    method RetireAllPrivateTables(retired0: seq<Frame>) returns (retired: seq<Frame>)
      requires Valid() && (owned || memory.g.format.Sentinel?)
      modifies this, memory
      ensures Valid() && memory.free == old(memory.free) && layout == map[[] := root] && runtimeTables == []
      ensures retired == retired0 + old(runtimeTables)
      ensures forall q :: Manages(q) ==> View(q) == Unmapped
      ensures memory.g.HasTable(old(memory.tables), root)
      ensures memory.tables == old(memory.tables)[root := Cleared(memory.g, old(memory.tables)[root], Span())]
      ensures Local(old(memory.tables), old(layout), memory.tables, layout)
      ensures OldOrGone(memory.g, root, Span(), old(memory.tables), memory.seen, |old(memory.seen)|)
    {
      ghost var g, a, before := memory.g, memory.tables, layout;
      TreeTables(g, a, root, layout, Span());
      assert before[[]] == root;
      var index := 0;
      assert a[root] == Cleared(g, a[root], 0) && a[root := a[root]] == a;
      while index < Span()
        invariant 0 <= index <= Span() <= g.width && memory.Valid() && memory.free == old(memory.free)
        invariant runtimeTables == old(runtimeTables)
        invariant memory.tables == a[root := Cleared(g, a[root], index)] && layout == before
        invariant OldOrGone(g, root, Span(), a, memory.seen, |old(memory.seen)|)
      {
        assert Cleared(g, a[root], index)[index := g.Blank(0)] == Cleared(g, a[root], index + 1);
        memory.WriteEntry(root, index, memory.g.Blank(0));
        index := index + 1;
        ClearedViews(g, a, root, before, Span(), index);
      }
      retired := retired0 + runtimeTables;
      runtimeTables := [];
      layout := map[[] := root];
      BareRoot(g, memory.tables, root, Span());
    }

    /** No empty owned table is left at the end of the way to `page`. */
    ghost predicate Exhausted(page: Path)
      reads this, memory
    {
      && memory.g.Valid() && memory.g.IsPath(page) && page[..0] in layout
      && Stuck(page, memory.g.Depth(layout, page, 0))
    }

    lemma ExhaustedHere(page: Path, level: nat)
      requires Valid() && Manages(page) && level < memory.g.levels && EndsAt(page, level) && Stuck(page, level)
      ensures Exhausted(page)
    {
      assert page[..0] == [];
      var d := memory.g.Depth(layout, page, 0);
      memory.g.DepthReaches(memory.tables, root, layout, Span(), page, level);
      if d > level {
        memory.g.Prefixes(memory.tables, root, layout, Span(), page, d, level + 1);
      }
    }

    lemma EndsHere(page: Path, level: nat)
      requires Valid() && Manages(page) && level + 1 < memory.g.levels && page[..level] in layout
      requires memory.g.HasTable(memory.tables, layout[page[..level]])
      requires !memory.g.Link(level, memory.tables[layout[page[..level]]][page[level]])
      ensures page[..memory.g.levels - 1] !in layout
    {
      memory.g.MissingEnds(memory.tables, root, layout, Span(), page[..level], page[level]);
      assert page[..level] + [page[level]] == page[..level + 1];
      if page[..memory.g.levels - 1] in layout {
        memory.g.Prefixes(memory.tables, root, layout, Span(), page, memory.g.levels - 1, level + 1);
      }
    }
  }

  /** Unlinking the blank table at `page[..level]` keeps the rest of the tree and all its answers. */
  lemma Unlinked(g: Geometry, a: Tables, root: Frame, layout: Layout, span: nat, page: Path, level: nat)
    requires g.Valid() && g.Tree(a, root, layout, span) && g.IsPath(page) && page[0] < span
    requires 0 < level < g.levels && page[..level] in layout && page[..level - 1] in layout
    requires g.IsBlank(a, layout[page[..level]], level)
    ensures g.HasTable(a, layout[page[..level - 1]])
    ensures
      var b := g.Write(a, layout[page[..level - 1]], page[level - 1], g.Blank(level - 1));
      && g.Tree(b, root, layout - {page[..level]}, span) && SameView(g, root, span, a, b)
      && Local(a, layout, b, layout - {page[..level]})
  {
    assert page[..level] == page[..level - 1] + [page[level - 1]];
    TreeTables(g, a, root, layout, span);
    SelfLocal(a, layout);
    g.Detach(a, root, layout, span, page[..level - 1], page[level - 1]);
  }

  /** `swap_remove` takes out one element and keeps the others. */
  lemma SwapRemoveCounts(s: seq<Frame>, i: nat)
    requires i < |s|
    ensures multiset(SwapRemove(s, i)) + multiset{s[i]} == multiset(s)
  {
    var n := |s| - 1;
    if i == n {
      assert SwapRemove(s, i) == s[..n] && s == s[..n] + [s[n]];
    } else {
      Exchanged(s, s[..i], s[i], s[i + 1..n], s[n], SwapRemove(s, i));
    }
  }

  lemma Exchanged(s: seq<Frame>, before: seq<Frame>, x: Frame, between: seq<Frame>, last: Frame, r: seq<Frame>)
    requires s == before + [x] + between + [last] && r == before + [last] + between
    ensures multiset(r) + multiset{x} == multiset(s)
  {
    assert multiset(r) == multiset(before) + multiset{last} + multiset(between);
    assert multiset(s) == multiset(before) + multiset{x} + multiset(between) + multiset{last};
  }

  lemma SwapRemoveKeeps(s: seq<Frame>, i: nat)
    requires i < |s| && Distinct(s)
    ensures Distinct(SwapRemove(s, i)) && s[i] !in SwapRemove(s, i)
    ensures forall x :: x in SwapRemove(s, i) ==> x in s
  {
    var r := SwapRemove(s, i);
    forall j | 0 <= j < |r| ensures r[j] == (if j == i then s[|s| - 1] else s[j]) {}
  }

  lemma DetachedOwned(layout: Layout, p: Path, owned: seq<Frame>, position: nat)
    requires p in layout && p != [] && position < |owned| && owned[position] == layout[p] && Distinct(owned)
    requires forall r, q {:trigger layout[r], layout[q]} ::
      r in layout && q in layout && layout[r] == layout[q] ==> r == q
    requires forall i :: 0 <= i < |owned| ==> Hangs(layout, owned[i])
    ensures Distinct(SwapRemove(owned, position)) && !InLayout(layout - {p}, owned[position])
    ensures forall i :: 0 <= i < |owned| - 1 ==> Hangs(layout - {p}, SwapRemove(owned, position)[i])
    ensures forall x :: x in SwapRemove(owned, position) ==> x in owned
  {
    SwapRemoveKeeps(owned, position);
    forall i | 0 <= i < |owned| - 1 ensures Hangs(layout - {p}, SwapRemove(owned, position)[i]) {
      var x := SwapRemove(owned, position)[i];
      assert x in SwapRemove(owned, position) && x in owned;
      var r :| r in layout && r != [] && layout[r] == x;
      assert r != p;
      assert r in layout - {p};
    }
  }

  lemma SelfLocal(a: Tables, layout: Layout)
    ensures forall p :: p in layout ==> InLayout(layout, layout[p])
    ensures Local(a, layout, a, layout)
  {
  }
}
