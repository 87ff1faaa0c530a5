/**
 The kernel root and the user roots of kernel/src/runtime_page_table.rs on
 RISC-V. User roots borrow the kernel's high half through copied top-level
 entries; a counter of borrowers keeps the kernel from retiring tables they see.
 */
module SharedRoots {
  import opened Machine
  import opened PageTableModel
  import opened RuntimePageTables

  ghost predicate Apart(a: Layout, b: Layout) {
    forall p, q {:trigger a[p], b[q]} :: p in a && q in b ==> a[p] != b[q]
  }

  /** Each high-half entry of a user root is missing or a copy of the kernel's present entry. */
  ghost predicate Borrows(g: Geometry, t: Tables, kernel: Frame, user: Frame)
    requires g.Valid()
  {
    && g.HasTable(t, kernel) && g.HasTable(t, user)
    && forall i :: g.width / 2 <= i < g.width ==> t[user][i] == t[kernel][i] || g.Missing(0, t[user][i])
  }

  /** A step on one tree leaves a tree apart from it alone. */
  lemma OtherTree(g: Geometry, a: Tables, mine: Layout, b: Tables, mine': Layout, root: Frame, layout: Layout,
                  span: nat)
    requires g.Valid() && Local(a, mine, b, mine') && Apart(mine, layout) && g.Tree(a, root, layout, span)
    ensures g.Tree(b, root, layout, span) && SameView(g, root, span, a, b) && Apart(mine', layout)
    ensures SameRoot(g, root, a, b)
  {
    TreeTables(g, a, root, layout, span);
    forall p | p in layout ensures !InLayout(mine, layout[p]) {
    }
    Elsewhere(g, a, b, root, layout, span);
    forall p, q | p in mine' && q in layout ensures mine'[p] != layout[q] {
      assert !InLayout(mine, layout[q]) && g.HasTable(a, layout[q]);
    }
    assert g.HasTable(a, layout[[]]);
  }

  /** What is neither in the tree nor free stays out of the tree. */
  lemma OutsideStays(a: Tables, mine: Layout, b: Tables, mine': Layout, f: Frame)
    requires Local(a, mine, b, mine') && f in a && !InLayout(mine, f)
    ensures f in b && b[f] == a[f] && !InLayout(mine', f)
  {
  }

  lemma KernelFilled(g: Geometry, a: Tables, b: Tables, kernel: Frame, user: Frame, page: Path)
    requires g.Valid() && Borrows(g, a, kernel, user) && RootFilled(g, kernel, a, b, page) && SameRoot(g, user, a, b)
    ensures Borrows(g, b, kernel, user)
  {
  }

  /** The upper half of a root is as before. */
  ghost predicate HighKept(g: Geometry, a: Tables, b: Tables, root: Frame) {
    && g.HasTable(a, root) && g.HasTable(b, root)
    && forall i :: g.width / 2 <= i < g.width ==> b[root][i] == a[root][i]
  }

  /** Handing over owned tables keeps the retired list free of repetitions. */
  lemma RetiredOnce(layout: Layout, mine: seq<Frame>, owned0: seq<Frame>, retired0: seq<Frame>, retired: seq<Frame>)
    requires HandedOver(layout, mine, owned0, retired0, retired) && Distinct(owned0) && Distinct(retired0)
    requires forall x :: x in owned0 ==> x !in retired0
    ensures Distinct(retired)
  {
    forall i, j | 0 <= i < j < |retired| ensures retired[i] != retired[j] {
      var x := retired[i];
      OnceCounts(owned0, x);
      OnceCounts(retired0, x);
      assert (multiset(mine) + multiset(retired))[x] == (multiset(owned0) + multiset(retired0))[x] <= 1;
      if x == retired[j] { TwiceCounts(retired, i, j); }
    }
  }

  lemma TwiceCounts(s: seq<Frame>, i: nat, j: nat)
    requires i < j < |s| && s[i] == s[j]
    ensures multiset(s)[s[i]] >= 2
  {
    assert s == s[..i] + [s[i]] + s[i + 1..j] + [s[j]] + s[j + 1..];
  }

  lemma OnceCounts(s: seq<Frame>, x: Frame)
    requires Distinct(s)
    ensures multiset(s)[x] <= 1 && (x !in s ==> multiset(s)[x] == 0)
  {
    if s != [] {
      var n := |s| - 1;
      assert s == s[..n] + [s[n]];
      OnceCounts(s[..n], x);
    }
  }

  /** Copying the upper half of one root into another touches no managed entry. */
  lemma CopiedHalf(g: Geometry, a: Tables, src: Frame, dst: Frame, layout: Layout)
    requires g.Valid() && g.HasTable(a, src) && g.HasTable(a, dst) && g.Tree(a, dst, layout, g.width / 2)
    ensures
      var b := a[dst := a[dst][..g.width / 2] + a[src][g.width / 2..]];
      g.Tree(b, dst, layout, g.width / 2) && Local(a, layout, b, layout) && Borrows(g, b, src, dst)
      && SameView(g, dst, g.width / 2, a, b)
      && forall i :: g.width / 2 <= i < g.width ==> b[dst][i] == b[src][i]
  {
    var b := a[dst := a[dst][..g.width / 2] + a[src][g.width / 2..]];
    SelfLocal(a, layout);
    TreeTables(g, a, dst, layout, g.width / 2);
    g.RootFrame(a, b, dst, layout, g.width / 2);
  }

  /** What a fresh root page holds after the copy. */
  lemma CopyShape(g: Geometry, a: Tables, src: Frame, f: Frame)
    requires g.Valid() && g.HasTable(a, src) && f !in a
    ensures
      var b := a[f := seq(g.width, i => g.Blank(0))[..g.width / 2] + a[src][g.width / 2..]];
      && b - {f} == a && g.HasTable(b, f) && g.HasTable(b, src)
      && (forall i :: 0 <= i < g.width / 2 ==> b[f][i] == g.Blank(0))
      && (forall i :: g.width / 2 <= i < g.width ==> b[f][i] == b[src][i])
  {
    var b := a[f := seq(g.width, i => g.Blank(0))[..g.width / 2] + a[src][g.width / 2..]];
    assert b - {f} == a;
  }

  /** A root entry that links leads every walk to the same place, whichever root it is in. */
  lemma SharedWalk(g: Geometry, t: Tables, kernel: Frame, user: Frame, q: Path)
    requires g.Valid() && g.IsPath(q) && g.HasTable(t, kernel) && g.HasTable(t, user)
    requires t[user][q[0]] == t[kernel][q[0]]
    ensures g.Walk(t, user, q, 0) == g.Walk(t, kernel, q, 0)
  {
  }

  /** Low pages of the user root and all of the kernel's answer as in `a`, high pages as in `a` or as the kernel's. */
  ghost predicate Between(g: Geometry, a: Tables, b: Tables, kernel: Frame, user: Frame)
    requires g.Valid()
  {
    && SameView(g, user, g.width / 2, a, b) && SameView(g, kernel, g.width, a, b)
    && forall q :: g.IsPath(q) && q[0] >= g.width / 2 ==>
         g.Walk(b, user, q, 0) == g.Walk(a, user, q, 0) || g.Walk(b, user, q, 0) == g.Walk(a, kernel, q, 0)
  }

  /** So it is at every look while the high half is copied. */
  lemma MergedViews(g: Geometry, a: Tables, b: Tables, kernel: Frame, kernelLayout: Layout, user: Frame, layout: Layout)
    requires g.Valid() && Merged(g, a, b, user, kernel) && Borrows(g, a, kernel, user)
    requires g.Tree(a, user, layout, g.width / 2) && g.Tree(a, kernel, kernelLayout, g.width)
    requires Apart(layout, kernelLayout)
    ensures Between(g, a, b, kernel, user)
  {
    TreeTables(g, a, user, layout, g.width / 2);
    TreeTables(g, a, kernel, kernelLayout, g.width);
    assert layout[[]] == user && kernelLayout[[]] == kernel;
    g.RootFrame(a, b, user, layout, g.width / 2);
    Elsewhere(g, a, b, kernel, kernelLayout, g.width);
    forall q | g.IsPath(q) && q[0] >= g.width / 2
      ensures g.Walk(b, user, q, 0) == g.Walk(a, user, q, 0) || g.Walk(b, user, q, 0) == g.Walk(a, kernel, q, 0)
    {
      if b[user][q[0]] == a[kernel][q[0]] {
        SharedWalk(g, b, kernel, user, q);
      }
    }
  }

  /** Where a user root answers differently for a high page, it answered and answers as the kernel root does. */
  ghost predicate Follows(g: Geometry, a: Tables, b: Tables, kernel: Frame, user: Frame)
    requires g.Valid()
  {
    forall q :: g.IsPath(q) && q[0] >= g.width / 2 ==>
      || g.Walk(b, user, q, 0) == g.Walk(a, user, q, 0)
      || (g.Walk(a, user, q, 0) == g.Walk(a, kernel, q, 0) && g.Walk(b, user, q, 0) == g.Walk(b, kernel, q, 0))
  }

  /** A user root whose own high entries stay changes its high half only along with the kernel. */
  lemma HighFollows(g: Geometry, a: Tables, b: Tables, kernel: Frame, user: Frame)
    requires g.Valid() && Borrows(g, a, kernel, user) && Borrows(g, b, kernel, user) && HighKept(g, a, b, user)
    ensures Follows(g, a, b, kernel, user)
  {
    forall q | g.IsPath(q) && q[0] >= g.width / 2
      ensures
        || g.Walk(b, user, q, 0) == g.Walk(a, user, q, 0)
        || (g.Walk(a, user, q, 0) == g.Walk(a, kernel, q, 0) && g.Walk(b, user, q, 0) == g.Walk(b, kernel, q, 0))
    {
      if !g.Missing(0, a[user][q[0]]) {
        SharedWalk(g, a, kernel, user, q);
        SharedWalk(g, b, kernel, user, q);
      }
    }
  }

  class AddressSpaces {
    const memory: PhysMemory
    const kernel: RuntimePageTable
    var users: set<RuntimePageTable>
    var borrowers: nat
    var retired: seq<Frame>

    constructor (kernel: RuntimePageTable)
      requires kernel.Valid() && !kernel.owned && kernel.memory.g.format.Plain?
      ensures Valid() && this.kernel == kernel && memory == kernel.memory && users == {} && retired == []
    {
      this.kernel, this.memory, users, borrowers, retired := kernel, kernel.memory, {}, 0, [];
    }

    ghost function Roots(): set<RuntimePageTable>
      reads `users
    {
      users + {kernel}
    }

    ghost predicate Shape()
      reads `users, `borrowers
    {
      ShapeOf(users, borrowers)
    }

    ghost predicate ShapeOf(us: set<RuntimePageTable>, n: nat) {
      && memory.g.Valid() && memory.g.format.Plain?
      && kernel.memory == memory && !kernel.owned && kernel !in us
      && (forall u :: u in us ==> u.memory == memory && u.owned)
      && n == |us|
    }

    ghost predicate Valid()
      reads this, memory, Roots()
    {
      Settled() && AllDetached(retired)
    }

    /** The trees of all roots are sound and apart, and user roots borrow from the kernel only. */
    ghost predicate Settled()
      reads `users, `borrowers, memory, Roots()
    {
      Shape() && memory.Valid() && TreesOf(Roots()) && Borrowing(users)
    }

    ghost predicate TreesOf(vs: set<RuntimePageTable>)
      requires memory.g.Valid()
      reads memory, vs
    {
      && (forall v :: v in vs ==> Sound(memory.tables, v))
      && (forall v, w :: v in vs && w in vs && v != w ==> Apart(v.layout, w.layout))
    }

    ghost predicate Borrowing(us: set<RuntimePageTable>)
      requires memory.g.Valid()
      reads memory
    {
      forall u :: u in us ==> Borrows(memory.g, memory.tables, kernel.root, u.root)
    }

    /** Distinct table pages that hang in no tree. */
    ghost predicate AllDetached(s: seq<Frame>)
      reads `users, memory, Roots()
    {
      DetachedFrom(Roots(), s)
    }

    ghost predicate DetachedFrom(vs: set<RuntimePageTable>, s: seq<Frame>)
      reads memory, vs
    {
      && Distinct(s) && (forall f, v :: f in s && v in vs ==> !InLayout(v.layout, f))
      && forall f :: f in s ==> f in memory.tables
    }

    ghost predicate Sound(t: Tables, v: RuntimePageTable)
      requires memory.g.Valid()
      reads v
    {
      v.memory == memory && memory.g.Tree(t, v.root, v.layout, v.Span()) && v.Owned(v.layout)
    }

    /** The rest of the state around `w`, whose tree had the layout `mine` in the memory `a`. */
    ghost predicate Around(a: Tables, w: RuntimePageTable, mine: Layout)
      reads this, Roots() - {w}
    {
      && Shape() && w in Roots()
      && (forall v :: v in Roots() && v != w ==> Sound(a, v) && Apart(mine, v.layout) && Apart(v.layout, mine))
      && (forall v, x :: v in Roots() && x in Roots() && v != x && v != w && x != w ==> Apart(v.layout, x.layout))
      && (forall u :: u in users ==> Borrows(memory.g, a, kernel.root, u.root))
      && Distinct(retired)
      && (forall f, v :: f in retired && v in Roots() && v != w ==> !InLayout(v.layout, f))
      && (forall f :: f in retired ==> f in a && !InLayout(mine, f))
    }

    lemma Surroundings(w: RuntimePageTable)
      requires Valid() && w in Roots()
      ensures Around(memory.tables, w, w.layout) && w.Valid() && w.memory == memory
      ensures memory.g.Tree(memory.tables, w.root, w.layout, w.Span()) && w.Owned(w.layout)
    {
      assert Sound(memory.tables, w);
    }

    /** Every translation of the roots `vs` is as it was in `a`. */
    ghost predicate Kept(a: Tables, vs: set<RuntimePageTable>)
      requires memory.g.Valid()
      reads memory
    {
      forall v :: v in vs ==>
        SameView(memory.g, v.root, v.Span(), a, memory.tables) && SameRoot(memory.g, v.root, a, memory.tables)
    }

    /** The high half of every user root changed at most where the kernel's did, and then like it. */
    ghost predicate Followed(a: Tables)
      requires memory.g.Valid()
      reads `users, memory
    {
      forall u :: u in users ==> Follows(memory.g, a, memory.tables, kernel.root, u.root)
    }

    /** A step on the tree of `w` leaves every other root and the retired tables alone. */
    lemma OthersKept(a: Tables, w: RuntimePageTable, mine: Layout)
      requires Around(a, w, mine) && Local(a, mine, memory.tables, w.layout)
      ensures Kept(a, Roots() - {w})
      ensures forall v :: v in Roots() && v != w ==>
        Sound(memory.tables, v) && Apart(v.layout, w.layout) && Apart(w.layout, v.layout)
    {
      forall v | v in Roots() && v != w
        ensures Sound(memory.tables, v) && Apart(v.layout, w.layout) && Apart(w.layout, v.layout)
                && SameView(memory.g, v.root, v.Span(), a, memory.tables)
                && SameRoot(memory.g, v.root, a, memory.tables)
      {
        OtherTree(memory.g, a, mine, memory.tables, w.layout, v.root, v.layout, v.Span());
      }
    }

    lemma RetiredKept(a: Tables, w: RuntimePageTable, mine: Layout, f: Frame)
      requires Around(a, w, mine) && Local(a, mine, memory.tables, w.layout) && f in retired
      ensures f in memory.tables && forall v :: v in Roots() ==> !InLayout(v.layout, f)
    {
      OutsideStays(a, mine, memory.tables, w.layout, f);
    }

    lemma StepKeeps(a: Tables, w: RuntimePageTable, mine: Layout)
      requires Around(a, w, mine) && Local(a, mine, memory.tables, w.layout) && w.Valid()
      requires forall u :: u in users ==> Borrows(memory.g, memory.tables, kernel.root, u.root)
      ensures Valid() && Kept(a, Roots() - {w})
    {
      OthersKept(a, w, mine);
      forall f | f in retired ensures f in memory.tables && forall v :: v in Roots() ==> !InLayout(v.layout, f) {
        RetiredKept(a, w, mine, f);
      }
    }

    /** The high half of every user root answers as the kernel does now, or not at all. */
    lemma BorrowedView(u: RuntimePageTable, q: Path)
      requires Valid() && u in users && memory.g.IsPath(q) && q[0] >= memory.g.width / 2
      ensures u.View(q) == kernel.View(q) || u.View(q) == Unmapped
    {
      if memory.tables[u.root][q[0]] == memory.tables[kernel.root][q[0]] {
        SharedWalk(memory.g, memory.tables, kernel.root, u.root, q);
      }
    }

    /** No copied entry points at a retired or freed table page. */
    lemma NoDanglingEntry(u: RuntimePageTable, i: nat)
      requires Valid() && u in users && memory.g.width / 2 <= i < memory.g.width
      ensures memory.g.HasTable(memory.tables, u.root)
      ensures
        var e := memory.tables[u.root][i];
        e.Pointer? ==> [i] in kernel.layout && kernel.layout[[i]] == e.frame && e.frame in memory.tables
                       && e.frame !in retired && e.frame !in memory.free
    {
      var e := memory.tables[u.root][i];
      if e.Pointer? {
        assert kernel in Roots();
        assert memory.g.Node(memory.tables, kernel.layout, kernel.Span(), []);
        assert memory.g.Child(memory.tables, kernel.layout, [], i);
        assert [] + [i] == [i];
        assert InLayout(kernel.layout, e.frame);
        assert memory.g.Node(memory.tables, kernel.layout, kernel.Span(), [i]);
      }
    }

    /** A step that leaves the upper half of the stepping root alone. */
    lemma LowStep(a: Tables, w: RuntimePageTable, mine: Layout)
      requires Around(a, w, mine) && Local(a, mine, memory.tables, w.layout) && w.Valid()
      requires HighKept(memory.g, a, memory.tables, w.root)
      ensures Valid() && Kept(a, Roots() - {w}) && Followed(a)
    {
      OthersKept(a, w, mine);
      forall u | u in users
        ensures Borrows(memory.g, memory.tables, kernel.root, u.root)
                && Follows(memory.g, a, memory.tables, kernel.root, u.root)
      {
        assert u != w ==> SameRoot(memory.g, u.root, a, memory.tables);
        assert kernel in Roots();
        HighFollows(memory.g, a, memory.tables, kernel.root, u.root);
      }
      StepKeeps(a, w, mine);
    }

    /** A step of the kernel that fills missing entries of its root. */
    lemma KernelStep(a: Tables, mine: Layout, page: Path)
      requires Around(a, kernel, mine) && Local(a, mine, memory.tables, kernel.layout) && kernel.Valid()
      requires RootFilled(memory.g, kernel.root, a, memory.tables, page)
      ensures Valid() && Kept(a, Roots() - {kernel}) && Followed(a)
    {
      OthersKept(a, kernel, mine);
      forall u | u in users
        ensures Borrows(memory.g, memory.tables, kernel.root, u.root)
                && Follows(memory.g, a, memory.tables, kernel.root, u.root)
      {
        assert SameRoot(memory.g, u.root, a, memory.tables);
        KernelFilled(memory.g, a, memory.tables, kernel.root, u.root, page);
        HighFollows(memory.g, a, memory.tables, kernel.root, u.root);
      }
      StepKeeps(a, kernel, mine);
    }

    method MapPage(w: RuntimePageTable, page: Path, frame: Frame, options: Options) returns (r: Outcome<()>)
      requires Valid() && w in Roots()
      modifies memory, w
      ensures Valid() && Kept(old(memory.tables), Roots() - {w}) && Followed(old(memory.tables))
      ensures r.Ok? ==>
        && w.Manages(page) && old(w.View(page)) == Unmapped
        && OneChange(memory.g, w.root, w.Span(), old(memory.tables), memory.tables, page, Mapped(frame, options))
      ensures r.Err? ==> memory.tables == old(memory.tables)
      ensures w.Denied(page) ==> r == Err(KernelMappingMutationDenied)
      ensures !w.owned && !memory.g.IsPath(page) ==> r == Err(InvalidVirtualAddress)
      ensures w.Manages(page) && !memory.g.LeafEncodable(frame, options) ==> r == Err(BadEntry)
      ensures w.Manages(page) && memory.g.LeafEncodable(frame, options) ==>
        var refusal := w.MapRefusal(old(w.End(page)).0, old(w.End(page)).1, old(memory.free));
        (r.Ok? <==> refusal.None?) && (r.Err? ==> r.error == refusal.value)
    {
      ghost var a, mine := memory.tables, w.layout;
      Surroundings(w);
      r := w.MapPage(page, frame, options);
      MapKeeps(a, w, mine, page);
    }

    lemma MapKeeps(a: Tables, w: RuntimePageTable, mine: Layout, page: Path)
      requires Around(a, w, mine) && Local(a, mine, memory.tables, w.layout) && w.Valid()
      requires RootFilled(memory.g, w.root, a, memory.tables, page)
      requires w.owned && !w.Manages(page) ==> memory.tables == a
      ensures Valid() && Kept(a, Roots() - {w}) && Followed(a)
    {
      if w == kernel {
        KernelStep(a, mine, page);
      } else {
        LowStep(a, w, mine);
      }
    }

    method Remap(w: RuntimePageTable, page: Path, change: Change) returns (r: Outcome<Frame>)
      requires Valid() && w in Roots()
      modifies memory
      ensures Valid() && Kept(old(memory.tables), Roots() - {w}) && Followed(old(memory.tables))
      ensures r.Ok? ==>
        && memory.g.IsPath(page) && old(w.View(page)).Mapped?
        && OneChange(memory.g, w.root, w.Span(), old(memory.tables), memory.tables, page,
                     change.After(old(w.View(page)).frame))
      ensures r.Ok? ==> r.value == old(w.View(page)).frame
      ensures r.Ok? && change.Protect? ==> w.View(page) == Mapped(r.value, change.options)
      ensures r.Ok? && change.Replace? ==> w.View(page) == Mapped(change.frame, change.options)
      ensures r.Ok? && change.Unmap? ==> w.View(page) == Unmapped
      ensures r.Err? ==> memory.tables == old(memory.tables)
      ensures w.Denied(page) ==> r == Err(KernelMappingMutationDenied)
      ensures w.Manages(page) && old(w.View(page)) == Unmapped ==> r == Err(NotMapped)
      ensures w.Manages(page) && old(w.View(page)).Mapped? ==>
        var encodable := match change
          case Protect(options) => memory.g.LeafEncodable(old(w.View(page)).frame, options)
          case Replace(frame, options) => memory.g.LeafEncodable(frame, options)
          case Unmap => true;
        if encodable then r.Ok? else r == Err(BadEntry)
    {
      ghost var a, mine := memory.tables, w.layout;
      Surroundings(w);
      r := w.Remap(page, change);
      RemapKeeps(a, w, mine);
    }

    lemma RemapKeeps(a: Tables, w: RuntimePageTable, mine: Layout)
      requires Around(a, w, mine) && Local(a, mine, memory.tables, w.layout) && w.Valid()
      requires SameRoot(memory.g, w.root, a, memory.tables)
      ensures Valid() && Kept(a, Roots() - {w}) && Followed(a)
    {
      LowStep(a, w, mine);
    }

    predicate InUserRange(page: Path) {
      memory.g.IsPath(page) && 0 < |page| && page[0] < memory.g.width / 2
    }

    /** A table that `w` owned hangs in no other tree and is not retired yet. */
    lemma OwnedApart(a: Tables, w: RuntimePageTable, mine: Layout, x: Frame)
      requires Around(a, w, mine) && memory.g.Tree(a, w.root, mine, w.Span()) && Hangs(mine, x)
      ensures x in a && x !in retired && forall v :: v in Roots() && v != w ==> !InLayout(v.layout, x)
    {
      var p :| p in mine && p != [] && mine[p] == x;
      TreeTables(memory.g, a, w.root, mine, w.Span());
    }

    lemma MoreRetired(a: Tables, w: RuntimePageTable, mine: Layout, owned0: seq<Frame>, now: seq<Frame>)
      requires AllDetached(retired) && Around(a, w, mine) && memory.g.Tree(a, w.root, mine, w.Span())
      requires memory.tables.Keys == a.Keys && HandedOver(w.layout, w.runtimeTables, owned0, retired, now)
      requires Distinct(owned0) && forall i :: 0 <= i < |owned0| ==> Hangs(mine, owned0[i])
      ensures AllDetached(now)
    {
      forall x | x in owned0
        ensures x in a && x !in retired && forall v :: v in Roots() && v != w ==> !InLayout(v.layout, x)
      {
        OwnedApart(a, w, mine, x);
      }
      RetiredOnce(w.layout, w.runtimeTables, owned0, retired, now);
      forall f | f in now ensures f in memory.tables && forall v :: v in Roots() ==> !InLayout(v.layout, f) {
        var i :| 0 <= i < |now| && now[i] == f;
        if i < |retired| {
          assert f == retired[i] && f in retired;
        } else {
          assert now[i] in owned0 && !InLayout(w.layout, now[i]);
          OwnedApart(a, w, mine, f);
        }
      }
    }

    /**
     Retire the empty tables of a page. While user roots borrow its high half, the
     kernel keeps high-half tables even when they are empty.
     */
    method Reclaim(w: RuntimePageTable, page: Path) returns (r: Outcome<()>)
      requires Valid() && w in Roots()
      modifies this, memory, w
      ensures Valid() && Kept(old(memory.tables), Roots() - {w}) && Followed(old(memory.tables)) && users == old(users)
      ensures SameView(memory.g, w.root, w.Span(), old(memory.tables), memory.tables)
      ensures HandedOver(w.layout, w.runtimeTables, old(w.runtimeTables), old(retired), retired)
      ensures r.Err? ==> memory.tables == old(memory.tables) && retired == old(retired)
      ensures w == kernel && users != {} && !InUserRange(page) ==> r == Ok(()) && memory.tables == old(memory.tables)
      ensures w != kernel || users == {} || InUserRange(page) ==>
        (r.Ok? && HasLeafTable(memory.g, old(w.layout), page) ==> w.Exhausted(page))
    {
      if w.Denied(page) {
        LowStepNothing(w);
        return Err(KernelMappingMutationDenied);
      }
      if !w.owned && borrowers != 0 && !InUserRange(page) {
        LowStepNothing(w);
        return Ok(());
      }
      r := ReclaimNow(w, page);
    }

    method ReclaimNow(w: RuntimePageTable, page: Path) returns (r: Outcome<()>)
      requires Valid() && w in Roots() && (InUserRange(page) || users == {})
      modifies this, memory, w
      ensures Valid() && Kept(old(memory.tables), Roots() - {w}) && Followed(old(memory.tables)) && users == old(users)
      ensures SameView(memory.g, w.root, w.Span(), old(memory.tables), memory.tables)
      ensures HandedOver(w.layout, w.runtimeTables, old(w.runtimeTables), old(retired), retired)
      ensures r.Err? ==> memory.tables == old(memory.tables) && retired == old(retired)
      ensures r.Ok? && HasLeafTable(memory.g, old(w.layout), page) ==> w.Exhausted(page)
    {
      Surroundings(w);
      var now;
      r, now := ReclaimTables(w, page);
      SetRetired(now);
    }

    method SetRetired(now: seq<Frame>)
      requires Settled() && AllDetached(now)
      modifies `retired
      ensures Valid() && retired == now
    {
      retired := now;
    }

    method ReclaimTables(w: RuntimePageTable, page: Path) returns (r: Outcome<()>, now: seq<Frame>)
      requires Around(memory.tables, w, w.layout) && w.Valid() && w.memory == memory
      requires (InUserRange(page) || users == {})
      modifies memory, w
      ensures Settled() && AllDetached(now) && Kept(old(memory.tables), Roots() - {w}) && Followed(old(memory.tables))
      ensures SameView(memory.g, w.root, w.Span(), old(memory.tables), memory.tables)
      ensures HandedOver(w.layout, w.runtimeTables, old(w.runtimeTables), retired, now)
      ensures r.Err? ==> memory.tables == old(memory.tables) && now == retired
      ensures r.Ok? && HasLeafTable(memory.g, old(w.layout), page) ==> w.Exhausted(page)
    {
      ghost var a, mine, owned0 := memory.tables, w.layout, w.runtimeTables;
      assert Distinct(owned0) && forall i :: 0 <= i < |owned0| ==> Hangs(mine, owned0[i]);
      r, now := w.ReclaimEmptyTables(page, retired);
      assert r.Ok? && HasLeafTable(memory.g, mine, page) ==> w.Exhausted(page);
      ReclaimKeeps(a, w, mine, owned0, |old(memory.seen)|, page, now);
    }

    lemma ReclaimKeeps(a: Tables, w: RuntimePageTable, mine: Layout, owned0: seq<Frame>, from: nat, page: Path,
                       now: seq<Frame>)
      requires Around(a, w, mine) && memory.g.Tree(a, w.root, mine, w.Span()) && w.Valid()
      requires (InUserRange(page) || users == {})
      requires Distinct(owned0) && forall i :: 0 <= i < |owned0| ==> Hangs(mine, owned0[i])
      requires w.memory == memory && w.Reclaimed(a, mine, owned0, from, page, 0, retired, now)
      ensures Valid() && Kept(a, Roots() - {w}) && Followed(a) && AllDetached(now)
    {
      if InUserRange(page) {
        LowStep(a, w, mine);
      } else {
        StepKeeps(a, w, mine);
      }
      MoreRetired(a, w, mine, owned0, now);
    }

    lemma LowStepNothing(w: RuntimePageTable)
      requires Valid() && w in Roots()
      ensures Kept(memory.tables, Roots() - {w}) && Followed(memory.tables)
      ensures HandedOver(w.layout, w.runtimeTables, w.runtimeTables, retired, retired)
    {
      forall v | v in Roots() ensures SameRoot(memory.g, v.root, memory.tables, memory.tables) {
        assert Sound(memory.tables, v);
        TreeTables(memory.g, memory.tables, v.root, v.layout, v.Span());
        assert v.layout[[]] == v.root;
      }
    }

    /** Final teardown of a user root's private tables. */
    method RetireAll(u: RuntimePageTable)
      requires Valid() && u in users
      modifies this, memory, u
      ensures Valid() && users == old(users) && Kept(old(memory.tables), Roots() - {u}) && Followed(old(memory.tables))
      ensures u.runtimeTables == [] && retired == old(retired) + old(u.runtimeTables)
      ensures forall q :: u.Manages(q) ==> u.View(q) == Unmapped
      ensures OldOrGone(memory.g, u.root, u.Span(), old(memory.tables), memory.seen, |old(memory.seen)|)
    {
      var now := RetireTables(u);
      SetRetired(now);
    }

    method RetireTables(u: RuntimePageTable) returns (now: seq<Frame>)
      requires Valid() && u in users
      modifies memory, u
      ensures Settled() && AllDetached(now) && Kept(old(memory.tables), Roots() - {u}) && Followed(old(memory.tables))
      ensures u.runtimeTables == [] && now == retired + old(u.runtimeTables)
      ensures forall q :: u.Manages(q) ==> u.View(q) == Unmapped
      ensures OldOrGone(memory.g, u.root, u.Span(), old(memory.tables), memory.seen, |old(memory.seen)|)
    {
      ghost var a, mine, owned0 := memory.tables, u.layout, u.runtimeTables;
      Surroundings(u);
      assert Distinct(owned0) && forall i :: 0 <= i < |owned0| ==> Hangs(mine, owned0[i]);
      now := u.RetireAllPrivateTables(retired);
      RetireKeeps(a, u, mine, owned0, now);
    }

    lemma RetireKeeps(a: Tables, u: RuntimePageTable, mine: Layout, owned0: seq<Frame>, now: seq<Frame>)
      requires Around(a, u, mine) && memory.g.Tree(a, u.root, mine, u.Span()) && u.Valid() && u in users
      requires Distinct(owned0) && forall i :: 0 <= i < |owned0| ==> Hangs(mine, owned0[i])
      requires memory.g.HasTable(a, u.root) && Local(a, mine, memory.tables, u.layout)
      requires memory.tables == a[u.root := Cleared(memory.g, a[u.root], u.Span())]
      requires u.runtimeTables == [] && u.layout == map[[] := u.root] && now == retired + owned0
      ensures Valid() && Kept(a, Roots() - {u}) && Followed(a) && AllDetached(now)
    {
      forall x | x in owned0 ensures !InLayout(map[[] := u.root], x) {
        var p :| p in mine && p != [] && mine[p] == x;
      }
      LowStep(a, u, mine);
      MoreRetired(a, u, mine, owned0, now);
    }

    /** Table pages that hang in no tree. */
    ghost predicate Loose(gone: set<Frame>)
      reads this, Roots()
    {
      forall v, f :: v in Roots() && f in gone ==> !InLayout(v.layout, f)
    }

    /** Dropping them changes no root. */
    lemma Dropped(a: Tables, gone: set<Frame>)
      requires Around(a, kernel, kernel.layout) && Sound(a, kernel) && memory.Valid() && memory.tables == a - gone
      requires Loose(gone)
      ensures Settled() && Kept(a, Roots()) && Followed(a)
    {
      forall v | v in Roots()
        ensures Sound(memory.tables, v)
                && SameView(memory.g, v.root, v.Span(), a, memory.tables)
                && SameRoot(memory.g, v.root, a, memory.tables)
      {
        forall p | p in v.layout ensures v.layout[p] !in gone { assert InLayout(v.layout, v.layout[p]); }
        Elsewhere(memory.g, a, memory.tables, v.root, v.layout, v.Span());
        TreeTables(memory.g, a, v.root, v.layout, v.Span());
        assert v.layout[[]] == v.root;
      }
      forall u | u in users
        ensures Borrows(memory.g, memory.tables, kernel.root, u.root)
                && Follows(memory.g, a, memory.tables, kernel.root, u.root)
      {
        assert u in Roots() && kernel in Roots();
        HighFollows(memory.g, a, memory.tables, kernel.root, u.root);
      }
    }

    /** The retired tables go back to the page allocator, which may hand them out again. */
    method FreeRetired()
      requires Valid()
      modifies `retired, memory
      ensures Valid() && retired == [] && memory.free == old(memory.free) + old(retired)
      ensures Kept(old(memory.tables), Roots()) && Followed(old(memory.tables))
    {
      Surroundings(kernel);
      DropRetired();
      retired := [];
    }

    method DropRetired()
      requires Around(memory.tables, kernel, kernel.layout) && Sound(memory.tables, kernel) && memory.Valid()
      modifies memory
      ensures Settled() && Kept(old(memory.tables), Roots()) && Followed(old(memory.tables))
      ensures memory.free == old(memory.free) + retired
    {
      ghost var a := memory.tables;
      ghost var gone := set f | f in retired;
      assert Loose(gone);
      memory.FreeAll(retired);
      assert Around(a, kernel, kernel.layout) && Sound(a, kernel) && Loose(gone);
      Dropped(a, gone);
    }

    /** Refresh the borrowed half of a user root: it then agrees with the kernel on every high page. */
    method Synchronize(u: RuntimePageTable, from: RuntimePageTable) returns (r: Outcome<()>)
      requires Valid() && u in Roots() && from in Roots()
      modifies memory
      ensures Valid() && Kept(old(memory.tables), Roots() - {u}) && memory.free == old(memory.free)
      ensures r == if !u.owned then Err(OwnedRootRequired) else if from.owned then Err(KernelRootRequired) else Ok(())
      ensures r.Err? ==> memory.tables == old(memory.tables)
      ensures r.Ok? ==> SameView(memory.g, u.root, u.Span(), old(memory.tables), memory.tables)
      ensures r.Ok? ==> forall q :: memory.g.IsPath(q) && q[0] >= memory.g.width / 2 ==> u.View(q) == kernel.View(q)
      ensures r.Ok? ==> BetweenSince(old(memory.tables), |old(memory.seen)|, u)
    {
      ghost var a, mine := memory.tables, u.layout;
      Surroundings(u);
      LowStepNothing(u);
      if !u.owned {
        return Err(OwnedRootRequired);
      }
      if from.owned {
        return Err(KernelRootRequired);
      }
      RootsDiffer(u);
      CopyKernelHalf(u);
      return Ok(());
    }

    /** The copying itself, into a user root. */
    method CopyKernelHalf(u: RuntimePageTable)
      requires Around(memory.tables, u, u.layout) && u.Valid() && u in users && u.root != kernel.root
      modifies memory
      ensures Valid() && Kept(old(memory.tables), Roots() - {u}) && memory.free == old(memory.free)
      ensures SameView(memory.g, u.root, u.Span(), old(memory.tables), memory.tables)
      ensures forall q :: memory.g.IsPath(q) && q[0] >= memory.g.width / 2 ==> u.View(q) == kernel.View(q)
      ensures BetweenSince(old(memory.tables), |old(memory.seen)|, u)
    {
      ghost var a, mine := memory.tables, u.layout;
      CopiedHalf(memory.g, a, kernel.root, u.root, mine);
      memory.CopyHighHalf(u.root, kernel.root);
      assert Around(a, u, mine);
      SeenBetween(a, |old(memory.seen)|, u, mine);
      CopyKeeps(a, u, mine);
    }

    lemma CopyKeeps(a: Tables, u: RuntimePageTable, mine: Layout)
      requires Around(a, u, mine) && Local(a, mine, memory.tables, u.layout) && u.Valid() && u in users
      requires Borrows(memory.g, memory.tables, kernel.root, u.root)
      requires forall i :: memory.g.width / 2 <= i < memory.g.width ==>
        memory.tables[u.root][i] == memory.tables[kernel.root][i]
      ensures Valid() && Kept(a, Roots() - {u})
      ensures forall q :: memory.g.IsPath(q) && q[0] >= memory.g.width / 2 ==> u.View(q) == kernel.View(q)
    {
      OthersKept(a, u, mine);
      forall v | v in users ensures Borrows(memory.g, memory.tables, kernel.root, v.root) {
        assert kernel in Roots() && (v != u ==> SameRoot(memory.g, v.root, a, memory.tables));
      }
      StepKeeps(a, u, mine);
      forall q | memory.g.IsPath(q) && q[0] >= memory.g.width / 2 ensures u.View(q) == kernel.View(q) {
        SharedWalk(memory.g, memory.tables, kernel.root, u.root, q);
      }
    }

    /** At every look since `from` the copy into `u` shows nothing but old and kernel views. */
    ghost predicate BetweenSince(a: Tables, from: nat, u: RuntimePageTable)
      requires memory.g.Valid()
      reads memory
    {
      && from <= |memory.seen|
      && forall k :: from <= k < |memory.seen| ==> Between(memory.g, a, memory.seen[k], kernel.root, u.root)
    }

    lemma SeenBetween(a: Tables, from: nat, u: RuntimePageTable, mine: Layout)
      requires Around(a, u, mine) && u in users && memory.g.Tree(a, u.root, mine, memory.g.width / 2)
      requires AllMerged(memory.g, a, memory.seen, from, u.root, kernel.root)
      ensures BetweenSince(a, from, u)
    {
      assert kernel in Roots() && kernel != u;
      forall k | from <= k < |memory.seen| ensures Between(memory.g, a, memory.seen[k], kernel.root, u.root) {
        MergedViews(memory.g, a, memory.seen[k], kernel.root, kernel.layout, u.root, mine);
      }
    }

    lemma RootsDiffer(u: RuntimePageTable)
      requires Valid() && u in users
      ensures u.root != kernel.root
    {
      assert Apart(u.layout, kernel.layout) && kernel in Roots();
      assert u.layout[[]] == u.root && kernel.layout[[]] == kernel.root;
    }

    /** Release a user root once its private tables are gone. */
    method ReleaseEmpty(w: RuntimePageTable) returns (r: Outcome<()>)
      requires Valid() && w in Roots()
      modifies this, memory
      ensures Valid() && retired == old(retired)
      ensures r ==
        if w.runtimeTables != [] then Err(OwnedTablesRemain) else if !w.owned then Err(OwnedRootRequired) else Ok(())
      ensures r.Err? ==> users == old(users) && memory.tables == old(memory.tables)
      ensures r.Ok? ==> users == old(users) - {w} && memory.free == old(memory.free) + [w.root]
      ensures Kept(old(memory.tables), Roots()) && Followed(old(memory.tables))
    {
      if w.runtimeTables != [] {
        KeptHere();
        return Err(OwnedTablesRemain);
      }
      if !w.owned {
        KeptHere();
        return Err(OwnedRootRequired);
      }
      DropUser(w);
      return Ok(());
    }

    lemma KeptHere()
      requires Valid()
      ensures Kept(memory.tables, Roots()) && Followed(memory.tables)
    {
      Surroundings(kernel);
      NothingDropped();
    }

    lemma NothingDropped()
      requires Around(memory.tables, kernel, kernel.layout) && Sound(memory.tables, kernel) && memory.Valid()
      ensures Valid() && Kept(memory.tables, Roots()) && Followed(memory.tables)
    {
      assert memory.tables - {} == memory.tables;
      Dropped(memory.tables, {});
    }

    method DropUser(w: RuntimePageTable)
      requires Valid() && w in users
      modifies `users, `borrowers, memory
      ensures Valid() && users == old(users) - {w} && memory.free == old(memory.free) + [w.root]
      ensures Kept(old(memory.tables), Roots()) && Followed(old(memory.tables))
    {
      RootIsApart(w);
      ForgetUser(w);
      FreeRoot(w.root);
    }

    lemma RootIsApart(w: RuntimePageTable)
      requires Valid() && w in Roots()
      ensures w.root in memory.tables && w.root !in retired
      ensures forall v :: v in Roots() && v != w ==> !InLayout(v.layout, w.root)
    {
      Surroundings(w);
      TreeTables(memory.g, memory.tables, w.root, w.layout, w.Span());
      assert w.layout[[]] == w.root && InLayout(w.layout, w.root);
    }

    /** The state would be valid with `us` as the user roots. */
    ghost predicate ValidWith(us: set<RuntimePageTable>, n: nat)
      reads `retired, memory, us, kernel
    {
      && ShapeOf(us, n) && memory.Valid()
      && TreesOf(us + {kernel}) && Borrowing(us) && DetachedFrom(us + {kernel}, retired)
    }

    method SetUsers(us: set<RuntimePageTable>, n: nat)
      requires ValidWith(us, n)
      modifies `users, `borrowers
      ensures Valid() && users == us
    {
      users, borrowers := us, n;
    }

    lemma Forgettable(w: RuntimePageTable)
      requires Valid() && w in users
      ensures borrowers > 0 && ValidWith(users - {w}, borrowers - 1)
    {
      assert |users - {w}| == |users| - 1;
    }

    method ForgetUser(w: RuntimePageTable)
      requires Valid() && w in users
      modifies `users, `borrowers
      ensures Valid() && users == old(users) - {w}
    {
      Forgettable(w);
      SetUsers(users - {w}, borrowers - 1);
    }

    method FreeRoot(root: Frame)
      requires Valid() && root in memory.tables && root !in retired
      requires forall v :: v in Roots() ==> !InLayout(v.layout, root)
      modifies memory
      ensures Valid() && memory.free == old(memory.free) + [root]
      ensures Kept(old(memory.tables), Roots()) && Followed(old(memory.tables))
    {
      ghost var a := memory.tables;
      Surroundings(kernel);
      memory.FreeTable(root);
      Dropped(a, {root});
    }

    /** A new user root, with the kernel's high half copied into it. */
    method NewUser(from: RuntimePageTable) returns (r: Outcome<RuntimePageTable>)
      requires Valid() && from in Roots()
      modifies this, memory
      ensures Valid() && retired == old(retired)
      ensures r.Err? <==> from.owned || old(memory.free) == []
      ensures r.Err? ==> users == old(users) && memory.tables == old(memory.tables) && memory.free == old(memory.free)
      ensures r.Err? ==> r.error == if from.owned then KernelRootRequired else OutOfFrames
      ensures r.Ok? ==> fresh(r.value) && users == old(users) + {r.value} && r.value.root == old(memory.free)[0]
      ensures r.Ok? ==> Kept(old(memory.tables), old(Roots()))
      ensures r.Ok? ==>
        forall u :: u in old(users) ==> Follows(memory.g, old(memory.tables), memory.tables, kernel.root, u.root)
      ensures r.Ok? ==> forall q :: r.value.Manages(q) ==> r.value.View(q) == Unmapped
      ensures r.Ok? ==>
        forall q :: memory.g.IsPath(q) && q[0] >= memory.g.width / 2 ==> r.value.View(q) == kernel.View(q)
    {
      if from.owned {
        return Err(KernelRootRequired);
      }
      KeptHere();
      Surroundings(kernel);
      var root := NewRoot();
      if root.Err? {
        return Err(OutOfFrames);
      }
      CopyViews(root.value);
      var u := EnrollRoot(root.value);
      return Ok(u);
    }

    /** A table page that belongs to no root. */
    ghost predicate Stray(f: Frame)
      reads this, memory, Roots()
    {
      f in memory.tables && f !in retired && forall v :: v in Roots() ==> !InLayout(v.layout, f)
    }

    /** A blank page with the kernel's high half copied into it. */
    ghost predicate IsCopy(root: Frame)
      requires memory.g.Valid()
      reads memory
    {
      && memory.g.HasTable(memory.tables, root) && memory.g.HasTable(memory.tables, kernel.root)
      && (forall i :: 0 <= i < memory.g.width / 2 ==> memory.tables[root][i] == memory.g.Blank(0))
      && (forall i :: memory.g.width / 2 <= i < memory.g.width ==>
            memory.tables[root][i] == memory.tables[kernel.root][i])
    }

    lemma CopyViews(root: Frame)
      requires memory.g.Valid() && IsCopy(root)
      ensures forall q :: memory.g.IsPath(q) ==>
        memory.g.Walk(memory.tables, root, q, 0)
        == if q[0] < memory.g.width / 2 then Unmapped else memory.g.Walk(memory.tables, kernel.root, q, 0)
    {
      BareRoot(memory.g, memory.tables, root, memory.g.width / 2);
      forall q | memory.g.IsPath(q) && q[0] >= memory.g.width / 2
        ensures memory.g.Walk(memory.tables, root, q, 0) == memory.g.Walk(memory.tables, kernel.root, q, 0)
      {
        SharedWalk(memory.g, memory.tables, kernel.root, root, q);
      }
    }

    method NewRoot() returns (r: Outcome<Frame>)
      requires Around(memory.tables, kernel, kernel.layout) && Sound(memory.tables, kernel) && memory.Valid()
      modifies memory
      ensures Valid() && Kept(old(memory.tables), Roots()) && Followed(old(memory.tables))
      ensures r.Err? <==> old(memory.free) == []
      ensures r.Err? ==> memory.tables == old(memory.tables) && memory.free == old(memory.free)
      ensures r.Ok? ==> r.value == old(memory.free)[0] && Stray(r.value) && IsCopy(r.value)
    {
      ghost var a := memory.tables;
      TreeTables(memory.g, a, kernel.root, kernel.layout, kernel.Span());
      assert kernel.layout[[]] == kernel.root;
      r := memory.NewRootTable(kernel.root);
      assert Around(a, kernel, kernel.layout) && Sound(a, kernel);
      if r.Ok? {
        CopyShape(memory.g, a, kernel.root, r.value);
        Grown(a, r.value);
      } else {
        NothingDropped();
      }
    }

    /** A new table page changes nothing for the roots there are. */
    lemma Grown(a: Tables, f: Frame)
      requires Around(a, kernel, kernel.layout) && Sound(a, kernel) && memory.Valid()
      requires f !in a && f in memory.tables && memory.tables - {f} == a
      ensures Valid() && Kept(a, Roots()) && Followed(a) && Stray(f)
    {
      forall v | v in Roots()
        ensures Sound(memory.tables, v) && !InLayout(v.layout, f)
                && SameView(memory.g, v.root, v.Span(), a, memory.tables)
                && SameRoot(memory.g, v.root, a, memory.tables)
      {
        TreeTables(memory.g, a, v.root, v.layout, v.Span());
        forall p | p in v.layout ensures v.layout[p] in memory.tables && memory.tables[v.layout[p]] == a[v.layout[p]] {
          assert v.layout[p] in memory.tables - {f};
        }
        Elsewhere(memory.g, a, memory.tables, v.root, v.layout, v.Span());
        assert v.layout[[]] == v.root;
      }
      forall u | u in users
        ensures Borrows(memory.g, memory.tables, kernel.root, u.root)
                && Follows(memory.g, a, memory.tables, kernel.root, u.root)
      {
        assert u in Roots() && kernel in Roots();
        HighFollows(memory.g, a, memory.tables, kernel.root, u.root);
      }
      forall x | x in retired ensures x in memory.tables {
        assert x in memory.tables - {f};
      }
    }

    lemma Enrollable(u: RuntimePageTable)
      requires Valid() && u !in Roots() && u.memory == memory && u.owned && u.Valid()
      requires u.layout == map[[] := u.root] && Stray(u.root) && IsCopy(u.root)
      ensures ValidWith(users + {u}, borrowers + 1)
    {
      forall v | v in Roots() ensures Apart(v.layout, u.layout) && Apart(u.layout, v.layout) {
        forall p | p in v.layout ensures v.layout[p] != u.root { assert InLayout(v.layout, v.layout[p]); }
      }
    }

    method EnrollRoot(root: Frame) returns (u: RuntimePageTable)
      requires Valid() && Stray(root) && IsCopy(root)
      modifies `users, `borrowers
      ensures Valid() && fresh(u) && users == old(users) + {u} && u.root == root && u.owned && u.memory == memory
    {
      u := new RuntimePageTable.FromUserRoot(memory, root);
      Enrollable(u);
      SetUsers(users + {u}, borrowers + 1);
    }
  }
}
