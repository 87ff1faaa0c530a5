/**
 The radix tree of kernel/src/runtime_page_table.rs on values: page-table pages
 are sequences of decoded entries held in a map from frames, a page is named by
 its vector of table indices, and one `Geometry` covers the three-level RISC-V
 form and the four-level LoongArch form with its sentinel tables.
 */
module PageTableModel {

  type Frame = nat
  type Path = seq<nat>

  datatype MemoryType = Normal | Device | Uncached

  datatype Options = Options(
    readable: bool, writable: bool, executable: bool, user: bool, global: bool, memory: MemoryType)

  /** `Empty` is the all-zero entry of RISC-V and the invalid global leaf of LoongArch. */
  datatype Entry = Empty | Pointer(frame: Frame) | Leaf(frame: Frame, options: Options) | Junk(raw: nat)

  /** LoongArch marks a missing child by a pointer to the permanent invalid table of that level. */
  datatype Format = Plain | Sentinel(invalid: seq<Frame>)

  datatype Error =
    | InvalidVirtualAddress | AlreadyMapped | NotMapped
    | LeafWhereTableExpected(level: nat) | InvalidTableEntry(level: nat)
    | OutOfFrames | BadEntry | PageTableAccess
    | KernelMappingMutationDenied | KernelRootRequired | OwnedRootRequired | OwnedTablesRemain

  datatype Lookup = Unmapped | Mapped(frame: Frame, options: Options) | Broken(error: Error)

  type Tables = map<Frame, seq<Entry>>
  type Layout = map<Path, Frame>

  datatype Geometry = Geometry(levels: nat, width: nat, format: Format) {
    predicate Valid() {
      levels >= 2 && width >= 2 && (format.Sentinel? ==> |format.invalid| == levels - 1)
    }

    predicate IsPath(p: Path) {
      |p| == levels && forall i :: 0 <= i < |p| ==> p[i] < width
    }

    /** No child table hangs below this entry of a table at `level`. */
    predicate Missing(level: nat, e: Entry)
      requires Valid()
    {
      if format.Sentinel? && level + 1 < levels then e == Pointer(format.invalid[level]) else e.Empty?
    }

    /** What every entry of a fresh table at `level` holds. */
    function Blank(level: nat): (e: Entry)
      requires Valid()
      ensures Missing(level, e)
    {
      if format.Sentinel? && level + 1 < levels then Pointer(format.invalid[level]) else Empty
    }

    predicate Link(level: nat, e: Entry)
      requires Valid()
    {
      level + 1 < levels && e.Pointer? && !Missing(level, e)
    }

    /** What a walk answers at an entry it cannot descend through. */
    function Classify(level: nat, e: Entry): Lookup
      requires Valid()
    {
      if level + 1 < levels then
        if Missing(level, e) then Unmapped
        else if format.Plain? && e.Leaf? then Broken(LeafWhereTableExpected(level))
        else Broken(InvalidTableEntry(level))
      else if e.Leaf? then Mapped(e.frame, e.options)
      else if e.Empty? || format.Sentinel? then Unmapped
      else Broken(InvalidTableEntry(level))
    }

    /** Whether a 4 KiB leaf can be encoded: the mapping policy and the entry format. */
    predicate LeafEncodable(frame: Frame, o: Options) {
      && (o.readable || o.writable || o.executable)
      && (o.writable ==> o.readable)
      && !(o.user && o.global)
      && (!o.user ==> !(o.writable && o.executable))
      && !(o.memory.Device? && o.executable)
      && (if format.Plain? then !o.memory.Uncached? && frame < 0x1000_0000_0000 else frame < 0x10_0000_0000)
    }

    predicate TableEncodable(frame: Frame) {
      if format.Plain? then frame < 0x1000_0000_0000 else 0 < frame < 0x10_0000_0000
    }

    predicate HasTable(tables: Tables, f: Frame) {
      f in tables && |tables[f]| == width
    }

    /** The walk from the table `f`, which stands at `level`, along the rest of `path`. */
    function Walk(tables: Tables, f: Frame, path: Path, level: nat): Lookup
      requires Valid() && IsPath(path) && level < levels
      decreases levels - level
    {
      if !HasTable(tables, f) then Broken(PageTableAccess)
      else
        var e := tables[f][path[level]];
        if Link(level, e) then Walk(tables, e.frame, path, level + 1) else Classify(level, e)
    }

    /** Pointers lead from the table `chain[0]` along `path` to the table `chain[|chain| - 1]`. */
    ghost predicate Chain(tables: Tables, chain: seq<Frame>, path: Path)
      requires Valid() && IsPath(path)
    {
      && 0 < |chain| <= levels
      && forall j :: 0 <= j < |chain| - 1 ==>
           && HasTable(tables, chain[j]) && tables[chain[j]][path[j]] == Pointer(chain[j + 1])
           && (format.Sentinel? ==> chain[j + 1] != format.invalid[j])
    }

    lemma {:induction false} WalkFollows(tables: Tables, chain: seq<Frame>, path: Path, k: nat)
      requires Valid() && IsPath(path) && Chain(tables, chain, path) && k < |chain|
      ensures Walk(tables, chain[k], path, k) == Walk(tables, chain[|chain| - 1], path, |chain| - 1)
      decreases |chain| - k
    {
      if k + 1 < |chain| {
        assert tables[chain[k]][path[k]] == Pointer(chain[k + 1]);
        WalkFollows(tables, chain, path, k + 1);
      }
    }

    /** What a walk answers, by the entry at which the chain of pointers ends. */
    lemma WalkAnswers(tables: Tables, chain: seq<Frame>, path: Path)
      requires Valid() && IsPath(path) && Chain(tables, chain, path)
      ensures
        var answer, level, last := Walk(tables, chain[0], path, 0), |chain| - 1, chain[|chain| - 1];
        && (!HasTable(tables, last) ==> answer == Broken(PageTableAccess))
        && (HasTable(tables, last) ==>
              var e := tables[last][path[level]];
              && (level == levels - 1 ==>
                    && (e.Leaf? ==> answer == Mapped(e.frame, e.options))
                    && (e.Empty? ==> answer == Unmapped)
                    && (e.Pointer? || e.Junk? ==>
                          answer == if format.Plain? then Broken(InvalidTableEntry(level)) else Unmapped))
              && (level < levels - 1 && format.Plain? ==>
                    && (e.Empty? ==> answer == Unmapped)
                    && (e.Leaf? ==> answer == Broken(LeafWhereTableExpected(level)))
                    && (e.Junk? ==> answer == Broken(InvalidTableEntry(level))))
              && (level < levels - 1 && format.Sentinel? ==>
                    && (e == Pointer(format.invalid[level]) ==> answer == Unmapped)
                    && (!e.Pointer? ==> answer == Broken(InvalidTableEntry(level)))))
    {
      WalkFollows(tables, chain, path, 0);
    }

    // -------------------------------------------------------------- trees

    /**
     `layout` gives the table at each index prefix below the first `span` entries
     of the root. Distinct prefixes have distinct tables.
     */
    ghost predicate Tree(tables: Tables, root: Frame, layout: Layout, span: nat)
      requires Valid()
    {
      && span <= width
      && [] in layout && layout[[]] == root
      && (forall p {:trigger Node(tables, layout, span, p)} :: p in layout ==> Node(tables, layout, span, p))
      && (forall p, q {:trigger layout[p], layout[q]} ::
            p in layout && q in layout && layout[p] == layout[q] ==> p == q)
    }

    ghost predicate Node(tables: Tables, layout: Layout, span: nat, p: Path)
      requires Valid() && p in layout
    {
      && |p| < levels && HasTable(tables, layout[p])
      && (p != [] ==> p[..|p| - 1] in layout && p[|p| - 1] < Span(span, |p| - 1))
      && (forall i {:trigger Child(tables, layout, p, i)} :: 0 <= i < Span(span, |p|) ==> Child(tables, layout, p, i))
    }

    function Span(span: nat, level: nat): nat {
      if level == 0 && span <= width then span else width
    }

    /** The entry at index `i` of the table at `p` and the layout agree. */
    ghost predicate Child(tables: Tables, layout: Layout, p: Path, i: nat)
      requires Valid() && p in layout && HasTable(tables, layout[p]) && i < width
    {
      var e := tables[layout[p]][i];
      if Link(|p|, e) then p + [i] in layout && layout[p + [i]] == e.frame else p + [i] !in layout
    }

    /** How far the layout follows `q`. */
    function Depth(layout: Layout, q: Path, k: nat): (d: nat)
      requires |q| == levels && k < levels && q[..k] in layout
      ensures k <= d < levels && q[..d] in layout
      ensures d + 1 < levels ==> q[..d + 1] !in layout
      decreases levels - k
    {
      if k + 1 < levels && q[..k + 1] in layout then Depth(layout, q, k + 1) else k
    }

    lemma {:induction false} Prefixes(tables: Tables, root: Frame, layout: Layout, span: nat, q: Path, n: nat, j: nat)
      requires Valid() && Tree(tables, root, layout, span) && j <= n <= |q| && q[..n] in layout
      ensures q[..j] in layout
      decreases n - j
    {
      if j < n {
        Prefixes(tables, root, layout, span, q, n, j + 1);
        assert Node(tables, layout, span, q[..j + 1]);
        assert q[..j + 1][..j] == q[..j];
      }
    }

    /** The layout follows `q` at least as far as any prefix of it that it contains. */
    lemma DepthReaches(tables: Tables, root: Frame, layout: Layout, span: nat, q: Path, n: nat)
      requires Valid() && Tree(tables, root, layout, span) && IsPath(q) && n < levels && q[..n] in layout
      ensures Depth(layout, q, 0) >= n
    {
      if Depth(layout, q, 0) < n {
        Prefixes(tables, root, layout, span, q, n, Depth(layout, q, 0) + 1);
      }
    }

    lemma {:induction false} WalkFrom(tables: Tables, root: Frame, layout: Layout, span: nat, q: Path, k: nat)
      requires Valid() && Tree(tables, root, layout, span) && IsPath(q) && q[0] < span
      requires k < levels && q[..k] in layout
      ensures
        var d := Depth(layout, q, k);
        && HasTable(tables, layout[q[..d]])
        && Walk(tables, layout[q[..k]], q, k) == Classify(d, tables[layout[q[..d]]][q[d]])
      decreases levels - k
    {
      assert Node(tables, layout, span, q[..k]);
      assert q[..k] + [q[k]] == q[..k + 1];
      assert Child(tables, layout, q[..k], q[k]);
      if k + 1 < levels && q[..k + 1] in layout {
        assert Link(k, tables[layout[q[..k]]][q[k]]);
        WalkFrom(tables, root, layout, span, q, k + 1);
      }
    }

    /** A walk is decided by the one entry where the layout ends. */
    lemma WalkDecided(tables: Tables, root: Frame, layout: Layout, span: nat, q: Path)
      requires Valid() && Tree(tables, root, layout, span) && IsPath(q) && q[0] < span
      ensures
        var d := Depth(layout, q, 0);
        && HasTable(tables, layout[q[..d]])
        && Walk(tables, root, q, 0) == Classify(d, tables[layout[q[..d]]][q[d]])
    {
      WalkFrom(tables, root, layout, span, q, 0);
    }

    // ------------------------------------------------------------ updates

    function Write(tables: Tables, f: Frame, i: nat, e: Entry): (r: Tables)
      requires HasTable(tables, f) && i < width
      ensures r.Keys == tables.Keys && HasTable(r, f)
    {
      tables[f := tables[f][i := e]]
    }

    predicate SameTable(tables: Tables, tables': Tables, f: Frame) {
      f in tables && f in tables' && tables[f] == tables'[f]
    }

    /** Only the tables of a tree matter to it. */
    lemma TreeFrame(tables: Tables, tables': Tables, root: Frame, layout: Layout, span: nat)
      requires Valid() && Tree(tables, root, layout, span)
      requires forall p :: p in layout ==> SameTable(tables, tables', layout[p])
      ensures Tree(tables', root, layout, span)
      ensures forall q :: IsPath(q) && q[0] < span ==> Walk(tables', root, q, 0) == Walk(tables, root, q, 0)
    {
      forall p | p in layout ensures Node(tables', layout, span, p) {
        assert Node(tables, layout, span, p);
        forall i | 0 <= i < Span(span, |p|) ensures Child(tables', layout, p, i) {
          assert Child(tables, layout, p, i);
        }
      }
      forall q | IsPath(q) && q[0] < span ensures Walk(tables', root, q, 0) == Walk(tables, root, q, 0) {
        WalkDecided(tables, root, layout, span, q);
        WalkDecided(tables', root, layout, span, q);
      }
    }

    /** The entries of the root that are not managed do not matter to a tree. */
    lemma RootFrame(tables: Tables, tables': Tables, root: Frame, layout: Layout, span: nat)
      requires Valid() && Tree(tables, root, layout, span) && HasTable(tables, root) && HasTable(tables', root)
      requires forall p :: p in layout && p != [] ==> SameTable(tables, tables', layout[p])
      requires forall i :: 0 <= i < span ==> tables'[root][i] == tables[root][i]
      ensures Tree(tables', root, layout, span)
      ensures forall q :: IsPath(q) && q[0] < span ==> Walk(tables', root, q, 0) == Walk(tables, root, q, 0)
    {
      forall p | p in layout ensures Node(tables', layout, span, p) {
        assert Node(tables, layout, span, p);
        forall i | 0 <= i < Span(span, |p|) ensures Child(tables', layout, p, i) {
          assert Child(tables, layout, p, i);
        }
      }
      forall q | IsPath(q) && q[0] < span ensures Walk(tables', root, q, 0) == Walk(tables, root, q, 0) {
        WalkDecided(tables, root, layout, span, q);
        WalkDecided(tables', root, layout, span, q);
      }
    }

    /** Writing a leaf entry changes the answer for one page. */
    lemma LeafWrite(tables: Tables, root: Frame, layout: Layout, span: nat, q: Path, e: Entry)
      requires Valid() && Tree(tables, root, layout, span) && IsPath(q) && q[0] < span && q[..levels - 1] in layout
      requires HasTable(tables, layout[q[..levels - 1]])
      ensures
        var tables' := Write(tables, layout[q[..levels - 1]], q[levels - 1], e);
        && Tree(tables', root, layout, span)
        && Walk(tables', root, q, 0) == Classify(levels - 1, e)
        && forall r :: IsPath(r) && r[0] < span && r != q ==> Walk(tables', root, r, 0) == Walk(tables, root, r, 0)
    {
      var f := layout[q[..levels - 1]];
      var tables' := Write(tables, f, q[levels - 1], e);
      LeafWriteTree(tables, root, layout, span, q, e);
      WalkDecided(tables', root, layout, span, q);
      DepthReaches(tables, root, layout, span, q, levels - 1);
      assert q == q[..levels - 1] + [q[levels - 1]];
      forall r | IsPath(r) && r[0] < span && r != q ensures Walk(tables', root, r, 0) == Walk(tables, root, r, 0) {
        WalkDecided(tables, root, layout, span, r);
        WalkDecided(tables', root, layout, span, r);
        var d := Depth(layout, r, 0);
        if layout[r[..d]] == f {
          assert r[..d] == q[..levels - 1];
          assert r == r[..d] + [r[d]];
        }
      }
    }

    lemma LeafWriteTree(tables: Tables, root: Frame, layout: Layout, span: nat, q: Path, e: Entry)
      requires Valid() && Tree(tables, root, layout, span) && IsPath(q) && q[0] < span && q[..levels - 1] in layout
      requires HasTable(tables, layout[q[..levels - 1]])
      ensures Tree(Write(tables, layout[q[..levels - 1]], q[levels - 1], e), root, layout, span)
    {
      var tables' := Write(tables, layout[q[..levels - 1]], q[levels - 1], e);
      forall p | p in layout ensures Node(tables', layout, span, p) {
        assert Node(tables, layout, span, p);
        forall i | 0 <= i < Span(span, |p|) ensures Child(tables', layout, p, i) {
          assert Child(tables, layout, p, i);
        }
      }
    }

    // --------------------------------------------------- attaching and detaching tables

    predicate IsBlank(tables: Tables, f: Frame, level: nat)
      requires Valid()
    {
      HasTable(tables, f) && forall i :: 0 <= i < width ==> tables[f][i] == Blank(level)
    }

    /** A blank table may be hung below the missing entry `i` of the table at `p`. */
    ghost predicate Attachable(tables: Tables, layout: Layout, span: nat, p: Path, i: nat, f: Frame)
      requires Valid()
    {
      && p in layout && |p| + 1 < levels && i < Span(span, |p|) && span <= width
      && HasTable(tables, layout[p]) && Missing(|p|, tables[layout[p]][i])
      && IsBlank(tables, f, |p| + 1) && Unknown(layout, f)
    }

    /** `f` is neither in the tree nor a sentinel. */
    ghost predicate Unknown(layout: Layout, f: Frame)
      requires Valid()
    {
      && (forall p :: p in layout ==> layout[p] != f)
      && (format.Sentinel? ==> f !in format.invalid)
    }

    /** A missing entry is where the layout ends. */
    lemma MissingEnds(tables: Tables, root: Frame, layout: Layout, span: nat, p: Path, i: nat)
      requires Valid() && Tree(tables, root, layout, span) && p in layout && i < Span(span, |p|)
      requires HasTable(tables, layout[p]) && !Link(|p|, tables[layout[p]][i])
      ensures p + [i] !in layout
    {
      assert Node(tables, layout, span, p);
      assert Child(tables, layout, p, i);
    }

    /** A prefix outside the layout has no children in it. */
    lemma NoOrphan(tables: Tables, root: Frame, layout: Layout, span: nat, r: Path, x: nat)
      requires Valid() && Tree(tables, root, layout, span) && r !in layout
      ensures r + [x] !in layout
    {
      assert (r + [x])[..|r|] == r;
      assert r + [x] in layout ==> Node(tables, layout, span, r + [x]);
    }

    lemma AttachTree(tables: Tables, root: Frame, layout: Layout, span: nat, p: Path, i: nat, f: Frame)
      requires Valid() && Tree(tables, root, layout, span) && Attachable(tables, layout, span, p, i, f)
      ensures Tree(Write(tables, layout[p], i, Pointer(f)), root, layout[p + [i] := f], span)
    {
      var tables', layout' := Write(tables, layout[p], i, Pointer(f)), layout[p + [i] := f];
      MissingEnds(tables, root, layout, span, p, i);
      forall r | r in layout' ensures Node(tables', layout', span, r) {
        if r == p + [i] {
          assert r[..|r| - 1] == p;
          forall x | 0 <= x < Span(span, |r|) ensures Child(tables', layout', r, x) {
            NoOrphan(tables, root, layout, span, r, x);
          }
        } else {
          assert Node(tables, layout, span, r);
          forall x | 0 <= x < Span(span, |r|) ensures Child(tables', layout', r, x) {
            assert Child(tables, layout, r, x);
            assert r + [x] == p + [i] ==> (r + [x])[..|r|] == (p + [i])[..|p|] && (r + [x])[|r|] == (p + [i])[|p|];
          }
        }
      }
    }

    /** Attaching a blank table changes no answer. */
    lemma Attach(tables: Tables, root: Frame, layout: Layout, span: nat, p: Path, i: nat, f: Frame)
      requires Valid() && Tree(tables, root, layout, span) && Attachable(tables, layout, span, p, i, f)
      ensures Tree(Write(tables, layout[p], i, Pointer(f)), root, layout[p + [i] := f], span)
      ensures forall q :: IsPath(q) && q[0] < span ==>
        Walk(Write(tables, layout[p], i, Pointer(f)), root, q, 0) == Walk(tables, root, q, 0)
    {
      AttachTree(tables, root, layout, span, p, i, f);
      MissingEnds(tables, root, layout, span, p, i);
      var tables' := Write(tables, layout[p], i, Pointer(f));
      forall r, x | r in layout && 0 <= x < width && (r != p || x != i)
        ensures SameEntry(tables, tables', layout[r], x)
      {
        assert Node(tables, layout, span, r);
      }
      forall q | IsPath(q) && q[0] < span ensures Walk(tables', root, q, 0) == Walk(tables, root, q, 0) {
        BlankBelow(tables, tables', root, layout, span, p, i, f, q);
      }
    }

    /**
     Two memories that differ only in whether the blank table `f` hangs below
     entry `i` of the table at `p` answer every walk alike.
     */
    lemma BlankBelow(bare: Tables, hung: Tables, root: Frame, layout: Layout, span: nat, p: Path, i: nat, f: Frame,
                     q: Path)
      requires Valid() && Tree(bare, root, layout, span) && p in layout && |p| + 1 < levels && i < width
      requires p + [i] !in layout
      requires Tree(hung, root, layout[p + [i] := f], span) && IsBlank(hung, f, |p| + 1)
      requires HasTable(bare, layout[p]) && Missing(|p|, bare[layout[p]][i])
      requires forall r, x :: r in layout && 0 <= x < width && (r != p || x != i) ==>
        SameEntry(bare, hung, layout[r], x)
      requires IsPath(q) && q[0] < span
      ensures Walk(hung, root, q, 0) == Walk(bare, root, q, 0)
    {
      var layout' := layout[p + [i] := f];
      WalkDecided(bare, root, layout, span, q);
      WalkDecided(hung, root, layout', span, q);
      var d, d' := Depth(layout, q, 0), Depth(layout', q, 0);
      if q[..d'] == p + [i] {
        assert q[..d' - 1] == (p + [i])[..|p|] && q[d' - 1] == (p + [i])[|p|];
        DepthReaches(bare, root, layout, span, q, d' - 1);
        if d >= d' { Prefixes(bare, root, layout, span, q, d, d'); }
      } else {
        DepthReaches(bare, root, layout, span, q, d');
        DepthReaches(hung, root, layout', span, q, d);
        assert d == d';
        assert q[..d + 1] == q[..d] + [q[d]];
        assert SameEntry(bare, hung, layout[q[..d]], q[d]);
      }
    }

    predicate SameEntry(a: Tables, b: Tables, f: Frame, x: nat) {
      HasTable(a, f) && HasTable(b, f) && x < width && a[f][x] == b[f][x]
    }

    lemma BlankIsChildless(tables: Tables, root: Frame, layout: Layout, span: nat, c: Path, r: Path)
      requires Valid() && Tree(tables, root, layout, span) && c in layout && IsBlank(tables, layout[c], |c|)
      requires r in layout
      ensures r != [] ==> r[..|r| - 1] != c
    {
      assert Node(tables, layout, span, r);
      if r != [] && r[|r| - 1] < Span(span, |c|) {
        MissingEnds(tables, root, layout, span, c, r[|r| - 1]);
        assert r[..|r| - 1] + [r[|r| - 1]] == r;
      }
    }

    lemma DetachTree(tables: Tables, root: Frame, layout: Layout, span: nat, p: Path, i: nat)
      requires Valid() && Tree(tables, root, layout, span) && p in layout && p + [i] in layout && i < Span(span, |p|)
      requires IsBlank(tables, layout[p + [i]], |p| + 1) && HasTable(tables, layout[p])
      ensures Tree(Write(tables, layout[p], i, Blank(|p|)), root, layout - {p + [i]}, span)
    {
      var f := layout[p + [i]];
      var tables', layout' := Write(tables, layout[p], i, Blank(|p|)), layout - {p + [i]};
      forall r | r in layout' ensures Node(tables', layout', span, r) {
        assert Node(tables, layout, span, r);
        BlankIsChildless(tables, root, layout, span, p + [i], r);
        forall x | 0 <= x < Span(span, |r|) ensures Child(tables', layout', r, x) {
          assert Child(tables, layout, r, x);
          assert r + [x] == p + [i] ==> (r + [x])[..|r|] == (p + [i])[..|p|] && (r + [x])[|r|] == (p + [i])[|p|];
        }
      }
    }

    /** Detaching a blank table changes no answer: the inverse of `Attach`. */
    lemma Detach(tables: Tables, root: Frame, layout: Layout, span: nat, p: Path, i: nat)
      requires Valid() && Tree(tables, root, layout, span) && p in layout && p + [i] in layout && i < Span(span, |p|)
      requires IsBlank(tables, layout[p + [i]], |p| + 1) && HasTable(tables, layout[p])
      ensures Tree(Write(tables, layout[p], i, Blank(|p|)), root, layout - {p + [i]}, span)
      ensures forall q :: IsPath(q) && q[0] < span ==>
        Walk(Write(tables, layout[p], i, Blank(|p|)), root, q, 0) == Walk(tables, root, q, 0)
    {
      DetachTree(tables, root, layout, span, p, i);
      var tables', layout' := Write(tables, layout[p], i, Blank(|p|)), layout - {p + [i]};
      var f := layout[p + [i]];
      assert Node(tables, layout, span, p + [i]);
      assert layout'[p + [i] := f] == layout;
      forall r, x | r in layout' && 0 <= x < width && (r != p || x != i)
        ensures SameEntry(tables', tables, layout'[r], x)
      {
        assert Node(tables, layout, span, r);
      }
      forall q | IsPath(q) && q[0] < span ensures Walk(tables', root, q, 0) == Walk(tables, root, q, 0) {
        BlankBelow(tables', tables, root, layout', span, p, i, f, q);
      }
    }

    // ------------------------------------------------------ missing chains

    ghost predicate AllTables(tables: Tables, fs: seq<Frame>) {
      forall j :: 0 <= j < |fs| ==> HasTable(tables, fs[j])
    }

    /** Link the tables `fs` one below the other under entry `q[k]` of `parent`, and put `leaf` into the last. */
    ghost function Chained(tables: Tables, parent: Frame, q: Path, k: nat, fs: seq<Frame>, leaf: Entry): (r: Tables)
      requires IsPath(q) && HasTable(tables, parent) && AllTables(tables, fs) && k + |fs| + 1 == levels
      ensures r.Keys == tables.Keys && forall f :: f in tables ==> |r[f]| == |tables[f]|
      decreases |fs|
    {
      if fs == [] then Write(tables, parent, q[k], leaf)
      else Chained(Write(tables, parent, q[k], Pointer(fs[0])), fs[0], q, k + 1, fs[1..], leaf)
    }

    /** Only the parent and the tables of the chain change. */
    lemma {:induction false} ChainedFrame(tables: Tables, parent: Frame, q: Path, k: nat, fs: seq<Frame>, leaf: Entry,
                                          f: Frame)
      requires IsPath(q) && HasTable(tables, parent) && AllTables(tables, fs) && k + |fs| + 1 == levels
      requires f in tables && f != parent && f !in fs
      ensures Chained(tables, parent, q, k, fs, leaf)[f] == tables[f]
      decreases |fs|
    {
      if fs != [] {
        ChainedFrame(Write(tables, parent, q[k], Pointer(fs[0])), fs[0], q, k + 1, fs[1..], leaf, f);
      }
    }

    /** A parent outside its chain gets one link. */
    lemma ChainedParent(tables: Tables, parent: Frame, q: Path, k: nat, fs: seq<Frame>, leaf: Entry)
      requires IsPath(q) && HasTable(tables, parent) && AllTables(tables, fs) && k + |fs| + 1 == levels
      requires fs != [] && parent !in fs
      ensures Chained(tables, parent, q, k, fs, leaf)[parent] == tables[parent][q[k] := Pointer(fs[0])]
    {
      ChainedFrame(Write(tables, parent, q[k], Pointer(fs[0])), fs[0], q, k + 1, fs[1..], leaf, parent);
    }

    ghost function Extended(layout: Layout, q: Path, k: nat, fs: seq<Frame>): Layout
      requires k + |fs| <= |q|
      decreases |fs|
    {
      if fs == [] then layout else Extended(layout[q[..k + 1] := fs[0]], q, k + 1, fs[1..])
    }

    /** Frames that may serve as a chain of new tables below level `k`. */
    ghost predicate FreshChain(tables: Tables, layout: Layout, k: nat, fs: seq<Frame>)
      requires Valid()
    {
      && (forall j :: 0 <= j < |fs| ==> IsBlank(tables, fs[j], k + 1 + j) && Unknown(layout, fs[j]))
      && (forall i, j :: 0 <= i < j < |fs| ==> fs[i] != fs[j])
    }

    /** A finished chain maps one page and leaves every other answer alone. */
    lemma {:induction false} Install(tables: Tables, root: Frame, layout: Layout, span: nat, q: Path, k: nat,
                                     fs: seq<Frame>, leaf: Entry)
      requires Valid() && Tree(tables, root, layout, span) && IsPath(q) && q[0] < span
      requires k + |fs| + 1 == levels && q[..k] in layout && FreshChain(tables, layout, k, fs)
      requires HasTable(tables, layout[q[..k]]) && (fs != [] ==> Missing(k, tables[layout[q[..k]]][q[k]]))
      ensures
        var tables' := Chained(tables, layout[q[..k]], q, k, fs, leaf);
        && Tree(tables', root, Extended(layout, q, k, fs), span)
        && Walk(tables', root, q, 0) == Classify(levels - 1, leaf)
        && forall r :: IsPath(r) && r[0] < span && r != q ==> Walk(tables', root, r, 0) == Walk(tables, root, r, 0)
      decreases |fs|
    {
      if fs == [] {
        LeafWrite(tables, root, layout, span, q, leaf);
      } else {
        var f, p := fs[0], q[..k];
        assert IsBlank(tables, f, k + 1) && Unknown(layout, f);
        Attach(tables, root, layout, span, p, q[k], f);
        assert p + [q[k]] == q[..k + 1];
        var tables1, layout1 := Write(tables, layout[p], q[k], Pointer(f)), layout[q[..k + 1] := f];
        ChainRest(tables, layout, k, fs, p, q[k]);
        assert tables1[f] == tables[f];
        Install(tables1, root, layout1, span, q, k + 1, fs[1..], leaf);
      }
    }

    lemma ChainRest(tables: Tables, layout: Layout, k: nat, fs: seq<Frame>, p: Path, i: nat)
      requires Valid() && FreshChain(tables, layout, k, fs) && fs != [] && p in layout && HasTable(tables, layout[p])
      requires i < width
      ensures FreshChain(Write(tables, layout[p], i, Pointer(fs[0])), layout[p + [i] := fs[0]], k + 1, fs[1..])
    {
      var tables1 := Write(tables, layout[p], i, Pointer(fs[0]));
      forall j | 0 <= j < |fs[1..]|
        ensures IsBlank(tables1, fs[1..][j], k + 2 + j) && Unknown(layout[p + [i] := fs[0]], fs[1..][j])
      {
        assert IsBlank(tables, fs[j + 1], k + 1 + (j + 1)) && Unknown(layout, fs[j + 1]);
      }
    }

    /** Tables outside the chain may be changed before or after it is linked. */
    lemma {:induction false} ChainCommutes(tables: Tables, parent: Frame, q: Path, k: nat, fs: seq<Frame>, leaf: Entry,
                                           f: Frame, t: seq<Entry>)
      requires IsPath(q) && HasTable(tables, parent) && AllTables(tables, fs) && k + |fs| + 1 == levels
      requires |t| == width && f != parent && f !in fs
      ensures Chained(tables, parent, q, k, fs, leaf)[f := t] == Chained(tables[f := t], parent, q, k, fs, leaf)
      decreases |fs|
    {
      var first := if fs == [] then leaf else Pointer(fs[0]);
      assert Write(tables, parent, q[k], first)[f := t] == Write(tables[f := t], parent, q[k], first);
      if fs != [] {
        ChainCommutes(Write(tables, parent, q[k], first), fs[0], q, k + 1, fs[1..], leaf, f, t);
      }
    }
  }
}
