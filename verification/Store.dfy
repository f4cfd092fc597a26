/**
 The file as a whole: its own 8-byte header, then sections of two kinds in order of creation.
 `cells` and `tcells` are the live entities and types, by file offset.
 */
module Store {
  import opened Bytes
  import opened Disk
  import opened Section
  import opened Extents
  import opened Types

  const FILE_HEAD_SIZE := 8

  /** Largest offset that fseek takes. */
  const MAX_FILE := 0x7fff_ffff_ffff_ffff

  datatype Snap = Snap(
    d: seq<byte>, lsp: nat, exts: seq<Head>, types: seq<Head>,
    cells: map<nat, Cell>, tcells: map<nat, TypeCell>)

  predicate InSect(base: nat, p: nat) {
    base <= p < base + SECTION_SIZE
  }

  /** The part of a map that lies in one section. */
  ghost function Sub<T>(m: map<nat, T>, base: nat): map<nat, T> {
    map o | o in m && InSect(base, o) :: m[o]
  }

  predicate Apart(b1: nat, b2: nat) {
    b1 + SECTION_SIZE <= b2 || b2 + SECTION_SIZE <= b1
  }

  ghost predicate Ascending(hs: seq<Head>, lsp: nat) {
    && (forall i :: 0 <= i < |hs| ==> FILE_HEAD_SIZE <= hs[i].base && hs[i].base + SECTION_SIZE <= lsp)
    && (forall i, j :: 0 <= i < j < |hs| ==> hs[i].base + SECTION_SIZE <= hs[j].base)
  }

  ghost predicate Disjoint(exts: seq<Head>, types: seq<Head>) {
    forall i, j :: 0 <= i < |exts| && 0 <= j < |types| ==> Apart(exts[i].base, types[j].base)
  }

  ghost predicate Homed(hs: seq<Head>, p: nat) {
    exists i :: 0 <= i < |hs| && InSect(hs[i].base, p)
  }

  /** Every byte behind the file header and before `lst_sect_ptr` belongs to a section. */
  ghost predicate Tiled(s: Snap) {
    forall p :: FILE_HEAD_SIZE <= p < s.lsp ==> Homed(s.exts, p) || Homed(s.types, p)
  }

  ghost predicate ExtsOk(s: Snap) {
    forall i :: 0 <= i < |s.exts| ==> ExtRep(s.d, s.exts[i], Sub(s.cells, s.exts[i].base))
  }

  ghost predicate TypesOk(s: Snap) {
    forall i :: 0 <= i < |s.types| ==> TypesRep(s.d, s.types[i], Sub(s.tcells, s.types[i].base))
  }

  ghost predicate AllHomed(s: Snap) {
    && (forall o :: o in s.cells ==> Homed(s.exts, o))
    && (forall o :: o in s.tcells ==> Homed(s.types, o))
  }

  /** Section `k` is the first of all that has room for `n` bytes; it is the new one if none has. */
  ghost predicate FirstRoom(hs: seq<Head>, n: nat, k: nat) {
    && k <= |hs| && (forall j :: 0 <= j < k ==> hs[j].free < n)
    && (k < |hs| ==> n <= hs[k].free)
  }

  /** The header of section `k`, an old one or the next new one. */
  ghost function HeadAt(hs: seq<Head>, lsp: nat, k: nat): Head {
    if k < |hs| then hs[k] else NewHead(lsp)
  }

  lemma FirstRoomNew(hs: seq<Head>, n: nat, k: nat)
    requires FirstRoom(hs, n, k) && k >= |hs|
    ensures k == |hs|
  {
  }

  ghost predicate Inv(s: Snap) {
    && FILE_HEAD_SIZE <= s.lsp <= MAX_FILE
    && Ascending(s.exts, s.lsp) && Ascending(s.types, s.lsp) && Disjoint(s.exts, s.types)
    && Tiled(s) && AllHomed(s)
    && Holds(s.d, 0, Le(s.lsp, 8))
    && ExtsOk(s) && TypesOk(s)
  }

  lemma SubSame<T>(m: map<nat, T>, m': map<nat, T>, base: nat)
    requires forall o :: InSect(base, o) ==> (o in m <==> o in m') && (o in m ==> m[o] == m'[o])
    ensures Sub(m, base) == Sub(m', base)
  {
  }

  lemma SubPush<T>(m: map<nat, T>, base: nat, o: nat, c: T)
    requires InSect(base, o)
    ensures Sub(m[o := c], base) == Sub(m, base)[o := c]
  {
  }

  lemma SubDrop<T>(m: map<nat, T>, base: nat, o: nat)
    ensures Sub(m - {o}, base) == Sub(m, base) - {o}
  {
  }

  /** The map is changed at most inside one section. */
  ghost predicate SameBut<T(!new)>(m: map<nat, T>, m': map<nat, T>, base: nat) {
    forall o :: !InSect(base, o) ==> (o in m <==> o in m') && (o in m ==> m[o] == m'[o])
  }

  lemma TypesFrame(d: seq<byte>, d': seq<byte>, h: Head, m: map<nat, TypeCell>)
    requires TypesRep(d, h, m) && SameOn(d, d', h.base, h.base + SECTION_SIZE)
    ensures TypesRep(d', h, m)
  {
    hide Rep, At;
    RepFrame(d, d', h, Kind.Types, TEntries(m));
  }

  lemma ApartSame(d: seq<byte>, d': seq<byte>, b: nat, b': nat)
    requires SameOutside(d, d', b, b + SECTION_SIZE) && Apart(b, b')
    ensures SameOn(d, d', b', b' + SECTION_SIZE)
  {
    hide At;
  }

  lemma HeadSame(d: seq<byte>, d': seq<byte>, b: nat, lsp: nat)
    requires SameOutside(d, d', b, b + SECTION_SIZE) && FILE_HEAD_SIZE <= b && Holds(d, 0, Le(lsp, 8))
    ensures Holds(d', 0, Le(lsp, 8))
  {
    hide At;
  }

  /** What may happen to the file when one extent section changes. */
  ghost predicate ExtStepped(s: Snap, s': Snap, i: nat) {
    && i < |s.exts| && |s'.exts| == |s.exts| && s'.exts[i].base == s.exts[i].base
    && (forall j :: 0 <= j < |s.exts| && j != i ==> s'.exts[j] == s.exts[j])
    && s'.types == s.types && s'.lsp == s.lsp && s'.tcells == s.tcells
    && SameOutside(s.d, s'.d, s.exts[i].base, s.exts[i].base + SECTION_SIZE)
    && SameBut(s.cells, s'.cells, s.exts[i].base)
  }

  lemma ExtStepBases(s: Snap, s': Snap, i: nat)
    requires ExtStepped(s, s', i)
    ensures forall j :: 0 <= j < |s.exts| ==> s'.exts[j].base == s.exts[j].base
    ensures forall p :: Homed(s.exts, p) <==> Homed(s'.exts, p)
  {
    hide SameOutside, SameBut;
    forall j | 0 <= j < |s.exts| ensures s'.exts[j].base == s.exts[j].base {
    }
    forall p ensures Homed(s.exts, p) <==> Homed(s'.exts, p) {
      if j :| 0 <= j < |s.exts| && InSect(s.exts[j].base, p) {
        assert InSect(s'.exts[j].base, p);
      }
      if j :| 0 <= j < |s'.exts| && InSect(s'.exts[j].base, p) {
        assert InSect(s.exts[j].base, p);
      }
    }
  }

  lemma ExtStepOthers(s: Snap, s': Snap, i: nat, j: nat)
    requires Inv(s) && ExtStepped(s, s', i) && j < |s.exts| && j != i
    ensures ExtRep(s'.d, s'.exts[j], Sub(s'.cells, s'.exts[j].base))
  {
    hide At, ExtRep, Tiled, AllHomed, TypesOk, Disjoint, Holds;
    var b, b' := s.exts[i].base, s.exts[j].base;
    assert Apart(b, b') by {
      assert i < j ==> b + SECTION_SIZE <= b';
      assert j < i ==> b' + SECTION_SIZE <= b;
    }
    ApartSame(s.d, s'.d, b, b');
    ExtSame(s.d, s'.d, s.exts[j], Sub(s.cells, b'));
    SubSame(s.cells, s'.cells, b');
  }

  lemma ExtStepTypes(s: Snap, s': Snap, i: nat, j: nat)
    requires Inv(s) && ExtStepped(s, s', i) && j < |s.types|
    ensures TypesRep(s'.d, s'.types[j], Sub(s'.tcells, s'.types[j].base))
  {
    hide At, TypesRep, Tiled, AllHomed, ExtsOk, Ascending, Holds, SameBut;
    var b, b' := s.exts[i].base, s.types[j].base;
    assert Apart(b, b');
    ApartSame(s.d, s'.d, b, b');
    TypesFrame(s.d, s'.d, s.types[j], Sub(s.tcells, b'));
  }

  lemma ExtStepHomed(s: Snap, s': Snap, i: nat)
    requires Inv(s) && ExtStepped(s, s', i)
    ensures Tiled(s') && AllHomed(s')
  {
    hide At, ExtsOk, TypesOk, Ascending, Disjoint, Holds, SameOutside, Homed;
    ExtStepBases(s, s', i);
    forall o | o in s'.cells ensures Homed(s'.exts, o) {
      if InSect(s.exts[i].base, o) {
        HomedAt(s'.exts, i, o);
      } else {
        assert o in s.cells;
      }
    }
  }

  lemma HomedAt(hs: seq<Head>, i: nat, p: nat)
    requires i < |hs| && InSect(hs[i].base, p)
    ensures Homed(hs, p)
  {
  }

  /** A step inside one extent section keeps the whole file well-formed. */
  lemma ExtStep(s: Snap, s': Snap, i: nat)
    requires Inv(s) && ExtStepped(s, s', i)
    requires ExtRep(s'.d, s'.exts[i], Sub(s'.cells, s'.exts[i].base))
    ensures Inv(s')
  {
    hide At, ExtRep, TypesRep, Tiled, AllHomed, Apart, SameOutside, SameBut, Homed, Holds;
    ExtStepHomed(s, s', i);
    ExtStepBases(s, s', i);
    HeadSame(s.d, s'.d, s.exts[i].base, s.lsp);
    forall j | 0 <= j < |s'.exts| ensures ExtRep(s'.d, s'.exts[j], Sub(s'.cells, s'.exts[j].base)) {
      if j != i {
        ExtStepOthers(s, s', i, j);
      }
    }
    forall j | 0 <= j < |s'.types| ensures TypesRep(s'.d, s'.types[j], Sub(s'.tcells, s'.types[j].base)) {
      ExtStepTypes(s, s', i, j);
    }
  }

  ghost predicate TypesStepped(s: Snap, s': Snap, i: nat) {
    && i < |s.types| && |s'.types| == |s.types| && s'.types[i].base == s.types[i].base
    && (forall j :: 0 <= j < |s.types| && j != i ==> s'.types[j] == s.types[j])
    && s'.exts == s.exts && s'.lsp == s.lsp && s'.cells == s.cells
    && SameOutside(s.d, s'.d, s.types[i].base, s.types[i].base + SECTION_SIZE)
    && SameBut(s.tcells, s'.tcells, s.types[i].base)
  }

  lemma TypesStepBases(s: Snap, s': Snap, i: nat)
    requires TypesStepped(s, s', i)
    ensures forall j :: 0 <= j < |s.types| ==> s'.types[j].base == s.types[j].base
    ensures forall p :: Homed(s.types, p) <==> Homed(s'.types, p)
  {
    hide SameOutside, SameBut;
    forall p ensures Homed(s.types, p) <==> Homed(s'.types, p) {
      if j :| 0 <= j < |s.types| && InSect(s.types[j].base, p) {
        assert InSect(s'.types[j].base, p);
      }
      if j :| 0 <= j < |s'.types| && InSect(s'.types[j].base, p) {
        assert InSect(s.types[j].base, p);
      }
    }
  }

  lemma TypesStepOthers(s: Snap, s': Snap, i: nat, j: nat)
    requires Inv(s) && TypesStepped(s, s', i) && j < |s.types| && j != i
    ensures TypesRep(s'.d, s'.types[j], Sub(s'.tcells, s'.types[j].base))
  {
    hide At, TypesRep, Tiled, AllHomed, ExtsOk, Disjoint, Holds;
    var b, b' := s.types[i].base, s.types[j].base;
    assert Apart(b, b') by {
      assert i < j ==> b + SECTION_SIZE <= b';
      assert j < i ==> b' + SECTION_SIZE <= b;
    }
    ApartSame(s.d, s'.d, b, b');
    TypesFrame(s.d, s'.d, s.types[j], Sub(s.tcells, b'));
    SubSame(s.tcells, s'.tcells, b');
  }

  lemma TypesStepExts(s: Snap, s': Snap, i: nat, j: nat)
    requires Inv(s) && TypesStepped(s, s', i) && j < |s.exts|
    ensures ExtRep(s'.d, s'.exts[j], Sub(s'.cells, s'.exts[j].base))
  {
    hide At, ExtRep, Tiled, AllHomed, TypesOk, Ascending, Holds, SameBut;
    var b, b' := s.types[i].base, s.exts[j].base;
    assert Apart(b', b);
    ApartSame(s.d, s'.d, b, b');
    ExtSame(s.d, s'.d, s.exts[j], Sub(s.cells, b'));
  }

  lemma TypesStepHomed(s: Snap, s': Snap, i: nat)
    requires Inv(s) && TypesStepped(s, s', i)
    ensures Tiled(s') && AllHomed(s')
  {
    hide At, ExtsOk, TypesOk, Ascending, Disjoint, Holds, SameOutside, Homed;
    TypesStepBases(s, s', i);
    forall o | o in s'.tcells ensures Homed(s'.types, o) {
      if InSect(s.types[i].base, o) {
        HomedAt(s'.types, i, o);
      } else {
        assert o in s.tcells;
      }
    }
  }

  /** A step inside one type section keeps the whole file well-formed. */
  lemma TypesStep(s: Snap, s': Snap, i: nat)
    requires Inv(s) && TypesStepped(s, s', i)
    requires TypesRep(s'.d, s'.types[i], Sub(s'.tcells, s'.types[i].base))
    ensures Inv(s')
  {
    hide At, ExtRep, TypesRep, Tiled, AllHomed, Apart, SameOutside, SameBut, Homed, Holds;
    TypesStepHomed(s, s', i);
    TypesStepBases(s, s', i);
    HeadSame(s.d, s'.d, s.types[i].base, s.lsp);
    forall j | 0 <= j < |s'.types| ensures TypesRep(s'.d, s'.types[j], Sub(s'.tcells, s'.types[j].base)) {
      if j != i {
        TypesStepOthers(s, s', i, j);
      }
    }
    forall j | 0 <= j < |s'.exts| ensures ExtRep(s'.d, s'.exts[j], Sub(s'.cells, s'.exts[j].base)) {
      TypesStepExts(s, s', i, j);
    }
  }

  /** Disk contents are all that matters of the disk. */
  lemma SameInv(s: Snap, d': seq<byte>)
    requires Inv(s) && Same(s.d, d')
    ensures Inv(s.(d := d'))
  {
    hide At, ExtRep, TypesRep, Tiled, AllHomed, Apart, Ascending, Disjoint;
    forall j | 0 <= j < |s.exts| ensures ExtRep(d', s.exts[j], Sub(s.cells, s.exts[j].base)) {
      ExtSame(s.d, d', s.exts[j], Sub(s.cells, s.exts[j].base));
    }
    forall j | 0 <= j < |s.types| ensures TypesRep(d', s.types[j], Sub(s.tcells, s.types[j].base)) {
      TypesFrame(s.d, d', s.types[j], Sub(s.tcells, s.types[j].base));
    }
    SameTiled(s, d');
  }

  lemma SameTiled(s: Snap, d': seq<byte>)
    requires Tiled(s) && AllHomed(s)
    ensures Tiled(s.(d := d')) && AllHomed(s.(d := d'))
  {
    hide Homed;
  }

  // ---------------------------------------------------------------- a new section

  /** `d'` is `d` with a fresh section header at `lsp` and the file header moved on. */
  ghost predicate SectAdded(d: seq<byte>, d': seq<byte>, lsp: nat) {
    && Holds(d', lsp, HeadBytes(NewHead(lsp)))
    && Holds(d', 0, Le(lsp + SECTION_SIZE, 8))
    && SameOn(d, d', FILE_HEAD_SIZE, lsp)
  }

  lemma AddedChain(d: seq<byte>, d1: seq<byte>, d2: seq<byte>, lsp: nat)
    requires FILE_HEAD_SIZE <= lsp
    requires Written(d, d1, lsp, HeadBytes(NewHead(lsp))) && Written(d1, d2, 0, Le(lsp + SECTION_SIZE, 8))
    ensures SectAdded(d, d2, lsp)
  {
    hide At, HeadBytes;
  }

  lemma AscendingPush(hs: seq<Head>, lsp: nat, h: Head)
    requires Ascending(hs, lsp) && h.base == lsp && FILE_HEAD_SIZE <= lsp
    ensures Ascending(hs + [h], lsp + SECTION_SIZE)
  {
  }

  lemma AscendingGrow(hs: seq<Head>, lsp: nat)
    requires Ascending(hs, lsp)
    ensures Ascending(hs, lsp + SECTION_SIZE)
  {
  }

  lemma HomedPush(hs: seq<Head>, h: Head, p: nat)
    ensures Homed(hs + [h], p) <==> Homed(hs, p) || InSect(h.base, p)
  {
    if i :| 0 <= i < |hs| && InSect(hs[i].base, p) {
      assert InSect((hs + [h])[i].base, p);
    }
    if InSect(h.base, p) {
      assert InSect((hs + [h])[|hs|].base, p);
    }
    if Homed(hs + [h], p) {
      var i :| 0 <= i < |hs + [h]| && InSect((hs + [h])[i].base, p);
      assert i < |hs| ==> InSect(hs[i].base, p);
    }
  }

  lemma EmptySub<T>(s: seq<Head>, lsp: nat, m: map<nat, T>)
    requires Ascending(s, lsp) && forall o :: o in m ==> Homed(s, o)
    ensures Sub(m, lsp) == map[]
  {
    forall o | o in m ensures !InSect(lsp, o) {
      var i :| 0 <= i < |s| && InSect(s[i].base, o);
    }
  }

  lemma OldSections(s: Snap, d': seq<byte>)
    requires Inv(s) && SameOn(s.d, d', FILE_HEAD_SIZE, s.lsp)
    ensures forall j :: 0 <= j < |s.exts| ==> ExtRep(d', s.exts[j], Sub(s.cells, s.exts[j].base))
    ensures forall j :: 0 <= j < |s.types| ==> TypesRep(d', s.types[j], Sub(s.tcells, s.types[j].base))
  {
    hide At, ExtRep, TypesRep, Tiled, AllHomed, Disjoint, Holds;
    forall j | 0 <= j < |s.exts| ensures ExtRep(d', s.exts[j], Sub(s.cells, s.exts[j].base)) {
      ExtSame(s.d, d', s.exts[j], Sub(s.cells, s.exts[j].base));
    }
    forall j | 0 <= j < |s.types| ensures TypesRep(d', s.types[j], Sub(s.tcells, s.types[j].base)) {
      TypesFrame(s.d, d', s.types[j], Sub(s.tcells, s.types[j].base));
    }
  }

  ghost function WithExt(s: Snap, d': seq<byte>): Snap {
    s.(d := d', lsp := s.lsp + SECTION_SIZE, exts := s.exts + [NewHead(s.lsp)])
  }

  lemma AddExtPlaces(s: Snap, d': seq<byte>)
    requires Inv(s)
    ensures Ascending(WithExt(s, d').exts, WithExt(s, d').lsp) && Ascending(WithExt(s, d').types, WithExt(s, d').lsp)
    ensures Disjoint(WithExt(s, d').exts, WithExt(s, d').types)
    ensures Tiled(WithExt(s, d')) && AllHomed(WithExt(s, d'))
  {
    hide At, ExtsOk, TypesOk, Homed, Holds;
    var s' := WithExt(s, d');
    AscendingPush(s.exts, s.lsp, NewHead(s.lsp));
    AscendingGrow(s.types, s.lsp);
    forall p ensures Homed(s'.exts, p) <==> Homed(s.exts, p) || InSect(s.lsp, p) {
      HomedPush(s.exts, NewHead(s.lsp), p);
    }
  }

  lemma AddExtInv(s: Snap, d': seq<byte>)
    requires Inv(s) && SectAdded(s.d, d', s.lsp) && s.lsp + SECTION_SIZE <= MAX_FILE
    ensures Inv(WithExt(s, d'))
  {
    hide At, ExtRep, TypesRep, Homed, HeadBytes, SameOn, Ascending, Disjoint, Tiled, Holds;
    AddExtPlaces(s, d');
    OldSections(s, d');
    EmptySub(s.exts, s.lsp, s.cells);
    NewExtRep(d', s.lsp);
  }

  lemma NewExtRep(d: seq<byte>, base: nat)
    requires Holds(d, base, HeadBytes(NewHead(base)))
    ensures ExtRep(d, NewHead(base), map[])
  {
    hide Rep, Holds, HeadBytes;
    NewRep(d, base, Kind.Extents);
    assert Entries(map[]) == map[];
  }

  lemma NewTypesRep(d: seq<byte>, base: nat)
    requires Holds(d, base, HeadBytes(NewHead(base)))
    ensures TypesRep(d, NewHead(base), map[])
  {
    hide Rep, Holds, HeadBytes;
    NewRep(d, base, Kind.Types);
    assert TCellsWf(map[]) && TEntries(map[]) == map[];
  }

  ghost function WithTypes(s: Snap, d': seq<byte>): Snap {
    s.(d := d', lsp := s.lsp + SECTION_SIZE, types := s.types + [NewHead(s.lsp)])
  }

  lemma AddTypesPlaces(s: Snap, d': seq<byte>)
    requires Inv(s)
    ensures Ascending(WithTypes(s, d').exts, WithTypes(s, d').lsp) && Ascending(WithTypes(s, d').types, WithTypes(s, d').lsp)
    ensures Disjoint(WithTypes(s, d').exts, WithTypes(s, d').types)
    ensures Tiled(WithTypes(s, d')) && AllHomed(WithTypes(s, d'))
  {
    hide At, ExtsOk, TypesOk, Homed, Holds;
    var s' := WithTypes(s, d');
    AscendingPush(s.types, s.lsp, NewHead(s.lsp));
    AscendingGrow(s.exts, s.lsp);
    forall p ensures Homed(s'.types, p) <==> Homed(s.types, p) || InSect(s.lsp, p) {
      HomedPush(s.types, NewHead(s.lsp), p);
    }
  }

  lemma AddTypesInv(s: Snap, d': seq<byte>)
    requires Inv(s) && SectAdded(s.d, d', s.lsp) && s.lsp + SECTION_SIZE <= MAX_FILE
    ensures Inv(WithTypes(s, d'))
  {
    hide At, ExtRep, TypesRep, Homed, HeadBytes, SameOn, Ascending, Disjoint, Tiled, Holds;
    AddTypesPlaces(s, d');
    OldSections(s, d');
    EmptySub(s.types, s.lsp, s.tcells);
    NewTypesRep(d', s.lsp);
  }

  // ---------------------------------------------------------------- where an offset lives

  /** No offset lies in two sections, so the first section found is the only one. */
  lemma OneHome(s: Snap, i: nat, j: nat, p: nat)
    requires Inv(s) && i < |s.exts| && j < |s.exts|
    requires InSect(s.exts[i].base, p) && InSect(s.exts[j].base, p)
    ensures i == j
  {
    hide ExtsOk, TypesOk, Tiled, AllHomed, Holds, Disjoint;
  }

  lemma OneTypesHome(s: Snap, i: nat, j: nat, p: nat)
    requires Inv(s) && i < |s.types| && j < |s.types|
    requires InSect(s.types[i].base, p) && InSect(s.types[j].base, p)
    ensures i == j
  {
    hide ExtsOk, TypesOk, Tiled, AllHomed, Holds, Disjoint;
  }

  /** Sections tile the file: an offset has exactly one home, of exactly one kind, or none at all. */
  lemma TilingExact(s: Snap, p: nat)
    requires Inv(s)
    ensures FILE_HEAD_SIZE <= p < s.lsp <==> Homed(s.exts, p) || Homed(s.types, p)
    ensures !(Homed(s.exts, p) && Homed(s.types, p))
  {
    hide ExtsOk, TypesOk, AllHomed, Holds;
    if i :| 0 <= i < |s.exts| && InSect(s.exts[i].base, p) {
      if j :| 0 <= j < |s.types| && InSect(s.types[j].base, p) {
        assert Apart(s.exts[i].base, s.types[j].base);
      }
    }
  }

  /** Offset 0 names no entity, which is why 0 can mean "no link". */
  lemma NoCellAtZero(s: Snap, o: nat)
    requires Inv(s) && (o in s.cells || o in s.tcells)
    ensures FILE_HEAD_SIZE <= o < s.lsp <= MAX_FILE && o < TWO_64
  {
    hide ExtsOk, TypesOk, Tiled, Holds, Disjoint;
  }
}
