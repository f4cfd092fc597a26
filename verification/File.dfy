/** The file object: its header, the lists of sections, and the operations on single sections. */
module File {
  import opened Bytes
  import opened Disk
  import opened Section
  import opened SectionHeader
  import opened Json
  import opened Extents
  import opened Types
  import opened Store
  import Ext = Extents

  ghost function Heads(ss: seq<SectHead>): (r: seq<Head>)
    reads ss
    ensures |r| == |ss| && forall i :: 0 <= i < |ss| ==> r[i] == ss[i].View()
  {
    seq(|ss|, i requires 0 <= i < |ss| reads ss => ss[i].View())
  }

  /** The places of the sections of a file. */
  ghost function Bases(ss: seq<SectHead>): (r: seq<nat>)
    ensures |r| == |ss| && forall i :: 0 <= i < |ss| ==> r[i] == ss[i].fileOffset
  {
    seq(|ss|, i requires 0 <= i < |ss| => ss[i].fileOffset)
  }

  class File {
    const filp: Disk
    var lstSectPtr: nat
    var fExtent: seq<SectHead>
    var fTypes: seq<SectHead>
    ghost var cells: map<nat, Cell>
    ghost var tcells: map<nat, TypeCell>

    ghost function View(): Snap
      reads this, filp, fExtent, fTypes
    {
      Snap(filp.bytes, lstSectPtr, Heads(fExtent), Heads(fTypes), cells, tcells)
    }

    /** The section objects are all different, and share the file's disk. */
    ghost predicate Distinct()
      reads this
    {
      && (forall i :: 0 <= i < |fExtent| ==> fExtent[i].filp == filp)
      && (forall i :: 0 <= i < |fTypes| ==> fTypes[i].filp == filp)
      && (forall i, j :: 0 <= i < j < |fExtent| ==> fExtent[i] != fExtent[j])
      && (forall i, j :: 0 <= i < j < |fTypes| ==> fTypes[i] != fTypes[j])
      && (forall i, j :: 0 <= i < |fExtent| && 0 <= j < |fTypes| ==> fExtent[i] != fTypes[j])
    }

    ghost predicate Valid()
      reads this, filp, fExtent, fTypes
    {
      Distinct() && Inv(View())
    }

    /** What every operation on extents leaves alone. */
    twostate predicate Kept()
      reads this, filp, fExtent, fTypes
    {
      && old(fExtent) <= fExtent && fTypes == old(fTypes) && tcells == old(tcells)
      && (forall i :: |old(fExtent)| <= i < |fExtent| ==> fresh(fExtent[i]))
      && Heads(fTypes) == old(Heads(fTypes))
      && old(lstSectPtr) <= lstSectPtr
    }

    constructor (filp: Disk)
      modifies filp
      ensures Valid() && this.filp == filp
      ensures fExtent == [] && fTypes == [] && cells == map[] && tcells == map[]
      ensures lstSectPtr == FILE_HEAD_SIZE
    {
      this.filp := filp;
      lstSectPtr := FILE_HEAD_SIZE;
      fExtent, fTypes := [], [];
      cells, tcells := map[], map[];
      new;
      HeadSync();
      EmptyInv(View());
    }

    method HeadSync()
      modifies filp
      ensures Written(old(filp.bytes), filp.bytes, 0, Le(lstSectPtr, 8))
    {
      filp.Write(0, Le(lstSectPtr, 8));
    }

    /** file_head_sync at the end of an operation writes what is there already. */
    method Sync()
      requires Valid()
      modifies filp
      ensures Valid() && Same(old(filp.bytes), filp.bytes)
    {
      hide Inv, At, Same, Written, Holds, Le;
      ghost var s := View();
      InvHead(s);
      HeadSync();
      RewriteSame(s.d, filp.bytes, 0, Le(lstSectPtr, 8));
      SameInv(s, filp.bytes);
      assert View() == s.(d := filp.bytes);
    }

    /** The first extent section that contains `foff`, or none. */
    method GetSectExt(foff: nat) returns (found: bool, i: nat)
      ensures found ==> i < |fExtent| && InSect(fExtent[i].fileOffset, foff) && forall j :: 0 <= j < i ==> !InSect(fExtent[j].fileOffset, foff)
      ensures !found ==> forall j :: 0 <= j < |fExtent| ==> !InSect(fExtent[j].fileOffset, foff)
    {
      found, i := false, 0;
      while i < |fExtent|
        invariant i <= |fExtent|
        invariant forall j :: 0 <= j < i ==> !InSect(fExtent[j].fileOffset, foff)
      {
        if fExtent[i].fileOffset <= foff && fExtent[i].fileOffset + SECTION_SIZE > foff {
          found := true;
          return;
        }
        i := i + 1;
      }
    }

    method GetSectTypes(foff: nat) returns (found: bool, i: nat)
      ensures found ==> i < |fTypes| && InSect(fTypes[i].fileOffset, foff) && forall j :: 0 <= j < i ==> !InSect(fTypes[j].fileOffset, foff)
      ensures !found ==> forall j :: 0 <= j < |fTypes| ==> !InSect(fTypes[j].fileOffset, foff)
    {
      found, i := false, 0;
      while i < |fTypes|
        invariant i <= |fTypes|
        invariant forall j :: 0 <= j < i ==> !InSect(fTypes[j].fileOffset, foff)
      {
        if fTypes[i].fileOffset <= foff && fTypes[i].fileOffset + SECTION_SIZE > foff {
          found := true;
          return;
        }
        i := i + 1;
      }
    }

    /** Appends an empty extent section; fails when the file cannot grow any further. */
    method AddSectExt() returns (ok: bool)
      requires Valid()
      modifies this`lstSectPtr, this`fExtent, filp
      ensures Valid() && Kept() && cells == old(cells)
      ensures ok <==> old(lstSectPtr) + SECTION_SIZE <= MAX_FILE
      ensures lstSectPtr == old(lstSectPtr) + if ok then SECTION_SIZE else 0
      ensures ok ==> |fExtent| == |old(fExtent)| + 1 && fExtent[|old(fExtent)|].View() == NewHead(old(lstSectPtr))
      ensures !ok ==> fExtent == old(fExtent)
    {
      hide Inv, At, HeadBytes, Le;
      if lstSectPtr + SECTION_SIZE > MAX_FILE {
        ok := false;
        return;
      }
      ghost var s := View();
      InvHead(s);
      var sect := new SectHead(lstSectPtr, filp);
      ghost var d1 := filp.bytes;
      fExtent := fExtent + [sect];
      lstSectPtr := lstSectPtr + SECTION_SIZE;
      HeadSync();
      ok := true;
      AddedChain(s.d, d1, filp.bytes, s.lsp);
      AddExtInv(s, filp.bytes);
      assert Heads(fExtent) == s.exts + [NewHead(s.lsp)];
      assert View() == WithExt(s, filp.bytes);
    }

    method AddSectTypes() returns (ok: bool)
      requires Valid()
      modifies this`lstSectPtr, this`fTypes, filp
      ensures Valid() && fExtent == old(fExtent) && Heads(fExtent) == old(Heads(fExtent))
      ensures cells == old(cells) && tcells == old(tcells)
      ensures old(fTypes) <= fTypes && forall i :: |old(fTypes)| <= i < |fTypes| ==> fresh(fTypes[i])
      ensures ok <==> old(lstSectPtr) + SECTION_SIZE <= MAX_FILE
      ensures lstSectPtr == old(lstSectPtr) + if ok then SECTION_SIZE else 0
      ensures ok ==> |fTypes| == |old(fTypes)| + 1 && fTypes[|old(fTypes)|].View() == NewHead(old(lstSectPtr))
      ensures !ok ==> fTypes == old(fTypes)
    {
      hide Inv, At, HeadBytes, Le;
      if lstSectPtr + SECTION_SIZE > MAX_FILE {
        ok := false;
        return;
      }
      ghost var s := View();
      InvHead(s);
      var sect := new SectHead(lstSectPtr, filp);
      ghost var d1 := filp.bytes;
      fTypes := fTypes + [sect];
      lstSectPtr := lstSectPtr + SECTION_SIZE;
      HeadSync();
      ok := true;
      AddedChain(s.d, d1, filp.bytes, s.lsp);
      AddTypesInv(s, filp.bytes);
      assert Heads(fTypes) == s.types + [NewHead(s.lsp)];
      assert View() == WithTypes(s, filp.bytes);
    }

    // -------------------------------------------------------------- operations on one extent section

    /** Tries to write an entity into section `i`. */
    method ExtWrite(i: nat, key: seq<byte>, val: seq<byte>, ent: Entity) returns (ok: bool, foff: nat, ent': Entity)
      requires Valid() && i < |fExtent|
      requires ENT_SIZE + |key| + |val| < TWO_64
      requires ent.keySize == |key| && ent.valSize == |val| && ent.ty <= 4 && ValWf(TypeOf(ent.ty), val)
      modifies this`cells, fExtent[i], filp
      ensures Valid() && Kept() && lstSectPtr == old(lstSectPtr) && fExtent == old(fExtent)
      ensures ok <==> ENT_SIZE + |key| + |val| <= old(fExtent[i].freeSpace)
      ensures !ok ==> cells == old(cells)
      ensures ok ==>
        && foff !in old(cells) && InSect(fExtent[i].fileOffset, foff)
        && ent' == ent.(keyPtr := ent'.keyPtr, valPtr := ent'.valPtr)
        && cells == old(cells)[foff := Cell(ent', key, val)]
        && foff == old(fExtent[i].fileOffset + fExtent[i].lstItmPtr)
      ensures !ok ==> fExtent[i].View() == old(fExtent[i].View())
    {
      hide Inv, At, ExtRep, SameOutside, Same, ValWf, Sub, SameBut, EntBytes;
      ghost var s := View();
      ghost var base := fExtent[i].fileOffset;
      InvExt(s, i);
      var soff: nat;
      ok, soff, ent' := Ext.WriteCell(fExtent[i], key, val, ent, Sub(cells, base));
      foff := fExtent[i].GetFileoff(soff);
      if ok {
        ExtFits(s, i);
        cells := cells[foff := Cell(ent', key, val)];
        SubPush(s.cells, base, foff, Cell(ent', key, val));
        NotInSub(s.cells, base, foff);
        SameButPush(s.cells, base, foff, Cell(ent', key, val));
      } else {
        ExtRepSame(s.d, filp.bytes, s.exts[i], Sub(cells, base));
        SameButRefl(cells, base);
      }
      assert ExtStepped(s, View(), i);
      ExtStep(s, View(), i);
    }

    /**
     Deletes the live entity at `foff`, which lies in section `i`. The file stays sound exactly when the
     lowest record left in that section does not begin with a zero byte.
     */
    method ExtDelete(i: nat, foff: nat) returns (ent: Entity)
      requires Valid() && i < |fExtent| && InSect(fExtent[i].fileOffset, foff)
      requires foff in cells
      modifies this`cells, fExtent[i], filp
      ensures Distinct() && Kept() && lstSectPtr == old(lstSectPtr) && fExtent == old(fExtent)
      ensures ent == old(cells)[foff].ent && cells == old(cells) - {foff}
      ensures Valid() <==> LowestLed(Entries(Sub(cells, fExtent[i].fileOffset)))
    {
      hide Inv, At, ExtRep, SameOutside, Same, Sub, SameBut, LowestLed, EntBytes, Entries;
      ghost var s := View();
      ghost var base := fExtent[i].fileOffset;
      InvExt(s, i);
      InSub(s.cells, base, foff);
      ent := Ext.Delete(fExtent[i], fExtent[i].GetSectoff(foff), Sub(cells, base));
      cells := cells - {foff};
      SubDrop(s.cells, base, foff);
      SameButDrop(s.cells, base, foff);
      assert ExtStepped(s, View(), i);
      ExtStepIff(s, View(), i);
    }

    /** Rewrites the links of the live entity at `foff`. */
    method ExtRelink(i: nat, foff: nat, ent: Entity)
      requires Valid() && i < |fExtent| && InSect(fExtent[i].fileOffset, foff)
      requires foff in cells && ent == cells[foff].ent.(broPtr := ent.broPtr, sonPtr := ent.sonPtr)
      modifies this`cells, filp
      ensures Valid() && Kept() && lstSectPtr == old(lstSectPtr) && fExtent == old(fExtent)
      ensures cells == old(cells)[foff := old(cells)[foff].(ent := ent)]
    {
      hide Inv, At, ExtRep, SameOutside, Same, Sub, SameBut, EntBytes, Written;
      ghost var s := View();
      ghost var base := fExtent[i].fileOffset;
      InvExt(s, i);
      InSub(s.cells, base, foff);
      Ext.WrtItm(fExtent[i], fExtent[i].GetSectoff(foff), ent);
      ExtRelinked(s, i, foff, ent, filp.bytes);
      cells := cells[foff := cells[foff].(ent := ent)];
      assert View() == Relinked(s, foff, ent, filp.bytes);
    }

    /** The raw write over a dad's son_ptr. */
    method PatchSon(foff: nat, son: u64)
      requires Valid() && foff in cells
      modifies this`cells, filp
      ensures Valid() && Kept() && lstSectPtr == old(lstSectPtr) && fExtent == old(fExtent)
      ensures cells == old(cells)[foff := old(cells)[foff].(ent := old(cells)[foff].ent.(sonPtr := son))]
    {
      hide Inv, At, ExtRep, SameOutside, Same, Sub, SameBut, EntBytes, Written, Le;
      ghost var s := View();
      ghost var i := CellHome(s, foff);
      InvExt(s, i);
      ghost var base := s.exts[i].base;
      InSub(s.cells, base, foff);
      CellBounds(s.d, s.exts[i], Sub(s.cells, base), foff);
      ghost var ent := cells[foff].ent.(sonPtr := son);
      filp.Write(foff + SON_OFFSET, Le(son, 8));
      SonPatch(s.d, filp.bytes, foff, cells[foff].ent, son);
      ExtRelinked(s, i, foff, ent, filp.bytes);
      cells := cells[foff := cells[foff].(ent := ent)];
      assert View() == Relinked(s, foff, ent, filp.bytes);
    }

    /** Reads the slot at `foff`. */
    method ExtRead(i: nat, foff: nat) returns (ent: Entity, json: Json)
      requires Valid() && i < |fExtent| && InSect(fExtent[i].fileOffset, foff)
      requires foff in cells || DeadSlot(filp.bytes, foff)
      modifies filp
      ensures Valid() && Same(old(filp.bytes), filp.bytes)
      ensures foff in cells ==> CellWf(cells[foff]) && ent == cells[foff].ent && json == CellNode(cells[foff])
      ensures foff !in cells ==> ent == ZERO_ENTITY && json == DEAD_NODE
    {
      hide Inv, At, ExtRep, Same, Sub, EntBytes, DeadSlot, CellNode;
      ghost var s := View();
      ghost var base := fExtent[i].fileOffset;
      InvExt(s, i);
      SubIff(s.cells, base, foff);
      ent, json := Ext.Read(fExtent[i], fExtent[i].GetSectoff(foff), Sub(cells, base));
      SameInv(s, filp.bytes);
      assert View() == s.(d := filp.bytes);
    }

    /** Lists all slots of section `i`. */
    method ExtLoad(i: nat) returns (col: seq<nat>)
      requires Valid() && i < |fExtent|
      modifies filp
      ensures Valid() && Same(old(filp.bytes), filp.bytes)
      ensures col == SlotOffs(fExtent[i].fileOffset, |col|) && fExtent[i].lstItmPtr == HEAD_SIZE + ENT_SIZE * |col|
    {
      hide Inv, At, ExtRep, Same, Sub, SlotOffs;
      ghost var s := View();
      InvExt(s, i);
      col := Ext.Load(fExtent[i], Sub(cells, fExtent[i].fileOffset));
      SameInv(s, filp.bytes);
      assert View() == s.(d := filp.bytes);
    }
  }

  lemma EmptyInv(s: Snap)
    requires s.lsp == FILE_HEAD_SIZE && s.exts == [] && s.types == [] && s.cells == map[] && s.tcells == map[]
    requires Holds(s.d, 0, Le(s.lsp, 8))
    ensures Inv(s)
  {
  }

  lemma InvHead(s: Snap)
    requires Inv(s)
    ensures FILE_HEAD_SIZE <= s.lsp <= MAX_FILE && Holds(s.d, 0, Le(s.lsp, 8))
  {
  }

  lemma InvExt(s: Snap, i: nat)
    requires Inv(s) && i < |s.exts|
    ensures ExtRep(s.d, s.exts[i], Sub(s.cells, s.exts[i].base))
    ensures FILE_HEAD_SIZE <= s.exts[i].base && s.exts[i].base + SECTION_SIZE <= MAX_FILE
  {
    hide ExtRep, TypesRep, Tiled, AllHomed, Disjoint, Holds;
  }

  lemma InvTypes(s: Snap, i: nat)
    requires Inv(s) && i < |s.types|
    ensures TypesRep(s.d, s.types[i], Sub(s.tcells, s.types[i].base))
    ensures FILE_HEAD_SIZE <= s.types[i].base && s.types[i].base + SECTION_SIZE <= MAX_FILE
  {
    hide ExtRep, TypesRep, Tiled, AllHomed, Disjoint, Holds;
  }

  /** The item border of a section with room left lies inside the section. */
  lemma ExtFits(s: Snap, i: nat)
    requires Inv(s) && i < |s.exts|
    ensures s.exts[i].free >= ENT_SIZE ==> InSect(s.exts[i].base, s.exts[i].base + s.exts[i].lip)
  {
    hide Inv;
    InvExt(s, i);
    ExtRoomy(s.d, s.exts[i], Sub(s.cells, s.exts[i].base));
  }

  lemma NotInSub<T>(m: map<nat, T>, base: nat, o: nat)
    requires InSect(base, o)
    ensures o !in Sub(m, base) ==> o !in m
  {
  }

  lemma InSub<T>(m: map<nat, T>, base: nat, o: nat)
    requires InSect(base, o) && o in m
    ensures o in Sub(m, base) && Sub(m, base)[o] == m[o]
  {
  }

  lemma SubIff<T>(m: map<nat, T>, base: nat, o: nat)
    requires InSect(base, o)
    ensures o in Sub(m, base) <==> o in m
    ensures o in m ==> Sub(m, base)[o] == m[o]
  {
  }

  lemma SameButPush<T(!new)>(m: map<nat, T>, base: nat, o: nat, c: T)
    requires InSect(base, o)
    ensures SameBut(m, m[o := c], base)
  {
  }

  lemma SameButDrop<T(!new)>(m: map<nat, T>, base: nat, o: nat)
    requires InSect(base, o)
    ensures SameBut(m, m - {o}, base)
  {
  }

  lemma SameButRefl<T(!new)>(m: map<nat, T>, base: nat)
    ensures SameBut(m, m, base)
  {
  }

  /** After a step inside one section, the file is sound exactly when that section is. */
  lemma ExtStepIff(s: Snap, s': Snap, i: nat)
    requires Inv(s) && ExtStepped(s, s', i)
    ensures Inv(s') <==> ExtRep(s'.d, s'.exts[i], Sub(s'.cells, s'.exts[i].base))
  {
    hide Inv, ExtRep, SameOutside, SameBut;
    if ExtRep(s'.d, s'.exts[i], Sub(s'.cells, s'.exts[i].base)) {
      ExtStep(s, s', i);
    }
    if Inv(s') {
      InvExt(s', i);
    }
  }

  lemma LedSub(cells: map<nat, Cell>, base: nat)
    requires CellsLed(cells)
    ensures LowestLed(Entries(Sub(cells, base)))
  {
    hide LowestLed, Entries;
    LedEntries(Sub(cells, base));
  }

  lemma ExtRepSame(d: seq<byte>, d': seq<byte>, h: Head, m: map<nat, Cell>)
    requires ExtRep(d, h, m) && d == d'
    ensures ExtRep(d', h, m)
  {
  }

  lemma CellHome(s: Snap, o: nat) returns (i: nat)
    requires Inv(s) && o in s.cells
    ensures i < |s.exts| && InSect(s.exts[i].base, o)
  {
    hide ExtsOk, TypesOk, Tiled, Holds, Disjoint;
    assert Homed(s.exts, o);
    i :| 0 <= i < |s.exts| && InSect(s.exts[i].base, o);
  }

  ghost function Relinked(s: Snap, o: nat, ent: Entity, d': seq<byte>): Snap
    requires o in s.cells
  {
    s.(d := d', cells := s.cells[o := s.cells[o].(ent := ent)])
  }

  lemma ExtRelinked(s: Snap, i: nat, o: nat, ent: Entity, d': seq<byte>)
    requires Inv(s) && i < |s.exts| && InSect(s.exts[i].base, o) && o in s.cells
    requires ent == s.cells[o].ent.(broPtr := ent.broPtr, sonPtr := ent.sonPtr)
    requires Written(s.d, d', o, EntBytes(ent))
    ensures Inv(Relinked(s, o, ent, d'))
  {
    hide Inv, At, ExtRep, SameOutside, Sub, SameBut, EntBytes, Written;
    var base, c := s.exts[i].base, s.cells[o].(ent := ent);
    InvExt(s, i);
    InSub(s.cells, base, o);
    CellBounds(s.d, s.exts[i], Sub(s.cells, base), o);
    RelinkRep(s.d, d', s.exts[i], Sub(s.cells, base), o, ent);
    SubPush(s.cells, base, o, c);
    SameButPush(s.cells, base, o, c);
    assert ExtStepped(s, Relinked(s, o, ent, d'), i);
    ExtStep(s, Relinked(s, o, ent, d'), i);
  }
}
