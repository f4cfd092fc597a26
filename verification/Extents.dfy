/** Extent sections: one 80-byte entity per JSON node, with its value and key as the record. */
module Extents {
  import opened Bytes
  import opened Disk
  import opened Section
  import opened SectionHeader
  import opened Json

  const ENT_SIZE := 80

  datatype Entity = Entity(
    keyPtr: u64, keySize: u64, valPtr: u64, valSize: u64, ty: u64, initRecSz: u64,
    dadPtr: u64, broPtr: u64, sonPtr: u64, typePtr: u64)

  const ZERO_ENTITY := Entity(0, 0, 0, 0, 0, 0, 0, 0, 0, 0)

  /** offsetof(Entity, fam_addr) + offsetof(Tplgy, son_ptr) */
  const SON_OFFSET := 64

  function EntWords(e: Entity): (ws: seq<u64>)
    ensures |ws| == 10
  {
    [e.keyPtr, e.keySize, e.valPtr, e.valSize, e.ty, e.initRecSz, e.dadPtr, e.broPtr, e.sonPtr, e.typePtr]
  }

  function EntBytes(e: Entity): (s: seq<byte>)
    ensures |s| == ENT_SIZE
  {
    Words(EntWords(e))
  }

  function DecodeEnt(s: seq<byte>): (e: Entity)
    requires |s| == ENT_SIZE
  {
    var w := FromWords(s, 10);
    Entity(w[0], w[1], w[2], w[3], w[4], w[5], w[6], w[7], w[8], w[9])
  }

  /** An entity survives the trip through its 80 bytes. */
  lemma EntRoundTrip(e: Entity)
    ensures DecodeEnt(EntBytes(e)) == e
    ensures FromWords(EntBytes(e), 10) ==
      [e.keyPtr, e.keySize, e.valPtr, e.valSize, e.ty, e.initRecSz, e.dadPtr, e.broPtr, e.sonPtr, e.typePtr]
  {
    WordsRoundTrip(EntWords(e));
  }

  lemma DecodeZeros(s: seq<byte>)
    requires |s| == ENT_SIZE && AllZero(s)
    ensures DecodeEnt(s) == ZERO_ENTITY
  {
    forall i | 0 <= i < 10 ensures FromWords(s, 10)[i] == 0 {
      FromLeZero(s[8 * i..8 * i + 8]);
    }
  }

  lemma EntLiveTail(e: Entity)
    requires e.keyPtr != 0
    ensures LiveTail(Kind.Extents, EntBytes(e))
  {
    var q := NonZeroWord(EntWords(e), 0);
  }

  /** A live entity together with the bytes of its record. */
  datatype Cell = Cell(ent: Entity, key: seq<byte>, val: seq<byte>)

  ghost predicate CellWf(c: Cell) {
    && c.ent.keySize == |c.key| && c.ent.valSize == |c.val|
    && c.ent.keyPtr == c.ent.valPtr + |c.val| && c.ent.keyPtr != 0
    && c.ent.ty <= 4 && ValWf(TypeOf(c.ent.ty), c.val)
  }

  /** The value lies below the key. */
  ghost function CellEntry(c: Cell): Entry {
    Entry(EntBytes(c.ent), c.ent.valPtr, c.val + c.key)
  }

  ghost function Entries(cells: map<nat, Cell>): map<nat, Entry> {
    map o | o in cells :: CellEntry(cells[o])
  }

  ghost predicate CellsWf(cells: map<nat, Cell>) {
    forall o :: o in cells ==> CellWf(cells[o])
  }

  ghost predicate ExtRep(d: seq<byte>, h: Head, cells: map<nat, Cell>) {
    Rep(d, h, Kind.Extents, Entries(cells)) && CellsWf(cells)
  }

  /** The record of a cell, if it has one, does not begin with a zero byte. */
  predicate Led(key: seq<byte>, val: seq<byte>) {
    if val != [] then val[0] != 0 else key != [] ==> key[0] != 0
  }

  ghost predicate CellsLed(cells: map<nat, Cell>) {
    forall o :: o in cells ==> Led(cells[o].key, cells[o].val)
  }

  lemma LedEntries(cells: map<nat, Cell>)
    requires CellsLed(cells)
    ensures AllLed(Entries(cells)) && LowestLed(Entries(cells))
  {
    hide EntBytes;
    forall o | o in cells && Entries(cells)[o].rec != [] ensures Entries(cells)[o].rec[0] != 0 {
      assert Led(cells[o].key, cells[o].val);
    }
  }

  lemma EntriesPush(cells: map<nat, Cell>, o: nat, c: Cell)
    ensures Entries(cells[o := c]) == Entries(cells)[o := CellEntry(c)]
  {
    hide CellEntry;
  }

  lemma EntriesDrop(cells: map<nat, Cell>, o: nat)
    ensures Entries(cells - {o}) == Entries(cells) - {o}
  {
    hide CellEntry;
  }

  /** Where a cell of a section lies. */
  lemma CellBounds(d: seq<byte>, h: Head, cells: map<nat, Cell>, o: nat)
    requires ExtRep(d, h, cells) && o in cells
    ensures CellWf(cells[o])
    ensures h.base + HEAD_SIZE <= o && o + ENT_SIZE <= h.base + h.lip && h.lip <= h.frp <= SECTION_SIZE
    ensures cells[o].ent.keyPtr + |cells[o].key| <= SECTION_SIZE
    ensures |cells[o].key| + |cells[o].val| <= SECTION_SIZE
    ensures Holds(d, o, EntBytes(cells[o].ent))
    ensures Holds(d, h.base + cells[o].ent.valPtr, cells[o].val + cells[o].key)
  {
    hide Aligned, LiveTail, EntBytes, DeadZero, LipTight, FrpTight, Before, Holds;
    var m := Entries(cells);
    assert o in m && m[o] == CellEntry(cells[o]);
    assert EntryFits(h, Kind.Extents, o, m[o]);
  }

  lemma CellRecord(d: seq<byte>, h: Head, cells: map<nat, Cell>, o: nat)
    requires ExtRep(d, h, cells) && o in cells
    ensures CellWf(cells[o])
    ensures Holds(d, h.base + cells[o].ent.keyPtr, cells[o].key) && Holds(d, h.base + cells[o].ent.valPtr, cells[o].val)
  {
    hide ExtRep, EntBytes, At;
    CellBounds(d, h, cells, o);
    var c := cells[o];
    forall p | h.base + c.ent.keyPtr <= p < h.base + c.ent.keyPtr + |c.key|
      ensures At(d, p) == c.key[p - (h.base + c.ent.keyPtr)]
    {
      assert (c.val + c.key)[p - (h.base + c.ent.valPtr)] == c.key[p - (h.base + c.ent.keyPtr)];
    }
  }

  // ---------------------------------------------------------------- write

  predicate Untouched(h: Head, h': Head, itemSize: nat, recSize: nat, p: nat) {
    && !(h.base <= p < h.base + HEAD_SIZE)
    && !(h.base + h.lip <= p < h.base + h.lip + itemSize)
    && !(h.base + h'.frp <= p < h.base + h'.frp + recSize)
  }

  /** What sect_ext_write does to the bytes of a section: header, item and record, nothing else. */
  ghost predicate RawWritten(d: seq<byte>, d': seq<byte>, h: Head, h': Head, item: seq<byte>, rec: seq<byte>) {
    && Holds(d', h.base, HeadBytes(h')) && Holds(d', h.base + h.lip, item) && Holds(d', h.base + h'.frp, rec)
    && (forall p: nat :: Untouched(h, h', |item|, |rec|, p) ==> At(d', p) == At(d, p))
  }

  /** Room for an item at lip and a record below frp, whatever free_space says. */
  ghost predicate RawRoom(h: Head, n: nat) {
    && HEAD_SIZE <= h.lip && h.frp <= SECTION_SIZE && h.lip + ENT_SIZE + n <= h.frp && h.free <= SECTION_SIZE
  }

  /** The eight disk writes of sect_ext_write, composed. */
  lemma WriteChain(
    d0: seq<byte>, d1: seq<byte>, d2: seq<byte>, d3: seq<byte>, d4: seq<byte>, d5: seq<byte>, d6: seq<byte>, d7: seq<byte>,
    h: Head, h1: seq<byte>, h3: seq<byte>, h': Head, key: seq<byte>, val: seq<byte>, item: seq<byte>)
    requires RawRoom(h, |key| + |val|) && |item| == ENT_SIZE && |h1| == |h3| == HEAD_SIZE
    requires h'.frp == h.frp - |key| - |val|
    requires Written(d0, d1, h.base, h1) && Written(d1, d2, h.base + h.frp - |key|, key)
    requires Written(d2, d3, h.base, h3) && Written(d3, d4, h.base + h.frp - |key| - |val|, val)
    requires Written(d4, d5, h.base + h.lip, item)
    requires Written(d5, d6, h.base, HeadBytes(h')) && Written(d6, d7, h.base, HeadBytes(h'))
    ensures RawWritten(d0, d7, h, h', item, val + key)
  {
    hide At, HeadBytes;
  }

  /**
   sect_ext_write: pushes the key, then the value, then the entity. It trusts free_space alone;
   where the header is sound, that check is exactly the room there is.
   */
  method Write(s: SectHead, key: seq<byte>, val: seq<byte>, ent: Entity) returns (ok: bool, saveAddr: nat, ent': Entity)
    requires ENT_SIZE + |key| + |val| < TWO_64
    requires ENT_SIZE + |key| + |val| <= s.freeSpace ==> RawRoom(s.View(), |key| + |val|)
    modifies s, s.filp
    ensures ok <==> ENT_SIZE + |key| + |val| <= old(s.freeSpace)
    ensures !ok ==> s.View() == old(s.View()) && s.filp.bytes == old(s.filp.bytes)
    ensures ok ==>
      && saveAddr == old(s.lstItmPtr) && |key| + |val| <= old(s.fstRecPtr)
      && ent' == ent.(keyPtr := old(s.fstRecPtr) - |key|, valPtr := old(s.fstRecPtr) - |key| - |val|)
      && old(s.lstItmPtr) + ENT_SIZE < TWO_64 && s.View() == Pushed(old(s.View()), ENT_SIZE, |key| + |val|)
      && RawWritten(old(s.filp.bytes), s.filp.bytes, old(s.View()), s.View(), EntBytes(ent'), val + key)
  {
    hide At, Add64, Neg64, EntBytes, HeadBytes, Written, RawWritten;
    ent' := ent;
    saveAddr := 0;
    if s.freeSpace < ENT_SIZE + |key| + |val| {
      ok := false;
      return;
    }
    ghost var h, d0 := s.View(), s.filp.bytes;
    saveAddr := s.lstItmPtr;

    AddNeg(s.freeSpace, |key|);
    AddNeg(s.fstRecPtr, |key|);
    s.ShiftFrp(Neg64(|key|));
    ghost var d1, h1 := s.filp.bytes, HeadBytes(s.View());
    s.Write(s.fstRecPtr, key);
    ghost var d2 := s.filp.bytes;
    ent' := ent'.(keyPtr := s.fstRecPtr);

    AddNeg(s.freeSpace, |val|);
    AddNeg(s.fstRecPtr, |val|);
    s.ShiftFrp(Neg64(|val|));
    ghost var d3, h3 := s.filp.bytes, HeadBytes(s.View());
    s.Write(s.fstRecPtr, val);
    ghost var d4 := s.filp.bytes;
    ent' := ent'.(valPtr := s.fstRecPtr);

    WrtItm(s, s.lstItmPtr, ent');
    ghost var d5 := s.filp.bytes;
    AddNeg(s.freeSpace, ENT_SIZE);
    s.ShiftLip(ENT_SIZE);
    ghost var d6 := s.filp.bytes;
    s.Sync();
    ok := true;
    WriteChain(d0, d1, d2, d3, d4, d5, d6, s.filp.bytes, h, h1, h3, s.View(), key, val, EntBytes(ent'));
  }

  /** On a sound section, a write adds one live entity and keeps everything else. */
  method WriteCell(s: SectHead, key: seq<byte>, val: seq<byte>, ent: Entity, ghost cells: map<nat, Cell>)
    returns (ok: bool, saveAddr: nat, ent': Entity)
    requires ExtRep(s.filp.bytes, s.View(), cells)
    requires ENT_SIZE + |key| + |val| < TWO_64
    requires ent.keySize == |key| && ent.valSize == |val| && ent.ty <= 4 && ValWf(TypeOf(ent.ty), val)
    modifies s, s.filp
    ensures ok <==> ENT_SIZE + |key| + |val| <= old(s.freeSpace)
    ensures !ok ==> s.View() == old(s.View()) && s.filp.bytes == old(s.filp.bytes)
    ensures ok ==>
      && saveAddr == old(s.lstItmPtr) && |key| + |val| <= old(s.fstRecPtr)
      && ent' == ent.(keyPtr := old(s.fstRecPtr) - |key|, valPtr := old(s.fstRecPtr) - |key| - |val|)
      && old(s.lstItmPtr) + ENT_SIZE < TWO_64 && s.View() == Pushed(old(s.View()), ENT_SIZE, |key| + |val|)
      && s.fileOffset + saveAddr !in cells
      && ExtRep(s.filp.bytes, s.View(), cells[s.fileOffset + saveAddr := Cell(ent', key, val)])
    ensures SameOutside(old(s.filp.bytes), s.filp.bytes, s.fileOffset, s.fileOffset + SECTION_SIZE)
  {
    hide At, ExtRep, EntBytes, HeadBytes, SameOutside, RawWritten;
    ghost var h, d0 := s.View(), s.filp.bytes;
    ExtRoomy(d0, h, cells);
    ok, saveAddr, ent' := Write(s, key, val, ent);
    if ok {
      RawPushed(d0, s.filp.bytes, h, s.View(), EntBytes(ent'), val + key);
      WriteRep(d0, s.filp.bytes, h, s.View(), cells, Cell(ent', key, val));
    } else {
      SameOutsideRefl(d0, s.fileOffset, s.fileOffset + SECTION_SIZE);
    }
  }

  lemma RawPushed(d: seq<byte>, d': seq<byte>, h: Head, h': Head, item: seq<byte>, rec: seq<byte>)
    requires Roomy(h) && |item| + |rec| <= h.free && h'.frp == h.frp - |rec|
    requires RawWritten(d, d', h, h', item, rec)
    ensures PushedOnDisk(d, d', h, h', Entry(item, h.frp - |rec|, rec))
    ensures SameOutside(d, d', h.base, h.base + SECTION_SIZE)
  {
    hide At, HeadBytes;
  }

  lemma SameOutsideRefl(d: seq<byte>, lo: nat, hi: nat)
    ensures SameOutside(d, d, lo, hi)
  {
  }

  lemma ExtRoomy(d: seq<byte>, h: Head, cells: map<nat, Cell>)
    requires ExtRep(d, h, cells)
    ensures Roomy(h)
  {
  }

  lemma WriteRep(d: seq<byte>, d': seq<byte>, h: Head, h': Head, cells: map<nat, Cell>, c: Cell)
    requires ExtRep(d, h, cells) && CellWf(c) && Roomy(h)
    requires ENT_SIZE + |c.key| + |c.val| <= h.free
    requires c.ent.valPtr == h.frp - |c.key| - |c.val|
    requires h' == Pushed(h, ENT_SIZE, |c.key| + |c.val|)
    requires PushedOnDisk(d, d', h, h', Entry(EntBytes(c.ent), c.ent.valPtr, c.val + c.key))
    ensures h.base + h.lip !in cells
    ensures ExtRep(d', h', cells[h.base + h.lip := c])
  {
    hide Rep, Aligned, LiveTail, EntBytes, PushedOnDisk, Roomy;
    EntLiveTail(c.ent);
    OneSlot();
    PushRep(d, d', h, Kind.Extents, Entries(cells), CellEntry(c));
    EntriesPush(cells, h.base + h.lip, c);
  }

  lemma OneSlot()
    ensures Aligned(Kind.Extents, ENT_SIZE)
  {
    assert Slots(Kind.Extents, 1) == ENT_SIZE;
  }

  method WrtItm(s: SectHead, soff: nat, ent: Entity)
    modifies s.filp
    ensures Written(old(s.filp.bytes), s.filp.bytes, s.fileOffset + soff, EntBytes(ent))
  {
    s.Write(soff, EntBytes(ent));
  }

  /** Rewriting a live entity with other links keeps everything else in the section. */
  lemma RelinkRep(d: seq<byte>, d': seq<byte>, h: Head, cells: map<nat, Cell>, o: nat, ent: Entity)
    requires ExtRep(d, h, cells) && o in cells && CellWf(cells[o].(ent := ent))
    requires ent.valPtr == cells[o].ent.valPtr
    requires Written(d, d', o, EntBytes(ent))
    ensures ExtRep(d', h, cells[o := cells[o].(ent := ent)])
    ensures SameOutside(d, d', h.base, h.base + SECTION_SIZE)
  {
    hide Rep, LiveTail, EntBytes, At;
    CellBounds(d, h, cells, o);
    EntLiveTail(ent);
    PatchRep(d, d', h, Kind.Extents, Entries(cells), o, EntBytes(ent));
    EntriesPush(cells, o, cells[o].(ent := ent));
  }

  /** The raw eight-byte write at son_ptr changes that link and nothing else. */
  lemma SonPatch(d: seq<byte>, d': seq<byte>, o: nat, ent: Entity, son: u64)
    requires Holds(d, o, EntBytes(ent)) && Written(d, d', o + SON_OFFSET, Le(son, 8))
    ensures Written(d, d', o, EntBytes(ent.(sonPtr := son)))
  {
    hide At, Words;
    var ws := EntWords(ent);
    assert EntWords(ent.(sonPtr := son)) == ws[8 := son];
    forall p: nat
      ensures At(d', p) == if o <= p < o + ENT_SIZE then EntBytes(ent.(sonPtr := son))[p - o] else At(d, p)
    {
      if o <= p < o + ENT_SIZE {
        WordsUpdate(ws, 8, son, p - o);
      }
    }
  }

  // ---------------------------------------------------------------- read

  /** The slot at `o` holds no entity: its bytes are zero. */
  ghost predicate DeadSlot(d: seq<byte>, o: nat) {
    ZeroOn(d, o, o + ENT_SIZE)
  }

  method RdItm(s: SectHead, soff: nat) returns (ent: Entity)
    ensures forall e :: Holds(s.filp.bytes, s.fileOffset + soff, EntBytes(e)) ==> ent == e
    ensures DeadSlot(s.filp.bytes, s.fileOffset + soff) ==> ent == ZERO_ENTITY
  {
    hide At;
    var data := s.Read(soff, ENT_SIZE);
    ent := DecodeEnt(data);
    forall e | Holds(s.filp.bytes, s.fileOffset + soff, EntBytes(e)) ensures ent == e {
      HoldsUnique(s.filp.bytes, s.fileOffset + soff, data, EntBytes(e));
      EntRoundTrip(e);
    }
    if DeadSlot(s.filp.bytes, s.fileOffset + soff) {
      ZeroHolds(s.filp.bytes, s.fileOffset + soff, data);
      DecodeZeros(data);
    }
  }

  /** The node that a cell reads as, without its family. */
  ghost function CellNode(c: Cell): Json
    requires CellWf(c)
  {
    Node(ReadKey(c.key), TypeOf(c.ent.ty), ReadVal(TypeOf(c.ent.ty), c.val), Nil, Nil)
  }

  /** What a dead slot reads as. */
  const DEAD_NODE := Node([], Int32, Zeros(8), Nil, Nil)

  method Read(s: SectHead, soff: nat, ghost cells: map<nat, Cell>) returns (ent: Entity, json: Json)
    requires ExtRep(s.filp.bytes, s.View(), cells)
    requires s.fileOffset + soff in cells || DeadSlot(s.filp.bytes, s.fileOffset + soff)
    modifies s.filp
    ensures Same(old(s.filp.bytes), s.filp.bytes)
    ensures s.fileOffset + soff in cells ==>
      && CellWf(cells[s.fileOffset + soff])
      && ent == cells[s.fileOffset + soff].ent && json == CellNode(cells[s.fileOffset + soff])
    ensures s.fileOffset + soff !in cells ==> ent == ZERO_ENTITY && json == DEAD_NODE
  {
    hide At, ExtRep, EntBytes, Holds, DeadSlot, Same, HeadBytes, StrCopy;
    ghost var o, d := s.fileOffset + soff, s.filp.bytes;
    ent := RdItm(s, soff);
    if o in cells {
      CellBounds(d, s.View(), cells, o);
    }
    var key := s.Read(ent.keyPtr, ent.keySize);
    var ty := TypeOf(ent.ty);
    var val := [];
    if ty == String {
      var str := s.Read(ent.valPtr, ent.valSize);
      val := StrCopy(str);
      ReadBytes(d, s.View(), cells, o, ent, key, str);
    } else if ty != Object {
      var raw := s.Read(ent.valPtr, ent.valSize);
      val := if |raw| < 8 then raw + Zeros(8 - |raw|) else raw;
      ReadBytes(d, s.View(), cells, o, ent, key, raw);
    } else {
      ReadKeyBytes(d, s.View(), cells, o, ent, key);
    }
    json := Node(StrCopy(key), ty, val, Nil, Nil);
    if o !in cells {
      assert StrCopy([]) == [];
      assert [] + Zeros(8) == Zeros(8);
    }
    ExtHead(d, s.View(), cells);
    s.Sync();
    RewriteSame(d, s.filp.bytes, s.fileOffset, HeadBytes(s.View()));
  }

  lemma ExtHead(d: seq<byte>, h: Head, cells: map<nat, Cell>)
    requires ExtRep(d, h, cells)
    ensures Holds(d, h.base, HeadBytes(h))
  {
  }

  lemma ReadKeyBytes(d: seq<byte>, h: Head, cells: map<nat, Cell>, o: nat, ent: Entity, key: seq<byte>)
    requires ExtRep(d, h, cells) && Holds(d, h.base + ent.keyPtr, key) && |key| == ent.keySize
    requires if o in cells then ent == cells[o].ent else ent == ZERO_ENTITY
    ensures key == if o in cells then cells[o].key else []
  {
    hide ExtRep, Holds;
    if o in cells {
      CellRecord(d, h, cells, o);
      HoldsUnique(d, h.base + ent.keyPtr, key, cells[o].key);
    }
  }

  lemma ReadBytes(d: seq<byte>, h: Head, cells: map<nat, Cell>, o: nat, ent: Entity, key: seq<byte>, val: seq<byte>)
    requires ExtRep(d, h, cells) && Holds(d, h.base + ent.keyPtr, key) && |key| == ent.keySize
    requires Holds(d, h.base + ent.valPtr, val) && |val| == ent.valSize
    requires if o in cells then ent == cells[o].ent else ent == ZERO_ENTITY
    ensures key == if o in cells then cells[o].key else []
    ensures val == if o in cells then cells[o].val else []
  {
    hide ExtRep, Holds;
    ReadKeyBytes(d, h, cells, o, ent, key);
    if o in cells {
      CellRecord(d, h, cells, o);
      HoldsUnique(d, h.base + ent.valPtr, val, cells[o].val);
    }
  }

  // ---------------------------------------------------------------- delete

  lemma ZeroChain(
    d0: seq<byte>, d1: seq<byte>, d2: seq<byte>, d3: seq<byte>,
    base: nat, o: nat, e: Entry)
    requires base + HEAD_SIZE <= o && o + |e.item| <= base + SECTION_SIZE && e.Hi() <= SECTION_SIZE
    requires e.rec != [] ==> HEAD_SIZE <= e.lo
    requires SameOutside(d0, d1, base, base + HEAD_SIZE)
    requires Written(d1, d2, base + e.lo, Zeros(|e.rec|)) && Written(d2, d3, o, Zeros(|e.item|))
    ensures ZeroedOnDisk(d0, d3, base, o, e)
    ensures SameOutside(d0, d3, base, base + SECTION_SIZE)
  {
    hide At;
  }

  /** The scans ran before the last header writes, which they do not see. */
  lemma ScanChain(
    d3: seq<byte>, d4: seq<byte>, d5: seq<byte>, d6: seq<byte>,
    h: Head, h': Head, hb: seq<byte>)
    requires Roomy(h) && Aligned(Kind.Extents, h.lip - HEAD_SIZE) && |hb| == HEAD_SIZE
    requires LipScanned(d3, h.base, Kind.Extents, h.lip, h'.lip) && Written(d3, d4, h.base, hb)
    requires FrpScanned(d4, h.base, h.frp, h'.frp) && Written(d4, d5, h.base, HeadBytes(h'))
    requires Written(d5, d6, h.base, HeadBytes(h'))
    requires h' == WithFrp(WithLip(h, h'.lip), h'.frp)
    ensures Scanned(d6, Kind.Extents, h, h') && Holds(d6, h.base, HeadBytes(h'))
    ensures SameOutside(d3, d6, h.base, h.base + HEAD_SIZE)
  {
    hide At, Aligned, HeadBytes;
  }

  lemma DeleteCell(d: seq<byte>, h: Head, cells: map<nat, Cell>, o: nat)
    requires ExtRep(d, h, cells) && o in cells
    ensures ENT_SIZE <= h.lip && h.frp + |CellEntry(cells[o]).rec| < TWO_64 && h.free + ENT_SIZE + |CellEntry(cells[o]).rec| < TWO_64
    ensures Roomy(h) && Roomy(BeforeScans(h, o, CellEntry(cells[o])))
    ensures Aligned(Kind.Extents, BeforeScans(h, o, CellEntry(cells[o])).lip - HEAD_SIZE)
    ensures o in Entries(cells) && Entries(cells)[o] == CellEntry(cells[o])
    ensures cells[o].val + cells[o].key != [] ==> HEAD_SIZE <= cells[o].ent.valPtr
  {
    hide Aligned, EntBytes, Rep;
    var m := Entries(cells);
    assert o in m && m[o] == CellEntry(cells[o]);
    DeleteBounds(d, h, Kind.Extents, m, o);
    CellValPtr(d, h, cells, o);
  }

  /** A record never lies in the header. */
  lemma CellValPtr(d: seq<byte>, h: Head, cells: map<nat, Cell>, o: nat)
    requires ExtRep(d, h, cells) && o in cells
    ensures cells[o].val + cells[o].key != [] ==> HEAD_SIZE <= cells[o].ent.valPtr
  {
    hide Aligned, LiveTail, EntBytes, DeadZero, LipTight, FrpTight, Before, Holds;
    var m := Entries(cells);
    assert o in m && m[o] == CellEntry(cells[o]);
    assert EntryFits(h, Kind.Extents, o, m[o]);
  }

  /**
   Deletes the entity at `soff`. The section invariant survives exactly when the lowest
   remaining non-empty record begins with a non-zero byte.
   */
  method Delete(s: SectHead, soff: nat, ghost cells: map<nat, Cell>) returns (ent: Entity)
    requires ExtRep(s.filp.bytes, s.View(), cells)
    requires s.fileOffset + soff in cells
    modifies s, s.filp
    ensures ent == cells[s.fileOffset + soff].ent
    ensures LowestLed(Entries(cells - {s.fileOffset + soff})) <==>
      ExtRep(s.filp.bytes, s.View(), cells - {s.fileOffset + soff})
    ensures SameOutside(old(s.filp.bytes), s.filp.bytes, s.fileOffset, s.fileOffset + SECTION_SIZE)
  {
    hide At, ExtRep, Add64, Neg64, EntBytes, HeadBytes, Written, SameOutside, Holds, DeadSlot, LipScanned, FrpScanned, Aligned, ZeroedOnDisk, Scanned, LowestLed;
    ghost var o, h, d0 := s.fileOffset + soff, s.View(), s.filp.bytes;
    ghost var e := CellEntry(cells[o]);
    CellBounds(d0, h, cells, o);
    DeleteCell(d0, h, cells, o);
    ent := RdItm(s, soff);
    SameOutsideRefl(d0, s.fileOffset, s.fileOffset + HEAD_SIZE);
    if soff + ENT_SIZE == s.lstItmPtr {
      AddNeg(s.lstItmPtr, ENT_SIZE);
      AddNegNeg(s.freeSpace, ENT_SIZE);
      s.ShiftLip(Neg64(ENT_SIZE));
      HeadWritten(d0, d0, s.filp.bytes, s.fileOffset, HeadBytes(s.View()));
      ghost var d := s.filp.bytes;
      s.ShiftFrp(ent.keySize + ent.valSize);
      HeadWritten(d0, d, s.filp.bytes, s.fileOffset, HeadBytes(s.View()));
    }
    ghost var h1, d1 := s.View(), s.filp.bytes;
    assert h1 == BeforeScans(h, o, e);
    s.Write(ent.keyPtr - ent.valSize, Zeros(ent.keySize + ent.valSize));
    ghost var d2 := s.filp.bytes;
    s.Write(soff, Zeros(ENT_SIZE));
    ghost var d3 := s.filp.bytes;
    ZeroChain(d0, d1, d2, d3, s.fileOffset, o, e);
    s.CmprsLip(Kind.Extents);
    ghost var d4, hb := s.filp.bytes, HeadBytes(s.View());
    s.CmprsFrp();
    ghost var d5 := s.filp.bytes;
    s.Sync();
    ScanChain(d3, d4, d5, s.filp.bytes, h1, s.View(), hb);
    ZeroedFrame(d0, d3, s.filp.bytes, s.fileOffset, o, e);
    DeleteExtRep(d0, s.filp.bytes, h, s.View(), cells, o);
  }

  lemma AddNegNeg(a: u64, b: u64)
    requires a + b < TWO_64
    ensures Add64(a, Neg64(Neg64(b))) == a + b
  {
    if b != 0 {
      assert Neg64(b) == TWO_64 - b;
    }
  }

  lemma HeadWritten(d0: seq<byte>, d: seq<byte>, d': seq<byte>, base: nat, hb: seq<byte>)
    requires SameOutside(d0, d, base, base + HEAD_SIZE) && Written(d, d', base, hb) && |hb| == HEAD_SIZE
    ensures SameOutside(d0, d', base, base + HEAD_SIZE)
  {
    hide At;
  }

  lemma DeleteExtRep(d: seq<byte>, d': seq<byte>, h: Head, h': Head, cells: map<nat, Cell>, o: nat)
    requires ExtRep(d, h, cells) && o in cells
    requires ENT_SIZE <= h.lip && h.frp + |CellEntry(cells[o]).rec| < TWO_64 && h.free + ENT_SIZE + |CellEntry(cells[o]).rec| < TWO_64
    requires ZeroedOnDisk(d, d', h.base, o, CellEntry(cells[o]))
    requires Scanned(d', Kind.Extents, BeforeScans(h, o, CellEntry(cells[o])), h')
    requires Holds(d', h.base, HeadBytes(h'))
    ensures LowestLed(Entries(cells - {o})) <==> ExtRep(d', h', cells - {o})
  {
    hide Rep, EntBytes, HeadBytes, Holds, Scanned, ZeroedOnDisk, LowestLed;
    var m := Entries(cells);
    assert o in m && m[o] == CellEntry(cells[o]);
    DeleteRep(d, d', h, h', Kind.Extents, m, o);
    EntriesDrop(cells, o);
  }

  // ---------------------------------------------------------------- load

  /** The file offsets of the first `n` slots of a section. */
  function SlotOffs(base: nat, n: nat): (r: seq<nat>)
    ensures |r| == n && forall i :: 0 <= i < n ==> r[i] == base + HEAD_SIZE + ENT_SIZE * i
  {
    seq(n, i requires 0 <= i => base + HEAD_SIZE + ENT_SIZE * i)
  }

  /** A slot below lip either holds a live entity or is zero. */
  lemma SlotLiveOrDead(d: seq<byte>, h: Head, cells: map<nat, Cell>, i: nat)
    requires ExtRep(d, h, cells) && HEAD_SIZE + ENT_SIZE * i < h.lip
    ensures HEAD_SIZE + ENT_SIZE * i + ENT_SIZE <= h.lip
    ensures h.base + HEAD_SIZE + ENT_SIZE * i in cells || DeadSlot(d, h.base + HEAD_SIZE + ENT_SIZE * i)
  {
    hide At, LiveTail, LipTight, FrpTight, Holds, OnDisk, InRec, EntBytes, Aligned;
    var o, m := h.base + HEAD_SIZE + ENT_SIZE * i, Entries(cells);
    SlotAligned(i);
    AlignedGap(Kind.Extents, ENT_SIZE * i, h.lip - HEAD_SIZE);
    if o !in cells {
      forall p: nat | o <= p < o + ENT_SIZE ensures At(d, p) == 0 {
        if InItem(m, p) {
          var x :| x in m && x <= p < x + |m[x].item|;
          assert EntryFits(h, Kind.Extents, x, m[x]);
          SlotsApart(h.base + HEAD_SIZE, x, o);
          assert false;
        }
      }
    }
  }

  /** Two different slots do not overlap. */
  lemma SlotsApart(start: nat, x: nat, y: nat)
    requires start <= x && start <= y && x != y
    requires Aligned(Kind.Extents, x - start) && Aligned(Kind.Extents, y - start)
    ensures x + ENT_SIZE <= y || y + ENT_SIZE <= x
  {
    if x < y {
      AlignedGap(Kind.Extents, x - start, y - start);
    } else {
      AlignedGap(Kind.Extents, y - start, x - start);
    }
  }

  lemma SlotAligned(i: int)
    ensures Aligned(Kind.Extents, ENT_SIZE * i)
  {
    assert Slots(Kind.Extents, i) == ENT_SIZE * i;
  }

  /** Every live cell is one of the slots below lip. */
  lemma CellIsSlot(d: seq<byte>, h: Head, cells: map<nat, Cell>, o: nat) returns (i: nat)
    requires ExtRep(d, h, cells) && o in cells
    ensures o == h.base + HEAD_SIZE + ENT_SIZE * i && HEAD_SIZE + ENT_SIZE * i < h.lip
  {
    hide At, LiveTail, LipTight, FrpTight, Holds, OnDisk, DeadZero, EntBytes;
    var m := Entries(cells);
    assert o in m && EntryFits(h, Kind.Extents, o, m[o]);
    var n :| Slots(Kind.Extents, n) == o - h.base - HEAD_SIZE;
    i := n;
  }

  lemma ExtSame(d: seq<byte>, d': seq<byte>, h: Head, cells: map<nat, Cell>)
    requires ExtRep(d, h, cells) && SameOn(d, d', h.base, h.base + SECTION_SIZE)
    ensures ExtRep(d', h, cells)
  {
    hide Rep, At;
    RepFrame(d, d', h, Kind.Extents, Entries(cells));
  }

  /** Lists the offsets of all slots below lip, dead ones included, in slot order. */
  method Load(s: SectHead, ghost cells: map<nat, Cell>) returns (col: seq<nat>)
    requires ExtRep(s.filp.bytes, s.View(), cells)
    modifies s.filp
    ensures Same(old(s.filp.bytes), s.filp.bytes)
    ensures col == SlotOffs(s.fileOffset, |col|) && s.lstItmPtr == HEAD_SIZE + ENT_SIZE * |col|
  {
    hide ExtRep, DeadSlot, Same, SlotOffs;
    col := [];
    var i := HEAD_SIZE;
    SameRefl(s.filp.bytes);
    LipSlots(s.filp.bytes, s.View(), cells, 0);
    while i < s.lstItmPtr
      invariant HEAD_SIZE <= i == HEAD_SIZE + ENT_SIZE * |col| <= s.lstItmPtr
      invariant Same(old(s.filp.bytes), s.filp.bytes) && ExtRep(s.filp.bytes, s.View(), cells)
      invariant col == SlotOffs(s.fileOffset, |col|)
    {
      ghost var d := s.filp.bytes;
      SlotLiveOrDead(d, s.View(), cells, |col|);
      var ent, json := Read(s, i, cells);
      SameStep(old(s.filp.bytes), d, s.filp.bytes, s.View(), cells);
      SlotOffsNext(s.fileOffset, col);
      col := col + [s.fileOffset + i];
      i := i + ENT_SIZE;
    }
  }

  lemma LipSlots(d: seq<byte>, h: Head, cells: map<nat, Cell>, n: nat)
    requires ExtRep(d, h, cells)
    ensures HEAD_SIZE <= h.lip && SlotOffs(h.base, 0) == []
  {
  }

  lemma SlotOffsNext(base: nat, col: seq<nat>)
    requires col == SlotOffs(base, |col|)
    ensures col + [base + HEAD_SIZE + ENT_SIZE * |col|] == SlotOffs(base, |col| + 1)
  {
  }

  lemma SameRefl(d: seq<byte>)
    ensures Same(d, d)
  {
  }

  lemma SameStep(d0: seq<byte>, d: seq<byte>, d': seq<byte>, h: Head, cells: map<nat, Cell>)
    requires Same(d0, d) && Same(d, d') && ExtRep(d, h, cells)
    ensures Same(d0, d') && ExtRep(d', h, cells)
  {
    hide ExtRep, At;
    ExtSame(d, d', h, cells);
  }

  /** A section without live entities is as its constructor left it. */
  lemma NoCellsLeft(d: seq<byte>, h: Head)
    requires ExtRep(d, h, map[])
    ensures h == NewHead(h.base)
  {
    hide Rep;
    assert Entries(map[]) == map[];
    EmptyRep(d, h, Kind.Extents);
  }

  /** Deleting all live entities, in any order whatsoever, gives back the whole section. */
  method DeleteAll(s: SectHead, order: seq<nat>, ghost cells: map<nat, Cell>)
    requires ExtRep(s.filp.bytes, s.View(), cells) && CellsLed(cells) && Lists(s.fileOffset, order, cells)
    modifies s, s.filp
    ensures s.View() == NewHead(s.fileOffset) && ExtRep(s.filp.bytes, s.View(), map[])
  {
    hide ExtRep, LowestLed, Lists, At;
    ghost var rest := cells;
    for i := 0 to |order|
      invariant ExtRep(s.filp.bytes, s.View(), rest) && CellsLed(rest) && Lists(s.fileOffset, order[i..], rest)
    {
      assert order[i..][1..] == order[i + 1..];
      ListsRest(s.fileOffset, order[i..], rest);
      assert order[i..][0] == order[i];
      ghost var o := s.fileOffset + order[i];
      var gone := Delete(s, order[i], rest);
      rest := rest - {o};
      LedEntries(rest);
    }
    ListsNone(s.fileOffset, order[|order|..], rest);
    NoCellsLeft(s.filp.bytes, s.View());
  }

  /** A stored `false`: its record begins with a zero byte, and a later delete next to it breaks the section. */
  lemma FalseIsNotLed(o: nat, ent: Entity, key: seq<byte>)
    ensures var c := Cell(ent, key, Zeros(8));
      ReadVal(Bool, c.val) == c.val && !LowestLed(Entries(map[o := c]))
  {
    hide EntBytes;
    var m := Entries(map[o := Cell(ent, key, Zeros(8))]);
    assert m[o].rec[0] == 0;
    assert Lowest(m, o);
  }
}
