/** sect_ext_update: one entity rewritten in its section, by one of three routes. */
module Update {
  import opened Bytes
  import opened Disk
  import opened Section
  import opened SectionHeader
  import opened Json
  import opened Extents

  /** Everything that is live can be read: items and records are where the entities say. */
  ghost predicate Legible(d: seq<byte>, base: nat, cells: map<nat, Cell>) {
    CellsWf(cells) && OnDisk(d, base, Entries(cells))
  }

  /** The record of the old entity is the lowest one. */
  predicate AtBorder(h: Head, c: Cell) {
    c.ent.valPtr == h.frp
  }

  function RecLen(c: Cell): nat {
    |c.key| + |c.val|
  }

  /** When an update succeeds. */
  predicate Succeeds(h: Head, c: Cell, n: nat) {
    if AtBorder(h, c) then n <= RecLen(c) + h.free else n <= RecLen(c) || ENT_SIZE + n <= h.free
  }

  /** When the record has to move into free space; the old one is then deleted. */
  predicate Moves(h: Head, c: Cell, n: nat) {
    !AtBorder(h, c) && RecLen(c) < n <= h.free
  }

  /** The byte range of section offsets [lo, hi) meets no record but that of `o`, and no item. */
  ghost predicate RangeFree(h: Head, cells: map<nat, Cell>, o: nat, lo: nat, hi: nat) {
    && h.lip <= lo && HEAD_SIZE <= lo
    && forall x :: x in cells && x != o ==>
         CellEntry(cells[x]).rec == [] || hi <= CellEntry(cells[x]).lo || CellEntry(cells[x]).Hi() <= lo
  }

  lemma Neighbours(d: seq<byte>, h: Head, cells: map<nat, Cell>, o: nat, x: nat)
    requires ExtRep(d, h, cells) && o in cells && x in cells && x != o
    ensures var e, e' := CellEntry(cells[o]), CellEntry(cells[x]);
      && (x + ENT_SIZE <= o || o + ENT_SIZE <= x)
      && (e'.rec != [] ==> h.frp <= e'.lo)
      && (e.rec != [] && e'.rec != [] ==> e.Hi() <= e'.lo || (e'.Hi() <= e.lo && o < x))
      && h.base + HEAD_SIZE <= x && x + ENT_SIZE <= h.base + h.lip
  {
    hide Aligned, LiveTail, EntBytes, DeadZero, LipTight, FrpTight, OnDisk, Holds;
    var m := Entries(cells);
    assert o in m && x in m && m[o] == CellEntry(cells[o]) && m[x] == CellEntry(cells[x]);
    assert EntryFits(h, Kind.Extents, x, m[x]) && EntryFits(h, Kind.Extents, o, m[o]);
    if x < o {
      assert Before(x, m[x], o, m[o]);
    } else {
      assert Before(o, m[o], x, m[x]);
    }
  }

  /** A border record with room below it, and a record's own place: both are free ranges. */
  lemma OwnRangeFree(d: seq<byte>, h: Head, cells: map<nat, Cell>, o: nat, lo: nat)
    requires ExtRep(d, h, cells) && o in cells && CellEntry(cells[o]).rec != []
    requires h.lip <= lo
    requires AtBorder(h, cells[o]) || CellEntry(cells[o]).lo <= lo
    ensures RangeFree(h, cells, o, lo, CellEntry(cells[o]).Hi())
  {
    hide ExtRep, EntBytes;
    ExtRoomy(d, h, cells);
    forall x | x in cells && x != o
      ensures CellEntry(cells[x]).rec == [] || CellEntry(cells[o]).Hi() <= CellEntry(cells[x]).lo || CellEntry(cells[x]).Hi() <= lo
    {
      Neighbours(d, h, cells, o, x);
    }
  }

  /** The free space is a free range. */
  lemma GapRangeFree(d: seq<byte>, h: Head, cells: map<nat, Cell>, o: nat, lo: nat)
    requires ExtRep(d, h, cells) && o !in cells && h.lip <= lo
    ensures RangeFree(h, cells, o, lo, h.frp)
  {
    hide Aligned, LiveTail, EntBytes, DeadZero, LipTight, FrpTight, OnDisk, Holds, Before;
    var m := Entries(cells);
    forall x | x in cells ensures CellEntry(cells[x]).rec == [] || h.frp <= CellEntry(cells[x]).lo {
      assert x in m && EntryFits(h, Kind.Extents, x, m[x]);
    }
  }

  lemma OtherLegible(d: seq<byte>, d': seq<byte>, h: Head, ht: Head, ht': Head, cells: map<nat, Cell>, o: nat, x: nat, item: seq<byte>, rec: seq<byte>)
    requires ExtRep(d, h, cells) && x in cells && x != o && |item| == ENT_SIZE
    requires (x + ENT_SIZE <= o || o + ENT_SIZE <= x) && o + ENT_SIZE <= h.base + h.lip
    requires ht.base == h.base && h.base + ht.lip == o && RangeFree(h, cells, o, ht'.frp, ht'.frp + |rec|)
    requires RawWritten(d, d', ht, ht', item, rec)
    ensures Holds(d', x, EntBytes(cells[x].ent)) && Holds(d', h.base + cells[x].ent.valPtr, cells[x].val + cells[x].key)
  {
    hide At, ExtRep, EntBytes, HeadBytes;
    CellBounds(d, h, cells, x);
    CellValPtr(d, h, cells, x);
    assert CellEntry(cells[x]).lo == cells[x].ent.valPtr && CellEntry(cells[x]).rec == cells[x].val + cells[x].key;
    NeighbourRange(d, h, cells, x);
  }

  /** Records lie above all items. */
  lemma NeighbourRange(d: seq<byte>, h: Head, cells: map<nat, Cell>, x: nat)
    requires ExtRep(d, h, cells) && x in cells
    ensures cells[x].val + cells[x].key != [] ==> h.lip <= h.frp <= cells[x].ent.valPtr
    ensures h.base + HEAD_SIZE <= x && x + ENT_SIZE <= h.base + h.lip
  {
    hide Aligned, LiveTail, EntBytes, DeadZero, LipTight, FrpTight, OnDisk, Holds, Before;
    var m := Entries(cells);
    assert x in m && m[x] == CellEntry(cells[x]) && EntryFits(h, Kind.Extents, x, m[x]);
  }

  lemma LegibleWithout(d: seq<byte>, d': seq<byte>, base: nat, cells: map<nat, Cell>, o: nat, c: Cell)
    requires CellsWf(cells) && CellWf(c)
    requires Holds(d', o, EntBytes(c.ent)) && Holds(d', base + c.ent.valPtr, c.val + c.key)
    requires forall x :: x in cells && x != o ==>
      Holds(d', x, EntBytes(cells[x].ent)) && Holds(d', base + cells[x].ent.valPtr, cells[x].val + cells[x].key)
    ensures Legible(d', base, cells[o := c])
  {
    hide At, EntBytes, Holds;
  }

  /** Writing into a free range leaves everything legible, and the entity with its new contents. */
  lemma RawLegible(d: seq<byte>, d': seq<byte>, h: Head, ht: Head, ht': Head, cells: map<nat, Cell>, o: nat, c: Cell)
    requires ExtRep(d, h, cells) && CellWf(c)
    requires forall x :: x in cells && x != o ==> x + ENT_SIZE <= o || o + ENT_SIZE <= x
    requires o + ENT_SIZE <= h.base + h.lip
    requires ht.base == h.base && h.base + ht.lip == o && ht'.frp == c.ent.valPtr
    requires RangeFree(h, cells, o, ht'.frp, ht'.frp + |c.val + c.key|)
    requires RawWritten(d, d', ht, ht', EntBytes(c.ent), c.val + c.key)
    ensures Legible(d', h.base, cells[o := c])
  {
    hide At, ExtRep, EntBytes, Holds, RangeFree, CellWf, Untouched;
    forall x | x in cells && x != o
      ensures Holds(d', x, EntBytes(cells[x].ent)) && Holds(d', h.base + cells[x].ent.valPtr, cells[x].val + cells[x].key)
    {
      OtherLegible(d, d', h, ht, ht', cells, o, x, EntBytes(c.ent), c.val + c.key);
    }
    ExtCellsWf(d, h, cells);
    LegibleWithout(d, d', h.base, cells, o, c);
  }

  lemma ExtCellsWf(d: seq<byte>, h: Head, cells: map<nat, Cell>)
    requires ExtRep(d, h, cells)
    ensures CellsWf(cells)
  {
  }

  /** No item and no record reaches into the section header. */
  ghost predicate ClearOfHead(base: nat, cells: map<nat, Cell>) {
    forall x :: x in cells ==> base + HEAD_SIZE <= x && (cells[x].val + cells[x].key != [] ==> HEAD_SIZE <= cells[x].ent.valPtr)
  }

  /** Header writes do not disturb what is legible. */
  lemma SyncLegible(d: seq<byte>, d': seq<byte>, base: nat, cells: map<nat, Cell>, hb: seq<byte>)
    requires Legible(d, base, cells) && Written(d, d', base, hb) && |hb| == HEAD_SIZE
    requires ClearOfHead(base, cells)
    ensures Legible(d', base, cells)
  {
    hide At, EntBytes, Holds, CellWf;
    forall x | x in cells
      ensures Holds(d', x, EntBytes(cells[x].ent)) && Holds(d', base + cells[x].ent.valPtr, cells[x].val + cells[x].key)
    {
      var e := Entries(cells)[x];
      assert Holds(d, x, e.item) && Holds(d, base + e.lo, e.rec);
      SyncHolds(d, d', base, hb, x, e.item);
      SyncHolds(d, d', base, hb, base + e.lo, e.rec);
    }
  }

  lemma SyncHolds(d: seq<byte>, d': seq<byte>, base: nat, hb: seq<byte>, off: nat, s: seq<byte>)
    requires Holds(d, off, s) && Written(d, d', base, hb) && |hb| == HEAD_SIZE
    requires s != [] ==> base + HEAD_SIZE <= off
    ensures Holds(d', off, s)
  {
    hide At;
  }

  /** The new entity with its pointers, as the write leaves it. */
  ghost predicate NewEntity(ent': Entity, ent: Entity, init: nat) {
    ent'.initRecSz == init && ent' == ent.(initRecSz := ent'.initRecSz, keyPtr := ent'.keyPtr, valPtr := ent'.valPtr)
  }

  /**
   What is asked of the caller: a live entity as a write left it, the header of the new one, and,
   if the old record has to be deleted, that what remains can be scanned.
   */
  ghost predicate Updatable(d: seq<byte>, h: Head, cells: map<nat, Cell>, o: nat, key: seq<byte>, val: seq<byte>, ent: Entity) {
    && ExtRep(d, h, cells) && o in cells
    && RecLen(cells[o]) > 0 && cells[o].ent.initRecSz == RecLen(cells[o])
    && (Moves(h, cells[o], |key| + |val|) ==> LowestLed(Entries(cells - {o})))
    && ENT_SIZE + |key| + |val| < TWO_64 && ent.initRecSz == |key| + |val|
    && ent.keySize == |key| && ent.valSize == |val| && ent.ty <= 4 && ValWf(TypeOf(ent.ty), val)
  }

  /** The outcome of an update that succeeds. */
  ghost predicate Updated(d': seq<byte>, h: Head, h': Head, cells: map<nat, Cell>, o: nat, key: seq<byte>, val: seq<byte>, ent: Entity, ent': Entity)
    requires o in cells
  {
    && NewEntity(ent', ent, if |key| + |val| < RecLen(cells[o]) then RecLen(cells[o]) else |key| + |val|)
    && Legible(d', h.base, cells[o := Cell(ent', key, val)])
    && h'.base == h.base && h'.lip == h.lip && Roomy(h')
  }

  lemma UpdatedBounds(d: seq<byte>, h: Head, cells: map<nat, Cell>, o: nat)
    requires ExtRep(d, h, cells) && o in cells && RecLen(cells[o]) > 0
    ensures Roomy(h) && h.base + HEAD_SIZE <= o && o + ENT_SIZE <= h.base + h.lip
    ensures CellWf(cells[o]) && cells[o].ent.keySize == |cells[o].key| && h.frp <= cells[o].ent.valPtr && cells[o].ent.valPtr + RecLen(cells[o]) == cells[o].ent.keyPtr + |cells[o].key| <= SECTION_SIZE
    ensures |CellEntry(cells[o]).rec| == RecLen(cells[o]) && CellEntry(cells[o]).rec != []
    ensures CellEntry(cells[o]).Hi() == cells[o].ent.valPtr + RecLen(cells[o])
    ensures Holds(d, h.base, HeadBytes(h))
  {
    hide ExtRep, EntBytes, Holds, HeadBytes;
    CellBounds(d, h, cells, o);
    ExtRoomy(d, h, cells);
    ExtHead(d, h, cells);
    NeighbourRange(d, h, cells, o);
  }

  lemma CellPlaces(d: seq<byte>, h: Head, cells: map<nat, Cell>, o: nat)
    requires ExtRep(d, h, cells) && o in cells
    ensures forall x :: x in cells && x != o ==> x + ENT_SIZE <= o || o + ENT_SIZE <= x
    ensures ClearOfHead(h.base, cells)
  {
    hide ExtRep, EntBytes;
    ExtRoomy(d, h, cells);
    forall x | x in cells && x != o ensures x + ENT_SIZE <= o || o + ENT_SIZE <= x {
      Neighbours(d, h, cells, o, x);
    }
    forall x | x in cells ensures h.base + HEAD_SIZE <= x && (cells[x].val + cells[x].key != [] ==> HEAD_SIZE <= cells[x].ent.valPtr) {
      NeighbourRange(d, h, cells, x);
    }
  }

  /** After the raw write: the section with the new cell in place of the old one. */
  lemma WrittenInPlace(d: seq<byte>, d': seq<byte>, h: Head, ht: Head, ht': Head, cells: map<nat, Cell>, o: nat, c: Cell, hi: nat)
    requires ExtRep(d, h, cells) && o in cells && RecLen(cells[o]) > 0 && CellWf(c)
    requires hi == cells[o].ent.valPtr + RecLen(cells[o]) && RecLen(c) <= hi
    requires AtBorder(h, cells[o]) || RecLen(c) <= RecLen(cells[o])
    requires ht.base == h.base && h.base + ht.lip == o && ht'.frp == c.ent.valPtr == hi - RecLen(c) && h.lip <= c.ent.valPtr
    requires RawWritten(d, d', ht, ht', EntBytes(c.ent), c.val + c.key)
    ensures Legible(d', h.base, cells[o := c])
  {
    hide ExtRep, EntBytes, Holds, RawWritten, RangeFree, CellWf;
    UpdatedBounds(d, h, cells, o);
    CellPlaces(d, h, cells, o);
    OwnRangeFree(d, h, cells, o, c.ent.valPtr);
    RawLegible(d, d', h, ht, ht', cells, o, c);
  }

  lemma NewCellAbove(d: seq<byte>, h: Head, cells: map<nat, Cell>, o: nat, c: Cell)
    requires ExtRep(d, h, cells) && o in cells && HEAD_SIZE <= c.ent.valPtr
    ensures ClearOfHead(h.base, cells[o := c])
  {
    hide ExtRep, EntBytes;
    CellPlaces(d, h, cells, o);
    CellBounds(d, h, cells, o);
  }

  /** The border record: its space is given back, and the new record takes it from the top. */
  method UpdateBorder(s: SectHead, soff: u64, key: seq<byte>, val: seq<byte>, ent: Entity, oldInit: nat, init: u64, ghost cells: map<nat, Cell>)
    returns (ok: bool, ent': Entity)
    requires s.fileOffset + soff in cells && Updatable(s.filp.bytes, s.View(), cells, s.fileOffset + soff, key, val, ent)
    requires AtBorder(s.View(), cells[s.fileOffset + soff]) && oldInit == RecLen(cells[s.fileOffset + soff])
    requires |key| + |val| <= oldInit + s.freeSpace
    requires init == if |key| + |val| < oldInit then oldInit else |key| + |val|
    modifies s, s.filp
    ensures ok
    ensures Updated(s.filp.bytes, old(s.View()), s.View(), cells, s.fileOffset + soff, key, val, ent, ent')
    ensures Holds(s.filp.bytes, s.fileOffset, HeadBytes(s.View()))
  {
    hide At, ExtRep, EntBytes, HeadBytes, Legible, RawWritten, Written, Holds, CellWf, ValWf;
    ghost var o, h, d0 := s.fileOffset + soff, s.View(), s.filp.bytes;
    UpdatedBounds(d0, h, cells, o);
    var prevLip := s.lstItmPtr;
    s.lstItmPtr := soff;
    s.fstRecPtr := s.fstRecPtr + oldInit;
    s.freeSpace := s.fstRecPtr - s.lstItmPtr;
    ghost var ht := s.View();
    var saveAddr: nat;
    ok, saveAddr, ent' := Write(s, key, val, ent.(initRecSz := init));
    ghost var d1, ht' := s.filp.bytes, s.View();
    ghost var c := Cell(ent', key, val);
    NewCellWf(c);
    WrittenInPlace(d0, d1, h, ht, ht', cells, o, c, cells[o].ent.valPtr + oldInit);
    NewCellAbove(d0, h, cells, o, c);
    s.lstItmPtr := prevLip;
    s.freeSpace := s.fstRecPtr - s.lstItmPtr;
    s.Sync();
    SyncLegible(d1, s.filp.bytes, s.fileOffset, cells[o := c], HeadBytes(s.View()));
    HeadHolds(d1, s.filp.bytes, s.fileOffset, HeadBytes(s.View()));
  }

  lemma NewCellWf(c: Cell)
    requires c.ent.keySize == |c.key| && c.ent.valSize == |c.val| && c.ent.ty <= 4 && ValWf(TypeOf(c.ent.ty), c.val)
    requires c.ent.keyPtr == c.ent.valPtr + |c.val| && c.ent.valPtr > 0
    ensures CellWf(c)
  {
  }

  lemma HeadHolds(d: seq<byte>, d': seq<byte>, base: nat, hb: seq<byte>)
    requires Written(d, d', base, hb)
    ensures Holds(d', base, hb)
  {
    hide At;
  }

  /** The gap of the old record takes the new one, pressed against its upper end. The header on disk goes stale. */
  method UpdateGap(s: SectHead, soff: u64, key: seq<byte>, val: seq<byte>, ent: Entity, old_entity: Entity, init: u64, ghost cells: map<nat, Cell>)
    returns (ok: bool, ent': Entity)
    requires s.fileOffset + soff in cells && Updatable(s.filp.bytes, s.View(), cells, s.fileOffset + soff, key, val, ent)
    requires old_entity == cells[s.fileOffset + soff].ent && !AtBorder(s.View(), cells[s.fileOffset + soff])
    requires |key| + |val| <= RecLen(cells[s.fileOffset + soff]) == init
    modifies s, s.filp
    ensures ok && s.View() == old(s.View())
    ensures Updated(s.filp.bytes, old(s.View()), s.View(), cells, s.fileOffset + soff, key, val, ent, ent')
    ensures !Holds(s.filp.bytes, s.fileOffset, HeadBytes(s.View()))
  {
    hide At, ExtRep, EntBytes, HeadBytes, Legible, RawWritten, Written, Holds, CellWf, ValWf;
    ghost var o, h, d0 := s.fileOffset + soff, s.View(), s.filp.bytes;
    UpdatedBounds(d0, h, cells, o);
    var prevLip, prevFrp := s.lstItmPtr, s.fstRecPtr;
    s.lstItmPtr := soff;
    s.fstRecPtr := old_entity.keyPtr + old_entity.keySize;
    s.freeSpace := s.fstRecPtr - s.lstItmPtr;
    ghost var ht := s.View();
    var saveAddr: nat;
    ok, saveAddr, ent' := Write(s, key, val, ent.(initRecSz := init));
    ghost var ht' := s.View();
    ghost var c := Cell(ent', key, val);
    NewCellWf(c);
    WrittenInPlace(d0, s.filp.bytes, h, ht, ht', cells, o, c, cells[o].ent.valPtr + RecLen(cells[o]));
    s.lstItmPtr := prevLip;
    s.fstRecPtr := prevFrp;
    s.freeSpace := s.fstRecPtr - s.lstItmPtr;
    RawHead(d0, s.filp.bytes, ht, ht', EntBytes(ent'), val + key);
    HeadStale(s.filp.bytes, ht', s.View());
  }

  lemma RawHead(d: seq<byte>, d': seq<byte>, h: Head, h': Head, item: seq<byte>, rec: seq<byte>)
    requires RawWritten(d, d', h, h', item, rec)
    ensures Holds(d', h.base, HeadBytes(h'))
  {
    hide Holds, HeadBytes, Untouched;
  }

  /** Two headers that differ cannot both be on disk. */
  lemma HeadStale(d: seq<byte>, h: Head, h': Head)
    requires Holds(d, h.base, HeadBytes(h)) && h.base == h'.base && h.frp != h'.frp
    ensures !Holds(d, h.base, HeadBytes(h'))
  {
    hide At, Holds, Words;
    var a, b := [h.free, h.next, h.lip, h.frp], [h'.free, h'.next, h'.lip, h'.frp];
    assert a[3] != b[3];
    WordsRoundTrip(a);
    WordsRoundTrip(b);
    if Holds(d, h.base, HeadBytes(h')) {
      HoldsUnique(d, h.base, HeadBytes(h), HeadBytes(h'));
    }
  }

  /** Deleting an entry that does not end at lip does not move lip. */
  lemma InnerDropLip(h: Head, h': Head, k: Kind, m: map<nat, Entry>, o: nat)
    requires Layout(h, k, m) && LipTight(h, m) && Layout(h', k, m - {o}) && LipTight(h', m - {o}) && h.base == h'.base
    requires o in m && o + |m[o].item| != h.base + h.lip
    ensures h'.lip == h.lip
  {
    hide Aligned, LiveTail, Before;
    var m' := m - {o};
    assert EntryFits(h, k, o, m[o]);
    var x :| x in m && x + |m[x].item| == h.base + h.lip;
    assert x in m' && EntryFits(h', k, x, m'[x]);
    if h'.lip != HEAD_SIZE {
      var y :| y in m' && y + |m'[y].item| == h.base + h'.lip;
      assert EntryFits(h, k, y, m[y]);
    }
  }

  /** Deleting an entry whose record does not begin at frp does not move frp. */
  lemma InnerDropFrp(h: Head, h': Head, k: Kind, m: map<nat, Entry>, o: nat)
    requires Layout(h, k, m) && FrpTight(h, m) && Layout(h', k, m - {o}) && FrpTight(h', m - {o}) && h.base == h'.base
    requires o in m && m[o].rec != [] && m[o].lo != h.frp
    ensures h'.frp == h.frp
  {
    hide Aligned, LiveTail, Before;
    var m' := m - {o};
    assert EntryFits(h, k, o, m[o]);
    var z :| z in m && m[z].lo == h.frp && m[z].rec != [];
    assert z in m' && EntryFits(h', k, z, m'[z]);
    if h'.frp != SECTION_SIZE {
      var y :| y in m' && m'[y].lo == h'.frp && m'[y].rec != [];
      assert EntryFits(h, k, y, m[y]);
    }
  }

  /** Deleting an inner entry moves neither pointer. */
  lemma InnerDrop(d: seq<byte>, h: Head, d': seq<byte>, h': Head, k: Kind, m: map<nat, Entry>, o: nat)
    requires Rep(d, h, k, m) && o in m && Rep(d', h', k, m - {o}) && h.base == h'.base
    requires m[o].rec != [] && m[o].lo != h.frp
    ensures h' == h
  {
    hide Aligned, LiveTail, OnDisk, DeadZero, Holds, HeadBytes, Before, EntryFits, LipTight, FrpTight;
    if o + |m[o].item| == h.base + h.lip {
      BorderRecord(h, k, m, o);
    }
    InnerDropLip(h, h', k, m, o);
    InnerDropFrp(h, h', k, m, o);
  }

  lemma InnerDropExt(d: seq<byte>, h: Head, d': seq<byte>, h': Head, cells: map<nat, Cell>, o: nat)
    requires ExtRep(d, h, cells) && o in cells && ExtRep(d', h', cells - {o}) && h.base == h'.base
    requires RecLen(cells[o]) > 0 && !AtBorder(h, cells[o])
    ensures h' == h
  {
    hide Rep, EntBytes;
    EntriesDrop(cells, o);
    var m := Entries(cells);
    assert o in m && m[o] == CellEntry(cells[o]);
    InnerDrop(d, h, d', h', Kind.Extents, m, o);
  }

  /** After the raw write of a moved record: the new cell, where the old one is already gone. */
  lemma WrittenMoved(d: seq<byte>, d': seq<byte>, h: Head, ht: Head, ht': Head, cells: map<nat, Cell>, o: nat, c: Cell)
    requires ExtRep(d, h, cells) && o !in cells && CellWf(c)
    requires forall x :: x in cells ==> x + ENT_SIZE <= o || o + ENT_SIZE <= x
    requires h.base + HEAD_SIZE <= o && o + ENT_SIZE <= h.base + h.lip
    requires ht.base == h.base && h.base + ht.lip == o && ht'.frp == c.ent.valPtr == h.frp - RecLen(c) && h.lip <= c.ent.valPtr
    requires RawWritten(d, d', ht, ht', EntBytes(c.ent), c.val + c.key)
    ensures Legible(d', h.base, cells[o := c])
  {
    hide ExtRep, EntBytes, Holds, RawWritten, RangeFree, CellWf;
    GapRangeFree(d, h, cells, o, c.ent.valPtr);
    RawLegible(d, d', h, ht, ht', cells, o, c);
  }

  /**
   The record moves into free space. The entity is deleted first; the write then asks for room for
   an entity as well, and when there is room for the record only, the entity is lost.
   */
  method UpdateMove(s: SectHead, soff: u64, key: seq<byte>, val: seq<byte>, ent: Entity, ghost cells: map<nat, Cell>)
    returns (ok: bool, ent': Entity)
    requires s.fileOffset + soff in cells && Updatable(s.filp.bytes, s.View(), cells, s.fileOffset + soff, key, val, ent)
    requires !AtBorder(s.View(), cells[s.fileOffset + soff])
    requires RecLen(cells[s.fileOffset + soff]) < |key| + |val| <= s.freeSpace
    modifies s, s.filp
    ensures ok <==> ENT_SIZE + |key| + |val| <= old(s.freeSpace)
    ensures ok ==> Updated(s.filp.bytes, old(s.View()), s.View(), cells, s.fileOffset + soff, key, val, ent, ent')
    ensures ok ==> Holds(s.filp.bytes, s.fileOffset, HeadBytes(s.View()))
    ensures !ok ==> s.View() == old(s.View()).(lip := soff) && ExtRep(s.filp.bytes, old(s.View()), cells - {s.fileOffset + soff})
  {
    hide At, ExtRep, EntBytes, HeadBytes, Legible, RawWritten, Written, Holds, CellWf, ValWf, LowestLed, Entries;
    ghost var o, h, d0 := s.fileOffset + soff, s.View(), s.filp.bytes;
    UpdatedBounds(d0, h, cells, o);
    CellPlaces(d0, h, cells, o);
    var gone := Delete(s, soff, cells);
    InnerDropExt(d0, h, s.filp.bytes, s.View(), cells, o);
    ghost var d1 := s.filp.bytes;
    var prevLip := s.lstItmPtr;
    s.lstItmPtr := soff;
    ghost var ht := s.View();
    var saveAddr: nat;
    ok, saveAddr, ent' := Write(s, key, val, ent);
    if ok {
      ghost var d2, ht' := s.filp.bytes, s.View();
      ghost var c := Cell(ent', key, val);
      NewCellWf(c);
      WrittenMoved(d1, d2, h, ht, ht', cells - {o}, o, c);
      NewCellAbove(d0, h, cells, o, c);
      assert (cells - {o})[o := c] == cells[o := c];
      s.lstItmPtr := prevLip;
      s.freeSpace := s.fstRecPtr - s.lstItmPtr;
      s.Sync();
      SyncLegible(d2, s.filp.bytes, s.fileOffset, cells[o := c], HeadBytes(s.View()));
      HeadHolds(d2, s.filp.bytes, s.fileOffset, HeadBytes(s.View()));
    }
  }

  /**
   sect_ext_update on a section that only writes and deletes have touched. It says exactly when the
   update succeeds; what holds then; when the header on disk is left stale; and what a failure costs.
   */
  method ExtUpdate(s: SectHead, soff: u64, key: seq<byte>, val: seq<byte>, newEnt: Entity, ghost cells: map<nat, Cell>)
    returns (ok: bool, ent': Entity)
    requires s.fileOffset + soff in cells && Updatable(s.filp.bytes, s.View(), cells, s.fileOffset + soff, key, val, newEnt)
    modifies s, s.filp
    ensures ok <==> Succeeds(old(s.View()), cells[s.fileOffset + soff], |key| + |val|)
    ensures ok ==> Updated(s.filp.bytes, old(s.View()), s.View(), cells, s.fileOffset + soff, key, val, newEnt, ent')
    ensures ok ==> (Holds(s.filp.bytes, s.fileOffset, HeadBytes(s.View())) <==>
      AtBorder(old(s.View()), cells[s.fileOffset + soff]) || RecLen(cells[s.fileOffset + soff]) < |key| + |val|)
    ensures !ok && (AtBorder(old(s.View()), cells[s.fileOffset + soff]) || old(s.freeSpace) < |key| + |val|) ==>
      s.View() == old(s.View()) && s.filp.bytes == old(s.filp.bytes)
    ensures !ok && !AtBorder(old(s.View()), cells[s.fileOffset + soff]) && |key| + |val| <= old(s.freeSpace) ==>
      s.View() == old(s.View()).(lip := soff) && ExtRep(s.filp.bytes, old(s.View()), cells - {s.fileOffset + soff})
  {
    hide At, ExtRep, EntBytes, HeadBytes, Legible, Holds, ValWf;
    ghost var o, h, d0 := s.fileOffset + soff, s.View(), s.filp.bytes;
    UpdatedBounds(d0, h, cells, o);
    CellBounds(d0, h, cells, o);
    var oldEnt := RdItm(s, soff);
    ent' := newEnt;
    var init := newEnt.initRecSz;
    if init < oldEnt.initRecSz {
      init := oldEnt.initRecSz;
    }
    if oldEnt.keyPtr - oldEnt.valSize == s.fstRecPtr {
      if s.freeSpace + oldEnt.initRecSz >= init {
        ok, ent' := UpdateBorder(s, soff, key, val, newEnt, oldEnt.initRecSz, init, cells);
        return;
      }
    } else {
      if init > oldEnt.initRecSz {
        if s.freeSpace >= newEnt.keySize + newEnt.valSize {
          ok, ent' := UpdateMove(s, soff, key, val, newEnt, cells);
          return;
        }
      } else {
        ok, ent' := UpdateGap(s, soff, key, val, newEnt, oldEnt, init, cells);
        return;
      }
    }
    ok := false;
  }

  /** What anyone reads at a legible entity's offset, and where it points, is that entity, its key and its value. */
  lemma LegibleReads(d: seq<byte>, base: nat, cells: map<nat, Cell>, o: nat, item: seq<byte>, key: seq<byte>, val: seq<byte>)
    requires Legible(d, base, cells) && o in cells
    requires |item| == ENT_SIZE && Holds(d, o, item)
    requires |key| == DecodeEnt(item).keySize && Holds(d, base + DecodeEnt(item).keyPtr, key)
    requires |val| == DecodeEnt(item).valSize && Holds(d, base + DecodeEnt(item).valPtr, val)
    ensures DecodeEnt(item) == cells[o].ent && key == cells[o].key && val == cells[o].val
  {
    hide EntBytes, DecodeEnt, Holds;
    var c := cells[o];
    assert Entries(cells)[o] == CellEntry(c);
    HoldsUnique(d, o, item, EntBytes(c.ent));
    EntRoundTrip(c.ent);
    HoldsSplit(d, base + c.ent.valPtr, c.val, c.key);
    HoldsUnique(d, base + c.ent.valPtr, val, c.val);
    HoldsUnique(d, base + c.ent.keyPtr, key, c.key);
  }

  lemma HoldsSplit(d: seq<byte>, off: nat, s: seq<byte>, t: seq<byte>)
    requires Holds(d, off, s + t)
    ensures Holds(d, off, s) && Holds(d, off + |s|, t)
  {
    hide At;
    forall p | off + |s| <= p < off + |s| + |t| ensures At(d, p) == t[p - (off + |s|)] {
      assert (s + t)[p - off] == t[p - (off + |s|)];
    }
  }
}
