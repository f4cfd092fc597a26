/** What one root delete or one root write does to the forest and to a live iterator. */
module Commands {
  import opened Bytes
  import opened Disk
  import opened Section
  import opened Json
  import opened Extents
  import opened Types
  import opened Store
  import opened File
  import opened Forest
  import opened Query
  import opened Find
  import opened Iterator

  /** A tree that carries a type is a root: it has no dad and no brothers. */
  ghost predicate TypedTops(cells: map<nat, Cell>, fo: map<nat, Shape>) {
    forall r :: r in fo && r in cells && fo[r].Spot? && cells[r].ent.typePtr != 0 ==> cells[r].ent.dadPtr == 0 && fo[r].bro == Empty
  }

  /** A sound file with a forest in it, wherever the types of its trees may be. */
  ghost predicate Rooted(f: File, fo: map<nat, Shape>)
    reads f, f.filp, f.fExtent, f.fTypes
  {
    f.Valid() && IsForest(f.cells, fo) && Treed(f.cells) && TypedTops(f.cells, fo)
  }

  /** The database invariant: every command keeps it, whether it succeeds or fails. */
  ghost predicate Sound(f: File, fo: map<nat, Shape>)
    reads f, f.filp, f.fExtent, f.fTypes
  {
    Rooted(f, fo) && TypesLive(f.cells, f.tcells)
  }

  /** The same with what deleting needs: no stored record begins with a zero byte. */
  ghost predicate DbOk(f: File, fo: map<nat, Shape>)
    reads f, f.filp, f.fExtent, f.fTypes
  {
    Sound(f, fo) && CellsLed(f.cells)
  }

  /** All trees but the excepted ones are where they were, cell for cell. */
  ghost predicate KeepsTops(cells: map<nat, Cell>, fo: map<nat, Shape>, cells': map<nat, Cell>, fo': map<nat, Shape>, except: set<nat>) {
    forall x :: x in fo && x !in except ==> KeepsTop(cells, fo, cells', fo', x)
  }

  ghost predicate KeepsTop(cells: map<nat, Cell>, fo: map<nat, Shape>, cells': map<nat, Cell>, fo': map<nat, Shape>, x: nat)
    requires x in fo
  {
    x in fo' && fo'[x] == fo[x] && forall o :: o in Offs(fo[x]) ==> o in cells && o in cells' && cells'[o] == cells[o]
  }

  lemma KeepsTrans(
    c1: map<nat, Cell>, f1: map<nat, Shape>, c2: map<nat, Cell>, f2: map<nat, Shape>, c3: map<nat, Cell>, f3: map<nat, Shape>,
    e: set<nat>, e': set<nat>)
    requires KeepsTops(c1, f1, c2, f2, e) && KeepsTops(c2, f2, c3, f3, e')
    ensures KeepsTops(c1, f1, c3, f3, e + e')
  {
    hide Offs;
  }

  /** A node at any depth of a kept tree reads the same. */
  lemma InnerSame(cells: map<nat, Cell>, fo: map<nat, Shape>, cells': map<nat, Cell>, fo': map<nat, Shape>, x: nat, o: nat)
    requires IsForest(cells, fo) && IsForest(cells', fo') && Treed(cells) && Treed(cells')
    requires x in fo && KeepsTop(cells, fo, cells', fo', x) && o in Offs(fo[x])
    ensures o in cells && o in cells' && cells'[o] == cells[o]
    ensures NodeAt(cells', o) == NodeAt(cells, o) && FoundAt(cells', o) == FoundAt(cells, o)
  {
    hide IsForest, Treed, Linked, Raw, ReadBack, Tree, Offs;
    TopReadable(cells, fo, x);
    SubLinked(cells, fo[x], DadOf(cells, x), true, o);
    var t := SubShape(fo[x], o);
    AsTop(cells, t, DadOf(cells, o), fo[x].off == o);
    LinkedFrame(cells, cells', t, DadOf(cells, o), true);
    TreeIs(cells, o, t);
    TreeIs(cells', o, t);
  }

  /** A kept tree reads the same, and satisfies the same queries. */
  lemma KeptSame(
    cells: map<nat, Cell>, fo: map<nat, Shape>, cells': map<nat, Cell>, fo': map<nat, Shape>, x: nat,
    tcells: map<nat, TypeCell>, q: Query)
    requires IsForest(cells, fo) && IsForest(cells', fo') && Treed(cells) && Treed(cells')
    requires x in fo && KeepsTop(cells, fo, cells', fo', x)
    ensures x in cells && x in cells' && cells'[x] == cells[x]
    ensures NodeAt(cells', x) == NodeAt(cells, x) && FoundAt(cells', x) == FoundAt(cells, x)
    ensures Hit(cells', tcells, q, x) <==> Hit(cells, tcells, q, x)
  {
    hide IsForest, Treed, Linked, Raw, Hit, NodeAt, FoundAt;
    TopReadable(cells, fo, x);
    assert x in Offs(fo[x]);
    InnerSame(cells, fo, cells', fo', x, x);
    HitSame(cells, tcells, cells', tcells, q, x);
  }

  lemma HitSame(cells: map<nat, Cell>, tcells: map<nat, TypeCell>, cells': map<nat, Cell>, tcells': map<nat, TypeCell>, q: Query, x: nat)
    requires Treed(cells) && Treed(cells') && NodeAt(cells, x) == NodeAt(cells', x) && EntAt(cells, x) == EntAt(cells', x)
    requires NameAt(tcells, EntAt(cells, x).typePtr) == NameAt(tcells', EntAt(cells, x).typePtr)
    ensures Hit(cells', tcells', q, x) <==> Hit(cells, tcells, q, x)
  {
    hide Treed, NodeAt, EntAt, NameAt, ItemsHold;
  }

  // ---------------------------------------------------------------- queries that only roots satisfy

  /** Whatever satisfies the query is the root of a typed tree. */
  ghost predicate RootsOnly(c: Catalog, fo: map<nat, Shape>, q: Query)
    requires Treed(c.cells)
    reads q
  {
    forall o :: o in c.cells && Hit(c.cells, c.tcells, q, o) ==> o in fo && c.cells[o].ent.typePtr != 0
  }

  /** What is asked of the query of a delete or an update, so that deleting a hit deletes a whole tree. */
  ghost predicate RootQuery(c: Catalog, fo: map<nat, Shape>, q: Query)
    requires Treed(c.cells)
    reads q
  {
    Selective(q.typeName, q.items) && RootsOnly(c, fo, q)
  }

  ghost predicate CatOk(c: Catalog, fo: map<nat, Shape>, q: Query)
    reads q
  {
    IsForest(c.cells, fo) && Treed(c.cells) && TypesLive(c.cells, c.tcells) && RootQuery(c, fo, q)
  }

  /** A query with a type name is satisfied by roots only. */
  lemma TypedIsRootQuery(c: Catalog, fo: map<nat, Shape>, q: Query)
    requires IsForest(c.cells, fo) && Treed(c.cells) && TypesLive(c.cells, c.tcells) && q.typeName.Some?
    ensures RootQuery(c, fo, q)
  {
    hide IsForest, Treed, Raw, ItemsHold, StrEq, StrCopy, NodeAt;
    forall o | o in c.cells && Hit(c.cells, c.tcells, q, o) ensures o in fo && c.cells[o].ent.typePtr != 0 {
      var t := InnerUntyped(c.cells, fo, o);
    }
  }

  lemma HitIsTop(c: Catalog, fo: map<nat, Shape>, q: Query, o: nat)
    requires CatOk(c, fo, q) && Hit(c.cells, c.tcells, q, o)
    ensures o in c.cells && o in fo && c.cells[o].ent.typePtr in c.tcells && c.cells[o].ent.typePtr != 0
    ensures fo[o].Spot? && fo[o].off == o
  {
    hide IsForest, Treed, Linked, Raw, Hit, Selective;
    if o !in c.cells {
      DeadHits(c.cells, c.tcells, q, o);
    }
    TopReadable(c.cells, fo, o);
  }

  /** A new tree in which at most the root satisfies the query. */
  ghost predicate FreshTop(c: Catalog, fo: map<nat, Shape>, r: nat, q: Query)
    requires Treed(c.cells) && r in fo
    reads q
  {
    forall o :: o in Offs(fo[r]) && o in c.cells && Hit(c.cells, c.tcells, q, o) ==> o == r && c.cells[o].ent.typePtr != 0
  }

  /** No type that a tree refers to has changed its name. */
  ghost predicate NamesKept(cells: map<nat, Cell>, t: map<nat, TypeCell>, t': map<nat, TypeCell>) {
    forall o :: o in cells ==> NameAt(t', cells[o].ent.typePtr) == NameAt(t, cells[o].ent.typePtr)
  }

  /** If every tree is an old one or a fresh one, still only roots satisfy the query. */
  lemma RootsOnlyAfter(c: Catalog, fo: map<nat, Shape>, c': Catalog, fo': map<nat, Shape>, q: Query)
    requires CatOk(c, fo, q) && IsForest(c'.cells, fo') && Treed(c'.cells) && NamesKept(c.cells, c.tcells, c'.tcells)
    requires forall r :: r in fo' ==> (r in fo && KeepsTop(c.cells, fo, c'.cells, fo', r)) || FreshTop(c', fo', r, q)
    ensures RootsOnly(c', fo', q)
  {
    hide IsForest, Treed, TypesLive, Hit, KeepsTop, Selective, Linked, NameAt, NodeAt, FoundAt, Offs;
    forall o | o in c'.cells && Hit(c'.cells, c'.tcells, q, o) ensures o in fo' && c'.cells[o].ent.typePtr != 0 {
      var r := TreeOf(c'.cells, fo', o);
      if r in fo && KeepsTop(c.cells, fo, c'.cells, fo', r) {
        KeptRoot(c, fo, c', fo', q, r, o);
      }
    }
  }

  lemma KeptRoot(c: Catalog, fo: map<nat, Shape>, c': Catalog, fo': map<nat, Shape>, q: Query, r: nat, o: nat)
    requires CatOk(c, fo, q) && IsForest(c'.cells, fo') && Treed(c'.cells) && NamesKept(c.cells, c.tcells, c'.tcells)
    requires r in fo && r in fo' && KeepsTop(c.cells, fo, c'.cells, fo', r) && o in Offs(fo'[r])
    requires o in c'.cells && Hit(c'.cells, c'.tcells, q, o)
    ensures o in fo' && c'.cells[o].ent.typePtr != 0
  {
    hide IsForest, Treed, TypesLive, Hit, Selective, Linked, NameAt, NodeAt, FoundAt, Offs;
    InnerSame(c.cells, fo, c'.cells, fo', r, o);
    HitSame(c.cells, c.tcells, c'.cells, c'.tcells, q, o);
    TopReadable(c.cells, fo, o);
    OneTree(c.cells, fo, r, o, o);
  }

  /** The live offsets that satisfy the query. */
  ghost function HitSet(c: Catalog, q: Query): set<nat>
    requires Treed(c.cells)
    reads q
  {
    set o | o in c.cells && Hit(c.cells, c.tcells, q, o)
  }

  /** One root has gone, and what has come does not satisfy the query, but for what counts as done. */
  ghost predicate Stepped(c: Catalog, fo: map<nat, Shape>, c': Catalog, fo': map<nat, Shape>, q: Query, r: nat, done: set<nat>)
    requires Treed(c.cells) && Treed(c'.cells)
    reads q
  {
    && r in fo && KeepsTops(c.cells, fo, c'.cells, fo', {r}) && c'.tcells == c.tcells
    && (forall n :: n in fo' && (n !in fo || n == r) ==> n in done || !Hit(c'.cells, c'.tcells, q, n))
    && |c.exts| <= |c'.exts| && forall k :: 0 <= k < |c.exts| ==> c'.exts[k].base == c.exts[k].base
  }

  /** After such a step the hits are the old ones without that root, but for what counts as done. */
  lemma SteppedHit(c: Catalog, fo: map<nat, Shape>, c': Catalog, fo': map<nat, Shape>, q: Query, r: nat, done: set<nat>, o: nat)
    requires CatOk(c, fo, q) && CatOk(c', fo', q) && Stepped(c, fo, c', fo', q, r, done)
    ensures o in c.cells && Hit(c.cells, c.tcells, q, o) && o != r ==>
      o in c'.cells && Hit(c'.cells, c'.tcells, q, o) && FoundAt(c'.cells, o) == FoundAt(c.cells, o)
    ensures o in c'.cells && Hit(c'.cells, c'.tcells, q, o) && o !in done ==>
      o in c.cells && Hit(c.cells, c.tcells, q, o) && o != r
  {
    hide IsForest, Treed, TypesLive, Hit, KeepsTop, FoundAt;
    if o in c.cells && Hit(c.cells, c.tcells, q, o) && o != r {
      HitIsTop(c, fo, q, o);
      KeptSame(c.cells, fo, c'.cells, fo', o, c.tcells, q);
    } else if o in c'.cells && Hit(c'.cells, c'.tcells, q, o) && o !in done {
      HitIsTop(c', fo', q, o);
      assert o in fo && o != r;
      KeptSame(c.cells, fo, c'.cells, fo', o, c.tcells, q);
    }
  }

  lemma SteppedHits(c: Catalog, fo: map<nat, Shape>, c': Catalog, fo': map<nat, Shape>, q: Query, r: nat)
    requires CatOk(c, fo, q) && CatOk(c', fo', q) && Stepped(c, fo, c', fo', q, r, {})
    ensures HitSet(c', q) == HitSet(c, q) - {r}
  {
    hide IsForest, Treed, TypesLive, Hit, KeepsTops;
    forall o ensures o in HitSet(c', q) <==> o in HitSet(c, q) - {r} {
      SteppedHit(c, fo, c', fo', q, r, {}, o);
    }
  }

  // ---------------------------------------------------------------- a live iterator

  ghost predicate Listed(col: seq<Found>, o: nat) {
    exists i :: 0 <= i < |col| && col[i].foff == o
  }

  ghost predicate Ahead(c: Catalog, sect: Option<nat>, o: nat) {
    sect.Some? && exists k :: sect.value < k < |c.exts| && InSect(c.exts[k].base, o)
  }

  /** Every hit is done with, is among the current ones, or lies in a section still to come. */
  ghost predicate Covers(c: Catalog, q: Query, col: seq<Found>, sect: Option<nat>, done: set<nat>)
    requires Treed(c.cells)
    reads q
  {
    forall o :: o in c.cells && o !in done && Hit(c.cells, c.tcells, q, o) ==> Listed(col, o) || Ahead(c, sect, o)
  }

  /** The current hits are up to date, and each is listed once. */
  ghost predicate ColOk(c: Catalog, q: Query, col: seq<Found>)
    requires Treed(c.cells)
    reads q
  {
    && (forall i :: 0 <= i < |col| ==> col[i].foff in c.cells && Hit(c.cells, c.tcells, q, col[i].foff) && col[i] == FoundAt(c.cells, col[i].foff))
    && (forall i, j :: 0 <= i < j < |col| ==> col[i].foff < col[j].foff)
  }

  /** The current hits all lie in the current section. */
  ghost predicate ColHere(c: Catalog, col: seq<Found>, sect: Option<nat>) {
    col != [] ==>
      && sect.Some? && sect.value < |c.exts|
      && forall i :: 0 <= i < |col| ==> InSect(c.exts[sect.value].base, col[i].foff)
  }

  /** The current hit is the first of all that are still to be dealt with. */
  lemma CurrentIsFirst(s: Snap, q: Query, col: seq<Found>, sect: Option<nat>, done: set<nat>, h: nat)
    requires Inv(s) && Treed(s.cells) && col != []
    requires Covers(CatOf(s), q, col, sect, done) && ColOk(CatOf(s), q, col) && ColHere(CatOf(s), col, sect)
    requires h in s.cells && h !in done && Hit(s.cells, s.tcells, q, h)
    ensures col[0].foff <= h
  {
    hide ExtsOk, TypesOk, Tiled, AllHomed, Holds, Disjoint, Treed, Hit, FoundAt;
  }

  /** A delete, with or without a write anywhere in the file, leaves the rest of a live iterator right. */
  lemma SteppedIter(
    c: Catalog, fo: map<nat, Shape>, c': Catalog, fo': map<nat, Shape>, q: Query, col: seq<Found>, sect: Option<nat>,
    done: set<nat>, done': set<nat>)
    requires CatOk(c, fo, q) && CatOk(c', fo', q) && col != [] && Stepped(c, fo, c', fo', q, col[0].foff, done')
    requires Covers(c, q, col, sect, done) && ColOk(c, q, col) && ColHere(c, col, sect) && done - {col[0].foff} <= done'
    ensures Covers(c', q, col[1..], sect, done') && ColOk(c', q, col[1..]) && ColHere(c', col[1..], sect)
  {
    hide IsForest, Treed, TypesLive, Hit, KeepsTops, FoundAt;
    var tail := col[1..];
    forall o | o in c'.cells && o !in done' && Hit(c'.cells, c'.tcells, q, o) ensures Listed(tail, o) || Ahead(c', sect, o) {
      SteppedHit(c, fo, c', fo', q, col[0].foff, done', o);
      if Listed(col, o) {
        var i :| 0 <= i < |col| && col[i].foff == o;
        assert tail[i - 1].foff == o;
      } else {
        var k :| sect.value < k < |c.exts| && InSect(c.exts[k].base, o);
        assert InSect(c'.exts[k].base, o);
      }
    }
    forall i | 0 <= i < |tail|
      ensures tail[i].foff in c'.cells && Hit(c'.cells, c'.tcells, q, tail[i].foff) && tail[i] == FoundAt(c'.cells, tail[i].foff)
    {
      assert tail[i] == col[i + 1];
      assert col[0].foff < col[i + 1].foff;
      SteppedHit(c, fo, c', fo', q, col[0].foff, done', tail[i].foff);
    }
  }

  ghost function CatOf(s: Snap): Catalog {
    Catalog(s.exts, s.cells, s.tcells)
  }

  lemma SlotsAscend(h: Head)
    ensures forall i, j :: 0 <= i < j < |SlotsOf(h)| ==> SlotsOf(h)[i] < SlotsOf(h)[j]
  {
  }

  /** A section's hits are exact. */
  lemma HitsExact(c: Catalog, q: Query, k: nat)
    requires Treed(c.cells) && TypesLive(c.cells, c.tcells) && Selective(q.typeName, q.items) && k < |c.exts|
    ensures ExactHits(c.cells, c.tcells, q, SlotsOf(c.exts[k]), HitsOf(c, q, k))
  {
    hide Treed, TypesLive, SlotsOf, Selected, ExactHits;
    SlotsAscend(c.exts[k]);
    SelectedExact(c.cells, c.tcells, q, SlotsOf(c.exts[k]));
  }

  lemma HitsColOk(c: Catalog, q: Query, k: nat)
    requires Treed(c.cells) && TypesLive(c.cells, c.tcells) && Selective(q.typeName, q.items) && k < |c.exts|
    ensures ColOk(c, q, HitsOf(c, q, k))
  {
    hide Treed, TypesLive, HitsOf, Hit, FoundAt, SlotsOf;
    HitsExact(c, q, k);
  }

  lemma HitsHere(s: Snap, q: Query, k: nat)
    requires Inv(s) && Treed(s.cells) && TypesLive(s.cells, s.tcells) && Selective(q.typeName, q.items) && k < |s.exts|
    ensures ColHere(CatOf(s), HitsOf(CatOf(s), q, k), Some(k))
  {
    hide Inv, Treed, TypesLive, HitsOf, Hit, FoundAt, SlotsOf, Selective;
    var l := HitsOf(CatOf(s), q, k);
    HitsExact(CatOf(s), q, k);
    forall i | 0 <= i < |l| ensures InSect(s.exts[k].base, l[i].foff) {
      SlotsInSect(s, k, l[i].foff);
    }
  }

  /** A live cell of a section is among that section's slots. */
  lemma CellInSlots(s: Snap, o: nat, k: nat)
    requires Inv(s) && o in s.cells && k < |s.exts| && InSect(s.exts[k].base, o)
    ensures o in SlotsOf(s.exts[k])
  {
    hide Inv, ExtRep;
    InvExt(s, k);
    InSub(s.cells, s.exts[k].base, o);
    ExtRoomy(s.d, s.exts[k], Sub(s.cells, s.exts[k].base));
    var i := CellIsSlot(s.d, s.exts[k], Sub(s.cells, s.exts[k].base), o);
    LipIsSlots(s.d, s.exts[k], Sub(s.cells, s.exts[k].base));
    assert SlotsOf(s.exts[k])[i] == o;
  }

  lemma LipIsSlots(d: seq<byte>, h: Head, cells: map<nat, Cell>)
    requires ExtRep(d, h, cells)
    ensures HEAD_SIZE <= h.lip && exists n: nat :: h.lip == HEAD_SIZE + ENT_SIZE * n && |SlotsOf(h)| == n
  {
    hide Holds, OnDisk, DeadZero, EntryFits, Before, LipTight, FrpTight, EntBytes;
    var n :| Slots(Kind.Extents, n) == h.lip - HEAD_SIZE;
    SlotsOfIs(h, n);
    assert h.lip == HEAD_SIZE + ENT_SIZE * n && |SlotsOf(h)| == n;
  }

  /** A hit in section `k` is listed among that section's hits. */
  lemma HitListed(s: Snap, q: Query, o: nat, k: nat)
    requires Inv(s) && Treed(s.cells) && TypesLive(s.cells, s.tcells) && Selective(q.typeName, q.items)
    requires o in s.cells && k < |s.exts| && InSect(s.exts[k].base, o) && Hit(s.cells, s.tcells, q, o)
    ensures Listed(HitsOf(CatOf(s), q, k), o)
  {
    hide Inv, Treed, TypesLive, HitsOf, Hit, SlotsOf, FoundAt;
    CellInSlots(s, o, k);
    HitsExact(CatOf(s), q, k);
  }

  /** A new iterator misses no hit. */
  lemma StartCovers(s: Snap, q: Query, col: seq<Found>, sect: Option<nat>)
    requires Inv(s) && Treed(s.cells) && TypesLive(s.cells, s.tcells) && Selective(q.typeName, q.items)
    requires Started(CatOf(s), q, col, sect)
    ensures Covers(CatOf(s), q, col, sect, {}) && ColOk(CatOf(s), q, col) && ColHere(CatOf(s), col, sect)
  {
    hide Inv, Treed, TypesLive, HitsOf, Hit, FoundAt;
    var c := CatOf(s);
    forall o | o in c.cells && Hit(c.cells, c.tcells, q, o) ensures Listed(col, o) || Ahead(c, sect, o) {
      var k := CellHome(s, o);
      HitListed(s, q, o, k);
      assert HitsOf(c, q, k) != [];
    }
    if sect.Some? {
      HitsColOk(c, q, sect.value);
      HitsHere(s, q, sect.value);
    }
  }

  /** A step of the iterator misses none either. */
  lemma NextCovers(
    s: Snap, q: Query, col: seq<Found>, sect: Option<nat>, col': seq<Found>, sect': Option<nat>, done: set<nat>)
    requires Inv(s) && Treed(s.cells) && TypesLive(s.cells, s.tcells) && Selective(q.typeName, q.items)
    requires col != [] && Covers(CatOf(s), q, col[1..], sect, done) && ColOk(CatOf(s), q, col[1..]) && ColHere(CatOf(s), col[1..], sect)
    requires |col| > 1 ==> col' == col[1..] && sect' == sect
    requires |col| <= 1 ==> Advanced(CatOf(s), q, sect, col', sect')
    ensures Covers(CatOf(s), q, col', sect', done) && ColOk(CatOf(s), q, col') && ColHere(CatOf(s), col', sect')
  {
    hide Inv, Treed, TypesLive, HitsOf, Hit, FoundAt;
    var c := CatOf(s);
    if |col| == 1 {
      forall o | o in c.cells && o !in done && Hit(c.cells, c.tcells, q, o) ensures Listed(col', o) || Ahead(c, sect', o) {
        var k :| sect.Some? && sect.value < k < |c.exts| && InSect(c.exts[k].base, o);
        HitListed(s, q, o, k);
        assert HitsOf(c, q, k) != [];
      }
      if sect.Some? && sect'.value > sect.value {
        HitsColOk(c, q, sect'.value);
        HitsHere(s, q, sect'.value);
      }
    }
  }

  /** An iterator with no current hit left, on a file where none was missed: all that satisfies the query is done with. */
  lemma ExhaustedCovers(c: Catalog, q: Query, sect: Option<nat>, done: set<nat>)
    requires Treed(c.cells) && Covers(c, q, [], sect, done) && Settled(c, [], sect)
    ensures HitSet(c, q) <= done
  {
    hide Treed, Hit;
  }

  // ---------------------------------------------------------------- a whole read

  /** `l` lists exactly the live entities of the sections from the `k`-th on that satisfy the query, in file order. */
  ghost predicate ExactFrom(s: Snap, q: Query, k: nat, l: seq<Found>)
    requires Treed(s.cells)
    reads q
  {
    && (forall i :: 0 <= i < |l| ==> l[i].foff in s.cells && Hit(s.cells, s.tcells, q, l[i].foff) && l[i] == FoundAt(s.cells, l[i].foff))
    && (forall i :: 0 <= i < |l| ==> k < |s.exts| && s.exts[k].base <= l[i].foff)
    && (forall i, j :: 0 <= i < j < |l| ==> l[i].foff < l[j].foff)
    && (forall o, j :: o in s.cells && k <= j < |s.exts| && InSect(s.exts[j].base, o) && Hit(s.cells, s.tcells, q, o) ==> Listed(l, o))
  }

  lemma SlotsInSect(s: Snap, k: nat, o: nat)
    requires Inv(s) && k < |s.exts| && o in SlotsOf(s.exts[k])
    ensures InSect(s.exts[k].base, o)
  {
    hide Inv, ExtRep;
    InvExt(s, k);
    ExtRoomy(s.d, s.exts[k], Sub(s.cells, s.exts[k].base));
    LipIsSlots(s.d, s.exts[k], Sub(s.cells, s.exts[k].base));
  }

  lemma LaterAscends(s: Snap, k: nat, p: nat)
    requires Inv(s) && k + 1 < |s.exts| && InSect(s.exts[k].base, p)
    ensures p < s.exts[k + 1].base && s.exts[k].base < s.exts[k + 1].base
  {
    hide ExtsOk, TypesOk, Tiled, AllHomed, Holds, Disjoint;
  }

  lemma ListedJoin(l: seq<Found>, later: seq<Found>, o: nat)
    ensures Listed(l, o) || Listed(later, o) ==> Listed(l + later, o)
  {
    var r := l + later;
    if Listed(l, o) {
      var i :| 0 <= i < |l| && l[i].foff == o;
      assert r[i].foff == o;
    } else if Listed(later, o) {
      var i :| 0 <= i < |later| && later[i].foff == o;
      assert r[|l| + i].foff == o;
    }
  }

  lemma ExactListed(s: Snap, q: Query, k: nat, l: seq<Found>, later: seq<Found>, o: nat, j: nat)
    requires Treed(s.cells) && k <= j < |s.exts|
    requires ExactHits(s.cells, s.tcells, q, SlotsOf(s.exts[k]), l) && ExactFrom(s, q, k + 1, later)
    requires forall x :: x in s.cells && InSect(s.exts[k].base, x) ==> x in SlotsOf(s.exts[k])
    requires o in s.cells && InSect(s.exts[j].base, o) && Hit(s.cells, s.tcells, q, o)
    ensures Listed(l + later, o)
  {
    hide Treed, Hit, FoundAt, SlotsOf;
    ListedJoin(l, later, o);
  }

  lemma ExactJoin(s: Snap, q: Query, k: nat, l: seq<Found>, later: seq<Found>)
    requires Inv(s) && Treed(s.cells) && k < |s.exts|
    requires ExactHits(s.cells, s.tcells, q, SlotsOf(s.exts[k]), l) && ExactFrom(s, q, k + 1, later)
    requires forall o :: o in s.cells && InSect(s.exts[k].base, o) ==> o in SlotsOf(s.exts[k])
    ensures ExactFrom(s, q, k, l + later)
  {
    hide Inv, Treed, Hit, FoundAt, SlotsOf, Listed;
    var r := l + later;
    forall i | 0 <= i < |l| ensures InSect(s.exts[k].base, l[i].foff) && (k + 1 < |s.exts| ==> l[i].foff < s.exts[k + 1].base) {
      SlotsInSect(s, k, l[i].foff);
      if k + 1 < |s.exts| {
        LaterAscends(s, k, l[i].foff);
      }
    }
    if later != [] {
      assert later[0].foff in s.cells;
      LaterAscends(s, k, s.exts[k].base);
    }
    forall o, j | o in s.cells && k <= j < |s.exts| && InSect(s.exts[j].base, o) && Hit(s.cells, s.tcells, q, o) ensures Listed(r, o) {
      ExactListed(s, q, k, l, later, o, j);
    }
  }

  lemma {:induction false} LaterExact(s: Snap, q: Query, k: nat)
    requires Inv(s) && Treed(s.cells) && TypesLive(s.cells, s.tcells) && Selective(q.typeName, q.items)
    ensures ExactFrom(s, q, k, Later(CatOf(s), q, k))
    decreases |s.exts| - k
  {
    hide Inv, Treed, TypesLive, Hit, FoundAt, HitsOf, SlotsOf, ExactHits, Selective, ExactFrom;
    if k < |s.exts| {
      LaterExact(s, q, k + 1);
      HitsExact(CatOf(s), q, k);
      forall o | o in s.cells && InSect(s.exts[k].base, o) ensures o in SlotsOf(s.exts[k]) {
        CellInSlots(s, o, k);
      }
      ExactJoin(s, q, k, HitsOf(CatOf(s), q, k), Later(CatOf(s), q, k + 1));
    } else {
      NothingFrom(s, q, k);
    }
  }

  lemma NothingFrom(s: Snap, q: Query, k: nat)
    requires Treed(s.cells) && k >= |s.exts|
    ensures ExactFrom(s, q, k, [])
  {
    hide Treed, Hit;
  }

  /** Over all sections, a selective query yields exactly the live entities that satisfy it, each once, in file order. */
  lemma AllHits(s: Snap, q: Query)
    requires Inv(s) && Treed(s.cells) && TypesLive(s.cells, s.tcells) && Selective(q.typeName, q.items)
    ensures forall o :: Listed(Later(CatOf(s), q, 0), o) <==> o in s.cells && Hit(s.cells, s.tcells, q, o)
    ensures var l := Later(CatOf(s), q, 0);
      forall i, j :: 0 <= i < j < |l| ==> l[i].foff < l[j].foff
  {
    hide Inv, Treed, TypesLive, Hit, FoundAt, Later, Selective;
    LaterExact(s, q, 0);
    var l := Later(CatOf(s), q, 0);
    forall o | o in s.cells && Hit(s.cells, s.tcells, q, o) ensures Listed(l, o) {
      var k := CellHome(s, o);
    }
  }
}
