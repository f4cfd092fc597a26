/** The lazy iterator over the hits of a query, section by section. */
module Iterator {
  import opened Disk
  import opened Section
  import opened Extents
  import opened Types
  import opened Store
  import opened File
  import opened Forest
  import opened Query
  import opened Find

  /** What a search depends on: the section headers, and the live entities and types. */
  datatype Catalog = Catalog(exts: seq<Head>, cells: map<nat, Cell>, tcells: map<nat, TypeCell>)

  ghost function Cat(f: File): Catalog
    reads f, f.fExtent
  {
    Catalog(Heads(f.fExtent), f.cells, f.tcells)
  }

  /** The hits of section `k`. */
  ghost function HitsOf(c: Catalog, q: Query, k: nat): seq<Found>
    requires Treed(c.cells)
    reads q
  {
    if k < |c.exts| then Selected(c.cells, c.tcells, q, SlotsOf(c.exts[k])) else []
  }

  /** The hits of all sections from the `k`-th on, in list order. */
  ghost function Later(c: Catalog, q: Query, k: nat): seq<Found>
    requires Treed(c.cells)
    reads q
    decreases |c.exts| - k
  {
    if k >= |c.exts| then [] else HitsOf(c, q, k) + Later(c, q, k + 1)
  }

  /** No section in [lo, hi) has a hit. */
  ghost predicate NoHits(c: Catalog, q: Query, lo: nat, hi: nat)
    requires Treed(c.cells)
    reads q
  {
    forall k :: lo <= k < hi ==> HitsOf(c, q, k) == []
  }

  lemma {:induction false} LaterSkips(c: Catalog, q: Query, lo: nat, hi: nat)
    requires Treed(c.cells) && lo <= hi && NoHits(c, q, lo, hi)
    ensures Later(c, q, lo) == Later(c, q, hi)
    decreases hi - lo
  {
    hide Treed, HitsOf;
    if lo < hi {
      LaterSkips(c, q, lo + 1, hi);
      if lo < |c.exts| {
        assert [] + Later(c, q, lo + 1) == Later(c, q, lo + 1);
      }
    }
  }

  /** What an iterator in this position has still to yield on the file as it is now. */
  ghost function Rest(c: Catalog, q: Query, col: seq<Found>, sect: Option<nat>): seq<Found>
    requires Treed(c.cells)
    reads q
  {
    if sect.None? then col else col + Later(c, q, sect.value + 1)
  }

  /** An iterator without a current hit has nothing left on the file as it is now. */
  ghost predicate Settled(c: Catalog, col: seq<Found>, sect: Option<nat>) {
    col == [] ==> sect.None? || sect.value + 1 >= |c.exts|
  }

  /** Where an iterator starts: the first section with a hit, or NULL. */
  ghost predicate Started(c: Catalog, q: Query, col: seq<Found>, sect: Option<nat>)
    requires Treed(c.cells)
    reads q
  {
    if sect.None? then col == [] && NoHits(c, q, 0, |c.exts|)
    else sect.value < |c.exts| && col == HitsOf(c, q, sect.value) && col != [] && NoHits(c, q, 0, sect.value)
  }

  /** How an iterator moves when its current hits are used up. */
  ghost predicate Advanced(c: Catalog, q: Query, sect: Option<nat>, col': seq<Found>, sect': Option<nat>)
    requires Treed(c.cells)
    reads q
  {
    if sect.None? then sect'.None? && col' == []
    else
      && sect'.Some? && sect.value <= sect'.value < |c.exts| && Settled(c, col', sect')
      && (if sect'.value == sect.value then col' == [] else col' == HitsOf(c, q, sect'.value) && NoHits(c, q, sect.value + 1, sect'.value))
  }

  ghost predicate FileOk(f: File, fo: map<nat, Shape>)
    reads f, f.filp, f.fExtent, f.fTypes
  {
    f.Valid() && IsForest(f.cells, fo) && TypesLive(f.cells, f.tcells) && Treed(f.cells)
  }

  /** What reading leaves alone: everything, up to bytes being written again over themselves. */
  twostate predicate OnlyRead(f: File)
    reads f, f.filp, f.fExtent, f.fTypes
  {
    && f.fExtent == old(f.fExtent) && f.fTypes == old(f.fTypes) && f.lstSectPtr == old(f.lstSectPtr)
    && Cat(f) == old(Cat(f)) && Heads(f.fTypes) == old(Heads(f.fTypes))
    && Same(old(f.filp.bytes), f.filp.bytes)
  }

  /** file_find on one section. */
  method FindIn(f: File, k: nat, q: Query, ghost fo: map<nat, Shape>) returns (col: seq<Found>)
    requires FileOk(f, fo) && k < |f.fExtent|
    modifies f.filp
    ensures FileOk(f, fo) && OnlyRead(f)
    ensures col == HitsOf(Cat(f), q, k)
  {
    hide Inv, At, IsForest, TypesLive, Treed, SlotsOf, Selected;
    col := FileFind(f, k, q, fo);
  }

  lemma NoHitsMore(c: Catalog, q: Query, lo: nat, hi: nat)
    requires Treed(c.cells) && NoHits(c, q, lo, hi) && HitsOf(c, q, hi) == []
    ensures NoHits(c, q, lo, hi + 1)
  {
    hide HitsOf, Treed;
  }

  lemma NoHitsYet(c: Catalog, q: Query, lo: nat)
    requires Treed(c.cells)
    ensures NoHits(c, q, lo, lo)
  {
  }

  class Iter {
    const file: File
    const query: Query
    var curCol: seq<Found>
    var curSect: Option<nat>

    constructor (file: File, query: Query, ghost fo: map<nat, Shape>)
      requires FileOk(file, fo)
      modifies file.filp
      ensures FileOk(file, fo) && OnlyRead(file) && this.file == file && this.query == query
      ensures Started(Cat(file), query, curCol, curSect)
    {
      hide FileOk, HitsOf, NoHits, At, Treed, Started, Heads;
      this.file := file;
      this.query := query;
      curCol := [];
      curSect := None;
      new;
      Begin(fo);
    }

    /** The loop of iter_ctor. */
    method Begin(ghost fo: map<nat, Shape>)
      requires FileOk(file, fo) && curCol == [] && curSect == None
      modifies this`curCol, this`curSect, file.filp
      ensures FileOk(file, fo) && OnlyRead(file)
      ensures Started(Cat(file), query, curCol, curSect)
    {
      hide FileOk, HitsOf, NoHits, At, Treed;
      ghost var c := Cat(file);
      FileOkTreed(file, fo);
      NoHitsYet(c, query, 0);
      var k := 0;
      while k < |file.fExtent| && curCol == []
        invariant k <= |file.fExtent| && curSect == None
        invariant FileOk(file, fo) && OnlyRead(file) && Treed(c.cells)
        invariant NoHits(c, query, 0, k)
        invariant curCol != [] ==> k < |file.fExtent| && curCol == HitsOf(c, query, k)
        decreases |file.fExtent| - k, curCol == []
      {
        curCol := FindIn(file, k, query, fo);
        if curCol == [] {
          NoHitsMore(c, query, 0, k);
          k := k + 1;
        }
      }
      if k < |file.fExtent| {
        curSect := Some(k);
      }
    }

    /** Drops the current hit; when it was the last one, looks for the next section with hits. */
    method Next(ghost fo: map<nat, Shape>)
      requires FileOk(file, fo) && (curSect.Some? ==> curSect.value < |file.fExtent|) && (curSect.None? ==> curCol == [])
      modifies this`curCol, this`curSect, file.filp
      ensures FileOk(file, fo) && OnlyRead(file)
      ensures |old(curCol)| > 1 ==> curCol == old(curCol)[1..] && curSect == old(curSect)
      ensures |old(curCol)| <= 1 ==> Advanced(Cat(file), query, old(curSect), curCol, curSect)
    {
      hide FileOk, HitsOf, NoHits, At, Treed;
      FileOkTreed(file, fo);
      if |curCol| > 0 {
        curCol := curCol[1..];
      }
      if curCol == [] {
        Advance(fo);
      }
    }

    /** The loop of iter_next. */
    method Advance(ghost fo: map<nat, Shape>)
      requires FileOk(file, fo) && (curSect.Some? ==> curSect.value < |file.fExtent|) && curCol == []
      modifies this`curCol, this`curSect, file.filp
      ensures FileOk(file, fo) && OnlyRead(file)
      ensures Advanced(Cat(file), query, old(curSect), curCol, curSect)
    {
      hide FileOk, Heads, HitsOf, NoHits, At, Treed, Settled;
      ghost var c := Cat(file);
      FileOkTreed(file, fo);
      if curSect.Some? {
        ghost var k0 := curSect.value;
        NoHitsYet(c, query, k0 + 1);
        while curSect.value + 1 < |file.fExtent| && curCol == []
          invariant curSect.Some? && k0 <= curSect.value < |file.fExtent|
          invariant FileOk(file, fo) && OnlyRead(file) && Treed(c.cells)
          invariant curSect.value == k0 ==> curCol == []
          invariant curSect.value > k0 ==> curCol == HitsOf(c, query, curSect.value) && NoHits(c, query, k0 + 1, curSect.value)
          decreases |file.fExtent| - curSect.value
        {
          if curSect.value > k0 {
            NoHitsMore(c, query, k0 + 1, curSect.value);
          }
          curSect := Some(curSect.value + 1);
          curCol := FindIn(file, curSect.value, query, fo);
        }
        SettledNow(c, curCol, curSect);
      }
    }

    predicate IsAvail()
      reads this
    {
      curCol != []
    }

    function GetFound(): Found
      requires IsAvail()
      reads this
    {
      curCol[0]
    }
  }

  lemma SettledNow(c: Catalog, col: seq<Found>, sect: Option<nat>)
    requires col == [] ==> sect.Some? && sect.value + 1 >= |c.exts|
    ensures Settled(c, col, sect)
  {
  }

  lemma FileOkTreed(f: File, fo: map<nat, Shape>)
    requires FileOk(f, fo)
    ensures Treed(f.cells)
  {
  }

  /** A new iterator has all hits of all sections before it. */
  lemma StartedRest(c: Catalog, q: Query, col: seq<Found>, sect: Option<nat>)
    requires Treed(c.cells) && Started(c, q, col, sect)
    ensures Rest(c, q, col, sect) == Later(c, q, 0) && Settled(c, col, sect)
  {
    hide Treed, HitsOf, NoHits;
    if sect.Some? {
      LaterSkips(c, q, 0, sect.value);
    } else {
      LaterSkips(c, q, 0, |c.exts|);
    }
  }

  /** On an unchanged file, one step drops exactly the first of the hits still to come. */
  lemma NextRest(c: Catalog, q: Query, col: seq<Found>, sect: Option<nat>, col': seq<Found>, sect': Option<nat>)
    requires Treed(c.cells) && Settled(c, col, sect) && (sect.None? ==> col == []) && (sect.Some? ==> sect.value < |c.exts|)
    requires |col| > 1 ==> col' == col[1..] && sect' == sect
    requires |col| <= 1 ==> Advanced(c, q, sect, col', sect')
    ensures Settled(c, col', sect')
    ensures Rest(c, q, col', sect') == if Rest(c, q, col, sect) == [] then [] else Rest(c, q, col, sect)[1..]
    ensures col == [] <==> Rest(c, q, col, sect) == []
  {
    hide Treed, HitsOf, NoHits;
    if sect.Some? {
      var later := Later(c, q, sect.value + 1);
      if |col| > 1 {
        assert (col + later)[1..] == col[1..] + later;
      } else {
        if sect'.value > sect.value {
          LaterSkips(c, q, sect.value + 1, sect'.value);
        }
        assert Rest(c, q, col', sect') == later;
        if |col| == 1 {
          assert (col + later)[1..] == later;
        } else {
          assert col + later == later == [];
        }
      }
    }
  }
}
