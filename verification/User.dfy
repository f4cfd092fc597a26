/** The commands: typed insert, delete and update, each under a live iterator where the source uses one. */
module User {
  import opened Bytes
  import opened Disk
  import opened Section
  import opened Json
  import opened Extents
  import opened Types
  import opened Store
  import opened File
  import opened Forest
  import opened FileForest
  import opened Query
  import opened Find
  import opened Iterator
  import opened Commands

  // ---------------------------------------------------------------- one root

  lemma RootFacts(cells: map<nat, Cell>, fo: map<nat, Shape>, r: nat)
    requires IsForest(cells, fo) && TypedTops(cells, fo) && r in fo && r in cells && cells[r].ent.typePtr != 0
    ensures fo[r].Spot? && fo[r].off == r && fo[r].bro == Empty && cells[r].ent.dadPtr == 0
    ensures Linked(cells, fo[r], 0, true) && Victims(fo[r], true) == Offs(fo[r]) && WithoutTop(fo, r) == fo - {r}
    ensures Readable(cells, fo[r])
  {
    hide Raw;
    TopReadable(cells, fo, r);
  }

  lemma RootDeleted(cells: map<nat, Cell>, fo: map<nat, Shape>, r: nat, tcells: map<nat, TypeCell>)
    requires IsForest(cells, fo) && TypedTops(cells, fo) && r in fo && r in cells && cells[r].ent.typePtr != 0
    requires TypesLive(cells, tcells) && CellsLed(cells)
    ensures var c' := cells - Offs(fo[r]);
      && IsForest(c', fo - {r}) && TypesLive(c', tcells) && CellsLed(c') && TypedTops(c', fo - {r})
      && KeepsTops(cells, fo, c', fo - {r}, {r})
  {
    hide Raw, Linked, Offs, IsForest, TypesLive, CellsLed, TypedTops, KeepsTops;
    RootFacts(cells, fo, r);
    DeleteTop(cells, fo, r);
    LessKeeps(cells, fo, r, Offs(fo[r]), tcells);
    OthersKept(cells, fo, r);
  }

  lemma LessKeeps(cells: map<nat, Cell>, fo: map<nat, Shape>, r: nat, gone: set<nat>, tcells: map<nat, TypeCell>)
    requires TypedTops(cells, fo) && TypesLive(cells, tcells) && CellsLed(cells)
    ensures TypesLive(cells - gone, tcells) && CellsLed(cells - gone) && TypedTops(cells - gone, fo - {r})
  {
  }

  lemma OthersKept(cells: map<nat, Cell>, fo: map<nat, Shape>, r: nat)
    requires IsForest(cells, fo) && r in fo && fo[r].Spot? && Victims(fo[r], true) == Offs(fo[r])
    ensures KeepsTops(cells, fo, cells - Offs(fo[r]), fo - {r}, {r})
  {
    hide Raw, Linked, Offs, IsForest, Victims;
    forall x | x in fo && x !in {r} ensures KeepsTop(cells, fo, cells - Offs(fo[r]), fo - {r}, x) {
      OtherTopsKept(cells, fo, r, x);
    }
  }

  /** Deletes one root: exactly its tree goes. */
  method DeleteRoot(f: File, r: nat, ghost fo: map<nat, Shape>) returns (ok: bool)
    requires DbOk(f, fo) && r in fo && r in f.cells && f.cells[r].ent.typePtr != 0
    modifies f`cells, f.filp, f.fExtent
    ensures ok && DbOk(f, fo - {r}) && f.Kept() && f.fExtent == old(f.fExtent) && f.lstSectPtr == old(f.lstSectPtr)
    ensures f.cells == old(f.cells) - Offs(fo[r])
    ensures KeepsTops(old(f.cells), fo, f.cells, fo - {r}, {r})
  {
    hide Inv, At, IsForest, TypesLive, CellsLed, TypedTops, Linked, Offs, Treed, KeepsTops;
    RootFacts(f.cells, fo, r);
    RootDeleted(f.cells, fo, r, f.tcells);
    LedScans(Bases(f.fExtent), f.cells, Order(fo[r], true));
    ok := FileDelete(f, r, true, fo[r], 0, true);
    ForestTreed(f.cells, fo - {r});
  }

  /** A tree that a write of `json` as a typed root has made: the root, finished or bare, or a part that nothing links to. */
  ghost predicate Sprung(cells: map<nat, Cell>, r: nat, t: Shape, json: Json) {
    && r in cells && t.Spot? && t.off == r && Readable(cells, t) && json.Node?
    && if cells[r].ent.typePtr != 0 then Raw(cells, t) in {json, Bare(json)} else Raw(cells, t) in Frags(json.son)
  }

  /** Every tree is an old one, untouched, or has been made by writing `json`. */
  ghost predicate Bred(cells0: map<nat, Cell>, fo0: map<nat, Shape>, cells: map<nat, Cell>, fo: map<nat, Shape>, json: Json) {
    forall r :: r in fo ==> (r in fo0 && KeepsTop(cells0, fo0, cells, fo, r)) || Sprung(cells, r, fo[r], json)
  }

  lemma SpringsSprung(c: map<nat, Cell>, r: nat, t: Shape, json: Json, ty: nat)
    requires Springs(c, r, t, json, 0, ty) && json.Node? && json.bro == Nil && ty != 0
    ensures Sprung(c, r, t, json)
  {
    hide Raw;
  }

  lemma WriteTypes(c0: map<nat, Cell>, c: map<nat, Cell>, g: map<nat, Shape>, json: Json, ty: nat, tcells: map<nat, TypeCell>)
    requires Grew(c0, c, g, json, 0, ty) && TypesLive(c0, tcells) && ty in tcells
    ensures TypesLive(c, tcells)
  {
    hide Grew;
    WriteLinks(c0, c, g, json, ty);
    forall o | o in c ensures c[o].ent.typePtr == 0 || c[o].ent.typePtr in tcells {
      assert c[o].ent.typePtr in Links(c);
    }
  }

  /** The only new type link is that of the root. */
  lemma WriteLinks(c0: map<nat, Cell>, c: map<nat, Cell>, g: map<nat, Shape>, json: Json, ty: nat)
    requires Grew(c0, c, g, json, 0, ty)
    ensures Links(c) <= Links(c0) + {0, ty}
  {
    hide Raw, Linked, IsForest, JsonLed, CellsLed, Frags;
    forall o | o in c ensures c[o].ent.typePtr in Links(c0) + {0, ty} {
      if o !in c0 {
        var t := InnerUntyped(New(c0, c), g, o);
        assert o in g ==> Springs(c, o, g[o], json, 0, ty);
      } else {
        assert c[o] == c0[o];
      }
    }
  }

  lemma WriteForest(c0: map<nat, Cell>, fo: map<nat, Shape>, c: map<nat, Cell>, g: map<nat, Shape>, json: Json, ty: nat)
    requires Grew(c0, c, g, json, 0, ty) && IsForest(c0, fo)
    ensures fo.Keys !! g.Keys && IsForest(c, fo + g)
    ensures KeepsTops(c0, fo, c, fo + g, {})
    ensures forall n :: n in g ==> n !in c0
  {
    hide Raw, Linked, JsonLed, CellsLed, AllSpring, IsForest, Offs;
    ForestUnion(c0, fo, New(c0, c), g, c);
    forall x | x in fo ensures KeepsTop(c0, fo, c, fo + g, x) {
      TopReadable(c0, fo, x);
    }
    forall n | n in g ensures n !in c0 {
      TopReadable(New(c0, c), g, n);
    }
  }

  lemma WriteTops(c0: map<nat, Cell>, fo: map<nat, Shape>, c: map<nat, Cell>, g: map<nat, Shape>, json: Json, ty: nat)
    requires Grew(c0, c, g, json, 0, ty) && json.Node? && json.bro == Nil && ty != 0 && TypedTops(c0, fo)
    requires forall x :: x in fo ==> x in c0
    requires fo.Keys !! g.Keys
    ensures TypedTops(c, fo + g)
  {
    hide IsForest, JsonLed, CellsLed, Frags;
    forall r | r in fo + g && r in c && (fo + g)[r].Spot? && c[r].ent.typePtr != 0
      ensures c[r].ent.dadPtr == 0 && (fo + g)[r].bro == Empty
    {
      if r in g {
        assert Springs(c, r, g[r], json, 0, ty);
        assert Raw(c, g[r]).bro == Nil;
        assert (fo + g)[r] == g[r];
      } else {
        assert r in c0 && c[r] == c0[r];
      }
    }
  }

  lemma WriteBred(c0: map<nat, Cell>, fo: map<nat, Shape>, c: map<nat, Cell>, g: map<nat, Shape>, json: Json, ty: nat)
    requires Grew(c0, c, g, json, 0, ty) && json.Node? && json.bro == Nil && ty != 0
    requires fo.Keys !! g.Keys && KeepsTops(c0, fo, c, fo + g, {})
    ensures Bred(c0, fo, c, fo + g, json)
  {
    hide IsForest, JsonLed, CellsLed, Springs, Sprung, KeepsTop;
    forall r | r in fo + g ensures (r in fo && KeepsTop(c0, fo, c, fo + g, r)) || Sprung(c, r, (fo + g)[r], json) {
      if r in g {
        SpringsSprung(c, r, g[r], json, ty);
      }
    }
  }

  lemma WriteLed(c0: map<nat, Cell>, c: map<nat, Cell>, g: map<nat, Shape>, json: Json, ty: nat)
    requires Grew(c0, c, g, json, 0, ty) && JsonLed(json) && CellsLed(c0)
    ensures CellsLed(c)
  {
    hide IsForest, JsonLed, AllSpring;
    forall o | o in c ensures Led(c[o].key, c[o].val) {
      if o !in c0 {
        assert o in New(c0, c);
      }
    }
  }

  lemma TopsAreCells(c: map<nat, Cell>, fo: map<nat, Shape>)
    requires IsForest(c, fo)
    ensures forall x :: x in fo ==> x in c
  {
  }

  /** All that a root write, finished or not, does to the database. */
  lemma RootWritten(c0: map<nat, Cell>, fo: map<nat, Shape>, c: map<nat, Cell>, g: map<nat, Shape>, json: Json, ty: nat, tcells: map<nat, TypeCell>)
    requires Grew(c0, c, g, json, 0, ty) && json.Node? && json.bro == Nil && ty != 0
    requires IsForest(c0, fo) && TypedTops(c0, fo)
    ensures fo.Keys !! g.Keys && IsForest(c, fo + g) && TypedTops(c, fo + g) && Treed(c)
    ensures TypesLive(c0, tcells) && ty in tcells ==> TypesLive(c, tcells)
    ensures CellsLed(c0) && JsonLed(json) ==> CellsLed(c)
    ensures KeepsTops(c0, fo, c, fo + g, {}) && Bred(c0, fo, c, fo + g, json)
    ensures Extends(c0, c) && Links(c) <= Links(c0) + {0, ty}
  {
    hide Grew, IsForest, TypedTops, TypesLive, CellsLed, Treed, KeepsTops, JsonLed, Extends, Bred, Links;
    WriteLinks(c0, c, g, json, ty);
    WriteForest(c0, fo, c, g, json, ty);
    TopsAreCells(c0, fo);
    WriteTops(c0, fo, c, g, json, ty);
    WriteBred(c0, fo, c, g, json, ty);
    if TypesLive(c0, tcells) && ty in tcells {
      WriteTypes(c0, c, g, json, ty, tcells);
    }
    if CellsLed(c0) && JsonLed(json) {
      WriteLed(c0, c, g, json, ty);
    }
    ForestTreed(c, fo + g);
    GrewExtends(c0, c, g, json, 0, ty);
  }

  /** What is asked of a tree that becomes a root. */
  ghost predicate RootJson(json: Json) {
    json.Node? && json.bro == Nil && Wf(json) && InMemory(json)
  }

  /** The root `n` spells out `json`. */
  ghost predicate Spells(cells: map<nat, Cell>, fo: map<nat, Shape>, n: nat, json: Json, ty: nat) {
    && n in fo && n in cells && Readable(cells, fo[n]) && Raw(cells, fo[n]) == json
    && cells[n].ent.dadPtr == 0 && cells[n].ent.typePtr == ty
  }

  lemma BuiltSpells(c0: map<nat, Cell>, fo: map<nat, Shape>, c: map<nat, Cell>, g: map<nat, Shape>, n: nat, json: Json, ty: nat)
    requires n in g && Built(New(c0, c), g[n], json, 0, ty) && g[n].Spot? && g[n].off == n && fo.Keys !! g.Keys
    ensures Spells(c, fo + g, n, json, ty)
    ensures forall o :: o in Offs(g[n]) ==> o !in c0
  {
    hide IsForest;
    OnlyTop(New(c0, c), g[n]);
    LinkedFrame(New(c0, c), c, g[n], DadOf(New(c0, c), n), true);
  }

  /** Writes one root of the type at `ty`. */
  method WriteRoot(f: File, json: Json, dad: u64, ty: u64, ghost fo: map<nat, Shape>) returns (ok: bool, wrtFoff: nat, ghost fo': map<nat, Shape>)
    requires Rooted(f, fo) && RootJson(json) && dad == 0 && ty != 0
    modifies f, f.filp, f.fExtent
    ensures Rooted(f, fo') && f.Kept() && Extends(old(f.cells), f.cells)
    ensures old(TypesLive(f.cells, f.tcells)) && ty in f.tcells ==> TypesLive(f.cells, f.tcells)
    ensures old(CellsLed(f.cells)) && JsonLed(json) ==> CellsLed(f.cells)
    ensures fo.Keys <= fo'.Keys && KeepsTops(old(f.cells), fo, f.cells, fo', {}) && Bred(old(f.cells), fo, f.cells, fo', json)
    ensures Links(f.cells) <= Links(old(f.cells)) + {0, ty}
    ensures ok ==> Fits(json) && wrtFoff !in fo && fo'.Keys == fo.Keys + {wrtFoff} && Spells(f.cells, fo', wrtFoff, json, ty)
    ensures ok ==> forall o :: o in Offs(fo'[wrtFoff]) ==> o !in old(f.cells)
    ensures !ok ==> !Fits(json) || f.lstSectPtr + SECTION_SIZE > MAX_FILE
    ensures f.lstSectPtr <= old(f.lstSectPtr) + SECTION_SIZE * Size(json)
  {
    hide Inv, At, IsForest, TypesLive, CellsLed, TypedTops, Linked, Offs, Treed, KeepsTops, Grew, Built, Extends, JsonLed, Fits, New, Bred, Size, Links;
    ghost var c0 := f.cells;
    ghost var g;
    ok, wrtFoff, g := FileWrite(f, json, dad, ty);
    RootWritten(c0, fo, f.cells, g, json, ty, f.tcells);
    fo' := fo + g;
    if ok {
      BuiltSpells(c0, fo, f.cells, g, wrtFoff, json, ty);
    }
  }

  // ---------------------------------------------------------------- what the new trees answer to a query

  /** No node strictly inside the tree satisfies the query. */
  ghost predicate MissesInside(q: Query, json: Json)
    reads q
  {
    q.typeName.Some? || (json.Node? && NoneHold(q.items, ReadBack(json.son)))
  }

  /** The same, also when the tree is left in pieces. */
  ghost predicate QuietInside(q: Query, json: Json)
    reads q
  {
    q.typeName.Some? || (json.Node? && Quiet(q.items, ReadBack(json.son)))
  }

  lemma {:induction false} NoneHoldAt(cells: map<nat, Cell>, t: Shape, items: seq<QueryItem>, o: nat)
    requires Readable(cells, t) && o in Offs(t) && NoneHold(items, ReadBack(Raw(cells, t)))
    ensures Readable(cells, SubShape(t, o)) && ReadBack(Raw(cells, SubShape(t, o))).Node?
    ensures !ItemsHold(items, ReadBack(Raw(cells, SubShape(t, o))))
  {
    hide ItemsHold, ReadKey, ReadVal;
    if t.off != o {
      if o in Offs(t.bro) {
        NoneHoldAt(cells, t.bro, items, o);
      } else {
        NoneHoldAt(cells, t.son, items, o);
      }
    }
  }

  /** No node of a tree meets the conditions if that can be said of what the tree spells out. */
  lemma NoneHit(c: Catalog, fo: map<nat, Shape>, q: Query, r: nat, t: Shape, o: nat)
    requires IsForest(c.cells, fo) && Treed(c.cells) && r in fo && o in Offs(t) && Offs(t) <= Offs(fo[r])
    requires SubShape(fo[r], o) == SubShape(t, o) && Readable(c.cells, t) && NoneHold(q.items, ReadBack(Raw(c.cells, t)))
    ensures o in c.cells && !Hit(c.cells, c.tcells, q, o)
  {
    hide IsForest, Treed, Linked, Raw, ItemsHold, Tree, ReadBack, NoneHold, SubShape, Offs;
    TopReadable(c.cells, fo, r);
    SubLinked(c.cells, fo[r], DadOf(c.cells, r), true, o);
    NoneHoldAt(c.cells, t, q.items, o);
    AsTop(c.cells, SubShape(fo[r], o), DadOf(c.cells, o), fo[r].off == o);
    TreeIs(c.cells, o, SubShape(fo[r], o));
  }

  /** In a typed root only the root itself can satisfy a query that misses everything inside. */
  lemma RootFresh(c: Catalog, fo: map<nat, Shape>, q: Query, r: nat)
    requires IsForest(c.cells, fo) && Treed(c.cells) && r in fo && fo[r].Spot? && fo[r].off == r && fo[r].bro == Empty
    requires r in c.cells && c.cells[r].ent.typePtr != 0 && Readable(c.cells, fo[r])
    requires NoneHold(q.items, ReadBack(Raw(c.cells, fo[r])).son)
    ensures FreshTop(c, fo, r, q)
  {
    hide IsForest, Treed, Linked, ItemsHold, ReadKey, ReadVal, Hit, NoneHold;
    forall o | o in Offs(fo[r]) && o != r ensures !(o in c.cells && Hit(c.cells, c.tcells, q, o)) {
      assert Offs(fo[r].bro) == {} && Offs(fo[r]) == {r} + Offs(fo[r].bro) + Offs(fo[r].son);
      assert SubShape(fo[r], o) == SubShape(fo[r].son, o);
      NoneHit(c, fo, q, r, fo[r].son, o);
    }
  }

  lemma UntypedFresh(c: Catalog, fo: map<nat, Shape>, q: Query, r: nat)
    requires IsForest(c.cells, fo) && Treed(c.cells) && r in fo && Readable(c.cells, fo[r])
    requires NoneHold(q.items, ReadBack(Raw(c.cells, fo[r])))
    ensures FreshTop(c, fo, r, q)
  {
    hide IsForest, Treed, Linked, ItemsHold, ReadBack, Hit, NoneHold, Raw, SubShape;
    forall o | o in Offs(fo[r]) ensures !(o in c.cells && Hit(c.cells, c.tcells, q, o)) {
      NoneHit(c, fo, q, r, fo[r], o);
    }
  }

  lemma TypedFresh(c: Catalog, fo: map<nat, Shape>, q: Query, r: nat)
    requires IsForest(c.cells, fo) && Treed(c.cells) && TypesLive(c.cells, c.tcells) && r in fo && q.typeName.Some?
    ensures FreshTop(c, fo, r, q)
  {
    hide IsForest, Treed, Linked, Hit, Raw, TypesLive;
    TypedIsRootQuery(c, fo, q);
    forall o | o in Offs(fo[r]) && o in c.cells && Hit(c.cells, c.tcells, q, o) ensures o == r && c.cells[o].ent.typePtr != 0 {
      TopReadable(c.cells, fo, o);
      OneTree(c.cells, fo, r, o, o);
    }
  }

  /** A new root that spells out the tree. */
  lemma SpellsFresh(c: Catalog, fo: map<nat, Shape>, q: Query, n: nat, json: Json, ty: nat)
    requires IsForest(c.cells, fo) && Treed(c.cells) && TypesLive(c.cells, c.tcells) && TypedTops(c.cells, fo)
    requires Spells(c.cells, fo, n, json, ty) && ty != 0 && json.Node? && json.bro == Nil && MissesInside(q, json)
    ensures FreshTop(c, fo, n, q)
  {
    hide IsForest, Treed, Linked, ItemsHold, ReadKey, ReadVal, NoneHold, TypesLive, Offs;
    if q.typeName.Some? {
      TypedFresh(c, fo, q, n);
    } else {
      TopReadable(c.cells, fo, n);
      RootFresh(c, fo, q, n);
    }
  }

  /** Whatever a write of the tree has made. */
  lemma SprungFresh(c: Catalog, fo: map<nat, Shape>, q: Query, r: nat, json: Json)
    requires IsForest(c.cells, fo) && Treed(c.cells) && TypesLive(c.cells, c.tcells) && TypedTops(c.cells, fo)
    requires r in fo && Sprung(c.cells, r, fo[r], json) && QuietInside(q, json)
    ensures FreshTop(c, fo, r, q)
  {
    hide IsForest, Treed, Linked, ItemsHold, ReadKey, ReadVal, TypesLive, Offs, Raw, Quiet, Frags;
    if q.typeName.Some? {
      TypedFresh(c, fo, q, r);
    } else if c.cells[r].ent.typePtr != 0 {
      QuietNone(q.items, ReadBack(json.son));
      RootFresh(c, fo, q, r);
    } else {
      QuietFrags(q.items, json.son, Raw(c.cells, fo[r]));
      UntypedFresh(c, fo, q, r);
    }
  }

  // ---------------------------------------------------------------- under a live iterator

  /** The iterator stands where it should: nothing missed, nothing stale, nothing twice. */
  ghost predicate IterOk(f: File, it: Iter, q: Query, col: seq<Found>, done: set<nat>)
    reads f, f.fExtent, it, q
  {
    && it.file == f && it.query == q && Treed(f.cells)
    && (it.curSect.Some? ==> it.curSect.value < |f.fExtent|) && (it.curSect.None? ==> it.curCol == [])
    && Covers(Cat(f), q, col, it.curSect, done) && ColOk(Cat(f), q, col) && ColHere(Cat(f), col, it.curSect)
  }

  lemma DbCat(f: File, fo: map<nat, Shape>, q: Query)
    requires DbOk(f, fo)
    ensures IsForest(f.cells, fo) && Treed(f.cells) && TypesLive(f.cells, f.tcells) && Inv(f.View()) && CatOf(f.View()) == Cat(f)
    ensures RootQuery(Cat(f), fo, q) ==> CatOk(Cat(f), fo, q)
  {
    hide Inv, IsForest, TypesLive, Treed, CellsLed, TypedTops;
  }

  method StartIter(f: File, q: Query, ghost fo: map<nat, Shape>) returns (it: Iter)
    requires DbOk(f, fo) && Selective(q.typeName, q.items)
    modifies f.filp
    ensures fresh(it) && DbOk(f, fo) && OnlyRead(f)
    ensures IterOk(f, it, q, it.curCol, {}) && (it.curCol == [] ==> Settled(Cat(f), [], it.curSect))
  {
    hide Inv, At, IsForest, TypesLive, Treed, CellsLed, TypedTops, Covers, ColOk, ColHere, NoHits, HitsOf, Selective;
    it := new Iter(f, q, fo);
    DbCat(f, fo, q);
    StartCovers(f.View(), q, it.curCol, it.curSect);
  }

  /** How far an iterator can still move: sections only ever follow at higher offsets. */
  ghost function ToGo(f: File, it: Iter): nat
    reads f, f.fExtent, it
  {
    if it.curSect.Some? && it.curSect.value < |f.fExtent| && f.fExtent[it.curSect.value].fileOffset <= MAX_FILE
    then MAX_FILE - f.fExtent[it.curSect.value].fileOffset
    else 0
  }

  lemma IterSect(f: File, it: Iter, q: Query, col: seq<Found>, done: set<nat>)
    requires IterOk(f, it, q, col, done) && it.curCol != []
    ensures it.curSect.Some? && it.curSect.value < |f.fExtent|
  {
  }

  lemma ToGoBounds(s: Snap, i: nat, j: nat)
    requires Inv(s) && i <= j < |s.exts|
    ensures 0 <= MAX_FILE - s.exts[j].base <= MAX_FILE - s.exts[i].base
    ensures i < j ==> MAX_FILE - s.exts[j].base < MAX_FILE - s.exts[i].base
  {
    hide ExtsOk, TypesOk, Tiled, AllHomed, Holds, Disjoint;
  }

  /** iter_next after the current hit has been dealt with. */
  method StepIter(f: File, it: Iter, q: Query, ghost fo: map<nat, Shape>, ghost done: set<nat>)
    requires DbOk(f, fo) && Selective(q.typeName, q.items) && it.curCol != [] && IterOk(f, it, q, it.curCol[1..], done)
    modifies it, f.filp
    ensures DbOk(f, fo) && OnlyRead(f)
    ensures IterOk(f, it, q, it.curCol, done) && (it.curCol == [] ==> Settled(Cat(f), [], it.curSect))
    ensures ToGo(f, it) <= old(ToGo(f, it))
    ensures ToGo(f, it) < old(ToGo(f, it)) || |it.curCol| < |old(it.curCol)|
  {
    hide Inv, At, IsForest, TypesLive, Treed, CellsLed, TypedTops, Covers, ColOk, ColHere, NoHits, HitsOf, Selective;
    ghost var col, sect := it.curCol, it.curSect;
    it.Next(fo);
    DbCat(f, fo, q);
    NextCovers(f.View(), q, col, sect, it.curCol, it.curSect, done);
    ToGoBounds(f.View(), sect.value, it.curSect.value);
  }

  /** The current hit is a root that satisfies the query. */
  lemma CurrentHit(f: File, fo: map<nat, Shape>, it: Iter, q: Query, done: set<nat>)
    requires DbOk(f, fo) && Treed(f.cells) && RootQuery(Cat(f), fo, q) && it.curCol != [] && IterOk(f, it, q, it.curCol, done)
    ensures var r := it.curCol[0].foff;
      && r in fo && r in f.cells && r in HitSet(Cat(f), q) && f.cells[r].ent.typePtr != 0 && f.cells[r].ent.typePtr in f.tcells
      && it.curCol[0].ent == f.cells[r].ent && f.cells[r].ent.dadPtr == 0
  {
    hide Inv, IsForest, TypesLive, Treed, CellsLed, Hit, Covers, ColHere, NodeAt, RootQuery;
    DbCat(f, fo, q);
    HitIsTop(Cat(f), fo, q, it.curCol[0].foff);
  }

  lemma CoversAfter(
    c: Catalog, fo: map<nat, Shape>, c': Catalog, fo': map<nat, Shape>, q: Query, col: seq<Found>, sect: Option<nat>,
    done: set<nat>, done': set<nat>)
    requires CatOk(c, fo, q) && CatOk(c', fo', q) && col != [] && Stepped(c, fo, c', fo', q, col[0].foff, done')
    requires Covers(c, q, col, sect, done) && ColOk(c, q, col) && ColHere(c, col, sect) && done - {col[0].foff} <= done'
    ensures Covers(c', q, col[1..], sect, done') && ColOk(c', q, col[1..]) && ColHere(c', col[1..], sect)
    ensures done' == {} ==> HitSet(c', q) == HitSet(c, q) - {col[0].foff}
  {
    hide CatOk, Stepped, Covers, ColOk, ColHere, HitSet;
    SteppedIter(c, fo, c', fo', q, col, sect, done, done');
    if done' == {} {
      SteppedHits(c, fo, c', fo', q, col[0].foff);
    }
  }

  /** Every tree whose root has no type of this name is where it was, entity for entity. */
  ghost predicate KeepsOtherTypes(c: Catalog, fo: map<nat, Shape>, cells': map<nat, Cell>, fo': map<nat, Shape>, name: seq<byte>) {
    forall r :: r in fo && !NamedAs(c.cells, c.tcells, r, name) ==> KeepsTop(c.cells, fo, cells', fo', r)
  }

  /** A typed command touches roots of that type only. */
  lemma OtherTypesKept(c: Catalog, fo: map<nat, Shape>, q: Query, cells': map<nat, Cell>, fo': map<nat, Shape>, e: set<nat>)
    requires Treed(c.cells) && TypesLive(c.cells, c.tcells) && KeepsTops(c.cells, fo, cells', fo', e) && e <= HitSet(c, q)
    ensures q.typeName.Some? ==> KeepsOtherTypes(c, fo, cells', fo', q.typeName.value)
  {
    hide Treed, TypesLive, KeepsTop, Hit, NamedAs;
    if q.typeName.Some? {
      forall r | r in fo && !NamedAs(c.cells, c.tcells, r, q.typeName.value) ensures KeepsTop(c.cells, fo, cells', fo', r) {
        HitExact(c.cells, c.tcells, q, r);
      }
    }
  }

  // ---------------------------------------------------------------- delete

  ghost predicate InTrees(fo: map<nat, Shape>, gone: set<nat>, o: nat) {
    exists r :: r in gone && r in fo && o in Offs(fo[r])
  }

  /** Exactly the trees of `gone` are gone, and no other cell has changed. */
  ghost predicate Pruned(cells0: map<nat, Cell>, fo0: map<nat, Shape>, cells: map<nat, Cell>, fo: map<nat, Shape>, gone: set<nat>) {
    && gone <= fo0.Keys && fo == fo0 - gone
    && (forall o :: o in cells ==> o in cells0 && cells[o] == cells0[o])
    && (forall o :: o in cells0 ==> (o in cells <==> !InTrees(fo0, gone, o)))
  }

  lemma PrunedNone(cells: map<nat, Cell>, fo: map<nat, Shape>)
    ensures Pruned(cells, fo, cells, fo, {})
  {
    hide Offs;
  }

  lemma PrunedMore(cells0: map<nat, Cell>, fo0: map<nat, Shape>, cells: map<nat, Cell>, fo: map<nat, Shape>, gone: set<nat>, r: nat)
    requires Pruned(cells0, fo0, cells, fo, gone) && r in fo
    ensures Pruned(cells0, fo0, cells - Offs(fo[r]), fo - {r}, gone + {r})
  {
    hide Offs;
    forall o ensures InTrees(fo0, gone + {r}, o) <==> InTrees(fo0, gone, o) || o in Offs(fo0[r]) {
    }
  }

  lemma DeleteStepped(c: Catalog, fo: map<nat, Shape>, c': Catalog, q: Query, r: nat)
    requires CatOk(c, fo, q) && IsForest(c'.cells, fo - {r}) && Treed(c'.cells) && TypesLive(c'.cells, c'.tcells) && r in fo
    requires KeepsTops(c.cells, fo, c'.cells, fo - {r}, {r}) && c'.tcells == c.tcells
    requires |c.exts| <= |c'.exts| && forall k :: 0 <= k < |c.exts| ==> c'.exts[k].base == c.exts[k].base
    ensures CatOk(c', fo - {r}, q) && Stepped(c, fo, c', fo - {r}, q, r, {})
  {
    hide IsForest, Treed, TypesLive, KeepsTop, Hit, FreshTop;
    RootsOnlyAfter(c, fo, c', fo - {r}, q);
  }

  /** One turn of the loop of user_delete, up to iter_next. */
  method DeleteOne(f: File, it: Iter, q: Query, ghost fo: map<nat, Shape>) returns (ok: bool, ghost fo': map<nat, Shape>)
    requires DbOk(f, fo) && it.curCol != [] && Treed(f.cells) && RootQuery(Cat(f), fo, q) && IterOk(f, it, q, it.curCol, {})
    modifies f`cells, f.filp, f.fExtent
    ensures ok && DbOk(f, fo') && f.Kept() && f.fExtent == old(f.fExtent) && f.lstSectPtr == old(f.lstSectPtr)
    ensures Treed(f.cells) && RootQuery(Cat(f), fo', q) && IterOk(f, it, q, it.curCol[1..], {})
    ensures var r := it.curCol[0].foff;
      && r in fo && r in old(HitSet(Cat(f), q)) && fo' == fo - {r} && f.cells == old(f.cells) - Offs(fo[r])
      && KeepsTops(old(f.cells), fo, f.cells, fo', {r}) && HitSet(Cat(f), q) == old(HitSet(Cat(f), q)) - {r}
  {
    hide Inv, At, IsForest, TypesLive, Treed, CellsLed, TypedTops, Covers, ColOk, ColHere, Offs, KeepsTops, HitSet, RootQuery, Stepped;
    ghost var c := Cat(f);
    DbCat(f, fo, q);
    CurrentHit(f, fo, it, q, {});
    var r := it.GetFound().foff;
    ok := DeleteRoot(f, r, fo);
    fo' := fo - {r};
    DbCat(f, fo', q);
    DeleteStepped(c, fo, Cat(f), q, r);
    CoversAfter(c, fo, Cat(f), fo', q, it.curCol, it.curSect, {}, {});
  }

  /** The loop invariant of user_delete: the trees of `gone` are gone, and the other hits are still there. */
  ghost predicate Deleting(
    f: File, it: Iter, q: Query, cnt: nat, fo: map<nat, Shape>, cells0: map<nat, Cell>, fo0: map<nat, Shape>, hits: set<nat>, gone: set<nat>)
    reads f, f.filp, f.fExtent, f.fTypes, it, q
  {
    && DbOk(f, fo) && Treed(f.cells) && RootQuery(Cat(f), fo, q) && IterOk(f, it, q, it.curCol, {})
    && (it.curCol == [] ==> Settled(Cat(f), [], it.curSect))
    && gone <= hits && HitSet(Cat(f), q) == hits - gone && cnt == |gone|
    && Pruned(cells0, fo0, f.cells, fo, gone) && KeepsTops(cells0, fo0, f.cells, fo, gone)
  }

  /** One whole turn of the loop of user_delete. */
  method DeleteTurn(
    f: File, it: Iter, q: Query, cnt: nat, ghost fo: map<nat, Shape>,
    ghost cells0: map<nat, Cell>, ghost fo0: map<nat, Shape>, ghost hits: set<nat>, ghost gone: set<nat>)
    returns (ok: bool, ghost fo': map<nat, Shape>, ghost gone': set<nat>)
    requires Deleting(f, it, q, cnt, fo, cells0, fo0, hits, gone) && it.curCol != []
    modifies f`cells, f.filp, f.fExtent, it
    ensures ok && f.Kept() && f.fExtent == old(f.fExtent) && f.lstSectPtr == old(f.lstSectPtr)
    ensures Deleting(f, it, q, cnt + 1, fo', cells0, fo0, hits, gone') && gone < gone'
  {
    hide Inv, At, IsForest, TypesLive, Treed, CellsLed, TypedTops, Covers, ColOk, ColHere, Offs, KeepsTops, HitSet, RootsOnly, Stepped, Pruned, IterOk, Settled, Selective, Heads, DbOk;
    ghost var r, cells1 := it.curCol[0].foff, f.cells;
    ok, fo' := DeleteOne(f, it, q, fo);
    PrunedMore(cells0, fo0, cells1, fo, gone, r);
    KeepsTrans(cells0, fo0, cells1, fo, f.cells, fo', gone, {r});
    gone' := gone + {r};
    StepIter(f, it, q, fo', {});
  }

  /**
   Deletes everything that satisfies the query, while iterating over it. Where only roots satisfy the
   query, what is left is the old forest minus exactly those trees, every other tree unchanged at its
   old offset, and nothing that satisfies the query; the loop makes one turn for each of them.
   */
  method UserDelete(f: File, q: Query, ghost fo: map<nat, Shape>) returns (ok: bool, cnt: nat, ghost fo': map<nat, Shape>)
    requires DbOk(f, fo) && Treed(f.cells) && RootQuery(Cat(f), fo, q)
    modifies f`cells, f.filp, f.fExtent
    ensures ok && DbOk(f, fo') && f.Kept()
    ensures old(HitSet(Cat(f), q)) <= fo.Keys && fo' == fo - old(HitSet(Cat(f), q))
    ensures cnt == |old(HitSet(Cat(f), q))|
    ensures Treed(f.cells) && HitSet(Cat(f), q) == {}
    ensures Pruned(old(f.cells), fo, f.cells, fo', old(HitSet(Cat(f), q)))
    ensures KeepsTops(old(f.cells), fo, f.cells, fo', old(HitSet(Cat(f), q)))
    ensures q.typeName.Some? ==> KeepsOtherTypes(old(Cat(f)), fo, f.cells, fo', q.typeName.value)
  {
    hide Inv, At, IsForest, TypesLive, Treed, CellsLed, TypedTops, Offs, KeepsTops, HitSet, RootsOnly, Pruned, IterOk, Settled, Selective, Heads, DbOk, KeepsOtherTypes;
    ghost var c0 := Cat(f);
    ok, cnt, fo' := true, 0, fo;
    DbCat(f, fo, q);
    ghost var hits, gone := HitSet(Cat(f), q), {};
    PrunedNone(f.cells, fo);
    KeepsRefl(f.cells, fo);
    var it := StartIter(f, q, fo);
    while it.IsAvail()
      invariant fresh(it) && f.Kept() && f.fExtent == old(f.fExtent) && ok
      invariant Deleting(f, it, q, cnt, fo', old(f.cells), fo, hits, gone)
      decreases hits - gone
    {
      ok, fo', gone := DeleteTurn(f, it, q, cnt, fo', old(f.cells), fo, hits, gone);
      cnt := cnt + 1;
    }
    IterDone(f, it, q, {});
    assert gone == hits;
    PrunedIs(old(f.cells), fo, f.cells, fo', gone);
    OtherTypesKept(c0, fo, q, f.cells, fo', gone);
  }

  lemma PrunedIs(cells0: map<nat, Cell>, fo0: map<nat, Shape>, cells: map<nat, Cell>, fo: map<nat, Shape>, gone: set<nat>)
    requires Pruned(cells0, fo0, cells, fo, gone)
    ensures gone <= fo0.Keys && fo == fo0 - gone
  {
  }

  lemma KeepsRefl(cells: map<nat, Cell>, fo: map<nat, Shape>)
    requires IsForest(cells, fo)
    ensures KeepsTops(cells, fo, cells, fo, {})
  {
    hide Raw, Linked, IsForest;
    forall x | x in fo ensures KeepsTop(cells, fo, cells, fo, x) {
      TopReadable(cells, fo, x);
    }
  }

  // ---------------------------------------------------------------- update

  ghost predicate Injective(m: map<nat, nat>) {
    forall x, y :: x in m && y in m && x != y ==> m[x] != m[y]
  }

  /**
   `moved` takes each replaced root to the one root that replaces it: the same type, and a tree
   that spells out `json`. There are no other roots than the untouched and the replacing ones.
   */
  ghost predicate Replaced(
    cells0: map<nat, Cell>, fo0: map<nat, Shape>, cells: map<nat, Cell>, fo: map<nat, Shape>, moved: map<nat, nat>, json: Json)
  {
    && moved.Keys <= fo0.Keys && Injective(moved)
    && (fo0.Keys - moved.Keys) !! moved.Values
    && fo.Keys == (fo0.Keys - moved.Keys) + moved.Values
    && (forall r :: r in moved ==> r in cells0 && Spells(cells, fo, moved[r], json, cells0[r].ent.typePtr))
  }

  lemma ReplacedNone(cells: map<nat, Cell>, fo: map<nat, Shape>, json: Json)
    ensures Replaced(cells, fo, cells, fo, map[], json)
  {
  }

  lemma SpellsKept(
    cells: map<nat, Cell>, fo: map<nat, Shape>, cells': map<nat, Cell>, fo': map<nat, Shape>, e: set<nat>, n: nat, json: Json, ty: nat)
    requires IsForest(cells, fo) && KeepsTops(cells, fo, cells', fo', e) && n !in e && Spells(cells, fo, n, json, ty)
    ensures Spells(cells', fo', n, json, ty)
  {
    hide IsForest, Linked;
    assert KeepsTop(cells, fo, cells', fo', n);
    TopReadable(cells, fo, n);
    assert n in Offs(fo[n]);
    LinkedFrame(cells, cells', fo[n], DadOf(cells, n), true);
  }

  lemma ReplacedMore(
    cells0: map<nat, Cell>, fo0: map<nat, Shape>, cells: map<nat, Cell>, fo: map<nat, Shape>, moved: map<nat, nat>, json: Json,
    cells': map<nat, Cell>, fo': map<nat, Shape>, r: nat, n: nat, ty: nat)
    requires Replaced(cells0, fo0, cells, fo, moved, json) && IsForest(cells, fo)
    requires r in fo0 && r !in moved && r !in moved.Values && r in cells0 && cells0[r].ent.typePtr == ty
    requires KeepsTops(cells, fo, cells', fo', {r})
    requires n !in fo - {r} && fo'.Keys == (fo.Keys - {r}) + {n} && Spells(cells', fo', n, json, ty)
    ensures Replaced(cells0, fo0, cells', fo', moved[r := n], json)
  {
    hide IsForest, KeepsTops, Spells;
    var moved' := moved[r := n];
    forall x | x in moved' ensures x in cells0 && Spells(cells', fo', moved'[x], json, cells0[x].ent.typePtr) {
      if x != r {
        assert moved[x] in moved.Values;
        SpellsKept(cells, fo, cells', fo', {r}, moved[x], json, cells0[x].ent.typePtr);
      }
    }
    assert forall x :: x in moved ==> moved[x] in fo - {r};
    assert moved'.Values == moved.Values + {n} by {
      ValuesMore(moved, r, n);
    }
  }

  /** A replaced root that is met again, and replaced again. */
  lemma ReplacedAgain(
    cells0: map<nat, Cell>, fo0: map<nat, Shape>, cells: map<nat, Cell>, fo: map<nat, Shape>, moved: map<nat, nat>, json: Json,
    cells': map<nat, Cell>, fo': map<nat, Shape>, x: nat, n: nat)
    requires Replaced(cells0, fo0, cells, fo, moved, json) && IsForest(cells, fo)
    requires x in moved && x in cells0 && KeepsTops(cells, fo, cells', fo', {moved[x]})
    requires n !in fo - {moved[x]} && fo'.Keys == (fo.Keys - {moved[x]}) + {n}
    requires Spells(cells', fo', n, json, cells0[x].ent.typePtr)
    ensures Replaced(cells0, fo0, cells', fo', moved[x := n], json)
    ensures moved[x := n].Values == (moved.Values - {moved[x]}) + {n}
  {
    hide IsForest, KeepsTops, Spells;
    var moved', r := moved[x := n], moved[x];
    forall y | y in moved' ensures y in cells0 && Spells(cells', fo', moved'[y], json, cells0[y].ent.typePtr) {
      if y != x {
        assert moved[y] != r;
        SpellsKept(cells, fo, cells', fo', {r}, moved[y], json, cells0[y].ent.typePtr);
      }
    }
    assert forall y :: y in moved && y != x ==> moved[y] in fo - {r};
    forall v ensures v in moved'.Values <==> v in (moved.Values - {r}) + {n} {
      if v in moved.Values && v != r {
        var y :| y in moved && moved[y] == v;
        assert y in moved' && moved'[y] == v;
      }
      assert x in moved' && moved'[x] == n;
    }
    assert moved'.Keys == moved.Keys;
    assert Injective(moved');
    assert fo'.Keys == (fo0.Keys - moved'.Keys) + moved'.Values;
  }

  lemma ValuesMore(m: map<nat, nat>, r: nat, n: nat)
    requires r !in m
    ensures m[r := n].Values == m.Values + {n}
  {
    var m' := m[r := n];
    forall v ensures v in m'.Values <==> v in m.Values + {n} {
      if v in m.Values {
        var x :| x in m && m[x] == v;
        assert x in m' && m'[x] == v;
      }
      assert r in m' && m'[r] == n;
    }
  }

  /** A new root is a hit exactly if its tree meets the conditions; its type is that of a hit already. */
  lemma SpellsHit(
    cells0: map<nat, Cell>, cells: map<nat, Cell>, fo: map<nat, Shape>, tcells: map<nat, TypeCell>, q: Query,
    x: nat, n: nat, json: Json)
    requires Treed(cells0) && x in cells0 && Hit(cells0, tcells, q, x)
    requires IsForest(cells, fo) && Treed(cells) && Spells(cells, fo, n, json, cells0[x].ent.typePtr)
    requires ReadBack(json).Node?
    ensures Hit(cells, tcells, q, n) <==> ItemsHold(q.items, ReadBack(json))
  {
    hide IsForest, Treed, Linked, Raw, ItemsHold, Tree, ReadBack, StrEq, StrCopy;
    assert Top(cells, n, fo[n]) by { TopReadable(cells, fo, n); }
    TreeIs(cells, n, fo[n]);
  }

  lemma UpdateStepped(c: Catalog, fo: map<nat, Shape>, c': Catalog, fo': map<nat, Shape>, q: Query, r: nat, n: nat, json: Json, ty: nat, done: set<nat>)
    requires CatOk(c, fo, q) && IsForest(c'.cells, fo') && Treed(c'.cells) && TypesLive(c'.cells, c'.tcells) && TypedTops(c'.cells, fo')
    requires r in fo && n in done && KeepsTops(c.cells, fo, c'.cells, fo', {r}) && c'.tcells == c.tcells
    requires fo'.Keys == (fo.Keys - {r}) + {n} && n !in fo - {r}
    requires Spells(c'.cells, fo', n, json, ty) && ty != 0 && json.Node? && json.bro == Nil && MissesInside(q, json)
    requires |c.exts| <= |c'.exts| && forall k :: 0 <= k < |c.exts| ==> c'.exts[k].base == c.exts[k].base
    ensures CatOk(c', fo', q) && Stepped(c, fo, c', fo', q, r, done)
  {
    hide IsForest, Treed, TypesLive, TypedTops, KeepsTop, Hit, FreshTop, Spells, MissesInside, Selective;
    SpellsFresh(c', fo', q, n, json, ty);
    RootsOnlyAfter(c, fo, c', fo', q);
  }

  /** One turn of the loop of user_update, up to iter_next. */
  method UpdateOne(f: File, it: Iter, q: Query, json: Json, ghost fo: map<nat, Shape>, ghost done: set<nat>)
    returns (ok: bool, updFoff: nat, ghost fo': map<nat, Shape>)
    requires DbOk(f, fo) && it.curCol != [] && Treed(f.cells) && RootQuery(Cat(f), fo, q) && IterOk(f, it, q, it.curCol, done)
    requires RootJson(json) && JsonLed(json) && MissesInside(q, json)
    modifies f, f.filp, f.fExtent
    ensures DbOk(f, fo') && f.Kept() && Treed(f.cells)
    ensures it.curCol[0].foff in old(HitSet(Cat(f), q)) && it.curCol[0].foff in fo && it.curCol[0].foff in old(f.cells)
    ensures old(f.cells)[it.curCol[0].foff].ent.typePtr != 0
    ensures KeepsTops(old(f.cells), fo, f.cells, fo', {it.curCol[0].foff})
    ensures ok ==> Fits(json) && RootQuery(Cat(f), fo', q)
    ensures ok ==> IterOk(f, it, q, it.curCol[1..], (done - {it.curCol[0].foff}) + {updFoff})
    ensures ok ==>
      var r := it.curCol[0].foff;
      && updFoff !in fo - {r} && fo'.Keys == (fo.Keys - {r}) + {updFoff}
      && Spells(f.cells, fo', updFoff, json, old(f.cells)[r].ent.typePtr)
    ensures !ok ==> !Fits(json) || f.lstSectPtr + SECTION_SIZE > MAX_FILE
    ensures Links(f.cells) <= Links(old(f.cells)) + {0}
    ensures fo.Keys - {it.curCol[0].foff} <= fo'.Keys
    ensures forall n :: n in fo' && n !in fo - {it.curCol[0].foff} ==> Sprung(f.cells, n, fo'[n], json)
  {
    hide Inv, At, IsForest, TypesLive, Treed, CellsLed, TypedTops, Covers, ColOk, ColHere, Offs, KeepsTops, HitSet, RootQuery, Stepped, Spells, RootJson, JsonLed, Fits, Extends, MissesInside, Sprung, Links;
    ghost var c := Cat(f);
    DbCat(f, fo, q);
    CurrentHit(f, fo, it, q, done);
    JsonNode(json);
    var found := it.GetFound();
    var r := found.foff;
    ok := DeleteRoot(f, r, fo);
    ghost var cells1 := f.cells;
    ok, updFoff, fo' := WriteRoot(f, json, found.ent.dadPtr, found.ent.typePtr, fo - {r});
    KeepsTrans(c.cells, fo, cells1, fo - {r}, f.cells, fo', {r}, {});
    assert {r} + {} == {r};
    LinksLess(c.cells, Offs(fo[r]), r);
    if ok {
      DbCat(f, fo', q);
      ghost var done' := (done - {r}) + {updFoff};
      UpdateStepped(c, fo, Cat(f), fo', q, r, updFoff, json, found.ent.typePtr, done');
      CoversAfter(c, fo, Cat(f), fo', q, it.curCol, it.curSect, done, done');
    }
  }

  lemma LinksLess(cells: map<nat, Cell>, gone: set<nat>, r: nat)
    requires r in cells
    ensures Links(cells - gone) <= Links(cells) && cells[r].ent.typePtr in Links(cells)
  {
  }

  lemma JsonNode(json: Json)
    requires RootJson(json)
    ensures json.Node? && json.bro == Nil && ReadBack(json).Node?
  {
    hide Wf, InMemory, StrCopy;
  }

  /** Which old root the root `r` stands for: itself, unless it is a replacement already. */
  ghost function Origin(moved: map<nat, nat>, r: nat): (x: nat)
    ensures if r in moved.Values then x in moved && moved[x] == r else x == r
  {
    if r in moved.Values then (var x :| x in moved && moved[x] == r; x) else r
  }

  /** The touched hits come before all the others in the file. */
  ghost predicate InOrder(touched: set<nat>, hits: set<nat>) {
    forall x, h :: x in touched && h in hits && h !in touched ==> x < h
  }

  /** The loop invariant of user_update: `moved` are the old hits replaced so far. */
  ghost predicate Updating(c0: Catalog, fo0: map<nat, Shape>, c: Catalog, fo: map<nat, Shape>, moved: map<nat, nat>, json: Json, hits: set<nat>) {
    && IsForest(c0.cells, fo0) && c.tcells == c0.tcells && moved.Keys <= hits && InOrder(moved.Keys, hits)
    && Replaced(c0.cells, fo0, c.cells, fo, moved, json) && KeepsTops(c0.cells, fo0, c.cells, fo, moved.Keys)
  }

  lemma UpdatingStart(c: Catalog, fo: map<nat, Shape>, json: Json, hits: set<nat>)
    requires IsForest(c.cells, fo)
    ensures Updating(c, fo, c, fo, map[], json, hits)
  {
    hide IsForest, Replaced, KeepsTops;
    ReplacedNone(c.cells, fo, json);
    KeepsRefl(c.cells, fo);
    var none: map<nat, nat> := map[];
    assert none.Keys == {};
  }

  /** The root that is met next is an old hit, untouched so far, or a replacement of one. */
  lemma UpdatingNext(
    c0: Catalog, fo0: map<nat, Shape>, c: Catalog, fo: map<nat, Shape>, moved: map<nat, nat>, json: Json, q: Query, r: nat)
    requires CatOk(c0, fo0, q) && CatOk(c, fo, q) && Updating(c0, fo0, c, fo, moved, json, HitSet(c0, q))
    requires r in fo && r in HitSet(c, q)
    ensures var x := Origin(moved, r);
      && x in fo0 && x in c0.cells && x in HitSet(c0, q) && r in c.cells
      && c0.cells[x].ent.typePtr == c.cells[r].ent.typePtr
      && (r !in moved.Values ==> x !in moved)
  {
    hide IsForest, Treed, TypesLive, Linked, Raw, Hit, KeepsTop, RootQuery;
    if r !in moved.Values {
      TopReadable(c0.cells, fo0, r);
      assert KeepsTop(c0.cells, fo0, c.cells, fo, r);
      KeptSame(c0.cells, fo0, c.cells, fo, r, c0.tcells, q);
    }
  }

  /** It is the first of the old hits that are untouched, unless it is a replacement. */
  lemma NextInOrder(
    f: File, it: Iter, q: Query, fo: map<nat, Shape>, c0: Catalog, fo0: map<nat, Shape>, moved: map<nat, nat>, json: Json)
    requires DbOk(f, fo) && it.curCol != [] && IterOk(f, it, q, it.curCol, moved.Values)
    requires CatOk(c0, fo0, q) && CatOk(Cat(f), fo, q) && Updating(c0, fo0, Cat(f), fo, moved, json, HitSet(c0, q))
    ensures forall h :: h in HitSet(c0, q) && h !in moved ==> it.curCol[0].foff <= h
  {
    hide Inv, IsForest, Treed, TypesLive, CellsLed, TypedTops, Hit, Covers, ColOk, ColHere, Updating, CatOk;
    DbCat(f, fo, q);
    CatTreed(c0, fo0, q);
    forall h | h in HitSet(c0, q) && h !in moved ensures it.curCol[0].foff <= h {
      StillHit(c0, fo0, Cat(f), fo, moved, json, q, h);
      CurrentIsFirst(f.View(), q, it.curCol, it.curSect, moved.Values, h);
    }
  }

  lemma CatParts(c: Catalog, fo: map<nat, Shape>, q: Query)
    requires CatOk(c, fo, q)
    ensures Treed(c.cells) && RootQuery(c, fo, q) && IsForest(c.cells, fo)
  {
    hide RootQuery, IsForest, Treed, TypesLive;
  }

  lemma CatTreed(c: Catalog, fo: map<nat, Shape>, q: Query)
    requires CatOk(c, fo, q)
    ensures Treed(c.cells)
  {
  }

  lemma KeepsLess(cells: map<nat, Cell>, fo: map<nat, Shape>, cells': map<nat, Cell>, fo': map<nat, Shape>, e: set<nat>, e': set<nat>)
    requires KeepsTops(cells, fo, cells', fo', e') && forall x :: x in fo && x in e' ==> x in e
    ensures KeepsTops(cells, fo, cells', fo', e)
  {
    hide KeepsTop;
  }

  lemma UpdatingMore(
    c0: Catalog, fo0: map<nat, Shape>, c: Catalog, fo: map<nat, Shape>, moved: map<nat, nat>, json: Json, hits: set<nat>,
    c': Catalog, fo': map<nat, Shape>, r: nat, n: nat)
    requires Updating(c0, fo0, c, fo, moved, json, hits) && IsForest(c.cells, fo) && c'.tcells == c.tcells
    requires var x := Origin(moved, r);
      && x in fo0 && x in c0.cells && x in hits && (r !in moved.Values ==> x !in moved)
      && n !in fo - {r} && fo'.Keys == (fo.Keys - {r}) + {n} && Spells(c'.cells, fo', n, json, c0.cells[x].ent.typePtr)
    requires forall h :: h in hits && h !in moved ==> r <= h
    requires KeepsTops(c.cells, fo, c'.cells, fo', {r})
    ensures Updating(c0, fo0, c', fo', moved[Origin(moved, r) := n], json, hits)
    ensures moved[Origin(moved, r) := n].Values == (moved.Values - {r}) + {n}
    ensures moved[Origin(moved, r) := n].Keys == moved.Keys + {Origin(moved, r)}
  {
    hide IsForest, KeepsTops, Spells;
    var x := Origin(moved, r);
    KeepsTrans(c0.cells, fo0, c.cells, fo, c'.cells, fo', moved.Keys, {r});
    assert moved[x := n].Keys == moved.Keys + {x};
    if r in moved.Values {
      ReplacedAgain(c0.cells, fo0, c.cells, fo, moved, json, c'.cells, fo', x, n);
      assert moved[x := n].Keys == moved.Keys;
    } else {
      ReplacedMore(c0.cells, fo0, c.cells, fo, moved, json, c'.cells, fo', r, n, c0.cells[x].ent.typePtr);
      ValuesMore(moved, r, n);
    }
    KeepsLess(c0.cells, fo0, c'.cells, fo', moved[x := n].Keys, moved.Keys + {r});
  }

  /**
   What a failed update leaves: `moved` are the old hits that have been replaced, `lost` is the one
   that was deleted and not written again. All other old trees are there; besides these and the
   replacements there is only what the failed write has left behind.
   */
  ghost predicate Stopped(
    cells0: map<nat, Cell>, fo0: map<nat, Shape>, cells: map<nat, Cell>, fo: map<nat, Shape>, moved: map<nat, nat>, lost: nat, json: Json)
  {
    && moved.Keys + {lost} <= fo0.Keys && lost !in moved && Injective(moved)
    && (fo0.Keys - moved.Keys - {lost}) !! moved.Values
    && (fo0.Keys - moved.Keys - {lost}) + moved.Values <= fo.Keys
    && (forall r :: r in moved ==> r in cells0 && Spells(cells, fo, moved[r], json, cells0[r].ent.typePtr))
    && (forall n :: n in fo && n !in fo0.Keys - moved.Keys - {lost} && n !in moved.Values ==> Sprung(cells, n, fo[n], json))
  }

  lemma UpdatingStop(
    c0: Catalog, fo0: map<nat, Shape>, c: Catalog, fo: map<nat, Shape>, moved: map<nat, nat>, json: Json, hits: set<nat>,
    c': Catalog, fo': map<nat, Shape>, r: nat)
    requires Updating(c0, fo0, c, fo, moved, json, hits) && IsForest(c.cells, fo)
    requires var x := Origin(moved, r); x in fo0 && x in hits && (r !in moved.Values ==> x !in moved)
    requires forall h :: h in hits && h !in moved ==> r <= h
    requires KeepsTops(c.cells, fo, c'.cells, fo', {r}) && fo.Keys - {r} <= fo'.Keys
    requires forall n :: n in fo' && n !in fo - {r} ==> Sprung(c'.cells, n, fo'[n], json)
    ensures var x := Origin(moved, r);
      && Stopped(c0.cells, fo0, c'.cells, fo', moved - {x}, x, json)
      && (moved - {x}).Keys + {x} <= hits && InOrder((moved - {x}).Keys + {x}, hits)
      && KeepsTops(c0.cells, fo0, c'.cells, fo', (moved - {x}).Keys + {x})
  {
    hide IsForest, KeepsTops, Spells, Sprung, InOrder;
    var x := Origin(moved, r);
    var m := moved - {x};
    StopOrder(moved.Keys, x, r, r in moved.Values, hits);
    assert m.Keys + {x} == moved.Keys + {x};
    KeepsTrans(c0.cells, fo0, c.cells, fo, c'.cells, fo', moved.Keys, {r});
    KeepsLess(c0.cells, fo0, c'.cells, fo', m.Keys + {x}, moved.Keys + {r});
    StopValues(moved, r, x);
    StopSpells(c0, fo0, c, fo, moved, json, c', fo', r, m);
    var rest := fo0.Keys - moved.Keys - {x};
    assert fo0.Keys - m.Keys - {x} == rest && rest + m.Values == fo.Keys - {r};
  }

  /** One more hit touched, which is the first of the others or touched already. */
  lemma StopOrder(touched: set<nat>, x: nat, r: nat, again: bool, hits: set<nat>)
    requires InOrder(touched, hits) && (if again then x in touched else x == r)
    requires forall h :: h in hits && h !in touched ==> r <= h
    ensures InOrder(touched + {x}, hits)
  {
  }

  lemma StopSpells(
    c0: Catalog, fo0: map<nat, Shape>, c: Catalog, fo: map<nat, Shape>, moved: map<nat, nat>, json: Json,
    c': Catalog, fo': map<nat, Shape>, r: nat, m: map<nat, nat>)
    requires Replaced(c0.cells, fo0, c.cells, fo, moved, json) && IsForest(c.cells, fo) && KeepsTops(c.cells, fo, c'.cells, fo', {r})
    requires forall y :: y in m ==> y in moved && m[y] == moved[y] && m[y] != r
    ensures forall y :: y in m ==> y in c0.cells && Spells(c'.cells, fo', m[y], json, c0.cells[y].ent.typePtr)
  {
    hide IsForest, KeepsTops, Spells;
    forall y | y in m ensures y in c0.cells && Spells(c'.cells, fo', m[y], json, c0.cells[y].ent.typePtr) {
      SpellsKept(c.cells, fo, c'.cells, fo', {r}, m[y], json, c0.cells[y].ent.typePtr);
    }
  }

  lemma StopValues(moved: map<nat, nat>, r: nat, x: nat)
    requires Injective(moved) && x == Origin(moved, r) && (r !in moved.Values ==> x !in moved)
    ensures (moved - {x}).Values == moved.Values - {r} && Injective(moved - {x})
    ensures forall y :: y in moved - {x} ==> moved[y] != r
  {
    var m := moved - {x};
    forall v ensures v in m.Values <==> v in moved.Values - {r} {
      if v in moved.Values && v != r {
        var y :| y in moved && moved[y] == v;
        assert y in m && m[y] == v;
      }
    }
  }

  /** An old hit that has not been replaced is still a hit, and no replacement. */
  lemma StillHit(
    c0: Catalog, fo0: map<nat, Shape>, c: Catalog, fo: map<nat, Shape>, moved: map<nat, nat>, json: Json, q: Query, x: nat)
    requires CatOk(c0, fo0, q) && CatOk(c, fo, q) && Updating(c0, fo0, c, fo, moved, json, HitSet(c0, q))
    requires x in HitSet(c0, q)
    ensures x in moved || (x in HitSet(c, q) && x !in moved.Values)
  {
    hide IsForest, Treed, TypesLive, Linked, Raw, Hit, KeepsTop, Spells, RootQuery;
    HitIsTop(c0, fo0, q, x);
    if x !in moved {
      assert KeepsTop(c0.cells, fo0, c.cells, fo, x);
      KeptSame(c0.cells, fo0, c.cells, fo, x, c0.tcells, q);
    }
  }

  /** Whether the replacements are hits is decided by the new tree. */
  lemma MovedHit(c0: Catalog, fo0: map<nat, Shape>, c: Catalog, fo: map<nat, Shape>, moved: map<nat, nat>, json: Json, q: Query, n: nat)
    requires CatOk(c0, fo0, q) && CatOk(c, fo, q) && Updating(c0, fo0, c, fo, moved, json, HitSet(c0, q))
    requires ReadBack(json).Node? && n in moved.Values
    ensures n in HitSet(c, q) <==> ItemsHold(q.items, ReadBack(json))
  {
    hide IsForest, Treed, TypesLive, Linked, Raw, Hit, KeepsTop, Spells, ItemsHold, ReadBack, RootQuery;
    var x := Origin(moved, n);
    SpellsHit(c0.cells, c.cells, fo, c.tcells, q, x, n, json);
    SpellsIsCell(c.cells, fo, n, json, c0.cells[x].ent.typePtr);
  }

  /** When only replacements are hits any more, every old hit has been replaced. */
  lemma UpdatingDone(c0: Catalog, fo0: map<nat, Shape>, c: Catalog, fo: map<nat, Shape>, moved: map<nat, nat>, json: Json, q: Query)
    requires CatOk(c0, fo0, q) && CatOk(c, fo, q) && Updating(c0, fo0, c, fo, moved, json, HitSet(c0, q))
    requires HitSet(c, q) <= moved.Values && ReadBack(json).Node?
    ensures moved.Keys == HitSet(c0, q)
    ensures Replaced(c0.cells, fo0, c.cells, fo, moved, json) && KeepsTops(c0.cells, fo0, c.cells, fo, HitSet(c0, q))
    ensures HitSet(c, q) == if ItemsHold(q.items, ReadBack(json)) then moved.Values else {}
  {
    hide IsForest, Treed, TypesLive, Linked, Raw, Hit, KeepsTop, Spells, ItemsHold, ReadBack, RootQuery;
    forall x | x in HitSet(c0, q) ensures x in moved {
      StillHit(c0, fo0, c, fo, moved, json, q, x);
    }
    forall n | n in moved.Values ensures n in HitSet(c, q) <==> ItemsHold(q.items, ReadBack(json)) {
      MovedHit(c0, fo0, c, fo, moved, json, q, n);
    }
  }

  lemma SpellsIsCell(cells: map<nat, Cell>, fo: map<nat, Shape>, n: nat, json: Json, ty: nat)
    requires Spells(cells, fo, n, json, ty)
    ensures n in cells
  {
  }

  /** One turn more: one old hit more has been replaced, or one of the replacements again. */
  lemma CountMore(moved: map<nat, nat>, x: nat, n: nat, cnt: nat)
    requires |moved| <= cnt
    ensures |moved[x := n]| <= cnt + 1
    ensures x !in moved ==> |moved[x := n]| == |moved| + 1
  {
    if x in moved {
      assert moved[x := n].Keys == moved.Keys;
      assert |moved[x := n]| == |moved[x := n].Keys| && |moved| == |moved.Keys|;
    } else {
      assert moved[x := n].Keys == moved.Keys + {x};
      assert |moved[x := n]| == |moved[x := n].Keys| && |moved| == |moved.Keys|;
    }
  }

  /** What a turn of the update loop has come to when it fails. */
  ghost predicate Failed(
    c0: Catalog, fo0: map<nat, Shape>, cells: map<nat, Cell>, fo: map<nat, Shape>, moved: map<nat, nat>, lost: nat, json: Json, hits: set<nat>)
  {
    && Stopped(c0.cells, fo0, cells, fo, moved, lost, json)
    && moved.Keys + {lost} <= hits && InOrder(moved.Keys + {lost}, hits)
    && KeepsTops(c0.cells, fo0, cells, fo, moved.Keys + {lost})
  }

  /** What every turn of the update loop may rely on. */
  ghost predicate TurnReady(
    f: File, it: Iter, q: Query, json: Json, cnt: nat, fo: map<nat, Shape>, c0: Catalog, fo0: map<nat, Shape>, moved: map<nat, nat>, col: seq<Found>)
    reads f, f.filp, f.fExtent, f.fTypes, it, q
  {
    && DbOk(f, fo) && CatOk(Cat(f), fo, q) && CatOk(c0, fo0, q) && IterOk(f, it, q, col, moved.Values)
    && RootJson(json) && JsonLed(json) && MissesInside(q, json) && ReadBack(json).Node?
    && Updating(c0, fo0, Cat(f), fo, moved, json, HitSet(c0, q))
    && |moved| <= cnt && (!ItemsHold(q.items, ReadBack(json)) ==> cnt == |moved|)
    && (moved == map[] || Fits(json)) && Links(f.cells) <= Links(c0.cells) + {0}
  }

  /** What a turn that fails leaves behind. */
  ghost predicate TurnFailed(
    f: File, q: Query, json: Json, fo: map<nat, Shape>, c0: Catalog, fo0: map<nat, Shape>, moved: map<nat, nat>, lost: nat)
    reads f, f.filp, f.fExtent, f.fTypes, q
  {
    && DbOk(f, fo) && CatOk(c0, fo0, q)
    && Failed(c0, fo0, f.cells, fo, moved, lost, json, HitSet(c0, q))
    && (!Fits(json) || f.lstSectPtr + SECTION_SIZE > MAX_FILE) && (moved == map[] || Fits(json))
    && Links(f.cells) <= Links(c0.cells) + {0}
  }

  /** One turn of the loop of user_update, up to iter_next, and what it does to the hits. */
  method UpdateNext(
    f: File, it: Iter, q: Query, json: Json, cnt: nat, ghost fo: map<nat, Shape>,
    ghost c0: Catalog, ghost fo0: map<nat, Shape>, ghost moved: map<nat, nat>)
    returns (ok: bool, ghost fo': map<nat, Shape>, ghost moved': map<nat, nat>, ghost lost: nat)
    requires TurnReady(f, it, q, json, cnt, fo, c0, fo0, moved, it.curCol) && it.curCol != []
    modifies f, f.filp, f.fExtent
    ensures f.Kept()
    ensures ok ==> TurnReady(f, it, q, json, cnt + 1, fo', c0, fo0, moved', it.curCol[1..])
    ensures !ok ==> TurnFailed(f, q, json, fo', c0, fo0, moved', lost)
  {
    hide Inv, At, IsForest, TypesLive, Treed, CellsLed, TypedTops, Covers, ColOk, ColHere, Offs, KeepsTops, HitSet, Stepped, ItemsHold, ReadBack, Spells, RootJson, JsonLed, Fits, Replaced, Hit, Updating, IterOk, Settled, Heads, DbOk, MissesInside, RootQuery, CatOk, Failed, Sprung, Links, Extends;
    ghost var r, c := it.curCol[0].foff, Cat(f);
    CatParts(c, fo, q);
    CatParts(c0, fo0, q);
    NextInOrder(f, it, q, fo, c0, fo0, moved, json);
    var updFoff: nat;
    ok, updFoff, fo' := UpdateOne(f, it, q, json, fo, moved.Values);
    lost := Origin(moved, r);
    if ok {
      DbCat(f, fo', q);
      TurnDone(c0, fo0, c, fo, moved, json, q, Cat(f), fo', r, updFoff, cnt);
      moved' := moved[lost := updFoff];
    } else {
      TurnStopped(c0, fo0, c, fo, moved, json, q, Cat(f), fo', r);
      moved' := moved - {lost};
    }
  }

  /** One whole turn of the loop of user_update. */
  method UpdateTurn(
    f: File, it: Iter, q: Query, json: Json, cnt: nat, ghost fo: map<nat, Shape>,
    ghost c0: Catalog, ghost fo0: map<nat, Shape>, ghost moved: map<nat, nat>)
    returns (ok: bool, ghost fo': map<nat, Shape>, ghost moved': map<nat, nat>, ghost lost: nat)
    requires TurnReady(f, it, q, json, cnt, fo, c0, fo0, moved, it.curCol) && it.curCol != []
    modifies f, f.filp, f.fExtent, it
    ensures f.Kept()
    ensures ok ==> TurnReady(f, it, q, json, cnt + 1, fo', c0, fo0, moved', it.curCol) && (it.curCol == [] ==> Settled(Cat(f), [], it.curSect))
    ensures ok ==> ToGo(f, it) <= old(ToGo(f, it)) && (ToGo(f, it) < old(ToGo(f, it)) || |it.curCol| < |old(it.curCol)|)
    ensures !ok ==> TurnFailed(f, q, json, fo', c0, fo0, moved', lost)
  {
    hide Inv, At, IsForest, TypesLive, Treed, CellsLed, TypedTops, Covers, ColOk, ColHere, Offs, KeepsTops, HitSet, Stepped, ItemsHold, ReadBack, Spells, RootJson, JsonLed, Fits, Replaced, Hit, Updating, IterOk, Settled, Heads, DbOk, MissesInside, RootsOnly, Selective, Failed, Sprung, Links, TurnFailed;
    IterSect(f, it, q, it.curCol, moved.Values);
    ok, fo', moved', lost := UpdateNext(f, it, q, json, cnt, fo, c0, fo0, moved);
    if ok {
      StepIter(f, it, q, fo', moved'.Values);
    }
  }

  lemma TurnDone(
    c0: Catalog, fo0: map<nat, Shape>, c: Catalog, fo: map<nat, Shape>, moved: map<nat, nat>, json: Json, q: Query,
    c': Catalog, fo': map<nat, Shape>, r: nat, n: nat, cnt: nat)
    requires CatOk(c0, fo0, q) && CatOk(c, fo, q) && Updating(c0, fo0, c, fo, moved, json, HitSet(c0, q))
    requires r in fo && r in HitSet(c, q) && r in c.cells && c'.tcells == c.tcells
    requires n !in fo - {r} && fo'.Keys == (fo.Keys - {r}) + {n} && Spells(c'.cells, fo', n, json, c.cells[r].ent.typePtr)
    requires forall h :: h in HitSet(c0, q) && h !in moved ==> r <= h
    requires KeepsTops(c.cells, fo, c'.cells, fo', {r}) && ReadBack(json).Node?
    requires |moved| <= cnt && (!ItemsHold(q.items, ReadBack(json)) ==> cnt == |moved|)
    ensures var m := moved[Origin(moved, r) := n];
      && Updating(c0, fo0, c', fo', m, json, HitSet(c0, q)) && m.Values == (moved.Values - {r}) + {n}
      && |m| <= cnt + 1 && (!ItemsHold(q.items, ReadBack(json)) ==> cnt + 1 == |m|)
  {
    hide IsForest, Treed, TypesLive, RootQuery, KeepsTops, HitSet, ItemsHold, ReadBack, Spells, Updating;
    UpdatingNext(c0, fo0, c, fo, moved, json, q, r);
    UpdatingMore(c0, fo0, c, fo, moved, json, HitSet(c0, q), c', fo', r, n);
    CountMore(moved, Origin(moved, r), n, cnt);
    if r in moved.Values {
      MovedHit(c0, fo0, c, fo, moved, json, q, r);
    }
  }

  lemma TurnStopped(
    c0: Catalog, fo0: map<nat, Shape>, c: Catalog, fo: map<nat, Shape>, moved: map<nat, nat>, json: Json, q: Query,
    c': Catalog, fo': map<nat, Shape>, r: nat)
    requires CatOk(c0, fo0, q) && CatOk(c, fo, q) && Updating(c0, fo0, c, fo, moved, json, HitSet(c0, q))
    requires r in fo && r in HitSet(c, q)
    requires forall h :: h in HitSet(c0, q) && h !in moved ==> r <= h
    requires KeepsTops(c.cells, fo, c'.cells, fo', {r}) && fo.Keys - {r} <= fo'.Keys
    requires forall n :: n in fo' && n !in fo - {r} ==> Sprung(c'.cells, n, fo'[n], json)
    ensures var x := Origin(moved, r); Failed(c0, fo0, c'.cells, fo', moved - {x}, x, json, HitSet(c0, q))
  {
    hide IsForest, Treed, TypesLive, RootQuery, KeepsTops, HitSet, Updating, Stopped, InOrder, Sprung;
    UpdatingNext(c0, fo0, c, fo, moved, json, q, r);
    UpdatingStop(c0, fo0, c, fo, moved, json, HitSet(c0, q), c', fo', r);
  }

  /**
   Replaces everything that satisfies the query, while iterating over it and writing into the very
   sections still to be visited, where a new root that satisfies the query itself is met again. Where
   only roots satisfy the query, and nothing strictly inside the new tree does, the update terminates;
   on success each old hit has become exactly one new root of the same type that spells out the new
   tree, every other tree is unchanged, and if the new tree does not satisfy the query the loop makes
   one turn for each hit. On failure the hits before the lost one have been replaced, those behind
   it are intact; when the new tree fits no section that is the very first one.
   */
  method UserUpdate(f: File, q: Query, json: Json, ghost fo: map<nat, Shape>)
    returns (ok: bool, cnt: nat, ghost fo': map<nat, Shape>, ghost moved: map<nat, nat>, ghost lost: nat)
    requires DbOk(f, fo) && Treed(f.cells) && RootQuery(Cat(f), fo, q)
    requires RootJson(json) && JsonLed(json) && MissesInside(q, json)
    modifies f, f.filp, f.fExtent
    ensures DbOk(f, fo') && f.Kept() && Treed(f.cells) && ReadBack(json).Node?
    ensures ok ==> moved.Keys == old(HitSet(Cat(f), q)) && Replaced(old(f.cells), fo, f.cells, fo', moved, json)
    ensures ok ==> KeepsTops(old(f.cells), fo, f.cells, fo', moved.Keys)
    ensures ok ==> HitSet(Cat(f), q) == if ItemsHold(q.items, ReadBack(json)) then moved.Values else {}
    ensures ok ==> |moved| <= cnt && (!ItemsHold(q.items, ReadBack(json)) ==> cnt == |moved|)
    ensures !ok ==> Failed(old(Cat(f)), fo, f.cells, fo', moved, lost, json, old(HitSet(Cat(f), q)))
    ensures !ok ==> !Fits(json) || f.lstSectPtr + SECTION_SIZE > MAX_FILE
    ensures !Fits(json) ==> (ok <==> old(HitSet(Cat(f), q)) == {}) && moved == map[]
    ensures Links(f.cells) <= Links(old(f.cells)) + {0}
    ensures q.typeName.Some? ==> KeepsOtherTypes(old(Cat(f)), fo, f.cells, fo', q.typeName.value)
  {
    hide Inv, At, IsForest, TypesLive, Treed, CellsLed, TypedTops, Offs, KeepsTops, HitSet, ItemsHold, ReadBack, RootJson, JsonLed, Fits, Replaced, Hit, IterOk, Settled, Heads, DbOk, ToGo, KeepsOtherTypes, MissesInside, RootQuery, Failed, Links, TurnReady, TurnFailed;
    ok, cnt, fo', moved, lost := true, 0, fo, map[], 0;
    DbCat(f, fo, q);
    ghost var c0 := Cat(f);
    var it := StartUpdate(f, q, json, fo);
    while it.IsAvail()
      invariant fresh(it) && f.Kept() && ok
      invariant TurnReady(f, it, q, json, cnt, fo', c0, fo, moved, it.curCol) && (it.curCol == [] ==> Settled(Cat(f), [], it.curSect))
      decreases ToGo(f, it), |it.curCol|
    {
      ok, fo', moved, lost := UpdateTurn(f, it, q, json, cnt, fo', c0, fo, moved);
      if !ok {
        UpdateFailed(f, q, json, fo', c0, fo, moved, lost);
        FailedKeeps(c0, fo, q, f.cells, fo', moved, lost, json);
        return;
      }
      cnt := cnt + 1;
    }
    UpdateEnded(f, it, q, json, cnt, fo', c0, fo, moved);
    OtherTypesKept(c0, fo, q, f.cells, fo', moved.Keys);
  }

  lemma FailedKeeps(
    c0: Catalog, fo0: map<nat, Shape>, q: Query, cells: map<nat, Cell>, fo: map<nat, Shape>, moved: map<nat, nat>, lost: nat, json: Json)
    requires Treed(c0.cells) && TypesLive(c0.cells, c0.tcells) && Failed(c0, fo0, cells, fo, moved, lost, json, HitSet(c0, q))
    ensures q.typeName.Some? ==> KeepsOtherTypes(c0, fo0, cells, fo, q.typeName.value)
  {
    hide Treed, TypesLive, Stopped, InOrder, KeepsTops, HitSet, KeepsOtherTypes;
    OtherTypesKept(c0, fo0, q, cells, fo, moved.Keys + {lost});
  }

  /** The iterator of user_update at its start. */
  method StartUpdate(f: File, q: Query, json: Json, ghost fo: map<nat, Shape>) returns (it: Iter)
    requires DbOk(f, fo) && Treed(f.cells) && RootQuery(Cat(f), fo, q)
    requires RootJson(json) && JsonLed(json) && MissesInside(q, json)
    modifies f.filp
    ensures fresh(it) && OnlyRead(f) && ReadBack(json).Node?
    ensures TurnReady(f, it, q, json, 0, fo, old(Cat(f)), fo, map[], it.curCol) && (it.curCol == [] ==> Settled(Cat(f), [], it.curSect))
  {
    hide Inv, At, IsForest, TypesLive, Treed, CellsLed, TypedTops, Offs, KeepsTops, HitSet, ItemsHold, ReadBack, RootJson, JsonLed, Fits, Replaced, Hit, IterOk, Settled, Heads, DbOk, MissesInside, RootsOnly, Selective, Updating, Links;
    DbCat(f, fo, q);
    JsonNode(json);
    UpdatingStart(Cat(f), fo, json, HitSet(Cat(f), q));
    it := StartIter(f, q, fo);
    ghost var none: map<nat, nat> := map[];
    assert none.Values == {};
  }

  lemma UpdateEnded(
    f: File, it: Iter, q: Query, json: Json, cnt: nat, fo: map<nat, Shape>, c0: Catalog, fo0: map<nat, Shape>, moved: map<nat, nat>)
    requires TurnReady(f, it, q, json, cnt, fo, c0, fo0, moved, it.curCol) && it.curCol == [] && Settled(Cat(f), [], it.curSect)
    ensures DbOk(f, fo) && Treed(f.cells) && Treed(c0.cells) && ReadBack(json).Node?
    ensures moved.Keys == HitSet(c0, q) && Replaced(c0.cells, fo0, f.cells, fo, moved, json)
    ensures KeepsTops(c0.cells, fo0, f.cells, fo, moved.Keys)
    ensures HitSet(Cat(f), q) == if ItemsHold(q.items, ReadBack(json)) then moved.Values else {}
    ensures |moved| <= cnt && (!ItemsHold(q.items, ReadBack(json)) ==> cnt == |moved|)
    ensures (moved == map[] || Fits(json)) && Links(f.cells) <= Links(c0.cells) + {0}
  {
    hide Inv, IsForest, TypesLive, Treed, TypedTops, KeepsTops, HitSet, ItemsHold, ReadBack, RootJson, JsonLed, Fits, Replaced, Hit, IterOk, Settled, Heads, DbOk, MissesInside, RootQuery, Updating, Links;
    IterDone(f, it, q, moved.Values);
    DbCat(f, fo, q);
    UpdatingDone(c0, fo0, Cat(f), fo, moved, json, q);
  }

  lemma UpdateFailed(
    f: File, q: Query, json: Json, fo: map<nat, Shape>, c0: Catalog, fo0: map<nat, Shape>, moved: map<nat, nat>, lost: nat)
    requires TurnFailed(f, q, json, fo, c0, fo0, moved, lost)
    ensures DbOk(f, fo) && Treed(f.cells) && Treed(c0.cells)
    ensures Failed(c0, fo0, f.cells, fo, moved, lost, json, HitSet(c0, q)) && lost in HitSet(c0, q)
    ensures (!Fits(json) || f.lstSectPtr + SECTION_SIZE > MAX_FILE) && (moved == map[] || Fits(json))
    ensures Links(f.cells) <= Links(c0.cells) + {0}
  {
    hide Inv, IsForest, TypesLive, Treed, TypedTops, HitSet, Fits, Heads, DbOk, RootQuery, Failed, Links;
    DbCat(f, fo, q);
    FailedHits(c0, fo0, f.cells, fo, moved, lost, json, HitSet(c0, q));
  }

  lemma FailedHits(
    c0: Catalog, fo0: map<nat, Shape>, cells: map<nat, Cell>, fo: map<nat, Shape>, moved: map<nat, nat>, lost: nat, json: Json, hits: set<nat>)
    requires Failed(c0, fo0, cells, fo, moved, lost, json, hits)
    ensures lost in hits
  {
    hide Stopped, InOrder, KeepsTops;
  }

  /** When the iterator runs dry, every hit left is done with. */
  lemma IterDone(f: File, it: Iter, q: Query, done: set<nat>)
    requires IterOk(f, it, q, it.curCol, done) && it.curCol == [] && Settled(Cat(f), [], it.curSect)
    ensures Treed(f.cells) && HitSet(Cat(f), q) <= done
  {
    hide Treed, Covers, HitSet;
    ExhaustedCovers(Cat(f), q, it.curSect, done);
  }
}
