/** file_find: which slots of a section satisfy a query. */
module Find {
  import opened Bytes
  import opened Disk
  import opened Section
  import opened Json
  import opened Extents
  import opened Types
  import opened Store
  import opened File
  import opened Forest
  import opened FileForest
  import opened FileTypes
  import opened Query

  /** `t` is the tree at a live offset, with the brothers that follow it. */
  ghost predicate ShapeAt(cells: map<nat, Cell>, o: nat, t: Shape) {
    o in cells && t.Spot? && t.off == o && Linked(cells, t, DadOf(cells, o), true)
  }

  /** The links determine the shape. */
  lemma {:induction false} OneShape(cells: map<nat, Cell>, t1: Shape, d1: nat, p1: bool, t2: Shape, d2: nat, p2: bool)
    requires Linked(cells, t1, d1, p1) && Linked(cells, t2, d2, p2) && Off(t1) == Off(t2)
    ensures t1 == t2
  {
    if t1.Spot? {
      OneShape(cells, t1.bro, d1, false, t2.bro, d2, false);
      OneShape(cells, t1.son, t1.off, false, t2.son, t2.off, false);
    }
  }

  /** Every live cell is part of a tree. */
  ghost predicate Treed(cells: map<nat, Cell>) {
    forall o :: o in cells ==> exists t :: ShapeAt(cells, o, t)
  }

  lemma AsTop(cells: map<nat, Cell>, t: Shape, d: nat, top: bool)
    requires Linked(cells, t, d, top)
    ensures Linked(cells, t, d, true)
  {
  }

  lemma ForestTreed(cells: map<nat, Cell>, fo: map<nat, Shape>)
    requires IsForest(cells, fo)
    ensures Treed(cells)
  {
    hide IsForest, Raw, Linked;
    forall o | o in cells ensures exists t :: ShapeAt(cells, o, t) {
      var t := InnerUntyped(cells, fo, o);
      AsTop(cells, t, DadOf(cells, o), o in fo);
      assert ShapeAt(cells, o, t);
    }
  }

  /** What reading at a live offset returns. */
  ghost function Tree(cells: map<nat, Cell>, o: nat): Json
    requires o in cells && exists t :: ShapeAt(cells, o, t)
  {
    var t :| ShapeAt(cells, o, t);
    LinkedReadable(cells, t, DadOf(cells, o), true);
    ReadBack(Raw(cells, t))
  }

  lemma TreeIs(cells: map<nat, Cell>, o: nat, t: Shape)
    requires ShapeAt(cells, o, t)
    ensures Readable(cells, t) && Tree(cells, o) == ReadBack(Raw(cells, t)) && Tree(cells, o).Node?
  {
    hide Linked, Raw, ReadBack;
    var t' :| ShapeAt(cells, o, t') && Tree(cells, o) == (LinkedReadable(cells, t', DadOf(cells, o), true); ReadBack(Raw(cells, t')));
    OneShape(cells, t, DadOf(cells, o), true, t', DadOf(cells, o), true);
    LinkedReadable(cells, t, DadOf(cells, o), true);
    RawNode(cells, t);
  }

  lemma RawNode(cells: map<nat, Cell>, t: Shape)
    requires t.Spot? && Readable(cells, t)
    ensures Raw(cells, t).Node? && ReadBack(Raw(cells, t)).Node?
  {
    hide StrCopy, ReadVal, ReadKey;
  }

  /** What reading at any slot returns. */
  ghost function NodeAt(cells: map<nat, Cell>, o: nat): (j: Json)
    requires Treed(cells)
    ensures j.Node?
  {
    if o in cells then
      var t :| ShapeAt(cells, o, t);
      TreeIs(cells, o, t);
      Tree(cells, o)
    else DEAD_NODE
  }

  ghost function EntAt(cells: map<nat, Cell>, o: nat): Entity {
    if o in cells then cells[o].ent else ZERO_ENTITY
  }

  /** The name of the type at an offset, as it reads back. */
  ghost function NameAt(tcells: map<nat, TypeCell>, p: nat): Option<seq<byte>> {
    if p in tcells then Some(StrCopy(tcells[p].def.name)) else None
  }

  /** Every type link of a live cell leads to a live type, or is 0. */
  ghost predicate TypesLive(cells: map<nat, Cell>, tcells: map<nat, TypeCell>) {
    0 !in tcells && forall o :: o in cells ==> cells[o].ent.typePtr == 0 || cells[o].ent.typePtr in tcells
  }

  /** The type links of the live entities. */
  ghost function Links(cells: map<nat, Cell>): set<nat> {
    set o | o in cells :: cells[o].ent.typePtr
  }

  datatype Found = Found(foff: nat, json: Json, ent: Entity)

  ghost function FoundAt(cells: map<nat, Cell>, o: nat): Found
    requires Treed(cells)
  {
    Found(o, NodeAt(cells, o), EntAt(cells, o))
  }

  /** The slot at `o` satisfies the query. */
  ghost predicate Hit(cells: map<nat, Cell>, tcells: map<nat, TypeCell>, q: Query, o: nat)
    requires Treed(cells)
    reads q
  {
    q.Accepts(NodeAt(cells, o), NameAt(tcells, EntAt(cells, o).typePtr))
  }

  /** The entity at `o` is live and has a live type with this name, as C strings go. */
  ghost predicate NamedAs(cells: map<nat, Cell>, tcells: map<nat, TypeCell>, o: nat, name: seq<byte>) {
    o in cells && cells[o].ent.typePtr in tcells && SameCString(tcells[cells[o].ent.typePtr].def.name, name)
  }

  /** What it is to satisfy a query: every condition is met by what is read, and the type has the asked name, if any. */
  lemma HitExact(cells: map<nat, Cell>, tcells: map<nat, TypeCell>, q: Query, o: nat)
    requires Treed(cells) && TypesLive(cells, tcells)
    ensures Hit(cells, tcells, q, o) <==>
      && (forall i :: 0 <= i < |q.items| ==> Met(q.items[i], NodeAt(cells, o)))
      && (q.typeName.Some? ==> NamedAs(cells, tcells, o, q.typeName.value))
  {
    hide Treed, NodeAt, ItemsHold, TypeHolds, Met, SameCString, StrCopy, StrEq;
    var name := NameAt(tcells, EntAt(cells, o).typePtr);
    AcceptsExact(q.items, q.typeName, NodeAt(cells, o), name);
    if q.typeName.Some? && name.Some? {
      var n := tcells[EntAt(cells, o).typePtr].def.name;
      StrEqExact(q.typeName.value, StrCopy(n));
      StrEqCopy(q.typeName.value, n);
      StrEqExact(n, q.typeName.value);
    }
  }

  /** The slots that satisfy the query, in slot order. */
  ghost function Selected(cells: map<nat, Cell>, tcells: map<nat, TypeCell>, q: Query, offs: seq<nat>): seq<Found>
    requires Treed(cells)
    reads q
  {
    if offs == [] then [] else
      var o := offs[|offs| - 1];
      Selected(cells, tcells, q, offs[..|offs| - 1]) + (if Hit(cells, tcells, q, o) then [FoundAt(cells, o)] else [])
  }

  /** All slots of a section below its item border. */
  ghost function SlotsOf(h: Head): seq<nat> {
    if h.lip < HEAD_SIZE then [] else SlotOffs(h.base, (h.lip - HEAD_SIZE) / ENT_SIZE)
  }

  lemma SlotsOfIs(h: Head, n: nat)
    requires h.lip == HEAD_SIZE + ENT_SIZE * n
    ensures SlotsOf(h) == SlotOffs(h.base, n)
  {
    assert (h.lip - HEAD_SIZE) / ENT_SIZE == n;
  }

  /** A slot of a section may be read. */
  lemma SlotAskable(s: Snap, fo: map<nat, Shape>, i: nat, k: nat) returns (t: Shape)
    requires Inv(s) && IsForest(s.cells, fo) && i < |s.exts|
    requires HEAD_SIZE + ENT_SIZE * k < s.exts[i].lip
    ensures var o := s.exts[i].base + HEAD_SIZE + ENT_SIZE * k;
      && InSect(s.exts[i].base, o)
      && (o in s.cells ==> ShapeAt(s.cells, o, t) && Askable(s, o, t, DadOf(s.cells, o), true))
      && (o !in s.cells ==> Askable(s, o, t, 0, true) && t.Empty?)
  {
    hide Inv, IsForest, Linked, DeadSlot, Homed, ExtRep, Raw;
    var o := s.exts[i].base + HEAD_SIZE + ENT_SIZE * k;
    InvExt(s, i);
    ExtRoomy(s.d, s.exts[i], Sub(s.cells, s.exts[i].base));
    SlotLiveOrDead(s.d, s.exts[i], Sub(s.cells, s.exts[i].base), k);
    SubIff(s.cells, s.exts[i].base, o);
    t := Empty;
    if o in s.cells {
      t := InnerUntyped(s.cells, fo, o);
      AsTop(s.cells, t, DadOf(s.cells, o), o in fo);
    }
  }

  /** Reads, types and checks every slot of section `i`, dead ones included. */
  method FileFind(f: File, i: nat, q: Query, ghost fo: map<nat, Shape>) returns (col: seq<Found>)
    requires f.Valid() && i < |f.fExtent|
    requires IsForest(f.cells, fo) && TypesLive(f.cells, f.tcells) && Treed(f.cells)
    modifies f.filp
    ensures f.Valid() && Same(old(f.filp.bytes), f.filp.bytes)
    ensures col == Selected(f.cells, f.tcells, q, SlotsOf(f.fExtent[i].View()))
  {
    hide Inv, At, IsForest, TypesLive, Treed, SlotsOf, SlotOffs, Selected;
    col := [];
    var foffs := f.ExtLoad(i);
    SlotsOfIs(f.fExtent[i].View(), |foffs|);
    var k := 0;
    EmptySelected(f.cells, f.tcells, q, foffs);
    while k < |foffs|
      invariant k <= |foffs| && f.Valid() && Same(old(f.filp.bytes), f.filp.bytes)
      invariant col == Selected(f.cells, f.tcells, q, foffs[..k])
    {
      SlotAt(f.fExtent[i].fileOffset, foffs, k);
      var hit, found := FindSlot(f, i, k, foffs[k], q, fo);
      SelectedStep(f.cells, f.tcells, q, foffs, k);
      if hit {
        col := col + [found];
      }
      k := k + 1;
    }
    assert foffs[..k] == foffs;
  }

  lemma SlotAt(base: nat, offs: seq<nat>, k: nat)
    requires k < |offs| && offs == SlotOffs(base, |offs|)
    ensures offs[k] == base + HEAD_SIZE + ENT_SIZE * k
  {
  }

  lemma EmptySelected(cells: map<nat, Cell>, tcells: map<nat, TypeCell>, q: Query, offs: seq<nat>)
    requires Treed(cells)
    ensures Selected(cells, tcells, q, offs[..0]) == []
  {
  }

  lemma SelectedStep(cells: map<nat, Cell>, tcells: map<nat, TypeCell>, q: Query, offs: seq<nat>, k: nat)
    requires Treed(cells) && k < |offs|
    ensures Selected(cells, tcells, q, offs[..k + 1]) ==
      Selected(cells, tcells, q, offs[..k]) + (if Hit(cells, tcells, q, offs[k]) then [FoundAt(cells, offs[k])] else [])
  {
    hide Hit, FoundAt, Treed;
    assert offs[..k + 1][..k] == offs[..k];
  }

  /** One turn of the loop of file_find. */
  method FindSlot(f: File, i: nat, ghost k: nat, foff: nat, q: Query, ghost fo: map<nat, Shape>) returns (hit: bool, found: Found)
    requires f.Valid() && i < |f.fExtent|
    requires IsForest(f.cells, fo) && TypesLive(f.cells, f.tcells) && Treed(f.cells)
    requires foff == f.fExtent[i].fileOffset + HEAD_SIZE + ENT_SIZE * k && HEAD_SIZE + ENT_SIZE * k < f.fExtent[i].lstItmPtr
    modifies f.filp
    ensures f.Valid() && Same(old(f.filp.bytes), f.filp.bytes)
    ensures hit <==> Hit(f.cells, f.tcells, q, foff)
    ensures hit ==> found == FoundAt(f.cells, foff)
  {
    hide Inv, At, IsForest, Treed, Homed, StrCopy, Linked, Raw, ReadBack, Tree, StrEq, ItemsHold, TypeHolds;
    ghost var s := f.View();
    ghost var t := SlotAskable(s, fo, i, k);
    HomedAt(s.exts, i, foff);
    ghost var dad := if foff in f.cells then DadOf(f.cells, foff) else 0;
    var ok: bool, json: Json, ent: Entity;
    ok, json, ent := FileRead(f, foff, t, dad, true);
    if foff in f.cells {
      TreeIs(f.cells, foff, t);
    }
    TypePtrLive(f.cells, f.tcells, foff);
    HomeOfType(f.View(), ent.typePtr);
    var typed: bool, ty: TypeDef;
    typed, ty := ReadType(f, ent.typePtr);
    hit := q.Check(json, if typed then Some(ty.name) else None);
    found := Found(foff, json, ent);
  }

  lemma TypePtrLive(cells: map<nat, Cell>, tcells: map<nat, TypeCell>, o: nat)
    requires TypesLive(cells, tcells)
    ensures EntAt(cells, o).typePtr in tcells || EntAt(cells, o).typePtr == 0
    ensures 0 !in tcells
  {
  }

  /** A type name, or a condition that the node of a zeroed slot does not meet. */
  predicate Selective(asked: Option<seq<byte>>, items: seq<QueryItem>) {
    asked.Some? || !ItemsHold(items, DEAD_NODE)
  }

  /** A condition on a field is enough: a zeroed slot has no fields. */
  lemma FieldsSelect(asked: Option<seq<byte>>, items: seq<QueryItem>)
    requires exists i :: 0 <= i < |items| && items[i].path != []
    ensures Selective(asked, items)
  {
    var i :| 0 <= i < |items| && items[i].path != [];
    assert !ItemHolds(items[i], DEAD_NODE);
  }

  /** A zeroed slot, which file_find does read, satisfies exactly the queries that are not selective. */
  lemma DeadHits(cells: map<nat, Cell>, tcells: map<nat, TypeCell>, q: Query, o: nat)
    requires Treed(cells) && TypesLive(cells, tcells) && o !in cells
    ensures Hit(cells, tcells, q, o) <==> !Selective(q.typeName, q.items)
  {
  }

  /** `l` lists exactly the live entities among `offs` that satisfy the query, each once, in order. */
  ghost predicate ExactHits(cells: map<nat, Cell>, tcells: map<nat, TypeCell>, q: Query, offs: seq<nat>, l: seq<Found>)
    requires Treed(cells)
    reads q
  {
    && (forall i :: 0 <= i < |l| ==> l[i].foff in cells && l[i].foff in offs && l[i] == FoundAt(cells, l[i].foff) && Hit(cells, tcells, q, l[i].foff))
    && (forall i, j :: 0 <= i < j < |l| ==> l[i].foff < l[j].foff)
    && (forall o :: o in offs && o in cells && Hit(cells, tcells, q, o) ==> exists i :: 0 <= i < |l| && l[i].foff == o)
  }

  lemma ExactStep(cells: map<nat, Cell>, tcells: map<nat, TypeCell>, q: Query, offs: seq<nat>, o: nat, l: seq<Found>)
    requires Treed(cells) && ExactHits(cells, tcells, q, offs, l)
    requires forall x :: x in offs ==> x < o
    ensures !Hit(cells, tcells, q, o) ==> ExactHits(cells, tcells, q, offs + [o], l)
    ensures Hit(cells, tcells, q, o) && o in cells ==> ExactHits(cells, tcells, q, offs + [o], l + [FoundAt(cells, o)])
  {
    hide Treed, Hit, FoundAt;
    FoundFoff(cells, o);
    var l' := l + [FoundAt(cells, o)];
    forall x | x in offs + [o] && x in cells && Hit(cells, tcells, q, x)
      ensures exists i :: 0 <= i < |l'| && l'[i].foff == x
    {
      if x in offs {
        var i :| 0 <= i < |l| && l[i].foff == x;
        assert l'[i].foff == x;
      } else {
        assert l'[|l|].foff == x;
      }
    }
  }

  /** file_find on a selective query lists exactly the matching live entities, in slot order. */
  lemma {:induction false} SelectedExact(cells: map<nat, Cell>, tcells: map<nat, TypeCell>, q: Query, offs: seq<nat>)
    requires Treed(cells) && TypesLive(cells, tcells) && Selective(q.typeName, q.items)
    requires forall i, j :: 0 <= i < j < |offs| ==> offs[i] < offs[j]
    ensures ExactHits(cells, tcells, q, offs, Selected(cells, tcells, q, offs))
    decreases |offs|
  {
    hide Treed, TypesLive, Hit, FoundAt, Selective;
    if offs != [] {
      var n := |offs| - 1;
      SelectedExact(cells, tcells, q, offs[..n]);
      if offs[n] !in cells {
        DeadHits(cells, tcells, q, offs[n]);
      }
      ExactStep(cells, tcells, q, offs[..n], offs[n], Selected(cells, tcells, q, offs[..n]));
      assert offs == offs[..n] + [offs[n]];
      assert Selected(cells, tcells, q, offs[..n]) + [] == Selected(cells, tcells, q, offs[..n]);
    }
  }

  lemma FoundFoff(cells: map<nat, Cell>, o: nat)
    requires Treed(cells)
    ensures FoundAt(cells, o).foff == o
  {
  }
}
