/** Writing, reading and deleting whole JSON trees. */
module FileForest {
  import opened Bytes
  import opened Disk
  import opened Section
  import opened Json
  import opened Extents
  import opened Store
  import opened File
  import opened Forest

  /** Every node of the tree fits an empty section. */
  predicate Fits(j: Json) {
    match j
    case Nil => true
    case Node(key, ty, val, bro, son) =>
      ENT_SIZE + |key| + |val| <= SECTION_SIZE - HEAD_SIZE && Fits(bro) && Fits(son)
  }

  /** The tree is small enough to be in memory at all. */
  predicate InMemory(j: Json) {
    match j
    case Nil => true
    case Node(key, ty, val, bro, son) => ENT_SIZE + |key| + |val| < TWO_64 && InMemory(bro) && InMemory(son)
  }

  /** ENTITY_INIT */
  function EntityInit(j: Json, dad: u64, ty: u64): Entity
    requires j.Node? && ENT_SIZE + |j.key| + |j.val| < TWO_64
  {
    Entity(0, |j.key|, 0, |j.val|, TypeCode(j.ty), |j.key| + |j.val|, dad, 0, 0, ty)
  }

  lemma ExtRoom(s: Snap, i: nat)
    requires Inv(s) && i < |s.exts|
    ensures s.exts[i].free <= SECTION_SIZE - HEAD_SIZE
  {
    hide Inv;
    InvExt(s, i);
    ExtRoomy(s.d, s.exts[i], Sub(s.cells, s.exts[i].base));
  }

  /** The loop of file_write over the sections: the first one with room. */
  method FirstFit(f: File, json: Json, ent: Entity) returns (ok: bool, i: nat, foff: nat, ent': Entity)
    requires f.Valid() && json.Node? && ValWf(json.ty, json.val)
    requires ENT_SIZE + |json.key| + |json.val| < TWO_64
    requires ent.keySize == |json.key| && ent.valSize == |json.val| && ent.ty == TypeCode(json.ty)
    modifies f`cells, f.filp, f.fExtent
    ensures f.Valid() && f.Kept() && f.fExtent == old(f.fExtent) && f.lstSectPtr == old(f.lstSectPtr)
    ensures FirstRoom(old(Heads(f.fExtent)), ENT_SIZE + |json.key| + |json.val|, i) && (ok <==> i < |f.fExtent|)
    ensures ok ==>
      && InSect(f.fExtent[i].fileOffset, foff) && foff !in old(f.cells)
      && foff == old(Heads(f.fExtent))[i].base + old(Heads(f.fExtent))[i].lip
      && ent' == ent.(keyPtr := ent'.keyPtr, valPtr := ent'.valPtr)
      && f.cells == old(f.cells)[foff := Cell(ent', json.key, json.val)]
      && ENT_SIZE + |json.key| + |json.val| <= SECTION_SIZE - HEAD_SIZE
    ensures !ok ==> f.cells == old(f.cells) && ent' == ent
  {
    hide Inv, At, Same, ValWf;
    ghost var hs, n := Heads(f.fExtent), ENT_SIZE + |json.key| + |json.val|;
    i, ok, foff, ent' := 0, false, 0, ent;
    while i < |f.fExtent| && !ok
      invariant i <= |f.fExtent| && f.Valid() && f.Kept() && f.fExtent == old(f.fExtent)
      invariant f.lstSectPtr == old(f.lstSectPtr)
      invariant !ok ==> f.cells == old(f.cells) && ent' == ent
      invariant forall j :: 0 <= j < i ==> hs[j].free < n
      invariant forall j :: 0 <= j < |f.fExtent| && (j != i || !ok) ==> f.fExtent[j].View() == hs[j]
      invariant ok ==> i < |f.fExtent| && n <= hs[i].free && foff == hs[i].base + hs[i].lip
      invariant ok ==> InSect(f.fExtent[i].fileOffset, foff) && foff !in old(f.cells)
      invariant ok ==> ent' == ent.(keyPtr := ent'.keyPtr, valPtr := ent'.valPtr)
      invariant ok ==> f.cells == old(f.cells)[foff := Cell(ent', json.key, json.val)]
      invariant ok ==> n <= SECTION_SIZE - HEAD_SIZE
      decreases |f.fExtent| - i, !ok
    {
      ExtRoom(f.View(), i);
      var e: Entity;
      ok, foff, e := f.ExtWrite(i, json.key, json.val, ent);
      if ok {
        ent' := e;
      } else {
        i := i + 1;
      }
    }
  }

  /** The first half of file_write: one entity, first-fit over the sections, or into a new one when none has room. */
  method Place(f: File, json: Json, ent: Entity) returns (ok: bool, i: nat, foff: nat, ent': Entity)
    requires f.Valid() && json.Node? && ValWf(json.ty, json.val)
    requires ENT_SIZE + |json.key| + |json.val| < TWO_64
    requires ent.keySize == |json.key| && ent.valSize == |json.val| && ent.ty == TypeCode(json.ty)
    modifies f, f.filp, f.fExtent
    ensures f.Valid() && f.Kept()
    ensures FirstRoom(old(Heads(f.fExtent)), ENT_SIZE + |json.key| + |json.val|, i)
    ensures ok ==> foff == HeadAt(old(Heads(f.fExtent)), old(f.lstSectPtr), i).base + HeadAt(old(Heads(f.fExtent)), old(f.lstSectPtr), i).lip
    ensures ok ==> i < |f.fExtent| && InSect(f.fExtent[i].fileOffset, foff) && foff !in old(f.cells) && 0 < foff < TWO_64
    ensures ok ==> ent' == ent.(keyPtr := ent'.keyPtr, valPtr := ent'.valPtr)
    ensures ok ==> f.cells == old(f.cells)[foff := Cell(ent', json.key, json.val)]
    ensures ok ==> ENT_SIZE + |json.key| + |json.val| <= SECTION_SIZE - HEAD_SIZE
    ensures !ok ==> f.cells == old(f.cells)
    ensures !ok ==> ENT_SIZE + |json.key| + |json.val| > SECTION_SIZE - HEAD_SIZE || f.lstSectPtr + SECTION_SIZE > MAX_FILE
    ensures f.lstSectPtr <= old(f.lstSectPtr) + SECTION_SIZE
  {
    hide Inv, At, Same, ValWf, FirstRoom;
    ok, i, foff, ent' := FirstFit(f, json, ent);
    if !ok {
      FirstRoomNew(old(Heads(f.fExtent)), ENT_SIZE + |json.key| + |json.val|, i);
      ok := f.AddSectExt();
      if !ok {
        return;
      }
      ok, foff, ent' := f.ExtWrite(i, json.key, json.val, ent);
    }
    if ok {
      NoCellAtZero(f.View(), foff);
    }
  }

  predicate JsonLed(j: Json) {
    match j
    case Nil => true
    case Node(key, ty, val, bro, son) => Led(key, val) && JsonLed(bro) && JsonLed(son)
  }

  /** A top that a write of `json` has made: the tree itself or its bare first node, or an untyped part of the rest. */
  ghost predicate Springs(c: map<nat, Cell>, r: nat, t: Shape, json: Json, dad: nat, ty: nat) {
    && r in c && t.Spot? && t.off == r && Readable(c, t) && json.Node?
    && if c[r].ent.typePtr == ty && c[r].ent.dadPtr == dad && Raw(c, t) in {json, Bare(json)} then true
       else c[r].ent.typePtr == 0 && Raw(c, t) in Frags(json.bro) + Frags(json.son)
  }

  ghost predicate AllSpring(c: map<nat, Cell>, g: map<nat, Shape>, json: Json, dad: nat, ty: nat) {
    forall r :: r in g ==> Springs(c, r, g[r], json, dad, ty)
  }

  /** What springs from a part springs from the whole, and goes on doing so among more cells. */
  lemma SpringsMore(c: map<nat, Cell>, c': map<nat, Cell>, r: nat, t: Shape, part: Json, dad': nat, json: Json, dad: nat, ty: nat)
    requires Springs(c, r, t, part, dad', 0) && Extends(c, c') && json.Node? && (part == json.bro || part == json.son)
    ensures Springs(c', r, t, json, dad, ty)
  {
    RawFrame(c, c', t);
  }

  lemma SpringsFrame(c: map<nat, Cell>, c': map<nat, Cell>, g: map<nat, Shape>, json: Json, dad: nat, ty: nat)
    requires AllSpring(c, g, json, dad, ty) && Extends(c, c')
    ensures AllSpring(c', g, json, dad, ty)
  {
    hide Raw, Frags;
    forall r | r in g ensures Springs(c', r, g[r], json, dad, ty) {
      RawFrame(c, c', g[r]);
    }
  }

  /** Every entity remembers the size of the record it was written with. */
  ghost predicate Sized(cells: map<nat, Cell>) {
    forall o :: o in cells ==> cells[o].ent.initRecSz == |cells[o].key| + |cells[o].val|
  }

  /** What a write of a tree, finished or not, has added to the cells. */
  ghost predicate Grew(c0: map<nat, Cell>, c: map<nat, Cell>, g: map<nat, Shape>, json: Json, dad: nat, ty: nat) {
    && Extends(c0, c) && IsForest(New(c0, c), g) && Sized(New(c0, c))
    && AllSpring(c, g, json, dad, ty)
    && (JsonLed(json) ==> CellsLed(New(c0, c)))
  }

  /** After the first half: one cell, no links. */
  lemma GrewFirst(c0: map<nat, Cell>, o: nat, cell: Cell, json: Json)
    requires json.Node? && o !in c0 && o != 0 && cell.ent.ty <= 4 && cell.ent.broPtr == 0 && cell.ent.sonPtr == 0
    requires cell.key == json.key && cell.val == json.val && TypeOf(cell.ent.ty) == json.ty
    requires cell.ent.initRecSz == |cell.key| + |cell.val|
    ensures New(c0, c0[o := cell]) == map[o := cell]
    ensures Grew(c0, c0[o := cell], map[o := Spot(o, Empty, Empty)], json, cell.ent.dadPtr, cell.ent.typePtr)
  {
    hide IsForest;
    assert New(c0, c0[o := cell]) == map[o := cell];
    SingleForest(o, cell);
    var c, t := c0[o := cell], Spot(o, Empty, Empty);
    assert Offs(t) == {o};
    assert Raw(c, t) == Bare(json);
  }

  /** A brother or son tree added to what was there. */
  lemma GrewMore(
    c0: map<nat, Cell>, c1: map<nat, Cell>, g1: map<nat, Shape>, json: Json, dad: nat, ty: nat,
    c2: map<nat, Cell>, g2: map<nat, Shape>, part: Json, dad': nat)
    requires Grew(c0, c1, g1, json, dad, ty) && Grew(c1, c2, g2, part, dad', 0)
    requires JsonLed(json) ==> JsonLed(part)
    requires json.Node? && (part == json.bro || part == json.son)
    ensures Grew(c0, c2, g1 + g2, json, dad, ty)
    ensures New(c0, c2) == New(c0, c1) + New(c1, c2) && New(c0, c1).Keys !! New(c1, c2).Keys
  {
    hide IsForest, JsonLed, Led, Springs;
    assert New(c0, c2) == New(c0, c1) + New(c1, c2);
    SpringsFrame(c1, c2, g1, json, dad, ty);
    forall r | r in g2 ensures Springs(c2, r, g2[r], json, dad, ty) {
      SpringsMore(c2, c2, r, g2[r], part, dad', json, dad, ty);
    }
    ForestUnion(New(c0, c1), g1, New(c1, c2), g2, New(c0, c2));
  }

  /** What an optional brother or son has become. */
  ghost predicate PartDone(c: map<nat, Cell>, c': map<nat, Cell>, t: Shape, part: Json, dad: nat) {
    && Extends(c, c')
    && if part.Nil? then t == Empty && c' == c else Built(New(c, c'), t, part, dad, 0)
  }

  lemma PartNew(c: map<nat, Cell>, c': map<nat, Cell>, t: Shape, part: Json, dad: nat)
    requires PartDone(c, c', t, part, dad)
    ensures if part.Nil? then t == Empty && New(c, c') == map[] else Built(New(c, c'), t, part, dad, 0)
  {
    hide Built;
  }

  lemma NewSplit(c0: map<nat, Cell>, o: nat, c1: map<nat, Cell>, c2: map<nat, Cell>, c3: map<nat, Cell>, cell': Cell)
    requires o !in c0 && o in c1 && c1 == c0[o := c1[o]] && Extends(c1, c2) && Extends(c2, c3)
    ensures o !in New(c1, c2) && o !in New(c2, c3) && New(c1, c2).Keys !! New(c2, c3).Keys
    ensures New(c0, c3[o := cell']) == (map[o := cell'] + New(c1, c2)) + New(c2, c3)
    ensures New(c0, c3[o := cell']) == New(c0, c3)[o := cell'] && Extends(c0, c3[o := cell'])
    ensures o in New(c0, c3) && New(c0, c3)[o] == c1[o]
  {
    assert Extends(c1, c3);
    NewOver(c0, o, c1, c3, cell');
    assert New(c1, c3) == New(c1, c2) + New(c2, c3);
    assert (map[o := cell'] + New(c1, c2)) + New(c2, c3) == map[o := cell'] + New(c1, c3);
  }

  lemma NewOver(c0: map<nat, Cell>, o: nat, c1: map<nat, Cell>, c3: map<nat, Cell>, cell': Cell)
    requires o !in c0 && o in c1 && c1 == c0[o := c1[o]] && Extends(c1, c3)
    ensures o in New(c0, c3) && New(c0, c3)[o] == c1[o]
    ensures New(c0, c3[o := cell']) == map[o := cell'] + New(c1, c3) && Extends(c0, c3[o := cell'])
    ensures New(c0, c3[o := cell']) == New(c0, c3)[o := cell']
  {
  }

  /** After the links are in: one tree. */
  lemma LastBuilt(
    c0: map<nat, Cell>, o: nat, c1: map<nat, Cell>, c2: map<nat, Cell>, c3: map<nat, Cell>,
    b: Shape, s: Shape, cell': Cell, json: Json)
    requires json.Node? && o !in c0 && o != 0 && o in c1 && c1 == c0[o := c1[o]] && cell'.ent.ty <= 4
    requires PartDone(c1, c2, b, json.bro, cell'.ent.dadPtr) && PartDone(c2, c3, s, json.son, o)
    requires cell'.key == json.key && cell'.val == json.val && TypeOf(cell'.ent.ty) == json.ty
    requires cell'.ent.broPtr == Off(b) && cell'.ent.sonPtr == Off(s)
    ensures Built(New(c0, c3[o := cell']), Spot(o, b, s), json, cell'.ent.dadPtr, cell'.ent.typePtr)
  {
    hide Built, Raw, Linked, Offs, New;
    NewSplit(c0, o, c1, c2, c3, cell');
    PartNew(c1, c2, b, json.bro, cell'.ent.dadPtr);
    PartNew(c2, c3, s, json.son, o);
    JoinBuilt(o, cell', New(c1, c2), b, New(c2, c3), s, New(c0, c3[o := cell']), json);
  }

  lemma SizedRelinked(m: map<nat, Cell>, o: nat, cell: Cell)
    requires Sized(m) && o in m && cell.key == m[o].key && cell.val == m[o].val && cell.ent.initRecSz == m[o].ent.initRecSz
    ensures Sized(m[o := cell])
  {
  }

  lemma LedRelinked(m: map<nat, Cell>, o: nat, cell: Cell)
    requires CellsLed(m) && o in m && cell.key == m[o].key && cell.val == m[o].val
    ensures CellsLed(m[o := cell])
  {
  }

  lemma GrewLast(
    c0: map<nat, Cell>, o: nat, c1: map<nat, Cell>, c2: map<nat, Cell>, c3: map<nat, Cell>,
    g: map<nat, Shape>, b: Shape, s: Shape, cell': Cell, json: Json)
    requires json.Node? && o !in c0 && o != 0 && o in c1 && c1 == c0[o := c1[o]] && cell'.ent.ty <= 4
    requires PartDone(c1, c2, b, json.bro, cell'.ent.dadPtr) && PartDone(c2, c3, s, json.son, o)
    requires cell'.key == json.key && cell'.val == json.val && TypeOf(cell'.ent.ty) == json.ty
    requires Off(b) < TWO_64 && Off(s) < TWO_64
    requires cell' == c1[o].(ent := c1[o].ent.(broPtr := Off(b), sonPtr := Off(s)))
    requires Grew(c0, c3, g, json, cell'.ent.dadPtr, cell'.ent.typePtr)
    ensures Built(New(c0, c3[o := cell']), Spot(o, b, s), json, cell'.ent.dadPtr, cell'.ent.typePtr)
    ensures Grew(c0, c3[o := cell'], map[o := Spot(o, b, s)], json, cell'.ent.dadPtr, cell'.ent.typePtr)
  {
    hide Built, JsonLed, Raw, Linked, Offs, New, CellsLed, IsForest;
    LastBuilt(c0, o, c1, c2, c3, b, s, cell', json);
    NewSplit(c0, o, c1, c2, c3, cell');
    NewExtends(c0, c3[o := cell']);
    BuiltSprings(New(c0, c3[o := cell']), c3[o := cell'], Spot(o, b, s), json, cell'.ent.dadPtr, cell'.ent.typePtr);
    BuiltForest(New(c0, c3[o := cell']), Spot(o, b, s), json, cell'.ent.dadPtr, cell'.ent.typePtr);
    SizedRelinked(New(c0, c3), o, cell');
    if JsonLed(json) {
      LedRelinked(New(c0, c3), o, cell');
    }
  }

  lemma NewExtends(c0: map<nat, Cell>, c: map<nat, Cell>)
    ensures Extends(New(c0, c), c)
  {
  }

  lemma BuiltSprings(n: map<nat, Cell>, c: map<nat, Cell>, t: Shape, json: Json, dad: nat, ty: nat)
    requires Built(n, t, json, dad, ty) && json.Node? && Extends(n, c)
    ensures AllSpring(c, map[t.off := t], json, dad, ty)
  {
    hide IsForest;
    RawFrame(n, c, t);
  }

  lemma BuiltForest(c: map<nat, Cell>, t: Shape, json: Json, dad: nat, ty: nat)
    requires Built(c, t, json, dad, ty)
    ensures t.Spot? && IsForest(c, map[t.off := t])
    ensures t.off in c && c[t.off].ent.dadPtr == dad && c[t.off].ent.typePtr == ty
    ensures json.Node? && json.bro == Nil ==> t.bro == Empty
  {
  }

  /** The outcome of writing a tree: how the cells have changed, and when it fails. */
  ghost predicate Wrote(
    ok: bool, c0: map<nat, Cell>, c: map<nat, Cell>, lsp: nat, json: Json, dad: nat, ty: nat, off: nat, g: map<nat, Shape>)
  {
    && Grew(c0, c, g, json, dad, ty)
    && (ok ==> Fits(json) && 0 < off < TWO_64)
    && (ok ==> off in g && g == map[off := g[off]] && g[off].Spot? && g[off].off == off)
    && (ok ==> Built(New(c0, c), g[off], json, dad, ty))
    && (!ok ==> !Fits(json) || lsp + SECTION_SIZE > MAX_FILE)
  }

  /** The same for optional brothers or sons. */
  ghost predicate WrotePart(
    ok: bool, c: map<nat, Cell>, c': map<nat, Cell>, lsp: nat, part: Json, dad: nat, off: nat, t: Shape, g: map<nat, Shape>)
  {
    && Grew(c, c', g, part, dad, 0)
    && (ok ==> Fits(part) && PartDone(c, c', t, part, dad) && off == Off(t) < TWO_64)
    && (!ok ==> !Fits(part) || lsp + SECTION_SIZE > MAX_FILE)
  }

  /** The written entity, its written brothers and sons, and the links to put in. */
  ghost predicate Ready(
    c0: map<nat, Cell>, c1: map<nat, Cell>, c2: map<nat, Cell>, c3: map<nat, Cell>, off: nat, entity: Entity,
    json: Json, dad: nat, ty: nat, g: map<nat, Shape>, b: Shape, s: Shape)
  {
    && json.Node? && off !in c0 && off != 0 && off in c1 && c1 == c0[off := c1[off]]
    && PartDone(c1, c2, b, json.bro, dad) && PartDone(c2, c3, s, json.son, off)
    && c1[off].key == json.key && c1[off].val == json.val
    && entity.ty <= 4 && TypeOf(entity.ty) == json.ty && entity.dadPtr == dad && entity.typePtr == ty
    && Off(b) < TWO_64 && Off(s) < TWO_64
    && entity == c1[off].ent.(broPtr := Off(b), sonPtr := Off(s))
    && Grew(c0, c3, g, json, dad, ty)
  }

  /**
   Writes a tree. On success the new cells are exactly one tree that spells out `json`;
   on failure they are loose trees that nothing links to. Nothing stored before changes.
   */
  method FileWrite(f: File, json: Json, dad: u64, typeFoff: u64) returns (ok: bool, wrtFoff: nat, ghost grown: map<nat, Shape>)
    requires f.Valid() && json.Node? && Wf(json) && InMemory(json)
    modifies f, f.filp, f.fExtent
    ensures f.Valid() && f.Kept()
    ensures Wrote(ok, old(f.cells), f.cells, f.lstSectPtr, json, dad, typeFoff, wrtFoff, grown)
    ensures f.lstSectPtr <= old(f.lstSectPtr) + SECTION_SIZE * Size(json)
    decreases json, 2
  {
    hide Inv, At, Same, ValWf, Grew, JsonLed, New, PartDone, Wf, InMemory, Fits, TypeOf, TypeCode, Off, InSect, Wrote, WrotePart, Ready, Heads, Extends;
    Parts(json, dad, typeFoff);
    ghost var c0 := f.cells;
    var i: nat, entity: Entity;
    ok, i, wrtFoff, entity, grown := FirstHalf(f, json, dad, typeFoff);
    if !ok {
      return;
    }
    ok, grown := SecondHalf(f, json, i, wrtFoff, entity, dad, typeFoff, c0, grown);
    if !ok {
      return;
    }
    f.Sync();
  }

  /** The brothers and sons of a written entity, and then its links to them. */
  method SecondHalf(
    f: File, json: Json, i: nat, off: nat, ent: Entity, dad: u64, ghost ty: u64, ghost c0: map<nat, Cell>, ghost g0: map<nat, Shape>)
    returns (ok: bool, ghost g: map<nat, Shape>)
    requires f.Valid() && json.Node? && Wf(json) && InMemory(json)
    requires i < |f.fExtent| && InSect(f.fExtent[i].fileOffset, off) && off !in c0 && 0 < off < TWO_64
    requires f.cells == c0[off := Cell(ent, json.key, json.val)] && Grew(c0, f.cells, g0, json, dad, ty)
    requires ent.ty == TypeCode(json.ty) && ent.dadPtr == dad && ent.typePtr == ty
    requires ENT_SIZE + |json.key| + |json.val| <= SECTION_SIZE - HEAD_SIZE
    modifies f, f.filp, f.fExtent
    ensures f.Valid() && f.Kept()
    ensures Wrote(ok, c0, f.cells, f.lstSectPtr, json, dad, ty, off, g)
    ensures f.lstSectPtr <= old(f.lstSectPtr) + SECTION_SIZE * (Size(json.bro) + Size(json.son))
    decreases json, 1
  {
    hide Inv, At, Same, ValWf, Grew, JsonLed, New, PartDone, Wf, InMemory, Fits, TypeOf, TypeCode, Off, InSect, Wrote, WrotePart, Ready, Heads, Extends;
    Parts(json, dad, ty);
    ghost var c1 := f.cells;
    var broOffset: nat, sonOffset: nat;
    ghost var b, s, c2;
    ok, broOffset, sonOffset, b, s, c2, g := WriteFamily(f, json, off, dad, ty, c0, g0);
    if !ok {
      WroteNot(c0, f.cells, f.lstSectPtr, json, dad, ty, off, g);
      return;
    }
    var entity := ent.(broPtr := broOffset, sonPtr := sonOffset);
    MakeReady(c0, c1, c2, f.cells, off, entity, json, dad, ty, g, b, s);
    g := map[off := Spot(off, b, s)];
    LinkUp(f, i, off, entity, c0, c1, c2, json, dad, ty, g, b, s);
  }

  /** The entity of the node itself, still without links. */
  method FirstHalf(f: File, json: Json, dad: u64, typeFoff: u64)
    returns (ok: bool, i: nat, wrtFoff: nat, entity: Entity, ghost grown: map<nat, Shape>)
    requires f.Valid() && json.Node? && Wf(json) && InMemory(json)
    modifies f, f.filp, f.fExtent
    ensures f.Valid() && f.Kept()
    ensures ok ==> i < |f.fExtent| && InSect(f.fExtent[i].fileOffset, wrtFoff) && wrtFoff !in old(f.cells) && 0 < wrtFoff < TWO_64
    ensures ok ==> f.cells == old(f.cells)[wrtFoff := Cell(entity, json.key, json.val)]
    ensures ok ==> entity.ty == TypeCode(json.ty) && entity.dadPtr == dad && entity.typePtr == typeFoff
    ensures ok ==> ENT_SIZE + |json.key| + |json.val| <= SECTION_SIZE - HEAD_SIZE
    ensures ok ==> Grew(old(f.cells), f.cells, grown, json, dad, typeFoff)
    ensures !ok ==> Wrote(false, old(f.cells), f.cells, f.lstSectPtr, json, dad, typeFoff, wrtFoff, grown)
    ensures f.lstSectPtr <= old(f.lstSectPtr) + SECTION_SIZE
  {
    hide Inv, At, Same, ValWf, Grew, JsonLed, Wf, InMemory, Fits, EntityInit, TypeOf, TypeCode, InSect, Wrote;
    Parts(json, dad, typeFoff);
    entity := EntityInit(json, dad, typeFoff);
    ghost var c0 := f.cells;
    ok, i, wrtFoff, entity := Place(f, json, entity);
    grown := map[];
    if ok {
      grown := map[wrtFoff := Spot(wrtFoff, Empty, Empty)];
      GrewFirst(c0, wrtFoff, f.cells[wrtFoff], json);
    } else {
      GrewNothing(c0, json, dad, typeFoff);
      WroteNot(c0, f.cells, f.lstSectPtr, json, dad, typeFoff, wrtFoff, grown);
    }
  }

  /** The two recursive calls of file_write: first the brothers, then the sons. */
  method WriteFamily(
    f: File, json: Json, off: u64, dad: u64, ghost ty: u64, ghost c0: map<nat, Cell>, ghost g0: map<nat, Shape>)
    returns (ok: bool, broOffset: nat, sonOffset: nat, ghost b: Shape, ghost s: Shape, ghost c2: map<nat, Cell>, ghost g: map<nat, Shape>)
    requires f.Valid() && json.Node? && Wf(json) && InMemory(json)
    requires Grew(c0, f.cells, g0, json, dad, ty)
    modifies f, f.filp, f.fExtent
    ensures f.Valid() && f.Kept()
    ensures Grew(c0, f.cells, g, json, dad, ty)
    ensures ok ==> PartDone(old(f.cells), c2, b, json.bro, dad) && PartDone(c2, f.cells, s, json.son, off)
    ensures ok ==> broOffset == Off(b) < TWO_64 && sonOffset == Off(s) < TWO_64
    ensures ok ==> Fits(json.bro) && Fits(json.son)
    ensures !ok ==> !Fits(json) || f.lstSectPtr + SECTION_SIZE > MAX_FILE
    ensures f.lstSectPtr <= old(f.lstSectPtr) + SECTION_SIZE * (Size(json.bro) + Size(json.son))
    decreases json, 0
  {
    hide Inv, At, Same, ValWf, Grew, JsonLed, New, PartDone, Wf, InMemory, Fits, TypeOf, TypeCode, Off, InSect, WrotePart;
    Parts(json, dad, ty);
    ghost var c1 := f.cells;
    sonOffset, s := 0, Empty;
    ghost var gb, gs;
    ok, broOffset, b, gb := WritePart(f, json.bro, dad);
    c2 := f.cells;
    AfterPart(ok, c0, c1, c2, f.lstSectPtr, g0, json, dad, ty, json.bro, dad, broOffset, b, gb);
    g := g0 + gb;
    if ok {
      ok, sonOffset, s, gs := WritePart(f, json.son, off);
      AfterPart(ok, c0, c2, f.cells, f.lstSectPtr, g, json, dad, ty, json.son, off, sonOffset, s, gs);
      g := g + gs;
    }
  }

  lemma WroteNot(c0: map<nat, Cell>, c: map<nat, Cell>, lsp: nat, json: Json, dad: nat, ty: nat, off: nat, g: map<nat, Shape>)
    requires Grew(c0, c, g, json, dad, ty)
    requires !Fits(json) || lsp + SECTION_SIZE > MAX_FILE
    ensures Wrote(false, c0, c, lsp, json, dad, ty, off, g)
  {
  }

  lemma AfterPart(
    ok: bool, c0: map<nat, Cell>, c1: map<nat, Cell>, c2: map<nat, Cell>, lsp: nat, g1: map<nat, Shape>, json: Json, dad: nat, ty: nat,
    part: Json, dad': nat, off: nat, t: Shape, g2: map<nat, Shape>)
    requires Grew(c0, c1, g1, json, dad, ty) && WrotePart(ok, c1, c2, lsp, part, dad', off, t, g2)
    requires JsonLed(json) ==> JsonLed(part)
    requires json.Node? && (part == json.bro || part == json.son)
    ensures Grew(c0, c2, g1 + g2, json, dad, ty)
    ensures ok ==> Fits(part) && PartDone(c1, c2, t, part, dad') && off == Off(t) < TWO_64
    ensures !ok ==> !Fits(part) || lsp + SECTION_SIZE > MAX_FILE
  {
    hide Grew, JsonLed, New, Fits;
    GrewMore(c0, c1, g1, json, dad, ty, c2, g2, part, dad');
  }

  lemma MakeReady(
    c0: map<nat, Cell>, c1: map<nat, Cell>, c2: map<nat, Cell>, c3: map<nat, Cell>, off: nat, entity: Entity,
    json: Json, dad: nat, ty: nat, g: map<nat, Shape>, b: Shape, s: Shape)
    requires json.Node? && off !in c0 && off != 0 && off in c1 && c1 == c0[off := c1[off]]
    requires PartDone(c1, c2, b, json.bro, dad) && PartDone(c2, c3, s, json.son, off)
    requires c1[off].key == json.key && c1[off].val == json.val
    requires entity.ty == TypeCode(json.ty) && entity.dadPtr == dad && entity.typePtr == ty
    requires Off(b) < TWO_64 && Off(s) < TWO_64
    requires entity == c1[off].ent.(broPtr := Off(b), sonPtr := Off(s))
    requires Grew(c0, c3, g, json, dad, ty)
    ensures Ready(c0, c1, c2, c3, off, entity, json, dad, ty, g, b, s)
    ensures off in c3 && c3[off] == c1[off]
  {
    hide Grew, New, Built;
    PartsKeep(c1, c2, c3, b, s, json, dad, off);
  }

  /** The last step of file_write: the entity is written again, now with its links. */
  method LinkUp(
    f: File, i: nat, off: nat, entity: Entity,
    ghost c0: map<nat, Cell>, ghost c1: map<nat, Cell>, ghost c2: map<nat, Cell>,
    ghost json: Json, ghost dad: u64, ghost typeFoff: u64, ghost g: map<nat, Shape>, ghost b: Shape, ghost s: Shape)
    requires f.Valid() && i < |f.fExtent| && InSect(f.fExtent[i].fileOffset, off)
    requires exists g0 :: Ready(c0, c1, c2, f.cells, off, entity, json, dad, typeFoff, g0, b, s)
    requires g == map[off := Spot(off, b, s)] && Fits(json) && off < TWO_64
    modifies f`cells, f.filp
    ensures f.Valid() && f.Kept() && f.fExtent == old(f.fExtent) && f.lstSectPtr == old(f.lstSectPtr)
    ensures Wrote(true, c0, f.cells, f.lstSectPtr, json, dad, typeFoff, off, g)
  {
    hide Inv, At, Grew, New, PartDone, TypeOf, InSect, Fits, Built;
    ghost var c3 := f.cells;
    ghost var g0 :| Ready(c0, c1, c2, f.cells, off, entity, json, dad, typeFoff, g0, b, s);
    PartsKeep(c1, c2, c3, b, s, json, dad, off);
    f.ExtRelink(i, off, entity);
    GrewLast(c0, off, c1, c2, c3, g0, b, s, f.cells[off], json);
  }

  /** Writes the brothers or sons of a node, if it has any. */
  method WritePart(f: File, part: Json, dad: u64) returns (ok: bool, off: nat, ghost t: Shape, ghost grown: map<nat, Shape>)
    requires f.Valid() && Wf(part) && InMemory(part)
    modifies f, f.filp, f.fExtent
    ensures f.Valid() && f.Kept()
    ensures WrotePart(ok, old(f.cells), f.cells, f.lstSectPtr, part, dad, off, t, grown)
    ensures f.lstSectPtr <= old(f.lstSectPtr) + SECTION_SIZE * Size(part)
    decreases part, 3
  {
    hide Inv, At, Same, ValWf, Built, IsForest, JsonLed, New, Grew;
    ok, off, t, grown := true, 0, Empty, map[];
    if part.Nil? {
      GrewNothing(f.cells, part, dad, 0);
    } else {
      ok, off, grown := FileWrite(f, part, dad, 0);
      GrewExtends(old(f.cells), f.cells, grown, part, dad, 0);
      if ok {
        t := grown[off];
      }
    }
  }

  lemma GrewExtends(c0: map<nat, Cell>, c: map<nat, Cell>, g: map<nat, Shape>, json: Json, dad: nat, ty: nat)
    requires Grew(c0, c, g, json, dad, ty)
    ensures Extends(c0, c)
  {
  }

  lemma PartsKeep(c1: map<nat, Cell>, c2: map<nat, Cell>, c3: map<nat, Cell>, b: Shape, s: Shape, json: Json, dad: nat, o: nat)
    requires json.Node? && PartDone(c1, c2, b, json.bro, dad) && PartDone(c2, c3, s, json.son, o) && o in c1
    ensures o in c3 && c3[o] == c1[o]
  {
    hide Built, New;
  }

  lemma GrewNothing(c: map<nat, Cell>, json: Json, dad: nat, ty: nat)
    ensures Grew(c, c, map[], json, dad, ty)
  {
    assert New(c, c) == map[];
  }

  /** Everything that is asked of a tree holds of its parts. */
  lemma Parts(json: Json, dad: u64, ty: u64)
    requires json.Node? && Wf(json) && InMemory(json)
    ensures Wf(json.bro) && Wf(json.son) && InMemory(json.bro) && InMemory(json.son) && ValWf(json.ty, json.val)
    ensures JsonLed(json) ==> JsonLed(json.bro) && JsonLed(json.son)
    ensures Fits(json) <==> ENT_SIZE + |json.key| + |json.val| <= SECTION_SIZE - HEAD_SIZE && Fits(json.bro) && Fits(json.son)
    ensures ENT_SIZE + |json.key| + |json.val| < TWO_64
    ensures TypeCode(json.ty) <= 4 && TypeOf(TypeCode(json.ty)) == json.ty
    ensures var e := EntityInit(json, dad, ty);
      && e.keySize == |json.key| && e.valSize == |json.val| && e.ty == TypeCode(json.ty)
      && e.dadPtr == dad && e.typePtr == ty && e.broPtr == 0 && e.sonPtr == 0 && e.initRecSz == |json.key| + |json.val|
  {
    hide StrCopy;
  }

  // ---------------------------------------------------------------- read

  /** What file_read may be asked for: a live tree, a dead slot, or an offset outside every section. */
  ghost predicate Askable(s: Snap, foff: nat, t: Shape, dad: nat, top: bool) {
    if t.Spot? then t.off == foff && Linked(s.cells, t, dad, top)
    else foff !in s.cells && (Homed(s.exts, foff) ==> DeadSlot(s.d, foff))
  }

  /** What it answers. */
  ghost predicate Answered(s: Snap, foff: nat, t: Shape, json: Json, ent: Entity) {
    if t.Spot? then foff in s.cells && ent == s.cells[foff].ent && Readable(s.cells, t) && json == ReadBack(Raw(s.cells, t))
    else json == DEAD_NODE && ent == ZERO_ENTITY
  }

  lemma HomeOfCell(s: Snap, foff: nat)
    requires Inv(s)
    ensures foff in s.cells ==> Homed(s.exts, foff)
  {
    hide ExtsOk, TypesOk, Tiled, Disjoint, Holds, Homed, Ascending;
  }

  lemma HomedIff(s: Snap, found: bool, i: nat, foff: nat)
    requires found ==> i < |s.exts| && InSect(s.exts[i].base, foff)
    requires !found ==> forall j :: 0 <= j < |s.exts| ==> !InSect(s.exts[j].base, foff)
    ensures found <==> Homed(s.exts, foff)
  {
  }

  /**
   Reads the tree at `foff` with its brothers and sons. The shape, which only the proof sees,
   bounds the recursion: the offsets themselves follow no order.
   */
  method FileRead(f: File, foff: nat, ghost t: Shape, ghost dad: nat, ghost top: bool) returns (ok: bool, json: Json, ent: Entity)
    requires f.Valid() && Askable(f.View(), foff, t, dad, top)
    modifies f.filp
    ensures f.Valid() && Same(old(f.filp.bytes), f.filp.bytes)
    ensures ok <==> Homed(f.View().exts, foff)
    ensures ok ==> Answered(f.View(), foff, t, json, ent)
    decreases t
  {
    hide Inv, At, DeadSlot, Homed, StrCopy, ReadKey, ReadVal, TypeOf, CellWf, InSect, Raw, Linked;
    json, ent := DEAD_NODE, ZERO_ENTITY;
    ghost var cells := f.cells;
    var i: nat;
    ok, i := f.GetSectExt(foff);
    HomedIff(f.View(), ok, i, foff);
    HomeOfCell(f.View(), foff);
    if !ok {
      return;
    }
    ReadParts(cells, t, dad, top);
    ent, json := f.ExtRead(i, foff);
    ghost var node := json;
    if ent.broPtr != 0 {
      HomeOfCell(f.View(), ent.broPtr);
      var broOk: bool, broJson: Json, broEnt: Entity;
      broOk, broJson, broEnt := FileRead(f, ent.broPtr, t.bro, dad, false);
      if !broOk {
        ok := false;
        return;
      }
      json := AddBro(json, broJson);
    }
    if ent.sonPtr != 0 {
      HomeOfCell(f.View(), ent.sonPtr);
      var sonOk: bool, sonJson: Json, sonEnt: Entity;
      sonOk, sonJson, sonEnt := FileRead(f, ent.sonPtr, t.son, foff, false);
      if !sonOk {
        ok := false;
        return;
      }
      json := AddSon(json, sonJson);
    }
    ReadWhole(cells, t, node, json);
  }

  /** The links of a linked shape lead to its parts. */
  lemma ReadParts(cells: map<nat, Cell>, t: Shape, dad: nat, top: bool)
    requires Linked(cells, t, dad, top)
    ensures t.Spot? ==>
      && t.off in cells && Readable(cells, t) && Readable(cells, t.bro) && Readable(cells, t.son)
      && Linked(cells, t.bro, dad, false) && Linked(cells, t.son, t.off, false)
      && cells[t.off].ent.broPtr == Off(t.bro) && cells[t.off].ent.sonPtr == Off(t.son)
      && (t.bro.Spot? <==> Off(t.bro) != 0) && (t.son.Spot? <==> Off(t.son) != 0)
      && (t.bro.Spot? ==> t.bro.off in cells) && (t.son.Spot? ==> t.son.off in cells)
      && (t.bro.Empty? ==> ReadBack(Raw(cells, t.bro)) == Nil) && (t.son.Empty? ==> ReadBack(Raw(cells, t.son)) == Nil)
  {
    LinkedReadable(cells, t, dad, top);
  }

  lemma ReadWhole(cells: map<nat, Cell>, t: Shape, node: Json, json: Json)
    requires t.Spot? ==> Readable(cells, t) && Readable(cells, t.bro) && Readable(cells, t.son) && CellWf(cells[t.off]) && node == CellNode(cells[t.off])
    requires t.Spot? ==> json == node.(bro := ReadBack(Raw(cells, t.bro)), son := ReadBack(Raw(cells, t.son)))
    ensures t.Spot? ==> json == ReadBack(Raw(cells, t))
  {
    hide StrCopy, CellWf, TypeOf;
  }

  /** The tree that a write has added, as part of the whole file. */
  lemma WrittenTree(c0: map<nat, Cell>, c: map<nat, Cell>, t: Shape, json: Json, dad: nat, ty: nat)
    requires Built(New(c0, c), t, json, dad, ty)
    ensures t.Spot? && Linked(c, t, dad, true) && Readable(c, t) && Raw(c, t) == json
  {
    hide Raw;
    OnlyTop(New(c0, c), t);
    LinkedFrame(New(c0, c), c, t, dad, true);
  }

  /** Writing a tree and reading it back: equal up to strncpy, and equal exactly when the strings are C strings. */
  method WriteThenRead(f: File, json: Json, dad: u64, typeFoff: u64) returns (ok: bool, back: Json)
    requires f.Valid() && json.Node? && Wf(json) && InMemory(json)
    modifies f, f.filp, f.fExtent
    ensures f.Valid() && Extends(old(f.cells), f.cells)
    ensures ok ==> back == ReadBack(json) && (back == json <==> Canonical(json))
    ensures !ok ==> !Fits(json) || f.lstSectPtr + SECTION_SIZE > MAX_FILE
  {
    hide Inv, At, Same, ValWf, JsonLed, New, Wf, InMemory, Fits, Raw, Linked, IsForest, AllSpring, Built, Canonical, Homed, ReadBack, Extends;
    ghost var c0 := f.cells;
    back := json;
    var foff: nat, ent: Entity;
    ghost var g;
    ok, foff, g := FileWrite(f, json, dad, typeFoff);
    if ok {
      WrittenTree(c0, f.cells, g[foff], json, dad, typeFoff);
      ReadParts(f.cells, g[foff], dad, true);
      HomeOfCell(f.View(), foff);
      ok, back, ent := FileRead(f, foff, g[foff], dad, true);
      ReadBackExact(json);
    }
  }

  // ---------------------------------------------------------------- delete

  /** The cells after a delete: the victims are gone, and a dad's first-son link moves on. */
  ghost function AfterDelete(cells: map<nat, Cell>, t: Shape, isRoot: bool, dad: nat): map<nat, Cell>
    requires t.Spot? && Off(t.bro) < TWO_64
  {
    var c := cells - Victims(t, isRoot);
    if isRoot && dad != 0 && dad in c then c[dad := c[dad].(ent := c[dad].ent.(sonPtr := Off(t.bro)))] else c
  }

  /** The order in which file_delete takes a node, its brothers and its sons. */
  function Kin(t: Shape): seq<nat> {
    if t.Empty? then [] else [t.off] + Kin(t.bro) + Kin(t.son)
  }

  function Order(t: Shape, isRoot: bool): seq<nat>
    requires t.Spot?
  {
    [t.off] + (if isRoot then [] else Kin(t.bro)) + Kin(t.son)
  }

  ghost function Elems(order: seq<nat>): set<nat> {
    set o | o in order
  }

  /** The record border of the section that holds `o` can be scanned: its lowest record does not begin with a zero byte. */
  ghost predicate Scannable(bases: seq<nat>, cells: map<nat, Cell>, o: nat) {
    forall i :: 0 <= i < |bases| && InSect(bases[i], o) ==> LowestLed(Entries(Sub(cells, bases[i])))
  }

  /** Deleting these entities one after the other, each of the scans comes right. */
  ghost predicate Scans(bases: seq<nat>, cells: map<nat, Cell>, order: seq<nat>) {
    order != [] ==> Scannable(bases, cells - {order[0]}, order[0]) && Scans(bases, cells - {order[0]}, order[1..])
  }

  /** In closed form: after each delete, the section it took place in can be scanned. */
  lemma {:induction false} ScansExact(bases: seq<nat>, cells: map<nat, Cell>, order: seq<nat>)
    ensures Scans(bases, cells, order) <==> forall k :: 0 <= k < |order| ==> Scannable(bases, cells - Elems(order[..k + 1]), order[k])
  {
    hide Scannable;
    if order != [] {
      var o, rest := order[0], order[1..];
      ScansExact(bases, cells - {o}, rest);
      forall k | 0 <= k < |rest| ensures (cells - {o}) - Elems(rest[..k + 1]) == cells - Elems(order[..k + 2]) && rest[k] == order[k + 1] {
        assert order[..k + 2] == [o] + rest[..k + 1];
        ElemsAdd([o], rest[..k + 1]);
      }
      assert Elems(order[..1]) == {o} by { assert order[..1] == [o]; }
      if forall k :: 0 <= k < |order| ==> Scannable(bases, cells - Elems(order[..k + 1]), order[k]) {
        forall k | 0 <= k < |rest| ensures Scannable(bases, (cells - {o}) - Elems(rest[..k + 1]), rest[k]) {
          assert Scannable(bases, cells - Elems(order[..k + 1 + 1]), order[k + 1]);
        }
      }
    }
  }

  lemma ElemsAdd(a: seq<nat>, b: seq<nat>)
    ensures Elems(a + b) == Elems(a) + Elems(b)
  {
  }

  lemma {:induction false} ScansSplit(bases: seq<nat>, cells: map<nat, Cell>, a: seq<nat>, b: seq<nat>)
    ensures Scans(bases, cells, a + b) <==> Scans(bases, cells, a) && Scans(bases, cells - Elems(a), b)
  {
    hide Scannable;
    if a == [] {
      assert a + b == b && cells - Elems(a) == cells;
    } else {
      var o := a[0];
      assert (a + b)[1..] == a[1..] + b && (a + b)[0] == o;
      ScansSplit(bases, cells - {o}, a[1..], b);
      ElemsAdd([o], a[1..]);
      assert a == [o] + a[1..] && Elems([o]) == {o};
      assert (cells - {o}) - Elems(a[1..]) == cells - Elems(a);
    }
  }

  lemma {:induction false} KinElems(t: Shape)
    ensures Elems(Kin(t)) == Offs(t)
  {
    if t.Spot? {
      KinElems(t.bro);
      KinElems(t.son);
      ElemsAdd([t.off] + Kin(t.bro), Kin(t.son));
      ElemsAdd([t.off], Kin(t.bro));
    }
  }

  /** Where no record begins with a zero byte, every delete comes right. */
  lemma {:induction false} LedScans(bases: seq<nat>, cells: map<nat, Cell>, order: seq<nat>)
    requires CellsLed(cells)
    ensures Scans(bases, cells, order)
  {
    hide LowestLed, Entries;
    if order != [] {
      var rest := cells - {order[0]};
      forall i | 0 <= i < |bases| ensures LowestLed(Entries(Sub(rest, bases[i]))) {
        LedSub(rest, bases[i]);
      }
      LedScans(bases, rest, order[1..]);
    }
  }

  /** What a delete of the node leaves to be scanned for its brothers and sons. */
  lemma ScansParts(bases: seq<nat>, cells: map<nat, Cell>, t: Shape, isRoot: bool)
    requires t.Spot? && Scans(bases, cells, Order(t, isRoot))
    ensures Scannable(bases, cells - {t.off}, t.off)
    ensures !isRoot ==> Scans(bases, cells - {t.off}, Kin(t.bro)) && Scans(bases, cells - {t.off} - Offs(t.bro), Kin(t.son))
    ensures isRoot ==> Scans(bases, cells - {t.off}, Kin(t.son))
  {
    hide Scannable, Scans;
    var bros := if isRoot then [] else Kin(t.bro);
    assert Order(t, isRoot) == [t.off] + (bros + Kin(t.son));
    ScansSplit(bases, cells, [t.off], bros + Kin(t.son));
    assert Elems([t.off]) == {t.off};
    ScansOne(bases, cells, t.off);
    ScansSplit(bases, cells - {t.off}, bros, Kin(t.son));
    KinElems(t.bro);
    if isRoot {
      assert cells - {t.off} - Elems(bros) == cells - {t.off};
    }
  }

  lemma ScansOne(bases: seq<nat>, cells: map<nat, Cell>, o: nat)
    requires Scans(bases, cells, [o])
    ensures Scannable(bases, cells - {o}, o)
  {
    hide Scannable;
  }

  /** What file_delete may be asked for. */
  ghost predicate Deletable(s: Snap, bases: seq<nat>, foff: nat, isRoot: bool, t: Shape, dad: nat, top: bool) {
    if t.Spot? then
      && t.off == foff && Linked(s.cells, t, dad, top) && Scans(bases, s.cells, Order(t, isRoot))
      && (isRoot && dad != 0 ==> dad in s.cells && dad !in Offs(t))
    else !Homed(s.exts, foff)
  }

  lemma DeleteStart(cells: map<nat, Cell>, t: Shape, dad: nat, top: bool)
    requires Linked(cells, t, dad, top) && t.Spot?
    ensures t.off in cells && Off(t.bro) == cells[t.off].ent.broPtr && Off(t.son) == cells[t.off].ent.sonPtr
    ensures dad == cells[t.off].ent.dadPtr
    ensures (t.bro.Spot? <==> Off(t.bro) != 0) && (t.son.Spot? <==> Off(t.son) != 0)
    ensures Linked(cells - {t.off}, t.bro, dad, false) && Linked(cells - {t.off}, t.son, t.off, false)
    ensures Linked(cells - {t.off} - Offs(t.bro), t.son, t.off, false)
    ensures Offs(t) == {t.off} + Offs(t.bro) + Offs(t.son)
    ensures Offs(t.bro) == (if t.bro.Empty? then {} else Offs(t.bro)) && Offs(t.son) == (if t.son.Empty? then {} else Offs(t.son))
  {
    ReadParts(cells, t, dad, top);
    LinkedFrame(cells, cells - {t.off}, t.bro, dad, false);
    LinkedFrame(cells, cells - {t.off}, t.son, t.off, false);
    LinkedFrame(cells, cells - {t.off} - Offs(t.bro), t.son, t.off, false);
  }

  /**
   Deletes a tree: as a root, the node and everything below it, without its brothers, and then
   the dad's link; not as a root, the node with all its brothers and everything below them.
   */
  method FileDelete(f: File, foff: nat, isRoot: bool, ghost t: Shape, ghost dad: nat, ghost top: bool) returns (ok: bool)
    requires f.Valid() && Deletable(f.View(), Bases(f.fExtent), foff, isRoot, t, dad, top)
    modifies f`cells, f.filp, f.fExtent
    ensures f.Valid() && f.Kept() && f.fExtent == old(f.fExtent) && f.lstSectPtr == old(f.lstSectPtr)
    ensures ok <==> t.Spot?
    ensures !ok ==> f.cells == old(f.cells)
    ensures ok ==> Off(t.bro) < TWO_64 && f.cells == AfterDelete(old(f.cells), t, isRoot, dad)
    decreases t, 1
  {
    hide Inv, At, Same, Homed, InSect, Linked, Offs, Heads, Victims, SameOn, LowestLed, Entries, Sub, Scans, Order;
    ghost var c0 := f.cells;
    var i: nat;
    ok, i := f.GetSectExt(foff);
    HomedIff(f.View(), ok, i, foff);
    if t.Spot? {
      DeleteStart(c0, t, dad, top);
      HomeOfCell(f.View(), foff);
      ScansParts(Bases(f.fExtent), c0, t, isRoot);
    }
    if !ok {
      return;
    }
    var ent := f.ExtDelete(i, foff);
    assert Bases(f.fExtent)[i] == f.fExtent[i].fileOffset;
    DeleteKin(f, ent, isRoot, t, dad, top, c0);
    if isRoot && ent.dadPtr != 0 {
      RootDad(c0, f.cells, t, dad);
      MoveDadLink(f, ent.dadPtr, ent.broPtr);
    }
    f.Sync();
  }

  /** The recursive calls of file_delete: the brothers, unless a root is deleted, and the sons. */
  method DeleteKin(f: File, ent: Entity, isRoot: bool, ghost t: Shape, ghost dad: nat, ghost top: bool, ghost c0: map<nat, Cell>)
    requires f.Valid() && t.Spot? && Linked(c0, t, dad, top) && Scans(Bases(f.fExtent), c0, Order(t, isRoot))
    requires t.off in c0 && ent == c0[t.off].ent && f.cells == c0 - {t.off}
    modifies f`cells, f.filp, f.fExtent
    ensures f.Valid() && f.Kept() && f.fExtent == old(f.fExtent) && f.lstSectPtr == old(f.lstSectPtr)
    ensures f.cells == c0 - Victims(t, isRoot)
    decreases t, 0
  {
    hide Inv, At, Same, Homed, InSect, Linked, Offs, Heads, Victims, Scans, Scannable, Order, Kin;
    DeleteStart(c0, t, dad, top);
    ScansParts(Bases(f.fExtent), c0, t, isRoot);
    if !isRoot {
      DeletePart(f, ent.broPtr, t.bro, dad);
    }
    SonLinked(c0, f.cells, t, dad, top, isRoot);
    DeletePart(f, ent.sonPtr, t.son, t.off);
    AllGone(c0, f.cells, t, isRoot);
  }

  /** Follows a link of a deleted node, if there is one. */
  method DeletePart(f: File, link: nat, ghost t: Shape, ghost dad: nat)
    requires f.Valid() && link == Off(t) && Linked(f.cells, t, dad, false) && Scans(Bases(f.fExtent), f.cells, Kin(t))
    modifies f`cells, f.filp, f.fExtent
    ensures f.Valid() && f.Kept() && f.fExtent == old(f.fExtent) && f.lstSectPtr == old(f.lstSectPtr)
    ensures f.cells == old(f.cells) - Offs(t)
    decreases t, 2
  {
    hide Inv, At, Homed, Scans;
    ReadParts(f.cells, t, dad, false);
    if link != 0 {
      var ok := FileDelete(f, link, false, t, dad, false);
    }
  }

  /** The dad's son_ptr moves on to the deleted node's brother, or to 0. */
  method MoveDadLink(f: File, dad: nat, bro: u64)
    requires f.Valid() && dad in f.cells
    modifies f`cells, f.filp
    ensures f.Valid() && f.Kept() && f.fExtent == old(f.fExtent) && f.lstSectPtr == old(f.lstSectPtr)
    ensures f.cells == old(f.cells)[dad := old(f.cells)[dad].(ent := old(f.cells)[dad].ent.(sonPtr := bro))]
  {
    hide Inv, At;
    if bro != 0 {
      f.PatchSon(dad, bro);
    } else {
      f.PatchSon(dad, 0);
    }
  }

  lemma SonLinked(c0: map<nat, Cell>, c2: map<nat, Cell>, t: Shape, dad: nat, top: bool, isRoot: bool)
    requires t.Spot? && Linked(c0, t, dad, top)
    requires c2 == if isRoot then c0 - {t.off} else c0 - {t.off} - Offs(t.bro)
    ensures Linked(c2, t.son, t.off, false)
  {
    hide Offs, Linked;
    DeleteStart(c0, t, dad, top);
  }

  lemma AllGone(c0: map<nat, Cell>, c3: map<nat, Cell>, t: Shape, isRoot: bool)
    requires t.Spot? && c3 == (if isRoot then c0 - {t.off} else c0 - {t.off} - Offs(t.bro)) - Offs(t.son)
    ensures c3 == c0 - Victims(t, isRoot)
  {
  }

  lemma RootDad(c0: map<nat, Cell>, c3: map<nat, Cell>, t: Shape, dad: nat)
    requires t.Spot? && c3 == c0 - Victims(t, true) && dad in c0 && dad !in Offs(t)
    ensures dad in c3 && c3[dad] == c0[dad]
  {
  }
}
