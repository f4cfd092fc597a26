/** Inputs on which the code breaks what it promises, each from an empty section or file on. */
module Witnesses {
  import opened Bytes
  import opened Disk
  import opened Section
  import opened SectionHeader
  import opened Json
  import opened Extents
  import opened Types
  import opened Store
  import opened File
  import opened FileTypes
  import opened Forest
  import opened FileForest
  import opened Sons
  import opened Query
  import opened Find
  import opened Iterator
  import opened Commands
  import opened User
  import opened Database
  import Upd = Update
  import Ses = Session

  const TRUE: seq<byte> := [1, 0, 0, 0, 0, 0, 0, 0]

  /** The entity of a new node, as file_write makes it. */
  function NewEntity(ty: JsonType, key: seq<byte>, val: seq<byte>): Entity
    requires |key| + |val| < TWO_64
  {
    Entity(0, |key|, 0, |val|, TypeCode(ty), |key| + |val|, 0, 0, 0, 0)
  }

  // ---------------------------------------------------------------- one section

  /** Two flags, `true` and then `false`; deleting the first lets the scan walk over the second. */
  method FalseIsOverrun(filp: Disk) returns (s: SectHead, ghost left: map<nat, Cell>)
    modifies filp
    ensures fresh(s) && s.filp == filp
    ensures left.Keys == {s.fileOffset + HEAD_SIZE + ENT_SIZE} && left[s.fileOffset + HEAD_SIZE + ENT_SIZE].val == Zeros(8)
    ensures !ExtRep(filp.bytes, s.View(), left)
  {
    hide ExtRep, EntBytes, HeadBytes, LowestLed, At, Rep, Entries;
    s := new SectHead(0, filp);
    NewHolds(filp.bytes, 0);
    NewExtRep(filp.bytes, 0);
    ghost var cells: map<nat, Cell> := map[];
    var ok: bool, soff: nat, ent: Entity;
    ok, soff, ent := WriteCell(s, [97], TRUE, NewEntity(Bool, [97], TRUE), cells);
    cells := cells[HEAD_SIZE := Cell(ent, [97], TRUE)];
    ok, soff, ent := WriteCell(s, [98], Zeros(8), NewEntity(Bool, [98], Zeros(8)), cells);
    ghost var o := HEAD_SIZE + ENT_SIZE;
    left := map[o := Cell(ent, [98], Zeros(8))];
    assert cells[o := Cell(ent, [98], Zeros(8))] - {HEAD_SIZE} == left;
    var gone := Extents.Delete(s, HEAD_SIZE, cells[o := Cell(ent, [98], Zeros(8))]);
    FalseIsNotLed(o, ent, [98]);
  }

  lemma NewHolds(d: seq<byte>, base: nat)
    ensures forall d0 :: Written(d0, d, base, HeadBytes(NewHead(base))) ==> Holds(d, base, HeadBytes(NewHead(base)))
  {
    hide At, HeadBytes;
  }

  const LONG_LEN := 7947

  function Ones(n: nat): (s: seq<byte>)
    ensures |s| == n && forall i :: 0 <= i < n ==> s[i] == 1
  {
    seq(n, _ => 1)
  }

  /** A short entity, and below its record one that leaves only 50 bytes free. */
  method TwoStrings(filp: Disk) returns (s: SectHead, ghost cells: map<nat, Cell>)
    modifies filp
    ensures fresh(s) && s.filp == filp && s.fileOffset == 0
    ensures ExtRep(filp.bytes, s.View(), cells) && CellsLed(cells)
    ensures cells.Keys == {HEAD_SIZE, HEAD_SIZE + ENT_SIZE}
    ensures cells[HEAD_SIZE].key == [1] && cells[HEAD_SIZE].val == [1] && cells[HEAD_SIZE].ent.initRecSz == 2
    ensures s.freeSpace == 50 && cells[HEAD_SIZE].ent.valPtr != s.fstRecPtr
  {
    hide ExtRep, EntBytes, HeadBytes, At, Entries;
    s := new SectHead(0, filp);
    NewHolds(filp.bytes, 0);
    NewExtRep(filp.bytes, 0);
    cells := map[];
    var ok: bool, soff: nat, ent: Entity;
    ok, soff, ent := WriteCell(s, [1], [1], NewEntity(String, [1], [1]), cells);
    cells := cells[HEAD_SIZE := Cell(ent, [1], [1])];
    var long := Ones(LONG_LEN);
    ok, soff, ent := WriteCell(s, [1], long, NewEntity(String, [1], long), cells);
    cells := cells[HEAD_SIZE + ENT_SIZE := Cell(ent, [1], long)];
  }

  /** Updating the short one to a record one byte longer: it is deleted, does not fit again, and lip is left at its slot. */
  method UpdateLoses(filp: Disk) returns (s: SectHead, ok: bool, ghost cells: map<nat, Cell>)
    modifies filp
    ensures fresh(s) && s.filp == filp && s.fileOffset == 0 && HEAD_SIZE + ENT_SIZE in cells
    ensures !ok && s.lstItmPtr == HEAD_SIZE
    ensures Upd.Legible(filp.bytes, 0, cells) && !ExtRep(filp.bytes, s.View(), cells)
  {
    hide ExtRep, EntBytes, HeadBytes, At, Entries, LowestLed, Upd.Legible, Upd.Updated;
    ghost var all;
    s, all := TwoStrings(filp);
    ghost var h := s.View();
    LedEntries(all - {HEAD_SIZE});
    CellBounds(filp.bytes, h, all, HEAD_SIZE);
    var ent: Entity;
    ok, ent := Upd.ExtUpdate(s, HEAD_SIZE, [1], [1, 1], NewEntity(String, [1], [1, 1]), all);
    cells := all - {HEAD_SIZE};
    StillLegible(filp.bytes, h, cells);
    BeyondLip(filp.bytes, s.View(), cells, HEAD_SIZE + ENT_SIZE);
  }

  lemma StillLegible(d: seq<byte>, h: Head, cells: map<nat, Cell>)
    requires ExtRep(d, h, cells)
    ensures Upd.Legible(d, h.base, cells)
  {
  }

  /** An entity beyond lip is no part of a sound section. */
  lemma BeyondLip(d: seq<byte>, h: Head, cells: map<nat, Cell>, o: nat)
    requires o in cells && o + ENT_SIZE > h.base + h.lip
    ensures !ExtRep(d, h, cells)
  {
    hide ExtRep, EntBytes;
    if ExtRep(d, h, cells) {
      CellBounds(d, h, cells, o);
    }
  }

  /** Updating the short one to a record of the same size: the header on disk is stale afterwards. */
  method UpdateStale(filp: Disk) returns (s: SectHead, ok: bool)
    modifies filp
    ensures fresh(s) && s.filp == filp
    ensures ok && !Holds(filp.bytes, s.fileOffset, HeadBytes(s.View()))
  {
    hide ExtRep, EntBytes, HeadBytes, At, Entries, LowestLed, Holds, Upd.Legible, Upd.Updated;
    ghost var all;
    s, all := TwoStrings(filp);
    CellBounds(filp.bytes, s.View(), all, HEAD_SIZE);
    var ent: Entity;
    ok, ent := Upd.ExtUpdate(s, HEAD_SIZE, [1], [2], NewEntity(String, [1], [2]), all);
  }

  // ---------------------------------------------------------------- the schema check

  /** An object that has both attributes of its type, in order, and is rejected. */
  method ConformingRejected() returns (ok: bool, json: Json, t: TypeDef)
    ensures json.Node? && AppliesInOrder(json.son, t.attrs) && |t.attrs| == 2
    ensures !ok && !Applies(json, t)
  {
    t := TypeDef([84], [Attr([97], Bool), Attr([98], Bool)]);
    var b := Node([98], Bool, TRUE, Nil, Nil);
    var a := Node([97], Bool, TRUE, b, Nil);
    json := Node([111], Object, [], Nil, a);
    assert t.attrs[1..] == [Attr([98], Bool)] && t.attrs[1..][1..] == [];
    AppliesExact(json, t);
    ok := IsApplyType(json, t);
  }

  // ---------------------------------------------------------------- one tree in a file

  const NAME: seq<byte> := [84]

  /** { "a": true, "b": { "x": true } } */
  const FIELD := Node([120], Bool, TRUE, Nil, Nil)
  const SECOND := Node([98], Object, [], Nil, FIELD)
  const FIRST := Node([97], Bool, TRUE, SECOND, Nil)
  const OBJECT := Node([111], Object, [], Nil, FIRST)

  lemma ObjectFacts()
    ensures RootJson(OBJECT) && JsonLed(OBJECT) && FileForest.Fits(OBJECT) && Size(OBJECT) == 4
    ensures Applies(OBJECT, BLANK)
  {
  }

  /** A file with one type, and one tree of that type: an object with two sons. */
  method OneTree(filp: Disk) returns (f: File, ghost fo: map<nat, Shape>, ghost n: nat, ghost ty: nat)
    modifies filp
    ensures fresh(f) && f.filp == filp && DbOk(f, fo)
    ensures fresh(f.fExtent) && fresh(f.fTypes)
    ensures f.tcells.Keys == {ty} && f.tcells[ty].def == TypeDef(NAME, [])
    ensures fo.Keys == {n} && Spells(f.cells, fo, n, OBJECT, ty)
  {
    hide Inv, At, IsForest, TypesLive, Treed, CellsLed, TypedTops, Spells, RootJson, JsonLed, Extends, Bred, KeepsTops, Links, Heads, Size, Applies;
    f := OpenFile(filp);
    ghost var none, foff, home := map[], 0, 0;
    var t := TypeDef(NAME, []);
    var ok: bool;
    ok, foff, home := UserAddType(f, t, none);
    ghost var found, wrtFoff;
    ObjectFacts();
    NameFacts(f.tcells, foff);
    ok, found, wrtFoff, ty, fo := UserWrite(f, OBJECT, NAME, none);
    n := wrtFoff;
  }

  lemma NameFacts(m: map<nat, TypeCell>, o: nat)
    requires m.Keys == {o} && m[o].def == TypeDef(NAME, [])
    ensures !NoneNamed(m, NAME) && DefAt(m, o) == TypeDef(NAME, [])
    ensures forall x :: Looked(m, NAME, x) ==> x == o
    ensures Applies(OBJECT, DefAt(m, o))
  {
    assert StrCopy(NAME) == NAME;
  }

  /** Dropping the type while the tree is there: the database is unsound. */
  method TypeInUse(filp: Disk) returns (f: File, ok: bool, ghost fo: map<nat, Shape>)
    modifies filp
    ensures fresh(f) && f.filp == filp
    ensures ok && !Sound(f, fo) && (exists o :: o in f.cells && f.cells[o].ent.typePtr != 0 && f.cells[o].ent.typePtr !in f.tcells)
  {
    hide Inv, At, IsForest, TypesLive, Treed, CellsLed, TypedTops, Heads, Looked, NoneNamed, TypesScannable;
    ghost var n, ty, foff, home;
    f, fo, n, ty := OneTree(filp);
    NameFacts(f.tcells, ty);
    NoTypeAtZero(f.View());
    ok, foff, home := UserDeleteType(f, NAME, fo);
    assert n in f.cells && f.cells[n].ent.typePtr == ty;
  }

  // ---------------------------------------------------------------- the empty type name

  const TYPE_A := TypeDef([65], [])
  const TYPE_B := TypeDef([66], [])

  /** One type, at the start of the first section. */
  method TypeA(filp: Disk) returns (f: File)
    modifies filp
    ensures fresh(f) && f.filp == filp && Sound(f, map[]) && f.cells == map[]
    ensures fresh(f.fExtent) && fresh(f.fTypes) && f.fTypes != [] && f.fTypes[0].View() == Pushed(NewHead(FILE_HEAD_SIZE), 24, 1)
    ensures f.tcells.Keys == {40} && f.tcells[40].def == TYPE_A
    ensures f.lstSectPtr <= FILE_HEAD_SIZE + SECTION_SIZE
  {
    hide Inv, At, IsForest, TypesLive, Treed, TypedTops;
    f := OpenFile(filp);
    var ok: bool;
    ghost var foff, home;
    ok, foff, home := UserAddType(f, TYPE_A, map[]);
    assert home == 0 && foff == 40;
  }

  /** Two types, one behind the other. */
  method TwoTypes(filp: Disk) returns (f: File)
    modifies filp
    ensures fresh(f) && f.filp == filp && Sound(f, map[]) && f.cells == map[]
    ensures fresh(f.fExtent) && fresh(f.fTypes) && f.fTypes != [] && f.fTypes[0].fileOffset == FILE_HEAD_SIZE
    ensures f.tcells.Keys == {40, 64} && f.tcells[40].def == TYPE_A && f.tcells[64].def == TYPE_B
    ensures f.lstSectPtr <= FILE_HEAD_SIZE + 2 * SECTION_SIZE
  {
    hide Inv, At, IsForest, TypesLive, Treed, TypedTops;
    f := TypeA(filp);
    var ok: bool;
    ghost var foff, home, hs := 0, 0, Heads(f.fTypes);
    assert hs[0].free == 8135;
    ok, foff, home := UserAddType(f, TYPE_B, map[]);
    assert home == 0;
  }

  /** Only the second of them, with the slot of the first zeroed below it. */
  method SecondType(filp: Disk) returns (f: File)
    modifies filp
    ensures fresh(f) && f.filp == filp && Sound(f, map[]) && f.cells == map[]
    ensures fresh(f.fExtent) && fresh(f.fTypes) && f.fTypes != [] && f.fTypes[0].fileOffset == FILE_HEAD_SIZE
    ensures f.tcells.Keys == {64} && f.tcells[64].def == TYPE_B
    ensures f.lstSectPtr <= FILE_HEAD_SIZE + 2 * SECTION_SIZE
  {
    hide Inv, At, IsForest, TypesLive, Treed, TypedTops, Looked, NoneNamed, NoType, TypesScannable, TypesLed, FirstType, Heads;
    f := TwoTypes(filp);
    NamedA(f.tcells);
    var ok: bool;
    ghost var foff, home;
    ok, foff, home := UserDeleteType(f, [65], map[]);
  }

  /** What is known of the catalogue then. */
  lemma FirstGone(s: Snap)
    requires Inv(s) && s.types != [] && s.types[0].base == FILE_HEAD_SIZE
    requires s.tcells.Keys == {64} && s.tcells[64].def == TYPE_B
    ensures TypeMatch(s.types, s.tcells, [], 40) && !NamelessFirst(s.types, s.tcells)
    ensures forall ty :: FirstType(s.types, s.tcells, [], ty) ==> DefAt(s.tcells, ty) == BLANK
  {
    hide Inv, FreeSlot, TypesRep;
    var m := Sub(s.tcells, FILE_HEAD_SIZE);
    InvTypes(s, 0);
    InSub(s.tcells, FILE_HEAD_SIZE, 64);
    TCellBounds(s.d, s.types[0], m, 64);
    BelowIsFree(s.types[0].lip, m);
    assert FreeIn(s.types, s.tcells, 40);
    assert StrCopy([66]) == [66];
  }

  lemma BelowIsFree(lip: nat, m: map<nat, TypeCell>)
    requires m.Keys <= {64} && lip >= 80
    ensures FreeSlot(FILE_HEAD_SIZE, lip, m, 40)
  {
    assert Slots(Kind.Types, 0) == 0;
  }

  lemma NamedA(m: map<nat, TypeCell>)
    requires m.Keys == {40, 64} && m[40].def == TYPE_A && m[64].def == TYPE_B
    ensures !NoneNamed(m, [65]) && TypesLed(m)
    ensures forall x :: Looked(m, [65], x) ==> x == 40
  {
    assert StrCopy([65]) == [65] && StrCopy([66]) == [66];
  }

  /** Dropping the lower of two types, then an insert under the empty name: the new root's type is a zeroed slot. */
  method EmptyNameUnsound(filp: Disk) returns (f: File, ok: bool, ghost fo: map<nat, Shape>)
    modifies filp
    ensures fresh(f) && f.filp == filp
    ensures ok && !Sound(f, fo)
    ensures exists o :: o in f.cells && f.cells[o].ent.typePtr != 0 && f.cells[o].ent.typePtr !in f.tcells
  {
    hide Inv, At, IsForest, TypesLive, Treed, TypedTops, Looked, NoneNamed, FirstType, TypeMatch, RootJson, JsonLed, Applies, Size, Bred, KeepsTops, Links, NamelessFirst, DefAt, Spells, Heads;
    f := SecondType(filp);
    ghost var found, wrtFoff, ty, hs, m := false, 0, 0, Heads(f.fTypes), f.tcells;
    FirstGone(f.View());
    ObjectFacts();
    ok, found, wrtFoff, ty, fo := UserWrite(f, OBJECT, [], map[]);
    assert found by { assert TypeMatch(hs, m, [], 40); }
    assert FirstType(hs, m, [], ty);
    RootType(f.cells, fo, wrtFoff, OBJECT, ty);
    assert wrtFoff in f.cells && f.cells[wrtFoff].ent.typePtr == ty;
  }

  lemma RootType(cells: map<nat, Cell>, fo: map<nat, Shape>, n: nat, json: Json, ty: nat)
    requires Spells(cells, fo, n, json, ty)
    ensures n in cells && cells[n].ent.typePtr == ty
  {
  }

  /** The shape that the tree has, wherever its entities lie. */
  ghost predicate ObjectShape(t: Shape) {
    && t.Spot? && t.bro.Empty? && t.son.Spot? && t.son.son.Empty? && t.son.bro.Spot?
    && t.son.bro.bro.Empty? && t.son.bro.son.Spot? && t.son.bro.son.bro.Empty? && t.son.bro.son.son.Empty?
  }

  /** A tree and what it spells out have the same outline. */
  lemma RawParts(cells: map<nat, Cell>, t: Shape, j: Json)
    requires Readable(cells, t) && Raw(cells, t) == j
    ensures t.Spot? <==> j.Node?
    ensures j.Node? ==> Readable(cells, t.bro) && Raw(cells, t.bro) == j.bro && Readable(cells, t.son) && Raw(cells, t.son) == j.son
  {
  }

  lemma ShapeOf(cells: map<nat, Cell>, t: Shape)
    requires Readable(cells, t) && Raw(cells, t) == OBJECT
    ensures ObjectShape(t)
    ensures Readable(cells, t.son) && Readable(cells, t.son.bro) && Readable(cells, t.son.bro.son)
    ensures Raw(cells, t.son) == FIRST && Raw(cells, t.son.bro) == SECOND && Raw(cells, t.son.bro.son) == FIELD
  {
    hide Raw, Offs, Readable;
    RawParts(cells, t, OBJECT);
    RawParts(cells, t.bro, Nil);
    RawParts(cells, t.son, FIRST);
    RawParts(cells, t.son.son, Nil);
    RawParts(cells, t.son.bro, SECOND);
    RawParts(cells, t.son.bro.bro, Nil);
    RawParts(cells, t.son.bro.son, FIELD);
    RawParts(cells, t.son.bro.son.bro, Nil);
    RawParts(cells, t.son.bro.son.son, Nil);
  }

  /** A condition on the field "x", without a type name, as the server sends it. */
  function FieldItem(): QueryItem {
    QueryItem([[120]], BoolTest(Cmp.EQ, 1, _ => false))
  }

  lemma OnlySecondHolds()
    ensures ReadBack(OBJECT) == OBJECT && ReadBack(FIRST) == FIRST && ReadBack(SECOND) == SECOND && ReadBack(FIELD) == FIELD
    ensures !ItemHolds(FieldItem(), OBJECT) && !ItemHolds(FieldItem(), FIRST)
    ensures ItemHolds(FieldItem(), SECOND) && !ItemHolds(FieldItem(), FIELD)
  {
    assert StrCopy([120]) == [120] && StrCopy([98]) == [98] && StrCopy([97]) == [97] && StrCopy([111]) == [111];
    ReadBackExact(OBJECT);
    ReadBackExact(FIRST);
    ReadBackExact(SECOND);
    ReadBackExact(FIELD);
    assert Drill(SECOND, [[120]]) == Some(FIELD) by {
      assert [[120]][1..] == [] && ByKey(FIELD, [120]) == Some(FIELD);
    }
    assert ByKey(FIRST, [120]) == None;
  }

  /** What reading at a node of a tree returns. */
  lemma NodeIs(cells: map<nat, Cell>, fo: map<nat, Shape>, r: nat, o: nat)
    requires IsForest(cells, fo) && Treed(cells) && r in fo && o in Offs(fo[r])
    ensures Readable(cells, SubShape(fo[r], o)) && NodeAt(cells, o) == ReadBack(Raw(cells, SubShape(fo[r], o)))
  {
    hide IsForest, Treed, Linked, Raw, ReadBack, Tree, Offs;
    TopReadable(cells, fo, r);
    SubLinked(cells, fo[r], DadOf(cells, r), true, o);
    AsTop(cells, SubShape(fo[r], o), DadOf(cells, o), fo[r].off == o);
    assert o in cells;
    TreeIs(cells, o, SubShape(fo[r], o));
  }

  lemma FourNodes(t: Shape, o: nat)
    requires ObjectShape(t) && o in Offs(t)
    ensures o == t.off || o == t.son.off || o == t.son.bro.off || o == t.son.bro.son.off
  {
    var a, b := t.son, t.son.bro;
    assert Offs(b.son) == {b.son.off} by { assert Offs(b.son.bro) == {} && Offs(b.son.son) == {}; }
    assert Offs(b) == {b.off} + Offs(b.son) by { assert Offs(b.bro) == {}; }
    assert Offs(a) == {a.off} + Offs(b) by { assert Offs(a.son) == {}; }
    assert Offs(t) == {t.off} + Offs(a) by { assert Offs(t.bro) == {}; }
  }

  /** Only the second son satisfies the query, and it is neither a top nor a first son. */
  lemma OnlySecondHit(cells: map<nat, Cell>, fo: map<nat, Shape>, tcells: map<nat, TypeCell>, q: Query, n: nat, ty: nat)
    requires IsForest(cells, fo) && Treed(cells) && fo.Keys == {n} && Spells(cells, fo, n, OBJECT, ty)
    requires q.typeName == None && q.items == [FieldItem()]
    ensures fo[n].Spot? && fo[n].son.Spot? && fo[n].son.bro.Spot?
    ensures var b := fo[n].son.bro.off;
      && b in cells && b !in fo && !FirstSon(cells, b) && Hit(cells, tcells, q, b)
      && forall o :: o in cells && Hit(cells, tcells, q, o) ==> o == b
    ensures cells[n].ent.dadPtr == 0
  {
    hide IsForest, Treed, ItemHolds, ReadBack, NodeAt;
    var t := fo[n];
    TopReadable(cells, fo, n);
    ShapeOf(cells, t);
    OnlySecondHolds();
    SonLinks(cells, t, DadOf(cells, n), true);
    var b := t.son.bro;
    SubShapes(t);
    NodeIs(cells, fo, n, b.off);
    forall o | o in cells && o != b.off ensures !Hit(cells, tcells, q, o) {
      var r := TreeOf(cells, fo, o);
      FourNodes(t, o);
      NodeIs(cells, fo, n, o);
      assert ReadBack(Raw(cells, SubShape(t, o))) in {OBJECT, FIRST, FIELD};
      assert q.items[0] == FieldItem();
    }
  }

  lemma SubShapes(t: Shape)
    requires ObjectShape(t)
    requires var a, b, x := t.son.off, t.son.bro.off, t.son.bro.son.off; t.off != a && t.off != b && t.off != x && a != b && a != x && b != x
    ensures t.son.off in Offs(t) && t.son.bro.off in Offs(t) && t.son.bro.son.off in Offs(t)
    ensures SubShape(t, t.off) == t && SubShape(t, t.son.off) == t.son
    ensures SubShape(t, t.son.bro.off) == t.son.bro && SubShape(t, t.son.bro.son.off) == t.son.bro.son
  {
    var a, b := t.son, t.son.bro;
    assert b.son.off in Offs(b.son);
    assert b.son.off in Offs(b) && b.son.off !in Offs(b.bro);
    assert SubShape(b, b.son.off) == b.son;
    assert b.off in Offs(a) && b.son.off in Offs(a);
    assert SubShape(a, b.off) == b;
    assert SubShape(a, b.son.off) == SubShape(b, b.son.off);
    assert Offs(t.bro) == {};
  }

  lemma SonLinks(cells: map<nat, Cell>, t: Shape, d: nat, top: bool)
    requires Linked(cells, t, d, top) && ObjectShape(t)
    ensures var a, b, x := t.son, t.son.bro, t.son.bro.son;
      && t.off in cells && b.off in cells && cells[t.off].ent.sonPtr == a.off && cells[b.off].ent.dadPtr == t.off
      && a.off != b.off && t.off != b.off && t.off != a.off && x.off != b.off && x.off != a.off && x.off != t.off
  {
    assert Linked(cells, t.son, t.off, false) && Linked(cells, t.son.bro, t.off, false);
    assert t.son.bro.off in Offs(t.son) && t.son.bro.son.off in Offs(t.son.bro);
  }

  /**
   The first turn of user_delete with a query as the server sends it, which only the second son
   satisfies: the first son's brother link then leads to a dead entity.
   */
  method UntypedDeleteDangles(filp: Disk) returns (f: File, ok: bool)
    modifies filp
    ensures fresh(f) && f.filp == filp
    ensures ok && !HasForest(f.cells)
    ensures exists o :: o in f.cells && f.cells[o].ent.broPtr != 0 && f.cells[o].ent.broPtr !in f.cells
  {
    hide Inv, At, IsForest, TypesLive, Treed, CellsLed, TypedTops, Heads, Spells, Later, Rest, Started, Settled, Hit, HasForest, FirstSon, ItemHolds, Selective;
    ghost var fo, n, ty;
    f, fo, n, ty := OneTree(filp);
    var q := new Query(None);
    q.ItemAdd(FieldItem());
    OnlySecondHit(f.cells, fo, f.tcells, q, n, ty);
    ghost var b := fo[n].son.bro.off;
    FieldsSelect(q.typeName, q.items);
    var it := new Iter(f, q, fo);
    ghost var c := Cat(f);
    AllHits(f.View(), q);
    StartedRest(c, q, it.curCol, it.curSect);
    FirstFound(c, q, it.curCol, it.curSect, b);
    forall r | r in fo && b in Offs(fo[r]) ensures Scans(Bases(f.fExtent), f.cells, Order(SubShape(fo[r], b), true)) {
      LedScans(Bases(f.fExtent), f.cells, Order(SubShape(fo[r], b), true));
    }
    ok := DeleteAny(f, it.GetFound().foff, fo);
    assert BroLost(f.cells);
  }

  /** A new iterator on a file with one hit stands at it. */
  lemma FirstFound(c: Catalog, q: Query, col: seq<Found>, sect: Option<nat>, b: nat)
    requires Treed(c.cells) && Settled(c, col, sect) && Rest(c, q, col, sect) == Later(c, q, 0)
    requires Commands.Listed(Later(c, q, 0), b) && forall o :: Commands.Listed(Later(c, q, 0), o) ==> o == b
    ensures col != [] && col[0].foff == b
  {
    hide Treed, Later;
    if col == [] {
      NothingLeft(c, q, col, sect);
    } else {
      var l := Later(c, q, 0);
      assert l == Rest(c, q, col, sect) && |l| >= |col| && l[0] == col[0];
      assert Commands.Listed(l, l[0].foff);
    }
  }

  // ---------------------------------------------------------------- a run that does what it says

  function SampleRun(q: Query): seq<Ses.Command> {
    [Ses.AddType(TypeDef(NAME, [])), Ses.Insert(OBJECT, NAME), Ses.Delete(q)]
  }

  lemma SampleOk(f: File, q: Query)
    requires DbOk(f, map[]) && f.cells == map[] && q.typeName == Some(NAME)
    ensures Treed(f.cells) && Ses.RunOk(Cat(f), map[], SampleRun(q))
  {
    hide Inv, RootJson, JsonLed;
    ObjectFacts();
    assert IsForest(f.cells, map[]) && TypesLive(f.cells, f.tcells);
    Ses.TypedQueriesOk(Cat(f), map[], SampleRun(q));
  }

  /** A type, a tree of it, and a delete of all trees of it: every command succeeds, and no entity is left. */
  method SampleRuns(filp: Disk) returns (f: File, oks: seq<bool>, ghost ms: seq<Ses.Moment>)
    modifies filp
    ensures fresh(f) && f.filp == filp
    ensures oks == [true, true, true] && |ms| == 4
    ensures (exists n, ty :: ms[2].fo.Keys == {n} && Spells(ms[2].s.cells, ms[2].fo, n, OBJECT, ty))
    ensures f.cells == map[] && |f.tcells| == 1
  {
    hide Inv, IsForest, Treed, TypesLive, TypedTops, Spells, Heads, Ses.Effect, Ses.RunOk, HitSet;
    f := OpenFile(filp);
    var q := new Query(Some(NAME));
    SampleOk(f, q);
    ghost var fo;
    oks, fo, ms := Ses.Run(f, SampleRun(q), map[]);
    assert Ses.EffectBetween(SampleRun(q), 0, oks[0], ms[0], ms[1]);
    assert Ses.EffectBetween(SampleRun(q), 1, oks[1], ms[1], ms[2]);
    assert Ses.EffectBetween(SampleRun(q), 2, oks[2], ms[2], ms[3]);
    SampleType(ms[0], oks[0], ms[1]);
    SampleTree(ms[1], oks[1], ms[2]);
    SampleGone(ms[2], oks[2], ms[3], q);
    NoTrees(f, fo);
  }

  ghost predicate OneType(s: Snap, ty: nat) {
    s.tcells.Keys == {ty} && s.tcells[ty].def == TypeDef(NAME, [])
  }

  lemma SampleType(m: Ses.Moment, ok: bool, m': Ses.Moment)
    requires Treed(m.s.cells) && Treed(m'.s.cells) && Ses.Effect(Ses.AddType(TypeDef(NAME, [])), ok, m.s, m.fo, m'.s, m'.fo)
    requires m.s.lsp == FILE_HEAD_SIZE && m.s.tcells == map[] && m.fo == map[]
    ensures ok && m'.fo == map[] && m'.s.lsp <= FILE_HEAD_SIZE + SECTION_SIZE && exists ty :: OneType(m'.s, ty)
  {
    hide Treed;
    assert TypeFits(TypeDef(NAME, []));
    var o :| o !in m.s.tcells && o in m'.s.tcells && m'.s.tcells == m.s.tcells[o := m'.s.tcells[o]] && m'.s.tcells[o].def == TypeDef(NAME, []);
    assert OneType(m'.s, o);
  }

  lemma SampleTree(m: Ses.Moment, ok: bool, m': Ses.Moment)
    requires Treed(m.s.cells) && Treed(m'.s.cells) && Ses.Effect(Ses.Insert(OBJECT, NAME), ok, m.s, m.fo, m'.s, m'.fo)
    requires m.fo == map[] && m.s.lsp <= FILE_HEAD_SIZE + SECTION_SIZE && exists ty :: OneType(m.s, ty)
    ensures ok && exists ty, n :: OneType(m'.s, ty) && m'.fo.Keys == {n} && Spells(m'.s.cells, m'.fo, n, OBJECT, ty)
  {
    hide Treed, Spells, Applies, KeepsTops, Size;
    var ty :| OneType(m.s, ty);
    ObjectFacts();
    NameFacts(m.s.tcells, ty);
    TypeFound(m.s, ty);
    assert ok;
    var t, n :| Ses.RootAdded(OBJECT, NAME, m.s, m.fo, m'.s, m'.fo, t, n);
    assert OneType(m'.s, ty) && t == ty;
  }

  lemma TypeFound(s: Snap, ty: nat)
    requires OneType(s, ty)
    ensures !NoType(s.types, s.tcells, NAME)
    ensures forall x :: FirstType(s.types, s.tcells, NAME, x) ==> x == ty
  {
    hide FreeIn;
    assert StrCopy(NAME) == NAME;
    assert TypeMatch(s.types, s.tcells, NAME, ty);
  }

  lemma SampleGone(m: Ses.Moment, ok: bool, m': Ses.Moment, q: Query)
    requires Treed(m.s.cells) && Treed(m'.s.cells) && Ses.Effect(Ses.Delete(q), ok, m.s, m.fo, m'.s, m'.fo)
    requires q.typeName == Some(NAME) && q.items == []
    requires exists ty, n :: OneType(m.s, ty) && m.fo.Keys == {n} && Spells(m.s.cells, m.fo, n, OBJECT, ty)
    ensures ok && m'.fo == map[] && |m'.s.tcells| == 1
  {
    hide Treed, Spells, Pruned, KeepsTops, NodeAt, Hit;
    var ty, n :| OneType(m.s, ty) && m.fo.Keys == {n} && Spells(m.s.cells, m.fo, n, OBJECT, ty);
    RootType(m.s.cells, m.fo, n, OBJECT, ty);
    TypedHit(m.s.cells, m.s.tcells, q, n);
    assert n in HitSet(CatOf(m.s), q);
    assert |m'.s.tcells.Keys| == 1;
  }

  /** With a type name and no condition, whatever has that type is a hit. */
  lemma TypedHit(cells: map<nat, Cell>, tcells: map<nat, TypeCell>, q: Query, n: nat)
    requires Treed(cells) && q.typeName == Some(NAME) && q.items == []
    requires n in cells && cells[n].ent.typePtr in tcells && tcells[cells[n].ent.typePtr].def.name == NAME
    ensures Hit(cells, tcells, q, n)
  {
    hide Treed, NodeAt;
    assert StrCopy(NAME) == NAME;
  }

  lemma NoTrees(f: File, fo: map<nat, Shape>)
    requires Sound(f, fo) && fo == map[]
    ensures f.cells == map[]
  {
    hide Inv, Treed, TypesLive, TypedTops, Tops, Separate;
    assert forall o :: o in f.cells ==> Covered(fo, o);
    assert f.cells.Keys == {};
  }
}
