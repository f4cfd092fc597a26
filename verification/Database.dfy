/** The commands around the two iterating ones: open, types, insert, read. */
module Database {
  import opened Bytes
  import opened Disk
  import opened Section
  import opened Json
  import opened Extents
  import opened Types
  import opened Store
  import opened File
  import opened FileTypes
  import opened Forest
  import opened FileForest
  import opened Query
  import opened Find
  import opened Iterator
  import opened Commands
  import opened User

  /** A new file: no sections, no types, no trees. */
  method OpenFile(filp: Disk) returns (f: File)
    modifies filp
    ensures fresh(f) && DbOk(f, map[]) && f.filp == filp
    ensures f.cells == map[] && f.tcells == map[] && f.fExtent == [] && f.fTypes == [] && f.lstSectPtr == FILE_HEAD_SIZE
  {
    hide Inv;
    f := new File(filp);
    assert IsForest(f.cells, map[]) && Treed(f.cells) && TypesLive(f.cells, f.tcells);
  }

  lemma TypesGrow(cells: map<nat, Cell>, t: map<nat, TypeCell>, t': map<nat, TypeCell>)
    requires TypesLive(cells, t) && (forall o :: o in t ==> o in t') && 0 !in t'
    ensures TypesLive(cells, t')
  {
  }

  /** Adds a type; trees do not change. */
  method UserAddType(f: File, t: TypeDef, ghost fo: map<nat, Shape>) returns (ok: bool, ghost foff: nat, ghost home: nat)
    requires Sound(f, fo) && ItmSz(t) + RecSz(t) < TWO_64
    modifies f, f.filp, f.fTypes
    ensures Sound(f, fo) && f.cells == old(f.cells) && TypesKept(f)
    ensures ok ==> foff !in old(f.tcells) && foff in f.tcells && f.tcells == old(f.tcells)[foff := f.tcells[foff]] && f.tcells[foff].def == t
    ensures FirstRoom(old(Heads(f.fTypes)), ItmSz(t) + RecSz(t), home)
    ensures ok ==> home < |f.fTypes| && PlacedAt(old(Heads(f.fTypes)), old(f.lstSectPtr), home, f.fTypes[home].View(), t, foff)
    ensures !ok ==> f.tcells == old(f.tcells) && (!TypeFits(t) || old(f.lstSectPtr) + SECTION_SIZE > MAX_FILE)
    ensures f.lstSectPtr <= old(f.lstSectPtr) + SECTION_SIZE
  {
    hide Inv, At, IsForest, TypesLive, Treed, TypedTops, NamesLen, TypeFits, Took, FirstRoom;
    var wrtAdr: nat;
    ok, wrtAdr, home := AddType(f, t);
    foff := wrtAdr;
    NoTypeAtZero(f.View());
    TypesGrow(f.cells, old(f.tcells), f.tcells);
  }

  lemma NoTypeAtZero(s: Snap)
    requires Inv(s)
    ensures 0 !in s.tcells
  {
    hide Inv;
    if 0 in s.tcells {
      NoCellAtZero(s, 0);
    }
  }

  /** What is left of the type catalogue by a delete that found something at `foff`, in section `home`. */
  ghost predicate Dropped(f: File, cells: map<nat, Cell>, foff: nat, home: nat)
    reads f, f.fTypes
  {
    && home < |f.fTypes| && InSect(f.fTypes[home].fileOffset, foff)
    && TypesScannable(f.tcells, f.fTypes[home].fileOffset)
    && forall o :: o in cells ==> cells[o].ent.typePtr != foff
  }

  /**
   Deletes a type. The database stays sound exactly when no tree still refers to it and the lowest
   record left in its section does not begin with a zero byte.
   */
  method UserDeleteType(f: File, name: seq<byte>, ghost fo: map<nat, Shape>) returns (ok: bool, ghost foff: nat, ghost home: nat)
    requires Sound(f, fo)
    modifies f, f.filp, f.fTypes
    ensures f.cells == old(f.cells) && TypesKept(f) && f.fTypes == old(f.fTypes) && f.lstSectPtr == old(f.lstSectPtr)
    ensures ok ==> FirstType(old(Heads(f.fTypes)), old(f.tcells), name, foff) && Looked(old(f.tcells), name, foff) && f.tcells == old(f.tcells) - {foff}
    ensures ok ==> home < |f.fTypes| && InSect(f.fTypes[home].fileOffset, foff) && foff != 0
    ensures ok ==> (Sound(f, fo) <==> Dropped(f, f.cells, foff, home))
    ensures ok && old(TypesLed(f.tcells)) ==> TypesScannable(f.tcells, f.fTypes[home].fileOffset)
    ensures !ok ==> NoType(old(Heads(f.fTypes)), old(f.tcells), name) && NoneNamed(f.tcells, name) && f.tcells == old(f.tcells) && Sound(f, fo)
  {
    hide Inv, At, IsForest, Treed, TypedTops, NamesLen, FirstNamed, NoneNamed, NoneBefore, NamesNoNul, TypesScannable, TypesLive, Looked, FirstType, NoType, Heads;
    ghost var tcells, hs := f.tcells, Heads(f.fTypes);
    NoTypeAtZero(f.View());
    NotZeroHome(f.View());
    ok, foff, home := DeleteType(f, name);
    FirstLooked(hs, tcells, name, foff);
    if ok {
      TypesDrop(f.cells, tcells, foff);
      if TypesLed(tcells) {
        CellsOfTypes(old(f.View()));
        LedScannable(f.tcells, f.fTypes[home].fileOffset);
      }
    }
  }

  /** Dropping a type keeps all type links live exactly when none leads to it. */
  lemma TypesDrop(cells: map<nat, Cell>, t: map<nat, TypeCell>, foff: nat)
    requires TypesLive(cells, t) && foff != 0
    ensures TypesLive(cells, t - {foff}) <==> forall o :: o in cells ==> cells[o].ent.typePtr != foff
  {
  }

  lemma NotZeroHome(s: Snap)
    requires Inv(s)
    ensures forall i :: 0 <= i < |s.types| ==> s.types[i].base > 0
  {
    hide ExtsOk, TypesOk, Tiled, AllHomed, Holds, Disjoint;
  }

  lemma CellsOfTypes(s: Snap)
    requires Inv(s)
    ensures forall o :: o in s.tcells ==> TCellWf(s.tcells[o])
  {
    hide Inv, TypesRep;
    forall o | o in s.tcells ensures TCellWf(s.tcells[o]) {
      var i := TypeHome(s, o);
      InvTypes(s, i);
      InSub(s.tcells, s.types[i].base, o);
      TypesWf(s.d, s.types[i], Sub(s.tcells, s.types[i].base));
    }
  }

  lemma TypeHome(s: Snap, o: nat) returns (i: nat)
    requires Inv(s) && o in s.tcells
    ensures i < |s.types| && InSect(s.types[i].base, o)
  {
    hide ExtsOk, TypesOk, Tiled, Holds, Disjoint;
    assert Homed(s.types, o);
    i :| 0 <= i < |s.types| && InSect(s.types[i].base, o);
  }

  lemma TypesWf(d: seq<byte>, h: Head, m: map<nat, TypeCell>)
    requires TypesRep(d, h, m)
    ensures TCellsWf(m)
  {
  }

  // ---------------------------------------------------------------- insert

  /** The `next` link of a node: it chains the entries of a list, and nothing inside a tree sets it. */
  function NextOf(j: Json): (n: Json)
    requires j.Node?
    ensures Size(n) < Size(j)
  {
    Nil
  }

  /** What the loop of json_is_apply_type decides from a son on. */
  predicate AppliesFrom(cur: Json, attrs: seq<Attr>)
    decreases Size(cur)
  {
    if cur.Nil? || attrs == [] then attrs == []
    else if !StrEq(attrs[0].name, cur.key) then AppliesFrom(NextOf(cur), attrs)
    else attrs[0].ty == cur.ty && AppliesFrom(NextOf(cur), attrs[1..])
  }

  predicate Applies(j: Json, t: TypeDef)
    requires j.Node?
  {
    j.ty != Object || AppliesFrom(j.son, t.attrs)
  }

  /** json_is_apply_type: it steps from son to son through `next`. */
  method IsApplyType(j: Json, t: TypeDef) returns (ok: bool)
    requires j.Node?
    ensures ok <==> Applies(j, t)
  {
    if j.ty == Object {
      var i, cur := 0, j.son;
      while cur.Node? && i < |t.attrs|
        invariant i <= |t.attrs| && AppliesFrom(j.son, t.attrs) == AppliesFrom(cur, t.attrs[i..])
        decreases Size(cur)
      {
        assert t.attrs[i..][1..] == t.attrs[i + 1..];
        if StrEq(t.attrs[i].name, cur.key) {
          if t.attrs[i].ty != cur.ty {
            return false;
          }
          i := i + 1;
        }
        cur := NextOf(cur);
      }
      if i < |t.attrs| {
        return false;
      }
    }
    return true;
  }

  /** The check that the source's comment describes: every attribute occurs among the sons, in order. */
  predicate AppliesInOrder(sons: Json, attrs: seq<Attr>) {
    if attrs == [] then true
    else if sons.Nil? then false
    else if StrEq(attrs[0].name, sons.key) then attrs[0].ty == sons.ty && AppliesInOrder(sons.bro, attrs[1..])
    else AppliesInOrder(sons.bro, attrs)
  }

  /** There is one attribute, and the first son has its name and its type. */
  ghost predicate OnlyAttr(sons: Json, attrs: seq<Attr>) {
    |attrs| == 1 && sons.Node? && SameCString(attrs[0].name, sons.key) && attrs[0].ty == sons.ty
  }

  /**
   Whatever is no object is accepted. Of an object, what the check accepts is right, but of two or more
   attributes, or past the first son, it sees nothing.
   */
  lemma AppliesExact(j: Json, t: TypeDef)
    requires j.Node?
    ensures j.ty != Object ==> Applies(j, t)
    ensures j.ty == Object ==> (Applies(j, t) <==> t.attrs == [] || OnlyAttr(j.son, t.attrs))
    ensures j.ty == Object && Applies(j, t) ==> AppliesInOrder(j.son, t.attrs)
  {
    hide StrEq, SameCString;
    if j.ty == Object && t.attrs != [] && j.son.Node? {
      StrEqExact(t.attrs[0].name, j.son.key);
      var rest := t.attrs[1..];
      assert AppliesFrom(NextOf(j.son), t.attrs) == false;
      assert AppliesFrom(NextOf(j.son), rest) == (rest == []);
    }
  }

  /** The outcome of an insert, given the type offset that its name was found at. */
  ghost predicate InsertDone(
    ok: bool, cells: map<nat, Cell>, tcells: map<nat, TypeCell>, lsp: nat, json: Json, ty: nat, wrtFoff: nat,
    fo: map<nat, Shape>, fo': map<nat, Shape>)
    requires json.Node?
  {
    if ok then
      && Applies(json, DefAt(tcells, ty)) && Fits(json)
      && wrtFoff !in fo && fo'.Keys == fo.Keys + {wrtFoff} && Spells(cells, fo', wrtFoff, json, ty)
    else !Applies(json, DefAt(tcells, ty)) || !Fits(json) || lsp + SECTION_SIZE > MAX_FILE
  }

  /** The lowest slot that the empty name matches is a live type without a name. */
  ghost predicate NamelessFirst(hs: seq<Head>, m: map<nat, TypeCell>) {
    exists x :: x in m && m[x].def.name == [] && forall y: nat :: FreeIn(hs, m, y) ==> x < y
  }

  /**
   Inserts a tree as a new root of the named type. The empty name takes a zeroed slot among the types
   where that comes first; a root of that type leaves the database unsound.
   */
  method UserWrite(f: File, json: Json, typeName: seq<byte>, ghost fo: map<nat, Shape>)
    returns (ok: bool, ghost found: bool, ghost wrtFoff: nat, ghost ty: nat, ghost fo': map<nat, Shape>)
    requires Sound(f, fo) && RootJson(json)
    modifies f, f.filp, f.fExtent
    ensures Rooted(f, fo') && f.Kept() && Extends(old(f.cells), f.cells) && json.Node?
    ensures fo.Keys <= fo'.Keys && KeepsTops(old(f.cells), fo, f.cells, fo', {}) && Bred(old(f.cells), fo, f.cells, fo', json)
    ensures old(CellsLed(f.cells)) && JsonLed(json) ==> CellsLed(f.cells)
    ensures Links(f.cells) <= Links(old(f.cells)) + {0, ty}
    ensures !found ==> NoType(Heads(f.fTypes), f.tcells, typeName) && NoneNamed(f.tcells, typeName)
    ensures !found ==> !ok && Sound(f, fo') && f.cells == old(f.cells)
    ensures found ==> FirstType(Heads(f.fTypes), f.tcells, typeName, ty) && Looked(f.tcells, typeName, ty) && ty != 0
    ensures found ==> InsertDone(ok, f.cells, f.tcells, f.lstSectPtr, json, ty, wrtFoff, fo, fo')
    ensures found && ty in f.tcells ==> Sound(f, fo') && !NoneNamed(f.tcells, typeName)
    ensures ok ==> (Sound(f, fo') <==> ty in f.tcells)
    ensures found && ty !in f.tcells ==> (Sound(f, fo') <==> ty !in Links(f.cells))
    ensures ok ==> (Sound(f, fo') <==> typeName != [] || old(NamelessFirst(Heads(f.fTypes), f.tcells)))
    ensures f.lstSectPtr <= old(f.lstSectPtr) + SECTION_SIZE * Size(json)
  {
    hide Inv, At, IsForest, TypesLive, Treed, CellsLed, TypedTops, FirstNamed, NoneNamed, NoneBefore, KeepsTops, Spells, Fits, Applies, DefAt, Extends, RootJson, JsonLed, Bred, Size, Looked, BlankSlot, Heads, Links, FirstType, NoType, NamelessFirst;
    JsonNode(json);
    wrtFoff, ty, fo' := 0, 0, fo;
    var t: TypeDef, soff: nat, sect: nat;
    ok, t, soff, sect := FindType(f, typeName);
    found := ok;
    ghost var hs, cells := Heads(f.fTypes), f.cells;
    KeepsRefl(f.cells, fo);
    GrewRefl(f.cells);
    BredRefl(f.cells, fo, json);
    NoTypeAtZero(f.View());
    if !ok {
      FirstLooked(hs, f.tcells, typeName, 0);
      return;
    }
    var typeFoff := f.fTypes[sect].GetFileoff(soff);
    ty := typeFoff;
    FirstLooked(hs, f.tcells, typeName, ty);
    FoundOrNone(f.tcells, typeName, ty);
    DeadLink(cells, f.cells, f.tcells, ty);
    LipsInside(f.View());
    NamelessIs(hs, f.tcells, typeName, ty);
    TypeOffset(f.View(), sect, ty);
    ok := IsApplyType(json, t);
    if ok {
      var foff: nat;
      ok, foff, fo' := WriteRoot(f, json, 0, typeFoff, fo);
      wrtFoff := foff;
      DeadLink(cells, f.cells, f.tcells, ty);
      if ok {
        TypeLink(f.cells, f.tcells, fo', wrtFoff, json, ty);
      }
    }
  }

  /** Whether a look-up takes a live type, told from the catalogue before it. */
  lemma NamelessIs(hs: seq<Head>, m: map<nat, TypeCell>, name: seq<byte>, ty: nat)
    requires FirstType(hs, m, name, ty) && forall i :: 0 <= i < |hs| ==> hs[i].lip <= SECTION_SIZE
    ensures ty in m <==> name != [] || NamelessFirst(hs, m)
  {
    hide FreeSlot, StrCopy;
    if name == [] && ty in m {
      assert m[ty].def.name == [];
      forall y: nat | FreeIn(hs, m, y) ensures ty < y {
        FreeNotLive(hs, m, y);
        assert TypeMatch(hs, m, name, y);
      }
    }
    if name == [] && NamelessFirst(hs, m) {
      var x :| x in m && m[x].def.name == [] && forall y: nat :: FreeIn(hs, m, y) ==> x < y;
      NamelessBound(hs, m, ty, x);
    }
  }

  lemma NamelessBound(hs: seq<Head>, m: map<nat, TypeCell>, ty: nat, x: nat)
    requires FirstType(hs, m, [], ty) && x in m && m[x].def.name == []
    ensures ty <= x
  {
    hide FreeSlot;
    assert TypeMatch(hs, m, [], x);
  }

  lemma LipsInside(s: Snap)
    requires Inv(s)
    ensures forall i :: 0 <= i < |s.types| ==> s.types[i].lip <= SECTION_SIZE
  {
    hide Inv;
    forall i | 0 <= i < |s.types| ensures s.types[i].lip <= SECTION_SIZE {
      TypeSlotInside(s, i);
    }
  }

  lemma FreeNotLive(hs: seq<Head>, m: map<nat, TypeCell>, y: nat)
    requires FreeIn(hs, m, y) && forall i :: 0 <= i < |hs| ==> hs[i].lip <= SECTION_SIZE
    ensures y !in m
  {
    hide Aligned;
    var i :| 0 <= i < |hs| && FreeSlot(hs[i].base, hs[i].lip, Sub(m, hs[i].base), y);
    assert InSect(hs[i].base, y);
    SubIff(m, hs[i].base, y);
  }

  /** An offset inside a section fits a link, and is no null link. */
  lemma TypeOffset(s: Snap, i: nat, ty: nat)
    requires Inv(s) && i < |s.types| && InSect(s.types[i].base, ty)
    ensures 0 < ty < TWO_64
  {
    hide Inv;
    InvTypes(s, i);
  }

  /** With one link more, all type links are live unless that one is dead and in use. */
  lemma DeadLink(cells0: map<nat, Cell>, cells: map<nat, Cell>, tcells: map<nat, TypeCell>, ty: nat)
    requires TypesLive(cells0, tcells) && Links(cells) <= Links(cells0) + {0, ty}
    ensures ty != 0 && ty !in tcells ==> (TypesLive(cells, tcells) <==> ty !in Links(cells))
  {
    forall o | o in cells ensures cells[o].ent.typePtr in Links(cells0) + {0, ty} {
      assert cells[o].ent.typePtr in Links(cells);
    }
  }

  lemma TypeLink(cells: map<nat, Cell>, tcells: map<nat, TypeCell>, fo: map<nat, Shape>, n: nat, json: Json, ty: nat)
    requires Spells(cells, fo, n, json, ty) && ty != 0
    ensures TypesLive(cells, tcells) ==> ty in tcells
  {
    hide Raw;
  }

  lemma BredRefl(cells: map<nat, Cell>, fo: map<nat, Shape>, json: Json)
    requires KeepsTops(cells, fo, cells, fo, {})
    ensures Bred(cells, fo, cells, fo, json)
  {
    hide KeepsTop, Sprung;
  }

  lemma FoundOrNone(m: map<nat, TypeCell>, name: seq<byte>, o: nat)
    requires Looked(m, name, o)
    ensures o in m ==> !NoneNamed(m, name)
  {
    hide StrEq, StrCopy;
  }

  lemma GrewRefl(cells: map<nat, Cell>)
    ensures Extends(cells, cells)
  {
  }

  /** The round trip: a stored root reads back as the tree that went in, exactly when its strings are C strings. */
  lemma RoundTrip(cells: map<nat, Cell>, fo: map<nat, Shape>, n: nat, json: Json, ty: nat)
    requires IsForest(cells, fo) && Treed(cells) && Spells(cells, fo, n, json, ty) && Wf(json)
    ensures n in cells && NodeAt(cells, n) == ReadBack(json)
    ensures NodeAt(cells, n) == json <==> Canonical(json)
  {
    hide IsForest, Treed, Linked, Raw, Tree, ReadBack, Canonical, Wf;
    assert Top(cells, n, fo[n]) by { TopReadable(cells, fo, n); }
    TreeIs(cells, n, fo[n]);
    ReadBackExact(json);
  }

  // ---------------------------------------------------------------- read

  /** Runs a read command to its end: every hit of every section, in order, each once. */
  method ReadAll(f: File, q: Query, ghost fo: map<nat, Shape>) returns (collection: seq<Found>)
    requires FileOk(f, fo)
    modifies f.filp
    ensures FileOk(f, fo) && OnlyRead(f)
    ensures collection == Later(Cat(f), q, 0)
  {
    hide FileOk, At, Treed, Later, Rest, Settled, Started, Heads, Reading;
    FileOkTreed(f, fo);
    ghost var c := Cat(f);
    var it := new Iter(f, q, fo);
    StartedRest(c, q, it.curCol, it.curSect);
    StartedBounds(c, q, it.curCol, it.curSect);
    collection := [];
    ReadingStart(f, it, q, fo, c);
    while it.IsAvail()
      invariant fresh(it) && OnlyRead(f) && Treed(c.cells)
      invariant Reading(f, it, q, fo, c, collection)
      decreases |Rest(c, q, it.curCol, it.curSect)|
    {
      collection := ReadTurn(f, it, q, fo, c, collection);
    }
    ReadingEnd(f, it, q, fo, c, collection);
  }

  /** The loop invariant of a read: what has been collected and what is still to come are all the hits. */
  ghost predicate Reading(f: File, it: Iter, q: Query, fo: map<nat, Shape>, c: Catalog, collection: seq<Found>)
    requires Treed(c.cells)
    reads f, f.filp, f.fExtent, f.fTypes, it, q
  {
    && it.file == f && it.query == q && FileOk(f, fo) && Cat(f) == c && Settled(c, it.curCol, it.curSect)
    && (it.curSect.Some? ==> it.curSect.value < |f.fExtent|) && (it.curSect.None? ==> it.curCol == [])
    && Later(c, q, 0) == collection + Rest(c, q, it.curCol, it.curSect)
  }

  lemma ReadingStart(f: File, it: Iter, q: Query, fo: map<nat, Shape>, c: Catalog)
    requires Treed(c.cells) && it.file == f && it.query == q && FileOk(f, fo) && Cat(f) == c
    requires Settled(c, it.curCol, it.curSect) && Later(c, q, 0) == Rest(c, q, it.curCol, it.curSect)
    requires (it.curSect.Some? ==> it.curSect.value < |c.exts|) && (it.curSect.None? ==> it.curCol == [])
    ensures Reading(f, it, q, fo, c, [])
  {
    hide FileOk, Treed, Later, Rest, Settled;
    assert [] + Rest(c, q, it.curCol, it.curSect) == Rest(c, q, it.curCol, it.curSect);
  }

  lemma ReadingEnd(f: File, it: Iter, q: Query, fo: map<nat, Shape>, c: Catalog, collection: seq<Found>)
    requires Treed(c.cells) && Reading(f, it, q, fo, c, collection) && it.curCol == []
    ensures FileOk(f, fo) && Cat(f) == c && collection == Later(c, q, 0)
  {
    hide FileOk, Treed, Later, Rest, Settled;
    NothingLeft(c, q, it.curCol, it.curSect);
  }

  /** One turn of the loop of a read. */
  method ReadTurn(f: File, it: Iter, q: Query, ghost fo: map<nat, Shape>, ghost c: Catalog, collection: seq<Found>)
    returns (collection': seq<Found>)
    requires Treed(c.cells) && Reading(f, it, q, fo, c, collection) && it.curCol != []
    modifies it, f.filp
    ensures OnlyRead(f) && Reading(f, it, q, fo, c, collection')
    ensures |Rest(c, q, it.curCol, it.curSect)| < old(|Rest(c, q, it.curCol, it.curSect)|)
  {
    hide FileOk, At, Treed, Later, Rest, Settled, Advanced, Heads;
    ghost var col, sect := it.curCol, it.curSect;
    collection' := collection + [it.GetFound()];
    it.Next(fo);
    NextRest(c, q, col, sect, it.curCol, it.curSect);
    AdvancedBounds(c, q, sect, it.curCol, it.curSect);
    RestHead(c, q, col, sect);
  }

  lemma StartedBounds(c: Catalog, q: Query, col: seq<Found>, sect: Option<nat>)
    requires Treed(c.cells) && Started(c, q, col, sect)
    ensures (sect.Some? ==> sect.value < |c.exts|) && (sect.None? ==> col == [])
  {
  }

  lemma AdvancedBounds(c: Catalog, q: Query, sect: Option<nat>, col': seq<Found>, sect': Option<nat>)
    requires Treed(c.cells)
    ensures Advanced(c, q, sect, col', sect') ==> (sect'.Some? ==> sect'.value < |c.exts|) && (sect'.None? ==> col' == [])
  {
    hide Treed, NoHits, HitsOf;
  }

  lemma RestHead(c: Catalog, q: Query, col: seq<Found>, sect: Option<nat>)
    requires Treed(c.cells) && col != []
    ensures Rest(c, q, col, sect) != [] && Rest(c, q, col, sect) == [col[0]] + Rest(c, q, col, sect)[1..]
  {
    hide Treed, Later;
  }

  lemma NothingLeft(c: Catalog, q: Query, col: seq<Found>, sect: Option<nat>)
    requires Treed(c.cells) && Settled(c, col, sect) && col == []
    ensures Rest(c, q, col, sect) == []
  {
    hide Treed;
  }
}
