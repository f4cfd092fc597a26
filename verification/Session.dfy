/** Any run of commands on one open file. */
module Session {
  import opened Bytes
  import opened Disk
  import opened Section
  import opened Json
  import opened Extents
  import opened Types
  import opened Store
  import opened File
  import opened FileTypes
  import opened Forest
  import opened FileForest
  import opened Query
  import opened Find
  import opened Iterator
  import opened Commands
  import opened User
  import opened Database

  datatype Command =
    | AddType(def: TypeDef)
    | DeleteType(name: seq<byte>)
    | Insert(json: Json, typeName: seq<byte>)
    | Read(query: Query)
    | Update(query: Query, json: Json)
    | Delete(query: Query)

  predicate Mutates(c: Command) {
    c.Update? || c.Delete?
  }

  /** The tree that a command writes, if it writes one. */
  function JsonOf(c: Command): Json {
    match c
    case Insert(json, _) => json
    case Update(_, json) => json
    case _ => Nil
  }

  ghost function QueryOf(c: Command): set<Query> {
    if Mutates(c) then {c.query} else {}
  }

  // ---------------------------------------------------------------- what is asked of one command

  /** No tree refers to a type of this name. */
  ghost predicate Disused(cells: map<nat, Cell>, t: map<nat, TypeCell>, name: seq<byte>) {
    forall p :: p in Links(cells) && p != 0 ==> p in t && !StrEq(StrCopy(t[p].def.name), name)
  }

  /** What a command must be by itself: a type that size_t can measure, a tree fit to be a root, a name that no zeroed slot has. */
  ghost predicate ShapeOk(c: Command) {
    match c
    case AddType(def) => ItmSz(def) + RecSz(def) < TWO_64
    case Insert(json, typeName) => RootJson(json) && typeName != []
    case Update(_, json) => RootJson(json)
    case _ => true
  }

  /** What a command needs of the database it is given. */
  ghost predicate Allowed(cat: Catalog, fo: map<nat, Shape>, c: Command)
    requires Treed(cat.cells)
    reads QueryOf(c)
  {
    && ShapeOk(c)
    && (c.DeleteType? ==> TypesLed(cat.tcells) && Disused(cat.cells, cat.tcells, c.name))
    && (Mutates(c) ==> CellsLed(cat.cells) && RootQuery(cat, fo, c.query))
    && (c.Update? ==> JsonLed(c.json) && MissesInside(c.query, c.json))
  }

  /** The roots that a command is about to delete or replace. */
  ghost function Targets(cat: Catalog, c: Command): set<nat>
    requires Treed(cat.cells)
    reads QueryOf(c)
  {
    if Mutates(c) then HitSet(cat, c.query) else {}
  }

  // ---------------------------------------------------------------- what one command does

  /** What a command may do to the types. */
  ghost predicate TypesMoved(c: Command, t: map<nat, TypeCell>, t': map<nat, TypeCell>) {
    match c
    case AddType(def) => t' == t || exists o :: o !in t && o in t' && t' == t[o := t'[o]] && t'[o].def == def
    case DeleteType(name) => t' == t || exists o :: (o in t ==> StrEq(StrCopy(t[o].def.name), name)) && t' == t - {o}
    case _ => t' == t
  }

  /** What it may do to the type links: no new ones but the one of an insert. */
  ghost predicate LinksMoved(c: Command, cells: map<nat, Cell>, t: map<nat, TypeCell>, cells': map<nat, Cell>) {
    forall p :: p in Links(cells') ==>
      p == 0 || p in Links(cells) || (c.Insert? && p in t && StrEq(StrCopy(t[p].def.name), c.typeName))
  }

  ghost predicate Moved(c: Command, cat: Catalog, fo: map<nat, Shape>, cat': Catalog, fo': map<nat, Shape>) {
    && Bred(cat.cells, fo, cat'.cells, fo', JsonOf(c))
    && (CellsLed(cat.cells) && JsonLed(JsonOf(c)) ==> CellsLed(cat'.cells))
    && TypesMoved(c, cat.tcells, cat'.tcells) && LinksMoved(c, cat.cells, cat.tcells, cat'.cells)
  }

  // ---------------------------------------------------------------- what one command has done

  /** A new type with this definition, or a type that fits no section, or a file that cannot grow. */
  ghost predicate TypeAdded(def: TypeDef, ok: bool, s: Snap, s': Snap) {
    s'.lsp <= s.lsp + SECTION_SIZE &&
    if ok then exists o :: o !in s.tcells && o in s'.tcells && s'.tcells == s.tcells[o := s'.tcells[o]] && s'.tcells[o].def == def
    else s'.tcells == s.tcells && (!TypeFits(def) || s.lsp + SECTION_SIZE > MAX_FILE)
  }

  /** The lowest match is gone, or there was none. */
  ghost predicate TypeDropped(name: seq<byte>, ok: bool, s: Snap, s': Snap) {
    if ok then exists o :: FirstType(s.types, s.tcells, name, o) && s'.tcells == s.tcells - {o}
    else NoType(s.types, s.tcells, name) && s'.tcells == s.tcells
  }

  /** `n` is the one new root; it spells out the tree under the type that the name was found for. */
  ghost predicate RootAdded(json: Json, typeName: seq<byte>, s: Snap, fo: map<nat, Shape>, s': Snap, fo': map<nat, Shape>, ty: nat, n: nat) {
    && FirstType(s.types, s.tcells, typeName, ty) && ty in s.tcells && json.Node? && Applies(json, DefAt(s.tcells, ty)) && Fits(json)
    && n !in fo && fo'.Keys == fo.Keys + {n} && Spells(s'.cells, fo', n, json, ty)
  }

  /** Why an insert fails: no such type, a tree that the type rejects, a node that fits no section, a file that cannot grow. */
  ghost predicate Refused(json: Json, typeName: seq<byte>, s: Snap, s': Snap) {
    || (NoType(s.types, s.tcells, typeName) && s'.cells == s.cells)
    || (exists ty :: FirstType(s.types, s.tcells, typeName, ty) && json.Node? && !Applies(json, DefAt(s.tcells, ty)))
    || !Fits(json) || s'.lsp + SECTION_SIZE > MAX_FILE
  }

  ghost predicate RootInserted(json: Json, typeName: seq<byte>, ok: bool, s: Snap, fo: map<nat, Shape>, s': Snap, fo': map<nat, Shape>) {
    s'.lsp <= s.lsp + SECTION_SIZE * Size(json) &&
    if ok then exists ty, n :: RootAdded(json, typeName, s, fo, s', fo', ty, n) else Refused(json, typeName, s, s')
  }

  /** Every old hit has become the one new root that `moved` takes it to. */
  ghost predicate AllMoved(q: Query, json: Json, s: Snap, fo: map<nat, Shape>, s': Snap, fo': map<nat, Shape>, moved: map<nat, nat>)
    requires Treed(s.cells) && Treed(s'.cells)
    reads q
  {
    && moved.Keys == HitSet(CatOf(s), q) && Replaced(s.cells, fo, s'.cells, fo', moved, json)
    && KeepsTops(s.cells, fo, s'.cells, fo', moved.Keys) && ReadBack(json).Node?
    && HitSet(CatOf(s'), q) == if ItemsHold(q.items, ReadBack(json)) then moved.Values else {}
  }

  /** The update has stopped at the hit `lost`. */
  ghost predicate StoppedAt(
    q: Query, json: Json, s: Snap, fo: map<nat, Shape>, s': Snap, fo': map<nat, Shape>, moved: map<nat, nat>, lost: nat)
    requires Treed(s.cells)
    reads q
  {
    Failed(CatOf(s), fo, s'.cells, fo', moved, lost, json, HitSet(CatOf(s), q)) && (!Fits(json) || s'.lsp + SECTION_SIZE > MAX_FILE)
  }

  ghost predicate HitsReplaced(q: Query, json: Json, ok: bool, s: Snap, fo: map<nat, Shape>, s': Snap, fo': map<nat, Shape>)
    requires Treed(s.cells) && Treed(s'.cells)
    reads q
  {
    if ok then exists moved :: AllMoved(q, json, s, fo, s', fo', moved)
    else exists moved, lost :: StoppedAt(q, json, s, fo, s', fo', moved, lost)
  }

  /** Exactly the trees of all hits are gone. */
  ghost predicate HitsGone(q: Query, s: Snap, fo: map<nat, Shape>, s': Snap, fo': map<nat, Shape>)
    requires Treed(s.cells) && Treed(s'.cells)
    reads q
  {
    var hits := HitSet(CatOf(s), q);
    && hits <= fo.Keys && fo' == fo - hits && HitSet(CatOf(s'), q) == {}
    && Pruned(s.cells, fo, s'.cells, fo', hits) && KeepsTops(s.cells, fo, s'.cells, fo', hits)
  }

  /** What a command has done to the database, given whether it returned OK. */
  ghost predicate Effect(c: Command, ok: bool, s: Snap, fo: map<nat, Shape>, s': Snap, fo': map<nat, Shape>)
    requires Treed(s.cells) && Treed(s'.cells)
    reads QueryOf(c)
  {
    match c
    case AddType(def) => TypeAdded(def, ok, s, s') && s'.cells == s.cells && fo' == fo
    case DeleteType(name) => TypeDropped(name, ok, s, s') && s'.cells == s.cells && fo' == fo
    case Insert(json, typeName) =>
      RootInserted(json, typeName, ok, s, fo, s', fo') && s'.tcells == s.tcells && KeepsTops(s.cells, fo, s'.cells, fo', {})
    case Read(_) => ok && s' == s.(d := s'.d) && Same(s.d, s'.d) && fo' == fo
    case Update(query, json) => HitsReplaced(query, json, ok, s, fo, s', fo') && s'.tcells == s.tcells
    case Delete(query) => ok && HitsGone(query, s, fo, s', fo') && s'.tcells == s.tcells
  }

  /** New sections only follow the old ones. */
  twostate predicate SectionsGrown(f: File)
    reads f
  {
    && old(f.fExtent) <= f.fExtent && (forall i :: |old(f.fExtent)| <= i < |f.fExtent| ==> fresh(f.fExtent[i]))
    && old(f.fTypes) <= f.fTypes && (forall i :: |old(f.fTypes)| <= i < |f.fTypes| ==> fresh(f.fTypes[i]))
  }

  lemma Unmoved(c: Command, cat: Catalog, fo: map<nat, Shape>, cat': Catalog)
    requires IsForest(cat.cells, fo) && cat'.cells == cat.cells && TypesMoved(c, cat.tcells, cat'.tcells)
    ensures Moved(c, cat, fo, cat', fo) && KeepsTops(cat.cells, fo, cat'.cells, fo, {})
  {
    hide IsForest, KeepsTops, Bred, TypesMoved, Links;
    KeepsRefl(cat.cells, fo);
    BredRefl(cat.cells, fo, JsonOf(c));
  }

  /** user_read: an iterator at its start. */
  method UserRead(f: File, q: Query, ghost fo: map<nat, Shape>) returns (it: Iter)
    requires FileOk(f, fo)
    modifies f.filp
    ensures fresh(it) && FileOk(f, fo) && OnlyRead(f) && Treed(f.cells)
    ensures Rest(Cat(f), q, it.curCol, it.curSect) == Later(Cat(f), q, 0)
  {
    hide Inv, At, IsForest, TypesLive, Treed, Later, Rest, Started;
    it := new Iter(f, q, fo);
    StartedRest(Cat(f), q, it.curCol, it.curSect);
  }

  lemma SoundParts(f: File, fo: map<nat, Shape>)
    requires Sound(f, fo)
    ensures FileOk(f, fo) && IsForest(f.cells, fo) && Treed(f.cells) && TypesLive(f.cells, f.tcells) && TypedTops(f.cells, fo)
    ensures 0 !in f.tcells && Inv(f.View())
  {
    hide Inv, IsForest, Treed, TypedTops;
  }

  method ApplyAddType(f: File, c: Command, ghost fo: map<nat, Shape>) returns (ok: bool)
    requires Sound(f, fo) && ShapeOk(c) && c.AddType?
    modifies f, f.filp, f.fTypes
    ensures Sound(f, fo) && SectionsGrown(f)
    ensures Moved(c, old(Cat(f)), fo, Cat(f), fo) && KeepsTops(old(f.cells), fo, f.cells, fo, {})
    ensures TypeAdded(c.def, ok, old(f.View()), f.View()) && f.cells == old(f.cells)
  {
    hide Inv, At, IsForest, TypesLive, Treed, TypedTops, NamesLen, TypeFits, KeepsTops, Moved, Heads;
    SoundParts(f, fo);
    ghost var cat, foff, home := Cat(f), 0, 0;
    ok, foff, home := UserAddType(f, c.def, fo);
    Unmoved(c, cat, fo, Cat(f));
  }

  method ApplyDeleteType(f: File, c: Command, ghost fo: map<nat, Shape>) returns (ok: bool)
    requires Sound(f, fo) && c.DeleteType? && TypesLed(f.tcells) && Disused(f.cells, f.tcells, c.name)
    modifies f, f.filp, f.fTypes
    ensures Sound(f, fo) && SectionsGrown(f)
    ensures Moved(c, old(Cat(f)), fo, Cat(f), fo) && KeepsTops(old(f.cells), fo, f.cells, fo, {})
    ensures TypeDropped(c.name, ok, old(f.View()), f.View()) && f.cells == old(f.cells)
  {
    hide Inv, FirstType, NoType, At, IsForest, TypesLive, Treed, TypedTops, NamesLen, KeepsTops, Moved, Heads, NamesNoNul, StrEq, StrCopy, NoneNamed, NoneBefore, TypesScannable, TypesLed, Disused, Looked, Sound;
    SoundParts(f, fo);
    ghost var cat, foff, home := Cat(f), 0, 0;
    ok, foff, home := UserDeleteType(f, c.name, fo);
    if ok {
      UnusedGone(cat, c.name, foff);
      LookedMoved(c, cat.tcells, foff);
    }
    Unmoved(c, cat, fo, Cat(f));
  }

  /** No tree refers to the type that a delete by a disused name finds. */
  lemma UnusedGone(cat: Catalog, name: seq<byte>, foff: nat)
    requires TypesLive(cat.cells, cat.tcells) && Disused(cat.cells, cat.tcells, name) && Looked(cat.tcells, name, foff)
    ensures foff != 0 ==> forall o :: o in cat.cells ==> cat.cells[o].ent.typePtr != foff
  {
    hide StrEq, StrCopy, NoneBefore;
    forall o | o in cat.cells && foff != 0 ensures cat.cells[o].ent.typePtr != foff {
      assert cat.cells[o].ent.typePtr in Links(cat.cells);
    }
  }

  lemma LookedMoved(c: Command, t: map<nat, TypeCell>, foff: nat)
    requires c.DeleteType? && Looked(t, c.name, foff)
    ensures TypesMoved(c, t, t - {foff})
  {
    hide StrEq, StrCopy, NoneBefore;
  }

  method ApplyInsert(f: File, c: Command, ghost fo: map<nat, Shape>) returns (ok: bool, ghost fo': map<nat, Shape>)
    requires Sound(f, fo) && ShapeOk(c) && c.Insert?
    modifies f, f.filp, f.fExtent
    ensures Sound(f, fo') && f.Kept()
    ensures Moved(c, old(Cat(f)), fo, Cat(f), fo') && KeepsTops(old(f.cells), fo, f.cells, fo', {})
    ensures RootInserted(c.json, c.typeName, ok, old(f.View()), fo, f.View(), fo')
  {
    hide Inv, FirstType, NoType, At, IsForest, TypesLive, Treed, CellsLed, TypedTops, KeepsTops, Spells, Fits, Applies, DefAt, Extends, RootJson, JsonLed, Bred, Size, NoneNamed, NoneBefore, Links, StrEq, StrCopy, Rooted, Sound, RootAdded;
    ghost var s := f.View();
    ghost var found, wrtFoff, ty, cells := false, 0, 0, f.cells;
    ok, found, wrtFoff, ty, fo' := UserWrite(f, c.json, c.typeName, fo);
    InsertLinks(c, cells, f.tcells, f.cells, found, ty);
    if ok {
      assert RootAdded(c.json, c.typeName, s, fo, f.View(), fo', ty, wrtFoff) by { RootIsAdded(c, s, fo, f.View(), fo', ty, wrtFoff); }
    }
  }

  lemma RootIsAdded(c: Command, s: Snap, fo: map<nat, Shape>, s': Snap, fo': map<nat, Shape>, ty: nat, n: nat)
    requires c.Insert? && FirstType(s.types, s.tcells, c.typeName, ty) && ty in s.tcells && s'.tcells == s.tcells && c.json.Node?
    requires InsertDone(true, s'.cells, s'.tcells, s'.lsp, c.json, ty, n, fo, fo')
    ensures RootAdded(c.json, c.typeName, s, fo, s', fo', ty, n)
  {
    hide FirstType, Applies, Fits, Spells;
  }

  lemma InsertLinks(c: Command, cells: map<nat, Cell>, t: map<nat, TypeCell>, cells': map<nat, Cell>, found: bool, ty: nat)
    requires c.Insert? && c.typeName != []
    requires if found then Looked(t, c.typeName, ty) && Links(cells') <= Links(cells) + {0, ty} else cells' == cells
    ensures LinksMoved(c, cells, t, cells')
    ensures found ==> ty in t
  {
    hide StrEq, StrCopy, NoneBefore, Links;
  }

  /** An update as a command: its outcome, failed or not. */
  method ApplyUpdate(f: File, c: Command, ghost fo: map<nat, Shape>) returns (ok: bool, ghost fo': map<nat, Shape>)
    requires Sound(f, fo) && c.Update? && Treed(f.cells) && Allowed(Cat(f), fo, c)
    modifies f, f.filp, f.fExtent
    ensures Sound(f, fo') && f.Kept() && CellsLed(f.cells)
    ensures Treed(old(f.cells)) && Moved(c, old(Cat(f)), fo, Cat(f), fo') && KeepsTops(old(f.cells), fo, f.cells, fo', old(HitSet(Cat(f), c.query)))
    ensures Treed(f.cells) && HitsReplaced(c.query, c.json, ok, old(f.View()), fo, f.View(), fo')
  {
    hide Inv, At, IsForest, TypesLive, Treed, CellsLed, TypedTops, KeepsTops, HitSet, Replaced, Failed, Fits, ItemsHold, RootJson, JsonLed, ReadBack, Links, Heads, RootQuery, MissesInside, Bred, Sound;
    ghost var cat, hits, s := Cat(f), HitSet(Cat(f), c.query), f.View();
    var cnt: nat;
    ghost var moved, lost;
    SoundParts(f, fo);
    ok, cnt, fo', moved, lost := UserUpdate(f, c.query, c.json, fo);
    SoundParts(f, fo');
    RootJsonNode(c.json);
    TypedHits(cat, fo, c.query);
    if ok {
      ReplacedBred(cat, fo, f.cells, fo', moved, c.json, hits);
      assert AllMoved(c.query, c.json, s, fo, f.View(), fo', moved);
    } else {
      FailedBred(cat, fo, f.cells, fo', moved, lost, c.json, hits);
      assert StoppedAt(c.query, c.json, s, fo, f.View(), fo', moved, lost);
    }
  }

  lemma RootJsonNode(json: Json)
    requires RootJson(json)
    ensures json.Node?
  {
    hide Wf, InMemory;
  }

  lemma TypedHits(cat: Catalog, fo: map<nat, Shape>, q: Query)
    requires Treed(cat.cells) && RootQuery(cat, fo, q)
    ensures forall x :: x in HitSet(cat, q) ==> x in cat.cells && cat.cells[x].ent.typePtr != 0
  {
    hide Treed, Hit, Selective;
  }

  lemma SpellsSprung(cells: map<nat, Cell>, fo: map<nat, Shape>, n: nat, json: Json, ty: nat)
    requires IsForest(cells, fo) && Spells(cells, fo, n, json, ty) && ty != 0 && json.Node?
    ensures Sprung(cells, n, fo[n], json)
  {
    hide Raw, Linked;
    TopReadable(cells, fo, n);
  }

  lemma ReplacedBred(cat: Catalog, fo: map<nat, Shape>, cells: map<nat, Cell>, fo': map<nat, Shape>, moved: map<nat, nat>, json: Json, hits: set<nat>)
    requires Replaced(cat.cells, fo, cells, fo', moved, json) && KeepsTops(cat.cells, fo, cells, fo', moved.Keys) && moved.Keys == hits
    requires IsForest(cells, fo') && json.Node? && forall x :: x in hits ==> x in cat.cells && cat.cells[x].ent.typePtr != 0
    ensures Bred(cat.cells, fo, cells, fo', json) && KeepsTops(cat.cells, fo, cells, fo', hits)
  {
    hide IsForest, KeepsTop, Spells, Sprung;
    forall n | n in fo' ensures (n in fo && KeepsTop(cat.cells, fo, cells, fo', n)) || Sprung(cells, n, fo'[n], json) {
      if n in moved.Values {
        var x :| x in moved && moved[x] == n;
        SpellsSprung(cells, fo', n, json, cat.cells[x].ent.typePtr);
      }
    }
  }

  lemma FailedBred(
    cat: Catalog, fo: map<nat, Shape>, cells: map<nat, Cell>, fo': map<nat, Shape>, moved: map<nat, nat>, lost: nat, json: Json, hits: set<nat>)
    requires Failed(cat, fo, cells, fo', moved, lost, json, hits)
    requires IsForest(cells, fo') && json.Node? && forall x :: x in hits ==> x in cat.cells && cat.cells[x].ent.typePtr != 0
    ensures Bred(cat.cells, fo, cells, fo', json) && KeepsTops(cat.cells, fo, cells, fo', hits)
  {
    hide IsForest, KeepsTop, Spells, Sprung, InOrder;
    var rest := fo.Keys - moved.Keys - {lost};
    forall n | n in fo' ensures (n in fo && KeepsTop(cat.cells, fo, cells, fo', n)) || Sprung(cells, n, fo'[n], json) {
      if n in moved.Values {
        var x :| x in moved && moved[x] == n;
        SpellsSprung(cells, fo', n, json, cat.cells[x].ent.typePtr);
      } else if n in rest {
        assert n in fo && n !in moved.Keys + {lost};
      }
    }
    KeepsLess(cat.cells, fo, cells, fo', hits, moved.Keys + {lost});
  }

  method ApplyDelete(f: File, c: Command, ghost fo: map<nat, Shape>) returns (ok: bool, ghost fo': map<nat, Shape>)
    requires Sound(f, fo) && c.Delete? && Treed(f.cells) && Allowed(Cat(f), fo, c)
    modifies f`cells, f.filp, f.fExtent
    ensures Sound(f, fo') && f.Kept() && CellsLed(f.cells)
    ensures Treed(old(f.cells)) && Moved(c, old(Cat(f)), fo, Cat(f), fo') && KeepsTops(old(f.cells), fo, f.cells, fo', old(HitSet(Cat(f), c.query)))
    ensures ok && Treed(f.cells) && HitsGone(c.query, old(f.View()), fo, f.View(), fo')
  {
    hide Inv, At, IsForest, TypesLive, Treed, CellsLed, TypedTops, KeepsTops, HitSet, Pruned, Heads, RootQuery, Bred, Sound;
    ghost var cells, hits := f.cells, HitSet(Cat(f), c.query);
    var cnt: nat;
    ok, cnt, fo' := UserDelete(f, c.query, fo);
    PrunedBred(cells, fo, f.cells, fo', hits);
  }

  lemma PrunedBred(cells: map<nat, Cell>, fo: map<nat, Shape>, cells': map<nat, Cell>, fo': map<nat, Shape>, gone: set<nat>)
    requires Pruned(cells, fo, cells', fo', gone) && KeepsTops(cells, fo, cells', fo', gone)
    ensures Bred(cells, fo, cells', fo', Nil) && Links(cells') <= Links(cells)
  {
    hide KeepsTop, Sprung, InTrees;
    forall o | o in cells' ensures cells'[o].ent.typePtr in Links(cells) {
      assert o in cells && cells'[o] == cells[o];
    }
  }

  /**
   One command: it keeps the database sound. A read leaves an iterator with all its hits to come, an
   update or delete touches its targets only, any other command touches no tree.
   */
  method Apply(f: File, c: Command, ghost fo: map<nat, Shape>) returns (ok: bool, it: Iter?, ghost fo': map<nat, Shape>)
    requires Sound(f, fo) && Treed(f.cells) && Allowed(Cat(f), fo, c)
    modifies f, f.filp, f.fExtent, f.fTypes
    ensures Sound(f, fo') && SectionsGrown(f)
    ensures Treed(old(f.cells)) && KeepsTops(old(f.cells), fo, f.cells, fo', old(Targets(Cat(f), c)))
    ensures Moved(c, old(Cat(f)), fo, Cat(f), fo')
    ensures Treed(f.cells) && Effect(c, ok, old(f.View()), fo, f.View(), fo')
    ensures c.Read? ==> OnlyRead(f)
    ensures c.Read? ==> it != null && Treed(f.cells) && Rest(Cat(f), c.query, it.curCol, it.curSect) == Later(Cat(f), c.query, 0)
  {
    hide Inv, At, IsForest, TypesLive, Treed, CellsLed, TypedTops, KeepsTops, HitSet, Later, Rest, Heads, RootQuery, Moved, RootJson, JsonLed, NamesLen, MissesInside, Disused, TypesLed, TypeAdded, TypeDropped, RootInserted, HitsReplaced, HitsGone;
    SoundParts(f, fo);
    it, fo' := null, fo;
    match c {
      case AddType(_) =>
        ok := ApplyAddType(f, c, fo);
      case DeleteType(_) =>
        ok := ApplyDeleteType(f, c, fo);
      case Insert(_, _) =>
        ok, fo' := ApplyInsert(f, c, fo);
      case Read(query) =>
        ghost var cat := Cat(f);
        ok := true;
        it := UserRead(f, query, fo);
        Unmoved(c, cat, fo, Cat(f));
      case Update(_, _) =>
        ok, fo' := ApplyUpdate(f, c, fo);
      case Delete(_) =>
        ok, fo' := ApplyDelete(f, c, fo);
    }
  }

  // ---------------------------------------------------------------- what is asked of a whole run

  ghost function Queries(cs: seq<Command>): set<Query> {
    set i | 0 <= i < |cs| && Mutates(cs[i]) :: cs[i].query
  }

  /** Only roots satisfy the run's update and delete queries, now and in whatever the run may write. */
  ghost predicate QueriesOk(cat: Catalog, fo: map<nat, Shape>, cs: seq<Command>)
    requires Treed(cat.cells)
    reads Queries(cs)
  {
    forall k, l :: 0 <= k < |cs| && 0 <= l < |cs| && Mutates(cs[k]) ==>
      RootQuery(cat, fo, cs[k].query) && (JsonOf(cs[l]).Node? ==> QuietInside(cs[k].query, JsonOf(cs[l])))
  }

  /** If the run updates or deletes at all, no record begins with a zero byte. */
  ghost predicate LedOk(cells: map<nat, Cell>, cs: seq<Command>) {
    forall k, l :: 0 <= k < |cs| && 0 <= l < |cs| && Mutates(cs[k]) ==> CellsLed(cells) && JsonLed(JsonOf(cs[l]))
  }

  /** If the run deletes types, then by names that no tree refers to and no insert asks for, and no type name holds a NUL. */
  ghost predicate TypesOkFor(cells: map<nat, Cell>, t: map<nat, TypeCell>, c: Command, d: Command) {
    c.DeleteType? ==>
      && TypesLed(t) && Disused(cells, t, c.name)
      && (d.AddType? ==> NamesNoNul(d.def)) && (d.Insert? ==> !StrEq(d.typeName, c.name))
  }

  ghost predicate TypesOkRun(cells: map<nat, Cell>, t: map<nat, TypeCell>, cs: seq<Command>) {
    forall k, l :: 0 <= k < |cs| && 0 <= l < |cs| ==> TypesOkFor(cells, t, cs[k], cs[l])
  }

  ghost predicate RunOk(cat: Catalog, fo: map<nat, Shape>, cs: seq<Command>)
    requires Treed(cat.cells)
    reads Queries(cs)
  {
    && (forall k :: 0 <= k < |cs| ==> ShapeOk(cs[k]))
    && QueriesOk(cat, fo, cs) && LedOk(cat.cells, cs) && TypesOkRun(cat.cells, cat.tcells, cs)
  }

  /** Queries with type names meet what is asked of them on any database, whatever the run writes. */
  lemma TypedQueriesOk(cat: Catalog, fo: map<nat, Shape>, cs: seq<Command>)
    requires IsForest(cat.cells, fo) && Treed(cat.cells) && TypesLive(cat.cells, cat.tcells)
    requires forall k :: 0 <= k < |cs| && Mutates(cs[k]) ==> cs[k].query.typeName.Some?
    ensures QueriesOk(cat, fo, cs)
  {
    hide IsForest, Treed, TypesLive, RootQuery;
    forall k | 0 <= k < |cs| && Mutates(cs[k]) ensures RootQuery(cat, fo, cs[k].query) {
      TypedIsRootQuery(cat, fo, cs[k].query);
    }
  }

  lemma RunAllows(cat: Catalog, fo: map<nat, Shape>, cs: seq<Command>, i: nat)
    requires Treed(cat.cells) && RunOk(cat, fo, cs) && i < |cs|
    ensures Allowed(cat, fo, cs[i])
  {
    hide Treed, RootQuery, CellsLed, JsonLed, ShapeOk, TypesLed, Disused, NamesNoNul, StrEq, Quiet, NoneHold;
    assert TypesOkFor(cat.cells, cat.tcells, cs[i], cs[i]);
    if cs[i].Update? {
      UpdateNode(cs[i]);
      QuietMisses(cs[i].query, cs[i].json);
    }
  }

  lemma UpdateNode(c: Command)
    requires c.Update? && ShapeOk(c)
    ensures JsonOf(c) == c.json && c.json.Node?
  {
    hide Wf, InMemory;
  }

  lemma QuietMisses(q: Query, json: Json)
    requires QuietInside(q, json)
    ensures MissesInside(q, json)
  {
    hide Quiet, NoneHold, ReadBack;
    if q.typeName.None? {
      QuietNone(q.items, ReadBack(json.son));
    }
  }

  // ---------------------------------------------------------------- a command keeps what is asked of the run

  /** What is known of a database between two commands. */
  ghost predicate Settling(cat: Catalog, fo: map<nat, Shape>) {
    && IsForest(cat.cells, fo) && Treed(cat.cells) && TypesLive(cat.cells, cat.tcells) && TypedTops(cat.cells, fo)
  }

  lemma NamesStep(c: Command, cat: Catalog, fo: map<nat, Shape>, cat': Catalog, fo': map<nat, Shape>)
    requires Settling(cat, fo) && Moved(c, cat, fo, cat', fo') && 0 !in cat'.tcells
    requires c.DeleteType? ==> Disused(cat.cells, cat.tcells, c.name)
    ensures NamesKept(cat.cells, cat.tcells, cat'.tcells)
    ensures forall p :: p in Links(cat.cells) && p != 0 ==> p in cat'.tcells && cat'.tcells[p] == cat.tcells[p]
  {
    hide IsForest, Treed, TypedTops, Bred, CellsLed, JsonLed, StrEq, StrCopy;
    forall p | p in Links(cat.cells) && p != 0 ensures p in cat.tcells && p in cat'.tcells && cat'.tcells[p] == cat.tcells[p] {
    }
    forall o | o in cat.cells ensures NameAt(cat'.tcells, cat.cells[o].ent.typePtr) == NameAt(cat.tcells, cat.cells[o].ent.typePtr) {
      assert cat.cells[o].ent.typePtr in Links(cat.cells);
    }
  }

  lemma QueryStep(cat: Catalog, fo: map<nat, Shape>, cat': Catalog, fo': map<nat, Shape>, q: Query, json: Json)
    requires Settling(cat, fo) && Settling(cat', fo') && NamesKept(cat.cells, cat.tcells, cat'.tcells)
    requires Bred(cat.cells, fo, cat'.cells, fo', json) && RootQuery(cat, fo, q) && (json.Node? ==> QuietInside(q, json))
    ensures RootQuery(cat', fo', q)
  {
    hide IsForest, Treed, TypesLive, TypedTops, KeepsTop, RootsOnly, Selective, FreshTop, QuietInside, NamesKept;
    forall r | r in fo' ensures (r in fo && KeepsTop(cat.cells, fo, cat'.cells, fo', r)) || FreshTop(cat', fo', r, q) {
      if Sprung(cat'.cells, r, fo'[r], json) {
        SprungFresh(cat', fo', q, r, json);
      }
    }
    RootsOnlyAfter(cat, fo, cat', fo', q);
  }

  lemma QueriesStep(cs: seq<Command>, i: nat, cat: Catalog, fo: map<nat, Shape>, cat': Catalog, fo': map<nat, Shape>)
    requires Settling(cat, fo) && Settling(cat', fo') && NamesKept(cat.cells, cat.tcells, cat'.tcells)
    requires i < |cs| && QueriesOk(cat, fo, cs) && Bred(cat.cells, fo, cat'.cells, fo', JsonOf(cs[i]))
    ensures QueriesOk(cat', fo', cs)
  {
    hide IsForest, Treed, TypesLive, TypedTops, Bred, RootQuery, QuietInside, NamesKept;
    forall k, l | 0 <= k < |cs| && 0 <= l < |cs| && Mutates(cs[k])
      ensures RootQuery(cat', fo', cs[k].query) && (JsonOf(cs[l]).Node? ==> QuietInside(cs[k].query, JsonOf(cs[l])))
    {
      assert Mutates(cs[k]) && 0 <= i < |cs|;
      QueryStep(cat, fo, cat', fo', cs[k].query, JsonOf(cs[i]));
    }
  }

  lemma StrEqSame(a: seq<byte>, b: seq<byte>, c: seq<byte>)
    requires StrEq(a, b) && StrEq(a, c)
    ensures StrEq(b, c)
  {
    hide StrCopy;
  }

  lemma TypesRunStep(cs: seq<Command>, i: nat, cat: Catalog, fo: map<nat, Shape>, cat': Catalog, fo': map<nat, Shape>)
    requires Settling(cat, fo) && TypesLive(cat'.cells, cat'.tcells) && i < |cs|
    requires TypesOkRun(cat.cells, cat.tcells, cs) && Moved(cs[i], cat, fo, cat', fo')
    requires forall p :: p in Links(cat.cells) && p != 0 ==> p in cat'.tcells && cat'.tcells[p] == cat.tcells[p]
    ensures TypesOkRun(cat'.cells, cat'.tcells, cs)
  {
    hide IsForest, Treed, TypedTops, Bred, CellsLed, JsonLed, Links, StrEq, StrCopy, NamesNoNul, TypesLive;
    forall k, l | 0 <= k < |cs| && 0 <= l < |cs| ensures TypesOkFor(cat'.cells, cat'.tcells, cs[k], cs[l]) {
      assert TypesOkFor(cat.cells, cat.tcells, cs[k], cs[l]);
      assert TypesOkFor(cat.cells, cat.tcells, cs[k], cs[i]);
      if cs[k].DeleteType? {
        NamesStayLed(cs[i], cat.tcells, cat'.tcells);
        StaysDisused(cs[i], cat, cat', cs[k].name);
      }
    }
  }

  lemma NamesStayLed(c: Command, t: map<nat, TypeCell>, t': map<nat, TypeCell>)
    requires TypesMoved(c, t, t') && TypesLed(t) && (c.AddType? ==> NamesNoNul(c.def))
    ensures TypesLed(t')
  {
    hide StrEq, StrCopy, NamesNoNul;
  }

  lemma StaysDisused(c: Command, cat: Catalog, cat': Catalog, name: seq<byte>)
    requires Disused(cat.cells, cat.tcells, name) && LinksMoved(c, cat.cells, cat.tcells, cat'.cells)
    requires TypesMoved(c, cat.tcells, cat'.tcells) && (c.Insert? ==> !StrEq(c.typeName, name))
    requires forall p :: p in Links(cat.cells) && p != 0 ==> p in cat'.tcells && cat'.tcells[p] == cat.tcells[p]
    ensures Disused(cat'.cells, cat'.tcells, name)
  {
    hide Links, StrEq, StrCopy;
    forall p | p in Links(cat'.cells) && p != 0 ensures p in cat'.tcells && !StrEq(StrCopy(cat'.tcells[p].def.name), name) {
      if p !in Links(cat.cells) && StrEq(StrCopy(cat.tcells[p].def.name), name) {
        StrEqSame(StrCopy(cat.tcells[p].def.name), c.typeName, name);
      }
    }
  }

  /** Whatever is asked of the run, before or after one of its commands. */
  lemma RunStep(cs: seq<Command>, i: nat, cat: Catalog, fo: map<nat, Shape>, cat': Catalog, fo': map<nat, Shape>)
    requires Settling(cat, fo) && Settling(cat', fo') && 0 !in cat'.tcells && i < |cs|
    requires RunOk(cat, fo, cs) && Moved(cs[i], cat, fo, cat', fo')
    ensures RunOk(cat', fo', cs)
  {
    hide IsForest, Treed, TypesLive, TypedTops, Bred, CellsLed, JsonLed, QueriesOk, TypesOkRun, TypesMoved, LinksMoved, Links, ShapeOk;
    RunAllows(cat, fo, cs, i);
    NamesStep(cs[i], cat, fo, cat', fo');
    QueriesStep(cs, i, cat, fo, cat', fo');
    TypesRunStep(cs, i, cat, fo, cat', fo');
  }

  // ---------------------------------------------------------------- the trees that a run leaves alone

  /** No update or delete of the run asks for the tree at `r` as it is now. */
  ghost predicate Spared(cat: Catalog, cs: seq<Command>, r: nat)
    requires Treed(cat.cells)
    reads Queries(cs)
  {
    forall i :: 0 <= i < |cs| && Mutates(cs[i]) ==> !Hit(cat.cells, cat.tcells, cs[i].query, r)
  }

  /** The types that the trees refer to are as they were. */
  ghost predicate LinksFixed(cells: map<nat, Cell>, t: map<nat, TypeCell>, t': map<nat, TypeCell>) {
    forall p :: p in Links(cells) && p != 0 ==> p in t && p in t' && t'[p] == t[p]
  }

  lemma FixedStep(cells: map<nat, Cell>, t0: map<nat, TypeCell>, t: map<nat, TypeCell>, t': map<nat, TypeCell>, c: Command)
    requires LinksFixed(cells, t0, t) && TypesMoved(c, t, t') && (c.DeleteType? ==> Disused(cells, t0, c.name))
    ensures LinksFixed(cells, t0, t')
  {
    hide Links, StrEq, StrCopy;
  }

  /** A spared tree survives one more command. */
  lemma SparedStep(
    cat0: Catalog, fo0: map<nat, Shape>, cs: seq<Command>, i: nat, r: nat,
    cat: Catalog, fo: map<nat, Shape>, cat': Catalog, fo': map<nat, Shape>)
    requires Settling(cat0, fo0) && Settling(cat, fo) && LinksFixed(cat0.cells, cat0.tcells, cat.tcells)
    requires i < |cs| && r in fo0 && Spared(cat0, cs, r)
    requires KeepsTop(cat0.cells, fo0, cat.cells, fo, r) && KeepsTops(cat.cells, fo, cat'.cells, fo', Targets(cat, cs[i]))
    ensures KeepsTop(cat0.cells, fo0, cat'.cells, fo', r)
  {
    hide IsForest, Treed, TypesLive, TypedTops, Hit, Offs, LinksFixed;
    if Mutates(cs[i]) {
      KeptSame(cat0.cells, fo0, cat.cells, fo, r, cat0.tcells, cs[i].query);
      FixedName(cat0, cat, r);
      HitSame(cat.cells, cat0.tcells, cat.cells, cat.tcells, cs[i].query, r);
    }
    assert r !in Targets(cat, cs[i]);
    assert KeepsTop(cat.cells, fo, cat'.cells, fo', r);
  }

  lemma FixedName(cat0: Catalog, cat: Catalog, r: nat)
    requires LinksFixed(cat0.cells, cat0.tcells, cat.tcells) && TypesLive(cat0.cells, cat0.tcells) && TypesLive(cat.cells, cat.tcells)
    requires r in cat0.cells && r in cat.cells && cat.cells[r] == cat0.cells[r]
    ensures NameAt(cat.tcells, EntAt(cat.cells, r).typePtr) == NameAt(cat0.tcells, EntAt(cat.cells, r).typePtr)
  {
    hide StrCopy;
    assert cat0.cells[r].ent.typePtr in Links(cat0.cells);
  }

  lemma SparedAll(
    cat0: Catalog, fo0: map<nat, Shape>, cs: seq<Command>, i: nat, cat: Catalog, fo: map<nat, Shape>, cat': Catalog, fo': map<nat, Shape>)
    requires Settling(cat0, fo0) && Settling(cat, fo) && LinksFixed(cat0.cells, cat0.tcells, cat.tcells) && i < |cs|
    requires KeepsTops(cat.cells, fo, cat'.cells, fo', Targets(cat, cs[i]))
    requires forall r :: r in fo0 && Spared(cat0, cs, r) ==> KeepsTop(cat0.cells, fo0, cat.cells, fo, r)
    ensures forall r :: r in fo0 && Spared(cat0, cs, r) ==> KeepsTop(cat0.cells, fo0, cat'.cells, fo', r)
  {
    hide IsForest, Treed, TypesLive, TypedTops, KeepsTop, KeepsTops, Spared, LinksFixed, Targets;
    forall r | r in fo0 && Spared(cat0, cs, r) ensures KeepsTop(cat0.cells, fo0, cat'.cells, fo', r) {
      SparedStep(cat0, fo0, cs, i, r, cat, fo, cat', fo');
    }
  }

  // ---------------------------------------------------------------- runs

  /** What holds after some commands of a run that began with `cat0` and `fo0`. */
  ghost predicate Running(f: File, fo: map<nat, Shape>, cs: seq<Command>, cat0: Catalog, fo0: map<nat, Shape>)
    reads f, f.filp, f.fExtent, f.fTypes, Queries(cs)
  {
    && Sound(f, fo) && Treed(f.cells) && RunOk(Cat(f), fo, cs)
    && Settling(cat0, fo0) && RunOk(cat0, fo0, cs) && LinksFixed(cat0.cells, cat0.tcells, f.tcells)
    && forall r :: r in fo0 && Spared(cat0, cs, r) ==> KeepsTop(cat0.cells, fo0, f.cells, fo, r)
  }

  /** One command of a run. */
  method RunOne(f: File, cs: seq<Command>, i: nat, ghost fo: map<nat, Shape>, ghost cat0: Catalog, ghost fo0: map<nat, Shape>)
    returns (ok: bool, ghost fo': map<nat, Shape>)
    requires Running(f, fo, cs, cat0, fo0) && i < |cs|
    modifies f, f.filp, f.fExtent, f.fTypes
    ensures Running(f, fo', cs, cat0, fo0) && SectionsGrown(f)
    ensures EffectBetween(cs, i, ok, old(Now(f, fo)), Now(f, fo'))
  {
    hide Inv, At, IsForest, TypesLive, Treed, TypedTops, Sound, RunOk, Allowed, LinksFixed, KeepsTop, KeepsTops, Targets, Moved, Spared, Heads, Effect;
    SoundParts(f, fo);
    RunAllows(Cat(f), fo, cs, i);
    ghost var cat := Cat(f);
    var it;
    ok, it, fo' := Apply(f, cs[i], fo);
    SoundParts(f, fo');
    assert forall q :: q in Queries(cs) ==> unchanged(q);
    assert cs[i] in cs && QueryOf(cs[i]) <= Queries(cs);
    assert RunOk(cat, fo, cs) && RunOk(cat0, fo0, cs);
    assert Targets(cat, cs[i]) == old(Targets(Cat(f), cs[i]));
    assert forall r :: r in fo0 && Spared(cat0, cs, r) ==> old(Spared(cat0, cs, r));
    RunStep(cs, i, cat, fo, Cat(f), fo');
    SparedAll(cat0, fo0, cs, i, cat, fo, Cat(f), fo');
    FixedAlong(cs, i, cat0, fo0, cat, fo, Cat(f), fo');
  }

  lemma FixedAlong(
    cs: seq<Command>, i: nat, cat0: Catalog, fo0: map<nat, Shape>, cat: Catalog, fo: map<nat, Shape>, cat': Catalog, fo': map<nat, Shape>)
    requires Treed(cat0.cells) && RunOk(cat0, fo0, cs) && i < |cs| && LinksFixed(cat0.cells, cat0.tcells, cat.tcells)
    requires Moved(cs[i], cat, fo, cat', fo')
    ensures LinksFixed(cat0.cells, cat0.tcells, cat'.tcells)
  {
    hide Treed, Bred, CellsLed, JsonLed, TypesMoved, LinksMoved, LinksFixed, Links, RunOk, Disused, TypesLed, RootQuery, ShapeOk;
    RunAllows(cat0, fo0, cs, i);
    FixedStep(cat0.cells, cat0.tcells, cat.tcells, cat'.tcells, cs[i]);
  }

  /** The database between two commands. */
  datatype Moment = Moment(s: Snap, fo: map<nat, Shape>)

  ghost function Now(f: File, fo: map<nat, Shape>): Moment
    reads f, f.filp, f.fExtent, f.fTypes
  {
    Moment(f.View(), fo)
  }

  /** Each command has had its effect on the database that the one before it left. */
  ghost predicate Traced(cs: seq<Command>, oks: seq<bool>, ms: seq<Moment>)
    reads Queries(cs)
  {
    && |oks| <= |cs| && |ms| == |oks| + 1 && (forall k :: 0 <= k < |ms| ==> Treed(ms[k].s.cells))
    && forall k :: 0 <= k < |oks| ==> EffectBetween(cs, k, oks[k], ms[k], ms[k + 1])
  }

  ghost predicate EffectBetween(cs: seq<Command>, k: nat, ok: bool, m: Moment, m': Moment)
    reads Queries(cs)
  {
    k < |cs| && Treed(m.s.cells) && Treed(m'.s.cells) && Effect(cs[k], ok, m.s, m.fo, m'.s, m'.fo)
  }

  lemma TracedMore(cs: seq<Command>, oks: seq<bool>, ms: seq<Moment>, ok: bool, m: Moment)
    requires Traced(cs, oks, ms) && |oks| < |cs| && EffectBetween(cs, |oks|, ok, ms[|oks|], m)
    ensures Traced(cs, oks + [ok], ms + [m])
  {
    hide Treed, Effect;
    var oks', ms' := oks + [ok], ms + [m];
    forall k | 0 <= k < |oks'| ensures EffectBetween(cs, k, oks'[k], ms'[k], ms'[k + 1]) {
      if k < |oks| {
        assert EffectBetween(cs, k, oks[k], ms[k], ms[k + 1]);
      }
    }
  }

  /** The run so far has left the database `m`. */
  ghost predicate RunTo(cs: seq<Command>, oks: seq<bool>, ms: seq<Moment>, m: Moment)
    reads Queries(cs)
  {
    Traced(cs, oks, ms) && ms[|oks|] == m
  }

  /** The next command of a run. */
  method RunNext(f: File, cs: seq<Command>, oks: seq<bool>, ghost fo: map<nat, Shape>, ghost ms: seq<Moment>, ghost cat0: Catalog, ghost fo0: map<nat, Shape>)
    returns (oks': seq<bool>, ghost fo': map<nat, Shape>, ghost ms': seq<Moment>)
    requires Running(f, fo, cs, cat0, fo0) && |oks| < |cs| && RunTo(cs, oks, ms, Now(f, fo))
    modifies f, f.filp, f.fExtent, f.fTypes
    ensures Running(f, fo', cs, cat0, fo0) && SectionsGrown(f)
    ensures |ms'| == |oks'| + 1 == |oks| + 2 && RunTo(cs, oks', ms', Now(f, fo')) && ms'[0] == ms[0]
  {
    hide Running, Treed, Effect, EffectBetween;
    var ok;
    ok, fo' := RunOne(f, cs, |oks|, fo, cat0, fo0);
    assert forall q :: q in Queries(cs) ==> unchanged(q);
    TracedMore(cs, oks, ms, ok, Now(f, fo'));
    oks', ms' := oks + [ok], ms + [Now(f, fo')];
  }

  /**
   Any run of commands, whichever of them fail: the database stays sound throughout, each command has
   its effect on what the one before it left, and a tree that satisfies none of the run's update and
   delete queries as it stands before the run is still there afterwards, at its old offset, entity for
   entity. A run without updates and deletes needs nothing of the records; a run without type
   deletions needs nothing of the type names.
   */
  method Run(f: File, cs: seq<Command>, ghost fo: map<nat, Shape>) returns (oks: seq<bool>, ghost fo': map<nat, Shape>, ghost ms: seq<Moment>)
    requires Sound(f, fo) && Treed(f.cells) && RunOk(Cat(f), fo, cs)
    modifies f, f.filp, f.fExtent, f.fTypes
    ensures Sound(f, fo') && Treed(old(f.cells))
    ensures |oks| == |cs| && Traced(cs, oks, ms) && ms[0] == old(Now(f, fo)) && ms[|cs|] == Now(f, fo')
    ensures forall r :: r in fo && Spared(old(Cat(f)), cs, r) ==> KeepsTop(old(f.cells), fo, f.cells, fo', r)
  {
    hide Inv, At, IsForest, TypesLive, Treed, TypedTops, Sound, RunOk, LinksFixed, KeepsTop, Spared, Heads, Traced, Running, EffectBetween;
    fo', oks, ms := fo, [], [Now(f, fo)];
    SoundParts(f, fo);
    ghost var cat0 := Cat(f);
    RunStart(f, cs, fo);
    TracedStart(cs, ms[0]);
    while |oks| < |cs|
      invariant Running(f, fo', cs, cat0, fo) && SectionsGrown(f)
      invariant |ms| == |oks| + 1 <= |cs| + 1 && RunTo(cs, oks, ms, Now(f, fo')) && ms[0] == old(Now(f, fo))
    {
      oks, fo', ms := RunNext(f, cs, oks, fo', ms, cat0, fo);
    }
    RunningDone(f, fo', cs, cat0, fo);
  }

  lemma TracedStart(cs: seq<Command>, m: Moment)
    requires Treed(m.s.cells)
    ensures Traced(cs, [], [m])
  {
    hide Treed, Effect;
  }

  lemma RunningTreed(f: File, fo: map<nat, Shape>, cs: seq<Command>, cat0: Catalog, fo0: map<nat, Shape>)
    requires Running(f, fo, cs, cat0, fo0)
    ensures Treed(f.cells)
  {
    hide Treed, Sound, RunOk, Settling, LinksFixed, Spared, KeepsTop;
  }

  lemma RunningDone(f: File, fo: map<nat, Shape>, cs: seq<Command>, cat0: Catalog, fo0: map<nat, Shape>)
    requires Running(f, fo, cs, cat0, fo0)
    ensures Sound(f, fo) && Treed(cat0.cells) && forall r :: r in fo0 && Spared(cat0, cs, r) ==> KeepsTop(cat0.cells, fo0, f.cells, fo, r)
  {
    hide Sound, RunOk, LinksFixed, Spared, KeepsTop, IsForest, Treed, TypesLive, TypedTops;
  }

  lemma RunStart(f: File, cs: seq<Command>, fo: map<nat, Shape>)
    requires Sound(f, fo) && Treed(f.cells) && RunOk(Cat(f), fo, cs)
    ensures Running(f, fo, cs, Cat(f), fo)
  {
    hide Inv, IsForest, TypedTops, RunOk, KeepsTop, Spared, Heads;
    SoundParts(f, fo);
    KeepsRefl(f.cells, fo);
    forall p | p in Links(f.cells) && p != 0 ensures p in f.tcells {
    }
  }
}
