/** Deleting inside a tree: what file_delete leaves when the node is some other node's son. */
module Sons {
  import opened Bytes
  import opened Extents
  import opened Forest
  import opened FileForest
  import opened Store
  import opened File

  /** The shape without the first son of `dad`; the son's brothers move up. */
  ghost function DropSon(t: Shape, dad: nat): Shape {
    if t.Empty? then Empty
    else if t.off == dad then (if t.son.Spot? then t.(son := t.son.bro) else t)
    else Spot(t.off, DropSon(t.bro, dad), DropSon(t.son, dad))
  }

  lemma {:induction false} DropElsewhere(t: Shape, dad: nat)
    requires dad !in Offs(t)
    ensures DropSon(t, dad) == t
  {
    if t.Spot? {
      DropElsewhere(t.bro, dad);
      DropElsewhere(t.son, dad);
    }
  }

  /** `cells'` is `cells` after the first son of `dad` was deleted, as far as the tree `t` goes. */
  ghost predicate SonGone(cells: map<nat, Cell>, cells': map<nat, Cell>, t: Shape, dad: nat, p: Shape) {
    && p.Spot? && p.off == dad && p.son.Spot? && dad in cells && Off(p.son.bro) < TWO_64
    && (forall o :: o in Offs(t) && o !in Victims(p.son, true) ==> o in cells && o in cells')
    && (forall o :: o in Offs(t) && o !in Victims(p.son, true) && o != dad ==> cells'[o] == cells[o])
    && (dad in Offs(t) && dad !in Victims(p.son, true) ==> cells'[dad] == cells[dad].(ent := cells[dad].ent.(sonPtr := Off(p.son.bro))))
  }

  lemma SonGonePart(cells: map<nat, Cell>, cells': map<nat, Cell>, t: Shape, t': Shape, dad: nat, p: Shape)
    requires SonGone(cells, cells', t, dad, p) && Offs(t') <= Offs(t)
    ensures SonGone(cells, cells', t', dad, p)
  {
    hide Offs, Victims;
  }

  lemma SonGoneFrame(cells: map<nat, Cell>, cells': map<nat, Cell>, t: Shape, d: nat, top: bool, dad: nat, p: Shape)
    requires Linked(cells, t, d, top) && SonGone(cells, cells', t, dad, p)
    requires dad !in Offs(t) && Offs(t) !! Victims(p.son, true)
    ensures Linked(cells', t, d, top) && DropSon(t, dad) == t
  {
    LinkedReadable(cells, t, d, top);
    LinkedFrame(cells, cells', t, d, top);
    DropElsewhere(t, dad);
  }

  lemma DropHere(cells: map<nat, Cell>, cells': map<nat, Cell>, t: Shape, d: nat, top: bool)
    requires Linked(cells, t, d, top) && t.Spot? && SonGone(cells, cells', t, t.off, t)
    ensures Linked(cells', DropSon(t, t.off), d, top)
    ensures Offs(DropSon(t, t.off)) == Offs(t) - Victims(t.son, true)
    ensures Readable(cells, t) && Readable(cells', DropSon(t, t.off))
    ensures Raw(cells, t).Node? && Raw(cells, t).son.Node?
    ensures Raw(cells', DropSon(t, t.off)) == Raw(cells, t).(son := Raw(cells, t).son.bro)
  {
    ReadParts(cells, t, d, top);
    ReadParts(cells, t.son, t.off, false);
    LinkedFrame(cells, cells', t.bro, d, false);
    LinkedFrame(cells, cells', t.son.bro, t.off, false);
    LinkedReadable(cells, t, d, top);
    LinkedReadable(cells', DropSon(t, t.off), d, top);
  }

  /** The tree stays well linked, minus exactly the victims. */
  lemma {:induction false} DropLinked(cells: map<nat, Cell>, cells': map<nat, Cell>, t: Shape, d: nat, top: bool, dad: nat)
    requires Linked(cells, t, d, top) && dad in Offs(t) && SonGone(cells, cells', t, dad, SubShape(t, dad))
    ensures Linked(cells', DropSon(t, dad), d, top)
    ensures Offs(DropSon(t, dad)) == Offs(t) - Victims(SubShape(t, dad).son, true)
    decreases t, 1
  {
    if t.off == dad {
      DropHere(cells, cells', t, d, top);
    } else if dad in Offs(t.bro) {
      DropInBro(cells, cells', t, d, top, dad);
    } else {
      DropInSon(cells, cells', t, d, top, dad);
    }
  }

  lemma {:induction false} DropInBro(cells: map<nat, Cell>, cells': map<nat, Cell>, t: Shape, d: nat, top: bool, dad: nat)
    requires Linked(cells, t, d, top) && t.Spot? && t.off != dad && dad in Offs(t.bro)
    requires SonGone(cells, cells', t, dad, SubShape(t, dad))
    ensures Linked(cells', DropSon(t, dad), d, top)
    ensures Offs(DropSon(t, dad)) == Offs(t) - Victims(SubShape(t, dad).son, true)
    decreases t, 0
  {
    var p := SubShape(t, dad);
    assert Victims(p.son, true) <= Offs(p) <= Offs(t.bro);
    SonGonePart(cells, cells', t, t.bro, dad, p);
    SonGonePart(cells, cells', t, t.son, dad, p);
    DropLinked(cells, cells', t.bro, d, false, dad);
    SonGoneFrame(cells, cells', t.son, t.off, false, dad, p);
    DropOff(t.bro, dad);
    assert t.off !in Victims(p.son, true);
  }

  lemma {:induction false} DropInSon(cells: map<nat, Cell>, cells': map<nat, Cell>, t: Shape, d: nat, top: bool, dad: nat)
    requires Linked(cells, t, d, top) && t.Spot? && t.off != dad && dad !in Offs(t.bro) && dad in Offs(t.son)
    requires SonGone(cells, cells', t, dad, SubShape(t, dad))
    ensures Linked(cells', DropSon(t, dad), d, top)
    ensures Offs(DropSon(t, dad)) == Offs(t) - Victims(SubShape(t, dad).son, true)
    decreases t, 0
  {
    var p := SubShape(t, dad);
    assert Victims(p.son, true) <= Offs(p) <= Offs(t.son);
    SonGonePart(cells, cells', t, t.bro, dad, p);
    SonGonePart(cells, cells', t, t.son, dad, p);
    DropLinked(cells, cells', t.son, t.off, false, dad);
    SonGoneFrame(cells, cells', t.bro, d, false, dad, p);
    DropOff(t.son, dad);
    assert t.off !in Victims(p.son, true);
  }

  lemma DropOff(t: Shape, dad: nat)
    ensures Off(DropSon(t, dad)) == Off(t)
  {
  }

  /** The cells after file_delete with `is_root` on a live cell whose shape is `t`. */
  ghost function Deleted(cells: map<nat, Cell>, t: Shape): map<nat, Cell>
    requires t.Spot? && t.off in cells && Off(t.bro) < TWO_64
  {
    AfterDelete(cells, t, true, DadOf(cells, t.off))
  }

  lemma SonFacts(cells: map<nat, Cell>, t: Shape, d: nat, top: bool, dad: nat)
    requires Linked(cells, t, d, top) && dad in Offs(t) && SubShape(t, dad).son.Spot?
    ensures var p := SubShape(t, dad);
      && dad != 0 && dad in cells && p.son.off in cells && DadOf(cells, p.son.off) == dad && Off(p.son.bro) < TWO_64
      && dad !in Victims(p.son, true) && Victims(p.son, true) <= Offs(t) && Offs(t) <= cells.Keys
  {
    hide Raw;
    SubLinked(cells, t, d, top, dad);
    var p := SubShape(t, dad);
    ReadParts(cells, p, DadOf(cells, dad), t.off == dad && top);
    ReadParts(cells, p.son, dad, false);
    assert Offs(p.son) <= Offs(p);
    LinkedReadable(cells, t, d, top);
  }

  /** A deleted first son: what changes inside the dad's tree, and what does not outside. */
  lemma FirstSonGone(cells: map<nat, Cell>, t: Shape, d: nat, top: bool, dad: nat)
    requires Linked(cells, t, d, top) && dad in Offs(t) && SubShape(t, dad).son.Spot?
    ensures var p := SubShape(t, dad);
      && dad != 0 && p.son.off in cells && DadOf(cells, p.son.off) == dad && Off(p.son.bro) < TWO_64
      && dad !in Victims(p.son, true) && Victims(p.son, true) <= Offs(t)
      && SonGone(cells, Deleted(cells, p.son), t, dad, p)
      && forall o :: o in cells && o !in Offs(t) ==> o in Deleted(cells, p.son) && Deleted(cells, p.son)[o] == cells[o]
  {
    SonFacts(cells, t, d, top, dad);
    hide Raw, Linked, Victims, Offs, SubShape;
  }

  /** Deleting the first son of any node leaves a forest, in which only that node's tree has changed. */
  lemma DeleteFirstSon(cells: map<nat, Cell>, fo: map<nat, Shape>, r: nat, dad: nat)
    requires IsForest(cells, fo) && r in fo && dad in Offs(fo[r]) && SubShape(fo[r], dad).son.Spot?
    ensures var o := SubShape(fo[r], dad).son;
      o.off in cells && Off(o.bro) < TWO_64 && IsForest(Deleted(cells, o), fo[r := DropSon(fo[r], dad)])
  {
    hide Raw, Linked, SonGone, Deleted, Victims;
    assert Top(cells, r, fo[r]);
    FirstSonGone(cells, fo[r], DadOf(cells, r), true, dad);
    var p := SubShape(fo[r], dad);
    var c', fo' := Deleted(cells, p.son), fo[r := DropSon(fo[r], dad)];
    DropLinked(cells, c', fo[r], DadOf(cells, r), true, dad);
    DropOff(fo[r], dad);
    DeletedKeys(cells, p.son);
    forall x | x in fo' ensures Top(c', x, fo'[x]) {
      if x == r {
        DropTop(cells, c', fo[r], dad, p);
      } else {
        OtherTop(cells, c', fo, r, x);
      }
    }
    forall o | o in c' ensures Covered(fo', o) {
      DropCovered(cells, fo, r, dad, o, Victims(p.son, true));
    }
    DropSeparate(fo, r, DropSon(fo[r], dad));
  }

  lemma DeletedKeys(cells: map<nat, Cell>, t: Shape)
    requires t.Spot? && t.off in cells && Off(t.bro) < TWO_64
    ensures Deleted(cells, t).Keys == cells.Keys - Victims(t, true)
  {
  }

  lemma DropTop(cells: map<nat, Cell>, c': map<nat, Cell>, t: Shape, dad: nat, p: Shape)
    requires t.Spot? && Top(cells, t.off, t) && dad in Offs(t) && p == SubShape(t, dad) && p.son.Spot?
    requires SonGone(cells, c', t, dad, p) && Linked(c', DropSon(t, dad), DadOf(cells, t.off), true)
    requires Off(DropSon(t, dad)) == t.off && t.off != 0
    ensures Top(c', t.off, DropSon(t, dad))
  {
    hide Raw;
  }

  lemma OtherTop(cells: map<nat, Cell>, c': map<nat, Cell>, fo: map<nat, Shape>, r: nat, x: nat)
    requires IsForest(cells, fo) && r in fo && x in fo && x != r
    requires forall o :: o in cells && o !in Offs(fo[r]) ==> o in c' && c'[o] == cells[o]
    ensures Top(c', x, fo[x]) && Readable(cells, fo[x]) && Readable(c', fo[x]) && Raw(c', fo[x]) == Raw(cells, fo[x])
  {
    hide Linked, Raw;
    TopReadable(cells, fo, x);
    LinkedFrame(cells, c', fo[x], DadOf(cells, x), true);
  }

  lemma DropCovered(cells: map<nat, Cell>, fo: map<nat, Shape>, r: nat, dad: nat, o: nat, gone: set<nat>)
    requires IsForest(cells, fo) && r in fo && o in cells && o !in gone
    requires Offs(DropSon(fo[r], dad)) == Offs(fo[r]) - gone
    ensures Covered(fo[r := DropSon(fo[r], dad)], o)
  {
    hide Linked, Raw, Offs, DropSon;
    var fo' := fo[r := DropSon(fo[r], dad)];
    assert Covered(fo, o);
    var x :| x in fo && o in Offs(fo[x]);
    assert x in fo' && o in Offs(fo'[x]);
  }

  lemma DropSeparate(fo: map<nat, Shape>, r: nat, t: Shape)
    requires Separate(fo) && r in fo && Offs(t) <= Offs(fo[r])
    ensures Separate(fo[r := t])
  {
    hide Offs;
  }

  /** Reading the dad afterwards gives the same tree without its first son, the other sons in order. */
  lemma FirstSonRead(cells: map<nat, Cell>, t: Shape, d: nat, top: bool)
    requires Linked(cells, t, d, top) && t.Spot? && t.son.Spot?
    ensures t.son.off in cells && Off(t.son.bro) < TWO_64 && Readable(cells, t)
    ensures Linked(Deleted(cells, t.son), DropSon(t, t.off), d, top) && Readable(Deleted(cells, t.son), DropSon(t, t.off))
    ensures Raw(cells, t).son.Node?
    ensures Raw(Deleted(cells, t.son), DropSon(t, t.off)) == Raw(cells, t).(son := Raw(cells, t).son.bro)
  {
    hide Deleted, Victims;
    FirstSonGone(cells, t, d, top, t.off);
    DropHere(cells, Deleted(cells, t.son), t, d, top);
  }

  // ---------------------------------------------------------------- when a delete leaves a forest

  /** The one place a cell is linked from: as a first son (true) or as a brother, and of whom. */
  ghost function Pred(t: Shape, o: nat): (r: (bool, nat))
    requires o in Offs(t) && o != t.off
    ensures r.1 in Offs(t)
  {
    if o in Offs(t.bro) then (if t.bro.off == o then (false, t.off) else Pred(t.bro, o))
    else
      assert o in Offs(t.son);
      if t.son.off == o then (true, t.off) else Pred(t.son, o)
  }

  lemma {:induction false} PredLink(cells: map<nat, Cell>, t: Shape, d: nat, top: bool, o: nat)
    requires Linked(cells, t, d, top) && o in Offs(t) && o != t.off
    ensures var (son, q) := Pred(t, o);
      if son then SubShape(t, q).son == SubShape(t, o) else SubShape(t, q).bro == SubShape(t, o)
    decreases t
  {
    if o in Offs(t.bro) {
      if t.bro.off != o {
        PredLink(cells, t.bro, d, false, o);
      }
    } else if t.son.off != o {
      PredLink(cells, t.son, t.off, false, o);
    }
  }

  /** Nothing else can be the first-son link to a cell. */
  lemma {:induction false} OnlySonLink(cells: map<nat, Cell>, t: Shape, d: nat, top: bool, u: nat)
    requires Linked(cells, t, d, top) && u in Offs(t) && SubShape(t, u).son.Spot?
    ensures var o := SubShape(t, u).son.off;
      o in Offs(t) && o != t.off && Pred(t, o) == (true, u)
    decreases t
  {
    if t.off != u {
      if u in Offs(t.bro) {
        OnlySonLink(cells, t.bro, d, false, u);
      } else {
        OnlySonLink(cells, t.son, t.off, false, u);
      }
    }
  }

  /** In a forest, no live link points at a dead cell. */
  lemma NoDanglingBro(cells: map<nat, Cell>, fo: map<nat, Shape>, q: nat)
    requires IsForest(cells, fo) && q in cells && cells[q].ent.broPtr != 0
    ensures cells[q].ent.broPtr in cells
  {
    hide Raw;
    var t := InnerUntyped(cells, fo, q);
    ReadParts(cells, t, DadOf(cells, q), q in fo);
  }

  lemma NoneLost(cells: map<nat, Cell>, fo: map<nat, Shape>)
    requires IsForest(cells, fo)
    ensures !BroLost(cells)
  {
    hide IsForest;
    forall q | q in cells && cells[q].ent.broPtr != 0 ensures cells[q].ent.broPtr in cells {
      NoDanglingBro(cells, fo, q);
    }
  }

  /** Deleting a brother leaves the link of the one before it dangling. */
  lemma BroDangles(cells: map<nat, Cell>, q: Shape, d: nat, top: bool)
    requires Linked(cells, q, d, top) && q.Spot? && q.bro.Spot?
    ensures q.off in cells && q.bro.off in cells && Off(q.bro.bro) < TWO_64
    ensures q.off in Deleted(cells, q.bro) && Deleted(cells, q.bro)[q.off].ent.broPtr == q.bro.off != 0
    ensures q.bro.off !in Deleted(cells, q.bro)
  {
    hide Raw;
    ReadParts(cells, q, d, top);
    ReadParts(cells, q.bro, d, false);
    assert q.off !in Victims(q.bro, true);
  }

  /** A live brother link leads to a dead entity. */
  ghost predicate BroLost(cells: map<nat, Cell>) {
    exists o :: o in cells && cells[o].ent.broPtr != 0 && cells[o].ent.broPtr !in cells
  }

  ghost predicate HasForest(cells: map<nat, Cell>) {
    exists fo :: IsForest(cells, fo)
  }

  /** A node that file_delete may be given: a whole tree, or the first son of its dad. */
  ghost predicate FirstSon(cells: map<nat, Cell>, o: nat)
    requires o in cells
  {
    var dad := cells[o].ent.dadPtr;
    dad != 0 && dad in cells && cells[dad].ent.sonPtr == o
  }

  /** A cell is the first son of its dad exactly when its one link is a first-son link. */
  lemma FirstSonIff(cells: map<nat, Cell>, fo: map<nat, Shape>, r: nat, o: nat)
    requires IsForest(cells, fo) && r in fo && o in Offs(fo[r]) && o != r
    ensures fo[r].off == r && o in cells && (FirstSon(cells, o) <==> Pred(fo[r], o).0)
  {
    hide Raw, Linked, SubShape, Pred, Offs;
    assert Top(cells, r, fo[r]);
    var t, d := fo[r], DadOf(cells, r);
    SubLinked(cells, t, d, true, o);
    PredLink(cells, t, d, true, o);
    var (son, q) := Pred(t, o);
    SubLinked(cells, t, d, true, q);
    ReadParts(cells, SubShape(t, q), DadOf(cells, q), t.off == q);
    if son {
      LinkDad(cells, SubShape(t, q), DadOf(cells, q), t.off == q);
    }
    if FirstSon(cells, o) {
      SonLinkInTree(cells, fo, r, o);
    }
  }

  lemma LinkDad(cells: map<nat, Cell>, t: Shape, d: nat, top: bool)
    requires Linked(cells, t, d, top) && t.Spot? && t.son.Spot?
    ensures t.off != 0 && t.off in cells && t.son.off in cells
    ensures cells[t.son.off].ent.dadPtr == t.off && cells[t.off].ent.sonPtr == t.son.off
  {
  }

  lemma SonLinkInTree(cells: map<nat, Cell>, fo: map<nat, Shape>, r: nat, o: nat)
    requires IsForest(cells, fo) && r in fo && o in Offs(fo[r]) && o in cells && FirstSon(cells, o)
    ensures o != fo[r].off && Pred(fo[r], o).0
  {
    hide Raw, Linked, Pred, Offs, SubShape, IsForest;
    var u := cells[o].ent.dadPtr;
    var r2 := TreeOf(cells, fo, u);
    TopReadable(cells, fo, r);
    SubLinked(cells, fo[r2], DadOf(cells, r2), true, u);
    SonSpot(cells, SubShape(fo[r2], u), DadOf(cells, u), fo[r2].off == u, o);
    OnlySonLink(cells, fo[r2], DadOf(cells, r2), true, u);
    OneTree(cells, fo, r, r2, o);
  }

  lemma SonSpot(cells: map<nat, Cell>, t: Shape, d: nat, top: bool, o: nat)
    requires Linked(cells, t, d, top) && t.Spot? && cells[t.off].ent.sonPtr == o && o in cells
    requires o != 0
    ensures t.son.Spot? && t.son.off == o
  {
  }

  /** Deleting a node inside a tree leaves a forest if and only if it is its dad's first son. */
  lemma InnerDelete(cells: map<nat, Cell>, fo: map<nat, Shape>, r: nat, o: nat)
    requires IsForest(cells, fo) && r in fo && o in Offs(fo[r]) && o != r
    ensures o in cells && Off(SubShape(fo[r], o).bro) < TWO_64
    ensures HasForest(Deleted(cells, SubShape(fo[r], o))) <==> FirstSon(cells, o)
    ensures BroLost(Deleted(cells, SubShape(fo[r], o))) <==> !FirstSon(cells, o)
  {
    hide Raw, Linked, Deleted, IsForest, FirstSon, SubShape, Pred, Offs;
    FirstSonIff(cells, fo, r, o);
    assert Top(cells, r, fo[r]) by { TopReadable(cells, fo, r); }
    var t, d := fo[r], DadOf(cells, r);
    SubLinked(cells, t, d, true, o);
    ReadParts(cells, SubShape(t, o), DadOf(cells, o), false);
    PredLink(cells, t, d, true, o);
    var (son, q) := Pred(t, o);
    SubLinked(cells, t, d, true, q);
    if son {
      DeleteFirstSon(cells, fo, r, q);
      HasOne(Deleted(cells, SubShape(t, o)), fo[r := DropSon(t, q)]);
      NoneLost(Deleted(cells, SubShape(t, o)), fo[r := DropSon(t, q)]);
    } else {
      BroDangles(cells, SubShape(t, q), DadOf(cells, q), t.off == q);
      if HasForest(Deleted(cells, SubShape(t, o))) {
        var fo' :| IsForest(Deleted(cells, SubShape(t, o)), fo');
        NoDanglingBro(Deleted(cells, SubShape(t, o)), fo', q);
      }
    }
  }

  lemma HasOne(cells: map<nat, Cell>, fo: map<nat, Shape>)
    requires IsForest(cells, fo)
    ensures HasForest(cells)
  {
  }

  // ---------------------------------------------------------------- file_delete on any live entity

  /** A dad inside the tree lies above its sons. */
  lemma {:induction false} DadAbove(cells: map<nat, Cell>, t: Shape, d: nat, top: bool, o: nat)
    requires Linked(cells, t, d, top) && o in Offs(t)
    ensures o in cells
    ensures DadOf(cells, o) == d || (DadOf(cells, o) in Offs(t) && DadOf(cells, o) !in Offs(SubShape(t, o)))
  {
    if t.off != o {
      if o in Offs(t.bro) {
        DadAbove(cells, t.bro, d, false, o);
      } else {
        DadAbove(cells, t.son, t.off, false, o);
      }
    }
  }

  /** No top has a dad: nothing is left over from a write that failed. */
  ghost predicate NoLooseTops(cells: map<nat, Cell>, fo: map<nat, Shape>) {
    forall r :: r in fo && r in cells ==> cells[r].ent.dadPtr == 0
  }

  lemma DeletableCell(cells: map<nat, Cell>, fo: map<nat, Shape>, o: nat) returns (r: nat, t: Shape)
    requires IsForest(cells, fo) && NoLooseTops(cells, fo) && o in cells
    ensures r in fo && o in Offs(fo[r]) && t == SubShape(fo[r], o) && (r == o <==> o in fo)
    ensures Linked(cells, t, DadOf(cells, o), true) && Off(t.bro) < TWO_64
    ensures DadOf(cells, o) != 0 ==> DadOf(cells, o) in cells && DadOf(cells, o) !in Offs(t)
    ensures o in fo ==> DadOf(cells, o) == 0 && t == fo[o]
  {
    hide Raw, IsForest, Separate;
    r := TreeOf(cells, fo, o);
    t := SubShape(fo[r], o);
    TopReadable(cells, fo, r);
    DadAbove(cells, fo[r], DadOf(cells, r), true, o);
    SubLinked(cells, fo[r], DadOf(cells, r), true, o);
    ReadParts(cells, t, DadOf(cells, o), fo[r].off == o);
    if o in fo {
      TopReadable(cells, fo, o);
      OneTree(cells, fo, o, r, o);
    }
  }

  lemma TopDelete(cells: map<nat, Cell>, fo: map<nat, Shape>, o: nat)
    requires IsForest(cells, fo) && o in fo && o in cells && fo[o].Spot? && fo[o].off == o && Off(fo[o].bro) < TWO_64
    requires DadOf(cells, o) == 0
    ensures HasForest(Deleted(cells, fo[o])) && !BroLost(Deleted(cells, fo[o]))
  {
    hide Raw, Linked, IsForest, Offs;
    DeleteTop(cells, fo, o);
    NoneLost(cells - Victims(fo[o], true), WithoutTop(fo, o));
    HasOne(cells - Victims(fo[o], true), WithoutTop(fo, o));
  }

  /**
   file_delete with `is_root` on any live entity: the file remains a forest, with every link leading
   to a live entity, if and only if the entity is a tree of its own or its dad's first son.
   */
  method DeleteAny(f: File, foff: nat, ghost fo: map<nat, Shape>) returns (ok: bool)
    requires f.Valid() && IsForest(f.cells, fo) && NoLooseTops(f.cells, fo)
    requires foff in f.cells
    requires forall r :: r in fo && foff in Offs(fo[r]) ==> Scans(Bases(f.fExtent), f.cells, Order(SubShape(fo[r], foff), true))
    modifies f`cells, f.filp, f.fExtent
    ensures ok && f.Valid() && f.Kept()
    ensures HasForest(f.cells) <==> foff in fo || FirstSon(old(f.cells), foff)
    ensures !HasForest(f.cells) <==> BroLost(f.cells)
    ensures forall r :: r in fo && foff in Offs(fo[r]) ==>
      var t := SubShape(fo[r], foff); Off(t.bro) < TWO_64 && f.cells == Deleted(old(f.cells), t)
  {
    hide Inv, IsForest, NoLooseTops, Scans, Order, Linked, Offs, FirstSon, HasForest, BroLost, SubShape;
    ghost var cells := f.cells;
    ghost var r, t := DeletableCell(cells, fo, foff);
    ok := FileDelete(f, foff, true, t, DadOf(cells, foff), true);
    assert f.cells == Deleted(cells, t);
    forall x | x in fo && foff in Offs(fo[x]) ensures x == r {
      OneTree(cells, fo, x, r, foff);
    }
    if foff in fo {
      TopDelete(cells, fo, foff);
    } else {
      InnerDelete(cells, fo, r, foff);
    }
  }
}
