/**
 Trees laid over the live cells by their link offsets. A shape records which offsets a tree
 occupies; a forest is a set of shapes, by top offset, that share no cell and miss none.
 Offsets follow no order, since cells are placed first-fit.
 */
module Forest {
  import opened Json
  import opened Extents

  datatype Shape = Empty | Spot(off: nat, bro: Shape, son: Shape)

  /** The link that points at a shape. */
  function Off(t: Shape): nat {
    if t.Empty? then 0 else t.off
  }

  function Offs(t: Shape): (s: set<nat>)
    ensures t.Spot? ==> t.off in s
  {
    if t.Empty? then {} else {t.off} + Offs(t.bro) + Offs(t.son)
  }

  /** The cells really are linked like this shape, no cell occurs twice, only a top has a type. */
  ghost predicate Linked(cells: map<nat, Cell>, t: Shape, dad: nat, top: bool) {
    t.Spot? ==>
      && t.off != 0 && t.off in cells && cells[t.off].ent.ty <= 4
      && cells[t.off].ent.dadPtr == dad
      && cells[t.off].ent.broPtr == Off(t.bro) && cells[t.off].ent.sonPtr == Off(t.son)
      && (top || cells[t.off].ent.typePtr == 0)
      && t.off !in Offs(t.bro) && t.off !in Offs(t.son) && Offs(t.bro) !! Offs(t.son)
      && Linked(cells, t.bro, dad, false) && Linked(cells, t.son, t.off, false)
  }

  /** The tree as it was handed in: raw keys and values. */
  ghost function Raw(cells: map<nat, Cell>, t: Shape): Json
    requires Offs(t) <= cells.Keys && forall o :: o in Offs(t) ==> cells[o].ent.ty <= 4
  {
    if t.Empty? then Nil else
      var c := cells[t.off];
      Node(c.key, TypeOf(c.ent.ty), c.val, Raw(cells, t.bro), Raw(cells, t.son))
  }

  ghost predicate Readable(cells: map<nat, Cell>, t: Shape) {
    Offs(t) <= cells.Keys && forall o :: o in Offs(t) ==> cells[o].ent.ty <= 4
  }

  lemma {:induction false} LinkedReadable(cells: map<nat, Cell>, t: Shape, dad: nat, top: bool)
    requires Linked(cells, t, dad, top)
    ensures Readable(cells, t) && 0 !in Offs(t)
  {
    if t.Spot? {
      LinkedReadable(cells, t.bro, dad, false);
      LinkedReadable(cells, t.son, t.off, false);
    }
  }

  /** A shape depends on its own cells only. */
  lemma {:induction false} LinkedFrame(cells: map<nat, Cell>, cells': map<nat, Cell>, t: Shape, dad: nat, top: bool)
    requires Linked(cells, t, dad, top)
    requires forall o :: o in Offs(t) ==> o in cells && o in cells' && cells'[o] == cells[o]
    ensures Linked(cells', t, dad, top)
    ensures Readable(cells, t) && Readable(cells', t) && Raw(cells', t) == Raw(cells, t)
  {
    if t.Spot? {
      LinkedFrame(cells, cells', t.bro, dad, false);
      LinkedFrame(cells, cells', t.son, t.off, false);
    }
  }

  ghost function DadOf(cells: map<nat, Cell>, o: nat): nat
    requires o in cells
  {
    cells[o].ent.dadPtr
  }

  /** A shape nothing links to. */
  ghost predicate Top(cells: map<nat, Cell>, r: nat, t: Shape) {
    r in cells && t.Spot? && t.off == r && Linked(cells, t, DadOf(cells, r), true)
  }

  ghost predicate Covered(fo: map<nat, Shape>, o: nat) {
    exists r :: r in fo && o in Offs(fo[r])
  }

  ghost predicate Tops(cells: map<nat, Cell>, fo: map<nat, Shape>) {
    forall r :: r in fo ==> Top(cells, r, fo[r])
  }

  ghost predicate Separate(fo: map<nat, Shape>) {
    forall r1, r2 :: r1 in fo && r2 in fo && r1 != r2 ==> Offs(fo[r1]) !! Offs(fo[r2])
  }

  ghost predicate IsForest(cells: map<nat, Cell>, fo: map<nat, Shape>) {
    && Tops(cells, fo) && Separate(fo)
    && forall o :: o in cells ==> Covered(fo, o)
  }

  lemma TopReadable(cells: map<nat, Cell>, fo: map<nat, Shape>, r: nat)
    requires IsForest(cells, fo) && r in fo
    ensures Top(cells, r, fo[r]) && Readable(cells, fo[r]) && 0 !in Offs(fo[r])
  {
    LinkedReadable(cells, fo[r], DadOf(cells, r), true);
  }

  /** Every live cell has exactly one tree. */
  lemma OneTree(cells: map<nat, Cell>, fo: map<nat, Shape>, r1: nat, r2: nat, o: nat)
    requires IsForest(cells, fo) && r1 in fo && r2 in fo && o in Offs(fo[r1]) && o in Offs(fo[r2])
    ensures r1 == r2
  {
    hide Tops, Covered;
    assert o in Offs(fo[r1]) * Offs(fo[r2]);
  }

  lemma TreeOf(cells: map<nat, Cell>, fo: map<nat, Shape>, o: nat) returns (r: nat)
    requires IsForest(cells, fo) && o in cells
    ensures r in fo && o in Offs(fo[r]) && Top(cells, r, fo[r])
  {
    hide Raw, Linked, Offs, Separate;
    assert Covered(fo, o);
    r :| r in fo && o in Offs(fo[r]);
  }

  /** The part of a shape that starts at one of its offsets. */
  ghost function SubShape(t: Shape, o: nat): (r: Shape)
    requires o in Offs(t)
    ensures r.Spot? && r.off == o && Offs(r) <= Offs(t)
  {
    if t.off == o then t else if o in Offs(t.bro) then SubShape(t.bro, o) else SubShape(t.son, o)
  }

  lemma {:induction false} SubLinked(cells: map<nat, Cell>, t: Shape, dad: nat, top: bool, o: nat)
    requires Linked(cells, t, dad, top) && o in Offs(t)
    ensures o in cells && Linked(cells, SubShape(t, o), DadOf(cells, o), t.off == o && top)
    ensures t.off != o ==> cells[o].ent.typePtr == 0
  {
    if t.off != o {
      if o in Offs(t.bro) {
        SubLinked(cells, t.bro, dad, false, o);
      } else {
        SubLinked(cells, t.son, t.off, false, o);
      }
    }
  }

  /** Only tops carry a type. */
  lemma InnerUntyped(cells: map<nat, Cell>, fo: map<nat, Shape>, o: nat) returns (t: Shape)
    requires IsForest(cells, fo) && o in cells
    ensures t.Spot? && t.off == o && Linked(cells, t, DadOf(cells, o), o in fo)
    ensures Readable(cells, t)
    ensures o in fo ==> t == fo[o]
    ensures o !in fo ==> cells[o].ent.typePtr == 0
  {
    hide Separate, Raw;
    assert Covered(fo, o);
    var r :| r in fo && o in Offs(fo[r]);
    assert Top(cells, r, fo[r]);
    SubLinked(cells, fo[r], DadOf(cells, r), true, o);
    t := SubShape(fo[r], o);
    if o in fo {
      assert Top(cells, o, fo[o]);
      OneTree(cells, fo, o, r, o);
    }
    LinkedReadable(cells, t, DadOf(cells, o), o in fo);
  }

  // ---------------------------------------------------------------- building

  ghost predicate Extends(cells: map<nat, Cell>, cells': map<nat, Cell>) {
    forall o :: o in cells ==> o in cells' && cells'[o] == cells[o]
  }

  ghost function New(cells: map<nat, Cell>, cells': map<nat, Cell>): map<nat, Cell> {
    cells' - cells.Keys
  }

  /** A tree reads the same among more cells. */
  lemma {:induction false} RawFrame(cells: map<nat, Cell>, cells': map<nat, Cell>, t: Shape)
    requires Readable(cells, t) && Extends(cells, cells')
    ensures Readable(cells', t) && Raw(cells', t) == Raw(cells, t)
  {
    if t.Spot? {
      RawFrame(cells, cells', t.bro);
      RawFrame(cells, cells', t.son);
    }
  }

  /** Two forests side by side. */
  lemma ForestUnion(c1: map<nat, Cell>, g1: map<nat, Shape>, c2: map<nat, Cell>, g2: map<nat, Shape>, c: map<nat, Cell>)
    requires IsForest(c1, g1) && IsForest(c2, g2) && c1.Keys !! c2.Keys
    requires Extends(c1, c) && Extends(c2, c) && c.Keys == c1.Keys + c2.Keys
    ensures g1.Keys !! g2.Keys && IsForest(c, g1 + g2)
  {
    hide Top, Offs, Covered;
    var g := g1 + g2;
    TopsFrame(c1, g1, c);
    TopsFrame(c2, g2, c);
    UnionKeys(c1, g1, c2, g2);
    forall o | o in c ensures Covered(g, o) {
      UnionCovered(g1, g2, o);
      assert o in c1 ==> Covered(g1, o);
      assert o in c2 ==> Covered(g2, o);
    }
  }

  lemma TopsFrame(c: map<nat, Cell>, g: map<nat, Shape>, c': map<nat, Cell>)
    requires IsForest(c, g) && Extends(c, c')
    ensures forall r :: r in g ==> r in Offs(g[r]) && Offs(g[r]) <= c.Keys && Top(c', r, g[r])
  {
    hide Linked, Raw;
    forall r | r in g ensures r in Offs(g[r]) && Offs(g[r]) <= c.Keys && Top(c', r, g[r]) {
      TopReadable(c, g, r);
      LinkedFrame(c, c', g[r], DadOf(c, r), true);
    }
  }

  lemma UnionKeys(c1: map<nat, Cell>, g1: map<nat, Shape>, c2: map<nat, Cell>, g2: map<nat, Shape>)
    requires c1.Keys !! c2.Keys
    requires forall r :: r in g1 ==> r in Offs(g1[r]) && Offs(g1[r]) <= c1.Keys
    requires forall r :: r in g2 ==> r in Offs(g2[r]) && Offs(g2[r]) <= c2.Keys
    ensures g1.Keys !! g2.Keys
    ensures Separate(g1) && Separate(g2) ==> Separate(g1 + g2)
  {
    hide Offs;
    assert g1.Keys <= c1.Keys && g2.Keys <= c2.Keys;
  }

  lemma UnionCovered(g1: map<nat, Shape>, g2: map<nat, Shape>, o: nat)
    requires g1.Keys !! g2.Keys
    ensures Covered(g1, o) || Covered(g2, o) ==> Covered(g1 + g2, o)
  {
    hide Offs;
    var g := g1 + g2;
    if Covered(g1, o) {
      var r :| r in g1 && o in Offs(g1[r]);
      assert r in g && g[r] == g1[r];
    } else if Covered(g2, o) {
      var r :| r in g2 && o in Offs(g2[r]);
      assert r in g && g[r] == g2[r];
    }
  }

  /** One freshly written cell, without links yet. */
  lemma SingleForest(o: nat, c: Cell)
    requires o != 0 && c.ent.ty <= 4 && c.ent.broPtr == 0 && c.ent.sonPtr == 0
    ensures IsForest(map[o := c], map[o := Spot(o, Empty, Empty)])
  {
    var m, g := map[o := c], map[o := Spot(o, Empty, Empty)];
    assert Offs(Empty) == {} && Linked(m, Empty, o, false) && Linked(m, Empty, c.ent.dadPtr, false);
    assert Offs(g[o]) == {o};
    assert Top(m, o, g[o]);
  }

  /** What a finished write of one node with its brothers and sons has built. */
  ghost predicate Built(c: map<nat, Cell>, t: Shape, json: Json, dad: nat, ty: nat) {
    && t.Spot? && IsForest(c, map[t.off := t]) && Readable(c, t) && Raw(c, t) == json
    && t.off in c && c[t.off].ent.dadPtr == dad && c[t.off].ent.typePtr == ty
    && (t.bro == Empty <==> json.Node? && json.bro == Nil)
  }

  lemma OnlyTop(c: map<nat, Cell>, t: Shape)
    requires t.Spot? && IsForest(c, map[t.off := t])
    ensures Offs(t) == c.Keys && Linked(c, t, DadOf(c, t.off), true) && 0 !in Offs(t)
  {
    var fo := map[t.off := t];
    assert t.off in fo && Top(c, t.off, fo[t.off]);
    LinkedReadable(c, t, DadOf(c, t.off), true);
    forall o | o in c ensures o in Offs(t) {
      assert Covered(fo, o);
    }
  }

  lemma TopUntyped(c: map<nat, Cell>, t: Shape, dad: nat)
    requires Linked(c, t, dad, true) && (t.Spot? ==> c[t.off].ent.typePtr == 0)
    ensures Linked(c, t, dad, false)
  {
  }

  lemma SetOfOne(c: map<nat, Cell>, t: Shape, dad: nat)
    requires t.Spot? && Linked(c, t, dad, true) && Offs(t) == c.Keys
    ensures IsForest(c, map[t.off := t])
  {
    var fo := map[t.off := t];
    assert Top(c, t.off, fo[t.off]);
    forall o | o in c ensures Covered(fo, o) {
      assert t.off in fo && o in Offs(fo[t.off]);
    }
  }

  /** Linking a written cell to its already written brothers and sons joins three trees into one. */
  lemma JoinBuilt(
    o: nat, cell: Cell, cb: map<nat, Cell>, b: Shape, cs: map<nat, Cell>, s: Shape,
    c: map<nat, Cell>, json: Json)
    requires json.Node? && o != 0 && cell.ent.ty <= 4
    requires if json.bro.Nil? then b == Empty && cb == map[] else Built(cb, b, json.bro, cell.ent.dadPtr, 0)
    requires if json.son.Nil? then s == Empty && cs == map[] else Built(cs, s, json.son, o, 0)
    requires cell.key == json.key && cell.val == json.val && TypeOf(cell.ent.ty) == json.ty
    requires cell.ent.broPtr == Off(b) && cell.ent.sonPtr == Off(s)
    requires o !in cb && o !in cs && cb.Keys !! cs.Keys
    requires c == (map[o := cell] + cb) + cs
    ensures Built(c, Spot(o, b, s), json, cell.ent.dadPtr, cell.ent.typePtr)
  {
    hide IsForest;
    var t := Spot(o, b, s);
    if b.Spot? {
      OnlyTop(cb, b);
      TopUntyped(cb, b, cell.ent.dadPtr);
      LinkedFrame(cb, c, b, cell.ent.dadPtr, false);
    }
    if s.Spot? {
      OnlyTop(cs, s);
      TopUntyped(cs, s, o);
      LinkedFrame(cs, c, s, o, false);
    }
    assert Offs(b) == cb.Keys && Offs(s) == cs.Keys;
    assert c[o] == cell;
    assert Linked(c, t, cell.ent.dadPtr, true);
    assert Offs(t) == c.Keys;
    SetOfOne(c, t, cell.ent.dadPtr);
    LinkedReadable(c, t, cell.ent.dadPtr, true);
    assert Raw(c, b) == json.bro;
    assert Raw(c, s) == json.son;
    assert Raw(c, t) == json;
  }

  // ---------------------------------------------------------------- deleting

  /** The cells that a delete kills. */
  function Victims(t: Shape, isRoot: bool): set<nat>
    requires t.Spot?
  {
    if isRoot then {t.off} + Offs(t.son) else Offs(t)
  }

  /** The forest without a top; its brothers, if any, become a tree of their own. */
  ghost function WithoutTop(fo: map<nat, Shape>, r: nat): map<nat, Shape>
    requires r in fo && fo[r].Spot?
  {
    var b := fo[r].bro;
    if b.Empty? then fo - {r} else (fo - {r})[b.off := b]
  }

  lemma OtherTopsKept(cells: map<nat, Cell>, fo: map<nat, Shape>, r: nat, x: nat)
    requires IsForest(cells, fo) && r in fo && fo[r].Spot? && x in fo && x != r
    ensures Offs(fo[x]) !! Offs(fo[r])
    ensures Top(cells - Victims(fo[r], true), x, fo[x])
    ensures Readable(cells, fo[x]) && Readable(cells - Victims(fo[r], true), fo[x])
    ensures Raw(cells - Victims(fo[r], true), fo[x]) == Raw(cells, fo[x])
  {
    hide Linked, Raw;
    TopReadable(cells, fo, x);
    LinkedFrame(cells, cells - Victims(fo[r], true), fo[x], DadOf(cells, x), true);
  }

  lemma BroKept(cells: map<nat, Cell>, fo: map<nat, Shape>, r: nat)
    requires IsForest(cells, fo) && r in fo && fo[r].Spot? && fo[r].bro.Spot?
    ensures Top(cells - Victims(fo[r], true), fo[r].bro.off, fo[r].bro)
  {
    hide Raw;
    var b := fo[r].bro;
    TopReadable(cells, fo, r);
    assert Linked(cells, b, DadOf(cells, r), false);
    LinkedReadable(cells, b, DadOf(cells, r), false);
    LinkedFrame(cells, cells - Victims(fo[r], true), b, DadOf(cells, r), false);
  }

  lemma DeleteTopAt(cells: map<nat, Cell>, fo: map<nat, Shape>, r: nat, x: nat)
    requires IsForest(cells, fo) && r in fo && fo[r].Spot? && x in WithoutTop(fo, r)
    ensures Top(cells - Victims(fo[r], true), x, WithoutTop(fo, r)[x])
  {
    hide Linked, Raw, Top, Victims, Covered;
    var b := fo[r].bro;
    if b.Spot? && x == b.off {
      BroKept(cells, fo, r);
    } else {
      OtherTopsKept(cells, fo, r, x);
    }
  }

  lemma DeleteTops(cells: map<nat, Cell>, fo: map<nat, Shape>, r: nat)
    requires IsForest(cells, fo) && r in fo && fo[r].Spot?
    ensures Tops(cells - Victims(fo[r], true), WithoutTop(fo, r))
  {
    hide IsForest, Top, Victims, WithoutTop;
    var c', fo' := cells - Victims(fo[r], true), WithoutTop(fo, r);
    forall x | x in fo' ensures Top(c', x, fo'[x]) {
      DeleteTopAt(cells, fo, r, x);
    }
  }

  lemma DeleteSeparates(cells: map<nat, Cell>, fo: map<nat, Shape>, r: nat)
    requires IsForest(cells, fo) && r in fo && fo[r].Spot?
    ensures Separate(WithoutTop(fo, r))
  {
    hide IsForest, Offs, WithoutTop;
    var fo' := WithoutTop(fo, r);
    forall r1, r2 | r1 in fo' && r2 in fo' && r1 != r2 ensures Offs(fo'[r1]) !! Offs(fo'[r2]) {
      DeleteSeparate(cells, fo, r, r1, r2);
    }
  }

  /** Deleting a top kills exactly its own tree and leaves a forest of all the others. */
  lemma DeleteTop(cells: map<nat, Cell>, fo: map<nat, Shape>, r: nat)
    requires IsForest(cells, fo) && r in fo
    ensures fo[r].Spot?
    ensures IsForest(cells - Victims(fo[r], true), WithoutTop(fo, r))
  {
    hide Linked, Raw, Tops, Separate, Victims, Covered, Offs, WithoutTop;
    TopReadable(cells, fo, r);
    var c', fo' := cells - Victims(fo[r], true), WithoutTop(fo, r);
    DeleteTops(cells, fo, r);
    DeleteSeparates(cells, fo, r);
    forall o | o in c' ensures Covered(fo', o) {
      DeleteCovered(cells, fo, r, o);
    }
  }

  lemma DeleteCovered(cells: map<nat, Cell>, fo: map<nat, Shape>, r: nat, o: nat)
    requires IsForest(cells, fo) && r in fo && fo[r].Spot? && o in cells && o !in Victims(fo[r], true)
    ensures Covered(WithoutTop(fo, r), o)
  {
    hide Linked, Raw;
    var fo' := WithoutTop(fo, r);
    assert Covered(fo, o);
    var x :| x in fo && o in Offs(fo[x]);
    if x == r {
      assert o in Offs(fo[r].bro);
      assert fo[r].bro.off in fo' && fo'[fo[r].bro.off] == fo[r].bro;
    } else {
      OtherTopsKept(cells, fo, r, x);
      TopReadable(cells, fo, x);
      assert x in Offs(fo[x]);
      assert fo[r].bro.Spot? ==> x != fo[r].bro.off;
      assert x in fo' && fo'[x] == fo[x];
    }
  }

  lemma DeleteSeparate(cells: map<nat, Cell>, fo: map<nat, Shape>, r: nat, r1: nat, r2: nat)
    requires IsForest(cells, fo) && r in fo && fo[r].Spot?
    requires r1 in WithoutTop(fo, r) && r2 in WithoutTop(fo, r) && r1 != r2
    ensures Offs(WithoutTop(fo, r)[r1]) !! Offs(WithoutTop(fo, r)[r2])
  {
    hide Linked, Raw;
    var b := fo[r].bro;
    assert Offs(b) <= Offs(fo[r]);
    if b.Spot? && r1 == b.off {
      assert Offs(fo[r2]) !! Offs(fo[r]);
    } else if b.Spot? && r2 == b.off {
      assert Offs(fo[r1]) !! Offs(fo[r]);
    }
  }
}
