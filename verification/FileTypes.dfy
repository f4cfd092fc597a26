/** The catalogue of types across all type sections of a file. */
module FileTypes {
  import opened Bytes
  import opened Disk
  import opened Section
  import opened Json
  import opened Types
  import opened Store
  import opened File
  import Typ = Types

  /** A type with these names can be stored at all: it fits an empty section. */
  predicate TypeFits(t: TypeDef) {
    ItmSz(t) + RecSz(t) <= SECTION_SIZE - HEAD_SIZE
  }

  /** What operations on types leave alone. */
  twostate predicate TypesKept(f: File)
    reads f, f.filp, f.fExtent, f.fTypes
  {
    && f.fExtent == old(f.fExtent) && Heads(f.fExtent) == old(Heads(f.fExtent)) && f.cells == old(f.cells)
    && old(f.fTypes) <= f.fTypes && forall i :: |old(f.fTypes)| <= i < |f.fTypes| ==> fresh(f.fTypes[i])
  }

  /** The header of a section that has taken a type. */
  ghost predicate Took(h: Head, h': Head, t: TypeDef) {
    && RecSz(t) <= h.frp && h.lip + ItmSz(t) < TWO_64 && ItmSz(t) + RecSz(t) <= h.free
    && h' == Pushed(h, ItmSz(t), RecSz(t))
  }

  method WriteAt(f: File, i: nat, t: TypeDef) returns (ok: bool, foff: nat)
    requires f.Valid() && i < |f.fTypes|
    requires ItmSz(t) + RecSz(t) < TWO_64
    modifies f`tcells, f.fTypes[i], f.filp
    ensures f.Valid() && TypesKept(f) && f.fTypes == old(f.fTypes) && f.lstSectPtr == old(f.lstSectPtr)
    ensures ok <==> ItmSz(t) + RecSz(t) <= old(f.fTypes[i].freeSpace)
    ensures !ok ==> f.tcells == old(f.tcells)
    ensures ok ==> foff !in old(f.tcells) && foff in f.tcells && f.tcells[foff].def == t
    ensures ok ==> f.tcells == old(f.tcells)[foff := f.tcells[foff]]
    ensures ok ==> foff == old(f.fTypes[i].fileOffset + f.fTypes[i].lstItmPtr) && Took(old(f.fTypes[i].View()), f.fTypes[i].View(), t)
    ensures !ok ==> f.fTypes[i].View() == old(f.fTypes[i].View())
  {
    hide Inv, At, TypesRep, SameOutside, Same, Sub, SameBut, NamesLen;
    ghost var s := f.View();
    var base := f.fTypes[i].fileOffset;
    InvTypes(s, i);
    var soff: nat;
    ok, soff := Typ.Write(f.fTypes[i], t, Sub(f.tcells, base));
    foff := f.fTypes[i].GetFileoff(soff);
    if ok {
      ghost var c := TypeCell(t, s.types[i].frp - |t.name|);
      TypeSlotInside(s, i);
      f.tcells := f.tcells[foff := c];
      SubPush(s.tcells, base, foff, c);
      NotInSub(s.tcells, base, foff);
      SameButPush(s.tcells, base, foff, c);
    } else {
      SameButRefl(f.tcells, base);
      assert TypesRep(f.filp.bytes, f.fTypes[i].View(), Sub(f.tcells, base));
    }
    assert TypesStepped(s, f.View(), i);
    TypesStep(s, f.View(), i);
  }

  lemma TypeSlotInside(s: Snap, i: nat)
    requires Inv(s) && i < |s.types|
    ensures Roomy(s.types[i])
    ensures s.types[i].free >= TENT_SIZE ==> InSect(s.types[i].base, s.types[i].base + s.types[i].lip)
  {
    hide Inv;
    InvTypes(s, i);
    TLipAligned(s.d, s.types[i], Sub(s.tcells, s.types[i].base));
  }

  /** What an attempt to store a type has come to. */
  twostate predicate Stored(f: File, t: TypeDef, ok: bool, wrtFoff: nat)
    reads f
  {
    if ok then
      && TypeFits(t) && wrtFoff !in old(f.tcells) && wrtFoff in f.tcells && f.tcells[wrtFoff].def == t
      && f.tcells == old(f.tcells)[wrtFoff := f.tcells[wrtFoff]]
    else f.tcells == old(f.tcells)
  }

  /** The loop of file_add_type: the first section with room. */
  method FirstFit(f: File, t: TypeDef) returns (ok: bool, wrtFoff: nat, ghost home: nat)
    requires f.Valid()
    requires ItmSz(t) + RecSz(t) < TWO_64
    modifies f`tcells, f.filp, f.fTypes
    ensures f.Valid() && TypesKept(f) && f.fTypes == old(f.fTypes) && f.lstSectPtr == old(f.lstSectPtr)
    ensures Stored(f, t, ok, wrtFoff) && FirstRoom(old(Heads(f.fTypes)), ItmSz(t) + RecSz(t), home)
    ensures ok <==> home < |f.fTypes|
    ensures ok ==> wrtFoff == old(Heads(f.fTypes))[home].base + old(Heads(f.fTypes))[home].lip
    ensures ok ==> Took(old(Heads(f.fTypes))[home], f.fTypes[home].View(), t)
    ensures forall j :: 0 <= j < |f.fTypes| && j != home ==> f.fTypes[j].View() == old(f.fTypes[j].View())
  {
    hide Inv, At, Same, NamesLen;
    ghost var hs := Heads(f.fTypes);
    var i := 0;
    ok, wrtFoff := false, 0;
    while i < |f.fTypes| && !ok
      invariant i <= |f.fTypes| && f.Valid() && TypesKept(f) && f.fTypes == old(f.fTypes)
      invariant f.lstSectPtr == old(f.lstSectPtr) && Stored(f, t, ok, wrtFoff)
      invariant forall j :: 0 <= j < i ==> hs[j].free < ItmSz(t) + RecSz(t)
      invariant forall j :: 0 <= j < |f.fTypes| && (j != i || !ok) ==> f.fTypes[j].View() == hs[j]
      invariant ok ==> i < |f.fTypes| && ItmSz(t) + RecSz(t) <= hs[i].free && wrtFoff == hs[i].base + hs[i].lip && Took(hs[i], f.fTypes[i].View(), t)
      decreases |f.fTypes| - i, !ok
    {
      TypeRoom(f.View(), i);
      ok, wrtFoff := WriteAt(f, i, t);
      if !ok {
        i := i + 1;
      }
    }
    home := i;
  }

  /** The rest of file_add_type when no section has room: a new one. */
  method WriteNew(f: File, t: TypeDef) returns (ok: bool, wrtFoff: nat)
    requires f.Valid()
    requires ItmSz(t) + RecSz(t) < TWO_64
    modifies f, f.filp
    ensures f.Valid() && TypesKept(f) && Stored(f, t, ok, wrtFoff)
    ensures ok ==> |f.fTypes| == |old(f.fTypes)| + 1
    ensures ok ==> wrtFoff == old(f.lstSectPtr) + HEAD_SIZE && Took(NewHead(old(f.lstSectPtr)), f.fTypes[|old(f.fTypes)|].View(), t)
    ensures !ok ==> !TypeFits(t) || old(f.lstSectPtr) + SECTION_SIZE > MAX_FILE
    ensures f.lstSectPtr <= old(f.lstSectPtr) + SECTION_SIZE
  {
    hide Inv, At, Same, NamesLen, Took, Heads;
    wrtFoff := 0;
    ok := f.AddSectTypes();
    if ok {
      ok, wrtFoff := WriteAt(f, |f.fTypes| - 1, t);
    }
  }

  /** Stores a type in the first section with room, or in a new one when none has any. */
  method AddType(f: File, t: TypeDef) returns (ok: bool, wrtFoff: nat, ghost home: nat)
    requires f.Valid()
    requires ItmSz(t) + RecSz(t) < TWO_64
    modifies f, f.filp, f.fTypes
    ensures f.Valid() && TypesKept(f) && Stored(f, t, ok, wrtFoff)
    ensures FirstRoom(old(Heads(f.fTypes)), ItmSz(t) + RecSz(t), home)
    ensures ok ==> home < |f.fTypes| && PlacedAt(old(Heads(f.fTypes)), old(f.lstSectPtr), home, f.fTypes[home].View(), t, wrtFoff)
    ensures !ok ==> !TypeFits(t) || old(f.lstSectPtr) + SECTION_SIZE > MAX_FILE
    ensures f.lstSectPtr <= old(f.lstSectPtr) + SECTION_SIZE
  {
    hide Inv, At, Same, NamesLen, Took, FirstRoom, TypeFits;
    ok, wrtFoff, home := FirstFit(f, t);
    if !ok {
      FirstRoomNew(old(Heads(f.fTypes)), ItmSz(t) + RecSz(t), home);
      ok, wrtFoff := WriteNew(f, t);
      if !ok {
        return;
      }
    }
    f.Sync();
  }

  /** Where a type has gone: behind the items of section `home`, an old one or a new one. */
  ghost predicate PlacedAt(hs: seq<Head>, lsp: nat, home: nat, h': Head, t: TypeDef, wrtFoff: nat) {
    wrtFoff == HeadAt(hs, lsp, home).base + HeadAt(hs, lsp, home).lip && Took(HeadAt(hs, lsp, home), h', t)
  }

  lemma TypeRoom(s: Snap, i: nat)
    requires Inv(s) && i < |s.types|
    ensures s.types[i].free <= SECTION_SIZE - HEAD_SIZE
  {
    hide Inv;
    TypeSlotInside(s, i);
  }

  /** A slot of some type section that no live type covers. */
  ghost predicate FreeIn(hs: seq<Head>, m: map<nat, TypeCell>, x: nat) {
    exists i :: 0 <= i < |hs| && FreeSlot(hs[i].base, hs[i].lip, Sub(m, hs[i].base), x)
  }

  /** What a look-up by this name may take, over all sections. */
  ghost predicate TypeMatch(hs: seq<Head>, m: map<nat, TypeCell>, name: seq<byte>, x: nat) {
    if x in m then StrEq(StrCopy(m[x].def.name), name) else name == [] && FreeIn(hs, m, x)
  }

  ghost predicate FirstType(hs: seq<Head>, m: map<nat, TypeCell>, name: seq<byte>, x: nat) {
    TypeMatch(hs, m, name, x) && forall y :: TypeMatch(hs, m, name, y) ==> x <= y
  }

  ghost predicate NoType(hs: seq<Head>, m: map<nat, TypeCell>, name: seq<byte>) {
    forall y :: !TypeMatch(hs, m, name, y)
  }

  lemma FirstLooked(hs: seq<Head>, m: map<nat, TypeCell>, name: seq<byte>, x: nat)
    ensures FirstType(hs, m, name, x) ==> Looked(m, name, x)
    ensures NoType(hs, m, name) ==> NoneNamed(m, name)
  {
    hide StrEq, StrCopy, FreeIn;
    if FirstType(hs, m, name, x) {
      forall y | y in m && y < x ensures !StrEq(StrCopy(m[y].def.name), name) {
        assert !TypeMatch(hs, m, name, y);
      }
    }
    if NoType(hs, m, name) {
      forall y | y in m ensures !StrEq(StrCopy(m[y].def.name), name) {
        assert !TypeMatch(hs, m, name, y);
      }
    }
  }

  /** Looks a type up over all sections: takes the lowest match in the file. */
  method FindType(f: File, name: seq<byte>) returns (ok: bool, t: TypeDef, adr: nat, sect: nat)
    requires f.Valid()
    ensures ok ==> sect < |f.fTypes| && InSect(f.fTypes[sect].fileOffset, f.fTypes[sect].fileOffset + adr)
    ensures ok ==> var o := f.fTypes[sect].fileOffset + adr;
      && FirstType(Heads(f.fTypes), f.tcells, name, o) && t == DefAt(f.tcells, o)
      && (o in f.tcells || BlankSlot(f.filp.bytes, f.fTypes[sect].View(), o))
    ensures !ok ==> NoType(Heads(f.fTypes), f.tcells, name)
    ensures NoNul(name) && name != [] && ok ==> FirstPlainly(f.tcells, name, f.fTypes[sect].fileOffset + adr)
    ensures NoNul(name) && name != [] && !ok ==> NonePlainly(f.tcells, name)
    ensures ok ==> var o := f.fTypes[sect].fileOffset + adr; o in f.tcells && NamesNoNul(f.tcells[o].def) ==> t == f.tcells[o].def
  {
    hide Inv, At, TypesRep, Sub, FirstMatch, NoMatch, StrEq, StrCopy, BlankSlot, FirstType, NoType, Copied, NoNul, NamesNoNul, FirstPlainly, NonePlainly;
    ghost var s := f.View();
    sect := 0;
    while sect < |f.fTypes|
      invariant sect <= |f.fTypes|
      invariant forall j :: 0 <= j < sect ==> NoMatch(s.types[j].base, s.types[j].lip, Sub(f.tcells, s.types[j].base), name)
    {
      InvTypes(s, sect);
      ok, t, adr := Typ.Find(f.fTypes[sect], name, Sub(f.tcells, f.fTypes[sect].fileOffset));
      if ok {
        ghost var o := f.fTypes[sect].fileOffset + adr;
        BlankInside(s, sect, o);
        SubIff(s.tcells, s.types[sect].base, o);
        FirstOfAll(s, sect, name, o);
        TypePlain(s.types, s.tcells, name, o);
        return;
      }
      sect := sect + 1;
    }
    ok, t, adr := false, BLANK, 0;
    NoneOfAll(s, name);
    TypePlain(s.types, s.tcells, name, 0);
  }

  /** A real name, without NUL, is looked up byte for byte, and such a type reads back as it was stored. */
  lemma TypePlain(hs: seq<Head>, m: map<nat, TypeCell>, name: seq<byte>, x: nat)
    ensures NoNul(name) && name != [] && FirstType(hs, m, name, x) ==> FirstPlainly(m, name, x)
    ensures NoNul(name) && name != [] && NoType(hs, m, name) ==> NonePlainly(m, name)
    ensures x in m && NamesNoNul(m[x].def) ==> DefAt(m, x) == m[x].def
  {
    hide StrEq, StrCopy, FreeIn, NoNul, NamesNoNul, Copied;
    if NoNul(name) && name != [] {
      NamePlain(m, name);
      forall y | y in m && m[y].def.name == name ensures TypeMatch(hs, m, name, y) {
      }
    }
    if x in m {
      CopiedExact(m[x].def);
    }
  }

  /** What a section's look-up finds lies inside the section. */
  lemma BlankInside(s: Snap, i: nat, o: nat)
    requires Inv(s) && i < |s.types| && s.types[i].base <= o
    requires o in Sub(s.tcells, s.types[i].base) || BlankSlot(s.d, s.types[i], o)
    ensures InSect(s.types[i].base, o)
  {
    hide Inv, ZeroOn;
    TypeSlotInside(s, i);
  }

  /** A match lies in one of the sections, and matches there. */
  lemma MatchHome(s: Snap, name: seq<byte>, y: nat) returns (j: nat)
    requires Inv(s) && TypeMatch(s.types, s.tcells, name, y)
    ensures j < |s.types| && s.types[j].base <= y
    ensures Match(s.types[j].base, s.types[j].lip, Sub(s.tcells, s.types[j].base), name, y)
  {
    hide ExtsOk, TypesOk, Tiled, Disjoint, Holds, StrEq, StrCopy, FreeSlot;
    if y in s.tcells {
      assert Homed(s.types, y);
      j :| 0 <= j < |s.types| && InSect(s.types[j].base, y);
    } else {
      j :| 0 <= j < |s.types| && FreeSlot(s.types[j].base, s.types[j].lip, Sub(s.tcells, s.types[j].base), y);
      FreeAbove(s.types[j].base, s.types[j].lip, Sub(s.tcells, s.types[j].base), y);
    }
  }

  lemma FreeAbove(base: nat, lip: nat, m: map<nat, TypeCell>, x: nat)
    requires FreeSlot(base, lip, m, x)
    ensures base <= x
  {
    hide Aligned;
  }

  /** Sections are listed in ascending order, so the first section with a match has the lowest match. */
  lemma FirstOfAll(s: Snap, i: nat, name: seq<byte>, o: nat)
    requires Inv(s) && i < |s.types| && InSect(s.types[i].base, o)
    requires forall j :: 0 <= j < i ==> NoMatch(s.types[j].base, s.types[j].lip, Sub(s.tcells, s.types[j].base), name)
    requires FirstMatch(s.types[i].base, s.types[i].lip, Sub(s.tcells, s.types[i].base), name, o)
    ensures FirstType(s.types, s.tcells, name, o) && DefAt(s.tcells, o) == DefAt(Sub(s.tcells, s.types[i].base), o)
  {
    hide ExtsOk, TypesOk, Tiled, AllHomed, Disjoint, Holds, StrEq, StrCopy, Copied, FreeSlot, Inv;
    SubIff(s.tcells, s.types[i].base, o);
    assert TypeMatch(s.types, s.tcells, name, o);
    forall y | TypeMatch(s.types, s.tcells, name, y) ensures o <= y {
      var j := MatchHome(s, name, y);
      assert j >= i;
      SectionsAscend(s, i, j);
    }
  }

  lemma SectionsAscend(s: Snap, i: nat, j: nat)
    requires Inv(s) && i <= j < |s.types|
    ensures i < j ==> s.types[i].base + SECTION_SIZE <= s.types[j].base
  {
    hide ExtsOk, TypesOk, Tiled, AllHomed, Disjoint, Holds;
  }

  lemma NoneOfAll(s: Snap, name: seq<byte>)
    requires Inv(s)
    requires forall j :: 0 <= j < |s.types| ==> NoMatch(s.types[j].base, s.types[j].lip, Sub(s.tcells, s.types[j].base), name)
    ensures NoType(s.types, s.tcells, name)
  {
    hide Inv, StrEq, StrCopy, FreeSlot, TypeMatch, Match;
    forall y ensures !TypeMatch(s.types, s.tcells, name, y) {
      if TypeMatch(s.types, s.tcells, name, y) {
        var j := MatchHome(s, name, y);
      }
    }
  }

  /** Every type section can be scanned from its record border. */
  ghost predicate TypesScannable(m: map<nat, TypeCell>, base: nat) {
    TCellsWf(Sub(m, base)) && LowestLed(TEntries(Sub(m, base)))
  }

  /**
   Deletes the first type with a name; every other type stays where it is. The empty name may find a
   zeroed slot instead, and then no type goes. The file stays sound exactly when the lowest record left
   in the section does not begin with a zero byte.
   */
  method DeleteType(f: File, name: seq<byte>) returns (ok: bool, ghost foff: nat, ghost home: nat)
    requires f.Valid()
    modifies f, f.filp, f.fTypes
    ensures TypesKept(f) && f.fTypes == old(f.fTypes) && f.lstSectPtr == old(f.lstSectPtr) && f.Distinct()
    ensures ok ==> FirstType(old(Heads(f.fTypes)), old(f.tcells), name, foff) && f.tcells == old(f.tcells) - {foff}
    ensures ok ==> home < |f.fTypes| && InSect(f.fTypes[home].fileOffset, foff)
    ensures ok ==> (f.Valid() <==> TypesScannable(f.tcells, f.fTypes[home].fileOffset))
    ensures !ok ==> NoType(old(Heads(f.fTypes)), old(f.tcells), name) && f.tcells == old(f.tcells) && f.Valid()
  {
    hide Inv, Heads, At, TypesRep, SameOutside, Same, Sub, SameBut, LowestLed, FirstType, NoType, StrEq, StrCopy, BlankSlot, DefAt, TEntries, ZeroOn;
    ghost var s := f.View();
    var t: TypeDef, adr: nat, sect: nat;
    ok, t, adr, sect := FindType(f, name);
    foff, home := 0, sect;
    if !ok {
      return;
    }
    var base := f.fTypes[sect].fileOffset;
    ghost var o := base + adr;
    foff := o;
    InvTypes(s, sect);
    SubIff(s.tcells, base, o);
    Typ.Delete(f.fTypes[sect], adr, Sub(f.tcells, base));
    f.tcells := f.tcells - {o};
    SubDrop(s.tcells, base, o);
    SameButDrop(s.tcells, base, o);
    ghost var s1 := f.View();
    assert TypesStepped(s, s1, sect);
    TypesStepIff(s, s1, sect);
    f.HeadSync();
    HeadAgain(s, s1, f.filp.bytes, sect);
    assert f.View() == s1.(d := f.filp.bytes);
  }

  /** After a step inside one section, the file is sound exactly when that section is. */
  lemma TypesStepIff(s: Snap, s': Snap, i: nat)
    requires Inv(s) && TypesStepped(s, s', i)
    ensures Inv(s') <==> TypesRep(s'.d, s'.types[i], Sub(s'.tcells, s'.types[i].base))
  {
    hide Inv, TypesRep, SameOutside, SameBut;
    if TypesRep(s'.d, s'.types[i], Sub(s'.tcells, s'.types[i].base)) {
      TypesStep(s, s', i);
    }
    if Inv(s') {
      InvTypes(s', i);
    }
  }

  /** The header that is synced last is on disk already, sound file or not. */
  lemma HeadAgain(s: Snap, s': Snap, d: seq<byte>, i: nat)
    requires Inv(s) && TypesStepped(s, s', i) && Written(s'.d, d, 0, Le(s'.lsp, 8))
    ensures Inv(s'.(d := d)) <==> Inv(s')
  {
    hide Inv, At, Written, Holds, Le, Same, SameOutside, SameBut;
    InvHead(s);
    InvTypes(s, i);
    HeadSame(s.d, s'.d, s.types[i].base, s.lsp);
    RewriteSame(s'.d, d, 0, Le(s'.lsp, 8));
    SameBack(s'.d, d);
    if Inv(s') {
      SameInv(s', d);
    }
    if Inv(s'.(d := d)) {
      SameInv(s'.(d := d), s'.d);
      assert s'.(d := d).(d := s'.d) == s';
    }
  }

  lemma SameBack(d: seq<byte>, d': seq<byte>)
    requires Same(d, d')
    ensures Same(d', d)
  {
  }

  /** Names without NUL leave every section scannable. */
  lemma LedScannable(m: map<nat, TypeCell>, base: nat)
    requires TypesLed(m) && forall o :: o in m ==> TCellWf(m[o])
    ensures TypesScannable(m, base)
  {
    hide LowestLed, NamesNoNul, TCellWf, TEntries;
    LedTEntries(Sub(m, base));
  }

  /** The type stored at an offset: a zeroed slot reads as a nameless type, an offset outside all type sections as none. */
  method ReadType(f: File, foff: nat) returns (ok: bool, t: TypeDef)
    requires f.Valid()
    requires foff in f.tcells || (Homed(f.View().types, foff) ==> ZeroOn(f.filp.bytes, foff, foff + TENT_SIZE))
    ensures ok <==> Homed(f.View().types, foff)
    ensures ok ==> t == DefAt(f.tcells, foff)
    ensures foff in f.tcells ==> ok
  {
    hide Inv, At, TypesRep, Sub, ZeroOn, Copied;
    ghost var s := f.View();
    var i: nat;
    ok, i := f.GetSectTypes(foff);
    HomeOfType(s, foff);
    if !ok {
      t := BLANK;
      return;
    }
    InvTypes(s, i);
    var base := f.fTypes[i].fileOffset;
    assert InSect(s.types[i].base, foff);
    SubIff(s.tcells, base, foff);
    var phSz: nat;
    t, phSz := Typ.Read(f.fTypes[i], f.fTypes[i].GetSectoff(foff), Sub(f.tcells, base));
  }

  lemma HomeOfType(s: Snap, foff: nat)
    requires Inv(s)
    ensures foff in s.tcells ==> Homed(s.types, foff)
    ensures Homed(s.types, foff) ==> foff != 0
  {
    hide ExtsOk, TypesOk, Tiled, Disjoint, Holds;
  }
}
