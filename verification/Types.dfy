/** Type sections: a type entity, its attribute entities, and one contiguous block of names. */
module Types {
  import opened Bytes
  import opened Disk
  import opened Section
  import opened SectionHeader
  import opened Json

  const TENT_SIZE := 24

  datatype Attr = Attr(name: seq<byte>, ty: JsonType)

  datatype TypeDef = TypeDef(name: seq<byte>, attrs: seq<Attr>)

  /** A stored type: its definition, and the section offset of its name. */
  datatype TypeCell = TypeCell(def: TypeDef, ptr: u64)

  /** Summed sizes of the attribute names: the loop of type_rec_sz. */
  function NamesLen(attrs: seq<Attr>): nat {
    if attrs == [] then 0 else NamesLen(attrs[..|attrs| - 1]) + |attrs[|attrs| - 1].name|
  }

  function ItmSz(t: TypeDef): nat {
    TENT_SIZE + TENT_SIZE * |t.attrs|
  }

  function RecSz(t: TypeDef): nat {
    |t.name| + NamesLen(t.attrs)
  }

  /** The attribute entities; each name lies right below the one before it. */
  function AttrWords(attrs: seq<Attr>, ptr: u64): (ws: seq<u64>)
    requires NamesLen(attrs) <= ptr
    ensures |ws| == 3 * |attrs|
  {
    if attrs == [] then [] else
      var a := attrs[|attrs| - 1];
      AttrWords(attrs[..|attrs| - 1], ptr) + [|a.name|, ptr - NamesLen(attrs), TypeCode(a.ty)]
  }

  /** The attribute names as they lie in the record, last attribute lowest. */
  function AttrRec(attrs: seq<Attr>): (r: seq<byte>)
    ensures |r| == NamesLen(attrs)
  {
    if attrs == [] then [] else attrs[|attrs| - 1].name + AttrRec(attrs[..|attrs| - 1])
  }

  /** The item while `attrs` of its `cnt` attributes have been written. */
  function ItemWords(name: seq<byte>, cnt: u64, attrs: seq<Attr>, ptr: u64): (ws: seq<u64>)
    requires NamesLen(attrs) <= ptr && |name| < TWO_64
    ensures |ws| == 3 + 3 * |attrs|
  {
    [|name|, ptr, cnt] + AttrWords(attrs, ptr)
  }

  ghost predicate TCellWf(c: TypeCell) {
    && |c.def.name| < TWO_64 && |c.def.attrs| < TWO_64
    && NamesLen(c.def.attrs) < c.ptr
  }

  ghost function TEntry(c: TypeCell): Entry
    requires TCellWf(c)
  {
    Entry(Words(ItemWords(c.def.name, |c.def.attrs|, c.def.attrs, c.ptr)),
          c.ptr - NamesLen(c.def.attrs), AttrRec(c.def.attrs) + c.def.name)
  }

  ghost predicate TCellsWf(m: map<nat, TypeCell>) {
    forall o :: o in m ==> TCellWf(m[o])
  }

  ghost function TEntries(m: map<nat, TypeCell>): map<nat, Entry>
    requires TCellsWf(m)
  {
    map o | o in m :: TEntry(m[o])
  }

  ghost predicate TypesRep(d: seq<byte>, h: Head, m: map<nat, TypeCell>) {
    TCellsWf(m) && Rep(d, h, Kind.Types, TEntries(m))
  }

  lemma TEntriesPush(m: map<nat, TypeCell>, o: nat, c: TypeCell)
    requires TCellsWf(m) && TCellWf(c)
    ensures TCellsWf(m[o := c]) && TEntries(m[o := c]) == TEntries(m)[o := TEntry(c)]
  {
    hide TEntry, TCellWf;
  }

  lemma TEntriesDrop(m: map<nat, TypeCell>, o: nat)
    requires TCellsWf(m)
    ensures TCellsWf(m - {o}) && TEntries(m - {o}) == TEntries(m) - {o}
  {
    hide TEntry, TCellWf;
  }

  /** A record whose names contain no NUL cannot be mistaken for free space. */
  predicate NamesNoNul(t: TypeDef) {
    NoNul(t.name) && forall i :: 0 <= i < |t.attrs| ==> NoNul(t.attrs[i].name)
  }

  ghost predicate TypesLed(m: map<nat, TypeCell>) {
    forall o :: o in m ==> NamesNoNul(m[o].def)
  }

  lemma {:induction false} AttrRecNoNul(attrs: seq<Attr>)
    requires forall i :: 0 <= i < |attrs| ==> NoNul(attrs[i].name)
    ensures NoNul(AttrRec(attrs))
  {
    if attrs != [] {
      AttrRecNoNul(attrs[..|attrs| - 1]);
    }
  }

  lemma LedTEntries(m: map<nat, TypeCell>)
    requires TypesLed(m) && TCellsWf(m)
    ensures AllLed(TEntries(m)) && LowestLed(TEntries(m))
  {
    hide ItemWords, Words;
    forall o | o in m && TEntries(m)[o].rec != [] ensures TEntries(m)[o].rec[0] != 0 {
      AttrRecNoNul(m[o].def.attrs);
    }
  }

  // ---------------------------------------------------------------- layout of one type

  /** A three-word slot of a structure. */
  lemma WordsSlot(ws: seq<u64>, j: nat)
    requires 3 * j + 3 <= |ws|
    ensures Words(ws)[24 * j..24 * j + 24] == Words(ws[3 * j..3 * j + 3])
  {
    var a, b := Words(ws)[24 * j..24 * j + 24], Words(ws[3 * j..3 * j + 3]);
    forall p | 0 <= p < 24 ensures a[p] == b[p] {
      assert (24 * j + p) / 8 == 3 * j + p / 8 && (24 * j + p) % 8 == p % 8;
    }
  }

  lemma {:induction false} NamesLenPrefix(attrs: seq<Attr>, i: nat)
    requires i < |attrs|
    ensures NamesLen(attrs[..i + 1]) == NamesLen(attrs[..i]) + |attrs[i].name|
    ensures NamesLen(attrs[..i + 1]) <= NamesLen(attrs)
  {
    assert attrs[..i + 1][..i] == attrs[..i];
    if i + 1 < |attrs| {
      var t := attrs[..|attrs| - 1];
      NamesLenPrefix(t, i);
      assert t[..i + 1] == attrs[..i + 1];
    } else {
      assert attrs[..i + 1] == attrs;
    }
  }

  /** Where attribute `i` is described in the item. */
  lemma {:induction false} AttrWordsAt(attrs: seq<Attr>, ptr: u64, i: nat)
    requires i < |attrs| && NamesLen(attrs) <= ptr
    ensures NamesLen(attrs[..i + 1]) <= ptr
    ensures AttrWords(attrs, ptr)[3 * i..3 * i + 3] == [|attrs[i].name|, ptr - NamesLen(attrs[..i + 1]), TypeCode(attrs[i].ty)]
  {
    NamesLenPrefix(attrs, i);
    var t := attrs[..|attrs| - 1];
    if i + 1 == |attrs| {
      assert attrs[..i + 1] == attrs;
    } else {
      AttrWordsAt(t, ptr, i);
      assert t[..i + 1] == attrs[..i + 1];
    }
  }

  lemma AttrRecLast(attrs: seq<Attr>)
    requires attrs != []
    ensures var t, name := attrs[..|attrs| - 1], attrs[|attrs| - 1].name;
      AttrRec(attrs) == name + AttrRec(t) && NamesLen(attrs) == |name| + NamesLen(t)
  {
  }

  /** Where attribute `i`'s name lies in the record. */
  lemma {:induction false} AttrRecAt(attrs: seq<Attr>, i: nat)
    requires i < |attrs|
    ensures NamesLen(attrs[..i + 1]) <= NamesLen(attrs)
    ensures |attrs[i].name| <= NamesLen(attrs[..i + 1])
    ensures var k := NamesLen(attrs) - NamesLen(attrs[..i + 1]);
      AttrRec(attrs)[k..k + |attrs[i].name|] == attrs[i].name
  {
    hide AttrRec, NamesLen;
    NamesLenPrefix(attrs, i);
    AttrRecLast(attrs);
    var t, last := attrs[..|attrs| - 1], attrs[|attrs| - 1].name;
    if i + 1 == |attrs| {
      assert attrs[..i + 1] == attrs;
      assert (last + AttrRec(t))[0..|last|] == last;
    } else {
      AttrRecAt(t, i);
      assert t[..i + 1] == attrs[..i + 1] && t[i] == attrs[i];
      SliceBehind(last, AttrRec(t), NamesLen(t) - NamesLen(t[..i + 1]), |attrs[i].name|);
    }
  }

  lemma SliceBehind(a: seq<byte>, b: seq<byte>, k: nat, n: nat)
    requires k + n <= |b|
    ensures (a + b)[|a| + k..|a| + k + n] == b[k..k + n]
  {
  }

  lemma HoldsPart(d: seq<byte>, off: nat, s: seq<byte>, i: nat, j: nat)
    requires Holds(d, off, s) && i <= j <= |s|
    ensures Holds(d, off + i, s[i..j])
  {
    hide At;
  }

  lemma ItemTail(name: seq<byte>, cnt: u64, attrs: seq<Attr>, ptr: u64)
    requires NamesLen(attrs) <= ptr && |name| < TWO_64
    ensures ItemWords(name, cnt, attrs, ptr)[3 * |attrs| + 1] == ptr - NamesLen(attrs)
  {
  }

  lemma ItemLiveTail(name: seq<byte>, cnt: u64, attrs: seq<Attr>, ptr: u64)
    requires NamesLen(attrs) < ptr && |name| < TWO_64
    ensures LiveTail(Kind.Types, Words(ItemWords(name, cnt, attrs, ptr)))
  {
    hide ItemWords, Words;
    ItemTail(name, cnt, attrs, ptr);
    var q := NonZeroWord(ItemWords(name, cnt, attrs, ptr), 3 * |attrs| + 1);
  }

  lemma SlotsAligned(n: int)
    ensures Aligned(Kind.Types, TENT_SIZE * n)
  {
    assert Slots(Kind.Types, n) == TENT_SIZE * n;
  }

  // ---------------------------------------------------------------- write

  method TypePhSz(t: TypeDef) returns (n: nat)
    ensures n == ItmSz(t) + RecSz(t)
  {
    n := |t.name|;
    for i := 0 to |t.attrs|
      invariant n == |t.name| + NamesLen(t.attrs[..i])
    {
      assert t.attrs[..i + 1][..i] == t.attrs[..i];
      n := n + |t.attrs[i].name|;
    }
    assert t.attrs[..|t.attrs|] == t.attrs;
    n := n + TENT_SIZE + TENT_SIZE * |t.attrs|;
  }

  /** One name below the record so far and one slot behind the item so far. */
  lemma GrowChain(
    d0: seq<byte>, d: seq<byte>, d1: seq<byte>, d2: seq<byte>, d3: seq<byte>, d4: seq<byte>,
    h: Head, h': Head, h'': Head, hb: seq<byte>, e: Entry, name: seq<byte>, slot: seq<byte>)
    requires Roomy(h) && |hb| == HEAD_SIZE && |e.item| + |slot| + |e.rec| + |name| <= h.free
    requires e.lo == h.frp - |e.rec|
    requires PushedOnDisk(d0, d, h, h', e) && SameOutside(d0, d, h.base, h.base + SECTION_SIZE)
    requires Written(d, d1, h.base, hb) && Written(d1, d2, h.base + e.lo - |name|, name)
    requires Written(d2, d3, h.base + h.lip + |e.item|, slot) && Written(d3, d4, h.base, HeadBytes(h''))
    ensures PushedOnDisk(d0, d4, h, h'', Entry(e.item + slot, e.lo - |name|, name + e.rec))
    ensures SameOutside(d0, d4, h.base, h.base + SECTION_SIZE)
  {
    hide At, HeadBytes;
  }

  /** The state of a section while `attrs` of a type's attributes have been written. */
  ghost predicate Writing(d0: seq<byte>, d: seq<byte>, h: Head, h': Head, t: TypeDef, attrs: seq<Attr>) {
    && Roomy(h) && ItmSz(t) + RecSz(t) <= h.free
    && |attrs| <= |t.attrs| && NamesLen(attrs) <= NamesLen(t.attrs)
    && h' == Pushed(h, TENT_SIZE + TENT_SIZE * |attrs|, |t.name| + NamesLen(attrs))
    && PushedOnDisk(d0, d, h, h', Entry(Words(ItemWords(t.name, |t.attrs|, attrs, h.frp - |t.name|)),
                                       h.frp - |t.name| - NamesLen(attrs), AttrRec(attrs) + t.name))
    && SameOutside(d0, d, h.base, h.base + SECTION_SIZE)
  }

  lemma WritingStart(d0: seq<byte>, d1: seq<byte>, d2: seq<byte>, d3: seq<byte>, d4: seq<byte>,
                     h: Head, h': Head, hb: seq<byte>, t: TypeDef)
    requires Roomy(h) && ItmSz(t) + RecSz(t) <= h.free && |hb| == HEAD_SIZE
    requires Holds(d0, h.base, HeadBytes(h))
    requires h' == Pushed(h, TENT_SIZE, |t.name|)
    requires Written(d0, d1, h.base, hb) && Written(d1, d2, h.base + h.frp - |t.name|, t.name)
    requires Written(d2, d3, h.base + h.lip, Words([|t.name|, h.frp - |t.name|, |t.attrs|])) && Written(d3, d4, h.base, HeadBytes(h'))
    ensures Writing(d0, d4, h, h', t, [])
  {
    hide At, HeadBytes, Words, Written, Holds;
    var e := Entry([], h.frp, []);
    EmptyPush(d0, h, e);
    var slot := Words([|t.name|, h.frp - |t.name|, |t.attrs|]);
    GrowChain(d0, d0, d1, d2, d3, d4, h, h, h', hb, e, t.name, slot);
    assert [] + slot == slot && t.name + [] == t.name && AttrRec([]) + t.name == t.name;
    assert ItemWords(t.name, |t.attrs|, [], h.frp - |t.name|) == [|t.name|, h.frp - |t.name|, |t.attrs|];
  }

  lemma EmptyPush(d: seq<byte>, h: Head, e: Entry)
    requires Holds(d, h.base, HeadBytes(h)) && e == Entry([], h.frp, [])
    ensures PushedOnDisk(d, d, h, h, e) && SameOutside(d, d, h.base, h.base + SECTION_SIZE)
  {
    hide At, HeadBytes;
  }

  lemma ItemGrow(name: seq<byte>, cnt: u64, attrs: seq<Attr>, i: nat, ptr: u64)
    requires i < |attrs| && NamesLen(attrs[..i + 1]) <= ptr && |name| < TWO_64
    ensures NamesLen(attrs[..i + 1]) == NamesLen(attrs[..i]) + |attrs[i].name|
    ensures Words(ItemWords(name, cnt, attrs[..i + 1], ptr)) ==
      Words(ItemWords(name, cnt, attrs[..i], ptr)) + Words([|attrs[i].name|, ptr - NamesLen(attrs[..i + 1]), TypeCode(attrs[i].ty)])
    ensures AttrRec(attrs[..i + 1]) == attrs[i].name + AttrRec(attrs[..i])
  {
    hide Words;
    NamesLenPrefix(attrs, i);
    assert attrs[..i + 1][..i] == attrs[..i];
    var slot := [|attrs[i].name|, ptr - NamesLen(attrs[..i + 1]), TypeCode(attrs[i].ty)];
    WordsConcat(ItemWords(name, cnt, attrs[..i], ptr), slot);
    assert ItemWords(name, cnt, attrs[..i + 1], ptr) == ItemWords(name, cnt, attrs[..i], ptr) + slot;
  }

  lemma WritingStep(d0: seq<byte>, d: seq<byte>, d1: seq<byte>, d2: seq<byte>, d3: seq<byte>, d4: seq<byte>,
                    h: Head, h': Head, h'': Head, hb: seq<byte>, t: TypeDef, i: nat)
    requires i < |t.attrs| && Writing(d0, d, h, h', t, t.attrs[..i]) && |hb| == HEAD_SIZE
    requires |t.attrs[i].name| <= h'.frp && |t.attrs[i].name| + TENT_SIZE <= h'.free
    requires h'' == Pushed(h', TENT_SIZE, |t.attrs[i].name|)
    requires Written(d, d1, h.base, hb) && Written(d1, d2, h.base + h''.frp, t.attrs[i].name)
    requires Written(d2, d3, h.base + h'.lip, Words([|t.attrs[i].name|, h''.frp, TypeCode(t.attrs[i].ty)]))
    requires Written(d3, d4, h.base, HeadBytes(h''))
    ensures Writing(d0, d4, h, h'', t, t.attrs[..i + 1])
  {
    hide At, HeadBytes, Words, Written, Holds, ItemWords, AttrRec, SameOutside, PushedOnDisk, TypeCode;
    NamesLenPrefix(t.attrs, i);
    var ptr := h.frp - |t.name|;
    var attrs, name := t.attrs[..i], t.attrs[i].name;
    var e := Entry(Words(ItemWords(t.name, |t.attrs|, attrs, ptr)), ptr - NamesLen(attrs), AttrRec(attrs) + t.name);
    var slot := Words([|name|, h''.frp, TypeCode(t.attrs[i].ty)]);
    GrowChain(d0, d, d1, d2, d3, d4, h, h', h'', hb, e, name, slot);
    ItemGrow(t.name, |t.attrs|, t.attrs, i, ptr);
    assert name + (AttrRec(attrs) + t.name) == AttrRec(t.attrs[..i + 1]) + t.name;
  }

  lemma WritingDone(d: seq<byte>, d': seq<byte>, h: Head, h': Head, t: TypeDef, m: map<nat, TypeCell>)
    requires TypesRep(d, h, m) && Writing(d, d', h, h', t, t.attrs)
    ensures h.base + h.lip !in m
    ensures TypesRep(d', h', m[h.base + h.lip := TypeCell(t, h.frp - |t.name|)])
  {
    hide Rep, PushedOnDisk, SameOutside, Words, Aligned, LiveTail, AttrRec, ItemWords;
    var c := TypeCell(t, h.frp - |t.name|);
    SlotsAligned(1 + |t.attrs|);
    ItemLiveTail(t.name, |t.attrs|, t.attrs, c.ptr);
    PushRep(d, d', h, Kind.Types, TEntries(m), TEntry(c));
    TEntriesPush(m, h.base + h.lip, c);
  }

  lemma TypesHead(d: seq<byte>, h: Head, m: map<nat, TypeCell>)
    requires TypesRep(d, h, m)
    ensures Holds(d, h.base, HeadBytes(h)) && Roomy(h)
  {
  }

  method Write(s: SectHead, t: TypeDef, ghost m: map<nat, TypeCell>) returns (ok: bool, wrtSoff: nat)
    requires TypesRep(s.filp.bytes, s.View(), m)
    requires ItmSz(t) + RecSz(t) < TWO_64
    modifies s, s.filp
    ensures ok <==> ItmSz(t) + RecSz(t) <= old(s.freeSpace)
    ensures !ok ==> s.View() == old(s.View()) && s.filp.bytes == old(s.filp.bytes)
    ensures ok ==>
      && wrtSoff == old(s.lstItmPtr) && RecSz(t) <= old(s.fstRecPtr)
      && old(s.lstItmPtr) + ItmSz(t) < TWO_64 && s.View() == Pushed(old(s.View()), ItmSz(t), RecSz(t))
      && s.fileOffset + wrtSoff !in m
      && TypesRep(s.filp.bytes, s.View(), m[s.fileOffset + wrtSoff := TypeCell(t, old(s.fstRecPtr) - |t.name|)])
    ensures SameOutside(old(s.filp.bytes), s.filp.bytes, s.fileOffset, s.fileOffset + SECTION_SIZE)
  {
    hide At, TypesRep, Add64, Neg64, HeadBytes, Written, SameOutside, Words, Holds, PushedOnDisk, ItemWords, AttrRec, NamesLen;
    wrtSoff := 0;
    var phSz := TypePhSz(t);
    if s.freeSpace < phSz {
      ok := false;
      Unchanged(s.filp.bytes, s.fileOffset);
      return;
    }
    ghost var h, d0 := s.View(), s.filp.bytes;
    TypesHead(d0, h, m);

    AddNeg(s.freeSpace, |t.name|);
    AddNeg(s.fstRecPtr, |t.name|);
    s.ShiftFrp(Neg64(|t.name|));
    ghost var d1, hb := s.filp.bytes, HeadBytes(s.View());
    s.Write(s.fstRecPtr, t.name);
    ghost var d2 := s.filp.bytes;
    wrtSoff := s.lstItmPtr;
    s.Write(s.lstItmPtr, Words([|t.name|, s.fstRecPtr, |t.attrs|]));
    ghost var d3 := s.filp.bytes;
    AddNeg(s.freeSpace, TENT_SIZE);
    s.ShiftLip(TENT_SIZE);
    WritingStart(d0, d1, d2, d3, s.filp.bytes, h, s.View(), hb, t);
    NoAttrs(t);

    var i := 0;
    while i < |t.attrs|
      invariant 0 <= i <= |t.attrs|
      invariant Writing(d0, s.filp.bytes, h, s.View(), t, t.attrs[..i])
    {
      WriteAttr(s, t, i, d0, h);
      i := i + 1;
    }
    assert t.attrs[..i] == t.attrs;
    WritingDone(d0, s.filp.bytes, h, s.View(), t, m);
    ok := true;
  }

  /** One turn of the attribute loop of sect_types_write. */
  method WriteAttr(s: SectHead, t: TypeDef, i: nat, ghost d0: seq<byte>, ghost h: Head)
    requires i < |t.attrs| && Writing(d0, s.filp.bytes, h, s.View(), t, t.attrs[..i])
    modifies s, s.filp
    ensures Writing(d0, s.filp.bytes, h, s.View(), t, t.attrs[..i + 1])
  {
    hide At, Add64, Neg64, HeadBytes, Written, SameOutside, Words, Holds, PushedOnDisk, ItemWords, AttrRec, NamesLen;
    var name := t.attrs[i].name;
    ghost var d, h' := s.filp.bytes, s.View();
    NamesLenPrefix(t.attrs, i);
    AddNeg(s.freeSpace, |name|);
    AddNeg(s.fstRecPtr, |name|);
    s.ShiftFrp(Neg64(|name|));
    ghost var d1, hb := s.filp.bytes, HeadBytes(s.View());
    s.Write(s.fstRecPtr, name);
    ghost var d2 := s.filp.bytes;
    s.Write(s.lstItmPtr, Words([|name|, s.fstRecPtr, TypeCode(t.attrs[i].ty)]));
    ghost var d3 := s.filp.bytes;
    AddNeg(s.freeSpace, TENT_SIZE);
    s.ShiftLip(TENT_SIZE);
    WritingStep(d0, d, d1, d2, d3, s.filp.bytes, h, h', s.View(), hb, t, i);
  }

  lemma NoAttrs(t: TypeDef)
    ensures t.attrs[..0] == [] && NamesLen([]) == 0
  {
  }

  lemma Unchanged(d: seq<byte>, base: nat)
    ensures SameOutside(d, d, base, base + SECTION_SIZE)
  {
  }

  // ---------------------------------------------------------------- read

  /** What a stored type reads as. */
  function Copied(t: TypeDef): (r: TypeDef)
    ensures |r.attrs| == |t.attrs|
  {
    TypeDef(StrCopy(t.name), seq(|t.attrs|, i requires 0 <= i < |t.attrs| => Attr(StrCopy(t.attrs[i].name), t.attrs[i].ty)))
  }

  /** A type reads back as it was stored exactly when all its names are C strings. */
  lemma CopiedExact(t: TypeDef)
    ensures Copied(t).name == StrCopy(t.name)
    ensures forall i :: 0 <= i < |t.attrs| ==> Copied(t).attrs[i].name == StrCopy(t.attrs[i].name) && Copied(t).attrs[i].ty == t.attrs[i].ty
    ensures Copied(t) == t <==> StrCopy(t.name) == t.name && forall i :: 0 <= i < |t.attrs| ==> StrCopy(t.attrs[i].name) == t.attrs[i].name
    ensures NamesNoNul(t) ==> Copied(t) == t
  {
    hide StrCopy;
    var c := Copied(t);
    if StrCopy(t.name) == t.name && forall i :: 0 <= i < |t.attrs| ==> StrCopy(t.attrs[i].name) == t.attrs[i].name {
      assert c.attrs == t.attrs;
    }
    if Copied(t) == t {
      forall i | 0 <= i < |t.attrs| ensures StrCopy(t.attrs[i].name) == t.attrs[i].name {
        assert c.attrs[i] == t.attrs[i];
      }
    }
    if NamesNoNul(t) {
      StrCopyExact(t.name);
      forall i | 0 <= i < |t.attrs| ensures StrCopy(t.attrs[i].name) == t.attrs[i].name {
        StrCopyExact(t.attrs[i].name);
      }
      assert c.attrs == t.attrs;
    }
  }

  /** What a zeroed slot reads as. */
  const BLANK := TypeDef([], [])

  /** Slot `j` of a type's item: the type entity, then attribute `j - 1`. */
  ghost function SlotWords(c: TypeCell, j: nat): (ws: seq<u64>)
    requires TCellWf(c) && j <= |c.def.attrs|
    ensures |ws| == 3
  {
    if j == 0 then [|c.def.name|, c.ptr, |c.def.attrs|] else
      NamesLenPrefix(c.def.attrs, j - 1);
      AttrWordsAt(c.def.attrs, c.ptr, j - 1);
      [|c.def.attrs[j - 1].name|, c.ptr - NamesLen(c.def.attrs[..j]), TypeCode(c.def.attrs[j - 1].ty)]
  }

  ghost function SlotName(c: TypeCell, j: nat): seq<byte>
    requires j <= |c.def.attrs|
  {
    if j == 0 then c.def.name else c.def.attrs[j - 1].name
  }

  lemma TCellBounds(d: seq<byte>, h: Head, m: map<nat, TypeCell>, o: nat)
    requires TypesRep(d, h, m) && o in m
    ensures TCellWf(m[o]) && o in TEntries(m) && TEntries(m)[o] == TEntry(m[o])
    ensures h.base + HEAD_SIZE <= o && o + ItmSz(m[o].def) <= h.base + h.lip && h.lip <= h.frp <= SECTION_SIZE
    ensures m[o].ptr + |m[o].def.name| <= SECTION_SIZE
    ensures m[o].ptr - NamesLen(m[o].def.attrs) + RecSz(m[o].def) == m[o].ptr + |m[o].def.name|
    ensures Holds(d, o, Words(ItemWords(m[o].def.name, |m[o].def.attrs|, m[o].def.attrs, m[o].ptr)))
    ensures Holds(d, h.base + m[o].ptr - NamesLen(m[o].def.attrs), AttrRec(m[o].def.attrs) + m[o].def.name)
  {
    hide Aligned, LiveTail, DeadZero, LipTight, FrpTight, Before, Holds, ItemWords, NamesLen, AttrRec;
    assert EntryFits(h, Kind.Types, o, TEntries(m)[o]);
  }

  lemma SlotOnDisk(d: seq<byte>, h: Head, m: map<nat, TypeCell>, o: nat, j: nat)
    requires TypesRep(d, h, m) && o in m && j <= |m[o].def.attrs|
    ensures TCellWf(m[o]) && Holds(d, o + TENT_SIZE * j, Words(SlotWords(m[o], j)))
  {
    hide TypesRep, Holds, Words, At, NamesLen, TypeCode;
    TCellBounds(d, h, m, o);
    var c := m[o];
    var ws := ItemWords(c.def.name, |c.def.attrs|, c.def.attrs, c.ptr);
    WordsSlot(ws, j);
    HoldsPart(d, o, Words(ws), TENT_SIZE * j, TENT_SIZE * j + TENT_SIZE);
    if j != 0 {
      NamesLenPrefix(c.def.attrs, j - 1);
      AttrWordsAt(c.def.attrs, c.ptr, j - 1);
      var aw := AttrWords(c.def.attrs, c.ptr);
      assert ws[3 * j..3 * j + 3] == aw[3 * (j - 1)..3 * (j - 1) + 3];
    }
    assert ws[3 * j..3 * j + 3] == SlotWords(c, j);
  }

  lemma NameOnDisk(d: seq<byte>, h: Head, m: map<nat, TypeCell>, o: nat, j: nat)
    requires TypesRep(d, h, m) && o in m && j <= |m[o].def.attrs|
    ensures TCellWf(m[o]) && Holds(d, h.base + SlotWords(m[o], j)[1], SlotName(m[o], j))
  {
    hide TypesRep, Holds, Words, At, NamesLen, AttrRec, TypeCode;
    TCellBounds(d, h, m, o);
    var c := m[o];
    var attrs := c.def.attrs;
    var rec, n := AttrRec(attrs) + c.def.name, NamesLen(attrs);
    if j == 0 {
      HoldsPart(d, h.base + c.ptr - n, rec, n, |rec|);
      assert rec[n..|rec|] == c.def.name;
    } else {
      NamesLenPrefix(attrs, j - 1);
      AttrRecAt(attrs, j - 1);
      var k := n - NamesLen(attrs[..j]);
      HoldsPart(d, h.base + c.ptr - n, rec, k, k + |attrs[j - 1].name|);
      assert rec[k..k + |attrs[j - 1].name|] == AttrRec(attrs)[k..k + |attrs[j - 1].name|];
    }
  }

  /** Reads a type entity or an attribute entity: they share their 24-byte layout. */
  method RdSlot(s: SectHead, soff: nat) returns (w: seq<u64>)
    ensures |w| == 3
    ensures forall ws: seq<u64> :: |ws| == 3 && Holds(s.filp.bytes, s.fileOffset + soff, Words(ws)) ==> w == ws
    ensures ZeroOn(s.filp.bytes, s.fileOffset + soff, s.fileOffset + soff + TENT_SIZE) ==> w == [0, 0, 0]
  {
    hide At, Words;
    var data := s.Read(soff, TENT_SIZE);
    w := FromWords(data, 3);
    forall ws: seq<u64> | |ws| == 3 && Holds(s.filp.bytes, s.fileOffset + soff, Words(ws)) ensures w == ws {
      HoldsUnique(s.filp.bytes, s.fileOffset + soff, data, Words(ws));
      WordsRoundTrip(ws);
    }
    if ZeroOn(s.filp.bytes, s.fileOffset + soff, s.fileOffset + soff + TENT_SIZE) {
      ZeroHolds(s.filp.bytes, s.fileOffset + soff, data);
      forall i | 0 <= i < 3 ensures w[i] == 0 {
        FromLeZero(data[8 * i..8 * i + 8]);
      }
    }
  }

  /** Reads one name through string_ctor. */
  method RdName(s: SectHead, ptr: nat, size: nat, ghost name: seq<byte>) returns (r: seq<byte>)
    requires Holds(s.filp.bytes, s.fileOffset + ptr, name) && |name| == size
    ensures r == StrCopy(name)
  {
    hide At, Holds, StrCopy;
    var raw := s.Read(ptr, size);
    HoldsUnique(s.filp.bytes, s.fileOffset + ptr, raw, name);
    r := StrCopy(raw);
  }

  /** One turn of the loop of sect_types_read. */
  method ReadAttr(s: SectHead, at: nat, ghost m: map<nat, TypeCell>, ghost o: nat, ghost i: nat) returns (a: Attr)
    requires TypesRep(s.filp.bytes, s.View(), m) && o in m && i < |m[o].def.attrs|
    requires s.fileOffset + at == o + TENT_SIZE * (i + 1)
    ensures a == Copied(m[o].def).attrs[i]
  {
    hide At, TypesRep, Holds, Words, NamesLen, StrCopy, ZeroOn, TypeCode;
    SlotOnDisk(s.filp.bytes, s.View(), m, o, i + 1);
    NameOnDisk(s.filp.bytes, s.View(), m, o, i + 1);
    var w := RdSlot(s, at);
    assert w == SlotWords(m[o], i + 1);
    var name := RdName(s, w[1], w[0], m[o].def.attrs[i].name);
    CodeRoundTrip(m[o].def.attrs[i].ty);
    a := Attr(name, TypeOf(w[2]));
  }

  /** Reads the type at `soff`; a zeroed slot reads as a nameless type of one slot. */
  method Read(s: SectHead, soff: nat, ghost m: map<nat, TypeCell>) returns (t: TypeDef, phSz: nat)
    requires TypesRep(s.filp.bytes, s.View(), m)
    requires s.fileOffset + soff in m || ZeroOn(s.filp.bytes, s.fileOffset + soff, s.fileOffset + soff + TENT_SIZE)
    ensures s.fileOffset + soff in m ==> t == Copied(m[s.fileOffset + soff].def) && phSz == ItmSz(m[s.fileOffset + soff].def)
    ensures s.fileOffset + soff !in m ==> t == BLANK && phSz == TENT_SIZE
  {
    hide At, TypesRep, Holds, Words, NamesLen, StrCopy, ZeroOn, TypeCode;
    ghost var o, d := s.fileOffset + soff, s.filp.bytes;
    var w := RdSlot(s, soff);
    ghost var live := o in m;
    ghost var c := if live then m[o] else TypeCell(BLANK, 1);
    if live {
      SlotOnDisk(d, s.View(), m, o, 0);
      NameOnDisk(d, s.View(), m, o, 0);
      assert w == SlotWords(c, 0);
    } else {
      EmptyHolds(d, s.fileOffset);
    }
    var name := RdName(s, w[1], w[0], c.def.name);
    var attrs: seq<Attr> := [];
    var at := soff + TENT_SIZE;
    for i := 0 to w[2]
      invariant s.filp.bytes == d
      invariant |attrs| == i && at == soff + TENT_SIZE + TENT_SIZE * i
      invariant attrs == Copied(c.def).attrs[..i]
    {
      var a := ReadAttr(s, at, m, o, i);
      attrs := attrs + [a];
      at := at + TENT_SIZE;
    }
    t := TypeDef(name, attrs);
    phSz := at - soff;
    EmptyCopy();
    assert Copied(c.def).attrs[..|c.def.attrs|] == Copied(c.def).attrs;
  }

  lemma CodeRoundTrip(ty: JsonType)
    ensures TypeCode(ty) <= 4 && TypeOf(TypeCode(ty)) == ty
  {
  }

  lemma EmptyHolds(d: seq<byte>, p: nat)
    ensures Holds(d, p, [])
  {
  }

  lemma EmptyCopy()
    ensures Copied(BLANK) == BLANK
  {
  }

  // ---------------------------------------------------------------- delete

  /** Deleting without a border shortcut: the scans start from the old pointers. */
  lemma TDropRep(d: seq<byte>, d': seq<byte>, h: Head, h': Head, m: map<nat, TypeCell>, o: nat)
    requires TypesRep(d, h, m) && o in m
    requires TCellWf(m[o]) && ZeroedOnDisk(d, d', h.base, o, TEntry(m[o]))
    requires Scanned(d', Kind.Types, h, h') && Holds(d', h.base, HeadBytes(h'))
    ensures TCellsWf(m - {o})
    ensures LowestLed(TEntries(m - {o})) <==> TypesRep(d', h', m - {o})
  {
    hide Rep, HeadBytes, Holds, Scanned, ZeroedOnDisk, LowestLed, TEntry, TCellWf, Loose;
    var e := TEntries(m);
    assert o in e && e[o] == TEntry(m[o]);
    DropLoose(d, d', h, Kind.Types, e, o);
    TEntriesDrop(m, o);
    ScansRep(d', h, h', Kind.Types, e - {o});
  }

  lemma TZeroChain(d0: seq<byte>, d1: seq<byte>, d2: seq<byte>, base: nat, o: nat, e: Entry)
    requires base + HEAD_SIZE <= o && o + |e.item| <= base + SECTION_SIZE && e.Hi() <= SECTION_SIZE
    requires e.rec != [] ==> HEAD_SIZE <= e.lo
    requires Written(d0, d1, o, Zeros(|e.item|)) && Written(d1, d2, base + e.lo, Zeros(|e.rec|))
    ensures ZeroedOnDisk(d0, d2, base, o, e)
    ensures SameOutside(d0, d2, base, base + SECTION_SIZE)
  {
    hide At;
  }

  lemma TScanChain(d2: seq<byte>, d3: seq<byte>, d4: seq<byte>, h: Head, h': Head, hb: seq<byte>)
    requires Roomy(h) && |hb| == HEAD_SIZE
    requires LipScanned(d2, h.base, Kind.Types, h.lip, h'.lip) && Written(d2, d3, h.base, hb)
    requires FrpScanned(d3, h.base, h.frp, h'.frp) && Written(d3, d4, h.base, HeadBytes(h'))
    requires h' == WithFrp(WithLip(h, h'.lip), h'.frp)
    ensures Scanned(d4, Kind.Types, h, h') && Holds(d4, h.base, HeadBytes(h'))
    ensures SameOutside(d2, d4, h.base, h.base + HEAD_SIZE)
  {
    hide At, Aligned, HeadBytes;
  }

  lemma TLipAligned(d: seq<byte>, h: Head, m: map<nat, TypeCell>)
    requires TypesRep(d, h, m)
    ensures Aligned(Kind.Types, h.lip - HEAD_SIZE) && Roomy(h)
  {
  }

  /** A block of names never reaches into the header. */
  lemma TRecAbove(d: seq<byte>, h: Head, m: map<nat, TypeCell>, o: nat)
    requires TypesRep(d, h, m) && o in m
    ensures TCellWf(m[o]) && (TEntry(m[o]).rec != [] ==> HEAD_SIZE <= TEntry(m[o]).lo)
  {
    hide Aligned, LiveTail, DeadZero, LipTight, FrpTight, Before, Holds, ItemWords, NamesLen, AttrRec;
    assert EntryFits(h, Kind.Types, o, TEntries(m)[o]);
  }

  /** A zeroed slot among the items. */
  ghost predicate BlankSlot(d: seq<byte>, h: Head, o: nat) {
    h.base + HEAD_SIZE <= o && o + TENT_SIZE <= h.base + h.lip && ZeroOn(d, o, o + TENT_SIZE)
  }

  /** What a delete zeroes. */
  ghost function Doomed(m: map<nat, TypeCell>, o: nat): Entry
    requires o in m ==> TCellWf(m[o])
  {
    if o in m then TEntry(m[o]) else Entry(Zeros(TENT_SIZE), 0, [])
  }

  /** Zeroing a zeroed slot changes nothing, but the scans run all the same. */
  lemma TBlankRep(d: seq<byte>, d': seq<byte>, h: Head, h': Head, m: map<nat, TypeCell>, o: nat)
    requires TypesRep(d, h, m) && o !in m && BlankSlot(d, h, o)
    requires ZeroedOnDisk(d, d', h.base, o, Entry(Zeros(TENT_SIZE), 0, []))
    requires Scanned(d', Kind.Types, h, h') && Holds(d', h.base, HeadBytes(h'))
    ensures LowestLed(TEntries(m)) <==> TypesRep(d', h', m)
  {
    hide At, HeadBytes, Holds, Scanned, LowestLed, TEntry, TCellWf, Aligned, LiveTail, LipTight, FrpTight, Before, DeadZero, OnDisk, Rep;
    var e := TEntries(m);
    BlankLoose(d, d', h, e, o);
    ScansRep(d', h, h', Kind.Types, e);
  }

  lemma BlankLoose(d: seq<byte>, d': seq<byte>, h: Head, e: map<nat, Entry>, o: nat)
    requires Rep(d, h, Kind.Types, e) && BlankSlot(d, h, o)
    requires ZeroedOnDisk(d, d', h.base, o, Entry(Zeros(TENT_SIZE), 0, []))
    ensures Loose(d', h, Kind.Types, e)
  {
    hide At, HeadBytes, Aligned, LiveTail, LipTight, FrpTight, Before, InItem, InRec, Holds;
    assert SameOn(d, d', h.base + HEAD_SIZE, h.base + SECTION_SIZE);
    forall x | x in e ensures Holds(d', x, e[x].item) && Holds(d', h.base + e[x].lo, e[x].rec) {
      assert EntryFits(h, Kind.Types, x, e[x]);
      HoldsFrame(d, d', h.base + HEAD_SIZE, h.base + SECTION_SIZE, x, e[x].item);
      HoldsFrame(d, d', h.base + HEAD_SIZE, h.base + SECTION_SIZE, h.base + e[x].lo, e[x].rec);
    }
  }

  lemma DoomedBounds(d: seq<byte>, h: Head, m: map<nat, TypeCell>, o: nat)
    requires TypesRep(d, h, m) && (o in m || BlankSlot(d, h, o))
    ensures o in m ==> TCellWf(m[o])
    ensures var e := Doomed(m, o);
      && h.base + HEAD_SIZE <= o && o + |e.item| <= h.base + h.lip && h.lip <= SECTION_SIZE && e.Hi() <= SECTION_SIZE
      && (e.rec != [] ==> HEAD_SIZE <= e.lo)
  {
    hide TypesRep, ItemWords, NamesLen, AttrRec, Words, HeadBytes, Holds;
    TLipAligned(d, h, m);
    if o in m {
      TCellBounds(d, h, m, o);
      TRecAbove(d, h, m, o);
    }
  }

  /** The type entity and the last attribute entity bound the item and the block of names. */
  predicate Ends(tEnt: seq<u64>, lstAtr: seq<u64>, itemSize: nat, lo: nat, hi: nat) {
    && |tEnt| == 3 && |lstAtr| == 3
    && TENT_SIZE + TENT_SIZE * tEnt[2] == itemSize && lstAtr[1] == lo && tEnt[0] == hi - tEnt[1]
  }

  lemma EndsLive(c: TypeCell)
    requires TCellWf(c)
    ensures Ends(SlotWords(c, 0), SlotWords(c, |c.def.attrs|), |TEntry(c).item|, TEntry(c).lo, TEntry(c).Hi())
    ensures SlotWords(c, 0)[2] == |c.def.attrs|
  {
    hide Words, NamesLen, TypeCode;
    LastSlot(c);
  }

  /** The two slots that a delete reads. */
  method RdEnds(s: SectHead, delSoff: u64, ghost m: map<nat, TypeCell>, ghost o: nat, ghost e: Entry) returns (tEnt: seq<u64>, lstAtr: seq<u64>)
    requires o in m ==> TCellWf(m[o])
    requires o == s.fileOffset + delSoff && e == Doomed(m, o)
    requires o + |e.item| <= s.fileOffset + SECTION_SIZE
    requires TypesRep(s.filp.bytes, s.View(), m) && (o in m || BlankSlot(s.filp.bytes, s.View(), o))
    ensures Ends(tEnt, lstAtr, |e.item|, e.lo, e.Hi())
  {
    hide At, TypesRep, HeadBytes, Holds, Words, NamesLen, AttrRec, ItemWords, TypeCode, ZeroOn, TEntry, SlotWords;
    ghost var d := s.filp.bytes;
    if o in m {
      SlotOnDisk(d, s.View(), m, o, 0);
      SlotOnDisk(d, s.View(), m, o, |m[o].def.attrs|);
      EndsLive(m[o]);
    }
    tEnt := RdSlot(s, delSoff);
    assert o in m ==> tEnt == SlotWords(m[o], 0);
    var last := LastAttrSoff(delSoff, tEnt[2]);
    lstAtr := RdSlot(s, last);
    assert o in m ==> lstAtr == SlotWords(m[o], |m[o].def.attrs|);
  }

  /**
   Deletes the type at `delSoff`: exactly its item and its block of names are zeroed, for every
   number of attributes. With none, the wrapped index makes the type entity its own last attribute.
   A zeroed slot is deleted as a nameless type: it stays what it was.
   */
  method Delete(s: SectHead, delSoff: u64, ghost m: map<nat, TypeCell>)
    requires TypesRep(s.filp.bytes, s.View(), m)
    requires s.fileOffset + delSoff in m || BlankSlot(s.filp.bytes, s.View(), s.fileOffset + delSoff)
    modifies s, s.filp
    ensures TCellsWf(m - {s.fileOffset + delSoff})
    ensures LowestLed(TEntries(m - {s.fileOffset + delSoff})) <==>
      TypesRep(s.filp.bytes, s.View(), m - {s.fileOffset + delSoff})
    ensures SameOutside(old(s.filp.bytes), s.filp.bytes, s.fileOffset, s.fileOffset + SECTION_SIZE)
  {
    hide At, TypesRep, HeadBytes, Written, SameOutside, Holds, LipScanned, FrpScanned, Aligned, ZeroedOnDisk, Scanned, LowestLed, Words, NamesLen, AttrRec, ItemWords, TypeCode, ZeroOn;
    ghost var o, h, d0 := s.fileOffset + delSoff, s.View(), s.filp.bytes;
    DoomedBounds(d0, h, m, o);
    ghost var e := Doomed(m, o);
    var tEnt, lstAtr := RdEnds(s, delSoff, m, o, e);
    var itmSz := TENT_SIZE + tEnt[2] * TENT_SIZE;
    var recSz := (tEnt[1] + tEnt[0]) - lstAtr[1];
    s.Write(delSoff, Zeros(itmSz));
    ghost var d1 := s.filp.bytes;
    s.Write(lstAtr[1], Zeros(recSz));
    ghost var d2 := s.filp.bytes;
    TZeroChain(d0, d1, d2, s.fileOffset, o, e);
    TLipAligned(d0, h, m);
    s.CmprsLip(Kind.Types);
    ghost var d3, hb := s.filp.bytes, HeadBytes(s.View());
    s.CmprsFrp();
    TScanChain(d2, d3, s.filp.bytes, h, s.View(), hb);
    ZeroedFrame(d0, d2, s.filp.bytes, s.fileOffset, o, e);
    DoomedRep(d0, s.filp.bytes, h, s.View(), m, o);
  }

  lemma DoomedRep(d: seq<byte>, d': seq<byte>, h: Head, h': Head, m: map<nat, TypeCell>, o: nat)
    requires TypesRep(d, h, m) && (o in m ==> TCellWf(m[o])) && (o in m || BlankSlot(d, h, o))
    requires ZeroedOnDisk(d, d', h.base, o, Doomed(m, o))
    requires Scanned(d', Kind.Types, h, h') && Holds(d', h.base, HeadBytes(h'))
    ensures TCellsWf(m - {o})
    ensures LowestLed(TEntries(m - {o})) <==> TypesRep(d', h', m - {o})
  {
    hide Rep, HeadBytes, Holds, Scanned, ZeroedOnDisk, LowestLed, TEntry, TCellWf, BlankSlot;
    if o in m {
      TDropRep(d, d', h, h', m, o);
    } else {
      assert m - {o} == m;
      TBlankRep(d, d', h, h', m, o);
    }
  }

  /** del_soff + sizeof(Type_entity) + (attr_cnt - 1) * sizeof(Attr_entity), in wrapping arithmetic. */
  function LastAttrSoff(delSoff: u64, cnt: u64): (r: u64)
    requires delSoff + TENT_SIZE + TENT_SIZE * cnt < TWO_64
    ensures r == delSoff + TENT_SIZE * cnt
  {
    var prod := (Add64(cnt, Neg64(1)) * TENT_SIZE) % TWO_64;
    WrappedIndex(cnt);
    Add64(Add64(delSoff, TENT_SIZE), prod)
  }

  lemma WrappedIndex(cnt: u64)
    requires TENT_SIZE + TENT_SIZE * cnt < TWO_64
    ensures (Add64(cnt, Neg64(1)) * TENT_SIZE) % TWO_64 == if cnt == 0 then TWO_64 - TENT_SIZE else TENT_SIZE * (cnt - 1)
  {
    if cnt != 0 {
      AddNeg(cnt, 1);
    } else {
      assert (TWO_64 - 1) * TENT_SIZE == TWO_64 * 23 + (TWO_64 - TENT_SIZE);
    }
  }

  /** The last slot of an item points at the lowest byte of the block of names. */
  lemma LastSlot(c: TypeCell)
    requires TCellWf(c)
    ensures SlotWords(c, |c.def.attrs|)[1] == c.ptr - NamesLen(c.def.attrs)
  {
    assert c.def.attrs[..|c.def.attrs|] == c.def.attrs;
  }

  // ---------------------------------------------------------------- load and find

  /** No live type straddles section offset `soff`. */
  ghost predicate Synced(base: nat, m: map<nat, TypeCell>, soff: nat) {
    forall o :: o in m && o < base + soff ==> o + ItmSz(m[o].def) <= base + soff
  }

  /** A slot between the header and `lip` that no live type covers. */
  ghost predicate FreeSlot(base: nat, lip: nat, m: map<nat, TypeCell>, x: nat) {
    && base + HEAD_SIZE <= x && x + TENT_SIZE <= base + lip && Aligned(Kind.Types, x - base - HEAD_SIZE)
    && forall o :: o in m ==> !(o <= x < o + ItmSz(m[o].def))
  }

  /** The entries of a load walk up to `soff`, in order: each is a live type or a free slot. */
  ghost predicate Entered(d: seq<byte>, base: nat, m: map<nat, TypeCell>, soff: nat, l: seq<(nat, TypeDef)>) {
    && (forall i :: 0 <= i < |l| ==> base + HEAD_SIZE <= l[i].0 < base + soff)
    && (forall i :: 0 <= i < |l| && l[i].0 !in m ==> FreeSlot(base, soff, m, l[i].0) && ZeroOn(d, l[i].0, l[i].0 + TENT_SIZE))
    && (forall i, j :: 0 <= i < j < |l| ==> l[i].0 < l[j].0)
    && (forall i :: 0 <= i < |l| ==> l[i].1 == if l[i].0 in m then Copied(m[l[i].0].def) else BLANK)
  }

  ghost predicate Has(l: seq<(nat, TypeDef)>, x: nat) {
    exists i :: 0 <= i < |l| && l[i].0 == x
  }

  /** No live type and no free slot up to `soff` is missing. */
  ghost predicate Complete(base: nat, m: map<nat, TypeCell>, soff: nat, l: seq<(nat, TypeDef)>) {
    && (forall x: nat :: x in m && x < base + soff ==> Has(l, x))
    && (forall x: nat :: FreeSlot(base, soff, m, x) ==> Has(l, x))
  }

  /** What the load walk has listed up to `soff`: the live types and the free slots, each once, in order. */
  ghost predicate Walked(d: seq<byte>, base: nat, m: map<nat, TypeCell>, soff: nat, l: seq<(nat, TypeDef)>) {
    Entered(d, base, m, soff, l) && Complete(base, m, soff, l)
  }

  /** At a synced offset there is a live type, or a zeroed slot and nothing else. */
  lemma WalkStep(d: seq<byte>, h: Head, m: map<nat, TypeCell>, soff: nat)
    requires TypesRep(d, h, m) && Synced(h.base, m, soff) && HEAD_SIZE <= soff < h.lip
    requires Aligned(Kind.Types, soff - HEAD_SIZE)
    ensures h.base + soff !in m ==>
      && soff + TENT_SIZE <= h.lip && Aligned(Kind.Types, soff + TENT_SIZE - HEAD_SIZE)
      && ZeroOn(d, h.base + soff, h.base + soff + TENT_SIZE) && Synced(h.base, m, soff + TENT_SIZE)
      && forall x :: x in m && x < h.base + soff + TENT_SIZE ==> x < h.base + soff
  {
    hide At, LiveTail, LipTight, FrpTight, Holds, OnDisk, InRec, ItemWords, Aligned, NamesLen, AttrRec, Words;
    var e := TEntries(m);
    AlignedGap(Kind.Types, soff - HEAD_SIZE, h.lip - HEAD_SIZE);
    AlignedStep(Kind.Types, soff - HEAD_SIZE);
    if h.base + soff !in m {
      forall x | x in m && h.base + soff <= x ensures h.base + soff + TENT_SIZE <= x {
        assert EntryFits(h, Kind.Types, x, e[x]);
        AlignedGap(Kind.Types, soff - HEAD_SIZE, x - h.base - HEAD_SIZE);
      }
      forall p: nat | h.base + soff <= p < h.base + soff + TENT_SIZE ensures At(d, p) == 0 {
        UncoveredSlot(h, m, soff, p);
      }
    }
  }

  lemma UncoveredSlot(h: Head, m: map<nat, TypeCell>, soff: nat, p: nat)
    requires TCellsWf(m) && Synced(h.base, m, soff) && h.base + soff <= p
    requires forall x :: x in m && h.base + soff <= x ==> p < x
    ensures !InItem(TEntries(m), p)
  {
    hide ItemWords, NamesLen, AttrRec, Words;
    var e := TEntries(m);
    forall x | x in e ensures !(x <= p < x + |e[x].item|) {
      assert |e[x].item| == ItmSz(m[x].def);
    }
  }

  lemma WalkLive(d: seq<byte>, h: Head, m: map<nat, TypeCell>, soff: nat)
    requires TypesRep(d, h, m) && Synced(h.base, m, soff) && HEAD_SIZE <= soff < h.lip
    requires Aligned(Kind.Types, soff - HEAD_SIZE)
    ensures h.base + soff in m ==>
      var n := ItmSz(m[h.base + soff].def);
      && soff + n <= h.lip && Aligned(Kind.Types, soff + n - HEAD_SIZE) && Synced(h.base, m, soff + n)
      && forall x :: x in m && x < h.base + soff + n ==> x <= h.base + soff
  {
    hide At, LiveTail, LipTight, FrpTight, Holds, OnDisk, InRec, InItem, ItemWords, Aligned, NamesLen, AttrRec, Words;
    var o := h.base + soff;
    if o in m {
      var e := TEntries(m);
      assert EntryFits(h, Kind.Types, o, e[o]);
      SlotsAligned(1 + |m[o].def.attrs|);
      AlignedAdd(Kind.Types, soff - HEAD_SIZE, ItmSz(m[o].def));
      forall x | x in m && o < x ensures o + ItmSz(m[o].def) <= x {
        assert Before(o, e[o], x, e[x]);
      }
    }
  }

  /** The slots that one step of the walk passes: a live type's own, or one free slot. */
  lemma PassedSlots(base: nat, m: map<nat, TypeCell>, soff: nat, n: nat, x: nat)
    requires HEAD_SIZE <= soff && Aligned(Kind.Types, soff - HEAD_SIZE) && FreeSlot(base, soff + n, m, x)
    requires n == if base + soff in m then ItmSz(m[base + soff].def) else TENT_SIZE
    ensures FreeSlot(base, soff, m, x) || (x == base + soff && x !in m)
  {
    hide Aligned;
    if x < base + soff {
      AlignedGap(Kind.Types, x - base - HEAD_SIZE, soff - HEAD_SIZE);
    }
  }

  lemma HasMore(l: seq<(nat, TypeDef)>, e: (nat, TypeDef), x: nat)
    ensures Has(l, x) || x == e.0 ==> Has(l + [e], x)
  {
    var l' := l + [e];
    if Has(l, x) {
      var i :| 0 <= i < |l| && l[i].0 == x;
      assert l'[i].0 == x;
    }
    assert l'[|l|] == e;
  }

  lemma CompleteStep(base: nat, m: map<nat, TypeCell>, soff: nat, n: nat, l: seq<(nat, TypeDef)>, t: TypeDef)
    requires Complete(base, m, soff, l) && HEAD_SIZE <= soff && Aligned(Kind.Types, soff - HEAD_SIZE)
    requires n == if base + soff in m then ItmSz(m[base + soff].def) else TENT_SIZE
    requires forall x :: x in m && x < base + soff + n ==> x <= base + soff
    ensures Complete(base, m, soff + n, l + [(base + soff, t)])
  {
    hide FreeSlot, Has, Aligned;
    var l' := l + [(base + soff, t)];
    forall x: nat | x in m && x < base + soff + n ensures Has(l', x) {
      HasMore(l, (base + soff, t), x);
    }
    forall x: nat | FreeSlot(base, soff + n, m, x) ensures Has(l', x) {
      PassedSlots(base, m, soff, n, x);
      HasMore(l, (base + soff, t), x);
    }
  }

  lemma EnteredStep(d: seq<byte>, base: nat, m: map<nat, TypeCell>, soff: nat, n: nat, l: seq<(nat, TypeDef)>, t: TypeDef)
    requires Entered(d, base, m, soff, l) && HEAD_SIZE <= soff && Aligned(Kind.Types, soff - HEAD_SIZE) && Synced(base, m, soff)
    requires n == if base + soff in m then ItmSz(m[base + soff].def) else TENT_SIZE
    requires base + soff !in m ==> ZeroOn(d, base + soff, base + soff + TENT_SIZE)
    requires t == if base + soff in m then Copied(m[base + soff].def) else BLANK
    ensures Entered(d, base, m, soff + n, l + [(base + soff, t)])
  {
    hide Copied, FreeSlot, ZeroOn, Aligned, Synced;
    var l' := l + [(base + soff, t)];
    forall i | 0 <= i < |l'| && l'[i].0 !in m ensures FreeSlot(base, soff + n, m, l'[i].0) && ZeroOn(d, l'[i].0, l'[i].0 + TENT_SIZE) {
      FreeSlotMore(base, m, soff, n, l'[i].0);
    }
  }

  lemma FreeSlotMore(base: nat, m: map<nat, TypeCell>, soff: nat, n: nat, x: nat)
    requires HEAD_SIZE <= soff && Aligned(Kind.Types, soff - HEAD_SIZE) && Synced(base, m, soff) && x !in m
    requires FreeSlot(base, soff, m, x) || (x == base + soff && n == TENT_SIZE)
    ensures FreeSlot(base, soff + n, m, x)
  {
    hide Aligned;
  }

  /**
   The walk over the items: it steps over zeroed slots one by one and over live types whole,
   never loses step, and ends exactly at lip.
   */
  method Load(s: SectHead, ghost m: map<nat, TypeCell>) returns (l: seq<(nat, TypeDef)>)
    requires TypesRep(s.filp.bytes, s.View(), m)
    ensures Walked(s.filp.bytes, s.fileOffset, m, s.lstItmPtr, l)
    ensures forall o :: o in m ==> o < s.fileOffset + s.lstItmPtr
  {
    hide At, TypesRep, Aligned, Copied, Synced, Entered, Complete, ZeroOn;
    var soff := HEAD_SIZE;
    l := [];
    WalkStart(s.filp.bytes, s.View(), m);
    while soff < s.lstItmPtr
      invariant HEAD_SIZE <= soff <= s.lstItmPtr && Aligned(Kind.Types, soff - HEAD_SIZE)
      invariant Synced(s.fileOffset, m, soff) && Walked(s.filp.bytes, s.fileOffset, m, soff, l)
    {
      WalkStep(s.filp.bytes, s.View(), m, soff);
      WalkLive(s.filp.bytes, s.View(), m, soff);
      var t, phSz := Read(s, soff, m);
      EnteredStep(s.filp.bytes, s.fileOffset, m, soff, phSz, l, t);
      CompleteStep(s.fileOffset, m, soff, phSz, l, t);
      l := l + [(s.fileOffset + soff, t)];
      soff := soff + phSz;
    }
  }

  lemma WalkStart(d: seq<byte>, h: Head, m: map<nat, TypeCell>)
    requires TypesRep(d, h, m)
    ensures HEAD_SIZE <= h.lip && Aligned(Kind.Types, HEAD_SIZE - HEAD_SIZE)
    ensures Synced(h.base, m, HEAD_SIZE) && Walked(d, h.base, m, HEAD_SIZE, [])
    ensures forall o :: o in m ==> o < h.base + h.lip
  {
    hide At, LiveTail, LipTight, FrpTight, Holds, OnDisk, DeadZero, ItemWords, NamesLen, AttrRec, Words;
    SlotsAligned(0);
    forall o | o in m ensures h.base + HEAD_SIZE <= o < h.base + h.lip {
      assert EntryFits(h, Kind.Types, o, TEntries(m)[o]);
    }
  }

  /** No live type before `o` has this name. */
  ghost predicate NoneBefore(m: map<nat, TypeCell>, name: seq<byte>, o: nat) {
    forall x :: x in m && x < o ==> !StrEq(StrCopy(m[x].def.name), name)
  }

  /** The first live type whose stored name equals `name`. */
  ghost predicate FirstNamed(m: map<nat, TypeCell>, name: seq<byte>, o: nat) {
    o in m && StrEq(StrCopy(m[o].def.name), name) && NoneBefore(m, name, o)
  }

  ghost predicate NoneNamed(m: map<nat, TypeCell>, name: seq<byte>) {
    forall x :: x in m ==> !StrEq(StrCopy(m[x].def.name), name)
  }

  /** What a type offset stands for. */
  ghost function DefAt(m: map<nat, TypeCell>, o: nat): TypeDef {
    if o in m then Copied(m[o].def) else BLANK
  }

  /** What a look-up finds: the first live type with the name, or for the empty name a zeroed slot before it. */
  ghost predicate Looked(m: map<nat, TypeCell>, name: seq<byte>, o: nat) {
    FirstNamed(m, name, o) || (name == [] && o !in m && NoneBefore(m, name, o))
  }

  /** What a look-up by this name may take: a live type that has it, and for the empty name any free slot. */
  ghost predicate Match(base: nat, lip: nat, m: map<nat, TypeCell>, name: seq<byte>, x: nat) {
    if x in m then StrEq(StrCopy(m[x].def.name), name) else name == [] && FreeSlot(base, lip, m, x)
  }

  ghost predicate FirstMatch(base: nat, lip: nat, m: map<nat, TypeCell>, name: seq<byte>, x: nat) {
    Match(base, lip, m, name, x) && forall y :: Match(base, lip, m, name, y) ==> x <= y
  }

  ghost predicate NoMatch(base: nat, lip: nat, m: map<nat, TypeCell>, name: seq<byte>) {
    forall y :: !Match(base, lip, m, name, y)
  }

  /** `x` is the lowest live type with exactly this name. */
  ghost predicate FirstPlainly(m: map<nat, TypeCell>, name: seq<byte>, x: nat) {
    x in m && m[x].def.name == name && forall y :: y in m && y < x ==> m[y].def.name != name
  }

  ghost predicate NonePlainly(m: map<nat, TypeCell>, name: seq<byte>) {
    forall y :: y in m ==> m[y].def.name != name
  }

  lemma NamePlain(m: map<nat, TypeCell>, name: seq<byte>)
    requires NoNul(name)
    ensures forall y :: y in m ==> (StrEq(StrCopy(m[y].def.name), name) <==> m[y].def.name == name)
  {
    hide StrEq, StrCopy, NoNul;
    forall y | y in m ensures StrEq(StrCopy(m[y].def.name), name) <==> m[y].def.name == name {
      StrEqPlain(m[y].def.name, name);
    }
  }

  /** A real name, without NUL, is looked up byte for byte. */
  lemma MatchPlain(base: nat, lip: nat, m: map<nat, TypeCell>, name: seq<byte>, x: nat)
    requires NoNul(name) && name != []
    ensures FirstMatch(base, lip, m, name, x) ==> FirstPlainly(m, name, x)
    ensures NoMatch(base, lip, m, name) ==> NonePlainly(m, name)
  {
    hide StrEq, StrCopy, FreeSlot, NoNul;
    NamePlain(m, name);
    forall y | y in m && m[y].def.name == name ensures Match(base, lip, m, name, y) {
    }
  }

  /** Looks a type up by name. Zeroed slots are nameless, so the empty name matches them, and no other name does. */
  method Find(s: SectHead, name: seq<byte>, ghost m: map<nat, TypeCell>) returns (ok: bool, t: TypeDef, adr: nat)
    requires TypesRep(s.filp.bytes, s.View(), m)
    ensures ok ==> FirstMatch(s.fileOffset, s.lstItmPtr, m, name, s.fileOffset + adr) && t == DefAt(m, s.fileOffset + adr)
    ensures ok ==> s.fileOffset + adr in m || BlankSlot(s.filp.bytes, s.View(), s.fileOffset + adr)
    ensures !ok ==> NoMatch(s.fileOffset, s.lstItmPtr, m, name)
    ensures NoNul(name) && name != [] ==> if ok then FirstPlainly(m, name, s.fileOffset + adr) else NonePlainly(m, name)
    ensures ok && s.fileOffset + adr in m && NamesNoNul(m[s.fileOffset + adr].def) ==> t == m[s.fileOffset + adr].def
  {
    hide At, TypesRep, StrCopy, Copied, Aligned, ZeroOn, NoNul, NamesNoNul, FirstMatch, NoMatch;
    var l := Load(s, m);
    ok, t, adr := false, BLANK, 0;
    for i := 0 to |l|
      invariant forall j :: 0 <= j < i ==> !StrEq(l[j].1.name, name)
    {
      if StrEq(l[i].1.name, name) {
        ok, t, adr := true, l[i].1, l[i].0 - s.fileOffset;
        FoundFirst(s.filp.bytes, s.fileOffset, m, s.lstItmPtr, l, i, name);
        FoundPlain(s.fileOffset, s.lstItmPtr, m, name, l[i].0);
        return;
      }
    }
    FoundNone(s.filp.bytes, s.fileOffset, m, s.lstItmPtr, l, name);
    FoundPlain(s.fileOffset, s.lstItmPtr, m, name, 0);
  }

  lemma FoundPlain(base: nat, lip: nat, m: map<nat, TypeCell>, name: seq<byte>, x: nat)
    ensures NoNul(name) && name != [] && FirstMatch(base, lip, m, name, x) ==> FirstPlainly(m, name, x)
    ensures NoNul(name) && name != [] && NoMatch(base, lip, m, name) ==> NonePlainly(m, name)
    ensures x in m && NamesNoNul(m[x].def) ==> DefAt(m, x) == m[x].def
  {
    hide FirstMatch, NoMatch, NoNul, NamesNoNul, Copied;
    if NoNul(name) && name != [] {
      MatchPlain(base, lip, m, name, x);
    }
    if x in m {
      CopiedExact(m[x].def);
    }
  }

  /** The list holds every match, and says of each entry whether it is one. */
  lemma ListedMatch(d: seq<byte>, base: nat, m: map<nat, TypeCell>, soff: nat, l: seq<(nat, TypeDef)>, name: seq<byte>, x: nat) returns (j: nat)
    requires Walked(d, base, m, soff, l) && Match(base, soff, m, name, x)
    requires forall o :: o in m ==> o < base + soff
    ensures j < |l| && l[j].0 == x && StrEq(l[j].1.name, name)
  {
    hide StrCopy, Aligned, ZeroOn;
    j :| 0 <= j < |l| && l[j].0 == x;
  }

  lemma FoundFirst(d: seq<byte>, base: nat, m: map<nat, TypeCell>, soff: nat, l: seq<(nat, TypeDef)>, i: nat, name: seq<byte>)
    requires Walked(d, base, m, soff, l) && i < |l| && forall o :: o in m ==> o < base + soff
    requires forall j :: 0 <= j < i ==> !StrEq(l[j].1.name, name)
    requires StrEq(l[i].1.name, name)
    ensures l[i].1 == DefAt(m, l[i].0) && FirstMatch(base, soff, m, name, l[i].0)
  {
    hide StrCopy, Aligned, ZeroOn;
    assert Match(base, soff, m, name, l[i].0);
    forall y | Match(base, soff, m, name, y) ensures l[i].0 <= y {
      var j := ListedMatch(d, base, m, soff, l, name, y);
    }
  }

  lemma FoundNone(d: seq<byte>, base: nat, m: map<nat, TypeCell>, soff: nat, l: seq<(nat, TypeDef)>, name: seq<byte>)
    requires Walked(d, base, m, soff, l)
    requires forall j :: 0 <= j < |l| ==> !StrEq(l[j].1.name, name)
    requires forall o :: o in m ==> o < base + soff
    ensures NoMatch(base, soff, m, name)
  {
    hide StrCopy, StrEq, Aligned, ZeroOn, Walked, FreeSlot;
    forall y ensures !Match(base, soff, m, name, y) {
      if Match(base, soff, m, name, y) {
        var j := ListedMatch(d, base, m, soff, l, name, y);
      }
    }
  }

  /** A section without types is as its constructor left it. */
  lemma NoTypesLeft(d: seq<byte>, h: Head)
    requires TypesRep(d, h, map[])
    ensures h == NewHead(h.base)
  {
    hide Rep;
    assert TEntries(map[]) == map[];
    EmptyRep(d, h, Kind.Types);
  }

  /** Deleting all types, in any order whatsoever, gives back the whole section. */
  method DeleteAll(s: SectHead, order: seq<u64>, ghost m: map<nat, TypeCell>)
    requires TypesRep(s.filp.bytes, s.View(), m) && TypesLed(m) && Lists(s.fileOffset, order, m)
    modifies s, s.filp
    ensures s.View() == NewHead(s.fileOffset) && TypesRep(s.filp.bytes, s.View(), map[])
  {
    hide TypesRep, LowestLed, Lists, NamesNoNul, BlankSlot, At;
    ghost var rest := m;
    for i := 0 to |order|
      invariant TypesRep(s.filp.bytes, s.View(), rest) && TypesLed(rest) && Lists(s.fileOffset, order[i..], rest)
    {
      assert order[i..][1..] == order[i + 1..];
      ListsRest(s.fileOffset, order[i..], rest);
      ghost var o := s.fileOffset + order[i];
      assert order[i..][0] == order[i];
      Delete(s, order[i], rest);
      rest := rest - {o};
      LedTEntries(rest);
    }
    ListsNone(s.fileOffset, order[|order|..], rest);
    NoTypesLeft(s.filp.bytes, s.View());
  }
}
