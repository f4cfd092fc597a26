/**
 A section on disk: items grow up from byte 32, records grow down from byte 8192.
 The layout is stated once for both kinds of section, over a map from the file offset
 of each live item to the bytes of the item and of its record.
 */
module Section {
  import opened Bytes
  import opened Disk

  const SECTION_SIZE := 8192
  const HEAD_SIZE := 32

  datatype Kind = Extents | Types

  /** Distance between two items: sizeof(Entity), or sizeof(Type_entity) == sizeof(Attr_entity). */
  function Stride(k: Kind): (r: nat)
  {
    if k == Extents then 80 else 24
  }

  function Slots(k: Kind, n: int): int {
    if k == Extents then 80 * n else 24 * n
  }

  /** A whole number of slots. */
  ghost predicate Aligned(k: Kind, x: int) {
    exists n :: Slots(k, n) == x
  }

  /** The section header, with the section's own place in the file. */
  datatype Head = Head(base: nat, free: u64, next: u64, lip: u64, frp: u64)

  function HeadBytes(h: Head): (s: seq<byte>)
    ensures |s| == HEAD_SIZE
  {
    Words([h.free, h.next, h.lip, h.frp])
  }

  function NewHead(base: nat): Head {
    Head(base, SECTION_SIZE - HEAD_SIZE, 0, HEAD_SIZE, SECTION_SIZE)
  }

  /** A live item: its bytes, and its record at section offset `lo`. */
  datatype Entry = Entry(item: seq<byte>, lo: nat, rec: seq<byte>) {
    function Hi(): nat { lo + |rec| }
  }

  /** The last stride of an item is not all zero, so that a backward scan stops there. */
  ghost predicate LiveTail(k: Kind, item: seq<byte>) {
    exists q :: 0 <= q < |item| && |item| - Stride(k) <= q && item[q] != 0
  }

  ghost predicate EntryFits(h: Head, k: Kind, o: nat, e: Entry) {
    && h.base + HEAD_SIZE <= o && o + |e.item| <= h.base + h.lip
    && |e.item| >= Stride(k)
    && Aligned(k, o - h.base - HEAD_SIZE) && Aligned(k, |e.item|)
    && LiveTail(k, e.item)
    && (e.rec != [] ==> h.frp <= e.lo) && e.Hi() <= SECTION_SIZE
  }

  /** Slots in ascending order have records in descending order, and neither overlap. */
  ghost predicate Before(o1: nat, e1: Entry, o2: nat, e2: Entry) {
    o1 + |e1.item| <= o2 && (e1.rec != [] && e2.rec != [] ==> e2.Hi() <= e1.lo)
  }

  ghost predicate Layout(h: Head, k: Kind, m: map<nat, Entry>) {
    && HEAD_SIZE <= h.lip <= h.frp <= SECTION_SIZE
    && h.free == h.frp - h.lip
    && h.next == 0
    && Aligned(k, h.lip - HEAD_SIZE)
    && (forall o :: o in m ==> EntryFits(h, k, o, m[o]))
    && (forall o1, o2 :: o1 in m && o2 in m && o1 < o2 ==> Before(o1, m[o1], o2, m[o2]))
  }

  ghost predicate OnDisk(d: seq<byte>, base: nat, m: map<nat, Entry>) {
    forall o :: o in m ==> Holds(d, o, m[o].item) && Holds(d, base + m[o].lo, m[o].rec)
  }

  ghost predicate InItem(m: map<nat, Entry>, p: nat) {
    exists o :: o in m && o <= p < o + |m[o].item|
  }

  ghost predicate InRec(base: nat, m: map<nat, Entry>, p: nat) {
    exists o :: o in m && base + m[o].lo <= p < base + m[o].Hi()
  }

  /** Whatever no live item and no live record covers has been zeroed. */
  ghost predicate DeadZero(d: seq<byte>, h: Head, m: map<nat, Entry>) {
    && (forall p: nat :: h.base + HEAD_SIZE <= p < h.base + h.lip && !InItem(m, p) ==> At(d, p) == 0)
    && (forall p: nat :: h.base + h.frp <= p < h.base + SECTION_SIZE && !InRec(h.base, m, p) ==> At(d, p) == 0)
  }

  ghost predicate LipTight(h: Head, m: map<nat, Entry>) {
    h.lip == HEAD_SIZE || exists o :: o in m && o + |m[o].item| == h.base + h.lip
  }

  ghost predicate FrpTight(h: Head, m: map<nat, Entry>) {
    h.frp == SECTION_SIZE || exists o :: o in m && m[o].lo == h.frp && m[o].rec != []
  }

  /** The invariant of a section: header in memory and on disk agree, nothing overlaps, nothing leaks. */
  ghost predicate Rep(d: seq<byte>, h: Head, k: Kind, m: map<nat, Entry>) {
    && Layout(h, k, m)
    && Holds(d, h.base, HeadBytes(h))
    && OnDisk(d, h.base, m)
    && DeadZero(d, h, m)
    && LipTight(h, m) && FrpTight(h, m)
  }

  /** A section's bytes are all that its invariant depends on. */
  lemma RepFrame(d: seq<byte>, d': seq<byte>, h: Head, k: Kind, m: map<nat, Entry>)
    requires Rep(d, h, k, m) && SameOn(d, d', h.base, h.base + SECTION_SIZE)
    ensures Rep(d', h, k, m)
  {
    hide At, Aligned, LiveTail, HeadBytes, InItem, InRec, LipTight, FrpTight, Holds;
    forall o | o in m ensures Holds(d', o, m[o].item) && Holds(d', h.base + m[o].lo, m[o].rec) {
      assert EntryFits(h, k, o, m[o]);
      HoldsFrame(d, d', h.base, h.base + SECTION_SIZE, o, m[o].item);
      HoldsFrame(d, d', h.base, h.base + SECTION_SIZE, h.base + m[o].lo, m[o].rec);
    }
    HoldsFrame(d, d', h.base, h.base + SECTION_SIZE, h.base, HeadBytes(h));
  }

  lemma NewRep(d: seq<byte>, base: nat, k: Kind)
    requires Holds(d, base, HeadBytes(NewHead(base)))
    ensures Rep(d, NewHead(base), k, map[])
  {
    assert Slots(k, 0) == 0;
  }

  lemma AlignedAdd(k: Kind, x: int, y: int)
    requires Aligned(k, x) && Aligned(k, y)
    ensures Aligned(k, x + y) && Aligned(k, x - y)
  {
    var a :| Slots(k, a) == x;
    var b :| Slots(k, b) == y;
    assert Slots(k, a + b) == x + y;
    assert Slots(k, a - b) == x - y;
  }

  lemma AlignedGap(k: Kind, x: int, y: int)
    requires Aligned(k, x) && Aligned(k, y) && x < y
    ensures x + Stride(k) <= y
  {
    var a :| Slots(k, a) == x;
    var b :| Slots(k, b) == y;
    assert a < b;
  }

  lemma AlignedStep(k: Kind, x: int)
    requires Aligned(k, x)
    ensures Aligned(k, x - Stride(k)) && Aligned(k, x + Stride(k))
  {
    assert Slots(k, 1) == Stride(k);
    AlignedAdd(k, x, Stride(k));
  }

  lemma InItemMono(m: map<nat, Entry>, m': map<nat, Entry>, p: nat)
    requires forall o :: o in m ==> o in m' && |m'[o].item| == |m[o].item|
    ensures InItem(m, p) ==> InItem(m', p)
  {
    if InItem(m, p) {
      var o :| o in m && o <= p < o + |m[o].item|;
      assert o in m' && o <= p < o + |m'[o].item|;
    }
  }

  lemma InRecMono(base: nat, m: map<nat, Entry>, m': map<nat, Entry>, p: nat)
    requires forall o :: o in m ==> o in m' && m'[o].lo == m[o].lo && m'[o].rec == m[o].rec
    ensures InRec(base, m, p) ==> InRec(base, m', p)
  {
    if InRec(base, m, p) {
      var o :| o in m && base + m[o].lo <= p < base + m[o].Hi();
      assert o in m' && base + m'[o].lo <= p < base + m'[o].Hi();
    }
  }

  lemma TightMono(h: Head, m: map<nat, Entry>, m': map<nat, Entry>)
    requires forall o :: o in m ==> o in m' && |m'[o].item| == |m[o].item| && m'[o].lo == m[o].lo && m'[o].rec == m[o].rec
    requires LipTight(h, m) && FrpTight(h, m)
    ensures LipTight(h, m') && FrpTight(h, m')
  {
    if h.lip != HEAD_SIZE {
      var o :| o in m && o + |m[o].item| == h.base + h.lip;
      assert o in m' && o + |m'[o].item| == h.base + h.lip;
    }
    if h.frp != SECTION_SIZE {
      var o :| o in m && m[o].lo == h.frp && m[o].rec != [];
      assert o in m' && m'[o].lo == h.frp && m'[o].rec != [];
    }
  }

  // ---------------------------------------------------------------- pushing an entry

  /** An entry that may be pushed on a section with this header. */
  ghost predicate Pushable(h: Head, k: Kind, e: Entry) {
    && |e.item| + |e.rec| <= h.free
    && |e.item| >= Stride(k) && Aligned(k, |e.item|) && LiveTail(k, e.item)
    && e.lo == h.frp - |e.rec|
  }

  /** The header once an entry with this item and record size has been pushed. */
  function Pushed(h: Head, itemSize: nat, recSize: nat): Head
    requires recSize <= h.frp && h.lip + itemSize < TWO_64 && itemSize + recSize <= h.free
  {
    h.(free := h.free - itemSize - recSize, lip := h.lip + itemSize, frp := h.frp - recSize)
  }

  ghost predicate Roomy(h: Head) {
    HEAD_SIZE <= h.lip <= h.frp <= SECTION_SIZE && h.free == h.frp - h.lip
  }

  /** `d'` is `d` with an entry pushed: three byte ranges changed, and nothing else. */
  ghost predicate PushedOnDisk(d: seq<byte>, d': seq<byte>, h: Head, h': Head, e: Entry) {
    && Holds(d', h.base, HeadBytes(h'))
    && Holds(d', h.base + h.lip, e.item)
    && Holds(d', h.base + e.lo, e.rec)
    && SameOn(d, d', h.base + HEAD_SIZE, h.base + h.lip)
    && SameOn(d, d', h.base + h.frp, h.base + SECTION_SIZE)
  }

  lemma PushFits(h: Head, k: Kind, m: map<nat, Entry>, e: Entry)
    requires Layout(h, k, m) && Pushable(h, k, e)
    ensures h.base + h.lip !in m
    ensures forall x :: x in m ==> EntryFits(Pushed(h, |e.item|, |e.rec|), k, x, m[x])
    ensures EntryFits(Pushed(h, |e.item|, |e.rec|), k, h.base + h.lip, e)
  {
    hide Aligned, LiveTail;
    var o := h.base + h.lip;
    if o in m {
      assert !EntryFits(h, k, o, m[o]);
    }
  }

  lemma PushLayout(h: Head, k: Kind, m: map<nat, Entry>, e: Entry)
    requires Layout(h, k, m) && Pushable(h, k, e)
    ensures Layout(Pushed(h, |e.item|, |e.rec|), k, m[h.base + h.lip := e])
  {
    hide Aligned, LiveTail;
    var o := h.base + h.lip;
    PushFits(h, k, m, e);
    AlignedAdd(k, h.lip - HEAD_SIZE, |e.item|);
    var m' := m[o := e];
    forall o1, o2 | o1 in m' && o2 in m' && o1 < o2 ensures Before(o1, m'[o1], o2, m'[o2]) {
      assert o1 != o ==> EntryFits(h, k, o1, m[o1]);
      assert o2 != o ==> EntryFits(h, k, o2, m[o2]);
    }
  }

  lemma PushTight(h: Head, k: Kind, m: map<nat, Entry>, e: Entry)
    requires Roomy(h) && FrpTight(h, m) && Pushable(h, k, e) && h.base + h.lip !in m
    ensures LipTight(Pushed(h, |e.item|, |e.rec|), m[h.base + h.lip := e])
    ensures FrpTight(Pushed(h, |e.item|, |e.rec|), m[h.base + h.lip := e])
  {
    hide Aligned, LiveTail;
    var o := h.base + h.lip;
    var m' := m[o := e];
    assert o in m' && m'[o] == e;
    if e.rec == [] && h.frp != SECTION_SIZE {
      var x :| x in m && m[x].lo == h.frp && m[x].rec != [];
      assert x in m' && m'[x].lo == h.frp && m'[x].rec != [];
    }
  }

  lemma PushOnDisk(d: seq<byte>, d': seq<byte>, h: Head, k: Kind, m: map<nat, Entry>, e: Entry)
    requires Layout(h, k, m) && OnDisk(d, h.base, m) && Pushable(h, k, e)
    requires PushedOnDisk(d, d', h, Pushed(h, |e.item|, |e.rec|), e)
    ensures OnDisk(d', h.base, m[h.base + h.lip := e])
  {
    hide Aligned, LiveTail, At, HeadBytes, Holds, SameOn;
    var m' := m[h.base + h.lip := e];
    forall x | x in m' ensures Holds(d', x, m'[x].item) && Holds(d', h.base + m'[x].lo, m'[x].rec) {
      if x != h.base + h.lip {
        assert EntryFits(h, k, x, m[x]);
        HoldsFrame(d, d', h.base + HEAD_SIZE, h.base + h.lip, x, m[x].item);
        HoldsFrame(d, d', h.base + h.frp, h.base + SECTION_SIZE, h.base + m[x].lo, m[x].rec);
      }
    }
  }

  lemma PushDeadZero(d: seq<byte>, d': seq<byte>, h: Head, k: Kind, m: map<nat, Entry>, e: Entry)
    requires Roomy(h) && DeadZero(d, h, m) && Pushable(h, k, e) && h.base + h.lip !in m
    requires PushedOnDisk(d, d', h, Pushed(h, |e.item|, |e.rec|), e)
    ensures DeadZero(d', Pushed(h, |e.item|, |e.rec|), m[h.base + h.lip := e])
  {
    hide Aligned, LiveTail, At, HeadBytes, InItem, InRec;
    var o := h.base + h.lip;
    var h', m' := Pushed(h, |e.item|, |e.rec|), m[o := e];
    forall p: nat | h.base + HEAD_SIZE <= p < h.base + h'.lip && !InItem(m', p) ensures At(d', p) == 0 {
      InItemMono(m, m', p);
      PushCovers(h, m, e, p);
    }
    forall p: nat | h.base + h'.frp <= p < h.base + SECTION_SIZE && !InRec(h.base, m', p) ensures At(d', p) == 0 {
      InRecMono(h.base, m, m', p);
      PushCovers(h, m, e, p);
    }
  }

  lemma PushCovers(h: Head, m: map<nat, Entry>, e: Entry, p: nat)
    ensures h.base + h.lip <= p < h.base + h.lip + |e.item| ==> InItem(m[h.base + h.lip := e], p)
    ensures h.base + e.lo <= p < h.base + e.Hi() ==> InRec(h.base, m[h.base + h.lip := e], p)
  {
    var o := h.base + h.lip;
    var m' := m[o := e];
    assert o in m' && m'[o] == e;
  }

  /** Pushing an entry keeps the invariant; no property of the bytes is needed. */
  lemma PushRep(d: seq<byte>, d': seq<byte>, h: Head, k: Kind, m: map<nat, Entry>, e: Entry)
    requires Rep(d, h, k, m) && Pushable(h, k, e)
    requires PushedOnDisk(d, d', h, Pushed(h, |e.item|, |e.rec|), e)
    ensures h.base + h.lip !in m
    ensures Rep(d', Pushed(h, |e.item|, |e.rec|), k, m[h.base + h.lip := e])
  {
    hide At, HeadBytes, InItem, InRec, EntryFits, Before, Holds, SameOn, DeadZero, OnDisk, LipTight, FrpTight;
    PushFits(h, k, m, e);
    PushLayout(h, k, m, e);
    PushTight(h, k, m, e);
    PushOnDisk(d, d', h, k, m, e);
    PushDeadZero(d, d', h, k, m, e);
  }

  // ---------------------------------------------------------------- rewriting an item in place

  /** `d'` is `d` with the item at `o` overwritten. */
  ghost predicate PatchedOnDisk(d: seq<byte>, d': seq<byte>, base: nat, o: nat, item: seq<byte>) {
    && Holds(d', o, item)
    && SameOn(d, d', base, o)
    && SameOn(d, d', o + |item|, base + SECTION_SIZE)
  }

  lemma PatchLayout(h: Head, k: Kind, m: map<nat, Entry>, o: nat, item: seq<byte>)
    requires Layout(h, k, m) && o in m && |item| == |m[o].item| && LiveTail(k, item)
    ensures Layout(h, k, m[o := m[o].(item := item)])
  {
    hide Aligned, LiveTail;
    var m' := m[o := m[o].(item := item)];
    forall x | x in m' ensures EntryFits(h, k, x, m'[x]) {
      assert EntryFits(h, k, x, m[x]);
    }
    forall o1, o2 | o1 in m' && o2 in m' && o1 < o2 ensures Before(o1, m'[o1], o2, m'[o2]) {
      assert Before(o1, m[o1], o2, m[o2]);
    }
  }

  lemma PatchOnDisk(d: seq<byte>, d': seq<byte>, h: Head, k: Kind, m: map<nat, Entry>, o: nat, item: seq<byte>)
    requires Layout(h, k, m) && OnDisk(d, h.base, m) && o in m && |item| == |m[o].item|
    requires PatchedOnDisk(d, d', h.base, o, item)
    ensures OnDisk(d', h.base, m[o := m[o].(item := item)])
  {
    hide Aligned, LiveTail, At, Holds, SameOn;
    var m' := m[o := m[o].(item := item)];
    assert EntryFits(h, k, o, m[o]);
    forall x | x in m' ensures Holds(d', x, m'[x].item) && Holds(d', h.base + m'[x].lo, m'[x].rec) {
      assert EntryFits(h, k, x, m[x]);
      HoldsFrame(d, d', o + |item|, h.base + SECTION_SIZE, h.base + m[x].lo, m[x].rec);
      if x < o {
        assert Before(x, m[x], o, m[o]);
        HoldsFrame(d, d', h.base, o, x, m[x].item);
      } else if o < x {
        assert Before(o, m[o], x, m[x]);
        HoldsFrame(d, d', o + |item|, h.base + SECTION_SIZE, x, m[x].item);
      }
    }
  }

  lemma PatchDeadZero(d: seq<byte>, d': seq<byte>, h: Head, k: Kind, m: map<nat, Entry>, o: nat, item: seq<byte>)
    requires Roomy(h) && DeadZero(d, h, m) && o in m && EntryFits(h, k, o, m[o]) && |item| == |m[o].item|
    requires PatchedOnDisk(d, d', h.base, o, item)
    ensures DeadZero(d', h, m[o := m[o].(item := item)])
  {
    hide Aligned, LiveTail, At, InRec, InItem;
    var m' := m[o := m[o].(item := item)];
    forall p: nat | h.base + HEAD_SIZE <= p < h.base + h.lip && !InItem(m', p) ensures At(d', p) == 0 {
      InItemMono(m, m', p);
      ItemCovers(m', o, p);
    }
    forall p: nat | h.base + h.frp <= p < h.base + SECTION_SIZE && !InRec(h.base, m', p) ensures At(d', p) == 0 {
      InRecMono(h.base, m, m', p);
    }
  }

  lemma ItemCovers(m: map<nat, Entry>, o: nat, p: nat)
    requires o in m
    ensures o <= p < o + |m[o].item| ==> InItem(m, p)
  {
  }

  /** Rewriting one live item in place, as the link updates do, keeps the invariant. */
  lemma PatchRep(d: seq<byte>, d': seq<byte>, h: Head, k: Kind, m: map<nat, Entry>, o: nat, item: seq<byte>)
    requires Rep(d, h, k, m) && o in m
    requires |item| == |m[o].item| && LiveTail(k, item)
    requires PatchedOnDisk(d, d', h.base, o, item)
    ensures Rep(d', h, k, m[o := m[o].(item := item)])
  {
    hide At, Aligned, LiveTail, HeadBytes, InItem, InRec, OnDisk, DeadZero, Before, LipTight, FrpTight;
    assert EntryFits(h, k, o, m[o]);
    PatchLayout(h, k, m, o, item);
    PatchOnDisk(d, d', h, k, m, o, item);
    PatchDeadZero(d, d', h, k, m, o, item);
    TightMono(h, m, m[o := m[o].(item := item)]);
  }

  // ---------------------------------------------------------------- dropping an entry

  /** The invariant without the two tightness claims and without the header on disk. */
  ghost predicate Loose(d: seq<byte>, h: Head, k: Kind, m: map<nat, Entry>) {
    Layout(h, k, m) && OnDisk(d, h.base, m) && DeadZero(d, h, m)
  }

  /** `d'` is `d` with one entry's item and record zeroed, up to the section header. */
  ghost predicate ZeroedOnDisk(d: seq<byte>, d': seq<byte>, base: nat, o: nat, e: Entry) {
    forall p: nat :: base + HEAD_SIZE <= p < base + SECTION_SIZE ==>
      At(d', p) == if o <= p < o + |e.item| || base + e.lo <= p < base + e.Hi() then 0 else At(d, p)
  }

  lemma ZeroedFrame(d: seq<byte>, d': seq<byte>, d'': seq<byte>, base: nat, o: nat, e: Entry)
    requires ZeroedOnDisk(d, d', base, o, e) && SameOutside(d', d'', base, base + HEAD_SIZE)
    requires SameOutside(d, d', base, base + SECTION_SIZE)
    ensures ZeroedOnDisk(d, d'', base, o, e) && SameOutside(d, d'', base, base + SECTION_SIZE)
  {
    hide At;
  }

  lemma DropOnDisk(d: seq<byte>, d': seq<byte>, h: Head, k: Kind, m: map<nat, Entry>, o: nat, x: nat)
    requires Layout(h, k, m) && OnDisk(d, h.base, m) && o in m && x in m && x != o
    requires ZeroedOnDisk(d, d', h.base, o, m[o])
    ensures Holds(d', x, m[x].item) && Holds(d', h.base + m[x].lo, m[x].rec)
  {
    hide Aligned, LiveTail, At;
    assert EntryFits(h, k, o, m[o]) && EntryFits(h, k, x, m[x]);
    if x < o {
      assert Before(x, m[x], o, m[o]);
    } else {
      assert Before(o, m[o], x, m[x]);
    }
  }

  lemma DropCovers(base: nat, m: map<nat, Entry>, o: nat, p: nat)
    requires o in m
    ensures InItem(m, p) ==> InItem(m - {o}, p) || o <= p < o + |m[o].item|
    ensures InRec(base, m, p) ==> InRec(base, m - {o}, p) || base + m[o].lo <= p < base + m[o].Hi()
  {
    var m' := m - {o};
    if InItem(m, p) {
      var x :| x in m && x <= p < x + |m[x].item|;
      assert x != o ==> x in m' && x <= p < x + |m'[x].item|;
    }
    if InRec(base, m, p) {
      var x :| x in m && base + m[x].lo <= p < base + m[x].Hi();
      assert x != o ==> x in m' && base + m'[x].lo <= p < base + m'[x].Hi();
    }
  }

  lemma DropDeadZero(d: seq<byte>, d': seq<byte>, h: Head, m: map<nat, Entry>, o: nat)
    requires Roomy(h) && DeadZero(d, h, m) && o in m
    requires ZeroedOnDisk(d, d', h.base, o, m[o])
    ensures DeadZero(d', h, m - {o})
  {
    hide At, InItem, InRec;
    var m' := m - {o};
    forall p: nat | h.base + HEAD_SIZE <= p < h.base + h.lip && !InItem(m', p) ensures At(d', p) == 0 {
      DropCovers(h.base, m, o, p);
    }
    forall p: nat | h.base + h.frp <= p < h.base + SECTION_SIZE && !InRec(h.base, m', p) ensures At(d', p) == 0 {
      DropCovers(h.base, m, o, p);
    }
  }

  lemma DropLoose(d: seq<byte>, d': seq<byte>, h: Head, k: Kind, m: map<nat, Entry>, o: nat)
    requires Rep(d, h, k, m) && o in m && ZeroedOnDisk(d, d', h.base, o, m[o])
    ensures Loose(d', h, k, m - {o})
  {
    hide Aligned, LiveTail, At, HeadBytes, InItem, InRec, ZeroedOnDisk, Holds, DeadZero, LipTight, FrpTight, EntryFits, Before;
    DropDeadZero(d, d', h, m, o);
    forall x | x in m - {o} ensures Holds(d', x, m[x].item) && Holds(d', h.base + m[x].lo, m[x].rec) {
      DropOnDisk(d, d', h, k, m, o, x);
    }
  }

  /** The header after the shortcut that a delete takes on the last slot. */
  ghost function Bordered(h: Head, e: Entry): Head
    requires |e.item| <= h.lip && h.frp + |e.rec| < TWO_64 && h.free + |e.item| + |e.rec| < TWO_64
  {
    h.(free := h.free + |e.item| + |e.rec|, lip := h.lip - |e.item|, frp := h.frp + |e.rec|)
  }

  /** The record of the last slot lies exactly at frp. */
  lemma BorderRecord(h: Head, k: Kind, m: map<nat, Entry>, o: nat)
    requires Layout(h, k, m) && FrpTight(h, m) && o in m
    requires o + |m[o].item| == h.base + h.lip
    ensures m[o].rec != [] ==> m[o].lo == h.frp
    ensures |m[o].item| <= h.lip && h.frp + |m[o].rec| <= SECTION_SIZE
  {
    hide Aligned, LiveTail;
    assert EntryFits(h, k, o, m[o]);
    if m[o].rec != [] {
      var x :| x in m && m[x].lo == h.frp && m[x].rec != [];
      assert EntryFits(h, k, x, m[x]);
      assert x < o ==> Before(x, m[x], o, m[o]);
    }
  }

  /** The shortcut moves both pointers by exactly the right amount. */
  lemma BorderLoose(d: seq<byte>, h: Head, k: Kind, m: map<nat, Entry>, o: nat)
    requires Layout(h, k, m) && FrpTight(h, m) && o in m
    requires o + |m[o].item| == h.base + h.lip
    requires Loose(d, h, k, m - {o})
    ensures |m[o].item| <= h.lip && h.frp + |m[o].rec| <= SECTION_SIZE
    ensures Loose(d, Bordered(h, m[o]), k, m - {o})
  {
    hide Aligned, LiveTail, At, InItem, InRec, OnDisk;
    BorderRecord(h, k, m, o);
    var h', m' := Bordered(h, m[o]), m - {o};
    assert EntryFits(h, k, o, m[o]);
    forall x | x in m' ensures EntryFits(h', k, x, m'[x]) {
      assert EntryFits(h, k, x, m[x]);
      assert x < o && Before(x, m[x], o, m[o]);
    }
    AlignedAdd(k, h.lip - HEAD_SIZE, |m[o].item|);
  }

  // ---------------------------------------------------------------- the two compressing scans

  /** lip after the backward scan over zero slots. */
  ghost predicate LipScanned(d: seq<byte>, base: nat, k: Kind, lip: nat, lip': nat) {
    && HEAD_SIZE <= lip' <= lip && Aligned(k, lip' - HEAD_SIZE)
    && ZeroOn(d, base + lip', base + lip)
    && (lip' != HEAD_SIZE ==> HEAD_SIZE + Stride(k) <= lip' && !ZeroOn(d, base + lip' - Stride(k), base + lip'))
  }

  /** frp after the forward scan over zero bytes. */
  ghost predicate FrpScanned(d: seq<byte>, base: nat, frp: nat, frp': nat) {
    && frp <= frp' <= SECTION_SIZE
    && ZeroOn(d, base + frp, base + frp')
    && (frp' != SECTION_SIZE ==> At(d, base + frp') != 0)
  }

  /** The backward scan does not pass a live item. */
  lemma ScanKeepsItem(d: seq<byte>, h: Head, k: Kind, m: map<nat, Entry>, lip': nat, o: nat)
    requires Layout(h, k, m) && OnDisk(d, h.base, m) && o in m
    requires LipScanned(d, h.base, k, h.lip, lip')
    ensures o + |m[o].item| <= h.base + lip'
  {
    hide Aligned, At;
    var e := m[o];
    assert EntryFits(h, k, o, e);
    var q :| 0 <= q < |e.item| && |e.item| - Stride(k) <= q && e.item[q] != 0;
    assert At(d, o + q) == e.item[o + q - o];
    if h.base + lip' < o + |e.item| {
      AlignedAdd(k, o - h.base - HEAD_SIZE, |e.item|);
      assert o - h.base - HEAD_SIZE + |e.item| == o + |e.item| - h.base - HEAD_SIZE;
      AlignedGap(k, lip' - HEAD_SIZE, o + |e.item| - h.base - HEAD_SIZE);
      assert false;
    }
  }

  /** It stops right behind one. */
  lemma ScanStopsAtItem(d: seq<byte>, h: Head, k: Kind, m: map<nat, Entry>, lip': nat)
    requires Layout(h, k, m) && DeadZero(d, h, m)
    requires LipScanned(d, h.base, k, h.lip, lip') && lip' != HEAD_SIZE
    requires forall o :: o in m ==> o + |m[o].item| <= h.base + lip'
    ensures exists o :: o in m && o + |m[o].item| == h.base + lip'
  {
    hide Aligned, At, LiveTail, InRec;
    var p: nat :| h.base + lip' - Stride(k) <= p < h.base + lip' && At(d, p) != 0;
    assert InItem(m, p);
    var o :| o in m && o <= p < o + |m[o].item|;
    assert EntryFits(h, k, o, m[o]);
    if o + |m[o].item| < h.base + lip' {
      AlignedAdd(k, o - h.base - HEAD_SIZE, |m[o].item|);
      assert o - h.base - HEAD_SIZE + |m[o].item| == o + |m[o].item| - h.base - HEAD_SIZE;
      AlignedGap(k, o + |m[o].item| - h.base - HEAD_SIZE, lip' - HEAD_SIZE);
      assert false;
    }
  }

  ghost function WithLip(h: Head, lip': nat): Head
    requires lip' <= h.lip && h.free + h.lip - lip' < TWO_64
  {
    h.(lip := lip', free := h.free + h.lip - lip')
  }

  ghost function WithFrp(h: Head, frp': nat): Head
    requires h.frp <= frp' < TWO_64 && h.free + frp' - h.frp < TWO_64
  {
    h.(frp := frp', free := h.free + frp' - h.frp)
  }

  lemma CompressLip(d: seq<byte>, h: Head, k: Kind, m: map<nat, Entry>, lip': nat)
    requires Loose(d, h, k, m) && LipScanned(d, h.base, k, h.lip, lip')
    ensures Loose(d, WithLip(h, lip'), k, m) && LipTight(WithLip(h, lip'), m)
  {
    hide Aligned, At, LiveTail, InItem, InRec, OnDisk, ZeroOn;
    forall o | o in m ensures o + |m[o].item| <= h.base + lip' && EntryFits(WithLip(h, lip'), k, o, m[o]) {
      assert EntryFits(h, k, o, m[o]);
      ScanKeepsItem(d, h, k, m, lip', o);
    }
    if lip' != HEAD_SIZE {
      ScanStopsAtItem(d, h, k, m, lip');
    }
  }

  ghost predicate Lowest(m: map<nat, Entry>, o: nat) {
    o in m && m[o].rec != [] && forall x :: x in m && m[x].rec != [] ==> m[o].lo <= m[x].lo
  }

  /** The lowest non-empty record does not begin with a zero byte. */
  ghost predicate LowestLed(m: map<nat, Entry>) {
    forall o :: Lowest(m, o) ==> m[o].rec[0] != 0
  }

  /** No non-empty record begins with a zero byte. */
  ghost predicate AllLed(m: map<nat, Entry>) {
    forall o :: o in m && m[o].rec != [] ==> m[o].rec[0] != 0
  }

  lemma {:induction false} LowestExists(m: map<nat, Entry>) returns (o: nat)
    requires exists x :: x in m && m[x].rec != []
    ensures Lowest(m, o)
    decreases |m|
  {
    var x :| x in m && m[x].rec != [];
    var m' := m - {x};
    assert forall y :: y in m && y != x ==> y in m' && m'[y] == m[y];
    if y :| y in m' && m'[y].rec != [] {
      assert |m'| < |m|;
      o := LowestExists(m');
      if m[x].lo < m[o].lo {
        o := x;
      }
    } else {
      o := x;
    }
  }

  /** With a led lowest record, the forward scan stops exactly there. */
  lemma ScanStopsAtRecord(d: seq<byte>, h: Head, k: Kind, m: map<nat, Entry>, frp': nat)
    requires Loose(d, h, k, m) && FrpScanned(d, h.base, h.frp, frp') && LowestLed(m)
    ensures forall x :: x in m && m[x].rec != [] ==> frp' <= m[x].lo
    ensures frp' == SECTION_SIZE || exists x :: x in m && m[x].lo == frp' && m[x].rec != []
  {
    hide Aligned, At, LiveTail, InItem;
    if x :| x in m && m[x].rec != [] {
      var o := LowestExists(m);
      assert EntryFits(h, k, o, m[o]);
      assert At(d, h.base + m[o].lo) == m[o].rec[h.base + m[o].lo - (h.base + m[o].lo)];
      assert frp' <= m[o].lo;
    }
    if frp' != SECTION_SIZE {
      assert InRec(h.base, m, h.base + frp');
    }
  }

  /** What the forward scan does when the lowest record begins with a zero byte: it walks over it. */
  lemma ScanOverruns(d: seq<byte>, h: Head, k: Kind, m: map<nat, Entry>, frp': nat, o: nat)
    requires Loose(d, h, k, m) && FrpScanned(d, h.base, h.frp, frp')
    requires Lowest(m, o) && m[o].rec[0] == 0
    ensures m[o].lo < frp'
  {
    hide Aligned, At, LiveTail, InItem;
    assert EntryFits(h, k, o, m[o]);
    assert At(d, h.base + m[o].lo) == m[o].rec[h.base + m[o].lo - (h.base + m[o].lo)];
    if InRec(h.base, m, h.base + frp') {
      var x :| x in m && h.base + m[x].lo <= h.base + frp' < h.base + m[x].Hi();
      assert m[x].rec != [] && m[o].lo <= m[x].lo;
    }
  }

  lemma CompressLed(d: seq<byte>, h: Head, k: Kind, m: map<nat, Entry>, frp': nat)
    requires Loose(d, h, k, m) && FrpScanned(d, h.base, h.frp, frp') && LowestLed(m)
    ensures Loose(d, WithFrp(h, frp'), k, m) && FrpTight(WithFrp(h, frp'), m)
  {
    hide Aligned, At, LiveTail, InItem, InRec, OnDisk, ZeroOn, LowestLed;
    ScanStopsAtRecord(d, h, k, m, frp');
    forall o | o in m ensures EntryFits(WithFrp(h, frp'), k, o, m[o]) {
      assert EntryFits(h, k, o, m[o]);
    }
  }

  /** The forward scan restores the layout if and only if the lowest record is led. */
  lemma CompressFrp(d: seq<byte>, h: Head, k: Kind, m: map<nat, Entry>, frp': nat)
    requires Loose(d, h, k, m) && FrpScanned(d, h.base, h.frp, frp')
    ensures LowestLed(m) <==> Layout(WithFrp(h, frp'), k, m)
    ensures LowestLed(m) ==> Loose(d, WithFrp(h, frp'), k, m) && FrpTight(WithFrp(h, frp'), m)
  {
    hide Aligned, At, LiveTail, OnDisk, DeadZero, ZeroOn, FrpTight, Before, Lowest;
    if LowestLed(m) {
      CompressLed(d, h, k, m, frp');
    } else {
      var o := Unled(m);
      ScanOverruns(d, h, k, m, frp', o);
      assert !EntryFits(WithFrp(h, frp'), k, o, m[o]);
    }
  }

  lemma Unled(m: map<nat, Entry>) returns (o: nat)
    requires !LowestLed(m)
    ensures o in m && Lowest(m, o) && m[o].rec != [] && m[o].rec[0] == 0
  {
    o :| Lowest(m, o) && m[o].rec[0] == 0;
  }

  // ---------------------------------------------------------------- a whole delete

  /** The header a delete starts its scans from. */
  ghost function BeforeScans(h: Head, o: nat, e: Entry): Head
    requires |e.item| <= h.lip && h.frp + |e.rec| < TWO_64 && h.free + |e.item| + |e.rec| < TWO_64
  {
    if o + |e.item| == h.base + h.lip then Bordered(h, e) else h
  }

  /** The header the two scans end with. */
  ghost predicate Scanned(d: seq<byte>, k: Kind, h: Head, h': Head) {
    && h'.base == h.base && h'.next == h.next
    && LipScanned(d, h.base, k, h.lip, h'.lip)
    && FrpScanned(d, h.base, h.frp, h'.frp)
    && h'.free == h.free + (h.lip - h'.lip) + (h'.frp - h.frp)
  }

  /** Scanning from any header that bounds the live entries gives the tight one. */
  lemma ScansRep(d: seq<byte>, h: Head, h': Head, k: Kind, m: map<nat, Entry>)
    requires Loose(d, h, k, m) && Scanned(d, k, h, h')
    requires Holds(d, h.base, HeadBytes(h'))
    ensures LowestLed(m) <==> Rep(d, h', k, m)
  {
    hide Aligned, At, LiveTail, OnDisk, DeadZero, LipScanned, FrpScanned, FrpTight, LipTight, Layout, LowestLed, Holds, HeadBytes;
    LayoutRoomy(h, k, m);
    ScanRange(d, k, h, h');
    CompressLip(d, h, k, m, h'.lip);
    var h1 := WithLip(h, h'.lip);
    CompressFrp(d, h1, k, m, h'.frp);
    assert WithFrp(h1, h'.frp) == h';
    LipTightSame(h1, h', m);
  }

  lemma LayoutRoomy(h: Head, k: Kind, m: map<nat, Entry>)
    requires Layout(h, k, m)
    ensures Roomy(h)
  {
  }

  lemma ScanRange(d: seq<byte>, k: Kind, h: Head, h': Head)
    requires Scanned(d, k, h, h')
    ensures h'.lip <= h.lip && h.frp <= h'.frp <= SECTION_SIZE
  {
  }

  lemma LipTightSame(h: Head, h': Head, m: map<nat, Entry>)
    requires h.base == h'.base && h.lip == h'.lip
    ensures LipTight(h, m) <==> LipTight(h', m)
  {
  }

  /**
   Deleting an entry, with or without the border shortcut, restores the whole invariant
   exactly when the lowest remaining non-empty record begins with a non-zero byte.
   */
  lemma DeleteRep(d: seq<byte>, d': seq<byte>, h: Head, h': Head, k: Kind, m: map<nat, Entry>, o: nat)
    requires Rep(d, h, k, m) && o in m
    requires ZeroedOnDisk(d, d', h.base, o, m[o])
    requires |m[o].item| <= h.lip && h.frp + |m[o].rec| < TWO_64 && h.free + |m[o].item| + |m[o].rec| < TWO_64
    requires Scanned(d', k, BeforeScans(h, o, m[o]), h') && Holds(d', h.base, HeadBytes(h'))
    ensures LowestLed(m - {o}) <==> Rep(d', h', k, m - {o})
  {
    hide Aligned, At, LiveTail, OnDisk, DeadZero, FrpTight, LipTight, Layout, LowestLed, Holds, HeadBytes, ZeroedOnDisk, Scanned, Loose;
    DropLoose(d, d', h, k, m, o);
    if o + |m[o].item| == h.base + h.lip {
      BorderLoose(d', h, k, m, o);
    }
    ScansRep(d', BeforeScans(h, o, m[o]), h', k, m - {o});
  }

  /** The bounds that a delete relies on before it shifts anything. */
  lemma DeleteBounds(d: seq<byte>, h: Head, k: Kind, m: map<nat, Entry>, o: nat)
    requires Rep(d, h, k, m) && o in m
    ensures HEAD_SIZE + |m[o].item| <= h.lip <= h.frp <= SECTION_SIZE
    ensures o + |m[o].item| == h.base + h.lip ==> h.frp + |m[o].rec| <= SECTION_SIZE
    ensures h.base + HEAD_SIZE <= o && o + |m[o].item| <= h.base + h.lip && m[o].Hi() <= SECTION_SIZE
    ensures |m[o].rec| <= SECTION_SIZE && h.free == h.frp - h.lip
    ensures Aligned(k, h.lip - HEAD_SIZE) && Aligned(k, h.lip - |m[o].item| - HEAD_SIZE)
  {
    hide Aligned, At, LiveTail, OnDisk, DeadZero, Holds, HeadBytes;
    assert EntryFits(h, k, o, m[o]);
    AlignedAdd(k, h.lip - HEAD_SIZE, |m[o].item|);
    if o + |m[o].item| == h.base + h.lip {
      BorderRecord(h, k, m, o);
    }
  }

  /** A section with no live entry is back in its constructor state. */
  lemma EmptyRep(d: seq<byte>, h: Head, k: Kind)
    requires Rep(d, h, k, map[])
    ensures h == NewHead(h.base)
  {
  }

  /** The header is determined by the live entries: sections with the same ones have the same header. */
  lemma HeaderDetermined(d: seq<byte>, h: Head, d': seq<byte>, h': Head, k: Kind, m: map<nat, Entry>)
    requires Rep(d, h, k, m) && Rep(d', h', k, m) && h.base == h'.base
    ensures h == h'
  {
    hide Aligned, LiveTail, OnDisk, DeadZero, Holds, Before, HeadBytes;
    SameBorders(h, h', k, m);
    SameBorders(h', h, k, m);
  }

  lemma SameBorders(h: Head, h': Head, k: Kind, m: map<nat, Entry>)
    requires Layout(h, k, m) && Layout(h', k, m) && LipTight(h, m) && FrpTight(h', m) && h.base == h'.base
    ensures h.lip <= h'.lip && h.frp <= h'.frp
  {
    hide Aligned, LiveTail, Before;
    if h.lip != HEAD_SIZE {
      var x :| x in m && x + |m[x].item| == h.base + h.lip;
      assert EntryFits(h', k, x, m[x]);
    }
    if h'.frp != SECTION_SIZE {
      var x :| x in m && m[x].lo == h'.frp && m[x].rec != [];
      assert EntryFits(h, k, x, m[x]);
    }
  }

  /** What anyone reads in the first 32 bytes of a section is the header in memory. */
  lemma HeaderReadsBack(d: seq<byte>, h: Head, k: Kind, m: map<nat, Entry>, s: seq<byte>)
    requires Rep(d, h, k, m) && |s| == HEAD_SIZE && Holds(d, h.base, s)
    ensures FromWords(s, 4) == [h.free, h.next, h.lip, h.frp]
  {
    hide Holds, Layout, OnDisk, DeadZero, Words, FromWords;
    HoldsUnique(d, h.base, s, HeadBytes(h));
    WordsRoundTrip([h.free, h.next, h.lip, h.frp]);
  }

  // ---------------------------------------------------------------- emptying a section

  /** The section offsets of the live items, in any order, each once. */
  ghost predicate Lists<T(!new)>(base: nat, order: seq<nat>, m: map<nat, T>) {
    && (forall i, j :: 0 <= i < j < |order| ==> order[i] != order[j])
    && (forall o :: o in m <==> exists i :: 0 <= i < |order| && base + order[i] == o)
  }

  lemma ListsRest<T(!new)>(base: nat, order: seq<nat>, m: map<nat, T>)
    requires Lists(base, order, m) && order != []
    ensures base + order[0] in m && Lists(base, order[1..], m - {base + order[0]})
  {
    var rest, m' := order[1..], m - {base + order[0]};
    forall o ensures o in m' <==> exists i :: 0 <= i < |rest| && base + rest[i] == o {
      if o in m' {
        var i :| 0 <= i < |order| && base + order[i] == o;
        assert base + rest[i - 1] == o;
      }
      if i :| 0 <= i < |rest| && base + rest[i] == o {
        assert base + order[i + 1] == o;
      }
    }
  }

  lemma ListsNone<T(!new)>(base: nat, order: seq<nat>, m: map<nat, T>)
    requires Lists(base, order, m) && order == []
    ensures m == map[]
  {
  }
}
