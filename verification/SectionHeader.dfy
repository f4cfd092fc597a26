/** The header object that every section starts with, and its two scanning loops. */
module SectionHeader {
  import opened Bytes
  import opened Disk
  import opened Section

  class SectHead {
    const fileOffset: nat
    const filp: Disk
    var freeSpace: u64
    var nextPtr: u64
    var lstItmPtr: u64
    var fstRecPtr: u64

    ghost function View(): Head
      reads this
    {
      Head(fileOffset, freeSpace, nextPtr, lstItmPtr, fstRecPtr)
    }

    function GetFileoff(soff: nat): nat {
      fileOffset + soff
    }

    function GetSectoff(foff: nat): nat
      requires fileOffset <= foff
    {
      foff - fileOffset
    }

    /** An empty section: only its 32 header bytes are written. */
    constructor (offset: nat, filp: Disk)
      modifies filp
      ensures View() == NewHead(offset) && this.filp == filp
      ensures Written(old(filp.bytes), filp.bytes, offset, HeadBytes(View()))
    {
      fileOffset := offset;
      this.filp := filp;
      freeSpace := SECTION_SIZE - HEAD_SIZE;
      nextPtr := 0;
      lstItmPtr := HEAD_SIZE;
      fstRecPtr := SECTION_SIZE;
      new;
      Sync();
    }

    method Sync()
      modifies filp
      ensures Written(old(filp.bytes), filp.bytes, fileOffset, HeadBytes(View()))
    {
      filp.Write(fileOffset, Words([freeSpace, nextPtr, lstItmPtr, fstRecPtr]));
    }

    /** Moves the item border; a negative shift comes in wrapped. */
    method ShiftLip(shift: u64)
      modifies `freeSpace, `lstItmPtr, filp
      ensures View() == old(View()).(free := Add64(old(freeSpace), Neg64(shift)), lip := Add64(old(lstItmPtr), shift))
      ensures Written(old(filp.bytes), filp.bytes, fileOffset, HeadBytes(View()))
    {
      freeSpace := Add64(freeSpace, Neg64(shift));
      lstItmPtr := Add64(lstItmPtr, shift);
      Sync();
    }

    /** Moves the record border. */
    method ShiftFrp(shift: u64)
      modifies `freeSpace, `fstRecPtr, filp
      ensures View() == old(View()).(free := Add64(old(freeSpace), shift), frp := Add64(old(fstRecPtr), shift))
      ensures Written(old(filp.bytes), filp.bytes, fileOffset, HeadBytes(View()))
    {
      freeSpace := Add64(freeSpace, shift);
      fstRecPtr := Add64(fstRecPtr, shift);
      Sync();
    }

    /** Gives back the zero slots at the item border. */
    method CmprsLip(k: Kind)
      requires HEAD_SIZE <= lstItmPtr <= SECTION_SIZE && Aligned(k, lstItmPtr - HEAD_SIZE)
      requires freeSpace <= SECTION_SIZE
      modifies `freeSpace, `lstItmPtr, filp
      ensures LipScanned(old(filp.bytes), fileOffset, k, old(lstItmPtr), lstItmPtr)
      ensures View() == WithLip(old(View()), lstItmPtr)
      ensures Written(old(filp.bytes), filp.bytes, fileOffset, HeadBytes(View()))
    {
      hide At, Aligned, Add64, Neg64, Holds;
      var itmSize := Stride(k);
      var rdData := Read(Add64(lstItmPtr, Neg64(itmSize)), itmSize);
      while lstItmPtr != HEAD_SIZE && rdData == Zeros(itmSize)
        invariant HEAD_SIZE <= lstItmPtr <= old(lstItmPtr) && Aligned(k, lstItmPtr - HEAD_SIZE)
        invariant View() == WithLip(old(View()), lstItmPtr)
        invariant filp.bytes == old(filp.bytes)
        invariant ZeroOn(filp.bytes, fileOffset + lstItmPtr, fileOffset + old(lstItmPtr))
        invariant |rdData| == itmSize
        invariant Holds(filp.bytes, fileOffset + Add64(lstItmPtr, Neg64(itmSize)), rdData)
        decreases lstItmPtr
      {
        LipStop(filp.bytes, fileOffset, k, lstItmPtr, rdData);
        ZeroSlot(filp.bytes, fileOffset, k, lstItmPtr, old(lstItmPtr), rdData);
        lstItmPtr := lstItmPtr - itmSize;
        freeSpace := freeSpace + itmSize;
        rdData := Read(Add64(lstItmPtr, Neg64(itmSize)), itmSize);
      }
      LipStop(filp.bytes, fileOffset, k, lstItmPtr, rdData);
      Sync();
    }

    /** Gives back the zero bytes at the record border. */
    method CmprsFrp()
      requires fstRecPtr <= SECTION_SIZE && freeSpace <= SECTION_SIZE
      modifies `freeSpace, `fstRecPtr, filp
      ensures FrpScanned(old(filp.bytes), fileOffset, old(fstRecPtr), fstRecPtr)
      ensures View() == WithFrp(old(View()), fstRecPtr)
      ensures Written(old(filp.bytes), filp.bytes, fileOffset, HeadBytes(View()))
    {
      hide At;
      while true
        invariant old(fstRecPtr) <= fstRecPtr <= SECTION_SIZE
        invariant View() == WithFrp(old(View()), fstRecPtr)
        invariant filp.bytes == old(filp.bytes)
        invariant ZeroOn(filp.bytes, fileOffset + old(fstRecPtr), fileOffset + fstRecPtr)
        decreases SECTION_SIZE - fstRecPtr
      {
        var chr := Read(fstRecPtr, 1);
        assert At(filp.bytes, fileOffset + fstRecPtr) == chr[fileOffset + fstRecPtr - (fileOffset + fstRecPtr)];
        if fstRecPtr == SECTION_SIZE || chr[0] != 0 {
          break;
        }
        fstRecPtr := fstRecPtr + 1;
        freeSpace := freeSpace + 1;
      }
      Sync();
    }

    method Read(soff: nat, sz: nat) returns (data: seq<byte>)
      ensures |data| == sz && Holds(filp.bytes, fileOffset + soff, data)
    {
      data := filp.Read(fileOffset + soff, sz);
    }

    method Write(soff: nat, data: seq<byte>)
      modifies filp
      ensures Written(old(filp.bytes), filp.bytes, fileOffset + soff, data)
    {
      filp.Write(fileOffset + soff, data);
    }
  }

  /** The slot read before a step of the backward scan. */
  lemma LipStop(d: seq<byte>, base: nat, k: Kind, lip: u64, rd: seq<byte>)
    requires HEAD_SIZE <= lip && Aligned(k, lip - HEAD_SIZE) && |rd| == Stride(k)
    requires Holds(d, base + Add64(lip, Neg64(Stride(k))), rd)
    ensures lip != HEAD_SIZE ==> HEAD_SIZE + Stride(k) <= lip && Holds(d, base + lip - Stride(k), rd)
    ensures lip != HEAD_SIZE && rd != Zeros(Stride(k)) ==> !ZeroOn(d, base + lip - Stride(k), base + lip)
  {
    hide At;
    if lip != HEAD_SIZE {
      assert Slots(k, 0) == 0;
      AlignedGap(k, 0, lip - HEAD_SIZE);
      AddNeg(lip, Stride(k));
      if rd != Zeros(Stride(k)) {
        var i :| 0 <= i < |rd| && rd[i] != 0;
        var p := base + lip - Stride(k) + i;
        assert At(d, p) == rd[p - (base + lip - Stride(k))];
      }
    }
  }

  /** One step of the backward scan: a zero slot more. */
  lemma ZeroSlot(d: seq<byte>, base: nat, k: Kind, lip: u64, lip0: nat, rd: seq<byte>)
    requires HEAD_SIZE + Stride(k) <= lip <= lip0 && Aligned(k, lip - HEAD_SIZE)
    requires rd == Zeros(Stride(k)) && Holds(d, base + lip - Stride(k), rd)
    requires ZeroOn(d, base + lip, base + lip0)
    ensures ZeroOn(d, base + lip - Stride(k), base + lip0) && Aligned(k, lip - Stride(k) - HEAD_SIZE)
  {
    hide At;
    AlignedStep(k, lip - HEAD_SIZE);
  }
}
