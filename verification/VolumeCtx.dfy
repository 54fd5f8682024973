/**
  The volume context of S5bd/src/s5imagectx.c as far as admission goes: io_num under its
  lock and the id generator. Its methods are the steps of Admission.
 */
module VolumeCtx {
  import opened Machine
  import opened Splitting
  import opened Admission
  import opened IdGenerator

  class Context {
    const depth: nat
    const volumeSize: nat
    const ids: IdManager
    var ioNum: int
    /** Pieces admitted without an id yet, ids in use, pieces replied and not called back. */
    ghost var reserved: nat
    ghost var out: set<int>
    ghost var replied: nat

    ghost function View(): Volume
      reads this, ids
    {
      Volume(depth, volumeSize, ioNum, reserved, out, replied, ids.free)
    }

    ghost predicate Valid()
      reads this, ids, ids.next
    {
      ids.Valid() && ids.sz == depth && Sound(View())
    }

    constructor (depth: nat, volumeSize: nat)
      ensures Valid() && View() == Opened(depth, volumeSize) && fresh(ids) && fresh(ids.next)
    {
      this.depth, this.volumeSize := depth, volumeSize;
      ids := new IdManager(depth);
      ioNum, reserved, out, replied := 0, 0, {}, 0;
      new;
      assert ids.free == Opened(depth, volumeSize).free;
    }

    /**
      update_io_num_and_len: the answer, and the length cut off at the end of the volume. The
      books stay right if and only if a request that is let in gets what it needs.
     */
    method UpdateIoNumAndLen(off: nat, len: nat) returns (rc: int, newLen: nat)
      requires Valid()
      modifies this
      ensures View() == Next(old(View()), Admit(off, len)) && (Valid() <==> rc != 0 || Exact(off, newLen))
      ensures rc == AdmitResult(old(View()), off, len) && (rc == 0 ==> newLen == CutLength(old(View()), off, len))
      ensures rc == 0 ==> newLen <= len && off + newLen <= volumeSize && (newLen < len ==> off + newLen == volumeSize)
      ensures rc == EINVAL <==> off % 4096 != 0 || len % 4096 != 0 || off >= volumeSize
      ensures rc == EAGAIN <==> rc != EINVAL && old(ioNum) + GetIoNum(off, newLen) > depth
      ensures rc in {0, EINVAL, EAGAIN} && ioNum == old(ioNum) + if rc == 0 then GetIoNum(off, newLen) else 0
    {
      hide GetIoNum, PieceCount, Lbas, Sound, IdManager.Valid;
      StepSound(View(), Admit(off, len));
      IoNumWithin(View());
      newLen := len;
      if off % LBA_LENGTH != 0 || len % LBA_LENGTH != 0 || off >= volumeSize {
        return EINVAL, newLen;
      }
      if off + len > volumeSize {
        newLen := volumeSize - off;
      }
      var num := GetIoNum(off, newLen) + ioNum;
      if num > depth {
        return EAGAIN, newLen;
      }
      reserved := reserved + PieceCount(off / LBA_LENGTH, Lbas(newLen));
      ioNum := num;
      return 0, newLen;
    }

    /** The id of one piece in the splitting loop; its assertion on the id holds. */
    method TakePieceId() returns (id: int)
      requires Valid() && reserved > 0
      modifies this, ids
      ensures Valid() && View() == Next(old(View()), TakeId)
      ensures 0 <= id <= depth && id !in old(out) && out == old(out) + {id}
    {
      StepSound(View(), TakeId);
      assert ids.free[0] in ids.free;
      id := ids.AllocId();
      reserved := reserved - 1;
      out := out + {id};
    }

    /** The reply of a piece gives its id back. */
    method FreePieceId(id: int)
      requires Valid() && id in out
      modifies this, ids, ids.next
      ensures Valid() && View() == Next(old(View()), GiveIdBack(id))
    {
      StepSound(View(), GiveIdBack(id));
      ids.FreeId(id);
      out := out - {id};
      replied := replied + 1;
    }

    /** The callback thread, after the callback of a piece. */
    method AfterCallback()
      requires Valid() && replied > 0
      modifies this
      ensures Valid() && View() == Next(old(View()), CallbackDone)
    {
      StepSound(View(), CallbackDone);
      ioNum := ioNum - 1;
      replied := replied - 1;
    }
  }
}
