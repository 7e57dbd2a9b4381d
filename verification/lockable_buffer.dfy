/** LockableBuffer as an object, in either mode, and the server's side of an unlock. */
module LockableBuffer {
  import opened Options
  import HeapBuffer
  import ShadowBuffer

  type Byte = ShadowBuffer.Byte
  type Flags = HeapBuffer.Flags
  type LockInfo = HeapBuffer.LockInfo

  datatype HResult = S_OK | D3DERR_INVALIDCALL | E_FAIL

  function ShadowLocks(infos: seq<LockInfo>): (r: seq<ShadowBuffer.LockInfo>)
    ensures |r| == |infos|
  {
    seq(|infos|, k requires 0 <= k < |infos| => ShadowBuffer.LockInfo(infos[k].offset, infos[k].size, infos[k].flags))
  }

  class LockableBuffer {
    const size: nat
    const useSharedHeap: bool
    const sendWhole: bool
    const shadow: array<Byte>
    var lockInfos: seq<LockInfo>
    var bufferId: Option<HeapBuffer.AllocId>
    var nextUid: HeapBuffer.AllocId            // of the shared heap
    var heapSent: seq<HeapBuffer.Message>      // messages of shared-heap mode, all of them
    var dataSent: seq<ShadowBuffer.Message>    // messages of shadow mode the server has not processed yet
    ghost var lost: set<HeapBuffer.AllocId>
    ghost var reported: set<nat>

    ghost predicate Valid()
      reads this, shadow
    {
      && (!useSharedHeap ==> shadow.Length == size)
      && (forall k | 0 <= k < |lockInfos| :: lockInfos[k].offset <= size)
    }

    /** The buffer in shared-heap mode. */
    ghost function Heap(): HeapBuffer.Buffer
      reads this
    {
      HeapBuffer.Buffer(size, sendWhole, bufferId, lockInfos, nextUid, heapSent, lost)
    }

    /** The buffer in shadow mode, with `server` the buffer on the other side. */
    ghost function Shadow(server: seq<Byte>): ShadowBuffer.State
      reads this, shadow
    {
      ShadowBuffer.State(shadow[..], sendWhole, ShadowLocks(lockInfos), dataSent, server, reported)
    }

    constructor (size: nat, useSharedHeap: bool, sendWhole: bool, firstUid: HeapBuffer.AllocId)
      ensures Valid() && this.size == size && this.useSharedHeap == useSharedHeap && this.sendWhole == sendWhole
      ensures useSharedHeap ==> Heap() == HeapBuffer.NewBuffer(size, sendWhole, firstUid)
      ensures !useSharedHeap ==> forall server :: Shadow(server) == ShadowBuffer.NewState(seq(size, _ => 0), sendWhole, server)
      ensures fresh(shadow)
    {
      this.size, this.useSharedHeap, this.sendWhole := size, useSharedHeap, sendWhole;
      shadow := new Byte[if useSharedHeap then 0 else size](_ => 0);
      lockInfos, bufferId, nextUid, heapSent, dataSent := [], None, firstUid, [], [];
      lost, reported := {}, {};
    }

    /** lock. `heapHasRoom` is whether an allocation would succeed. */
    method Lock(offset: nat, size: nat, wantsPointer: bool, flags: Flags, heapHasRoom: bool) returns (r: HResult)
      requires Valid() && offset <= this.size
      modifies this
      ensures Valid() && shadow[..] == old(shadow[..])
      ensures r == D3DERR_INVALIDCALL <==> !wantsPointer
      ensures !wantsPointer ==> Heap() == old(Heap()) && dataSent == old(dataSent)
      ensures wantsPointer && useSharedHeap ==>
                && Heap() == HeapBuffer.Lock(old(Heap()), offset, size, flags, heapHasRoom)
                && (r == S_OK <==> bufferId.Some?)
                && (r == S_OK ==> lockInfos != [] && Some(lockInfos[|lockInfos| - 1].bufferId) == bufferId)
      ensures wantsPointer && !useSharedHeap ==>
                r == S_OK && forall server ::
                  Shadow(server) == old(Shadow(server)).(locks := old(ShadowLocks(lockInfos)) + [ShadowBuffer.LockInfo(offset, size, flags)])
    {
      if !wantsPointer {
        return D3DERR_INVALIDCALL;
      }
      if useSharedHeap {
        var discardedBufferId := None;
        if flags.discard && bufferId.Some? {
          discardedBufferId := bufferId;
        }
        if flags.discard || bufferId.None? {
          if heapHasRoom {
            heapSent := heapSent + [HeapBuffer.Alloc(nextUid)];
            bufferId, nextUid := Some(nextUid), nextUid + 1;
          } else {
            bufferId := None;
          }
        }
        if bufferId.None? {
          lost := lost + HeapBuffer.Ids(discardedBufferId);
          return E_FAIL;
        }
        lockInfos := lockInfos + [HeapBuffer.LockInfo(offset, size, flags, bufferId.value, discardedBufferId)];
      } else {
        lockInfos := lockInfos + [HeapBuffer.LockInfo(offset, size, flags, 0, None)];
        assert ShadowLocks(lockInfos) == old(ShadowLocks(lockInfos)) + [ShadowBuffer.LockInfo(offset, size, flags)];
      }
      r := S_OK;
    }

    /** The application writes through the pointer it got from a lock. */
    method Write(i: nat, b: Byte)
      requires Valid() && !useSharedHeap && i < size
      modifies shadow
      ensures Valid() && shadow[..] == old(shadow[..])[i := b]
      ensures forall server :: Shadow(server) == old(Shadow(server)).(shadow := old(shadow[..])[i := b])
    {
      shadow[i] := b;
    }

    /** unlock: the oldest lock. */
    method Unlock()
      requires Valid()
      modifies this
      ensures Valid() && shadow[..] == old(shadow[..])
      ensures useSharedHeap ==> Heap() == HeapBuffer.Unlock(old(Heap()))
      ensures !useSharedHeap ==> forall server :: Shadow(server) == ShadowBuffer.Unlock(old(Shadow(server)))
    {
      if lockInfos == [] {
        return;
      }
      var lockInfo := lockInfos[0];
      var offset := lockInfo.offset;
      var size := if lockInfo.size == 0 || lockInfo.size > this.size - offset then this.size - offset else lockInfo.size;
      if sendWhole {
        size := this.size;
        offset := 0;
      }
      if !lockInfo.flags.readOnly {
        if useSharedHeap {
          heapSent := heapSent + [HeapBuffer.UnlockData(offset, size, lockInfo.flags, lockInfo.bufferId)];
        } else {
          dataSent := dataSent + [ShadowBuffer.UnlockBytes(offset, shadow[offset..offset + size], lockInfo.flags)];
          reported := reported + ShadowBuffer.Positions(offset, offset + size);
        }
        if lockInfo.discarded.Some? && useSharedHeap {
          heapSent := heapSent + [HeapBuffer.Dealloc(lockInfo.discarded.value)];
        }
      } else {
        lost := lost + HeapBuffer.Ids(lockInfo.discarded);
      }
      assert ShadowLocks(lockInfos[1..]) == ShadowLocks(lockInfos)[1..];
      lockInfos := lockInfos[1..];
    }

    /** The destructor. */
    method Destroy()
      requires Valid()
      modifies this
      ensures useSharedHeap ==> Heap() == HeapBuffer.Destroy(old(Heap()))
    {
      if useSharedHeap && bufferId.Some? {
        heapSent := heapSent + [HeapBuffer.Dealloc(bufferId.value)];
        bufferId := None;
      }
    }
  }

  /** The unlock command of the server's command loop: lock the real buffer, copy, unlock. A discarding lock
      returns memory with unknown contents, `blank`. */
  method ServerUnlock(buffer: array<Byte>, m: ShadowBuffer.Message, blank: seq<Byte>)
    requires ShadowBuffer.MessageOk(m, buffer.Length) && |blank| == buffer.Length
    modifies buffer
    ensures buffer[..] == ShadowBuffer.Apply(old(buffer[..]), m, blank)
  {
    if m.flags.discard {
      forall i | 0 <= i < buffer.Length {
        buffer[i] := blank[i];
      }
    }
    ghost var base := buffer[..];
    assert base == if m.flags.discard then blank else old(buffer[..]);
    var n := 0;
    while n < |m.data|
      invariant 0 <= n <= |m.data|
      invariant buffer[..] == ShadowBuffer.Overwrite(base, m.offset, m.data[..n])
    {
      buffer[m.offset + n] := m.data[n];
      n := n + 1;
    }
    assert m.data[..n] == m.data;
  }
}
