/** The secret buffers of the call manager: the ephemeral private key and the two session keys, on the heap. */
module KeyRings {
  import opened Wrappers
  import opened Bytes
  import opened Crypto
  import opened CallModel

  class KeyRing {
    var myPrivate: array?<Byte>
    var sendKey: array?<Byte>
    var recvKey: array?<Byte>

    /** Every buffer ever installed, those replaced without being wiped, and how often that has happened. */
    ghost var buffers: set<array<Byte>>
    ghost var lost: set<array<Byte>>
    ghost var leaks: nat

    /** What the buffers hold. */
    ghost var held: Keys

    predicate Installed(b: array<Byte>)
      reads this
    {
      b == myPrivate || b == sendKey || b == recvKey
    }

    /** Every secret buffer ever installed is still installed or holds only zeros. */
    ghost predicate Hygienic()
      reads this, buffers
    {
      forall b :: b in buffers ==> Installed(b) || AllZero(b[..])
    }

    ghost predicate Valid()
      reads this, buffers
    {
      && (if myPrivate == null then held.private == None
          else myPrivate in buffers && held.private == Some(myPrivate[..]))
      && (if sendKey == null then held.send == None else sendKey in buffers && held.send == Some(sendKey[..]))
      && (if recvKey == null then held.recv == None else recvKey in buffers && held.recv == Some(recvKey[..]))
      && (sendKey != null ==> sendKey != myPrivate)
      && (recvKey != null ==> recvKey != myPrivate && recvKey != sendKey)
      && (forall b :: b in buffers ==> Installed(b) || AllZero(b[..]) || b in lost)
      && |lost| <= leaks
    }

    /** Nothing is ever dropped unwiped while no leak has been counted. */
    lemma NoLeakNoResidue()
      requires Valid() && leaks == 0
      ensures Hygienic()
    {
    }

    constructor ()
      ensures Valid() && buffers == {} && lost == {} && leaks == 0
      ensures held == NO_KEYS
    {
      myPrivate, sendKey, recvKey := null, null, null;
      buffers, lost, leaks := {}, {}, 0;
      held := NO_KEYS;
    }

    static method NewBuffer(key: Bytes) returns (buffer: array<Byte>)
      ensures fresh(buffer) && buffer[..] == key
    {
      buffer := new Byte[|key|](i requires 0 <= i < |key| => key[i]);
    }

    /** A buffer is about to be replaced: nobody will wipe it. */
    ghost method Drop(b: array?<Byte>)
      requires Valid()
      modifies this`lost, this`leaks
      ensures Valid()
      ensures lost == old(lost) + (if b == null then {} else {b})
      ensures leaks == old(leaks) + (if b == null then 0 else 1)
    {
      if b != null {
        lost, leaks := lost + {b}, leaks + 1;
      }
    }

    /** bytearray(priv): the buffer that was there is dropped, not wiped. */
    method SetPrivate(key: Bytes)
      requires Valid()
      modifies this
      ensures Valid() && fresh(buffers - old(buffers))
      ensures held == old(held).(private := Some(key))
      ensures leaks == old(leaks) + Count(old(held).private)
      ensures lost == old(lost) + (if old(myPrivate) == null then {} else {old(myPrivate)})
    {
      var buffer := NewBuffer(key);
      Drop(myPrivate);
      myPrivate, held := buffer, held.(private := Some(key));
      buffers := buffers + {buffer};
    }

    method SetSend(key: Bytes)
      requires Valid()
      modifies this
      ensures Valid() && fresh(buffers - old(buffers))
      ensures held == old(held).(send := Some(key))
      ensures leaks == old(leaks) + Count(old(held).send)
      ensures lost == old(lost) + (if old(sendKey) == null then {} else {old(sendKey)})
    {
      var buffer := NewBuffer(key);
      Drop(sendKey);
      sendKey, held := buffer, held.(send := Some(key));
      buffers := buffers + {buffer};
    }

    method SetRecv(key: Bytes)
      requires Valid()
      modifies this
      ensures Valid() && fresh(buffers - old(buffers))
      ensures held == old(held).(recv := Some(key))
      ensures leaks == old(leaks) + Count(old(held).recv)
      ensures lost == old(lost) + (if old(recvKey) == null then {} else {old(recvKey)})
    {
      var buffer := NewBuffer(key);
      Drop(recvKey);
      recvKey, held := buffer, held.(recv := Some(key));
      buffers := buffers + {buffer};
    }

    /** Zero all three buffers, then drop them: nothing is lost. */
    method Wipe()
      requires Valid()
      modifies this, buffers
      ensures Valid() && buffers == old(buffers) && lost == old(lost) && leaks == old(leaks)
      ensures held == NO_KEYS
      ensures forall b :: b in buffers ==> AllZero(b[..]) || b in lost
    {
      WipeBytes(sendKey);
      WipeBytes(recvKey);
      WipeBytes(myPrivate);
      myPrivate, sendKey, recvKey := null, null, null;
      held := NO_KEYS;
    }
  }
}
