/** The sliding buffer of DataBuffer.cpp. */
module DataBuffers {

  class DataBuffer {

    var pBuffer: array<char>
    var uSize: nat

    ghost predicate Valid()
      reads this
    {
      uSize <= pBuffer.Length
    }

    ghost function Contents(): string
      requires Valid()
      reads this, pBuffer
    {
      pBuffer[..uSize]
    }

    constructor (uMaxSize: nat)
      ensures Valid() && fresh(pBuffer) && pBuffer.Length == uMaxSize && Contents() == ""
    {
      uSize := 0;
      pBuffer := new char[uMaxSize];
    }

    function RemainingSize(): nat
      requires Valid()
      reads this
    {
      pBuffer.Length - uSize
    }

    /** All of the data, or none of it. */
    method Append(data: string) returns (ok: bool)
      requires Valid()
      modifies this`uSize, pBuffer
      ensures Valid() && ok == (|data| <= old(RemainingSize()))
      ensures Contents() == if ok then old(Contents()) + data else old(Contents())
    {
      if RemainingSize() < |data| {
        return false;
      }
      Copy(data);
      uSize := uSize + |data|;
      return true;
    }

    /** Data behind the contents, which does not count yet. */
    method Copy(data: string)
      requires Valid() && |data| <= RemainingSize()
      modifies pBuffer
      ensures pBuffer[..uSize + |data|] == old(Contents()) + data
    {
      forall k | 0 <= k < |data| {
        pBuffer[uSize + k] := data[k];
      }
    }

    method Pop(n: nat)
      requires Valid() && n <= uSize
      modifies this`uSize, pBuffer
      ensures Valid() && Contents() == old(Contents())[n..]
    {
      forall k | 0 <= k < uSize - n {
        pBuffer[k] := pBuffer[n + k];
      }
      uSize := uSize - n;
    }

    method GrowSize(growBy: nat)
      requires Valid() && growBy <= RemainingSize()
      modifies this`uSize
      ensures Valid() && uSize == old(uSize) + growBy
    {
      uSize := uSize + growBy;
    }
  }
}
