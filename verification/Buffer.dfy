/** net/buffer.hpp: a growable byte queue over one vector, compacted in place. */
module Buffers {

  /** Whether `needle` occurs in `s` at `i`. */
  predicate OccursAt(s: string, needle: string, i: nat) {
    i + |needle| <= |s| && s[i..i + |needle|] == needle
  }

  /** `std::search`: the first occurrence at `from` or later, or the end. */
  function Search(s: string, needle: string, from: nat): (r: nat)
    requires from <= |s|
    ensures from <= r <= |s|
    ensures r < |s| ==> OccursAt(s, needle, r)
    ensures forall i: nat :: from <= i < r ==> !OccursAt(s, needle, i)
    decreases |s| - from
  {
    if from == |s| || OccursAt(s, needle, from) then from else Search(s, needle, from + 1)
  }

  class BaseBuffer {
    var readIdx: nat
    var writeIdx: nat
    var buffer: array<char>

    ghost predicate Valid()
      reads this
    {
      readIdx <= writeIdx <= buffer.Length
    }

    /** The bytes appended and not yet read, oldest first. */
    function Contents(): string
      requires Valid()
      reads this, buffer
    {
      buffer[readIdx..writeIdx]
    }

    constructor (size: nat)
      ensures Valid() && Contents() == "" && buffer.Length == size && fresh(buffer)
    {
      readIdx, writeIdx := 0, 0;
      buffer := new char[size];
    }

    predicate Empty()
      requires Valid()
      reads this, buffer
      ensures Empty() <==> Contents() == ""
    {
      readIdx == writeIdx
    }

    function Size(): nat
      requires Valid()
      reads this, buffer
      ensures Size() == |Contents()|
    {
      writeIdx - readIdx
    }

    method RetrieveReadBytes(bytes: nat)
      requires Valid() && bytes <= Size()
      modifies this`readIdx, this`writeIdx
      ensures Valid() && Contents() == old(Contents())[bytes..]
    {
      readIdx := readIdx + bytes;
      if readIdx == writeIdx {
        readIdx, writeIdx := 0, 0;
      }
    }

    /** `memmove` of the unread bytes to the front of the vector. */
    method Compact()
      requires Valid()
      modifies this`readIdx, this`writeIdx, buffer
      ensures Valid() && readIdx == 0 && writeIdx == old(Size()) && Contents() == old(Contents())
    {
      var n := writeIdx - readIdx;
      forall i | 0 <= i < n {
        buffer[i] := buffer[readIdx + i];
      }
      writeIdx := n;
      readIdx := 0;
    }

    method Resize(n: nat)
      requires Valid() && buffer.Length <= n
      modifies this`buffer
      ensures Valid() && fresh(buffer) && buffer.Length == n && Contents() == old(Contents())
    {
      var bigger := new char[n];
      forall i | 0 <= i < buffer.Length {
        bigger[i] := buffer[i];
      }
      buffer := bigger;
    }

    method EnableBytes(bytes: nat)
      requires Valid()
      modifies this, buffer
      ensures Valid() && (buffer == old(buffer) || fresh(buffer))
      ensures Contents() == old(Contents()) && writeIdx + bytes <= buffer.Length
    {
      if buffer.Length - writeIdx < bytes {
        Compact();
        if buffer.Length - writeIdx >= bytes {
          return;
        }
        Resize(buffer.Length + bytes - (buffer.Length - writeIdx));
      }
    }

    method Append(info: string)
      requires Valid()
      modifies this, buffer
      ensures Valid() && (buffer == old(buffer) || fresh(buffer))
      ensures Contents() == old(Contents()) + info
    {
      EnableBytes(|info|);
      forall i | 0 <= i < |info| {
        buffer[writeIdx + i] := info[i];
      }
      writeIdx := writeIdx + |info|;
    }

    method ReadAll() returns (info: string)
      requires Valid()
      modifies this`readIdx, this`writeIdx
      ensures Valid() && info == old(Contents()) && Contents() == ""
    {
      info := buffer[readIdx..writeIdx];
      readIdx, writeIdx := 0, 0;
    }

    method ReadBytes(n: nat) returns (info: string)
      requires Valid()
      modifies this`readIdx, this`writeIdx
      ensures Valid() && old(Contents()) == info + Contents()
      ensures |info| == if n <= |old(Contents())| then n else |old(Contents())|
    {
      var m := if n <= writeIdx - readIdx then n else writeIdx - readIdx;
      info := buffer[readIdx..readIdx + m];
      RetrieveReadBytes(m);
    }

    /** Reads up to and including the first occurrence of `s`, or everything if there is none. */
    method ReadUtil(s: string) returns (info: string)
      requires Valid()
      modifies this`readIdx, this`writeIdx
      ensures Valid() && old(Contents()) == info + Contents()
      ensures var i := Search(old(Contents()), s, 0);
              if i < |old(Contents())| then |info| == i + |s| && info[i..] == s else Contents() == ""
    {
      var i := Search(Contents(), s, 0);
      if i < writeIdx - readIdx {
        info := Contents()[..i + |s|];
        readIdx := readIdx + |info|;
      } else {
        info := ReadAll();
      }
    }
  }
}
