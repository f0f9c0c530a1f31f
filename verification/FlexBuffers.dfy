/** The flexible buffer that stream handlers pass along: a window of data inside a larger
    buffer, with room before it for headers. */
module FlexBuffers {
  import opened Bytes

  const FLEX_PADDING_LEN := 128
  const IOEX_MAX_USER_DATA_LEN := 2048
  const FLEX_BUFFER_MAX_LEN := FLEX_PADDING_LEN * 2 + IOEX_MAX_USER_DATA_LEN

  class FlexBuffer {
    const buffer: array<Byte>
    var offset: nat
    var size: nat

    ghost predicate Valid()
      reads this
    {
      offset + size <= buffer.Length
    }

    /** The data in the window. */
    function Data(): (s: seq<Byte>)
      requires Valid()
      reads this, buffer
      ensures |s| == size
    {
      buffer[offset..offset + size]
    }

    /** flex_buffer: an empty window at the given offset. */
    constructor (capacity: nat, start: nat)
      requires start <= capacity
      ensures Valid() && Data() == [] && buffer.Length == capacity && offset == start && fresh(buffer)
    {
      buffer := new Byte[capacity](_ => 0);
      offset := start;
      size := 0;
    }

    /** flex_buffer_from: a copy of `data` behind a headroom. */
    constructor From(start: nat, data: seq<Byte>)
      ensures Valid() && Data() == data && buffer.Length == start + |data| && offset == start && fresh(buffer)
    {
      buffer := new Byte[start + |data|](
        i requires 0 <= i < start + |data| => if i < start then 0 else data[i - start]);
      offset := start;
      size := |data|;
    }

    /** flex_buffer_forward_offset: drops bytes at the front. */
    method Forward(bytes: nat)
      requires Valid() && bytes <= size
      modifies this
      ensures Valid() && offset == old(offset) + bytes && Data() == old(Data())[bytes..]
    {
      offset := offset + bytes;
      size := size - bytes;
    }

    /** flex_buffer_backward_offset: takes in bytes of the headroom. */
    method Backward(bytes: nat)
      requires Valid() && bytes <= offset
      modifies this
      ensures Valid() && offset == old(offset) - bytes
      ensures Data() == old(buffer[offset - bytes..offset]) + old(Data())
    {
      offset := offset - bytes;
      size := size + bytes;
    }

    /** Writing through the payload pointer, whatever the size says. */
    method Store(bytes: seq<Byte>)
      requires offset + |bytes| <= buffer.Length
      modifies buffer
      ensures buffer[offset..offset + |bytes|] == bytes
      ensures forall i :: 0 <= i < buffer.Length && !(offset <= i < offset + |bytes|) ==> buffer[i] == old(buffer[i])
    {
      for i := 0 to |bytes|
        invariant forall j :: 0 <= j < i ==> buffer[offset + j] == bytes[j]
        invariant forall j :: 0 <= j < buffer.Length && !(offset <= j < offset + i) ==> buffer[j] == old(buffer[j])
      {
        buffer[offset + i] := bytes[i];
      }
    }

    /** Prepending a header: the window grows into the headroom and the header goes there. */
    method Prepend(head: seq<Byte>)
      requires Valid() && |head| <= offset
      modifies this, buffer
      ensures Valid() && offset == old(offset) - |head| && Data() == head + old(Data())
    {
      Backward(|head|);
      Store(head);
    }

    /** flex_buffer_set_size */
    method SetSize(n: nat)
      requires offset + n <= buffer.Length
      modifies this
      ensures Valid() && size == n && offset == old(offset)
    {
      size := n;
    }

    /** flex_buffer_reset */
    method Reset(start: nat)
      requires start <= buffer.Length
      modifies this
      ensures Valid() && offset == start && Data() == []
    {
      offset := start;
      size := 0;
    }

    function Available(): nat
      requires Valid()
      reads this
    {
      buffer.Length - offset - size
    }

    /** flex_buffer_append2: appends up to `len` bytes of src; what does not fit is dropped. */
    method Append(src: FlexBuffer, len: nat)
      requires Valid() && src.Valid() && src != this && src.buffer != buffer && len <= src.size
      modifies this, buffer
      ensures Valid() && offset == old(offset) && src.Valid()
      ensures var n := if len < old(Available()) then len else old(Available());
              Data() == old(Data()) + old(src.Data())[..n]
    {
      var n := if len < Available() then len else Available();
      for i := 0 to n
        invariant offset == old(offset) && size == old(size)
        invariant forall j :: 0 <= j < i ==> buffer[offset + size + j] == old(src.Data())[j]
        invariant forall j :: 0 <= j < offset + size ==> buffer[j] == old(buffer[j])
      {
        buffer[offset + size + i] := src.buffer[src.offset + i];
      }
      size := size + n;
    }
  }
}
