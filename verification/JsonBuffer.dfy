/** The growing buffer behind cJSON_PrintBuffered. */
module JsonBuffer {
  import opened CText
  import opened JsonSizes

  // The sizes that int arithmetic and pow2gt are good for.
  const MAX_SIZE: nat := 0x4000_0000

  class PrintBuffer {
    var buffer: array<char>
    var length: nat
    var offset: nat

    ghost predicate Valid()
      reads this
    {
      length == buffer.Length && offset <= length
    }

    // The text in front of the offset.
    ghost function Done(): Text
      reads this, buffer
      requires Valid()
    {
      buffer[..offset]
    }

    // Text t and its terminator stand at the offset.
    ghost predicate Holds(t: Text)
      reads this, buffer
      requires Valid()
    {
      offset + |t| < length && buffer[offset..offset + |t|] == t && buffer[offset + |t|] == '\0'
    }

    constructor (prebuffer: nat)
      requires prebuffer >= 1
      ensures Valid() && Done() == [] && length == prebuffer && fresh(buffer)
    {
      buffer := new char[prebuffer](_ => '\0');
      length, offset := prebuffer, 0;
    }

    // Makes room for needed characters at the offset.
    method Ensure(needed: nat)
      requires Valid() && 1 <= offset + needed <= MAX_SIZE
      modifies this
      ensures Valid() && offset == old(offset) && offset + needed <= length
      ensures buffer == old(buffer) || fresh(buffer)
      ensures old(length) <= length && buffer[..old(length)] == old(buffer[..])
      ensures if old(offset) + needed <= old(length) then buffer == old(buffer) && length == old(length)
              else IsLeastPower(length, old(offset) + needed)
    {
      var total := needed + offset;
      if total <= length {
        return;
      }
      var newsize := Pow2Gt(total);
      var newbuffer := new char[newsize](_ => '\0');
      var i := 0;
      while i < length
        invariant 0 <= i <= length && newbuffer[..i] == buffer[..i]
        modifies newbuffer
      {
        newbuffer[i] := buffer[i];
        i := i + 1;
      }
      length, buffer := newsize, newbuffer;
    }

    // The position of the terminator at or behind the offset.
    method Update(ghost t: Text) returns (end: nat)
      requires Valid() && Holds(t) && NulFree(t)
      ensures end == offset + |t|
    {
      end := offset;
      assert forall i | offset <= i < offset + |t| :: buffer[i] == buffer[offset..offset + |t|][i - offset];
      while buffer[end] != '\0'
        invariant offset <= end <= offset + |t|
        decreases offset + |t| - end
      {
        end := end + 1;
      }
    }

    // Writes t at the offset, with a terminator where the caller asks for one.
    method Write(t: Text, terminated: bool)
      requires Valid() && offset + |t| + (if terminated then 1 else 0) <= length
      modifies buffer
      ensures Valid() && Done() == old(Done()) && buffer[offset..offset + |t|] == t
      ensures terminated ==> Holds(t)
    {
      var ptr := offset;
      while ptr < offset + |t|
        invariant offset <= ptr <= offset + |t|
        invariant buffer[offset..ptr] == t[..ptr - offset] && buffer[..offset] == old(buffer[..offset])
      {
        buffer[ptr] := t[ptr - offset];
        ptr := ptr + 1;
      }
      if terminated {
        buffer[ptr] := '\0';
      }
    }

    // Leaves t with its terminator at the offset.
    method Place(t: Text, needed: nat)
      requires Valid() && |t| < needed && offset + needed <= MAX_SIZE
      modifies this, buffer
      ensures Valid() && (buffer == old(buffer) || fresh(buffer)) && offset == old(offset)
      ensures Done() == old(Done()) && Holds(t)
    {
      Ensure(needed);
      Write(t, true);
    }

    // Appends t and steps over it.
    method Append(t: Text, terminated: bool)
      requires Valid() && 1 <= offset + |t| && offset + |t| + 1 <= MAX_SIZE
      modifies this, buffer
      ensures Valid() && (buffer == old(buffer) || fresh(buffer))
      ensures Done() == old(Done()) + t
    {
      Ensure(if terminated then |t| + 1 else |t|);
      Write(t, terminated);
      offset := offset + |t|;
    }

    // Steps over the text that was placed at the offset.
    method StepOver(ghost t: Text)
      requires Valid() && Holds(t) && NulFree(t)
      modifies this
      ensures Valid() && buffer == old(buffer) && Done() == old(Done()) + t
    {
      offset := Update(t);
    }
  }
}
