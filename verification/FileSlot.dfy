/** src/source/file.c: the slot as the object its operations update in place.
    Each operation is one critical section of the slot's mutex (force_open_file
    is two) and is proved against its function in Slots.dfy. */
module FileSlots {
  import opened Basics
  import opened Slots

  class FileSlot {
    var owner: int
    var name: Name
    var data: Bytes
    var openSize: int
    var openData: Bytes
    var newSize: nat
    var created: int
    var freq: int
    var used: bool

    /** open_size is -1 exactly while there is no working copy. */
    predicate Valid()
      reads this
    {
      owner >= OWNER_NEXIST && if openSize == -1 then openData == [] else openSize == |openData|
    }

    function View(): Slot
      reads this
      requires Valid()
    {
      Slot(owner, name, data, if openSize == -1 then None else Some(openData), newSize, created, freq, used)
    }

    constructor ()
      ensures Valid() && View() == FREE
    {
      owner, name, data, openSize, openData, newSize := OWNER_NEXIST, [], [], -1, [], 0;
      created, freq, used := 0, 0, false;
    }

    method Reset()
      modifies this
      ensures Valid() && View() == FREE
    {
      owner, name, data, openSize, openData, newSize := OWNER_NEXIST, [], [], -1, [], 0;
      created, freq, used := 0, 0, false;
    }

    method MarkUsed()
      requires Valid()
      modifies this
      ensures Valid() && View() == Touch(old(View()))
    {
      freq := freq + 1;
      used := true;
    }

    method Create(filename: Name, who: int, now: int) returns (err: Errno)
      requires Valid()
      modifies this
      ensures Valid() && (View(), err) == Slots.Create(old(View()), filename, who, now)
    {
      if who <= OWNER_NEXIST { return EINVAL; }
      if owner != OWNER_NEXIST { return EEXIST; }
      owner := who;
      created := now;
      used := true;
      freq := 1;
      name := filename;
      return OK;
    }

    method Open(who: int) returns (err: Errno)
      requires Valid()
      modifies this
      ensures Valid() && (View(), err) == Slots.Open(old(View()), who)
    {
      if who <= OWNER_NEXIST { return EINVAL; }
      if owner == OWNER_NEXIST { return ENOENT; }
      if owner != OWNER_NULL && owner != who { return EAGAIN; }
      if openSize == -1 {
        if |data| == 0 {
          openSize := 0;
        } else {
          openData := Clone(data);
          openSize := |openData|;
        }
      }
      owner := who;
      MarkUsed();
      return OK;
    }

    method Close(who: int) returns (err: Errno, difference: int)
      requires Valid()
      modifies this
      ensures Valid() && (View(), err, difference) == Slots.Close(old(View()), who)
    {
      difference := 0;
      if who <= OWNER_NEXIST { return EINVAL, difference; }
      if owner == OWNER_NEXIST { return ENOENT, difference; }
      if owner != OWNER_NULL && owner != who { return EAGAIN, difference; }
      if openSize != -1 {
        if openSize > 0 {
          var oldSize := |data| + newSize;
          data := Clone(openData);
          difference := oldSize - |data|;
        }
        openData := [];
        openSize := -1;
        newSize := 0;
        owner := OWNER_NULL;
      }
      MarkUsed();
      return OK, difference;
    }

    method Read(who: int) returns (err: Errno, out: Bytes)
      requires Valid()
      modifies this
      ensures Valid() && (View(), err, out) == Slots.Read(old(View()), who)
    {
      if who <= OWNER_NEXIST { return EINVAL, []; }
      if owner == OWNER_NEXIST { return ENOENT, []; }
      if owner != OWNER_NULL && owner != who { return EAGAIN, []; }
      if openSize == -1 { return EPERM, []; }
      out := openData;
      MarkUsed();
      return OK, out;
    }

    method Write(who: int, bytes: Bytes) returns (err: Errno)
      requires Valid()
      modifies this
      ensures Valid() && (View(), err) == Slots.Write(old(View()), who, bytes)
    {
      if who <= OWNER_NEXIST || |bytes| == 0 { return EINVAL; }
      if owner == OWNER_NEXIST { return ENOENT; }
      if owner != who { return EAGAIN; }
      if openSize == -1 { return EPERM; }
      if openSize != 0 { return EEXIST; }
      openData := bytes;
      openSize := |bytes|;
      newSize := |bytes|;
      MarkUsed();
      return OK;
    }

    method Append(who: int, bytes: Bytes) returns (err: Errno)
      requires Valid()
      modifies this
      ensures Valid() && (View(), err) == Slots.Append(old(View()), who, bytes)
    {
      if who <= OWNER_NEXIST || |bytes| == 0 { return EINVAL; }
      if owner == OWNER_NEXIST { return ENOENT; }
      if owner != OWNER_NULL && owner != who { return EAGAIN; }
      if openSize == -1 { return EPERM; }
      openData := openData + bytes;
      openSize := openSize + |bytes|;
      newSize := newSize + |bytes|;
      MarkUsed();
      return OK;
    }

    method Lock(who: int) returns (err: Errno)
      requires Valid()
      modifies this
      ensures Valid() && (View(), err) == Slots.Lock(old(View()), who)
    {
      if who <= OWNER_NEXIST { return EINVAL; }
      if owner == OWNER_NEXIST { return ENOENT; }
      if owner != OWNER_NULL && owner != who { return EAGAIN; }
      if openSize == -1 { return EPERM; }
      owner := who;
      MarkUsed();
      return OK;
    }

    method Unlock(who: int) returns (err: Errno)
      requires Valid()
      modifies this
      ensures Valid() && (View(), err) == Slots.Unlock(old(View()), who)
    {
      if who <= OWNER_NEXIST { return EINVAL; }
      if owner == OWNER_NEXIST { return ENOENT; }
      if owner != who { return EAGAIN; }
      if openSize == -1 { return EPERM; }
      owner := OWNER_NULL;
      MarkUsed();
      return OK;
    }

    method Remove(who: int) returns (err: Errno, size: int)
      requires Valid()
      modifies this
      ensures Valid() && (View(), err, size) == Slots.Remove(old(View()), who)
    {
      if who < OWNER_NEXIST { return EINVAL, 0; }
      if owner == OWNER_NEXIST { return ENOENT, 0; }
      if owner == OWNER_NULL || owner != who { return EAGAIN, 0; }
      size := |data| + newSize;
      Reset();
      return OK, size;
    }

    /** force_open_file: the claim, then an ordinary open as the administrator. */
    method ForceOpen() returns (err: Errno)
      requires Valid()
      modifies this
      ensures Valid()
      ensures var (claimed, e) := Claim(old(View()));
              (View(), err) == if e == OK then Slots.Open(claimed, OWNER_ADMIN) else (claimed, e)
    {
      if owner == OWNER_NEXIST { return ENOENT; }
      if owner == OWNER_ADMIN { return EAGAIN; }
      owner := OWNER_ADMIN;
      err := Open(OWNER_ADMIN);
    }

    method UpdateUsed(newval: bool)
      requires Valid()
      modifies this
      ensures Valid()
      ensures View() == if old(View()).owner == OWNER_NEXIST then old(View()) else old(View()).(used := newval)
    {
      if owner != OWNER_NEXIST {
        used := newval;
      }
    }
  }

  /** src/source/server/server_compression.c: both directions of the codec copy
      their input byte by byte. */
  method Clone(input: Bytes) returns (output: Bytes)
    ensures output == input
  {
    output := [];
    for i := 0 to |input|
      invariant output == input[..i]
    {
      output := output + [input[i]];
    }
  }
}
