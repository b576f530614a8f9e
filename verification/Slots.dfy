/** The state of one file slot as a value, and what each operation of
    src/source/file.c does to it.  The class in FileSlot.dfy is proved against
    these functions; the server and the interleaved model are built on them. */
module Slots {
  import opened Basics

  /** `data` is the closed copy, `working` the working copy (None while open_size
      is -1), `added` the bytes written since the last open (new_size). */
  datatype Slot = Slot(
    owner: int,
    name: Name,
    data: Bytes,
    working: Option<Bytes>,
    added: nat,
    created: int,
    freq: int,
    used: bool)

  const FREE := Slot(OWNER_NEXIST, [], [], None, 0, 0, 0, false)

  predicate Exists(s: Slot) {
    s.owner != OWNER_NEXIST
  }

  /** The size the accounting charges for a slot: data_size + new_size. */
  function SizeOf(s: Slot): nat {
    |s.data| + s.added
  }

  /** The bytes a reader of the slot would see once it is open. */
  function Contents(s: Slot): Bytes {
    if s.working.Some? then s.working.value else s.data
  }

  /** What every operation of the file layer keeps. */
  predicate Coherent(s: Slot) {
    && s.owner >= OWNER_NEXIST
    && (s.owner == OWNER_NEXIST ==> s == FREE)
    && (s.working.Some? ==> s.data <= s.working.value && |s.working.value| == |s.data| + s.added)
    && (s.working.None? ==> s.added == 0)
  }

  /** Every successful operation counts as a use. */
  function Touch(s: Slot): Slot {
    s.(freq := s.freq + 1, used := true)
  }

  function Create(s: Slot, name: Name, who: int, now: int): (Slot, Errno) {
    if who <= OWNER_NEXIST then (s, EINVAL)
    else if s.owner != OWNER_NEXIST then (s, EEXIST)
    else (s.(owner := who, created := now, used := true, freq := 1, name := name), OK)
  }

  function Open(s: Slot, who: int): (Slot, Errno) {
    if who <= OWNER_NEXIST then (s, EINVAL)
    else if s.owner == OWNER_NEXIST then (s, ENOENT)
    else if s.owner != OWNER_NULL && s.owner != who then (s, EAGAIN)
    else
      var copy := if s.working.Some? then s.working else Some(s.data);
      (Touch(s.(working := copy, owner := who)), OK)
  }

  /** The third component is the size difference the close reports; a caller
      passes in 0 and keeps it when the file was closed or empty. */
  function Close(s: Slot, who: int): (Slot, Errno, int) {
    if who <= OWNER_NEXIST then (s, EINVAL, 0)
    else if s.owner == OWNER_NEXIST then (s, ENOENT, 0)
    else if s.owner != OWNER_NULL && s.owner != who then (s, EAGAIN, 0)
    else if s.working.None? then (Touch(s), OK, 0)
    else
      var stored := if |s.working.value| > 0 then s.working.value else s.data;
      var diff := if |s.working.value| > 0 then SizeOf(s) - |stored| else 0;
      (Touch(s.(data := stored, working := None, added := 0, owner := OWNER_NULL)), OK, diff)
  }

  function Read(s: Slot, who: int): (Slot, Errno, Bytes) {
    if who <= OWNER_NEXIST then (s, EINVAL, [])
    else if s.owner == OWNER_NEXIST then (s, ENOENT, [])
    else if s.owner != OWNER_NULL && s.owner != who then (s, EAGAIN, [])
    else if s.working.None? then (s, EPERM, [])
    else (Touch(s), OK, s.working.value)
  }

  function Write(s: Slot, who: int, bytes: Bytes): (Slot, Errno) {
    if who <= OWNER_NEXIST || |bytes| == 0 then (s, EINVAL)
    else if s.owner == OWNER_NEXIST then (s, ENOENT)
    else if s.owner != who then (s, EAGAIN)
    else if s.working.None? then (s, EPERM)
    else if |s.working.value| != 0 then (s, EEXIST)
    else (Touch(s.(working := Some(bytes), added := |bytes|)), OK)
  }

  function Append(s: Slot, who: int, bytes: Bytes): (Slot, Errno) {
    if who <= OWNER_NEXIST || |bytes| == 0 then (s, EINVAL)
    else if s.owner == OWNER_NEXIST then (s, ENOENT)
    else if s.owner != OWNER_NULL && s.owner != who then (s, EAGAIN)
    else if s.working.None? then (s, EPERM)
    else (Touch(s.(working := Some(s.working.value + bytes), added := s.added + |bytes|)), OK)
  }

  function Lock(s: Slot, who: int): (Slot, Errno) {
    if who <= OWNER_NEXIST then (s, EINVAL)
    else if s.owner == OWNER_NEXIST then (s, ENOENT)
    else if s.owner != OWNER_NULL && s.owner != who then (s, EAGAIN)
    else if s.working.None? then (s, EPERM)
    else (Touch(s.(owner := who)), OK)
  }

  function Unlock(s: Slot, who: int): (Slot, Errno) {
    if who <= OWNER_NEXIST then (s, EINVAL)
    else if s.owner == OWNER_NEXIST then (s, ENOENT)
    else if s.owner != who then (s, EAGAIN)
    else if s.working.None? then (s, EPERM)
    else (Touch(s.(owner := OWNER_NULL)), OK)
  }

  /** The third component is the size of the removed file. */
  function Remove(s: Slot, who: int): (Slot, Errno, int) {
    if who < OWNER_NEXIST then (s, EINVAL, 0)
    else if s.owner == OWNER_NEXIST then (s, ENOENT, 0)
    else if s.owner == OWNER_NULL || s.owner != who then (s, EAGAIN, 0)
    else (FREE, OK, SizeOf(s))
  }

  /** The first of the two critical sections of force_open_file: take the slot
      for the administrator whoever owns it. */
  function Claim(s: Slot): (Slot, Errno) {
    if s.owner == OWNER_NEXIST then (s, ENOENT)
    else if s.owner != OWNER_ADMIN then (s.(owner := OWNER_ADMIN), OK)
    else (s, EAGAIN)
  }

  /** `t` holds the same file as `s`: owner, open state and usage data may
      differ, the name, the bytes and the charged size do not. */
  predicate SameFile(s: Slot, t: Slot) {
    && Exists(s) == Exists(t)
    && s.name == t.name
    && Contents(s) == Contents(t)
    && SizeOf(s) == SizeOf(t)
    && Coherent(t)
  }

  lemma OpenQuiet(s: Slot, who: int)
    requires Coherent(s)
    ensures SameFile(s, Open(s, who).0)
  {
  }

  lemma CloseQuiet(s: Slot, who: int)
    requires Coherent(s)
    ensures SameFile(s, Close(s, who).0) && Close(s, who).2 == 0
  {
    if s.working.Some? && |s.working.value| == 0 {
      assert s.data == [];
    }
  }

  /** Open, close, read, lock, unlock and claim never change what a file holds,
      and a close reports no difference because the codec is a clone. */
  lemma QuietOperations(s: Slot, who: int)
    requires Coherent(s)
    ensures SameFile(s, Open(s, who).0)
    ensures SameFile(s, Close(s, who).0) && Close(s, who).2 == 0
    ensures SameFile(s, Read(s, who).0)
    ensures Read(s, who).1 == OK ==> Read(s, who).2 == Contents(s)
    ensures SameFile(s, Lock(s, who).0)
    ensures SameFile(s, Unlock(s, who).0)
    ensures SameFile(s, Claim(s).0)
  {
    OpenQuiet(s, who);
    CloseQuiet(s, who);
  }

  /** A successful write or append extends the contents by exactly the payload
      and the charged size by exactly its length. */
  lemma GrowingOperations(s: Slot, who: int, bytes: Bytes)
    requires Coherent(s)
    ensures var (t, e) := Write(s, who, bytes);
            if e == OK then
              Coherent(t) && t.name == s.name && t.owner == s.owner == who && Contents(s) == [] &&
              Contents(t) == bytes && SizeOf(t) == SizeOf(s) + |bytes|
            else t == s
    ensures var (t, e) := Append(s, who, bytes);
            if e == OK then
              Coherent(t) && t.name == s.name && t.owner == s.owner && (s.owner == OWNER_NULL || s.owner == who) &&
              Contents(t) == Contents(s) + bytes && SizeOf(t) == SizeOf(s) + |bytes|
            else t == s
  {
    if s.working.Some? {
      assert s.data <= s.working.value + bytes;
      if |s.working.value| == 0 {
        assert s.data == [];
      }
    }
  }

  /** While somebody else owns a file, no operation of a client gets at it. */
  lemma OwnerExcludesOthers(s: Slot, who: int, bytes: Bytes)
    requires s.owner > OWNER_NULL && who >= OWNER_NULL && who != s.owner
    ensures Open(s, who) == Lock(s, who) == Unlock(s, who) == (s, EAGAIN)
    ensures Close(s, who) == Remove(s, who) == (s, EAGAIN, 0)
    ensures Read(s, who) == (s, EAGAIN, [])
    ensures Write(s, who, bytes).0 == Append(s, who, bytes).0 == s
    ensures Write(s, who, bytes).1 != OK && Append(s, who, bytes).1 != OK
  {
  }
}
