/** What each operation of the file layer answers and what it leaves behind, field by
    field and for every state of the slot it can meet. */
module Operations {
  import opened Basics
  import opened Slots

  /** Nobody else has the file. */
  predicate MayUse(s: Slot, who: int) {
    Exists(s) && (s.owner == OWNER_NULL || s.owner == who)
  }

  predicate IsOpen(s: Slot) {
    s.working.Some?
  }

  /** A slot after a use: the frequency counts it and the reference bit remembers it. */
  predicate UsedOnce(s: Slot, t: Slot) {
    t.freq == s.freq + 1 && t.used && t.created == s.created
  }

  lemma CreateExactly(s: Slot, name: Name, who: int, now: int)
    requires Coherent(s)
    ensures var (t, e) := Create(s, name, who, now);
            && (e == OK <==> who >= OWNER_NULL && !Exists(s)) && (e == EEXIST <==> who >= OWNER_NULL && Exists(s))
            && if e == OK then t == Slot(who, name, [], None, 0, now, 1, true) else t == s
  {
  }

  /** An open makes the closed copy the working copy, or keeps the one there is. */
  lemma OpenExactly(s: Slot, who: int)
    requires Coherent(s) && who >= OWNER_NULL
    ensures var (t, e) := Open(s, who);
            && (e == OK <==> MayUse(s, who)) && (e == ENOENT <==> !Exists(s)) && e in {OK, ENOENT, EAGAIN}
            && if e == OK then
                 UsedOnce(s, t) &&
                 t == s.(owner := who, working := Some(Contents(s)), freq := t.freq, used := t.used)
               else t == s
  {
  }

  /** A close makes what was visible the closed copy; an open file becomes nobody's. */
  lemma CloseExactly(s: Slot, who: int)
    requires Coherent(s) && who >= OWNER_NULL
    ensures var (t, e, diff) := Close(s, who);
            && (e == OK <==> MayUse(s, who)) && (e == ENOENT <==> !Exists(s)) && e in {OK, ENOENT, EAGAIN} && diff == 0
            && if e == OK then
                 UsedOnce(s, t) &&
                 t == s.(owner := if IsOpen(s) then OWNER_NULL else s.owner, data := Contents(s), working := None,
                         added := 0, freq := t.freq, used := t.used)
               else t == s
  {
    if s.working.Some? && |s.working.value| == 0 {
      assert s.data == [];
    }
  }

  lemma ReadExactly(s: Slot, who: int)
    requires Coherent(s) && who >= OWNER_NULL
    ensures var (t, e, bytes) := Read(s, who);
            && (e == OK <==> MayUse(s, who) && IsOpen(s)) && (e == ENOENT <==> !Exists(s))
            && (e == EPERM <==> MayUse(s, who) && !IsOpen(s)) && e in {OK, ENOENT, EAGAIN, EPERM}
            && if e == OK then
                 UsedOnce(s, t) && t == s.(freq := t.freq, used := t.used) && bytes == Contents(s)
               else t == s && bytes == []
  {
  }

  /** A write needs an empty open file of the writer's own, and a payload. */
  lemma WriteExactly(s: Slot, who: int, bytes: Bytes)
    requires Coherent(s) && who > OWNER_NULL
    ensures var (t, e) := Write(s, who, bytes);
            && (e == EINVAL <==> bytes == [])
            && (e == OK <==> bytes != [] && s.owner == who && IsOpen(s) && Contents(s) == [])
            && (e == ENOENT <==> bytes != [] && !Exists(s))
            && (e == EAGAIN <==> bytes != [] && Exists(s) && s.owner != who)
            && (e == EPERM <==> bytes != [] && s.owner == who && !IsOpen(s))
            && if e == OK then
                 UsedOnce(s, t) &&
                 t == s.(working := Some(bytes), added := |bytes|, freq := t.freq, used := t.used) && s.data == []
               else t == s
  {
    if s.working.Some? && |s.working.value| == 0 {
      assert s.data == [];
    }
  }

  /** An append needs an open file that nobody else has, and a payload. */
  lemma AppendExactly(s: Slot, who: int, bytes: Bytes)
    requires Coherent(s) && who >= OWNER_NULL
    ensures var (t, e) := Append(s, who, bytes);
            && (e == EINVAL <==> bytes == [])
            && (e == OK <==> bytes != [] && MayUse(s, who) && IsOpen(s))
            && (e == ENOENT <==> bytes != [] && !Exists(s))
            && (e == EPERM <==> bytes != [] && MayUse(s, who) && !IsOpen(s)) && e != EEXIST
            && if e == OK then
                 UsedOnce(s, t) &&
                 t == s.(working := Some(Contents(s) + bytes), added := s.added + |bytes|,
                         freq := t.freq, used := t.used)
               else t == s
  {
  }

  lemma LockExactly(s: Slot, who: int)
    requires Coherent(s) && who >= OWNER_NULL
    ensures var (t, e) := Lock(s, who);
            && (e == OK <==> MayUse(s, who) && IsOpen(s)) && (e == ENOENT <==> !Exists(s))
            && (e == EPERM <==> MayUse(s, who) && !IsOpen(s)) && e in {OK, ENOENT, EAGAIN, EPERM}
            && if e == OK then UsedOnce(s, t) && t == s.(owner := who, freq := t.freq, used := t.used) else t == s
  {
  }

  lemma UnlockExactly(s: Slot, who: int)
    requires Coherent(s) && who > OWNER_NULL
    ensures var (t, e) := Unlock(s, who);
            && (e == OK <==> s.owner == who && IsOpen(s)) && (e == ENOENT <==> !Exists(s))
            && (e == EPERM <==> s.owner == who && !IsOpen(s)) && e in {OK, ENOENT, EAGAIN, EPERM}
            && if e == OK then UsedOnce(s, t) && t == s.(owner := OWNER_NULL, freq := t.freq, used := t.used)
               else t == s
  {
  }

  lemma RemoveExactly(s: Slot, who: int)
    requires Coherent(s) && who > OWNER_NULL
    ensures var (t, e, size) := Remove(s, who);
            && (e == OK <==> s.owner == who) && (e == ENOENT <==> !Exists(s)) && e in {OK, ENOENT, EAGAIN}
            && if e == OK then t == FREE && size == |Contents(s)| else t == s && size == 0
  {
  }

  lemma ClaimExactly(s: Slot)
    requires Coherent(s)
    ensures var (t, e) := Claim(s);
            && (e == OK <==> Exists(s) && s.owner != OWNER_ADMIN) && (e == ENOENT <==> !Exists(s))
            && e in {OK, ENOENT, EAGAIN}
            && t == if e == OK then s.(owner := OWNER_ADMIN) else s
  {
  }
}
