// lock_object and unlock_object run by any number of threads on any number of
// objects.  A step of a thread is one access to shared memory with the
// register instructions that follow it; the steps of different threads
// interleave freely.  Memory is sequentially consistent, which is what the
// sync and isync around the exchange are for.
module ThinLock {

  type Tid(==) = nat
  type Object(==) = nat
  type Entry = int  // the address of a BasicObjectLock, which is that of its lock

  const UNLOCKED_VALUE := 1

  // displaced | unlocked_value
  function SetUnlocked(mark: int): int { if mark % 2 == 1 then mark else mark + UNLOCKED_VALUE }

  // It sets the low bit and no other.
  lemma SetUnlockedSets(mark: int)
    ensures SetUnlocked(mark) % 2 == 1 && SetUnlocked(mark) / 2 == mark / 2
  {
  }

  datatype Mode = Locking | Unlocking

  // Where a thread is: outside the two routines; before each access to shared
  // memory in them; after the exchange, with the condition in cr0; or in
  // unimplemented().
  datatype Pc =
    | Idle
    | LoadMark          // load (displaced, mark word); ori
    | StoreDisplaced    // store (displaced, lock's displaced header)
    | LoadHeader        // load (header, lock's displaced header); compare; beq
    | Reserve           // load_and_reserve_indexed (r0, 0, dst)
    | Compare           // compare (r0, comp); bne (done)
    | StoreConditional  // store_conditional_indexed (exchange, 0, dst); bne (loop)
    | Branch(eq: bool)  // beq (done)
    | Unimplemented

  datatype Reservation = NoReservation | Reserved(object: Object)

  datatype Thread = Thread(
    pc: Pc, mode: Mode,
    entry: Entry, lockee: Object,    // arguments, as loaded
    exchange: int, comp: int, r0: int,
    reservation: Reservation,
    held: set<Entry>)                // locked by lock_object, not yet unlocked

  datatype State = State(
    marks: map<Object, int>,         // the mark words
    objects: map<Entry, Object>,     // the entries' object fields
    displaced: map<Entry, int>,      // the entries' displaced headers
    threads: map<Tid, Thread>)

  // What stays fixed: whose stack an entry is on, and the unlocked mark words.
  datatype World = World(owner: map<Entry, Tid>, unlocked: map<Object, int>)

  datatype Action =
    | Lock(t: Tid, e: Entry, o: Object)  // enter lock_object with entry e for object o
    | Unlock(t: Tid, e: Entry)           // enter unlock_object
    | Step(t: Tid)
    | FailStore(t: Tid)                  // the conditional store fails, for any reason
    | LoseReservation(t: Tid)            // another store, or nothing in particular

  datatype Option<+T> = None | Some(value: T)

  function Local(s: State, t: Tid, th: Thread): State { s.(threads := s.threads[t := th]) }

  // A store to o's mark word takes away every other reservation of it.
  function Invalidate(threads: map<Tid, Thread>, o: Object): map<Tid, Thread> {
    map t | t in threads ::
      if threads[t].reservation == Reserved(o) then threads[t].(reservation := NoReservation) else threads[t]
  }

  // What the next step of thread t does.
  function Advance(s: State, t: Tid): Option<State>
    requires t in s.threads
  {
    var th := s.threads[t];
    match th.pc
    case LoadMark =>
      if th.entry in s.objects && s.objects[th.entry] in s.marks then
        var o := s.objects[th.entry];
        Some(Local(s, t, th.(lockee := o, comp := SetUnlocked(s.marks[o]), exchange := th.entry, pc := StoreDisplaced)))
      else None
    case StoreDisplaced =>
      Some(Local(s, t, th.(pc := Reserve)).(displaced := s.displaced[th.entry := th.comp]))
    case LoadHeader =>
      if th.entry in s.objects && th.entry in s.displaced then
        var header := s.displaced[th.entry];
        if header == 0 then Some(Local(s, t, th.(pc := Idle, held := th.held - {th.entry})))
        else Some(Local(s, t, th.(lockee := s.objects[th.entry], comp := th.entry, exchange := header, pc := Reserve)))
      else None
    case Reserve =>
      if th.lockee in s.marks then
        Some(Local(s, t, th.(r0 := s.marks[th.lockee], reservation := Reserved(th.lockee), pc := Compare)))
      else None
    case Compare =>
      Some(Local(s, t, th.(pc := if th.r0 == th.comp then StoreConditional else Branch(false))))
    case StoreConditional =>
      if th.reservation == Reserved(th.lockee) then
        Some(s.(marks := s.marks[th.lockee := th.exchange],
                threads := Invalidate(s.threads, th.lockee)[t := th.(reservation := NoReservation, pc := Branch(true))]))
      else None
    case Branch(eq) =>
      if !eq then Some(Local(s, t, th.(pc := Unimplemented)))
      else if th.mode == Locking then Some(Local(s, t, th.(pc := Idle, held := th.held + {th.entry})))
      else Some(Local(s, t, th.(pc := Idle, held := th.held - {th.entry})))
    case Idle => None
    case Unimplemented => None
  }

  // The state after an action, if the action can happen.
  function Apply(w: World, s: State, a: Action): Option<State> {
    if a.t !in s.threads then None
    else
      var th := s.threads[a.t];
      match a
      case Lock(t, e, o) =>
        if th.pc == Idle && e in w.owner && w.owner[e] == t && e !in th.held && o in s.marks then
          Some(Local(s, t, th.(pc := LoadMark, mode := Locking, entry := e)).(objects := s.objects[e := o]))
        else None
      case Unlock(t, e) =>
        if th.pc == Idle && e in th.held then Some(Local(s, t, th.(pc := LoadHeader, mode := Unlocking, entry := e)))
        else None
      case Step(t) => Advance(s, t)
      case FailStore(t) =>
        if th.pc == StoreConditional then Some(Local(s, t, th.(reservation := NoReservation, pc := Reserve)))
        else None
      case LoseReservation(t) => Some(Local(s, t, th.(reservation := NoReservation)))
  }

  // Entries are aligned and mark words start out unlocked.
  ghost predicate ValidWorld(w: World) {
    && (forall e :: e in w.owner ==> e % 4 == 0 && e != 0)
    && (forall o :: o in w.unlocked ==> w.unlocked[o] % 2 == 1)
  }

  ghost predicate Initial(w: World, s: State) {
    && s.marks == w.unlocked
    && (forall t :: t in s.threads ==> s.threads[t].pc == Idle && s.threads[t].held == {} && s.threads[t].reservation == NoReservation)
  }

  // From the conditional store that swaps the lock in to the one that swaps
  // it out.
  predicate Owns(th: Thread, e: Entry) {
    if th.entry == e && th.pc == Branch(true) then th.mode == Locking else e in th.held
  }

  // What is known of a thread wherever it is.
  ghost predicate ThreadOk(w: World, s: State, t: Tid, th: Thread) {
    && (forall e :: e in th.held ==> e in w.owner && w.owner[e] == t)
    && (th.pc != Idle && th.pc != Unimplemented ==>
          th.entry in w.owner && w.owner[th.entry] == t && (th.mode == Unlocking <==> th.entry in th.held)
          && th.entry in s.objects && s.objects[th.entry] in w.unlocked)
    && (th.pc == LoadMark || th.pc == StoreDisplaced ==> th.mode == Locking)
    && (th.pc == LoadHeader ==> th.mode == Unlocking)
    && (th.pc == StoreDisplaced || th.pc == Reserve || th.pc == Compare || th.pc == StoreConditional || th.pc == Branch(true) ==>
          th.lockee == s.objects[th.entry] && Operands(s, th))
    && ((th.pc == Compare || th.pc == StoreConditional) && th.reservation == Reserved(th.lockee) ==>
          th.lockee in s.marks && s.marks[th.lockee] == th.r0)
    && (th.pc == StoreConditional ==> th.r0 == th.comp)
    && (th.mode == Unlocking && th.pc == Compare ==> th.r0 == th.entry)
    && (th.mode == Unlocking ==> th.pc != Branch(false) && th.pc != Unimplemented)
  }

  ghost predicate Operands(s: State, th: Thread) {
    if th.mode == Locking then
      th.exchange == th.entry && th.comp % 2 == 1
      && (th.pc != StoreDisplaced ==> th.entry in s.displaced && s.displaced[th.entry] == th.comp)
    else
      th.comp == th.entry && th.entry in s.displaced && th.exchange == s.displaced[th.entry]
  }

  // A held lock: the mark word is the lock's address, and its displaced header
  // the original, unlocked mark.
  ghost predicate Locked(w: World, s: State, e: Entry) {
    && e in s.objects && e in s.displaced && s.objects[e] in s.marks && s.objects[e] in w.unlocked
    && s.marks[s.objects[e]] == e && s.displaced[e] == w.unlocked[s.objects[e]]
  }

  ghost predicate OwnedBy(s: State, t: Tid, e: Entry) { t in s.threads && Owns(s.threads[t], e) }

  // A thread is between a successful lock_object and its unlock_object.
  ghost predicate Holds(s: State, t: Tid, e: Entry, o: Object) {
    OwnedBy(s, t, e) && e in s.objects && s.objects[e] == o
  }

  ghost predicate Invariant(w: World, s: State) {
    && s.marks.Keys == w.unlocked.Keys
    && (forall t :: t in s.threads ==> ThreadOk(w, s, t, s.threads[t]))
    && (forall t, e :: OwnedBy(s, t, e) ==> Locked(w, s, e))
    && (forall o :: o in s.marks ==> s.marks[o] == w.unlocked[o] || exists t :: Holds(s, t, s.marks[o], o))
  }

  lemma InitialIsOk(w: World, s: State)
    requires ValidWorld(w) && Initial(w, s)
    ensures Invariant(w, s)
  {
  }

  lemma OwnersEntry(w: World, s: State, t: Tid, e: Entry)
    requires Invariant(w, s) && OwnedBy(s, t, e)
    ensures e in w.owner && w.owner[e] == t
  {
  }

  // A step of t that stores to no mark word, writes only its own entry's
  // fields and leaves what t owns as it was.
  ghost predicate LocalStep(w: World, s: State, t: Tid, e: Entry, s': State) {
    && t in s.threads && t in s'.threads && s' == s.(objects := s'.objects, displaced := s'.displaced, threads := s.threads[t := s'.threads[t]])
    && e in w.owner && w.owner[e] == t
    && (s'.objects == s.objects || (e in s'.objects && s'.objects == s.objects[e := s'.objects[e]]))
    && (s'.displaced == s.displaced || (e in s'.displaced && s'.displaced == s.displaced[e := s'.displaced[e]]))
    && ((s'.objects == s.objects && s'.displaced == s.displaced) || !Owns(s.threads[t], e))
    && (forall x :: Owns(s'.threads[t], x) <==> Owns(s.threads[t], x))
  }

  lemma OtherThreadKept(w: World, s: State, t: Tid, e: Entry, s': State, u: Tid)
    requires LocalStep(w, s, t, e, s') && u in s.threads && u != t && ThreadOk(w, s, u, s.threads[u])
    ensures ThreadOk(w, s', u, s'.threads[u])
  {
  }

  lemma LocksKept(w: World, s: State, t: Tid, e: Entry, s': State)
    requires Invariant(w, s) && LocalStep(w, s, t, e, s')
    ensures forall u, x :: OwnedBy(s', u, x) ==> Locked(w, s', x)
    ensures forall o :: o in s'.marks ==> s'.marks[o] == w.unlocked[o] || exists u :: Holds(s', u, s'.marks[o], o)
  {
    hide ThreadOk;
    forall u, x | OwnedBy(s', u, x) ensures Locked(w, s', x) {
      assert OwnedBy(s, u, x);
      OwnersEntry(w, s, u, x);
    }
    forall o | o in s'.marks ensures s'.marks[o] == w.unlocked[o] || exists u :: Holds(s', u, s'.marks[o], o) {
      if s.marks[o] != w.unlocked[o] {
        var u :| Holds(s, u, s.marks[o], o);
        OwnersEntry(w, s, u, s.marks[o]);
        assert Holds(s', u, s'.marks[o], o);
      }
    }
  }

  lemma LocalStepKeeps(w: World, s: State, t: Tid, th: Thread, objects: map<Entry, Object>, displaced: map<Entry, int>, e: Entry)
    requires Invariant(w, s) && t in s.threads
    requires LocalStep(w, s, t, e, s.(objects := objects, displaced := displaced, threads := s.threads[t := th]))
    requires ThreadOk(w, s.(objects := objects, displaced := displaced), t, th)
    ensures Invariant(w, s.(objects := objects, displaced := displaced, threads := s.threads[t := th]))
  {
    var s' := s.(objects := objects, displaced := displaced, threads := s.threads[t := th]);
    LocksKept(w, s, t, e, s');
    OwnThread(w, s.(objects := objects, displaced := displaced), t, th);
    hide LocalStep, ThreadOk, Locked, OwnedBy, Holds;
    forall u | u in s'.threads ensures ThreadOk(w, s', u, s'.threads[u]) {
      if u != t {
        OtherThreadKept(w, s, t, e, s', u);
      }
    }
  }

  // What is known of a thread does not depend on the threads.
  lemma OwnThread(w: World, s: State, t: Tid, th: Thread)
    requires ThreadOk(w, s, t, th)
    ensures ThreadOk(w, s.(threads := s.threads[t := th]), t, th)
  {
  }

  lemma OtherStepKeeps(w: World, s: State, a: Action)
    requires ValidWorld(w) && Invariant(w, s) && Apply(w, s, a).Some? && !a.Step?
    ensures Invariant(w, Apply(w, s, a).value)
  {
    if a.LoseReservation? && (s.threads[a.t].pc == Idle || s.threads[a.t].pc == Unimplemented) {
      IdleLoses(w, s, a.t);
    } else {
      var s' := Apply(w, s, a).value;
      var e := if a.Lock? || a.Unlock? then a.e else s.threads[a.t].entry;
      if a.Lock? {
        LockEntered(w, s, a);
      } else if a.Unlock? {
        UnlockEntered(w, s, a);
      } else {
        ReservationLost(w, s, a);
      }
      hide Invariant, ThreadOk, Owns, LocalStep;
      assert s' == s.(objects := s'.objects, displaced := s'.displaced, threads := s.threads[a.t := s'.threads[a.t]]);
      LocalStepKeeps(w, s, a.t, s'.threads[a.t], s'.objects, s'.displaced, e);
    }
  }

  lemma UnlockEntered(w: World, s: State, a: Action)
    requires ValidWorld(w) && Invariant(w, s) && Apply(w, s, a).Some? && a.Unlock?
    ensures var s' := Apply(w, s, a).value;
      a.t in s.threads && a.t in s'.threads && LocalStep(w, s, a.t, a.e, s')
      && ThreadOk(w, s.(objects := s'.objects, displaced := s'.displaced), a.t, s'.threads[a.t])
  {
    assert ThreadOk(w, s, a.t, s.threads[a.t]);
    assert OwnedBy(s, a.t, a.e) && Locked(w, s, a.e);
    hide Invariant;
  }

  lemma LockEntered(w: World, s: State, a: Action)
    requires ValidWorld(w) && Invariant(w, s) && Apply(w, s, a).Some? && a.Lock?
    ensures var s' := Apply(w, s, a).value;
      a.t in s.threads && a.t in s'.threads && LocalStep(w, s, a.t, a.e, s')
      && ThreadOk(w, s.(objects := s'.objects, displaced := s'.displaced), a.t, s'.threads[a.t])
  {
    assert ThreadOk(w, s, a.t, s.threads[a.t]);
    assert s.marks.Keys == w.unlocked.Keys;
    hide Invariant;
  }

  lemma ReservationLost(w: World, s: State, a: Action)
    requires ValidWorld(w) && Invariant(w, s) && Apply(w, s, a).Some? && (a.FailStore? || a.LoseReservation?)
    requires s.threads[a.t].pc != Idle && s.threads[a.t].pc != Unimplemented
    ensures var s' := Apply(w, s, a).value;
      a.t in s.threads && a.t in s'.threads && LocalStep(w, s, a.t, s.threads[a.t].entry, s')
      && ThreadOk(w, s.(objects := s'.objects, displaced := s'.displaced), a.t, s'.threads[a.t])
  {
    assert ThreadOk(w, s, a.t, s.threads[a.t]);
    hide Invariant;
  }

  lemma IdleLoses(w: World, s: State, t: Tid)
    requires Invariant(w, s) && t in s.threads
    requires s.threads[t].pc == Idle || s.threads[t].pc == Unimplemented
    ensures Invariant(w, Local(s, t, s.threads[t].(reservation := NoReservation)))
  {
    var s' := Local(s, t, s.threads[t].(reservation := NoReservation));
    hide Locked;
    forall u, x | OwnedBy(s', u, x) ensures Locked(w, s', x) {
      assert OwnedBy(s, u, x);
    }
    forall o | o in s'.marks ensures s'.marks[o] == w.unlocked[o] || exists u :: Holds(s', u, s'.marks[o], o) {
      if s.marks[o] != w.unlocked[o] {
        var u :| Holds(s, u, s.marks[o], o);
        assert Holds(s', u, s'.marks[o], o);
      }
    }
  }

  lemma LocalAdvanceKeeps(w: World, s: State, t: Tid)
    requires ValidWorld(w) && Invariant(w, s) && t in s.threads && s.threads[t].pc != StoreConditional
    requires Advance(s, t).Some?
    ensures Invariant(w, Advance(s, t).value)
  {
    hide ThreadOk, Owns, LocalStep;
    var th, s' := s.threads[t], Advance(s, t).value;
    assert ThreadOk(w, s, t, th);
    match th.pc {
      case LoadMark => PreparationKeeps(w, s, t);
      case StoreDisplaced => PreparationKeeps(w, s, t);
      case LoadHeader => HeaderKeeps(w, s, t);
      case Reserve => ReserveKeeps(w, s, t);
      case Compare => CompareKeeps(w, s, t);
      case _ => BranchKeeps(w, s, t);
    }
    AdvanceIsLocal(w, s, t);
    hide Invariant, Advance;
    assert s' == s.(objects := s'.objects, displaced := s'.displaced, threads := s.threads[t := s'.threads[t]]);
    LocalStepKeeps(w, s, t, s'.threads[t], s'.objects, s'.displaced, th.entry);
  }

  lemma AdvanceIsLocal(w: World, s: State, t: Tid)
    requires t in s.threads && ThreadOk(w, s, t, s.threads[t]) && s.threads[t].pc != StoreConditional
    requires Advance(s, t).Some? && forall x :: Owns(Advance(s, t).value.threads[t], x) <==> Owns(s.threads[t], x)
    ensures var s' := Advance(s, t).value;
      && LocalStep(w, s, t, s.threads[t].entry, s')
      && s' == s.(objects := s'.objects, displaced := s'.displaced, threads := s.threads[t := s'.threads[t]])
  {
  }

  lemma PreparationKeeps(w: World, s: State, t: Tid)
    requires ValidWorld(w) && Invariant(w, s) && t in s.threads && Advance(s, t).Some?
    requires s.threads[t].pc == LoadMark || s.threads[t].pc == StoreDisplaced
    ensures var s' := Advance(s, t).value;
      && ThreadOk(w, s.(objects := s'.objects, displaced := s'.displaced), t, s'.threads[t])
      && forall x :: Owns(s'.threads[t], x) <==> Owns(s.threads[t], x)
  {
    assert ThreadOk(w, s, t, s.threads[t]);
    hide Invariant;
    if s.threads[t].pc == LoadMark {
      MarkLoaded(w, s, t);
    } else {
      DisplacedStored(w, s, t);
    }
  }

  lemma MarkLoaded(w: World, s: State, t: Tid)
    requires t in s.threads && ThreadOk(w, s, t, s.threads[t]) && Advance(s, t).Some? && s.threads[t].pc == LoadMark
    ensures var s' := Advance(s, t).value;
      && ThreadOk(w, s.(objects := s'.objects, displaced := s'.displaced), t, s'.threads[t])
      && forall x :: Owns(s'.threads[t], x) <==> Owns(s.threads[t], x)
  {
    var th, th' := s.threads[t], Advance(s, t).value.threads[t];
    assert Advance(s, t).value == Local(s, t, th');
    assert th' == th.(lockee := s.objects[th.entry], comp := th'.comp, exchange := th.entry, pc := StoreDisplaced) && th'.comp % 2 == 1;
    hide Advance;
    assert Operands(s, th');
    assert ThreadOk(w, s, t, th');
  }

  lemma DisplacedStored(w: World, s: State, t: Tid)
    requires t in s.threads && ThreadOk(w, s, t, s.threads[t]) && Advance(s, t).Some? && s.threads[t].pc == StoreDisplaced
    ensures var s' := Advance(s, t).value;
      && ThreadOk(w, s.(objects := s'.objects, displaced := s'.displaced), t, s'.threads[t])
      && forall x :: Owns(s'.threads[t], x) <==> Owns(s.threads[t], x)
  {
    var th, s' := s.threads[t], Advance(s, t).value;
    assert s' == s.(threads := s.threads[t := th.(pc := Reserve)], displaced := s.displaced[th.entry := th.comp]);
    hide Advance;
    assert Operands(s.(displaced := s'.displaced), th.(pc := Reserve));
  }

  lemma HeaderKeeps(w: World, s: State, t: Tid)
    requires ValidWorld(w) && Invariant(w, s) && t in s.threads && Advance(s, t).Some?
    requires s.threads[t].pc == LoadHeader
    ensures var s' := Advance(s, t).value;
      && ThreadOk(w, s.(objects := s'.objects, displaced := s'.displaced), t, s'.threads[t])
      && forall x :: Owns(s'.threads[t], x) <==> Owns(s.threads[t], x)
  {
    assert ThreadOk(w, s, t, s.threads[t]);
    assert OwnedBy(s, t, s.threads[t].entry) && Locked(w, s, s.threads[t].entry);
    hide Invariant;
  }

  lemma ReserveKeeps(w: World, s: State, t: Tid)
    requires ValidWorld(w) && Invariant(w, s) && t in s.threads && Advance(s, t).Some?
    requires s.threads[t].pc == Reserve
    ensures var s' := Advance(s, t).value;
      && ThreadOk(w, s.(objects := s'.objects, displaced := s'.displaced), t, s'.threads[t])
      && forall x :: Owns(s'.threads[t], x) <==> Owns(s.threads[t], x)
  {
    assert ThreadOk(w, s, t, s.threads[t]);
    if s.threads[t].mode == Unlocking {
      assert OwnedBy(s, t, s.threads[t].entry) && Locked(w, s, s.threads[t].entry);
    }
    hide Invariant;
  }

  lemma CompareKeeps(w: World, s: State, t: Tid)
    requires ValidWorld(w) && Invariant(w, s) && t in s.threads && Advance(s, t).Some?
    requires s.threads[t].pc == Compare
    ensures var s' := Advance(s, t).value;
      && ThreadOk(w, s.(objects := s'.objects, displaced := s'.displaced), t, s'.threads[t])
      && forall x :: Owns(s'.threads[t], x) <==> Owns(s.threads[t], x)
  {
    assert ThreadOk(w, s, t, s.threads[t]);
    var th, s' := s.threads[t], Advance(s, t).value;
    assert s' == Local(s, t, th.(pc := if th.r0 == th.comp then StoreConditional else Branch(false)));
    hide Invariant, Advance;
  }

  lemma BranchKeeps(w: World, s: State, t: Tid)
    requires ValidWorld(w) && Invariant(w, s) && t in s.threads && Advance(s, t).Some?
    requires s.threads[t].pc.Branch?
    ensures var s' := Advance(s, t).value;
      && ThreadOk(w, s.(objects := s'.objects, displaced := s'.displaced), t, s'.threads[t])
      && forall x :: Owns(s'.threads[t], x) <==> Owns(s.threads[t], x)
  {
    assert ThreadOk(w, s, t, s.threads[t]);
    var th, s' := s.threads[t], Advance(s, t).value;
    assert s'.objects == s.objects && s'.displaced == s.displaced;
    assert s'.threads[t] == th.(pc := s'.threads[t].pc, held := s'.threads[t].held);
    hide Invariant, Operands;
  }

  // What the storing thread knows
  lemma StorerKnows(w: World, s: State, t: Tid)
    requires ValidWorld(w) && Invariant(w, s) && t in s.threads
    requires s.threads[t].pc == StoreConditional && Advance(s, t).Some?
    ensures var th := s.threads[t];
      && th.entry in w.owner && w.owner[th.entry] == t && th.entry in s.objects && s.objects[th.entry] == th.lockee
      && th.lockee in w.unlocked && th.lockee in s.marks && s.marks[th.lockee] == th.comp
      && th.entry in s.displaced
      && (if th.mode == Locking then th.exchange == th.entry && s.displaced[th.entry] == th.comp == w.unlocked[th.lockee]
          else th.exchange == w.unlocked[th.lockee] && OwnedBy(s, t, th.entry) && th.comp == th.entry)
  {
    var th := s.threads[t];
    assert ThreadOk(w, s, t, th);
    if th.mode == Unlocking {
      assert OwnedBy(s, t, th.entry) && Locked(w, s, th.entry);
    } else {
      UnlockedIsOdd(w, s, th.lockee);
    }
  }

  lemma StoredMark(s: State, t: Tid)
    requires t in s.threads && s.threads[t].pc == StoreConditional && Advance(s, t).Some?
    ensures var th, s' := s.threads[t], Advance(s, t).value;
      s'.objects == s.objects && s'.displaced == s.displaced && s'.marks == s.marks[th.lockee := th.exchange]
  {
  }

  // The conditional store of lock_object: the mark word it replaces is the
  // original one, so nobody owned the object.
  lemma AcquireKeeps(w: World, s: State, t: Tid)
    requires ValidWorld(w) && Invariant(w, s) && t in s.threads
    requires s.threads[t].pc == StoreConditional && s.threads[t].mode == Locking && Advance(s, t).Some?
    ensures Invariant(w, Advance(s, t).value)
    ensures s.marks[s.threads[t].lockee] == w.unlocked[s.threads[t].lockee]
  {
    hide Advance, Stored, ThreadOk, Operands, OwnedBy;
    var th, s' := s.threads[t], Advance(s, t).value;
    var o, e := th.lockee, th.entry;
    StorerKnows(w, s, t);
    StoreKeepsThreads(w, s, t);
    StoreChangesOwner(s, t, s');
    StoredMark(s, t);
    forall u, x | OwnedBy(s', u, x) ensures Locked(w, s', x) {
      if u != t || x != e {
        StoreKeepsOwners(s, t, s', u, x);
        OwnersEntry(w, s, u, x);
      }
    }
    forall p | p in s'.marks ensures s'.marks[p] == w.unlocked[p] || exists u :: Holds(s', u, s'.marks[p], p) {
      if p == o {
        assert Holds(s', t, e, o);
      } else if s.marks[p] != w.unlocked[p] {
        var u :| Holds(s, u, s.marks[p], p);
        StoreKeepsOwners(s, t, s', u, s.marks[p]);
        assert Holds(s', u, s'.marks[p], p);
      }
    }
  }

  // The conditional store of unlock_object puts the original mark word back.
  lemma ReleaseKeeps(w: World, s: State, t: Tid)
    requires ValidWorld(w) && Invariant(w, s) && t in s.threads
    requires s.threads[t].pc == StoreConditional && s.threads[t].mode == Unlocking && Advance(s, t).Some?
    ensures Invariant(w, Advance(s, t).value)
    ensures Advance(s, t).value.marks[s.threads[t].lockee] == w.unlocked[s.threads[t].lockee]
  {
    hide Advance, Stored, ThreadOk, Operands, OwnedBy;
    var th, s' := s.threads[t], Advance(s, t).value;
    var o, e := th.lockee, th.entry;
    StorerKnows(w, s, t);
    StoreKeepsThreads(w, s, t);
    StoreChangesOwner(s, t, s');
    StoredMark(s, t);
    forall u, x | OwnedBy(s', u, x) ensures Locked(w, s', x) {
      if u != t || x != e {
        StoreKeepsOwners(s, t, s', u, x);
        OwnersEntry(w, s, u, x);
        OwnersEntry(w, s, t, e);
        assert Locked(w, s, x) && x != e;
      }
    }
    forall p | p in s'.marks ensures s'.marks[p] == w.unlocked[p] || exists u :: Holds(s', u, s'.marks[p], p) {
      if p != o && s.marks[p] != w.unlocked[p] {
        var u :| Holds(s, u, s.marks[p], p);
        assert Locked(w, s, s.marks[p]) && s.marks[p] != e;
        StoreKeepsOwners(s, t, s', u, s.marks[p]);
        assert Holds(s', u, s'.marks[p], p);
      }
    }
  }

  // The conditional store takes away every other reservation of the object,
  // so nothing that another thread has read is out of date.
  lemma StoreKeepsThread(w: World, s: State, t: Tid, s': State, u: Tid)
    requires Stored(s, t, s') && u in s.threads && ThreadOk(w, s, u, s.threads[u])
    ensures u in s'.threads && ThreadOk(w, s', u, s'.threads[u])
  {
    if u != t {
      assert s'.threads[u] == s.threads[u] || s'.threads[u] == s.threads[u].(reservation := NoReservation);
    }
  }

  // What the conditional store does
  ghost predicate Stored(s: State, t: Tid, s': State) {
    && t in s.threads
    && var th := s.threads[t];
      && s' == s.(marks := s.marks[th.lockee := th.exchange], threads := s'.threads)
      && th.pc == StoreConditional && th.reservation == Reserved(th.lockee)
      && s'.threads == Invalidate(s.threads, th.lockee)[t := th.(reservation := NoReservation, pc := Branch(true))]
  }

  lemma StoreKeepsThreads(w: World, s: State, t: Tid)
    requires Invariant(w, s) && t in s.threads && s.threads[t].pc == StoreConditional && Advance(s, t).Some?
    ensures var s' := Advance(s, t).value;
      && Stored(s, t, s')
      && s'.marks.Keys == w.unlocked.Keys && s'.threads.Keys == s.threads.Keys
      && forall u :: u in s'.threads ==> ThreadOk(w, s', u, s'.threads[u])
  {
    var s' := Advance(s, t).value;
    assert ThreadOk(w, s, t, s.threads[t]);
    assert Stored(s, t, s');
    hide Advance, Stored;
    forall u | u in s.threads ensures ThreadOk(w, s', u, s'.threads[u]) {
      assert ThreadOk(w, s, u, s.threads[u]);
      hide ThreadOk, Invariant;
      StoreKeepsThread(w, s, t, s', u);
    }
  }

  // Apart from t and its entry, who owns what does not change.
  lemma StoreKeepsOwners(s: State, t: Tid, s': State, u: Tid, e: Entry)
    requires Stored(s, t, s') && !(u == t && e == s.threads[t].entry)
    ensures OwnedBy(s', u, e) <==> OwnedBy(s, u, e)
  {
  }

  lemma StoreChangesOwner(s: State, t: Tid, s': State)
    requires Stored(s, t, s')
    ensures OwnedBy(s', t, s.threads[t].entry) <==> s.threads[t].mode == Locking
    ensures OwnedBy(s, t, s.threads[t].entry) <==> s.threads[t].entry in s.threads[t].held
  {
  }

  lemma ApplyKeeps(w: World, s: State, a: Action)
    requires ValidWorld(w) && Invariant(w, s) && Apply(w, s, a).Some?
    ensures Invariant(w, Apply(w, s, a).value)
  {
    if !a.Step? {
      OtherStepKeeps(w, s, a);
    } else if s.threads[a.t].pc != StoreConditional {
      LocalAdvanceKeeps(w, s, a.t);
    } else if s.threads[a.t].mode == Locking {
      AcquireKeeps(w, s, a.t);
    } else {
      ReleaseKeeps(w, s, a.t);
    }
  }

  // ---- whole runs ----------------------------------------------------

  ghost predicate Run(w: World, run: seq<State>, actions: seq<Action>) {
    && |run| == |actions| + 1 && Initial(w, run[0])
    && forall i :: 0 <= i < |actions| ==> Apply(w, run[i], actions[i]) == Some(run[i + 1])
  }

  lemma RunsKeepInvariant(w: World, run: seq<State>, actions: seq<Action>, k: nat)
    requires ValidWorld(w) && Run(w, run, actions) && k < |run|
    ensures Invariant(w, run[k])
  {
    if k == 0 {
      InitialIsOk(w, run[0]);
    } else {
      RunsKeepInvariant(w, run, actions, k - 1);
      assert Apply(w, run[k - 1], actions[k - 1]) == Some(run[k - 1 + 1]);
      ApplyKeeps(w, run[k - 1], actions[k - 1]);
    }
  }

  // In every interleaving: at most one thread holds an object, with one entry;
  // while it does, the mark word is its lock's address and the lock's
  // displaced header is the original mark; while nobody does, the mark word
  // is the original one.
  lemma MutualExclusion(w: World, run: seq<State>, actions: seq<Action>, k: nat, o: Object)
    requires ValidWorld(w) && Run(w, run, actions) && k < |run| && o in w.unlocked
    ensures forall t, e, t', e' :: Holds(run[k], t, e, o) && Holds(run[k], t', e', o) ==> t == t' && e == e'
    ensures forall t, e :: Holds(run[k], t, e, o) ==>
      o in run[k].marks && run[k].marks[o] == e && e in run[k].displaced && run[k].displaced[e] == w.unlocked[o]
    ensures (forall t, e :: !Holds(run[k], t, e, o)) ==> o in run[k].marks && run[k].marks[o] == w.unlocked[o]
  {
    var s := run[k];
    RunsKeepInvariant(w, run, actions, k);
    forall t, e, t', e' | Holds(s, t, e, o) && Holds(s, t', e', o) ensures t == t' && e == e' {
      OwnersEntry(w, s, t, e);
      OwnersEntry(w, s, t', e');
    }
    assert s.marks[o] == w.unlocked[o] || exists t :: Holds(s, t, s.marks[o], o);
  }

  // No thread that holds a lock ever fails to unlock it: of the two routines
  // only lock_object can end in unimplemented().
  lemma UnlockNeverFails(w: World, run: seq<State>, actions: seq<Action>, k: nat, t: Tid)
    requires ValidWorld(w) && Run(w, run, actions) && k < |run| && t in run[k].threads
    ensures run[k].threads[t].pc == Unimplemented ==> run[k].threads[t].mode == Locking
    ensures run[k].threads[t].mode == Unlocking ==> run[k].threads[t].pc != Branch(false)
  {
    RunsKeepInvariant(w, run, actions, k);
    assert ThreadOk(w, run[k], t, run[k].threads[t]);
  }

  // ---- how a call of the routines ends -------------------------------

  // Step i of the run is t's next, from there.
  ghost predicate StepsFrom(run: seq<State>, actions: seq<Action>, i: nat, t: Tid, pc: Pc) {
    && i < |actions| < |run| && actions[i] == Step(t)
    && t in run[i].threads && run[i].threads[t].pc == pc
  }

  // From step i to state k thread t begins no routine.
  predicate NoCall(actions: seq<Action>, i: nat, k: nat, t: Tid) {
    forall j :: i <= j < k && j < |actions| ==> !((actions[j].Lock? || actions[j].Unlock?) && actions[j].t == t)
  }

  predicate NoReserve(run: seq<State>, actions: seq<Action>, i: nat, k: nat, t: Tid) {
    forall j :: i < j < k && j < |actions| && j < |run| ==>
      !(actions[j] == Step(t) && t in run[j].threads && run[j].threads[t].pc == Reserve)
  }

  // What one action does to a thread that is in a routine
  lemma ThreadAfter(w: World, s: State, a: Action, t: Tid)
    requires Apply(w, s, a).Some? && t in Apply(w, s, a).value.threads
    ensures t in s.threads
    ensures var th, th' := s.threads[t], Apply(w, s, a).value.threads[t];
      && (a.t != t ==> th' == th.(reservation := th'.reservation))
      && (a == LoseReservation(t) ==> th' == th.(reservation := NoReservation))
      && (a == FailStore(t) ==> th.pc == StoreConditional && th' == th.(reservation := NoReservation, pc := th'.pc))
      && ((a.Lock? || a.Unlock?) && a.t == t ==> th.pc == Idle && th' == th.(pc := th'.pc, mode := th'.mode, entry := a.e))
  {
  }

  lemma StartsIdle(w: World, run: seq<State>, actions: seq<Action>, t: Tid)
    requires Run(w, run, actions)
    ensures t in run[0].threads ==> run[0].threads[t].pc == Idle
  {
  }

  // What r0 holds and comp is when they have been compared, or are about to be
  ghost predicate ReadIs(run: seq<State>, actions: seq<Action>, i: nat, k: nat, t: Tid) {
    && StepsFrom(run, actions, i, t, Reserve) && i < k < |run| && t in run[k].threads
    && var th, was := run[k].threads[t], run[i].threads[t];
      && was.comp == th.comp && was.lockee == th.lockee && th.lockee in run[i].marks && th.r0 == run[i].marks[th.lockee]
      && NoCall(actions, i, k, t) && NoReserve(run, actions, i, k, t)
      && (th.pc == Branch(false) || th.pc == Unimplemented ==> th.r0 != th.comp)
  }

  predicate Compares(pc: Pc) { pc == Compare || pc == StoreConditional || pc == Branch(false) || pc == Unimplemented }

  lemma ComparingStep(s: State, t: Tid)
    requires t in s.threads && Advance(s, t).Some? && t in Advance(s, t).value.threads && Compares(Advance(s, t).value.threads[t].pc)
    ensures var th, th' := s.threads[t], Advance(s, t).value.threads[t];
      if th.pc == Reserve then
        th'.pc == Compare && th.lockee in s.marks && th'.r0 == s.marks[th.lockee] && th'.comp == th.comp && th'.lockee == th.lockee
      else
        && Compares(th.pc) && th' == th.(pc := th'.pc)
        && (th'.pc == Branch(false) ==> th.r0 != th.comp) && (th'.pc == Unimplemented ==> th.pc == Branch(false))
  {
  }

  // Whatever stores have failed before: a thread that gives up, or is about
  // to, has read at its last load-and-reserve another mark than the one it
  // compares with.
  lemma {:induction false} ComparedWith(w: World, run: seq<State>, actions: seq<Action>, k: nat, t: Tid) returns (i: nat)
    requires Run(w, run, actions) && k < |run| && t in run[k].threads
    requires Compares(run[k].threads[t].pc)
    ensures ReadIs(run, actions, i, k, t)
  {
    StartsIdle(w, run, actions, t);
    assert k > 0;
    var s, a := run[k - 1], actions[k - 1];
    assert Apply(w, s, a) == Some(run[k - 1 + 1]);
    ThreadAfter(w, s, a, t);
    if a == Step(t) {
      ComparingStep(s, t);
    }
    hide Advance;
    if a == Step(t) && s.threads[t].pc == Reserve {
      i := k - 1;
    } else {
      hide Run;
      i := ComparedWith(w, run, actions, k - 1, t);
    }
  }

  // lock_object compares with the mark, unlocked, that it loaded first.
  ghost predicate LoadedAt(run: seq<State>, actions: seq<Action>, h: nat, k: nat, t: Tid) {
    && StepsFrom(run, actions, h, t, LoadMark) && h < k < |run| && t in run[k].threads
    && var th, was := run[k].threads[t], run[h].threads[t];
      && was.entry == th.entry && th.lockee in run[h].marks && th.comp == SetUnlocked(run[h].marks[th.lockee])
      && th.entry in run[h].objects && run[h].objects[th.entry] == th.lockee && NoCall(actions, h, k, t)
  }

  lemma NotUnlocking(w: World, run: seq<State>, actions: seq<Action>, k: nat, t: Tid)
    requires ValidWorld(w) && Run(w, run, actions) && k < |run| && t in run[k].threads
    ensures run[k].threads[t].pc == LoadHeader ==> run[k].threads[t].mode == Unlocking
  {
    RunsKeepInvariant(w, run, actions, k);
    assert ThreadOk(w, run[k], t, run[k].threads[t]);
  }

  // Only by loading the mark does lock_object get beyond that.
  lemma BeyondLoading(s: State, t: Tid)
    requires t in s.threads && Advance(s, t).Some? && t in Advance(s, t).value.threads
    ensures var th, th' := s.threads[t], Advance(s, t).value.threads[t];
      && (th.pc != LoadMark && th.mode == Locking && th.pc != LoadHeader ==>
            th' == th.(pc := th'.pc, held := th'.held, r0 := th'.r0, reservation := th'.reservation) && th'.pc != LoadMark && th'.pc != LoadHeader)
      && th'.mode == th.mode && th'.entry == th.entry && th.pc != Idle
  {
  }

  lemma {:induction false} LoadedFirst(w: World, run: seq<State>, actions: seq<Action>, k: nat, t: Tid) returns (h: nat)
    requires ValidWorld(w) && Run(w, run, actions) && k < |run| && t in run[k].threads
    requires var th := run[k].threads[t]; th.mode == Locking && th.pc != Idle && th.pc != LoadMark && th.pc != LoadHeader
    ensures LoadedAt(run, actions, h, k, t)
  {
    StartsIdle(w, run, actions, t);
    assert k > 0;
    var s, a := run[k - 1], actions[k - 1];
    assert Apply(w, s, a) == Some(run[k - 1 + 1]);
    ThreadAfter(w, s, a, t);
    if a == Step(t) {
      BeyondLoading(s, t);
    }
    if a == Step(t) && s.threads[t].pc == LoadMark {
      h := k - 1;
    } else {
      NotUnlocking(w, run, actions, k - 1, t);
      hide Advance, Run, Invariant;
      h := LoadedFirst(w, run, actions, k - 1, t);
    }
  }

  // So, whatever is interleaved and however often its conditional stores fail,
  // lock_object gives up only if somebody held the object when it loaded the
  // mark or at its last load-and-reserve.
  lemma LockFailsOnlyIfHeld(w: World, run: seq<State>, actions: seq<Action>, k: nat, t: Tid) returns (h: nat, i: nat)
    requires ValidWorld(w) && Run(w, run, actions) && k < |run| && t in run[k].threads && run[k].threads[t].pc == Unimplemented
    ensures run[k].threads[t].mode == Locking && LoadedAt(run, actions, h, k, t) && ReadIs(run, actions, i, k, t)
    ensures var o := run[k].threads[t].lockee;
      (exists u, e :: Holds(run[h], u, e, o)) || (exists u, e :: Holds(run[i], u, e, o))
  {
    UnlockNeverFails(w, run, actions, k, t);
    h := LoadedFirst(w, run, actions, k, t);
    i := ComparedWith(w, run, actions, k, t);
    RunsKeepInvariant(w, run, actions, h);
    RunsKeepInvariant(w, run, actions, i);
    var o := run[k].threads[t].lockee;
    hide ThreadOk, Locked;
    UnlockedIsOdd(w, run[h], o);
    assert run[h].marks[o] == w.unlocked[o] || exists u :: Holds(run[h], u, run[h].marks[o], o);
    assert run[i].marks[o] == w.unlocked[o] || exists u :: Holds(run[i], u, run[i].marks[o], o);
  }

  // What a thread is at
  ghost predicate Calling(run: seq<State>, actions: seq<Action>, j: nat, k: nat, t: Tid) {
    && j < k < |run| && j < |actions|
    && (actions[j].Lock? || actions[j].Unlock?) && actions[j].t == t
    && forall i :: j < i < k ==> t in run[i].threads && run[i].threads[t].pc != Idle
  }

  // While it is at it, the entry and its object stay, and nothing is held or
  // given up before it returns.
  ghost predicate InCall(w: World, s: State, a: Action, t: Tid, held: set<Entry>)
    requires a.Lock? || a.Unlock?
  {
    && t in s.threads && s.threads[t].entry == a.e && s.threads[t].mode == (if a.Lock? then Locking else Unlocking)
    && a.e in w.owner && w.owner[a.e] == t && (a.Lock? ==> a.e in s.objects && s.objects[a.e] == a.o)
    && s.threads[t].held == (if s.threads[t].pc != Idle then held else if a.Lock? then held + {a.e} else held - {a.e})
  }

  lemma CallGoesOn(w: World, s: State, b: Action, a: Action, t: Tid, held: set<Entry>)
    requires ValidWorld(w) && Invariant(w, s) && Apply(w, s, b).Some? && (a.Lock? || a.Unlock?)
    requires InCall(w, s, a, t, held) && s.threads[t].pc != Idle
    ensures InCall(w, Apply(w, s, b).value, a, t, held)
  {
    assert ThreadOk(w, s, t, s.threads[t]);
    hide Invariant;
    if b == Step(t) {
      CallSteps(w, s, a, t, held);
    } else {
      assert t in Apply(w, s, b).value.threads;
      ThreadAfter(w, s, b, t);
      ObjectStays(w, s, b, t, a.e);
    }
  }

  lemma ObjectStays(w: World, s: State, b: Action, t: Tid, e: Entry)
    requires Apply(w, s, b).Some? && t in s.threads && s.threads[t].pc != Idle && e in w.owner && w.owner[e] == t
    ensures e in s.objects ==> e in Apply(w, s, b).value.objects && Apply(w, s, b).value.objects[e] == s.objects[e]
    ensures b != Step(t) && t in Apply(w, s, b).value.threads ==> Apply(w, s, b).value.threads[t].pc != Idle
  {
  }

  lemma CallSteps(w: World, s: State, a: Action, t: Tid, held: set<Entry>)
    requires (a.Lock? || a.Unlock?) && InCall(w, s, a, t, held) && s.threads[t].pc != Idle && ThreadOk(w, s, t, s.threads[t])
    requires Advance(s, t).Some?
    ensures InCall(w, Advance(s, t).value, a, t, held)
  {
    hide ThreadOk;
    HeaderIsForUnlocking(w, s, t);
  }

  lemma HeaderIsForUnlocking(w: World, s: State, t: Tid)
    requires t in s.threads && ThreadOk(w, s, t, s.threads[t])
    ensures s.threads[t].pc == LoadHeader ==> s.threads[t].mode == Unlocking
  {
  }

  lemma Begins(w: World, s: State, a: Action)
    requires Invariant(w, s) && (a.Lock? || a.Unlock?) && Apply(w, s, a).Some?
    ensures a.t in s.threads && InCall(w, Apply(w, s, a).value, a, a.t, s.threads[a.t].held)
  {
    assert ThreadOk(w, s, a.t, s.threads[a.t]);
  }

  // lock_object returns only with the lock, and unlock_object only without it.
  lemma {:induction false} CallsEndWell(w: World, run: seq<State>, actions: seq<Action>, j: nat, k: nat, t: Tid)
    requires ValidWorld(w) && Run(w, run, actions) && Calling(run, actions, j, k, t)
    ensures t in run[j].threads && InCall(w, run[k], actions[j], t, run[j].threads[t].held)
    decreases k
  {
    hide Advance, ThreadOk, Locked, Holds;
    assert Apply(w, run[k - 1], actions[k - 1]) == Some(run[k - 1 + 1]);
    if k > j + 1 {
      CallsEndWell(w, run, actions, j, k - 1, t);
      RunsKeepInvariant(w, run, actions, k - 1);
      hide Invariant, InCall;
      CallGoesOn(w, run[k - 1], actions[k - 1], actions[j], t, run[j].threads[t].held);
    } else {
      RunsKeepInvariant(w, run, actions, j);
      Begins(w, run[j], actions[j]);
    }
  }

  // ---- without interference ------------------------------------------

  // Steps of t alone, until it leaves the routine
  function RunAlone(w: World, s: State, t: Tid, fuel: nat): Option<State>
    requires t in s.threads
    decreases fuel
  {
    if s.threads[t].pc == Idle || s.threads[t].pc == Unimplemented then Some(s)
    else if fuel == 0 then None
    else match Advance(s, t) case None => None case Some(s') => RunAlone(w, s', t, fuel - 1)
  }

  // One step of the steps above
  lemma AloneStep(w: World, s: State, t: Tid, fuel: nat, s': State)
    requires t in s.threads && s.threads[t].pc != Idle && s.threads[t].pc != Unimplemented && fuel > 0
    requires Advance(s, t) == Some(s') && t in s'.threads
    ensures RunAlone(w, s, t, fuel) == RunAlone(w, s', t, fuel - 1)
  {
  }

  // lock_object run alone gets as far as the comparison.
  lemma LockAloneCompares(w: World, s: State, t: Tid, e: Entry, o: Object) returns (s4: State)
    requires ValidWorld(w) && Invariant(w, s) && Apply(w, s, Lock(t, e, o)).Some?
    ensures t in s4.threads && s4.marks == s.marks && e in s4.objects && s4.objects[e] == o
    ensures RunAlone(w, Apply(w, s, Lock(t, e, o)).value, t, 6) == RunAlone(w, s4, t, 2)
    ensures var th := s4.threads[t];
      && th.held == s.threads[t].held && th.mode == Locking && th.entry == e && th.lockee == o && th.exchange == e
      && th.reservation == Reserved(o)
      && th.pc == if s.marks[o] == SetUnlocked(s.marks[o]) then StoreConditional else Branch(false)
  {
    hide RunAlone, ThreadOk, Locked, Holds;
    var s0 := Apply(w, s, Lock(t, e, o)).value;
    var s1 := Advance(s0, t).value;
    assert s1.threads[t] == s0.threads[t].(lockee := o, comp := SetUnlocked(s.marks[o]), exchange := e, pc := StoreDisplaced);
    var s2 := Advance(s1, t).value;
    assert s2.threads[t] == s1.threads[t].(pc := Reserve) && s2.marks == s.marks;
    var s3 := Advance(s2, t).value;
    assert s3.threads[t] == s2.threads[t].(r0 := s.marks[o], reservation := Reserved(o), pc := Compare);
    s4 := Advance(s3, t).value;
    AloneStep(w, s0, t, 6, s1);
    AloneStep(w, s1, t, 5, s2);
    AloneStep(w, s2, t, 4, s3);
    AloneStep(w, s3, t, 3, s4);
  }

  lemma SwapAloneAcquires(w: World, s: State, t: Tid)
    requires t in s.threads && s.threads[t].pc == StoreConditional && s.threads[t].mode == Locking
    requires s.threads[t].reservation == Reserved(s.threads[t].lockee)
    ensures var end := RunAlone(w, s, t, 2);
      && end.Some? && t in end.value.threads && end.value.threads[t].pc == Idle
      && end.value.objects == s.objects && OwnedBy(end.value, t, s.threads[t].entry)
  {
    var s5 := Advance(s, t).value;
    assert s5.threads[t] == s.threads[t].(reservation := NoReservation, pc := Branch(true));
    var s6 := Advance(s5, t).value;
    AloneStep(w, s, t, 2, s5);
    AloneStep(w, s5, t, 1, s6);
  }

  lemma FailsAlone(w: World, s: State, t: Tid)
    requires t in s.threads && s.threads[t].pc == Branch(false)
    ensures var end := RunAlone(w, s, t, 2);
      end.Some? && t in end.value.threads && end.value.threads[t].pc == Unimplemented && end.value.marks == s.marks
  {
    AloneStep(w, s, t, 2, Advance(s, t).value);
  }

  // The low bit tells whether an object is locked.
  lemma UnlockedIsOdd(w: World, s: State, o: Object)
    requires ValidWorld(w) && Invariant(w, s) && o in s.marks
    ensures o in w.unlocked && (s.marks[o] == w.unlocked[o] <==> s.marks[o] % 2 == 1)
  {
    if s.marks[o] != w.unlocked[o] {
      var u :| Holds(s, u, s.marks[o], o);
      OwnersEntry(w, s, u, s.marks[o]);
    }
  }

  // lock_object run alone succeeds exactly when nobody holds the object.
  lemma LockAloneSucceedsIffFree(w: World, s: State, t: Tid, e: Entry, o: Object)
    requires ValidWorld(w) && Invariant(w, s) && Apply(w, s, Lock(t, e, o)).Some? && o in w.unlocked
    ensures var end := RunAlone(w, Apply(w, s, Lock(t, e, o)).value, t, 6);
      && end.Some? && t in end.value.threads && o in s.marks
      && (Holds(end.value, t, e, o) && end.value.threads[t].pc == Idle <==> s.marks[o] == w.unlocked[o])
      && (s.marks[o] != w.unlocked[o] ==> end.value.threads[t].pc == Unimplemented && end.value.marks == s.marks)
  {
    assert o in s.marks;
    hide RunAlone, Apply, Invariant, ValidWorld;
    var s4 := LockAloneCompares(w, s, t, e, o);
    UnlockedIsOdd(w, s, o);
    if s.marks[o] == w.unlocked[o] {
      SwapAloneAcquires(w, s4, t);
    } else {
      FailsAlone(w, s4, t);
    }
  }

  // unlock_object run alone by a holder succeeds, and puts the mark back.
  lemma UnlockAloneRestores(w: World, s: State, t: Tid, e: Entry, o: Object)
    requires ValidWorld(w) && Invariant(w, s) && Apply(w, s, Unlock(t, e)).Some? && Holds(s, t, e, o)
    ensures var s0 := Apply(w, s, Unlock(t, e)).value;
      var end := RunAlone(w, s0, t, 5);
      && end.Some? && t in end.value.threads && end.value.threads[t].pc == Idle
      && end.value.marks == s.marks[o := w.unlocked[o]] && !OwnedBy(end.value, t, e)
  {
    assert Locked(w, s, e);
    var th := s.threads[t];
    var s0 := Apply(w, s, Unlock(t, e)).value;
    var s1 := Advance(s0, t).value;
    var th1 := th.(mode := Unlocking, entry := e, lockee := o, comp := e, exchange := w.unlocked[o], pc := Reserve);
    assert s1 == Local(s, t, th1);
    var s2 := Advance(s1, t).value;
    var th2 := th1.(r0 := e, reservation := Reserved(o), pc := Compare);
    assert s2 == Local(s, t, th2);
    var s3 := Advance(s2, t).value;
    assert s3 == Local(s, t, th2.(pc := StoreConditional));
    AloneStep(w, s0, t, 5, s1);
    AloneStep(w, s1, t, 4, s2);
    AloneStep(w, s2, t, 3, s3);
    SwapAloneRestores(w, s3, t, s.marks[o := w.unlocked[o]]);
  }

  // the last two steps
  lemma SwapAloneRestores(w: World, s: State, t: Tid, marks: map<Object, int>)
    requires t in s.threads && s.threads[t].pc == StoreConditional && s.threads[t].mode == Unlocking
    requires s.threads[t].reservation == Reserved(s.threads[t].lockee)
    requires marks == s.marks[s.threads[t].lockee := s.threads[t].exchange]
    ensures var end := RunAlone(w, s, t, 2);
      && end.Some? && t in end.value.threads && end.value.threads[t].pc == Idle
      && end.value.marks == marks && !OwnedBy(end.value, t, s.threads[t].entry)
  {
    var s4 := Advance(s, t).value;
    assert s4.threads[t] == s.threads[t].(reservation := NoReservation, pc := Branch(true));
    var s5 := Advance(s4, t).value;
    AloneStep(w, s, t, 2, s4);
    AloneStep(w, s4, t, 1, s5);
  }
}
