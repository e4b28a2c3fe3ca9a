/** The reader/writer lock: each stretch of code that runs under the internal mutex is one step,
    and steps of different requests interleave in any order. A wait releases the mutex until a
    notification, which wakes every request waiting on the condition. */
module ReadWriteLock {

  /** Where a lock request stands: not begun or finished, asleep on a condition, woken but not
      yet running again, or holding the lock. */
  datatype Place = Outside | AsleepRead | WokenRead | AsleepWrite | WokenWrite | Reading | Writing

  /** The counters of the lock, and where each request stands. */
  datatype State = State(numRWait: int, numWWait: int, numLocks: int, at: map<nat, Place>)

  datatype Event = LockRead(c: nat) | ResumeRead(c: nat) | LockWrite(c: nat) | ResumeWrite(c: nat) | Unlock(c: nat)

  predicate Enabled(s: State, e: Event) {
    && e.c in s.at
    && match e
       case LockRead(c) => s.at[c] == Outside
       case ResumeRead(c) => s.at[c] == WokenRead
       case LockWrite(c) => s.at[c] == Outside
       case ResumeWrite(c) => s.at[c] == WokenWrite
       case Unlock(c) => s.at[c] == Reading || s.at[c] == Writing
  }

  /** The test at the head of the reader's loop: wait, or take a share. */
  function TryRead(s: State, c: nat): State {
    if s.numLocks < 0 then s.(numRWait := s.numRWait + 1, at := s.at[c := AsleepRead])
    else s.(numLocks := s.numLocks + 1, at := s.at[c := Reading])
  }

  function TryWrite(s: State, c: nat): State {
    if s.numLocks != 0 then s.(numWWait := s.numWWait + 1, at := s.at[c := AsleepWrite])
    else s.(numLocks := -1, at := s.at[c := Writing])
  }

  /** Everyone asleep in place `p` is woken. */
  function Notify(at: map<nat, Place>, p: Place, q: Place): (r: map<nat, Place>)
    ensures r.Keys == at.Keys
    ensures forall c :: c in at ==> r[c] == if at[c] == p then q else at[c]
  {
    map c | c in at :: if at[c] == p then q else at[c]
  }

  function Release(s: State, c: nat): State {
    var t := s.(numLocks := if s.numLocks <= 0 then 0 else s.numLocks - 1, at := s.at[c := Outside]);
    if s.numWWait != 0 then t.(at := Notify(t.at, AsleepWrite, WokenWrite))
    else if s.numRWait != 0 then t.(at := Notify(t.at, AsleepRead, WokenRead))
    else t
  }

  function Step(s: State, e: Event): State
    requires Enabled(s, e)
  {
    match e
    case LockRead(c) => TryRead(s, c)
    case ResumeRead(c) => TryRead(s.(numRWait := s.numRWait - 1), c)
    case LockWrite(c) => TryWrite(s, c)
    case ResumeWrite(c) => TryWrite(s.(numWWait := s.numWWait - 1), c)
    case Unlock(c) => Release(s, c)
  }

  // ------------------------------------------------------------------ counting requests

  ghost function In(at: map<nat, Place>, p: Place): set<nat> {
    set c | c in at && at[c] == p
  }

  ghost function Number(at: map<nat, Place>, p: Place): nat { |In(at, p)| }

  lemma Moved(at: map<nat, Place>, c: nat, q: Place)
    requires c in at && at[c] != q
    ensures Number(at[c := q], q) == Number(at, q) + 1
    ensures Number(at[c := q], at[c]) == Number(at, at[c]) - 1
    ensures forall p :: p != q && p != at[c] ==> Number(at[c := q], p) == Number(at, p)
  {
    var at' := at[c := q];
    assert In(at', q) == In(at, q) + {c};
    assert In(at', at[c]) == In(at, at[c]) - {c};
    assert c in In(at, at[c]);
    forall p | p != q && p != at[c] ensures Number(at', p) == Number(at, p) {
      assert In(at', p) == In(at, p);
    }
  }

  lemma Woken(at: map<nat, Place>, p: Place, q: Place)
    requires p != q
    ensures Number(Notify(at, p, q), p) == 0
    ensures Number(Notify(at, p, q), q) == Number(at, p) + Number(at, q)
    ensures forall x :: x != p && x != q ==> Number(Notify(at, p, q), x) == Number(at, x)
  {
    hide Notify, Number, In;
    var r := Notify(at, p, q);
    Emptied(at, r, p, q);
    Merged(at, r, p, q);
    forall x | x != p && x != q ensures Number(r, x) == Number(at, x) { Unmoved(at, r, p, q, x); }
  }

  lemma Emptied(at: map<nat, Place>, r: map<nat, Place>, p: Place, q: Place)
    requires r == Notify(at, p, q) && p != q
    ensures Number(r, p) == 0
  {
    assert In(r, p) == {};
  }

  lemma Merged(at: map<nat, Place>, r: map<nat, Place>, p: Place, q: Place)
    requires r == Notify(at, p, q) && p != q
    ensures Number(r, q) == Number(at, p) + Number(at, q)
  {
    hide Notify;
    var a, b := In(at, p), In(at, q);
    assert In(r, q) == a + b;
    assert a * b == {};
  }

  lemma Unmoved(at: map<nat, Place>, r: map<nat, Place>, p: Place, q: Place, x: Place)
    requires r == Notify(at, p, q) && x != p && x != q
    ensures Number(r, x) == Number(at, x)
  {
    hide Notify;
    assert forall c :: c in In(r, x) <==> c in In(at, x);
    assert In(r, x) == In(at, x);
  }

  // ------------------------------------------------------------------ the invariant

  /** The counters count: holders, sleeping or woken readers, sleeping or woken writers. */
  ghost predicate Counted(s: State) {
    && s.numRWait == Number(s.at, AsleepRead) + Number(s.at, WokenRead)
    && s.numWWait == Number(s.at, AsleepWrite) + Number(s.at, WokenWrite)
    && (if s.numLocks < 0 then s.numLocks == -1 && Number(s.at, Writing) == 1 && Number(s.at, Reading) == 0
        else Number(s.at, Writing) == 0 && s.numLocks == Number(s.at, Reading))
  }

  ghost predicate SomeoneAsleep(s: State) {
    Number(s.at, AsleepRead) > 0 || Number(s.at, AsleepWrite) > 0
  }

  ghost predicate SomeoneWoken(s: State) {
    Number(s.at, WokenRead) > 0 || Number(s.at, WokenWrite) > 0
  }

  /** No wake-up is lost: a free lock with sleepers has someone on the way to it. */
  ghost predicate Attended(s: State) {
    s.numLocks == 0 && SomeoneAsleep(s) ==> SomeoneWoken(s)
  }

  ghost predicate Inv(s: State) { Counted(s) && Attended(s) }

  ghost predicate Initial(s: State) {
    s.numRWait == s.numWWait == s.numLocks == 0 && forall c :: c in s.at ==> s.at[c] == Outside
  }

  lemma InitialInv(s: State)
    requires Initial(s)
    ensures Inv(s)
  {
    forall p | p != Outside ensures Number(s.at, p) == 0 { assert In(s.at, p) == {}; }
  }

  lemma StepKeeps(s: State, e: Event)
    requires Inv(s) && Enabled(s, e)
    ensures Inv(Step(s, e))
  {
    hide Number, Notify;
    var c := e.c;
    match e
    case LockRead(_) =>
      Moved(s.at, c, AsleepRead);
      Moved(s.at, c, Reading);
    case ResumeRead(_) =>
      Moved(s.at, c, AsleepRead);
      Moved(s.at, c, Reading);
    case LockWrite(_) =>
      Moved(s.at, c, AsleepWrite);
      Moved(s.at, c, Writing);
    case ResumeWrite(_) =>
      Moved(s.at, c, AsleepWrite);
      Moved(s.at, c, Writing);
    case Unlock(_) =>
      Moved(s.at, c, Outside);
      HolderCounts(s.at, c);
      var at := s.at[c := Outside];
      Woken(at, AsleepWrite, WokenWrite);
      Woken(at, AsleepRead, WokenRead);
  }

  lemma HolderCounts(at: map<nat, Place>, c: nat)
    requires c in at
    ensures Number(at, at[c]) > 0
  {
    assert c in In(at, at[c]);
  }

  // ------------------------------------------------------------------ runs

  /** The state after a sequence of steps; steps that are not enabled do not happen. */
  function After(s: State, es: seq<Event>): State
    decreases |es|
  {
    if es == [] then s
    else if Enabled(s, es[0]) then After(Step(s, es[0]), es[1..]) else After(s, es[1..])
  }

  lemma {:induction false} RunKeeps(s: State, es: seq<Event>)
    requires Inv(s)
    ensures Inv(After(s, es))
    decreases |es|
  {
    hide Inv, Step;
    if es != [] {
      if Enabled(s, es[0]) {
        StepKeeps(s, es[0]);
        RunKeeps(Step(s, es[0]), es[1..]);
      } else {
        RunKeeps(s, es[1..]);
      }
    }
  }

  /** Over every run: a writer never coexists with any other holder, and numLocks says exactly
      who holds the lock. */
  lemma Exclusion(s: State, es: seq<Event>, c: nat, d: nat)
    requires Initial(s) && c != d
    ensures var t := After(s, es);
      && (c in t.at && t.at[c] == Writing ==> t.numLocks == -1 && (d in t.at ==> t.at[d] != Writing && t.at[d] != Reading))
      && (c in t.at && t.at[c] == Reading ==> t.numLocks >= 1)
  {
    hide After;
    InitialInv(s);
    RunKeeps(s, es);
    var t := After(s, es);
    if c in t.at {
      HolderCounts(t.at, c);
      if d in t.at {
        HolderCounts(t.at, d);
        if t.at[c] == Writing && t.at[d] == Writing { TwoAreTwo(t.at, c, d); }
      }
    }
  }

  lemma TwoAreTwo(at: map<nat, Place>, c: nat, d: nat)
    requires c != d && c in at && d in at && at[c] == at[d]
    ensures Number(at, at[c]) >= 2
  {
    var s := In(at, at[c]);
    assert c in s && d in s - {c};
    assert |s - {c}| == |s| - 1;
    assert |s - {c}| > 0;
  }

  /** Over every run: if the lock is free and a request sleeps, some request has been woken; and
      whenever a woken request runs while the lock is free, it gets the lock. */
  lemma NoLostWakeUp(s: State, es: seq<Event>, c: nat) returns (w: nat)
    requires Initial(s)
    requires var t := After(s, es); t.numLocks == 0 && c in t.at && (t.at[c] == AsleepRead || t.at[c] == AsleepWrite)
    ensures w in After(s, es).at && (After(s, es).at[w] == WokenRead || After(s, es).at[w] == WokenWrite)
    ensures var t := After(s, es);
      var u := Step(t, if t.at[w] == WokenRead then ResumeRead(w) else ResumeWrite(w));
      u.numLocks != 0 && (u.at[w] == Reading || u.at[w] == Writing)
  {
    hide After;
    InitialInv(s);
    RunKeeps(s, es);
    var t := After(s, es);
    HolderCounts(t.at, c);
    if Number(t.at, WokenRead) > 0 { w :| w in In(t.at, WokenRead); }
    else { w :| w in In(t.at, WokenWrite); }
  }

  /** Over every run: while any request is under way, some request can take a step. */
  lemma NoDeadlock(s: State, es: seq<Event>, c: nat) returns (e: Event)
    requires Initial(s) && var t := After(s, es); c in t.at && t.at[c] != Outside
    ensures Enabled(After(s, es), e) && !e.LockRead? && !e.LockWrite?
  {
    hide After;
    InitialInv(s);
    RunKeeps(s, es);
    var t := After(s, es);
    HolderCounts(t.at, c);
    if Number(t.at, WokenRead) > 0 {
      var w :| w in In(t.at, WokenRead);
      e := ResumeRead(w);
    } else if Number(t.at, WokenWrite) > 0 {
      var w :| w in In(t.at, WokenWrite);
      e := ResumeWrite(w);
    } else if Number(t.at, Reading) > 0 {
      var w :| w in In(t.at, Reading);
      e := Unlock(w);
    } else {
      assert Number(t.at, Writing) > 0;
      var w :| w in In(t.at, Writing);
      e := Unlock(w);
    }
  }

  // ------------------------------------------------------------------ who gets the lock

  ghost predicate Nobody(at: map<nat, Place>, p: Place) {
    forall d :: d in at ==> at[d] != p
  }

  lemma NobodyIff(at: map<nat, Place>, p: Place)
    ensures Number(at, p) == 0 <==> Nobody(at, p)
  {
    if Nobody(at, p) {
      assert In(at, p) == {};
    } else {
      var d :| d in at && at[d] == p;
      assert d in In(at, p);
    }
  }

  /** What a step of request `e.c` does, said of the places alone: a reader gets the lock exactly
      if nobody writes, a writer exactly if nobody reads or writes, and else they sleep. */
  ghost predicate Served(at: map<nat, Place>, e: Event, to: map<nat, Place>)
    requires e.c in at
  {
    && to.Keys == at.Keys
    && match e
       case LockRead(c) => to == at[c := if Nobody(at, Writing) then Reading else AsleepRead]
       case ResumeRead(c) => to == at[c := if Nobody(at, Writing) then Reading else AsleepRead]
       case LockWrite(c) => to == at[c := if Nobody(at, Writing) && Nobody(at, Reading) then Writing else AsleepWrite]
       case ResumeWrite(c) => to == at[c := if Nobody(at, Writing) && Nobody(at, Reading) then Writing else AsleepWrite]
       case Unlock(c) => to[c] == Outside && forall d :: d in at && d != c ==> to[d] == WhenUnlocked(at, at[d])
  }

  /** Giving up wakes the writers asleep if any writer waits, and else the readers asleep. */
  ghost function WhenUnlocked(at: map<nat, Place>, p: Place): Place {
    if Nobody(at, AsleepWrite) && Nobody(at, WokenWrite)
    then (if p == AsleepRead then WokenRead else p)
    else (if p == AsleepWrite then WokenWrite else p)
  }

  lemma StepServes(s: State, e: Event)
    requires Inv(s) && Enabled(s, e)
    ensures Served(s.at, e, Step(s, e).at)
  {
    hide Number;
    forall p ensures Number(s.at, p) == 0 <==> Nobody(s.at, p) { NobodyIff(s.at, p); }
    HolderCounts(s.at, e.c);
    if e.Unlock? {
      var u := Step(s, e).at;
      forall d | d in s.at && d != e.c ensures u[d] == WhenUnlocked(s.at, s.at[d]) {
        HolderCounts(s.at, d);
      }
    }
  }

  /** The same in every state that can be reached. */
  lemma AlwaysServed(s: State, es: seq<Event>, e: Event)
    requires Initial(s) && Enabled(After(s, es), e)
    ensures Served(After(s, es).at, e, Step(After(s, es), e).at)
  {
    hide After, Step, Served, Inv;
    InitialInv(s);
    RunKeeps(s, es);
    StepServes(After(s, es), e);
  }

  function Readers(cs: seq<nat>): (es: seq<Event>)
    ensures |es| == |cs|
  {
    if cs == [] then [] else [LockRead(cs[0])] + Readers(cs[1..])
  }

  /** Any number of readers hold the lock together: none of them waits. */
  lemma {:induction false} ReadersShare(s: State, cs: seq<nat>)
    requires Inv(s) && Nobody(s.at, Writing)
    requires forall i :: 0 <= i < |cs| ==> cs[i] in s.at && s.at[cs[i]] == Outside
    requires forall i, j :: 0 <= i < j < |cs| ==> cs[i] != cs[j]
    ensures var t := After(s, Readers(cs));
      && t.numLocks == s.numLocks + |cs|
      && (forall i :: 0 <= i < |cs| ==> cs[i] in t.at && t.at[cs[i]] == Reading)
      && forall d :: d in s.at && s.at[d] == Reading ==> d in t.at && t.at[d] == Reading
    decreases |cs|
  {
    hide Inv, Number;
    if cs != [] {
      var e := LockRead(cs[0]);
      var u := Step(s, e);
      StepServes(s, e);
      StepKeeps(s, e);
      NotWritten(s);
      assert Readers(cs)[0] == e && Readers(cs)[1..] == Readers(cs[1..]);
      forall i | 0 <= i < |cs[1..]| ensures cs[1..][i] in u.at && u.at[cs[1..][i]] == Outside {
        assert cs[1..][i] == cs[i + 1] && cs[0] != cs[i + 1];
      }
      ReadersShare(u, cs[1..]);
      var t := After(u, Readers(cs[1..]));
      forall i | 0 <= i < |cs| ensures cs[i] in t.at && t.at[cs[i]] == Reading {
        if i > 0 { assert cs[i] == cs[1..][i - 1]; } else { assert u.at[cs[0]] == Reading; }
      }
    }
  }

  lemma NotWritten(s: State)
    requires Inv(s) && Nobody(s.at, Writing)
    ensures s.numLocks >= 0
  {
    NobodyIff(s.at, Writing);
  }

  // ------------------------------------------------------------------ the object

  /** The lock itself. A method is one stretch of code under the mutex, by request `c`; the ones
      that may wait end where the wait begins, and are taken up again by the Resume methods. */
  class RWMutex {
    var numRWait: int
    var numWWait: int
    var numLocks: int
    ghost var at: map<nat, Place>

    ghost function Now(): State
      reads this
    {
      State(numRWait, numWWait, numLocks, at)
    }

    constructor (ghost requests: set<nat>)
      ensures Initial(Now()) && Inv(Now()) && at.Keys == requests
    {
      numRWait, numWWait, numLocks := 0, 0, 0;
      at := map c | c in requests :: Outside;
      new;
      InitialInv(Now());
    }

    /** The reader's loop test. */
    method TestRead(ghost c: nat) returns (got: bool)
      requires c in at
      modifies this
      ensures Now() == TryRead(old(Now()), c) && got == (at[c] == Reading)
    {
      if numLocks < 0 {
        numRWait := numRWait + 1;
        at := at[c := AsleepRead];
        return false;
      }
      numLocks := numLocks + 1;
      at := at[c := Reading];
      return true;
    }

    method TestWrite(ghost c: nat) returns (got: bool)
      requires c in at
      modifies this
      ensures Now() == TryWrite(old(Now()), c) && got == (at[c] == Writing)
    {
      if numLocks != 0 {
        numWWait := numWWait + 1;
        at := at[c := AsleepWrite];
        return false;
      }
      numLocks := -1;
      at := at[c := Writing];
      return true;
    }

    method LockRead(ghost c: nat) returns (got: bool)
      requires Inv(Now()) && Enabled(Now(), Event.LockRead(c))
      modifies this
      ensures Inv(Now()) && Now() == Step(old(Now()), Event.LockRead(c)) && got == (at[c] == Reading)
      ensures Served(old(at), Event.LockRead(c), at) && (got <==> old(Nobody(at, Writing)))
    {
      StepServes(Now(), Event.LockRead(c));
      StepKeeps(Now(), Event.LockRead(c));
      got := TestRead(c);
    }

    method ResumeRead(ghost c: nat) returns (got: bool)
      requires Inv(Now()) && Enabled(Now(), Event.ResumeRead(c))
      modifies this
      ensures Inv(Now()) && Now() == Step(old(Now()), Event.ResumeRead(c)) && got == (at[c] == Reading)
      ensures Served(old(at), Event.ResumeRead(c), at) && (got <==> old(Nobody(at, Writing)))
    {
      StepServes(Now(), Event.ResumeRead(c));
      StepKeeps(Now(), Event.ResumeRead(c));
      numRWait := numRWait - 1;
      got := TestRead(c);
    }

    method LockWrite(ghost c: nat) returns (got: bool)
      requires Inv(Now()) && Enabled(Now(), Event.LockWrite(c))
      modifies this
      ensures Inv(Now()) && Now() == Step(old(Now()), Event.LockWrite(c)) && got == (at[c] == Writing)
      ensures Served(old(at), Event.LockWrite(c), at) && (got <==> old(Nobody(at, Writing) && Nobody(at, Reading)))
    {
      StepServes(Now(), Event.LockWrite(c));
      StepKeeps(Now(), Event.LockWrite(c));
      got := TestWrite(c);
    }

    method ResumeWrite(ghost c: nat) returns (got: bool)
      requires Inv(Now()) && Enabled(Now(), Event.ResumeWrite(c))
      modifies this
      ensures Inv(Now()) && Now() == Step(old(Now()), Event.ResumeWrite(c)) && got == (at[c] == Writing)
      ensures Served(old(at), Event.ResumeWrite(c), at) && (got <==> old(Nobody(at, Writing) && Nobody(at, Reading)))
    {
      StepServes(Now(), Event.ResumeWrite(c));
      StepKeeps(Now(), Event.ResumeWrite(c));
      numWWait := numWWait - 1;
      got := TestWrite(c);
    }

    /** Gives the lock up; writers are notified before readers. The assertion of the source, that
        the lock is held, follows from the caller holding it. */
    method Unlock(ghost c: nat)
      requires Inv(Now()) && Enabled(Now(), Event.Unlock(c))
      modifies this
      ensures Inv(Now()) && Now() == Step(old(Now()), Event.Unlock(c))
      ensures Served(old(at), Event.Unlock(c), at)
    {
      StepServes(Now(), Event.Unlock(c));
      StepKeeps(Now(), Event.Unlock(c));
      HolderCounts(at, c);
      assert numLocks > 0 || numLocks == -1;
      if numLocks <= 0 { numLocks := 0; } else { numLocks := numLocks - 1; }
      at := at[c := Outside];
      if numWWait != 0 {
        at := Notify(at, AsleepWrite, WokenWrite);
      } else if numRWait != 0 {
        at := Notify(at, AsleepRead, WokenRead);
      }
    }
  }
}
