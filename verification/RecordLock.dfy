/** Record locks: a lock of the database, and on top of it persistent leases that expire. A process that
    asks for a record tries every second for some time.
*/
module RecordLock {

  type Key = string
  type Proc = nat

  /** The locks held, the processes that are in a transaction, the leases with the time at which they expire, the
      time, and whether there is a file of leases at all. */
  datatype World = World(owner: map<Key, Proc>, trans: set<Proc>, leases: map<Key, int>, now: int, leaseFile: bool)

  function Held(w: World, p: Proc): set<Key> {
    set k | k in w.owner && w.owner[k] == p
  }

  /** The answers of the database lock: got it, had it already, or another process has it. */
  datatype Answer = Got | Had | Busy

  function TryLock(w: World, p: Proc, k: Key): (Answer, World) {
    if k !in w.owner then (Got, w.(owner := w.owner[k := p]))
    else (if w.owner[k] == p then Had else Busy, w)
  }

  /** Whether the answer lets a call pass: in a transaction a lock that the process has already is a success. */
  predicate Passes(w: World, p: Proc, answer: Answer, dup: bool) {
    Locked(w, p, answer) || (dup && answer == Had)
  }

  /** Whether the database calls the record locked. */
  predicate Locked(w: World, p: Proc, answer: Answer) {
    answer == Got || (answer == Had && p in w.trans)
  }

  /** In a transaction nothing is unlocked. */
  function Unlock(w: World, p: Proc, k: Key): World {
    if p !in w.trans && k in w.owner && w.owner[k] == p then w.(owner := w.owner - {k}) else w
  }

  predicate Leased(w: World, k: Key) {
    w.leaseFile && k in w.leases && w.leases[k] > w.now
  }

  /** Looks for a lease on a record that is locked now; `got` says that the database called it locked. */
  function CheckLease(w: World, p: Proc, k: Key, got: bool): (bool, World) {
    if !w.leaseFile || k !in w.leases then (true, w)
    else if w.leases[k] <= w.now then (true, w.(leases := w.leases - {k}))
    else (false, if got then Unlock(w, p, k) else w)
  }

  // ----- many processes -----

  /** Where a process is in a call for `key`: `left` are the seconds still to wait, `tries` the attempts
      made, `had` the locks it held when it called. */
  datatype Call = Call(key: Key, secs: int, dup: bool, left: int, tries: nat, had: set<Key>)

  datatype Phase =
    | Ready
    | Trying(call: Call)
    | Checking(call: Call, got: bool)
    | Returned(call: Call, ending: Ending)

  /** Only the first is the answer true. */
  datatype Ending = Granted | LeaseFound | GivenUp

  /** The system: `granted` are the locks for which a call returned true and which were not released since. */
  datatype System = System(w: World, phase: map<Proc, Phase>, granted: set<(Proc, Key)>)

  function PhaseOf(s: System, p: Proc): Phase {
    if p in s.phase then s.phase[p] else Ready
  }

  function To(s: System, p: Proc, phase: Phase): System {
    s.(phase := s.phase[p := phase])
  }

  datatype Event =
    | Begin(p: Proc, key: Key, secs: int, dup: bool)
    | Attempt(p: Proc, cancelled: bool)   // cancelled: terminate or reload was requested
    | Check(p: Proc)
    | Resume(p: Proc)                     // the caller goes on
    | Release(p: Proc, key: Key)          // the caller unlocks a record
    | BeginTrans(p: Proc)                 // with no lock held
    | EndTrans(p: Proc)                   // commit or rollback
    | Lease(key: Key, until: int)
    | Tick(now: int)

  function Next(s: System, ev: Event): System {
    match ev
    case Begin(p, key, secs, dup) =>
      if !PhaseOf(s, p).Ready? then s
      else To(s, p, Trying(Call(key, secs, dup, secs, 0, Held(s.w, p))))
    case Attempt(p, cancelled) =>
      if !PhaseOf(s, p).Trying? then s
      else
        var c := PhaseOf(s, p).call;
        if cancelled then To(s, p, Returned(c, GivenUp))
        else
          var (answer, w) := TryLock(s.w, p, c.key);
          var c' := c.(tries := c.tries + 1);
          if Passes(s.w, p, answer, c.dup) then To(s.(w := w), p, Checking(c', Locked(s.w, p, answer)))
          else if c.left != 0 then To(s, p, Trying(c'.(left := c.left - 1)))
          else To(s, p, Returned(c', GivenUp))
    case Check(p) =>
      if !PhaseOf(s, p).Checking? then s
      else
        var Checking(c, got) := PhaseOf(s, p);
        var (ok, w) := CheckLease(s.w, p, c.key, got);
        To(s.(w := w, granted := if ok then s.granted + {(p, c.key)} else s.granted), p,
           Returned(c, if ok then Granted else LeaseFound))
    case Resume(p) => if PhaseOf(s, p).Returned? then To(s, p, Ready) else s
    case Release(p, key) =>
      if PhaseOf(s, p).Ready? && p !in s.w.trans
      then s.(w := Unlock(s.w, p, key), granted := s.granted - {(p, key)}) else s
    case BeginTrans(p) =>
      if PhaseOf(s, p).Ready? && Held(s.w, p) == {} then s.(w := s.w.(trans := s.w.trans + {p})) else s
    case EndTrans(p) =>
      if PhaseOf(s, p).Ready? && p in s.w.trans
      then s.(w := s.w.(trans := s.w.trans - {p}, owner := s.w.owner - Held(s.w, p)),
              granted := set g | g in s.granted && g.0 != p)
      else s
    case Lease(key, until) => s.(w := s.w.(leases := s.w.leases[key := until]))
    case Tick(now) => s.(w := s.w.(now := now))
  }

  function After(s: System, evs: seq<Event>): System
    decreases |evs|
  {
    if evs == [] then s else After(Next(s, evs[0]), evs[1..])
  }

  /** What every step keeps, for one process. */
  ghost predicate ProcOk(s: System, p: Proc) {
    && (forall k :: (p, k) in s.granted ==> k in s.w.owner && s.w.owner[k] == p)
    && match PhaseOf(s, p)
       case Ready => true
       case Trying(c) => Held(s.w, p) == c.had && TriesOk(c) && (c.secs >= 0 ==> 0 <= c.left && c.tries + c.left == c.secs)
       case Checking(c, got) =>
         && c.key in s.w.owner && s.w.owner[c.key] == p && (p !in s.w.trans ==> (got <==> c.key !in c.had))
         && Held(s.w, p) == c.had + {c.key} && TriesOk(c) && (got && p !in s.w.trans ==> (p, c.key) !in s.granted)
       case Returned(c, ending) =>
         && Held(s.w, p) == (if Keeps(s.w, p, ending) then c.had + {c.key} else c.had) && TriesOk(c)
         && (ending == Granted ==> (p, c.key) in s.granted)
  }

  /** Whether the lock on the record asked for is held after the call: in a transaction it is even if a lease was
      found. */
  predicate Keeps(w: World, p: Proc, ending: Ending) {
    ending == Granted || (ending == LeaseFound && p in w.trans)
  }

  /** At most one attempt more than the seconds to wait. */
  ghost predicate TriesOk(c: Call) {
    c.secs >= 0 ==> c.tries <= c.secs + 1
  }

  ghost predicate Inv(s: System) {
    forall p :: ProcOk(s, p)
  }

  predicate ActsFor(ev: Event, p: Proc) {
    match ev
    case Lease(_, _) => false
    case Tick(_) => false
    case _ => ev.p == p
  }

  lemma OwnStep(s: System, ev: Event, p: Proc)
    requires ProcOk(s, p) && ActsFor(ev, p)
    ensures ProcOk(Next(s, ev), p)
  {
    var s' := Next(s, ev);
    match ev
    case Attempt(_, cancelled) =>
      if PhaseOf(s, p).Trying? && !cancelled {
        AttemptHeld(s.w, p, PhaseOf(s, p).call.key);
      }
    case Check(_) =>
      if PhaseOf(s, p).Checking? {
        CheckHeld(s, p);
      }
    case Release(_, key) =>
    case _ =>
  }

  lemma AttemptHeld(w: World, p: Proc, k: Key)
    ensures var (answer, w') := TryLock(w, p, k);
            && Held(w', p) == (if answer == Got then Held(w, p) + {k} else Held(w, p))
            && (answer == Got ==> k !in Held(w, p)) && (answer == Had <==> k in Held(w, p))
  {
  }

  lemma CheckHeld(s: System, p: Proc)
    requires ProcOk(s, p) && PhaseOf(s, p).Checking?
    ensures var Checking(c, got) := PhaseOf(s, p);
            var (ok, w') := CheckLease(s.w, p, c.key, got);
            Held(w', p) == if ok || p in s.w.trans then c.had + {c.key} else c.had
  {
    var Checking(c, got) := PhaseOf(s, p);
    var (ok, w') := CheckLease(s.w, p, c.key, got);
    if !ok && p !in s.w.trans {
      assert Held(w', p) == if got then Held(s.w, p) - {c.key} else Held(s.w, p);
    }
  }

  /** What other processes do, leases and time do not touch the locks of a process. */
  lemma OtherStep(s: System, ev: Event, p: Proc)
    requires Inv(s) && !ActsFor(ev, p)
    ensures ProcOk(Next(s, ev), p)
  {
    var s' := Next(s, ev);
    assert ProcOk(s, p);
    OthersKeepLocks(s, ev, p);
    assert Held(s'.w, p) == Held(s.w, p);
    assert PhaseOf(s', p) == PhaseOf(s, p);
  }

  lemma OthersKeepLocks(s: System, ev: Event, p: Proc)
    requires Inv(s) && !ActsFor(ev, p)
    ensures forall k :: (k in Next(s, ev).w.owner && Next(s, ev).w.owner[k] == p) <==> (k in s.w.owner && s.w.owner[k] == p)
    ensures forall k :: (p, k) in Next(s, ev).granted <==> (p, k) in s.granted
    ensures PhaseOf(Next(s, ev), p) == PhaseOf(s, p)
  {
    match ev
    case Check(q) =>
      assert ProcOk(s, q);
    case _ =>
  }

  lemma {:induction false} InvAlways(s: System, evs: seq<Event>)
    requires Inv(s)
    ensures Inv(After(s, evs))
    decreases |evs|
  {
    if evs != [] {
      hide Next, ProcOk;
      forall p
        ensures ProcOk(Next(s, evs[0]), p)
      {
        if ActsFor(evs[0], p) {
          OwnStep(s, evs[0], p);
        } else {
          OtherStep(s, evs[0], p);
        }
      }
      InvAlways(Next(s, evs[0]), evs[1..]);
    }
  }

  function Initial(w: World): System {
    System(w, map[], {})
  }

  lemma InitialInv(w: World)
    ensures Inv(Initial(w))
  {
  }

  /** In every run at most one process holds a record that it was granted. */
  lemma GrantedToOne(w: World, evs: seq<Event>, p: Proc, q: Proc, k: Key)
    requires (p, k) in After(Initial(w), evs).granted && (q, k) in After(Initial(w), evs).granted
    ensures p == q
  {
    InitialInv(w);
    InvAlways(Initial(w), evs);
    var s := After(Initial(w), evs);
    assert ProcOk(s, p) && ProcOk(s, q);
  }

  /** In every run a call that returned true added the record asked for to the locks of the caller; one that
      returned false left them as they were, duplicates included, unless it was refused for a lease in a transaction;
      and it tried at most once more than the seconds it was to wait. */
  lemma ReturnMeans(w: World, evs: seq<Event>, p: Proc)
    ensures var s := After(Initial(w), evs);
            PhaseOf(s, p).Returned? ==>
              var Returned(c, ending) := PhaseOf(s, p);
              && Held(s.w, p) ==
                 (if ending == Granted || (ending == LeaseFound && p in s.w.trans) then c.had + {c.key} else c.had)
              && (c.secs >= 0 ==> c.tries <= c.secs + 1)
              && (ending == Granted ==> (p, c.key) in s.granted)
  {
    InitialInv(w);
    InvAlways(Initial(w), evs);
    assert ProcOk(After(Initial(w), evs), p);
  }

  /** A call that returned false left the locks as they were if and only if it was not refused for a lease, in a
      transaction, on a record that it had not locked before. */
  lemma FalseLeavesLocksIff(w: World, evs: seq<Event>, p: Proc)
    ensures var s := After(Initial(w), evs);
            PhaseOf(s, p).Returned? && PhaseOf(s, p).ending != Granted ==>
              var Returned(c, ending) := PhaseOf(s, p);
              Held(s.w, p) == c.had <==> !(ending == LeaseFound && p in s.w.trans && c.key !in c.had)
  {
    ReturnMeans(w, evs, p);
    var s := After(Initial(w), evs);
    if PhaseOf(s, p).Returned? {
      var c := PhaseOf(s, p).call;
      assert c.key in c.had + {c.key};
      assert c.key in c.had ==> c.had + {c.key} == c.had;
    }
  }

  /** In a transaction a call refused for a lease leaves the record locked. */
  lemma LeaseKeepsLock(p: Proc, k: Key)
    ensures var evs := [BeginTrans(p), Begin(p, k, 0, false), Attempt(p, false), Check(p)];
            var s := After(Initial(World(map[], {}, map[k := 1], 0, true)), evs);
            && PhaseOf(s, p).Returned? && PhaseOf(s, p).ending == LeaseFound
            && PhaseOf(s, p).call.had == {} && Held(s.w, p) == {k}
  {
    var w := World(map[], {}, map[k := 1], 0, true);
    var s0 := Initial(w);
    assert Held(w, p) == {};
    var s1 := Next(s0, BeginTrans(p));
    var s2 := Next(s1, Begin(p, k, 0, false));
    assert Held(s1.w, p) == {};
    var s3 := Next(s2, Attempt(p, false));
    assert PhaseOf(s3, p) == Checking(Call(k, 0, false, 0, 1, {}), true);
    var s4 := Next(s3, Check(p));
    assert s4.w.owner == map[k := p];
    assert Held(s4.w, p) == {k};
    FourEvents(s0, BeginTrans(p), Begin(p, k, 0, false), Attempt(p, false), Check(p));
  }

  lemma FourEvents(s: System, a: Event, b: Event, c: Event, d: Event)
    ensures After(s, [a, b, c, d]) == Next(Next(Next(Next(s, a), b), c), d)
  {
    hide Next;
    assert [a, b, c, d][1..] == [b, c, d] && [b, c, d][1..] == [c, d] && [c, d][1..] == [d] && [d][1..] == [];
    var s1 := Next(s, a);
    var s2 := Next(s1, b);
    assert After(s2, [c, d]) == After(Next(s2, c), [d]);
    assert After(s1, [b, c, d]) == After(s2, [c, d]);
  }

  /** What one attempt does: a cancelled call gives up; a free record is locked; one that the process has already will
      do if duplicates are allowed or in a transaction; and otherwise the call waits, as long as seconds are left. */
  lemma AttemptMeans(s: System, p: Proc, cancelled: bool)
    requires PhaseOf(s, p).Trying?
    ensures var c, s' := PhaseOf(s, p).call, Next(s, Attempt(p, cancelled));
            var free, own := c.key !in s.w.owner, c.key in s.w.owner && s.w.owner[c.key] == p;
            var passes := free || (own && (c.dup || p in s.w.trans));
            && (cancelled ==> PhaseOf(s', p) == Returned(c, GivenUp) && s'.w == s.w)
            && (!cancelled && passes ==>
                  && PhaseOf(s', p).Checking? && PhaseOf(s', p).call == c.(tries := c.tries + 1)
                  && s'.w.owner == (if free then s.w.owner[c.key := p] else s.w.owner))
            && (!cancelled && !passes && c.left != 0 ==>
                  PhaseOf(s', p) == Trying(c.(tries := c.tries + 1, left := c.left - 1)) && s'.w == s.w)
            && (!cancelled && !passes && c.left == 0 ==>
                  PhaseOf(s', p) == Returned(c.(tries := c.tries + 1), GivenUp) && s'.w == s.w)
  {
  }

  /** A call returns true exactly if its check finds no lease that has not expired; an expired lease is
      removed. */
  lemma TrueMeansNoLease(s: System, p: Proc)
    requires PhaseOf(s, p).Checking?
    ensures var s' := Next(s, Check(p));
            && PhaseOf(s', p).Returned?
            && (PhaseOf(s', p).ending == Granted <==>
                  var key := PhaseOf(s, p).call.key;
                  !(s.w.leaseFile && key in s.w.leases && s.w.leases[key] > s.w.now))
            && (PhaseOf(s', p).ending == Granted && s.w.leaseFile ==> PhaseOf(s', p).call.key !in s'.w.leases)
  {
  }

  /** Event i is the check of this call, made when there was no unexpired lease on the record. */
  ghost predicate CheckedAt(s: System, evs: seq<Event>, p: Proc, i: nat, call: Call)
    requires i < |evs|
  {
    var before := After(s, evs[..i]);
    && evs[i] == Check(p) && PhaseOf(before, p).Checking? && PhaseOf(before, p).call == call
    && !Leased(before.w, call.key)
  }

  lemma ReturnStep(s: System, ev: Event, p: Proc)
    requires PhaseOf(Next(s, ev), p).Returned? && PhaseOf(Next(s, ev), p).ending == Granted
    ensures PhaseOf(s, p) == PhaseOf(Next(s, ev), p)
            || (ev == Check(p) && PhaseOf(s, p).Checking? && PhaseOf(s, p).call == PhaseOf(Next(s, ev), p).call
                && !Leased(s.w, PhaseOf(s, p).call.key))
  {
  }

  lemma {:induction false} TrueWasChecked(s: System, evs: seq<Event>, p: Proc) returns (i: int)
    requires PhaseOf(After(s, evs), p).Returned? && PhaseOf(After(s, evs), p).ending == Granted
    ensures i == -1 ==> PhaseOf(s, p) == PhaseOf(After(s, evs), p)
    ensures i != -1 ==> 0 <= i < |evs| && CheckedAt(s, evs, p, i, PhaseOf(After(s, evs), p).call)
    decreases |evs|
  {
    if evs == [] {
      i := -1;
    } else {
      hide Next, Leased;
      var j := TrueWasChecked(Next(s, evs[0]), evs[1..], p);
      if j != -1 {
        i := j + 1;
        assert evs[..i][1..] == evs[1..][..j];
      } else {
        ReturnStep(s, evs[0], p);
        i := if PhaseOf(s, p) == PhaseOf(After(s, evs), p) then -1 else 0;
        assert evs[..0] == [];
      }
    }
  }

  /** In every run, behind a call that has returned true there is the check that ended it, and then there was no
      lease on the record that had not expired. */
  lemma TrueHadNoLease(w: World, evs: seq<Event>, p: Proc) returns (i: nat)
    requires var s := After(Initial(w), evs); PhaseOf(s, p).Returned? && PhaseOf(s, p).ending == Granted
    ensures i < |evs| && CheckedAt(Initial(w), evs, p, i, PhaseOf(After(Initial(w), evs), p).call)
  {
    i := TrueWasChecked(Initial(w), evs, p);
  }

  // ----- one call -----

  /** The world at one attempt, and whether the call is cancelled then. */
  datatype Moment = Moment(w: World, cancelled: bool)

  /** Other processes leave the locks of `p` and its transaction alone while it sleeps. */
  ghost predicate Undisturbed(script: seq<Moment>, p: Proc) {
    forall i :: 0 <= i < |script| ==>
      Held(script[i].w, p) == Held(script[0].w, p) && (p in script[i].w.trans <==> p in script[0].w.trans)
  }

  datatype Outcome = StillWaiting | Done(ending: Ending)

  /** At which attempt a call gets past the database lock or gives up, and with what result: the first
      one that is cancelled, that locks the record, or that has no seconds left. */
  function Decide(script: seq<Moment>, p: Proc, key: Key, left: int, dup: bool): Outcome {
    if script == [] then StillWaiting
    else if script[0].cancelled then Done(GivenUp)
    else
      var answer := TryLock(script[0].w, p, key).0;
      if Passes(script[0].w, p, answer, dup) then Done(if Leased(script[0].w, key) then LeaseFound else Granted)
      else if left != 0 then Decide(script[1..], p, key, left - 1, dup)
      else Done(GivenUp)
  }

  class Locker {
    var w: World

    constructor (world: World)
      ensures w == world
    {
      w := world;
    }

    /** Asks for a record; `script` is the world at each attempt, as far as it is known: when it ends
        before the call does, the call is still waiting. */
    method LockRecord(p: Proc, key: Key, waitsecs0: int, allowduplicate: bool, script: seq<Moment>)
      returns (outcome: Outcome, ghost tries: nat)
      requires Undisturbed(script, p) && (script != [] ==> script[0].w == w)
      modifies this
      ensures outcome == Decide(script, p, key, waitsecs0, allowduplicate)
      ensures p in w.trans <==> p in old(w.trans)
      ensures Held(w, p) == old(Held(w, p)) + (if outcome.Done? && Keeps(w, p, outcome.ending) then {key} else {})
      ensures waitsecs0 >= 0 ==> tries <= waitsecs0 + 1
      ensures outcome.StillWaiting? ==> tries == |script|
    {
      var waitsecs, i := waitsecs0, 0;
      tries := 0;
      while i < |script|
        invariant i <= |script| && tries == i
        invariant waitsecs == waitsecs0 - i && (waitsecs0 >= 0 ==> waitsecs >= 0)
        invariant Held(w, p) == old(Held(w, p)) && (p in w.trans <==> p in old(w.trans))
        invariant Decide(script[i..], p, key, waitsecs, allowduplicate) == Decide(script, p, key, waitsecs0, allowduplicate)
      {
        w := script[i].w;
        assert script[i..][0] == script[i];
        if script[i].cancelled {
          return Done(GivenUp), tries;
        }
        AttemptHeld(w, p, key);
        var (answer, locks) := TryLock(w, p, key);
        var locked := Locked(w, p, answer);
        w := locks;
        tries := tries + 1;
        if locked || (allowduplicate && answer == Had) {
          var (ok, rest) := CheckLease(w, p, key, locked);
          assert Held(rest, p) == if !ok && locked && p !in w.trans then Held(w, p) - {key} else Held(w, p);
          w := rest;
          return Done(if ok then Granted else LeaseFound), tries;
        }
        if waitsecs == 0 {
          return Done(GivenUp), tries;
        }
        waitsecs := waitsecs - 1;
        assert script[i..][1..] == script[i + 1..];
        i := i + 1;
      }
      outcome := StillWaiting;
    }
  }

  /** How a call goes on at its first attempt: the same in terms of who has the record and of its lease. */
  lemma DecideMeans(script: seq<Moment>, p: Proc, key: Key, left: int, dup: bool)
    requires script != []
    ensures var w, outcome := script[0].w, Decide(script, p, key, left, dup);
            var passes := key !in w.owner || (w.owner[key] == p && (dup || p in w.trans));
            var leased := w.leaseFile && key in w.leases && w.leases[key] > w.now;
            && (script[0].cancelled ==> outcome == Done(GivenUp))
            && (!script[0].cancelled && passes ==> outcome == Done(if leased then LeaseFound else Granted))
            && (!script[0].cancelled && !passes && left == 0 ==> outcome == Done(GivenUp))
            && (!script[0].cancelled && !passes && left != 0 ==> outcome == Decide(script[1..], p, key, left - 1, dup))
  {
  }

  /** A call that is to wait a number of seconds ends within one attempt more than that; one with
      negative seconds goes on as long as the record is locked by another process. */
  lemma {:induction false} EndsOrWaits(script: seq<Moment>, p: Proc, key: Key, left: int, dup: bool)
    ensures 0 <= left < |script| ==> Decide(script, p, key, left, dup).Done?
    ensures left < 0 && (forall i :: 0 <= i < |script| ==> !script[i].cancelled && TryLock(script[i].w, p, key).0 == Busy)
            ==> Decide(script, p, key, left, dup).StillWaiting?
  {
    if script != [] {
      EndsOrWaits(script[1..], p, key, left - 1, dup);
    }
  }
}
