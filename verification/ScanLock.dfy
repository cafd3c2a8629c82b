/** The lock around SCSI scans in `waitForAttach` (cmd/flexplugin/main.go): any number of driver
    processes, one lock file, bounded retries. After the last failed try a process scans without
    the lock. Each event is one action of one process, or the passing of time. */
module ScanLock {
  import opened Text

  const MAX_TRIES: nat := 24
  const MAX_SCANS: nat := 24
  /** time.Duration counts nanoseconds. */
  const SECOND := 1_000_000_000
  const RETRY_SLEEP := 5 * SECOND
  /** One second before udevadm runs and four after it. */
  const SCAN_SLEEP := 1 * SECOND + 4 * SECOND

  type Pid = nat

  datatype Phase =
    | Idle
    | Trying
    | Scanning(locked: bool, scans: nat)
    | Done
    | Dead

  /** `wake` is when the current sleep ends, `fails` counts refused tries, `acquired` is when the
      process took the lock. */
  datatype Process = Process(
    phase: Phase, start: int, fails: nat, entered: int, wake: int, acquired: Option<int>)

  datatype State = State(now: int, lock: Option<Pid>, procs: map<Pid, Process>)

  datatype Event =
    | Advance(to: int)
    | Start(p: Pid)
    | Try(p: Pid)
    | EnterWithoutLock(p: Pid)
    | EndScan(p: Pid, leave: bool)
    | Crash(p: Pid)

  predicate IsAlive(phase: Phase) {
    phase.Trying? || phase.Scanning?
  }

  /** TryLock succeeds when there is no lock file, when it names the caller, and when it names a
      process that no longer runs. */
  predicate IsFree(s: State, p: Pid) {
    || s.lock == None
    || s.lock == Some(p)
    || s.lock.value !in s.procs
    || !IsAlive(s.procs[s.lock.value].phase)
  }

  /** Unlock removes the lock file only when it names the caller. */
  function Unlocked(lock: Option<Pid>, p: Pid): Option<Pid> {
    if lock == Some(p) then None else lock
  }

  /** In a prompt system commands cost no time: a process acts when its sleep ends. Otherwise it may
      act at any later time. */
  predicate IsDue(prompt: bool, s: State, p: Pid)
    requires p in s.procs
  {
    if prompt then s.now == s.procs[p].wake else s.now >= s.procs[p].wake
  }

  predicate MayAdvance(prompt: bool, s: State, to: int) {
    && s.now <= to
    && (prompt ==> forall p :: p in s.procs && IsAlive(s.procs[p].phase) ==> to <= s.procs[p].wake)
  }

  function Put(s: State, p: Pid, proc: Process): State {
    s.(procs := s.procs[p := proc])
  }

  /** One event; None when it cannot happen in this state. */
  function Next(prompt: bool, s: State, e: Event): Option<State> {
    match e
    case Advance(to) => if MayAdvance(prompt, s, to) then Some(s.(now := to)) else None
    case Start(p) =>
      if p in s.procs && s.procs[p].phase.Idle? then
        Some(Put(s, p, Process(Trying, s.now, 0, s.now, s.now, None)))
      else None
    case Try(p) =>
      if p in s.procs && s.procs[p].phase.Trying? && s.procs[p].fails < MAX_TRIES && IsDue(prompt, s, p) then
        var proc := s.procs[p];
        if IsFree(s, p) then
          Some(Put(s, p, proc.(phase := Scanning(true, 0), entered := s.now,
                               wake := s.now + SCAN_SLEEP, acquired := Some(s.now)))
               .(lock := Some(p)))
        else Some(Put(s, p, proc.(fails := proc.fails + 1, wake := s.now + RETRY_SLEEP)))
      else None
    case EnterWithoutLock(p) =>
      if p in s.procs && s.procs[p].phase.Trying? && s.procs[p].fails == MAX_TRIES && IsDue(prompt, s, p) then
        Some(Put(s, p, s.procs[p].(phase := Scanning(false, 0), entered := s.now,
                                   wake := s.now + SCAN_SLEEP)))
      else None
    case EndScan(p, leave) =>
      if p in s.procs && s.procs[p].phase.Scanning? && IsDue(prompt, s, p) then
        var proc := s.procs[p];
        if leave || proc.phase.scans + 1 >= MAX_SCANS then
          Some(Put(s, p, proc.(phase := Done)).(lock := Unlocked(s.lock, p)))
        else
          Some(Put(s, p, proc.(phase := Scanning(proc.phase.locked, proc.phase.scans + 1),
                               wake := s.now + SCAN_SLEEP)))
      else None
    case Crash(p) =>
      if p in s.procs && IsAlive(s.procs[p].phase) then
        Some(Put(s, p, s.procs[p].(phase := Dead)))
      else None
  }

  /** A run: the state after a sequence of events, if they can happen in this order. */
  function Exec(prompt: bool, s: State, es: seq<Event>): Option<State>
    decreases |es|
  {
    if es == [] then Some(s)
    else match Next(prompt, s, es[0])
      case None => None
      case Some(t) => Exec(prompt, t, es[1..])
  }

  /** Nobody has started; a lock file left by some earlier process may exist. */
  predicate IsInitial(s: State) {
    && (s.lock.Some? ==> s.lock.value !in s.procs)
    && forall p :: p in s.procs ==> s.procs[p].phase.Idle? && s.procs[p].acquired == None
  }

  predicate IsScanning(s: State, p: Pid) {
    p in s.procs && s.procs[p].phase.Scanning?
  }

  // ----- what every step keeps

  /** q took the lock at a time that explains why p's last try failed. */
  predicate HeldBackBy(s: State, p: Pid, q: Pid)
    requires p in s.procs
  {
    && q in s.procs && q != p && s.procs[q].acquired.Some?
    && s.procs[q].acquired.value + MAX_SCANS * SCAN_SLEEP
       >= s.procs[p].start + (s.procs[p].fails - 1) * RETRY_SLEEP
  }

  predicate OwnsExactlyWhenLocked(s: State, p: Pid)
    requires p in s.procs
  {
    var proc := s.procs[p];
    match proc.phase
    case Idle => s.lock != Some(p) && proc.acquired == None
    case Trying => s.lock != Some(p) && proc.acquired == None && proc.fails <= MAX_TRIES
    case Scanning(locked, scans) =>
      && (locked <==> s.lock == Some(p))
      && (locked ==> proc.acquired == Some(proc.entered))
      && (!locked ==> proc.fails == MAX_TRIES && proc.acquired == None)
      && scans < MAX_SCANS
    case Done => s.lock != Some(p)
    case Dead => true
  }

  predicate OnSchedule(s: State, p: Pid)
    requires p in s.procs
  {
    var proc := s.procs[p];
    match proc.phase
    case Trying => proc.wake == proc.start + proc.fails * RETRY_SLEEP && s.now <= proc.wake
    case Scanning(_, scans) =>
      && proc.entered == proc.start + proc.fails * RETRY_SLEEP && proc.fails <= MAX_TRIES
      && proc.wake == proc.entered + (scans + 1) * SCAN_SLEEP && s.now <= proc.wake
    case _ => true
  }

  ghost predicate Blames(s: State, p: Pid)
    requires p in s.procs
  {
    IsAlive(s.procs[p].phase) && s.procs[p].fails > 0 ==> exists q :: HeldBackBy(s, p, q)
  }

  ghost predicate Inv(prompt: bool, s: State) {
    && (forall p :: p in s.procs ==> OwnsExactlyWhenLocked(s, p))
    && (prompt ==> forall p :: p in s.procs ==> OnSchedule(s, p))
    && (prompt ==> forall p :: p in s.procs ==> Blames(s, p))
  }

  lemma InitHolds(prompt: bool, s: State)
    requires IsInitial(s)
    ensures Inv(prompt, s)
  {
  }

  /** The process that an event concerns. */
  function Actor(e: Event): Option<Pid> {
    match e
    case Advance(_) => None
    case Start(p) => Some(p)
    case Try(p) => Some(p)
    case EnterWithoutLock(p) => Some(p)
    case EndScan(p, _) => Some(p)
    case Crash(p) => Some(p)
  }

  /** A step changes the record of its actor only. */
  lemma OthersUntouched(prompt: bool, s: State, e: Event, p: Pid)
    requires Next(prompt, s, e).Some? && p in s.procs && Actor(e) != Some(p)
    ensures p in Next(prompt, s, e).value.procs && Next(prompt, s, e).value.procs[p] == s.procs[p]
  {
  }

  /** Whoever refuses a try is scanning under the lock. */
  lemma RefuserScans(prompt: bool, s: State, p: Pid)
    requires Inv(prompt, s) && p in s.procs && !IsFree(s, p)
    ensures var q := s.lock.value;
            q in s.procs && q != p && s.procs[q].phase.Scanning? && s.procs[q].phase.locked
            && s.procs[q].acquired == Some(s.procs[q].entered)
            && (prompt ==> s.now <= s.procs[q].entered + MAX_SCANS * SCAN_SLEEP)
  {
    var q := s.lock.value;
    assert OwnsExactlyWhenLocked(s, q);
    assert prompt ==> OnSchedule(s, q);
  }

  lemma StepKeepsOwnership(prompt: bool, s: State, e: Event)
    requires Inv(prompt, s) && Next(prompt, s, e).Some?
    ensures var t := Next(prompt, s, e).value;
            forall p :: p in t.procs ==> OwnsExactlyWhenLocked(t, p)
  {
    var t := Next(prompt, s, e).value;
    if e.Try? && !IsFree(s, e.p) {
      RefuserScans(prompt, s, e.p);
    }
    forall p | p in t.procs ensures OwnsExactlyWhenLocked(t, p) {
      assert OwnsExactlyWhenLocked(s, p);
    }
  }

  lemma StepKeepsSchedule(s: State, e: Event, p: Pid)
    requires Inv(true, s) && Next(true, s, e).Some? && p in s.procs
    ensures OnSchedule(Next(true, s, e).value, p)
  {
    assert OnSchedule(s, p) && OwnsExactlyWhenLocked(s, p);
    if Actor(e) != Some(p) {
      OthersUntouched(true, s, e, p);
    } else {
      ActorStaysOnSchedule(s, e, p);
    }
  }

  lemma ActorStaysOnSchedule(s: State, e: Event, p: Pid)
    requires p in s.procs && OnSchedule(s, p) && OwnsExactlyWhenLocked(s, p)
    requires Next(true, s, e).Some? && Actor(e) == Some(p)
    ensures OnSchedule(Next(true, s, e).value, p)
  {
    match e
    case Try(_) => TryStaysOnSchedule(s, p);
    case EndScan(_, leave) => ScanStaysOnSchedule(s, p, leave);
    case _ =>
  }

  lemma TryStaysOnSchedule(s: State, p: Pid)
    requires p in s.procs && OnSchedule(s, p)
    requires Next(true, s, Try(p)).Some?
    ensures OnSchedule(Next(true, s, Try(p)).value, p)
  {
    var was := s.procs[p];
    assert s.now == was.start + was.fails * RETRY_SLEEP;
    assert s.now + RETRY_SLEEP == was.start + (was.fails + 1) * RETRY_SLEEP;
  }

  lemma ScanStaysOnSchedule(s: State, p: Pid, leave: bool)
    requires p in s.procs && OnSchedule(s, p)
    requires Next(true, s, EndScan(p, leave)).Some?
    ensures OnSchedule(Next(true, s, EndScan(p, leave)).value, p)
  {
    var was := s.procs[p];
    assert s.now == was.entered + (was.phase.scans + 1) * SCAN_SLEEP;
  }

  lemma StepKeepsBlame(s: State, e: Event, p: Pid)
    requires Inv(true, s) && Next(true, s, e).Some? && p in s.procs
    ensures Blames(Next(true, s, e).value, p)
  {
    var t := Next(true, s, e).value;
    assert OwnsExactlyWhenLocked(s, p) && OnSchedule(s, p) && Blames(s, p);
    if IsAlive(t.procs[p].phase) && t.procs[p].fails > 0 {
      if e == Try(p) && !IsFree(s, p) {
        RefuserScans(true, s, p);
        assert HeldBackBy(t, p, s.lock.value);
      } else {
        var q :| HeldBackBy(s, p, q);
        assert OwnsExactlyWhenLocked(s, q);
        assert t.procs[q].acquired == s.procs[q].acquired;
        assert HeldBackBy(t, p, q);
      }
    }
  }

  lemma StepKeepsInv(prompt: bool, s: State, e: Event)
    requires Inv(prompt, s) && Next(prompt, s, e).Some?
    ensures Inv(prompt, Next(prompt, s, e).value)
  {
    StepKeepsOwnership(prompt, s, e);
    if prompt {
      forall p | p in s.procs ensures OnSchedule(Next(true, s, e).value, p) { StepKeepsSchedule(s, e, p); }
      forall p | p in s.procs ensures Blames(Next(true, s, e).value, p) { StepKeepsBlame(s, e, p); }
    }
  }

  /** Every state of every run. */
  lemma {:induction false} RunKeepsInv(prompt: bool, s: State, es: seq<Event>)
    requires Inv(prompt, s) && Exec(prompt, s, es).Some?
    ensures Inv(prompt, Exec(prompt, s, es).value)
    decreases |es|
  {
    if es == [] {
    } else {
      StepKeepsInv(prompt, s, es[0]);
      RunKeepsInv(prompt, Next(prompt, s, es[0]).value, es[1..]);
    }
  }

  // ----- safety

  /** In every run, with arbitrary delays and crashes: at most one scanning process holds the lock,
      and every other one has been refused exactly 24 times. */
  lemma ScannersAreAccountedFor(prompt: bool, s0: State, es: seq<Event>, p: Pid, q: Pid)
    requires IsInitial(s0) && Exec(prompt, s0, es).Some?
    requires IsScanning(Exec(prompt, s0, es).value, p) && IsScanning(Exec(prompt, s0, es).value, q) && p != q
    ensures var s := Exec(prompt, s0, es).value;
            && (s.lock == Some(p) || s.procs[p].fails == 24)
            && (s.lock == Some(q) || s.procs[q].fails == 24)
            && (s.procs[p].fails == 24 || s.procs[q].fails == 24)
  {
    InitHolds(prompt, s0);
    RunKeepsInv(prompt, s0, es);
    var s := Exec(prompt, s0, es).value;
    assert OwnsExactlyWhenLocked(s, p) && OwnsExactlyWhenLocked(s, q);
  }

  /** Hence scans exclude each other as long as nobody has exhausted its tries. */
  lemma MutualExclusion(prompt: bool, s0: State, es: seq<Event>)
    requires IsInitial(s0) && Exec(prompt, s0, es).Some?
    requires forall p :: p in Exec(prompt, s0, es).value.procs ==> Exec(prompt, s0, es).value.procs[p].fails < 24
    ensures forall p, q :: IsScanning(Exec(prompt, s0, es).value, p) && IsScanning(Exec(prompt, s0, es).value, q)
              ==> p == q
  {
    var s := Exec(prompt, s0, es).value;
    forall p, q | IsScanning(s, p) && IsScanning(s, q) ensures p == q {
      if p != q {
        ScannersAreAccountedFor(prompt, s0, es, p, q);
      }
    }
  }

  /** A live process loses the lock only by its own unlock; the deferred unlock of a process that
      scans without the lock removes nothing. */
  lemma OnlyTheOwnerUnlocks(prompt: bool, s0: State, es: seq<Event>, e: Event)
    requires IsInitial(s0) && Exec(prompt, s0, es).Some?
    requires Next(prompt, Exec(prompt, s0, es).value, e).Some?
    ensures var s := Exec(prompt, s0, es).value;
            var t := Next(prompt, s, e).value;
            && (s.lock != t.lock && s.lock.Some? && s.lock.value in s.procs ==>
                  (e.EndScan? && e.p == s.lock.value) || (e.Try? && s.procs[s.lock.value].phase.Dead?))
            && (e.EndScan? && !s.procs[e.p].phase.locked ==> t.lock == s.lock)
  {
    InitHolds(prompt, s0);
    RunKeepsInv(prompt, s0, es);
    var s := Exec(prompt, s0, es).value;
    if s.lock.Some? && s.lock.value in s.procs {
      assert OwnsExactlyWhenLocked(s, s.lock.value);
    }
    if e.EndScan? {
      assert OwnsExactlyWhenLocked(s, e.p);
    }
  }

  /** The process scans under the lock. */
  ghost predicate HoldsLock(s: State, p: Pid) {
    IsScanning(s, p) && s.procs[p].phase.locked
  }

  /** In every run, a try succeeds if and only if no other process is scanning under the lock at that
      moment; whoever succeeds scans under the lock, and whoever fails has one more refused try. */
  lemma TrySucceedsExactly(prompt: bool, s0: State, es: seq<Event>, p: Pid)
    requires IsInitial(s0) && Exec(prompt, s0, es).Some?
    requires Next(prompt, Exec(prompt, s0, es).value, Try(p)).Some?
    ensures var s := Exec(prompt, s0, es).value;
            var t := Next(prompt, s, Try(p)).value;
            && (HoldsLock(t, p) <==> forall q :: q != p ==> !HoldsLock(s, q))
            && (if HoldsLock(t, p) then t.lock == Some(p) && t.procs[p].fails == s.procs[p].fails
                else t.lock == s.lock && t.procs[p].phase == Trying && t.procs[p].fails == s.procs[p].fails + 1)
  {
    InitHolds(prompt, s0);
    RunKeepsInv(prompt, s0, es);
    var s := Exec(prompt, s0, es).value;
    hide Exec, IsInitial;
    if IsFree(s, p) {
      forall q | q != p ensures !HoldsLock(s, q) {
        if q in s.procs {
          assert OwnsExactlyWhenLocked(s, q);
        }
      }
    } else {
      RefuserScans(prompt, s, p);
      assert HoldsLock(s, s.lock.value);
    }
  }

  /** In every run, a process that has found its device is done and does not own the lock; if it scanned
      under the lock, the lock is free for whoever tries next. It goes on to scan otherwise, until its
      24th scan. */
  lemma FoundDeviceFreesTheLock(prompt: bool, s0: State, es: seq<Event>, p: Pid, found: bool)
    requires IsInitial(s0) && Exec(prompt, s0, es).Some?
    requires Next(prompt, Exec(prompt, s0, es).value, EndScan(p, found)).Some?
    ensures var s := Exec(prompt, s0, es).value;
            var t := Next(prompt, s, EndScan(p, found)).value;
            && (t.procs[p].phase.Done? <==> found || s.procs[p].phase.scans == 23)
            && (t.procs[p].phase.Done? && HoldsLock(s, p) ==> t.lock == None && forall q :: IsFree(t, q))
            && (!t.procs[p].phase.Done? ==>
                  t.lock == s.lock && t.procs[p].phase == Scanning(s.procs[p].phase.locked, s.procs[p].phase.scans + 1))
  {
    InitHolds(prompt, s0);
    RunKeepsInv(prompt, s0, es);
    var s := Exec(prompt, s0, es).value;
    hide Exec, IsInitial;
    assert OwnsExactlyWhenLocked(s, p);
  }

  // ----- time

  /** While a process is in waitForAttach it has spent at most 120 seconds waiting for the lock and
      at most 120 seconds scanning. */
  lemma TimeBound(s0: State, es: seq<Event>, p: Pid)
    requires IsInitial(s0) && Exec(true, s0, es).Some?
    requires p in Exec(true, s0, es).value.procs && IsAlive(Exec(true, s0, es).value.procs[p].phase)
    ensures var s := Exec(true, s0, es).value;
            var proc := s.procs[p];
            && s.now - proc.start <= 240 * SECOND
            && (proc.phase.Trying? ==> s.now - proc.start <= 120 * SECOND)
            && (proc.phase.Scanning? ==> proc.entered - proc.start <= 120 * SECOND
                                         && s.now - proc.entered <= 120 * SECOND)
  {
    InitHolds(true, s0);
    RunKeepsInv(true, s0, es);
    var s := Exec(true, s0, es).value;
    assert OnSchedule(s, p) && OwnsExactlyWhenLocked(s, p);
  }

  /** A process that scans without the lock was held back by one that took the lock no earlier than
      five seconds before it started: with any number of contenders. */
  lemma WhoHeldItBack(s0: State, es: seq<Event>, p: Pid)
    requires IsInitial(s0) && Exec(true, s0, es).Some?
    requires IsScanning(Exec(true, s0, es).value, p) && !Exec(true, s0, es).value.procs[p].phase.locked
    ensures var s := Exec(true, s0, es).value;
            exists q :: q in s.procs && q != p && s.procs[q].acquired.Some?
                        && s.procs[p].start <= s.procs[q].acquired.value + 5 * SECOND
  {
    InitHolds(true, s0);
    RunKeepsInv(true, s0, es);
    var s := Exec(true, s0, es).value;
    assert Blames(s, p) && OwnsExactlyWhenLocked(s, p);
    var q :| HeldBackBy(s, p, q);
    assert q in s.procs;
  }

  /** With one other contender, a waiter that starts more than five seconds after the holder took the
      lock always scans under the lock. */
  lemma LateWaiterGetsLock(s0: State, es: seq<Event>, p: Pid, q: Pid)
    requires IsInitial(s0) && Exec(true, s0, es).Some?
    requires Exec(true, s0, es).value.procs.Keys == {p, q} && IsScanning(Exec(true, s0, es).value, p)
    requires Exec(true, s0, es).value.procs[q].acquired.Some?
    requires Exec(true, s0, es).value.procs[p].start > Exec(true, s0, es).value.procs[q].acquired.value + 5 * SECOND
    ensures Exec(true, s0, es).value.procs[p].phase.locked
  {
    if !Exec(true, s0, es).value.procs[p].phase.locked {
      WhoHeldItBack(s0, es, p);
    }
  }

  // ----- the bounds are sharp: runs that reach the exceptional states

  lemma ExecCons(prompt: bool, s: State, e: Event, es: seq<Event>)
    requires Next(prompt, s, e).Some?
    ensures Exec(prompt, s, [e] + es) == Exec(prompt, Next(prompt, s, e).value, es)
  {
    assert ([e] + es)[1..] == es;
  }

  lemma {:induction false} ExecAppend(prompt: bool, s: State, es: seq<Event>, fs: seq<Event>)
    requires Exec(prompt, s, es).Some?
    ensures Exec(prompt, s, es + fs) == Exec(prompt, Exec(prompt, s, es).value, fs)
    decreases |es|
  {
    if es == [] {
      assert es + fs == fs;
    } else {
      var t := Next(prompt, s, es[0]).value;
      ExecAppend(prompt, t, es[1..], fs);
      ExecCons(prompt, s, es[0], es[1..] + fs);
      assert es + fs == [es[0]] + (es[1..] + fs);
    }
  }

  function IdleProcess(): Process { Process(Idle, 0, 0, 0, 0, None) }

  /** A waiter that started at time b and was refused k times; its next try is due. */
  function Waiter(b: int, k: nat): Process {
    Process(Trying, b, k, b, b + k * RETRY_SLEEP, None)
  }

  /** A holder that took the lock at time a and has completed k scans. */
  function Holder(a: int, k: nat): Process {
    Process(Scanning(true, k), a, 0, a, a + (k + 1) * SCAN_SLEEP, Some(a))
  }

  function Two(now: int, lock: Option<Pid>, p: Pid, pp: Process, q: Pid, qq: Process): State {
    State(now, lock, map[p := pp, q := qq])
  }

  function Fresh(a: int, p: Pid, q: Pid): State {
    Two(a, None, p, IdleProcess(), q, IdleProcess())
  }

  /** q takes the lock at time a and p starts d later. */
  function Opening(a: int, d: int, p: Pid, q: Pid): seq<Event> {
    [Start(q), Try(q), Advance(a + d), Start(p)]
  }

  lemma HolderStarts(prompt: bool, a: int, p: Pid, q: Pid)
    requires p != q
    ensures Exec(prompt, Fresh(a, p, q), [Start(q), Try(q)]) == Some(Two(a, Some(q), p, IdleProcess(), q, Holder(a, 0)))
  {
    var s0, s1 := Fresh(a, p, q), Two(a, None, p, IdleProcess(), q, Waiter(a, 0));
    var s2 := Two(a, Some(q), p, IdleProcess(), q, Holder(a, 0));
    assert Next(prompt, s0, Start(q)) == Some(s1) by { assert Next(prompt, s0, Start(q)).value.procs == s1.procs; }
    assert Next(prompt, s1, Try(q)) == Some(s2) by { assert Next(prompt, s1, Try(q)).value.procs == s2.procs; }
    hide Next, Two;
    ExecTwo(prompt, s0, Start(q), Try(q));
  }

  lemma WaiterStarts(prompt: bool, a: int, d: int, p: Pid, q: Pid)
    requires p != q && 0 <= d <= 5 * SECOND
    ensures Exec(prompt, Two(a, Some(q), p, IdleProcess(), q, Holder(a, 0)), [Advance(a + d), Start(p)]) ==
            Some(Two(a + d, Some(q), p, Waiter(a + d, 0), q, Holder(a, 0)))
  {
    var s0 := Two(a, Some(q), p, IdleProcess(), q, Holder(a, 0));
    var s1 := s0.(now := a + d);
    var s2 := Two(a + d, Some(q), p, Waiter(a + d, 0), q, Holder(a, 0));
    assert Next(prompt, s0, Advance(a + d)) == Some(s1);
    assert Next(prompt, s1, Start(p)) == Some(s2) by { assert Next(prompt, s1, Start(p)).value.procs == s2.procs; }
    hide Next, Two;
    ExecTwo(prompt, s0, Advance(a + d), Start(p));
  }

  lemma OpeningRun(prompt: bool, a: int, d: int, p: Pid, q: Pid)
    requires p != q && 0 <= d <= 5 * SECOND
    ensures Exec(prompt, Fresh(a, p, q), Opening(a, d, p, q)) ==
            Some(Two(a + d, Some(q), p, Waiter(a + d, 0), q, Holder(a, 0)))
  {
    HolderStarts(prompt, a, p, q);
    WaiterStarts(prompt, a, d, p, q);
    hide Next, Exec, Fresh, Two, Waiter, Holder, IdleProcess;
    ExecAppend(prompt, Fresh(a, p, q), [Start(q), Try(q)], [Advance(a + d), Start(p)]);
    assert [Start(q), Try(q)] + [Advance(a + d), Start(p)] == Opening(a, d, p, q);
  }

  /** The state before the waiter's try number k, the holder being k scans in. */
  function Abreast(a: int, d: int, k: nat, p: Pid, q: Pid): State {
    Two(a + d + k * RETRY_SLEEP, Some(q), p, Waiter(a + d, k), q, Holder(a, k))
  }

  /** One refused try and one fruitless scan. */
  function Round(a: int, d: int, k: nat, p: Pid, q: Pid): seq<Event> {
    [Try(p), Advance(a + (k + 1) * SCAN_SLEEP), EndScan(q, false), Advance(a + d + (k + 1) * RETRY_SLEEP)]
  }

  lemma RoundRun(a: int, d: int, k: nat, p: Pid, q: Pid)
    requires p != q && 0 <= d <= 5 * SECOND && k < MAX_SCANS
    ensures Exec(true, Abreast(a, d, k, p, q), Round(a, d, k, p, q)) ==
            if k + 1 < MAX_SCANS then Some(Abreast(a, d, k + 1, p, q))
            else Some(Two(a + d + (k + 1) * RETRY_SLEEP, None, p, Waiter(a + d, k + 1), q,
                          Holder(a, k).(phase := Done)))
  {
    var s0 := Abreast(a, d, k, p, q);
    var t1, t2 := a + (k + 1) * SCAN_SLEEP, a + d + (k + 1) * RETRY_SLEEP;
    var s2 := Two(t1, Some(q), p, Waiter(a + d, k + 1), q, Holder(a, k));
    RefusedTry(a, d, k, p, q);
    FruitlessScan(a, d, k, p, q);
    hide Next, Two;
    var first, second := [Try(p), Advance(t1)], [EndScan(q, false), Advance(t2)];
    ExecAppend(true, s0, first, second);
    assert first + second == Round(a, d, k, p, q);
  }

  lemma RefusedTry(a: int, d: int, k: nat, p: Pid, q: Pid)
    requires p != q && 0 <= d <= 5 * SECOND && k < MAX_SCANS
    ensures var t1 := a + (k + 1) * SCAN_SLEEP;
            Exec(true, Abreast(a, d, k, p, q), [Try(p), Advance(t1)]) ==
            Some(Two(t1, Some(q), p, Waiter(a + d, k + 1), q, Holder(a, k)))
  {
    var s0, t1 := Abreast(a, d, k, p, q), a + (k + 1) * SCAN_SLEEP;
    var s1 := Two(s0.now, Some(q), p, Waiter(a + d, k + 1), q, Holder(a, k));
    assert Next(true, s0, Try(p)) == Some(s1) by { assert Next(true, s0, Try(p)).value.procs == s1.procs; }
    assert Next(true, s1, Advance(t1)) == Some(s1.(now := t1));
    hide Next;
    ExecTwo(true, s0, Try(p), Advance(t1));
  }

  lemma FruitlessScan(a: int, d: int, k: nat, p: Pid, q: Pid)
    requires p != q && 0 <= d <= 5 * SECOND && k < MAX_SCANS
    ensures var t1, t2 := a + (k + 1) * SCAN_SLEEP, a + d + (k + 1) * RETRY_SLEEP;
            Exec(true, Two(t1, Some(q), p, Waiter(a + d, k + 1), q, Holder(a, k)), [EndScan(q, false), Advance(t2)]) ==
            if k + 1 < MAX_SCANS then Some(Abreast(a, d, k + 1, p, q))
            else Some(Two(t2, None, p, Waiter(a + d, k + 1), q, Holder(a, k).(phase := Done)))
  {
    var t1, t2 := a + (k + 1) * SCAN_SLEEP, a + d + (k + 1) * RETRY_SLEEP;
    var s2 := Two(t1, Some(q), p, Waiter(a + d, k + 1), q, Holder(a, k));
    var s3 := if k + 1 < MAX_SCANS then Two(t1, Some(q), p, Waiter(a + d, k + 1), q, Holder(a, k + 1))
              else Two(t1, None, p, Waiter(a + d, k + 1), q, Holder(a, k).(phase := Done));
    assert Next(true, s2, EndScan(q, false)) == Some(s3) by {
      assert Next(true, s2, EndScan(q, false)).value.procs == s3.procs;
    }
    assert Next(true, s3, Advance(t2)) == Some(s3.(now := t2));
    hide Next;
    ExecTwo(true, s2, EndScan(q, false), Advance(t2));
  }

  lemma ExecTwo(prompt: bool, s: State, e: Event, f: Event)
    requires Next(prompt, s, e).Some? && Next(prompt, Next(prompt, s, e).value, f).Some?
    ensures Exec(prompt, s, [e, f]) == Next(prompt, Next(prompt, s, e).value, f)
  {
    hide Next;
    var t := Next(prompt, s, e).value;
    ExecCons(prompt, t, f, []);
    ExecCons(prompt, s, e, [f]);
    assert [f] + [] == [f] && [e] + [f] == [e, f];
  }

  function Rounds(a: int, d: int, k: nat, end: nat, p: Pid, q: Pid): seq<Event>
    requires k <= end
    decreases end - k
  {
    if k == end then [] else Round(a, d, k, p, q) + Rounds(a, d, k + 1, end, p, q)
  }

  lemma {:induction false} RoundsRun(a: int, d: int, k: nat, end: nat, p: Pid, q: Pid)
    requires p != q && 0 <= d <= 5 * SECOND && k <= end < MAX_SCANS
    ensures Exec(true, Abreast(a, d, k, p, q), Rounds(a, d, k, end, p, q)) == Some(Abreast(a, d, end, p, q))
    decreases end - k
  {
    if k == end {
    } else {
      RoundRun(a, d, k, p, q);
      hide Next, Round, Two, Waiter, Holder;
      ExecAppend(true, Abreast(a, d, k, p, q), Round(a, d, k, p, q), Rounds(a, d, k + 1, end, p, q));
      RoundsRun(a, d, k + 1, end, p, q);
    }
  }

  /** The run up to the last try of the waiter. */
  function Approach(a: int, d: int, p: Pid, q: Pid): seq<Event> {
    Opening(a, d, p, q) + Rounds(a, d, 0, MAX_SCANS - 1, p, q)
  }

  lemma ApproachRun(a: int, d: int, p: Pid, q: Pid)
    requires p != q && 0 <= d <= 5 * SECOND
    ensures Exec(true, Fresh(a, p, q), Approach(a, d, p, q)) == Some(Abreast(a, d, MAX_SCANS - 1, p, q))
  {
    OpeningRun(true, a, d, p, q);
    RoundsRun(a, d, 0, MAX_SCANS - 1, p, q);
    assert Abreast(a, d, 0, p, q) == Two(a + d, Some(q), p, Waiter(a + d, 0), q, Holder(a, 0));
    hide Next, Exec, Opening, Rounds, Two, Waiter, Holder, Abreast;
    ExecAppend(true, Fresh(a, p, q), Opening(a, d, p, q), Rounds(a, d, 0, MAX_SCANS - 1, p, q));
  }

  lemma ExhaustedEnters(prompt: bool, s0: State, es: seq<Event>, p: Pid)
    requires Exec(prompt, s0, es).Some?
    requires var s := Exec(prompt, s0, es).value;
             p in s.procs && s.procs[p].phase.Trying? && s.procs[p].fails == MAX_TRIES && s.now == s.procs[p].wake
    ensures var s := Exec(prompt, s0, es).value;
            Exec(prompt, s0, es + [EnterWithoutLock(p)]) ==
            Some(Put(s, p, s.procs[p].(phase := Scanning(false, 0), entered := s.now, wake := s.now + SCAN_SLEEP)))
  {
    var s := Exec(prompt, s0, es).value;
    ExecAppend(prompt, s0, es, [EnterWithoutLock(p)]);
    ExecCons(prompt, s, EnterWithoutLock(p), []);
    assert [EnterWithoutLock(p)] + [] == [EnterWithoutLock(p)];
  }

  lemma EarlyRun(a: int, d: int, p: Pid, q: Pid)
    requires p != q && 0 <= d <= 5 * SECOND
    ensures Exec(true, Fresh(a, p, q), Approach(a, d, p, q) + Round(a, d, MAX_SCANS - 1, p, q)) ==
            Some(Two(a + d + MAX_TRIES * RETRY_SLEEP, None, p, Waiter(a + d, MAX_TRIES), q,
                     Holder(a, MAX_SCANS - 1).(phase := Done)))
  {
    ApproachRun(a, d, p, q);
    RoundRun(a, d, MAX_SCANS - 1, p, q);
    hide Next, Exec, Approach, Round, Two, Waiter, Holder, Abreast;
    ExecAppend(true, Fresh(a, p, q), Approach(a, d, p, q), Round(a, d, MAX_SCANS - 1, p, q));
  }

  /** The five seconds are sharp: for every smaller head start of the holder there is a run in which
      the waiter ends up scanning without the lock. */
  lemma EarlyWaiterMayMiss(a: int, d: int, p: Pid, q: Pid)
    requires p != q && 0 <= d <= 5 * SECOND
    ensures IsInitial(Fresh(a, p, q))
    ensures exists es :: var r := Exec(true, Fresh(a, p, q), es);
              r.Some? && IsScanning(r.value, p) && !r.value.procs[p].phase.locked
              && r.value.procs[p].start == a + d
              && q in r.value.procs && r.value.procs[q].acquired == Some(a)
  {
    hide Next, Exec, Approach, Round;
    var s0, es := Fresh(a, p, q), Approach(a, d, p, q) + Round(a, d, MAX_SCANS - 1, p, q);
    EarlyRun(a, d, p, q);
    ExhaustedEnters(true, s0, es, p);
    var r := Exec(true, s0, es + [EnterWithoutLock(p)]);
    assert r.Some? && IsScanning(r.value, p);
  }

  // ----- exclusion does fail

  /** What can happen promptly can happen. */
  lemma {:induction false} PromptRunIsARun(s: State, es: seq<Event>)
    requires Exec(true, s, es).Some?
    ensures Exec(false, s, es) == Exec(true, s, es)
    decreases |es|
  {
    if es == [] {
    } else {
      assert Next(false, s, es[0]) == Next(true, s, es[0]);
      PromptRunIsARun(Next(true, s, es[0]).value, es[1..]);
    }
  }

  lemma OverlapRun(a: int, p: Pid, q: Pid) returns (es: seq<Event>)
    requires p != q
    ensures var r := Exec(true, Fresh(a, p, q), es);
            r.Some? && IsScanning(r.value, p) && IsScanning(r.value, q)
  {
    hide Next, Exec, Approach;
    var s0, last := Fresh(a, p, q), [Try(p), Advance(a + MAX_SCANS * SCAN_SLEEP)];
    ApproachRun(a, 0, p, q);
    RefusedTry(a, 0, MAX_SCANS - 1, p, q);
    ExecAppend(true, s0, Approach(a, 0, p, q), last);
    ExhaustedEnters(true, s0, Approach(a, 0, p, q) + last, p);
    es := Approach(a, 0, p, q) + last + [EnterWithoutLock(p)];
  }

  /** The condition on the tries cannot be dropped, even when commands cost no time: of two processes
      that start at once the second can begin to scan before the first has ended its last scan. */
  lemma OverlapIsPossible(prompt: bool, a: int, p: Pid, q: Pid)
    requires p != q
    ensures IsInitial(Fresh(a, p, q))
    ensures exists es :: var r := Exec(prompt, Fresh(a, p, q), es);
              r.Some? && IsScanning(r.value, p) && IsScanning(r.value, q)
  {
    hide Next, Exec;
    var es := OverlapRun(a, p, q);
    if !prompt {
      PromptRunIsARun(Fresh(a, p, q), es);
    }
    assert Exec(prompt, Fresh(a, p, q), es).Some?;
  }

  /** The same state with one more process, which has not started. */
  function Beside(s: State, r: Pid): State {
    s.(procs := s.procs[r := IdleProcess()])
  }

  /** What happens does not depend on a process that has not started. */
  lemma NextBeside(s: State, e: Event, r: Pid)
    requires r !in s.procs && s.lock != Some(r) && Next(true, s, e).Some?
    ensures Next(true, Beside(s, r), e) == Some(Beside(Next(true, s, e).value, r))
    ensures r !in Next(true, s, e).value.procs && Next(true, s, e).value.lock != Some(r)
  {
    var t, u := Next(true, s, e).value, Next(true, Beside(s, r), e);
    assert u.Some?;
    assert u.value.procs == Beside(t, r).procs;
  }

  lemma {:induction false} ExecBeside(s: State, es: seq<Event>, r: Pid)
    requires r !in s.procs && s.lock != Some(r) && Exec(true, s, es).Some?
    ensures Exec(true, Beside(s, r), es) == Some(Beside(Exec(true, s, es).value, r))
    decreases |es|
  {
    hide Next, Beside;
    if es == [] {
    } else {
      NextBeside(s, es[0], r);
      ExecBeside(Next(true, s, es[0]).value, es[1..], r);
    }
  }

  /** A process that began to scan at time t and has completed k scans. */
  function Scanner(start: int, fails: nat, t: int, k: nat, acquired: Option<int>): Process {
    Process(Scanning(acquired.Some?, k), start, fails, t, t + (k + 1) * SCAN_SLEEP, acquired)
  }

  /** p, which waited in vain, and r, which took the lock when q had released it, began to scan at time t;
      scan number k + 1 of both has just run its time. */
  function Both(t: int, k: nat, p: Pid, q: Pid, qq: Process, r: Pid): State {
    State(t + (k + 1) * SCAN_SLEEP, Some(r),
          map[p := Scanner(t - MAX_TRIES * RETRY_SLEEP, MAX_TRIES, t, k, None), q := qq,
              r := Scanner(t, 0, t, k, Some(t))])
  }

  lemma BothGoOn(t: int, k: nat, p: Pid, q: Pid, qq: Process, r: Pid)
    requires p != q && p != r && q != r && qq.phase.Done? && k + 1 < MAX_SCANS
    ensures Exec(true, Both(t, k, p, q, qq, r),
                 [EndScan(p, false), EndScan(r, false)] + [Advance(t + (k + 2) * SCAN_SLEEP)]) ==
            Some(Both(t, k + 1, p, q, qq, r))
  {
    var s0, s3 := Both(t, k, p, q, qq, r), Both(t, k + 1, p, q, qq, r);
    var s1 := Put(s0, p, s3.procs[p]);
    assert Next(true, s0, EndScan(p, false)) == Some(s1);
    var s2 := Put(s1, r, s3.procs[r]);
    assert Next(true, s1, EndScan(r, false)) == Some(s2);
    assert s2.procs == s3.procs;
    var t3 := t + (k + 2) * SCAN_SLEEP;
    assert Next(true, s2, Advance(t3)) == Some(s3);
    hide Next, Both;
    ExecTwo(true, s0, EndScan(p, false), EndScan(r, false));
    ExecAppend(true, s0, [EndScan(p, false), EndScan(r, false)], [Advance(t3)]);
    ExecCons(true, s2, Advance(t3), []);
    assert [Advance(t3)] + [] == [Advance(t3)];
  }

  lemma {:induction false} BothScanOn(s0: State, es: seq<Event>, t: int, k: nat, p: Pid, q: Pid, qq: Process, r: Pid)
      returns (all: seq<Event>)
    requires p != q && p != r && q != r && qq.phase.Done? && k < MAX_SCANS
    requires Exec(true, s0, es) == Some(Both(t, k, p, q, qq, r))
    ensures Exec(true, s0, all) == Some(Both(t, MAX_SCANS - 1, p, q, qq, r))
    decreases MAX_SCANS - k
  {
    if k == MAX_SCANS - 1 {
      all := es;
    } else {
      BothGoOn(t, k, p, q, qq, r);
      hide Next, Exec, Both;
      var more := [EndScan(p, false), EndScan(r, false)] + [Advance(t + (k + 2) * SCAN_SLEEP)];
      ExecAppend(true, s0, es, more);
      all := BothScanOn(s0, es + more, t, k + 1, p, q, qq, r);
    }
  }

  /** p enters without the lock at the moment q has released it, and r, which starts then, takes it. */
  lemma BothEnter(t: int, p: Pid, q: Pid, qq: Process, r: Pid)
    requires p != q && p != r && q != r && qq.phase.Done?
    ensures var s := Beside(Two(t, None, p, Waiter(t - MAX_TRIES * RETRY_SLEEP, MAX_TRIES), q, qq), r);
            Exec(true, s, [EnterWithoutLock(p), Start(r)] + [Try(r), Advance(t + SCAN_SLEEP)]) ==
            Some(Both(t, 0, p, q, qq, r))
  {
    var s0 := Beside(Two(t, None, p, Waiter(t - MAX_TRIES * RETRY_SLEEP, MAX_TRIES), q, qq), r);
    var s4 := Both(t, 0, p, q, qq, r);
    var s1 := Put(s0, p, s4.procs[p]);
    assert Next(true, s0, EnterWithoutLock(p)) == Some(s1);
    var s2 := Put(s1, r, Waiter(t, 0));
    assert Next(true, s1, Start(r)) == Some(s2);
    var s3 := Put(s2, r, s4.procs[r]).(lock := Some(r));
    assert Next(true, s2, Try(r)) == Some(s3);
    assert s3.procs == s4.procs;
    assert Next(true, s3, Advance(t + SCAN_SLEEP)) == Some(s4);
    hide Next, Both, Beside, Two;
    ExecTwo(true, s0, EnterWithoutLock(p), Start(r));
    ExecTwo(true, s2, Try(r), Advance(t + SCAN_SLEEP));
    ExecAppend(true, s0, [EnterWithoutLock(p), Start(r)], [Try(r), Advance(t + SCAN_SLEEP)]);
  }

  /** With three contenders two processes can scan side by side from the first moment to the last: 120
      seconds, which no scan exceeds. */
  lemma LongestOverlap(a: int, p: Pid, q: Pid, r: Pid)
    requires p != q && p != r && q != r
    ensures IsInitial(Beside(Fresh(a, p, q), r))
    ensures exists es :: var x := Exec(true, Beside(Fresh(a, p, q), r), es);
              && x.Some? && IsScanning(x.value, p) && IsScanning(x.value, r)
              && x.value.now - x.value.procs[p].entered == 120 * SECOND
              && x.value.now - x.value.procs[r].entered == 120 * SECOND
  {
    var s0 := Beside(Fresh(a, p, q), r);
    var first := Approach(a, 0, p, q) + Round(a, 0, MAX_SCANS - 1, p, q);
    var t, qq := a + MAX_TRIES * RETRY_SLEEP, Holder(a, MAX_SCANS - 1).(phase := Done);
    var second := [EnterWithoutLock(p), Start(r)] + [Try(r), Advance(t + SCAN_SLEEP)];
    assert r !in Fresh(a, p, q).procs && Fresh(a, p, q).lock == None;
    assert IsInitial(s0);
    EarlyRun(a, 0, p, q);
    BothEnter(t, p, q, qq, r);
    hide Next, Exec, Approach, Round, Both, Fresh, Two, Beside;
    ExecBeside(Fresh(a, p, q), first, r);
    ExecAppend(true, s0, first, second);
    var all := BothScanOn(s0, first + second, t, 0, p, q, qq, r);
    BothAreScanning(t, p, q, qq, r);
    var x := Exec(true, s0, all);
    assert x.Some? && IsScanning(x.value, p);
  }

  lemma BothAreScanning(t: int, p: Pid, q: Pid, qq: Process, r: Pid)
    requires p != q && p != r && q != r
    ensures var s := Both(t, MAX_SCANS - 1, p, q, qq, r);
            && IsScanning(s, p) && IsScanning(s, r)
            && s.now - s.procs[p].entered == 120 * SECOND && s.now - s.procs[r].entered == 120 * SECOND
  {
  }
}
