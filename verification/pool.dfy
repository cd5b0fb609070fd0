/** The connection pool: the state behind the lock, and the sections of code that hold it. */
module Pool {

  datatype Option<+T> = None | Some(value: T)

  /** Connections are told apart by number. */
  type Conn = nat

  /** What `try_acquire` comes to while it holds the lock. */
  datatype Attempt = Reuse(conn: Conn) | Create | WaitRequired

  /** `VecDeque::retain`, for a set of expired connections. */
  function Retain(idle: seq<Conn>, expired: set<Conn>): (r: seq<Conn>)
    ensures |r| <= |idle|
  {
    if idle == [] then []
    else if idle[0] in expired then Retain(idle[1..], expired)
    else [idle[0]] + Retain(idle[1..], expired)
  }

  function SaturatingSub(n: nat): nat { if n > 0 then n - 1 else 0 }

  /** `PoolState` as a value, and what each section that holds the lock makes of it. */
  datatype Shared = Shared(idle: seq<Conn>, active: nat, waiting: nat) {

    function TryAcquire(capacity: nat, expired: set<Conn>): (r: (Attempt, Shared))
      ensures active + |idle| <= capacity ==> r.1.active + |r.1.idle| <= capacity
      ensures if r.0.WaitRequired? then r.1.active == active >= capacity && r.1.waiting == waiting + 1
              else r.1.active == active + 1 && r.1.waiting == waiting
    {
      var left := Retain(idle, expired);
      if left != [] then (Reuse(left[0]), Shared(left[1..], active + 1, waiting))
      else if active < capacity then (Create, Shared(left, active + 1, waiting))
      else (WaitRequired, Shared(left, active, waiting + 1))
    }

    function CreateFailed(): Shared { this.(active := SaturatingSub(active)) }

    function StopWaiting(): Shared { this.(waiting := SaturatingSub(waiting)) }

    /** The section of the task that `drop` spawns; it then notifies if there are waiters. */
    function Return(conn: Option<Conn>): Shared {
      if active == 0 then this
      else if conn.Some? then this.(active := active - 1, idle := idle + [conn.value])
      else this.(active := active - 1)
    }
  }

  lemma {:induction false} RetainAppend(a: seq<Conn>, b: seq<Conn>, expired: set<Conn>)
    ensures Retain(a + b, expired) == Retain(a, expired) + Retain(b, expired)
  {
    if a == [] {
      assert a + b == b;
    } else {
      assert (a + b)[1..] == a[1..] + b;
      RetainAppend(a[1..], b, expired);
    }
  }

  ghost predicate AllExpired(idle: seq<Conn>, expired: set<Conn>) {
    forall i | 0 <= i < |idle| :: idle[i] in expired
  }

  lemma {:induction false} RetainAll(idle: seq<Conn>, expired: set<Conn>)
    ensures Retain(idle, expired) == [] <==> AllExpired(idle, expired)
    ensures expired == {} ==> Retain(idle, expired) == idle
  {
    if idle != [] { RetainAll(idle[1..], expired); }
  }

  /** Connection `k` has been idle for the longest time of those that are not expired. */
  ghost predicate IsOldest(idle: seq<Conn>, expired: set<Conn>, k: nat) {
    k < |idle| && idle[k] !in expired && AllExpired(idle[..k], expired)
  }

  lemma {:induction false} OldestOf(idle: seq<Conn>, expired: set<Conn>) returns (k: nat)
    requires Retain(idle, expired) != []
    ensures IsOldest(idle, expired, k) && Retain(idle, expired) == [idle[k]] + Retain(idle[k + 1..], expired)
  {
    if idle[0] !in expired {
      k := 0;
    } else {
      var j := OldestOf(idle[1..], expired);
      k := j + 1;
      assert idle[1..][j + 1..] == idle[k + 1..];
      assert forall i | 0 < i < k :: idle[i] == idle[1..][i - 1];
    }
  }

  /** What a task is told: the oldest idle connection that has not expired; only if there is none, a
      new one; and only if there is no place for that, to wait. */
  ghost predicate Serves(s: Shared, capacity: nat, expired: set<Conn>, r: Attempt) {
    match r
    case Reuse(c) => exists k: nat :: IsOldest(s.idle, expired, k) && s.idle[k] == c
    case Create => AllExpired(s.idle, expired) && s.active < capacity
    case WaitRequired => AllExpired(s.idle, expired) && s.active >= capacity
  }

  /** And what it leaves idle: the connections behind that one, in their order, without the expired. */
  lemma IdleFirst(s: Shared, capacity: nat, expired: set<Conn>)
    ensures var (r, t) := s.TryAcquire(capacity, expired);
      && Serves(s, capacity, expired, r)
      && (r.Reuse? ==>
            exists k: nat :: IsOldest(s.idle, expired, k) && s.idle[k] == r.conn &&
              t.idle == Retain(s.idle[k + 1..], expired))
      && (!r.Reuse? ==> t.idle == [])
  {
    RetainAll(s.idle, expired);
    if Retain(s.idle, expired) != [] { var k := OldestOf(s.idle, expired); }
  }

  /** What `k` tasks in a row are told when nothing expires. */
  function InARow(s: Shared, capacity: nat, k: nat): seq<Attempt>
    decreases k
  {
    if k == 0 then [] else
      var (r, t) := s.TryAcquire(capacity, {});
      [r] + InARow(t, capacity, k - 1)
  }

  function Reuses(conns: seq<Conn>): (r: seq<Attempt>)
    ensures |r| == |conns| && forall i | 0 <= i < |conns| :: r[i] == Reuse(conns[i])
  {
    seq(|conns|, i requires 0 <= i < |conns| => Reuse(conns[i]))
  }

  lemma {:induction false} ReusedInOrder(s: Shared, capacity: nat)
    ensures InARow(s, capacity, |s.idle|) == Reuses(s.idle)
    decreases |s.idle|
  {
    hide Retain, Shared.TryAcquire;
    if s.idle != [] {
      FirstReused(s, capacity);
      ReusedInOrder(s.TryAcquire(capacity, {}).1, capacity);
      assert Reuses(s.idle) == [Reuse(s.idle[0])] + Reuses(s.idle[1..]);
    }
  }

  lemma FirstReused(s: Shared, capacity: nat)
    requires s.idle != []
    ensures s.TryAcquire(capacity, {}) == (Reuse(s.idle[0]), Shared(s.idle[1..], s.active + 1, s.waiting))
  {
    RetainAll(s.idle, {});
    hide Retain;
  }

  /** The queue: a connection that comes back is reused after those that were idle before it. */
  lemma FirstInFirstOut(s: Shared, capacity: nat, c: Conn)
    requires s.active > 0
    ensures InARow(s.Return(Some(c)), capacity, |s.idle| + 1) == Reuses(s.idle + [c])
  {
    ReusedInOrder(s.Return(Some(c)), capacity);
  }

  /** The state as the code keeps it. */
  class PoolState {
    var idle: seq<Conn>
    var activeCount: nat
    const capacity: nat
    var waitingCount: nat

    ghost function Value(): Shared
      reads this
    {
      Shared(idle, activeCount, waitingCount)
    }

    predicate Invariant()
      reads this
    {
      activeCount + |idle| <= capacity && capacity > 0
    }

    constructor (capacity: nat)
      requires capacity > 0
      ensures Invariant() && this.capacity == capacity && Value() == Shared([], 0, 0)
    {
      idle, activeCount, waitingCount := [], 0, 0;
      this.capacity := capacity;
    }

    method TryAcquire(expired: set<Conn>) returns (r: Attempt)
      requires Invariant()
      modifies this
      ensures Invariant() && (r, Value()) == old(Value()).TryAcquire(capacity, expired)
      ensures Serves(old(Value()), capacity, expired, r)
    {
      IdleFirst(Value(), capacity, expired);
      idle := Retain(idle, expired);
      if idle != [] {
        r := Reuse(idle[0]);
        idle := idle[1..];
        activeCount := activeCount + 1;
      } else if activeCount < capacity {
        activeCount := activeCount + 1;
        r := Create;
      } else {
        waitingCount := waitingCount + 1;
        r := WaitRequired;
      }
    }

    method CreateFailed()
      requires Invariant()
      modifies this
      ensures Invariant() && Value() == old(Value()).CreateFailed()
    {
      activeCount := SaturatingSub(activeCount);
    }

    method StopWaiting()
      requires Invariant()
      modifies this
      ensures Invariant() && Value() == old(Value()).StopWaiting()
    {
      waitingCount := SaturatingSub(waitingCount);
    }

    method Return(conn: Option<Conn>) returns (notify: bool)
      requires Invariant()
      modifies this
      ensures Invariant() && Value() == old(Value()).Return(conn) && notify == (waitingCount > 0)
    {
      if conn.Some? {
        if activeCount > 0 {
          activeCount := activeCount - 1;
          idle := idle + [conn.value];
        }
      } else if activeCount > 0 {
        activeCount := activeCount - 1;
      }
      notify := waitingCount > 0;
    }
  }
}

/** Every interleaving of the tasks that use a pool. */
module PoolRuns {
  import opened Pool

  /** Where a task is. The part of a drop that runs in a task of its own belongs to the task that
      held the connection. */
  datatype Task =
    | Acquiring                        // before `try_acquire`
    | Creating                         // the lock is released, the connection being made
    | Holding(conn: Conn)
    | Dropping(held: Option<Conn>)     // the guard is gone, the spawned task has not run
    | Notifying                        // it has run, and will notify
    | Waiting                          // told to wait, before `notified()`
    | Parked                           // inside `notified()`
    | Woken                            // notified, `waiting_count` not yet decremented
    | Retrying                         // before the next `try_acquire`
    | TimedOut                         // the time-out struck, `waiting_count` not yet decremented
    | Done

  datatype Action =
    | Arrive
    | TryAcquire(task: nat, expired: set<Conn>)
    | CreateOk(task: nat)
    | CreateFail(task: nat)
    | DropGuard(task: nat)
    | MarkBroken(task: nat)
    | RunDrop(task: nat)
    | Notify(task: nat, wake: Option<nat>)
    | Listen(task: nat)
    | Resume(task: nat)
    | TimeOut(task: nat)
    | GiveUp(task: nat)

  /** `created` is the number of connections made so far, and the number of the next one. */
  datatype System = System(capacity: nat, shared: Shared, permit: bool, tasks: seq<Task>, created: nat) {
    predicate Has(i: nat, t: Task) { i < |tasks| && tasks[i] == t }

    function Put(i: nat, t: Task): System
      requires i < |tasks|
    {
      this.(tasks := tasks[i := t])
    }
  }

  function Init(capacity: nat): System { System(capacity, Shared([], 0, 0), false, [], 0) }

  predicate Enabled(s: System, a: Action) {
    match a
    case Arrive => true
    case TryAcquire(i, _) => s.Has(i, Acquiring) || s.Has(i, Retrying)
    case CreateOk(i) => s.Has(i, Creating)
    case CreateFail(i) => s.Has(i, Creating)
    case DropGuard(i) => i < |s.tasks| && s.tasks[i].Holding?
    case MarkBroken(i) => i < |s.tasks| && s.tasks[i].Holding?
    case RunDrop(i) => i < |s.tasks| && s.tasks[i].Dropping?
    case Notify(i, wake) =>
      && s.Has(i, Notifying)
      && if wake.Some? then s.Has(wake.value, Parked) else forall j | 0 <= j < |s.tasks| :: s.tasks[j] != Parked
    case Listen(i) => s.Has(i, Waiting)
    case Resume(i) => s.Has(i, Woken)
    case TimeOut(i) => s.Has(i, Parked)
    case GiveUp(i) => s.Has(i, TimedOut)
  }

  /** How a task goes on after `try_acquire`. */
  function Outcome(r: Attempt): Task {
    match r
    case Reuse(c) => Holding(c)
    case Create => Creating
    case WaitRequired => Waiting
  }

  function Step(s: System, a: Action): System
    requires Enabled(s, a)
  {
    match a
    case Arrive => s.(tasks := s.tasks + [Acquiring])
    case TryAcquire(i, expired) =>
      var (r, shared) := s.shared.TryAcquire(s.capacity, expired);
      s.Put(i, Outcome(r)).(shared := shared)
    case CreateOk(i) => s.Put(i, Holding(s.created)).(created := s.created + 1)
    case CreateFail(i) => s.Put(i, Done).(shared := s.shared.CreateFailed())
    case DropGuard(i) => s.Put(i, Dropping(Some(s.tasks[i].conn)))
    case MarkBroken(i) => s.Put(i, Dropping(None))
    case RunDrop(i) =>
      s.Put(i, if s.shared.waiting > 0 then Notifying else Done).(shared := s.shared.Return(s.tasks[i].held))
    case Notify(i, wake) =>
      if wake.Some? then s.Put(i, Done).Put(wake.value, Woken) else s.Put(i, Done).(permit := true)
    case Listen(i) => if s.permit then s.Put(i, Woken).(permit := false) else s.Put(i, Parked)
    case Resume(i) => s.Put(i, Retrying).(shared := s.shared.StopWaiting())
    case TimeOut(i) => s.Put(i, TimedOut)
    case GiveUp(i) => s.Put(i, Done).(shared := s.shared.StopWaiting())
  }

  predicate Possible(s: System, run: seq<Action>)
    decreases |run|
  {
    run == [] || (Enabled(s, run[0]) && Possible(Step(s, run[0]), run[1..]))
  }

  function After(s: System, run: seq<Action>): System
    requires Possible(s, run)
    decreases |run|
  {
    if run == [] then s else After(Step(s, run[0]), run[1..])
  }

  // ---------- accounting ----------

  datatype Role = Active | Waiter | Helper

  /** The tasks that `active_count` and `waiting_count` stand for, and those that will see to it
      that a waiter is notified, or try to acquire a connection because they were. */
  predicate Plays(t: Task, r: Role) {
    match r
    case Active => t.Creating? || t.Holding? || t.Dropping?
    case Waiter => t.Waiting? || t.Parked? || t.Woken? || t.TimedOut?
    case Helper => t.Woken? || t.Retrying? || t.Notifying?
  }

  function Count(tasks: seq<Task>, r: Role): nat {
    if tasks == [] then 0 else (if Plays(tasks[0], r) then 1 else 0) + Count(tasks[1..], r)
  }

  lemma {:induction false} CountPut(tasks: seq<Task>, i: nat, t: Task, r: Role)
    requires i < |tasks|
    ensures Count(tasks[i := t], r) + (if Plays(tasks[i], r) then 1 else 0) ==
            Count(tasks, r) + (if Plays(t, r) then 1 else 0)
  {
    if i > 0 {
      CountPut(tasks[1..], i - 1, t, r);
      assert tasks[i := t][1..] == tasks[1..][i - 1 := t];
    }
  }

  lemma {:induction false} CountArrive(tasks: seq<Task>, r: Role)
    ensures Count(tasks + [Acquiring], r) == Count(tasks, r)
  {
    if tasks != [] {
      CountArrive(tasks[1..], r);
      assert (tasks + [Acquiring])[1..] == tasks[1..] + [Acquiring];
    }
  }

  lemma {:induction false} CountPositive(tasks: seq<Task>, i: nat, r: Role)
    requires i < |tasks| && Plays(tasks[i], r)
    ensures Count(tasks, r) > 0
  {
    if i > 0 { CountPositive(tasks[1..], i - 1, r); }
  }

  ghost predicate Accounted(s: System) {
    && s.capacity > 0 && s.shared.active + |s.shared.idle| <= s.capacity
    && s.shared.active == Count(s.tasks, Active) && s.shared.waiting == Count(s.tasks, Waiter)
  }

  function Adds(t: Task, r: Role): nat { if Plays(t, r) then 1 else 0 }

  /** One task moves on: how the counts change, and that there is something to subtract. */
  lemma PutCounts(s: System, i: nat, t: Task)
    requires i < |s.tasks|
    ensures Count(s.tasks[i := t], Active) == Count(s.tasks, Active) - Adds(s.tasks[i], Active) + Adds(t, Active)
    ensures Count(s.tasks[i := t], Waiter) == Count(s.tasks, Waiter) - Adds(s.tasks[i], Waiter) + Adds(t, Waiter)
    ensures Adds(s.tasks[i], Active) <= Count(s.tasks, Active) && Adds(s.tasks[i], Waiter) <= Count(s.tasks, Waiter)
  {
    hide Count;
    CountPut(s.tasks, i, t, Active);
    CountPut(s.tasks, i, t, Waiter);
    if Plays(s.tasks[i], Active) { CountPositive(s.tasks, i, Active); }
    if Plays(s.tasks[i], Waiter) { CountPositive(s.tasks, i, Waiter); }
  }

  lemma TryAccounted(s: System, i: nat, expired: set<Conn>)
    requires Accounted(s) && Enabled(s, TryAcquire(i, expired))
    ensures Accounted(Step(s, TryAcquire(i, expired)))
  {
    hide Count, Shared.TryAcquire;
    PutCounts(s, i, Outcome(s.shared.TryAcquire(s.capacity, expired).0));
  }

  lemma NotifyAccounted(s: System, i: nat, wake: Option<nat>)
    requires Accounted(s) && Enabled(s, Notify(i, wake))
    ensures Accounted(Step(s, Notify(i, wake)))
  {
    hide Count;
    PutCounts(s, i, Done);
    if wake.Some? { PutCounts(s.Put(i, Done), wake.value, Woken); }
  }

  lemma StepAccounted(s: System, a: Action)
    requires Accounted(s) && Enabled(s, a)
    ensures Accounted(Step(s, a))
  {
    hide Count, Shared.TryAcquire;
    match a
    case Arrive => CountArrive(s.tasks, Active); CountArrive(s.tasks, Waiter);
    case TryAcquire(i, expired) => TryAccounted(s, i, expired);
    case CreateOk(i) => PutCounts(s, i, Holding(s.created));
    case CreateFail(i) => PutCounts(s, i, Done);
    case DropGuard(i) => PutCounts(s, i, Dropping(Some(s.tasks[i].conn)));
    case MarkBroken(i) => PutCounts(s, i, Dropping(None));
    case RunDrop(i) => PutCounts(s, i, if s.shared.waiting > 0 then Notifying else Done);
    case Notify(i, wake) => NotifyAccounted(s, i, wake);
    case _ => WaitAccounted(s, a);
  }

  /** The steps of a task that waits. */
  predicate IsWait(a: Action) { a.Listen? || a.Resume? || a.TimeOut? || a.GiveUp? }

  lemma WaitAccounted(s: System, a: Action)
    requires Accounted(s) && IsWait(a) && Enabled(s, a)
    ensures Accounted(Step(s, a))
  {
    hide Count;
    PutCounts(s, a.task, Step(s, a).tasks[a.task]);
  }

  /** There is always something to subtract: `saturating_sub` never saturates, and the test of
      `active_count` in `drop` never fails. */
  lemma NothingSaturates(s: System, a: Action)
    requires Accounted(s) && Enabled(s, a)
    ensures a.CreateFail? || a.RunDrop? ==> s.shared.active > 0
    ensures a.Resume? || a.GiveUp? ==> s.shared.waiting > 0
  {
    hide Count;
    if a.CreateFail? || a.RunDrop? { CountPositive(s.tasks, a.task, Active); }
    if a.Resume? || a.GiveUp? { CountPositive(s.tasks, a.task, Waiter); }
  }

  // ---------- ownership ----------

  /** How often a connection is among the idle ones. */
  function Times(idle: seq<Conn>, c: Conn): nat {
    if idle == [] then 0 else (if idle[0] == c then 1 else 0) + Times(idle[1..], c)
  }

  /** Does the task have the connection, or is it about to give it back? */
  predicate Has(t: Task, c: Conn) { t == Holding(c) || t == Dropping(Some(c)) }

  /** How many tasks have it. */
  function Held(tasks: seq<Task>, c: Conn): nat {
    if tasks == [] then 0 else (if Has(tasks[0], c) then 1 else 0) + Held(tasks[1..], c)
  }

  function Owned(s: System, c: Conn): nat { Times(s.shared.idle, c) + Held(s.tasks, c) }

  lemma {:induction false} HeldPut(tasks: seq<Task>, i: nat, t: Task, c: Conn)
    requires i < |tasks|
    ensures Held(tasks[i := t], c) + (if Has(tasks[i], c) then 1 else 0) ==
            Held(tasks, c) + (if Has(t, c) then 1 else 0)
  {
    if i > 0 {
      HeldPut(tasks[1..], i - 1, t, c);
      assert tasks[i := t][1..] == tasks[1..][i - 1 := t];
    }
  }

  lemma {:induction false} HeldArrive(tasks: seq<Task>, c: Conn)
    ensures Held(tasks + [Acquiring], c) == Held(tasks, c)
  {
    if tasks != [] {
      HeldArrive(tasks[1..], c);
      assert (tasks + [Acquiring])[1..] == tasks[1..] + [Acquiring];
    }
  }

  lemma {:induction false} HeldPositive(tasks: seq<Task>, i: nat, c: Conn)
    requires i < |tasks| && Has(tasks[i], c)
    ensures Held(tasks, c) > 0
  {
    if i > 0 { HeldPositive(tasks[1..], i - 1, c); }
  }

  lemma {:induction false} TimesAppend(idle: seq<Conn>, d: Conn, c: Conn)
    ensures Times(idle + [d], c) == Times(idle, c) + if d == c then 1 else 0
  {
    if idle != [] {
      TimesAppend(idle[1..], d, c);
      assert (idle + [d])[1..] == idle[1..] + [d];
    }
  }

  lemma {:induction false} TimesRetain(idle: seq<Conn>, expired: set<Conn>, c: Conn)
    ensures Times(Retain(idle, expired), c) == if c in expired then 0 else Times(idle, c)
  {
    if idle != [] {
      TimesRetain(idle[1..], expired, c);
      assert idle[0] !in expired ==> Retain(idle, expired)[1..] == Retain(idle[1..], expired);
    }
  }

  lemma {:induction false} TimesPositive(idle: seq<Conn>, c: Conn)
    ensures c in idle <==> Times(idle, c) > 0
  {
    if idle != [] { TimesPositive(idle[1..], c); }
  }

  /** How often a step brings the connection in, and takes it away. */
  function Gained(s: System, a: Action, c: Conn): nat {
    if a.CreateOk? && c == s.created then 1 else 0
  }

  function Lost(s: System, a: Action, c: Conn): nat
    requires Enabled(s, a)
  {
    match a
    case MarkBroken(i) => if s.tasks[i].conn == c then 1 else 0
    case TryAcquire(_, expired) => if c in expired then Times(s.shared.idle, c) else 0
    case _ => 0
  }

  /** Connections are conserved: they come only from successful attempts, and go only when they
      expire or are marked as broken. In particular a drop never discards one. */
  lemma Conservation(s: System, a: Action, c: Conn)
    requires Accounted(s) && Enabled(s, a)
    ensures Owned(Step(s, a), c) + Lost(s, a, c) == Owned(s, c) + Gained(s, a, c)
  {
    hide Held, Times, Retain, Count;
    match a
    case Arrive => HeldArrive(s.tasks, c);
    case TryAcquire(i, expired) => TryOwned(s, i, expired, c);
    case CreateOk(i) => HeldPut(s.tasks, i, Holding(s.created), c);
    case CreateFail(i) => HeldPut(s.tasks, i, Done, c);
    case DropGuard(i) => HeldPut(s.tasks, i, Dropping(Some(s.tasks[i].conn)), c);
    case MarkBroken(i) => HeldPut(s.tasks, i, Dropping(None), c);
    case RunDrop(i) =>
      CountPositive(s.tasks, i, Active);
      HeldPut(s.tasks, i, if s.shared.waiting > 0 then Notifying else Done, c);
      if s.tasks[i].held.Some? { TimesAppend(s.shared.idle, s.tasks[i].held.value, c); }
    case Notify(i, wake) =>
      HeldPut(s.tasks, i, Done, c);
      if wake.Some? { HeldPut(s.tasks[i := Done], wake.value, Woken, c); }
    case _ => WaitOwned(s, a, c);
  }

  lemma WaitOwned(s: System, a: Action, c: Conn)
    requires IsWait(a) && Enabled(s, a)
    ensures Owned(Step(s, a), c) == Owned(s, c)
  {
    hide Held, Times;
    HeldPut(s.tasks, a.task, Step(s, a).tasks[a.task], c);
  }

  lemma TryOwned(s: System, i: nat, expired: set<Conn>, c: Conn)
    requires Enabled(s, TryAcquire(i, expired))
    ensures Owned(Step(s, TryAcquire(i, expired)), c) + Lost(s, TryAcquire(i, expired), c) == Owned(s, c)
  {
    hide Held, Retain;
    HeldPut(s.tasks, i, Outcome(s.shared.TryAcquire(s.capacity, expired).0), c);
    TimesRetain(s.shared.idle, expired, c);
  }

  ghost predicate OneOwner(s: System) {
    forall c: Conn :: Owned(s, c) <= if c < s.created then 1 else 0
  }

  lemma StepOneOwner(s: System, a: Action)
    requires Accounted(s) && OneOwner(s) && Enabled(s, a)
    ensures OneOwner(Step(s, a))
  {
    hide Owned, Lost, Shared.TryAcquire;
    var s' := Step(s, a);
    forall c: Conn
      ensures Owned(s', c) <= if c < s'.created then 1 else 0
    {
      Conservation(s, a, c);
    }
  }

  /** No two tasks have the same connection, and none has one that is idle. */
  lemma NoTwoOwners(s: System, i: nat, j: nat, c: Conn)
    requires OneOwner(s) && i < |s.tasks| && s.tasks[i] == Holding(c)
    ensures c !in s.shared.idle && (j < |s.tasks| && Has(s.tasks[j], c) ==> i == j)
  {
    hide Held;
    assert Owned(s, c) <= 1;
    HeldPut(s.tasks, i, Done, c);
    TimesPositive(s.shared.idle, c);
    if j < |s.tasks| && Has(s.tasks[j], c) && j != i { HeldPositive(s.tasks[i := Done], j, c); }
  }

  // ---------- waiters ----------

  /** The task waits for a notification. */
  predicate Asks(t: Task) { t.Waiting? || t.Parked? }
  predicate Helps(t: Task) { Plays(t, Helper) }

  ghost predicate SomeoneAsks(tasks: seq<Task>) { exists i :: 0 <= i < |tasks| && Asks(tasks[i]) }
  ghost predicate SomeoneHelps(tasks: seq<Task>) { exists i :: 0 <= i < |tasks| && Helps(tasks[i]) }

  /** No waiter is stranded: there is a permit, or another task that will act. */
  ghost predicate Attended(s: System) {
    SomeoneAsks(s.tasks) ==> s.permit || SomeoneHelps(s.tasks) || s.shared.active > 0
  }

  /** After a step of task `i`, the other tasks are where they were. */
  lemma Others(tasks: seq<Task>, i: nat, t: Task)
    requires i < |tasks|
    ensures Helps(t) ==> SomeoneHelps(tasks[i := t])
    ensures SomeoneHelps(tasks) && !Helps(tasks[i]) ==> SomeoneHelps(tasks[i := t])
    ensures SomeoneAsks(tasks[i := t]) && !Asks(t) ==> SomeoneAsks(tasks)
    ensures Asks(tasks[i]) ==> SomeoneAsks(tasks)
  {
    var n := tasks[i := t];
    if Helps(t) { assert Helps(n[i]); }
    if SomeoneHelps(tasks) && !Helps(tasks[i]) {
      var j :| 0 <= j < |tasks| && Helps(tasks[j]);
      assert Helps(n[j]);
    }
    if SomeoneAsks(n) && !Asks(t) {
      var j :| 0 <= j < |n| && Asks(n[j]);
      assert Asks(tasks[j]);
    }
  }

  lemma AskerIsCounted(s: System)
    requires Accounted(s) && SomeoneAsks(s.tasks)
    ensures s.shared.waiting > 0
  {
    hide Count;
    var i :| 0 <= i < |s.tasks| && Asks(s.tasks[i]);
    CountPositive(s.tasks, i, Waiter);
  }

  lemma ArriveAttended(s: System)
    requires Attended(s)
    ensures Attended(Step(s, Arrive))
  {
    var n := Step(s, Arrive);
    if SomeoneAsks(n.tasks) {
      var i :| 0 <= i < |n.tasks| && Asks(n.tasks[i]);
      assert Asks(s.tasks[i]);
      if SomeoneHelps(s.tasks) {
        var j :| 0 <= j < |s.tasks| && Helps(s.tasks[j]);
        assert Helps(n.tasks[j]);
      }
    }
  }

  lemma WaitAttended(s: System, a: Action)
    requires Attended(s) && IsWait(a) && Enabled(s, a)
    ensures Attended(Step(s, a))
  {
    hide SomeoneHelps, SomeoneAsks;
    Others(s.tasks, a.task, Step(s, a).tasks[a.task]);
  }

  lemma DropAttended(s: System, i: nat)
    requires Accounted(s) && Enabled(s, RunDrop(i))
    ensures Attended(Step(s, RunDrop(i)))
  {
    hide Count, SomeoneHelps, SomeoneAsks;
    Others(s.tasks, i, if s.shared.waiting > 0 then Notifying else Done);
    if SomeoneAsks(s.tasks) { AskerIsCounted(s); }
  }

  lemma StepAttended(s: System, a: Action)
    requires Accounted(s) && Attended(s) && Enabled(s, a) && !a.CreateFail?
    ensures Attended(Step(s, a))
  {
    hide Count, SomeoneHelps, SomeoneAsks, Shared.TryAcquire;
    match a
    case Arrive => ArriveAttended(s);
    case TryAcquire(_, _) =>
    case RunDrop(i) => DropAttended(s, i);
    case Notify(i, wake) => if wake.Some? { Others(s.tasks[i := Done], wake.value, Woken); }
    case CreateOk(i) => CountPositive(s.tasks, i, Active);
    case DropGuard(i) => CountPositive(s.tasks, i, Active);
    case MarkBroken(i) => CountPositive(s.tasks, i, Active);
    case _ => WaitAttended(s, a);
  }

  /** The one thing that can go wrong: the last active connection is an attempt that fails, while
      a task waits and nothing else is on its way. */
  ghost predicate Strands(s: System) {
    s.shared.active == 1 && SomeoneAsks(s.tasks) && !s.permit && !SomeoneHelps(s.tasks)
  }

  /** A failed attempt leaves a waiter stranded exactly in that case. */
  lemma FailedAttempt(s: System, i: nat)
    requires Accounted(s) && Attended(s) && Enabled(s, CreateFail(i))
    ensures Attended(Step(s, CreateFail(i))) <==> !Strands(s)
  {
    hide Count;
    CountPositive(s.tasks, i, Active);
    var n := Step(s, CreateFail(i));
    assert forall j | 0 <= j < |s.tasks| :: Asks(n.tasks[j]) == Asks(s.tasks[j]);
    assert forall j | 0 <= j < |s.tasks| :: Helps(n.tasks[j]) == Helps(s.tasks[j]);
  }

  // ---------- the stored permit ----------

  /** No task stays parked beside a permit. */
  ghost predicate Noticed(s: System) {
    s.permit ==> forall i | 0 <= i < |s.tasks| :: s.tasks[i] != Parked
  }

  lemma StepNoticed(s: System, a: Action)
    requires Noticed(s) && Enabled(s, a)
    ensures Noticed(Step(s, a))
  {
    hide Shared.TryAcquire;
  }

  // ---------- whole runs ----------

  ghost predicate Safe(s: System) { Accounted(s) && OneOwner(s) && Noticed(s) }

  /** No attempt to connect fails at a moment at which it would strand a waiter. */
  ghost predicate FailsHarmlessly(s: System, run: seq<Action>)
    requires Possible(s, run)
    decreases |run|
  {
    run == [] || ((run[0].CreateFail? ==> !Strands(s)) && FailsHarmlessly(Step(s, run[0]), run[1..]))
  }

  lemma {:induction false} RunFrom(s: System, run: seq<Action>)
    requires Safe(s) && Possible(s, run)
    ensures Safe(After(s, run))
    ensures Attended(s) && FailsHarmlessly(s, run) ==> Attended(After(s, run))
    decreases |run|
  {
    hide Accounted, OneOwner, Noticed, Attended, Enabled, Step, Strands;
    if run != [] {
      StepNoticed(s, run[0]);
      StepAccounted(s, run[0]);
      StepOneOwner(s, run[0]);
      if Attended(s) && FailsHarmlessly(s, run) {
        if run[0].CreateFail? { FailedAttempt(s, run[0].task); } else { StepAttended(s, run[0]); }
      }
      RunFrom(Step(s, run[0]), run[1..]);
    }
  }

  /** Whatever the tasks do, in whatever order: the counters are exact, the pool keeps within its
      capacity, every connection has at most one owner, and no task is parked beside a permit. */
  lemma PoolIsSafe(capacity: nat, run: seq<Action>)
    requires capacity > 0 && Possible(Init(capacity), run)
    ensures Safe(After(Init(capacity), run))
    ensures FailsHarmlessly(Init(capacity), run) ==> Attended(After(Init(capacity), run))
  {
    RunFrom(Init(capacity), run);
  }

  /** The start of a run is a run. */
  lemma {:induction false} PossibleStart(s: System, run: seq<Action>, k: nat)
    requires Possible(s, run) && k <= |run|
    ensures Possible(s, run[..k])
    ensures k > 0 ==> Enabled(s, run[0]) && Possible(Step(s, run[0]), run[1..][..k - 1]) &&
                      After(s, run[..k]) == After(Step(s, run[0]), run[1..][..k - 1])
    decreases |run|
  {
    hide Enabled, Step;
    if k > 0 {
      PossibleStart(Step(s, run[0]), run[1..], k - 1);
      assert run[..k][1..] == run[1..][..k - 1];
    }
  }

  /** At every moment of the run the waiters are attended to. */
  ghost predicate AlwaysAttended(s: System, run: seq<Action>)
    requires Possible(s, run)
  {
    forall k: nat | k <= |run| :: Possible(s, run[..k]) && Attended(After(s, run[..k]))
  }

  /** That is so exactly if no attempt fails at a moment at which it strands a waiter. */
  lemma {:induction false} AttendedIff(s: System, run: seq<Action>)
    requires Safe(s) && Attended(s) && Possible(s, run)
    ensures AlwaysAttended(s, run) <==> FailsHarmlessly(s, run)
    decreases |run|
  {
    hide Accounted, OneOwner, Noticed, Attended, Enabled, Step, Strands;
    if run == [] {
      assert run[..0] == [];
    } else {
      var next, rest := Step(s, run[0]), run[1..];
      StepNoticed(s, run[0]);
      StepAccounted(s, run[0]);
      StepOneOwner(s, run[0]);
      if run[0].CreateFail? { FailedAttempt(s, run[0].task); } else { StepAttended(s, run[0]); }
      LaterAttended(s, run);
      if Attended(next) { AttendedIff(next, rest); }
    }
  }

  lemma LaterAttended(s: System, run: seq<Action>)
    requires Possible(s, run) && run != [] && Attended(s)
    ensures AlwaysAttended(s, run) <==> AlwaysAttended(Step(s, run[0]), run[1..])
    ensures AlwaysAttended(s, run) ==> Attended(Step(s, run[0]))
  {
    hide Attended, Enabled, Step;
    var next, rest := Step(s, run[0]), run[1..];
    forall k: nat | k <= |run| ensures Possible(s, run[..k]) { PossibleStart(s, run, k); }
    forall k: nat | k <= |rest|
      ensures Possible(s, run[..k + 1]) && Possible(next, rest[..k]) && After(s, run[..k + 1]) == After(next, rest[..k])
    {
      PossibleStart(s, run, k + 1);
    }
    assert run[..0] == [] && rest[..0] == [];
    if AlwaysAttended(next, rest) {
      forall k: nat | k <= |run|
        ensures Attended(After(s, run[..k]))
      {
        if k > 0 {
          assert Attended(After(next, rest[..k - 1]));
          assert After(s, run[..k - 1 + 1]) == After(next, rest[..k - 1]);
        }
      }
    }
    if AlwaysAttended(s, run) {
      forall k: nat | k <= |rest| ensures Attended(After(next, rest[..k])) { assert Attended(After(s, run[..k + 1])); }
    }
  }

  /** Of every run of a pool. */
  lemma PoolAttendedIff(capacity: nat, run: seq<Action>)
    requires capacity > 0 && Possible(Init(capacity), run)
    ensures AlwaysAttended(Init(capacity), run) <==> FailsHarmlessly(Init(capacity), run)
  {
    AttendedIff(Init(capacity), run);
  }

  /** If no attempt to connect fails, no waiter is stranded. */
  lemma {:induction false} NoFailures(s: System, run: seq<Action>)
    requires Possible(s, run) && forall i | 0 <= i < |run| :: !run[i].CreateFail?
    ensures FailsHarmlessly(s, run)
    decreases |run|
  {
    hide Enabled, Step;
    if run != [] { NoFailures(Step(s, run[0]), run[1..]); }
  }

  // ---------- enough notifications ----------

  function Permits(s: System): nat { if s.permit then 1 else 0 }

  /** While a task waits, every free place in the pool has a notification under way: a permit, or a
      task that notifies or was notified. */
  ghost predicate Covered(s: System) {
    SomeoneAsks(s.tasks) ==> s.capacity <= s.shared.active + Count(s.tasks, Helper) + Permits(s)
  }

  /** That is more than that the waiters are attended to. */
  lemma {:induction false} CoveredIsAttended(s: System)
    requires Accounted(s) && Covered(s)
    ensures Attended(s)
  {
    hide Count;
    if Count(s.tasks, Helper) > 0 { var i := OneOf(s.tasks, Helper); }
  }

  lemma {:induction false} OneOf(tasks: seq<Task>, r: Role) returns (i: nat)
    requires Count(tasks, r) > 0
    ensures i < |tasks| && Plays(tasks[i], r)
  {
    if Plays(tasks[0], r) {
      i := 0;
    } else {
      i := OneOf(tasks[1..], r);
      i := i + 1;
    }
  }

  /** What costs a notification: one that finds the permit stored already, and an attempt that
      fails without one. It matters when a task waits and there is none to spare. */
  ghost predicate Uncovers(s: System, a: Action) {
    && (a.CreateFail? || (a.Notify? && a.wake.None? && s.permit))
    && SomeoneAsks(s.tasks) && s.capacity == s.shared.active + Count(s.tasks, Helper) + Permits(s)
  }

  lemma TryCovered(s: System, i: nat, expired: set<Conn>)
    requires Accounted(s) && Covered(s) && Enabled(s, TryAcquire(i, expired))
    ensures Covered(Step(s, TryAcquire(i, expired)))
  {
    hide Count, SomeoneAsks, Shared.TryAcquire;
    var t := Outcome(s.shared.TryAcquire(s.capacity, expired).0);
    CountPut(s.tasks, i, t, Helper);
    Others(s.tasks, i, t);
  }

  lemma DropCovered(s: System, i: nat)
    requires Accounted(s) && Covered(s) && Enabled(s, RunDrop(i))
    ensures Covered(Step(s, RunDrop(i)))
  {
    hide Count, SomeoneAsks;
    var t := if s.shared.waiting > 0 then Notifying else Done;
    CountPut(s.tasks, i, t, Helper);
    CountPositive(s.tasks, i, Active);
    Others(s.tasks, i, t);
    if SomeoneAsks(s.tasks) { AskerIsCounted(s); }
  }

  lemma NotifyCovered(s: System, i: nat, wake: Option<nat>)
    requires Covered(s) && Enabled(s, Notify(i, wake))
    ensures Covered(Step(s, Notify(i, wake))) <==> !Uncovers(s, Notify(i, wake))
  {
    hide Count, SomeoneAsks, SomeoneHelps;
    CountPut(s.tasks, i, Done, Helper);
    Others(s.tasks, i, Done);
    if wake.Some? {
      CountPut(s.tasks[i := Done], wake.value, Woken, Helper);
      Others(s.tasks[i := Done], wake.value, Woken);
    } else {
      AsksElsewhere(s.tasks, i, Done);
    }
  }

  lemma AsksElsewhere(tasks: seq<Task>, i: nat, t: Task)
    requires i < |tasks| && !Asks(tasks[i])
    ensures SomeoneAsks(tasks) ==> SomeoneAsks(tasks[i := t])
  {
    if SomeoneAsks(tasks) {
      var j :| 0 <= j < |tasks| && Asks(tasks[j]);
      assert Asks(tasks[i := t][j]);
    }
  }

  lemma FailCovered(s: System, i: nat)
    requires Accounted(s) && Covered(s) && Enabled(s, CreateFail(i))
    ensures Covered(Step(s, CreateFail(i))) <==> !Uncovers(s, CreateFail(i))
  {
    hide Count, SomeoneAsks, SomeoneHelps;
    CountPut(s.tasks, i, Done, Helper);
    CountPositive(s.tasks, i, Active);
    Others(s.tasks, i, Done);
    AsksElsewhere(s.tasks, i, Done);
  }

  lemma WaitCovered(s: System, a: Action)
    requires Covered(s) && IsWait(a) && Enabled(s, a)
    ensures Covered(Step(s, a))
  {
    hide Count, SomeoneAsks, SomeoneHelps;
    CountPut(s.tasks, a.task, Step(s, a).tasks[a.task], Helper);
    Others(s.tasks, a.task, Step(s, a).tasks[a.task]);
  }

  lemma HoldCovered(s: System, a: Action)
    requires Covered(s) && (a.CreateOk? || a.DropGuard? || a.MarkBroken?) && Enabled(s, a)
    ensures Covered(Step(s, a))
  {
    hide Count, SomeoneAsks, SomeoneHelps;
    CountPut(s.tasks, a.task, Step(s, a).tasks[a.task], Helper);
    Others(s.tasks, a.task, Step(s, a).tasks[a.task]);
  }

  lemma ArriveCovered(s: System)
    requires Covered(s)
    ensures Covered(Step(s, Arrive))
  {
    hide Count;
    CountArrive(s.tasks, Helper);
    var n := Step(s, Arrive);
    if SomeoneAsks(n.tasks) {
      var i :| 0 <= i < |n.tasks| && Asks(n.tasks[i]);
      assert Asks(s.tasks[i]);
    }
  }

  /** A step keeps every free place covered exactly if it does not cost the last notification. */
  lemma StepCovered(s: System, a: Action)
    requires Accounted(s) && Covered(s) && Enabled(s, a)
    ensures Covered(Step(s, a)) <==> !Uncovers(s, a)
  {
    hide Accounted, Covered, Count, SomeoneAsks, Step, Permits;
    match a
    case Arrive => ArriveCovered(s);
    case TryAcquire(i, expired) => TryCovered(s, i, expired);
    case RunDrop(i) => DropCovered(s, i);
    case Notify(i, wake) => NotifyCovered(s, i, wake);
    case CreateFail(i) => FailCovered(s, i);
    case CreateOk(_) => HoldCovered(s, a);
    case DropGuard(_) => HoldCovered(s, a);
    case MarkBroken(_) => HoldCovered(s, a);
    case _ => WaitCovered(s, a);
  }

  /** No step of the run costs the last notification. */
  ghost predicate KeepsCovered(s: System, run: seq<Action>)
    requires Possible(s, run)
    decreases |run|
  {
    run == [] || (!Uncovers(s, run[0]) && KeepsCovered(Step(s, run[0]), run[1..]))
  }

  ghost predicate AlwaysCovered(s: System, run: seq<Action>)
    requires Possible(s, run)
    decreases |run|
  {
    Covered(s) && (run == [] || AlwaysCovered(Step(s, run[0]), run[1..]))
  }

  /** At every moment of a run every free place is covered exactly then. */
  lemma {:induction false} CoveredIff(s: System, run: seq<Action>)
    requires Accounted(s) && Covered(s) && Possible(s, run)
    ensures AlwaysCovered(s, run) <==> KeepsCovered(s, run)
    decreases |run|
  {
    hide Accounted, Covered, Enabled, Step, Uncovers;
    if run != [] {
      var next := Step(s, run[0]);
      StepAccounted(s, run[0]);
      StepCovered(s, run[0]);
      if Covered(next) { CoveredIff(next, run[1..]); }
    }
  }

  lemma PoolCoveredIff(capacity: nat, run: seq<Action>)
    requires capacity > 0 && Possible(Init(capacity), run)
    ensures AlwaysCovered(Init(capacity), run) <==> KeepsCovered(Init(capacity), run)
  {
    CoveredIff(Init(capacity), run);
  }

  // ---------- two runs ----------

  /** A run told scene by scene. */
  lemma {:induction false} Film(scenes: seq<System>, run: seq<Action>, k: nat)
    requires |scenes| == |run| + 1 && k <= |run|
    requires forall i | 0 <= i < |run| :: Enabled(scenes[i], run[i]) && Step(scenes[i], run[i]) == scenes[i + 1]
    ensures Possible(scenes[k], run[k..]) && After(scenes[k], run[k..]) == scenes[|run|]
    decreases |run| - k
  {
    hide Step, Enabled;
    if k < |run| {
      Film(scenes, run, k + 1);
      assert run[k..] == [run[k]] + run[k + 1..];
      Go(scenes[k], run[k], scenes[k + 1], run[k + 1..]);
    }
  }

  lemma Go(s: System, a: Action, n: System, rest: seq<Action>)
    requires Enabled(s, a) && Step(s, a) == n && Possible(n, rest)
    ensures Possible(s, [a] + rest) && After(s, [a] + rest) == After(n, rest)
  {
    hide Step, Enabled;
    assert ([a] + rest)[1..] == rest;
  }

  /** A pool of one connection. */
  function FailScene(k: nat): System {
    match k
    case 0 => Init(1)
    case 1 => System(1, Shared([], 0, 0), false, [Acquiring], 0)
    case 2 => System(1, Shared([], 1, 0), false, [Creating], 0)
    case 3 => System(1, Shared([], 1, 0), false, [Creating, Acquiring], 0)
    case 4 => System(1, Shared([], 1, 1), false, [Creating, Waiting], 0)
    case 5 => System(1, Shared([], 1, 1), false, [Creating, Parked], 0)
    case _ => System(1, Shared([], 0, 1), false, [Done, Parked], 0)
  }

  function FailAction(k: nat): Action {
    match k
    case 0 => Arrive
    case 1 => TryAcquire(0, {})
    case 2 => Arrive
    case 3 => TryAcquire(1, {})
    case 4 => Listen(1)
    case _ => CreateFail(0)
  }

  lemma FailStep(k: nat)
    requires k < 6
    ensures Enabled(FailScene(k), FailAction(k)) && Step(FailScene(k), FailAction(k)) == FailScene(k + 1)
  {}

  /** A run in which a waiter is stranded: its only hope was an attempt that failed. */
  lemma StrandedWaiter()
    ensures exists run :: Possible(Init(1), run) && !Attended(After(Init(1), run))
  {
    hide Possible, After, FailAction, Step, Enabled;
    var scenes := seq(7, i requires 0 <= i < 7 => FailScene(i));
    var run := seq(6, i requires 0 <= i < 6 => FailAction(i));
    forall k | 0 <= k < 6
      ensures Enabled(scenes[k], run[k]) && Step(scenes[k], run[k]) == scenes[k + 1]
    {
      FailStep(k);
    }
    Film(scenes, run, 0);
    assert run[0..] == run && scenes[0] == Init(1);
    assert Asks(scenes[6].tasks[1]);
    assert Possible(Init(1), run) && !Attended(After(Init(1), run));
  }

  /** A pool of two connections, both given back before either of two waiters listens. */
  function LossScene(k: nat): System {
    match k
    case 0 => Init(2)
    case 1 => System(2, Shared([], 0, 0), false, [Acquiring], 0)
    case 2 => System(2, Shared([], 0, 0), false, [Acquiring, Acquiring], 0)
    case 3 => System(2, Shared([], 1, 0), false, [Creating, Acquiring], 0)
    case 4 => System(2, Shared([], 1, 0), false, [Holding(0), Acquiring], 1)
    case 5 => System(2, Shared([], 2, 0), false, [Holding(0), Creating], 1)
    case 6 => System(2, Shared([], 2, 0), false, [Holding(0), Holding(1)], 2)
    case 7 => System(2, Shared([], 2, 0), false, [Holding(0), Holding(1), Acquiring], 2)
    case 8 => System(2, Shared([], 2, 0), false, [Holding(0), Holding(1), Acquiring, Acquiring], 2)
    case 9 => System(2, Shared([], 2, 1), false, [Holding(0), Holding(1), Waiting, Acquiring], 2)
    case 10 => System(2, Shared([], 2, 2), false, [Holding(0), Holding(1), Waiting, Waiting], 2)
    case 11 => System(2, Shared([], 2, 2), false, [Dropping(Some(0)), Holding(1), Waiting, Waiting], 2)
    case 12 => System(2, Shared([0], 1, 2), false, [Notifying, Holding(1), Waiting, Waiting], 2)
    case 13 => System(2, Shared([0], 1, 2), false, [Notifying, Dropping(Some(1)), Waiting, Waiting], 2)
    case 14 => System(2, Shared([0, 1], 0, 2), false, [Notifying, Notifying, Waiting, Waiting], 2)
    case 15 => System(2, Shared([0, 1], 0, 2), true, [Done, Notifying, Waiting, Waiting], 2)
    case 16 => System(2, Shared([0, 1], 0, 2), true, [Done, Done, Waiting, Waiting], 2)
    case 17 => System(2, Shared([0, 1], 0, 2), false, [Done, Done, Woken, Waiting], 2)
    case 18 => System(2, Shared([0, 1], 0, 1), false, [Done, Done, Retrying, Waiting], 2)
    case 19 => System(2, Shared([1], 1, 1), false, [Done, Done, Holding(0), Waiting], 2)
    case _ => System(2, Shared([1], 1, 1), false, [Done, Done, Holding(0), Parked], 2)
  }

  function LossAction(k: nat): Action {
    match k
    case 0 => Arrive
    case 1 => Arrive
    case 2 => TryAcquire(0, {})
    case 3 => CreateOk(0)
    case 4 => TryAcquire(1, {})
    case 5 => CreateOk(1)
    case 6 => Arrive
    case 7 => Arrive
    case 8 => TryAcquire(2, {})
    case 9 => TryAcquire(3, {})
    case 10 => DropGuard(0)
    case 11 => RunDrop(0)
    case 12 => DropGuard(1)
    case 13 => RunDrop(1)
    case 14 => Notify(0, None)
    case 15 => Notify(1, None)
    case 16 => Listen(2)
    case 17 => Resume(2)
    case 18 => TryAcquire(2, {})
    case _ => Listen(3)
  }

  lemma LossStart(k: nat)
    requires k < 10
    ensures Enabled(LossScene(k), LossAction(k)) && Step(LossScene(k), LossAction(k)) == LossScene(k + 1)
  {}

  lemma LossMiddle(k: nat)
    requires 10 <= k < 15
    ensures Enabled(LossScene(k), LossAction(k)) && Step(LossScene(k), LossAction(k)) == LossScene(k + 1)
  {}

  lemma LossEnd(k: nat)
    requires 15 <= k < 20
    ensures Enabled(LossScene(k), LossAction(k)) && Step(LossScene(k), LossAction(k)) == LossScene(k + 1)
  {
    var two := [0, 1];
    assert two[1..] == [1];
  }

  lemma LossRun(scenes: seq<System>, run: seq<Action>)
    requires scenes == seq(21, i requires 0 <= i < 21 => LossScene(i))
    requires run == seq(20, i requires 0 <= i < 20 => LossAction(i))
    ensures Possible(Init(2), run) && After(Init(2), run) == LossScene(20)
  {
    hide Possible, After, Step, Enabled;
    forall k | 0 <= k < 20
      ensures Enabled(scenes[k], run[k]) && Step(scenes[k], run[k]) == scenes[k + 1]
    {
      hide LossScene, LossAction;
      if k < 10 { LossStart(k); } else if k < 15 { LossMiddle(k); } else { LossEnd(k); }
    }
    Film(scenes, run, 0);
    assert run[0..] == run && scenes[0] == Init(2);
  }

  lemma LossResult(s: System)
    requires s == LossScene(20)
    ensures Attended(s) && !Covered(s) && s.shared.idle != []
  {
    assert Asks(s.tasks[3]);
    assert s.tasks[1..] == [Done, Holding(0), Parked];
    assert s.tasks[1..][1..] == [Holding(0), Parked];
    assert s.tasks[1..][1..][1..] == [Parked];
    assert Count(s.tasks, Helper) == 0;
  }

  /** A run without a failed attempt in which a notification is lost: at its end a connection is
      idle, a task is parked, and nobody is going to wake it but the next drop. */
  lemma LostNotification()
    ensures exists run: seq<Action> ::
      && Possible(Init(2), run) && (forall i | 0 <= i < |run| :: !run[i].CreateFail?)
      && var s := After(Init(2), run); Attended(s) && !Covered(s) && s.shared.idle != []
  {
    hide Possible, After, LossScene, Attended, Covered;
    var scenes := seq(21, i requires 0 <= i < 21 => LossScene(i));
    var run := seq(20, i requires 0 <= i < 20 => LossAction(i));
    LossRun(scenes, run);
    LossResult(LossScene(20));
    assert forall i | 0 <= i < |run| :: !run[i].CreateFail?;
  }
}
