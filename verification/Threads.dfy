/** The three threads of the daemon and their two condition variables, step by step at
    the granularity of critical sections. Only list lengths matter here. A waiting thread
    may also wake spuriously. */
module Threads {
  import opened Options

  /** `Top`: about to take the lock and look for work. `Waiting`: inside the condition
      wait. `Ready`: about to start a pass. `Passing`: holds the request lock for a pass.
      `Asleep`: between passes, after which it reads the list without the lock. */
  datatype Timer = Top | Waiting(signalled: bool) | Ready | Passing | Asleep

  datatype Sender = Starting | Blocked(signalled: bool)

  datatype Thread = MainThread | TimerThread

  /** `owes` holds the threads that queued a message and have yet to signal. */
  datatype State = State(
    reqs: nat, wake: bool, timer: Timer, pending: nat, sender: Sender, owes: set<Thread>)

  const START := State(0, false, Top, 0, Starting, {})

  datatype Step =
    | AddRequest
    | TimerTop
    | TimerWakes
    | TimerStarts
    | TimerEnds(left: nat)
    | TimerLooks
    | Post(t: Thread)
    | Signal(t: Thread)
    | SenderStarts
    | SenderWakes

  /** Steps a thread may take on its own; waking also happens without a signal. */
  predicate Enabled(s: State, a: Step) {
    match a
    case AddRequest => s.timer != Passing && MainThread !in s.owes
    case TimerTop => s.timer == Top
    case TimerWakes => s.timer.Waiting?
    case TimerStarts => s.timer == Ready
    case TimerEnds(left) => s.timer == Passing && left <= s.reqs && TimerThread !in s.owes
    case TimerLooks => s.timer == Asleep
    case Post(t) => t !in s.owes && (t == TimerThread ==> s.timer == Passing)
    case Signal(t) => t in s.owes
    case SenderStarts => s.sender == Starting
    case SenderWakes => s.sender.Blocked?
  }

  function Next(s: State, a: Step): State {
    match a
    case AddRequest =>
      s.(reqs := s.reqs + 1,
         timer := if !s.wake && s.timer.Waiting? then Waiting(true) else s.timer)
    case TimerTop => s.(wake := false, timer := if s.reqs == 0 then Waiting(false) else Ready)
    case TimerWakes => s.(timer := Ready)
    case TimerStarts => s.(wake := true, timer := Passing)
    case TimerEnds(left) => s.(reqs := left, timer := Asleep)
    case TimerLooks => s.(timer := if s.reqs == 0 then Top else Ready)
    case Post(t) => s.(pending := s.pending + 1, owes := s.owes + {t})
    case Signal(t) =>
      s.(owes := s.owes - {t}, sender := if s.sender.Blocked? then Blocked(true) else s.sender)
    case SenderStarts => s.(sender := Blocked(false))
    case SenderWakes => s.(pending := 0, sender := Blocked(false))
  }

  ghost predicate Runs(run: seq<State>, steps: seq<Step>) {
    && |run| == |steps| + 1
    && forall i | 0 <= i < |steps| :: Enabled(run[i], steps[i]) && run[i + 1] == Next(run[i], steps[i])
  }

  /** The timer does not sleep through work: with a request posted it is not waiting,
      or the signal to wake it has been delivered. */
  predicate TimerAlert(s: State) {
    s.timer.Waiting? ==> s.reqs == 0 || s.timer.signalled
  }

  /** The same for the sender, where a signal may also still be owed. */
  predicate SenderAlert(s: State) {
    s.sender.Blocked? ==> s.pending == 0 || s.sender.signalled || s.owes != {}
  }

  /** In every reachable state of every run the timer is alert. The flag that saves signals
      is down while it waits and up while it works. */
  lemma {:induction false} NoLostTimerWakeUp(run: seq<State>, steps: seq<Step>, k: nat)
    requires Runs(run, steps) && run[0] == START && k < |run|
    ensures TimerAlert(run[k])
    ensures run[k].timer.Waiting? ==> !run[k].wake
    ensures run[k].timer == Passing || run[k].timer == Asleep ==> run[k].wake
  {
    if k == 0 {
    } else {
      NoLostTimerWakeUp(run, steps, k - 1);
      assert Enabled(run[k - 1], steps[k - 1]) && run[k] == Next(run[k - 1], steps[k - 1]);
    }
  }

  lemma SenderStaysAlert(s: State, a: Step)
    requires Enabled(s, a) && s.sender.Blocked? && SenderAlert(s)
    ensures Next(s, a).sender.Blocked? && SenderAlert(Next(s, a))
  {
  }

  /** Every thread starts with nothing owed, so the sender is alert from its first wait on
      if and only if, at that wait, the queue is empty or a signal is still to come. */
  lemma {:induction false} NoLostSenderWakeUp(run: seq<State>, steps: seq<Step>)
    requires Runs(run, steps) && run[0].sender == Blocked(false)
    ensures (forall k | 0 <= k < |run| :: SenderAlert(run[k])) <==> run[0].pending == 0 || run[0].owes != {}
  {
    if run[0].pending == 0 || run[0].owes != {} {
      AlertThroughout(run, steps, |run| - 1);
    }
  }

  lemma {:induction false} AlertThroughout(run: seq<State>, steps: seq<Step>, k: nat)
    requires Runs(run, steps) && run[0].sender.Blocked? && SenderAlert(run[0]) && k < |run|
    ensures run[k].sender.Blocked?
    ensures forall i | 0 <= i <= k :: SenderAlert(run[i])
  {
    if k == 0 {
    } else {
      AlertThroughout(run, steps, k - 1);
      assert Enabled(run[k - 1], steps[k - 1]) && run[k] == Next(run[k - 1], steps[k - 1]);
      SenderStaysAlert(run[k - 1], steps[k - 1]);
    }
  }

  /** The wake-up that is lost: a message queued and signalled before the sender's first
      wait leaves the sender waiting on a non-empty queue with no signal owed. The next
      message wakes it, and then both go out. */
  lemma LostFirstWakeUp()
    ensures var steps := [Post(MainThread), Signal(MainThread), SenderStarts];
      exists run :: Runs(run, steps) && run[0] == START && !SenderAlert(run[3])
    ensures var s := Next(Next(Next(START, Post(MainThread)), Signal(MainThread)), SenderStarts);
      Next(Next(Next(s, Post(MainThread)), Signal(MainThread)), SenderWakes).pending == 0
  {
    var steps := [Post(MainThread), Signal(MainThread), SenderStarts];
    var s1 := Next(START, steps[0]);
    var s2 := Next(s1, steps[1]);
    var s3 := Next(s2, steps[2]);
    var run := [START, s1, s2, s3];
    assert s2.owes == {};
    assert Runs(run, steps);
    assert !SenderAlert(run[3]);
  }

  // ---- progress ----

  /** What the timer thread does next without waking spuriously; nothing while it waits for its signal. */
  function OwnStep(s: State): (a: Option<Step>)
    ensures a.Some? ==> Enabled(s, a.value)
    ensures a == None <==> s.timer == Waiting(false)
  {
    match s.timer
    case Top => Some(TimerTop)
    case Waiting(signalled) => if signalled then Some(TimerWakes) else None
    case Ready => Some(TimerStarts)
    case Passing => Some(if TimerThread in s.owes then Signal(TimerThread) else TimerEnds(s.reqs))
    case Asleep => Some(TimerLooks)
  }

  function Own(s: State, n: nat): State
    decreases n
  {
    if n == 0 || OwnStep(s) == None then s else Own(Next(s, OwnStep(s).value), n - 1)
  }

  /** In every reachable state with a request listed, the timer is in a pass or at most two steps of its own away. */
  lemma TimerServes(run: seq<State>, steps: seq<Step>, k: nat)
    requires Runs(run, steps) && run[0] == START && k < |run| && run[k].reqs > 0
    ensures exists n | 0 <= n <= 2 :: Own(run[k], n).timer == Passing
  {
    NoLostTimerWakeUp(run, steps, k);
    var s := run[k];
    var n := if s.timer == Passing then 0 else if s.timer == Ready then 1 else 2;
    if n > 0 {
      var s1 := Next(s, OwnStep(s).value);
      assert Own(s, 1) == Own(s1, 0) && Own(s, 2) == Own(s1, 1);
    }
    assert Own(s, n).timer == Passing;
  }

  /** How far the timer is from its wait when there is nothing to do. */
  function Distance(s: State): nat {
    match s.timer
    case Waiting(signalled) => if signalled then 6 else 0
    case Ready => 5
    case Passing => if TimerThread in s.owes then 4 else 3
    case Asleep => 2
    case Top => 1
  }

  /** With no request listed the timer waits after at most six steps of its own: it does not poll. */
  lemma {:induction false} TimerRests(s: State, n: nat)
    requires s.reqs == 0 && n >= Distance(s)
    ensures Own(s, n).timer == Waiting(false) && Distance(s) <= 6
    decreases n
  {
    if OwnStep(s) == None {
    } else {
      TimerRests(Next(s, OwnStep(s).value), n - 1);
    }
  }

  /** An alert sender with a message queued empties the queue once it takes a signal that is delivered or owed. */
  lemma SenderServes(s: State)
    requires s.sender.Blocked? && SenderAlert(s) && s.pending > 0
    ensures s.sender.signalled ||
      exists t | t in s.owes :: Enabled(s, Signal(t)) && Next(s, Signal(t)).sender == Blocked(true)
    ensures Next(s, SenderWakes).pending == 0 && Next(s, SenderWakes).sender == Blocked(false)
  {
  }
}
