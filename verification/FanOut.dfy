/**
 Goroutines that report over one buffered channel to one collector, under a context that may
 be cancelled at any moment. Image validation, alert sending and cosign verification are all
 started this way: one goroutine per item, a channel with one slot per item, and a loop that
 receives one message per item unless it stops early.

 Every interleaving is a sequence of steps. What a goroutine will report is fixed by its Worker
 value; quantifying over all Worker values covers every outcome of the work itself.
 */
module FanOut {
  import opened Distinct

  /** fails: the message is an error. cancellable: it looks at the context before sending. */
  datatype Worker = Worker(fails: bool, cancellable: bool)

  /** Sending: the context was looked at, the message is ready, the channel is next. */
  datatype Phase = Working | Sending | Sent | Dropped

  datatype Collector =
    | Waiting
    | Accepted
    | Failed(worker: nat)
    | TimedOut(after: nat)

  /** leaves: the receive is in a select with the context, so cancellation can end it. */
  datatype Setup = Setup(workers: seq<Worker>, leaves: bool)

  /** received and channel hold worker numbers; the last one received may be a failure. */
  datatype State = State(
    phase: seq<Phase>,
    channel: seq<nat>,
    received: seq<nat>,
    cancelled: bool,
    collector: Collector)

  datatype Step = Finish(w: nat) | Send(w: nat) | Receive | Leave | Cancel

  /** Worker numbers stay in range. */
  predicate Shaped(c: Setup, s: State) {
    |s.phase| == |c.workers| && forall i :: 0 <= i < |s.channel| ==> s.channel[i] < |c.workers|
  }

  function Initial(c: Setup): (s: State)
    ensures Shaped(c, s)
  {
    State(seq(|c.workers|, _ => Working), [], [], false, if c.workers == [] then Accepted else Waiting)
  }

  predicate Enabled(c: Setup, s: State, step: Step) {
    match step
    case Finish(w) => w < |s.phase| && s.phase[w].Working?
    case Send(w) => w < |s.phase| && s.phase[w].Sending? && |s.channel| < |c.workers|
    case Receive => s.collector.Waiting? && s.channel != []
    case Leave => s.collector.Waiting? && s.cancelled && c.leaves
    case Cancel => !s.cancelled
  }

  function Apply(c: Setup, s: State, step: Step): (t: State)
    requires Shaped(c, s) && Enabled(c, s, step)
    ensures Shaped(c, t)
  {
    match step
    case Finish(w) =>
      s.(phase := s.phase[w := if c.workers[w].cancellable && s.cancelled then Dropped else Sending])
    case Send(w) =>
      s.(phase := s.phase[w := Sent], channel := s.channel + [w])
    case Receive =>
      var w := s.channel[0];
      var received := s.received + [w];
      s.(channel := s.channel[1..],
      received := received,
      collector := if c.workers[w].fails then Failed(w)
      else if |received| == |c.workers| then Accepted
      else Waiting)
    case Leave => s.(collector := TimedOut(|s.received|))
    case Cancel => s.(cancelled := true)
  }

  // ---------- the invariant ----------

  /** Every message sent is in exactly one place, once, and nothing else is anywhere. */
  ghost predicate MessagesAccounted(c: Setup, s: State) {
    var log := s.received + s.channel;
    && NoDup(log)
    && (forall w: nat :: w in log <==> w < |s.phase| && s.phase[w].Sent?)
  }

  ghost predicate AllGood(c: Setup, ids: seq<nat>) {
    forall w :: w in ids ==> w < |c.workers| && !c.workers[w].fails
  }

  ghost predicate CollectorConsistent(c: Setup, s: State) {
    match s.collector
    case Waiting => |s.received| < |c.workers| && AllGood(c, s.received)
    case Accepted => |s.received| == |c.workers| && AllGood(c, s.received)
    case Failed(w) =>
      var last := |s.received| - 1;
      && 0 <= last < |c.workers| && s.received[last] == w < |c.workers| && c.workers[w].fails
      && AllGood(c, s.received[..last])
    case TimedOut(k) =>
      s.cancelled && c.leaves && k == |s.received| < |c.workers| && AllGood(c, s.received)
  }

  ghost predicate Inv(c: Setup, s: State) {
    && Shaped(c, s)
    && MessagesAccounted(c, s)
    && CollectorConsistent(c, s)
    && (forall w :: 0 <= w < |s.phase| && s.phase[w].Dropped? ==> s.cancelled && c.workers[w].cancellable)
  }

  lemma InitialInv(c: Setup)
    ensures Inv(c, Initial(c))
  {
  }

  lemma ApplyInv(c: Setup, s: State, step: Step)
    requires Inv(c, s) && Enabled(c, s, step)
    ensures Inv(c, Apply(c, s, step))
  {
    match step
    case Receive => ReceiveInv(c, s);
    case Send(w) => SendInv(c, s, w);
    case _ =>
  }

  lemma ReceiveInv(c: Setup, s: State)
    requires Inv(c, s) && Enabled(c, s, Receive)
    ensures Inv(c, Apply(c, s, Receive))
  {
    var t := Apply(c, s, Receive);
    assert t.received + t.channel == s.received + s.channel;
    assert s.channel[0] in s.received + s.channel;
    MessagesBound(c, t);
  }

  lemma SendInv(c: Setup, s: State, w: nat)
    requires Inv(c, s) && Enabled(c, s, Send(w))
    ensures Inv(c, Apply(c, s, Send(w)))
  {
    var log, t := s.received + s.channel, Apply(c, s, Send(w));
    assert t.received + t.channel == log + [w];
    assert w !in log;
  }

  lemma MessagesBound(c: Setup, s: State)
    requires |s.phase| == |c.workers|
    requires NoDup(s.received + s.channel)
    requires forall w: nat :: w in s.received + s.channel <==> w < |s.phase| && s.phase[w].Sent?
    ensures |s.received| + |s.channel| <= |c.workers|
  {
    Pigeonhole(s.received + s.channel, |c.workers|);
  }

  // ---------- runs ----------

  /** steps can be taken from s, one after the other, and end in t. */
  ghost predicate Run(c: Setup, s: State, steps: seq<Step>, t: State)
    requires Shaped(c, s)
    decreases |steps|
  {
    if steps == [] then
      s == t
    else
      Enabled(c, s, steps[0]) && Run(c, Apply(c, s, steps[0]), steps[1..], t)
  }

  lemma {:induction false} RunInv(c: Setup, s: State, steps: seq<Step>, t: State)
    requires Inv(c, s) && Run(c, s, steps, t)
    ensures Inv(c, t)
    ensures s.cancelled ==> t.cancelled
    decreases |steps|
  {
    if steps != [] {
      ApplyInv(c, s, steps[0]);
      RunInv(c, Apply(c, s, steps[0]), steps[1..], t);
    }
  }

  /** t is reached by some interleaving that starts with every goroutine just launched. */
  ghost predicate Reachable(c: Setup, steps: seq<Step>, t: State) {
    Run(c, Initial(c), steps, t)
  }

  lemma ReachableInv(c: Setup, steps: seq<Step>, t: State)
    requires Reachable(c, steps, t)
    ensures Inv(c, t)
  {
    InitialInv(c);
    RunInv(c, Initial(c), steps, t);
  }

  /** What is sent first is received first: the sequence of all messages only ever grows at its end. */
  lemma {:induction false} FirstInFirstOut(c: Setup, s: State, steps: seq<Step>, t: State)
    requires Shaped(c, s) && Run(c, s, steps, t)
    ensures s.received + s.channel <= t.received + t.channel && s.received <= t.received
    decreases |steps|
  {
    if steps != [] {
      StepExtends(c, s, steps[0]);
      FirstInFirstOut(c, Apply(c, s, steps[0]), steps[1..], t);
    }
  }

  lemma StepExtends(c: Setup, s: State, step: Step)
    requires Shaped(c, s) && Enabled(c, s, step)
    ensures
      var t := Apply(c, s, step);
      s.received + s.channel <= t.received + t.channel && s.received <= t.received
  {
    var t := Apply(c, s, step);
    match step {
      case Receive => assert t.received + t.channel == s.received + s.channel;
      case Send(w) => assert t.received + t.channel == s.received + s.channel + [w];
      case _ =>
    }
  }

  /** A goroutine that looks at the context and is still working when it is cancelled never sends. */
  lemma {:induction false} LateWorkerStaysSilent(c: Setup, s: State, steps: seq<Step>, t: State, w: nat)
    requires Inv(c, s) && Run(c, s, steps, t)
    requires w < |c.workers| && c.workers[w].cancellable && s.cancelled
    requires s.phase[w].Working? || s.phase[w].Dropped?
    ensures |t.phase| == |c.workers| && (t.phase[w].Working? || t.phase[w].Dropped?)
    ensures w !in t.received + t.channel
    decreases |steps|
  {
    if steps != [] {
      ApplyInv(c, s, steps[0]);
      LateWorkerStaysSilent(c, Apply(c, s, steps[0]), steps[1..], t, w);
    }
  }

  /** Any other one that finishes goes on to send. */
  lemma FinishedWorkerSends(c: Setup, s: State, w: nat)
    requires Inv(c, s) && Enabled(c, s, Finish(w))
    ensures Apply(c, s, Finish(w)).phase[w].Sending? <==> !(c.workers[w].cancellable && s.cancelled)
  {
  }

  // ---------- no goroutine and no collector is ever stuck ----------

  /** A goroutine about to send always finds a free slot, whatever the collector did before. */
  lemma SendNeverBlocks(c: Setup, steps: seq<Step>, t: State, w: nat)
    requires Reachable(c, steps, t)
    requires w < |t.phase| && t.phase[w].Sending?
    ensures Enabled(c, t, Send(w))
  {
    ReachableInv(c, steps, t);
    var log := t.received + t.channel;
    assert w !in log;
    assert NoDup(log + [w]);
    Pigeonhole(log + [w], |c.workers|);
  }

  ghost predicate Finished(p: Phase) {
    p.Sent? || p.Dropped?
  }

  /** Once all goroutines are done, a waiting collector has a message to read or was cancelled. */
  lemma CollectorNeverStuck(c: Setup, steps: seq<Step>, t: State)
    requires Reachable(c, steps, t)
    requires t.collector.Waiting?
    requires forall w :: 0 <= w < |t.phase| ==> Finished(t.phase[w])
    ensures t.channel != [] || t.cancelled
    ensures (forall w :: 0 <= w < |c.workers| ==> !c.workers[w].cancellable) ==> t.channel != []
  {
    ReachableInv(c, steps, t);
    if t.channel == [] {
      assert t.received + t.channel == t.received;
      if forall w: nat :: w < |c.workers| ==> t.phase[w].Sent? {
        Complete(t.received, |c.workers|);
      }
    }
  }

  /** No step but cancellation is left. */
  ghost predicate Terminal(c: Setup, t: State) {
    forall step: Step :: step.Cancel? || !Enabled(c, t, step)
  }

  /** A run that cannot go on has every goroutine done and the collector decided. */
  lemma TerminalIsDecided(c: Setup, steps: seq<Step>, t: State)
    requires Reachable(c, steps, t)
    requires c.leaves || forall w :: 0 <= w < |c.workers| ==> !c.workers[w].cancellable
    requires Terminal(c, t)
    ensures forall w :: 0 <= w < |t.phase| ==> Finished(t.phase[w])
    ensures !t.collector.Waiting?
  {
    forall w: nat | w < |t.phase|
      ensures Finished(t.phase[w])
    {
      assert !Enabled(c, t, Finish(w));
      if t.phase[w].Sending? {
        SendNeverBlocks(c, steps, t, w);
      }
    }
    assert !Enabled(c, t, Receive) && !Enabled(c, t, Leave);
    if t.collector.Waiting? {
      CollectorNeverStuck(c, steps, t);
    }
  }

  // ---------- every run ends ----------

  function Work(phase: seq<Phase>): nat {
    if phase == [] then 0
    else
      var p := phase[|phase| - 1];
      Work(phase[..|phase| - 1]) + if p.Working? then 2 else if p.Sending? then 1 else 0
  }

  lemma {:induction false} WorkDrops(phase: seq<Phase>, w: nat, p: Phase)
    requires w < |phase|
    requires (phase[w].Working? && !p.Working?) || (phase[w].Sending? && Finished(p))
    ensures Work(phase[w := p]) < Work(phase)
  {
    var last := |phase| - 1;
    var changed := phase[w := p];
    if w == last {
      assert changed[..last] == phase[..last];
    } else {
      assert changed[..last] == phase[..last][w := p];
      WorkDrops(phase[..last], w, p);
    }
  }

  lemma {:induction false} WorkAtStart(n: nat)
    ensures Work(seq(n, _ => Working)) == 2 * n
  {
    if n > 0 {
      assert seq(n, _ => Working)[..n - 1] == seq(n - 1, _ => Working);
      WorkAtStart(n - 1);
    }
  }

  function Remaining(c: Setup, s: State): nat
    requires |s.received| <= |c.workers|
  {
    Work(s.phase)
    + (if s.collector.Waiting? then |c.workers| - |s.received| + 1 else 0)
    + (if s.cancelled then 0 else 1)
  }

  lemma {:induction false} RunIsShort(c: Setup, s: State, steps: seq<Step>, t: State)
    requires Inv(c, s) && Run(c, s, steps, t)
    ensures |s.received| <= |c.workers|
    ensures |steps| <= Remaining(c, s)
    decreases |steps|
  {
    MessagesBound(c, s);
    if steps != [] {
      var next := Apply(c, s, steps[0]);
      ApplyInv(c, s, steps[0]);
      RunIsShort(c, next, steps[1..], t);
      match steps[0]
      case Finish(w) => WorkDrops(s.phase, w, next.phase[w]);
      case Send(w) => WorkDrops(s.phase, w, Sent);
      case _ =>
    }
  }

  /** No interleaving is longer than three steps per goroutine and two more. */
  lemma RunsTerminate(c: Setup, steps: seq<Step>, t: State)
    requires Reachable(c, steps, t)
    ensures |steps| <= 3 * |c.workers| + 2
  {
    InitialInv(c);
    WorkAtStart(|c.workers|);
    RunIsShort(c, Initial(c), steps, t);
  }

  // ---------- what a decision means ----------

  /** Acceptance: each goroutine was heard exactly once, and none reported a failure. */
  lemma AcceptedMeansAllGood(c: Setup, steps: seq<Step>, t: State)
    requires Reachable(c, steps, t)
    requires t.collector.Accepted?
    ensures NoDup(t.received) && |t.received| == |c.workers|
    ensures forall w: nat :: w in t.received <==> w < |c.workers|
    ensures |t.phase| == |c.workers|
    ensures forall w: nat :: w < |c.workers| ==> !c.workers[w].fails && t.phase[w].Sent?
  {
    ReachableInv(c, steps, t);
    assert forall w :: w in t.received ==> w in t.received + t.channel;
    assert NoDup(t.received) by {
      assert forall i :: 0 <= i < |t.received| ==> (t.received + t.channel)[i] == t.received[i];
    }
    Pigeonhole(t.received, |c.workers|);
  }

  /** The other two outcomes have a cause: a failing goroutine, or cancellation. */
  lemma RefusalHasACause(c: Setup, steps: seq<Step>, t: State)
    requires Reachable(c, steps, t)
    requires t.collector.Failed? || t.collector.TimedOut?
    ensures t.collector.Failed? ==> t.collector.worker < |c.workers| && c.workers[t.collector.worker].fails
    ensures t.collector.TimedOut? ==> t.cancelled && t.collector.after < |c.workers|
  {
    ReachableInv(c, steps, t);
  }

  /** Without cancellation the schedule does not matter: acceptance depends on the outcomes only. */
  lemma VerdictIgnoresSchedule(c: Setup, steps: seq<Step>, t: State)
    requires Reachable(c, steps, t)
    requires Terminal(c, t) && !t.cancelled
    requires c.leaves || forall w :: 0 <= w < |c.workers| ==> !c.workers[w].cancellable
    ensures t.collector.Accepted? <==> forall w :: 0 <= w < |c.workers| ==> !c.workers[w].fails
    ensures t.collector.Failed? <==> exists w :: 0 <= w < |c.workers| && c.workers[w].fails
  {
    TerminalIsDecided(c, steps, t);
    if t.collector.Accepted? {
      AcceptedMeansAllGood(c, steps, t);
    } else {
      RefusalHasACause(c, steps, t);
    }
  }

  // ---------- the collector's loop ----------

  datatype Verdict = AllReceived | FailedAt(i: nat) | LeftAt(i: nat)

  /**
   What a loop over n receives comes to, if these messages arrive in this order (true for an error)
   and the context is cancelled when they are used up.
   */
  function Consume(failing: seq<bool>, n: nat): (v: Verdict)
    ensures v.AllReceived? <==> |failing| >= n && forall i :: 0 <= i < n ==> !failing[i]
    ensures v.FailedAt? ==> v.i < n && v.i < |failing| && failing[v.i] && forall j :: 0 <= j < v.i ==> !failing[j]
    ensures v.LeftAt? ==> v.i == |failing| < n && forall j :: 0 <= j < v.i ==> !failing[j]
  {
    ConsumeFrom(failing, n, 0)
  }

  function ConsumeFrom(failing: seq<bool>, n: nat, i: nat): (v: Verdict)
    requires i <= n && i <= |failing|
    requires forall j :: 0 <= j < i ==> !failing[j]
    ensures v.AllReceived? <==> |failing| >= n && forall j :: 0 <= j < n ==> !failing[j]
    ensures v.FailedAt? ==> v.i < n && v.i < |failing| && failing[v.i] && forall j :: 0 <= j < v.i ==> !failing[j]
    ensures v.LeftAt? ==> v.i == |failing| < n && forall j :: 0 <= j < v.i ==> !failing[j]
    decreases n - i
  {
    if i == n then AllReceived
    else if i == |failing| then LeftAt(i)
    else if failing[i] then FailedAt(i)
    else ConsumeFrom(failing, n, i + 1)
  }

  /** The messages a run handed to its collector. */
  function Delivered(c: Setup, t: State): seq<bool> {
    seq(|t.received|, i requires 0 <= i < |t.received| =>
      t.received[i] < |c.workers| && c.workers[t.received[i]].fails)
  }

  /** The loop, fed with what a run delivered, decides what the run decided. */
  lemma LoopMatchesRun(c: Setup, steps: seq<Step>, t: State)
    requires Reachable(c, steps, t)
    ensures t.collector.Accepted? ==> Consume(Delivered(c, t), |c.workers|).AllReceived?
    ensures t.collector.Failed? ==> t.received != []
                                    && t.collector.worker == t.received[|t.received| - 1]
                                    && Consume(Delivered(c, t), |c.workers|) == FailedAt(|t.received| - 1)
    ensures t.collector.TimedOut? ==> Consume(Delivered(c, t), |c.workers|) == LeftAt(t.collector.after)
  {
    ReachableInv(c, steps, t);
    var d := Delivered(c, t);
    if t.collector.Failed? {
      var last := |t.received| - 1;
      assert d[last];
      assert forall i :: 0 <= i < last ==> t.received[..last][i] in t.received[..last];
      assert forall i :: 0 <= i < last ==> !d[i];
    } else if !t.collector.Waiting? {
      assert forall i :: 0 <= i < |d| ==> t.received[i] in t.received;
      assert forall i :: 0 <= i < |d| ==> !d[i];
    }
  }

  // ---------- more senders than slots ----------

  /** Senders that have not got rid of their message, messages in the channel, messages read. */
  datatype Traffic = Traffic(waiting: nat, queued: nat, read: nat)

  datatype Move = Put | Take

  predicate CanMove(slots: nat, awaited: nat, t: Traffic, m: Move) {
    match m
    case Put => t.waiting > 0 && t.queued < slots
    case Take => t.queued > 0 && t.read < awaited
  }

  function Moved(slots: nat, awaited: nat, t: Traffic, m: Move): Traffic
    requires CanMove(slots, awaited, t, m)
  {
    match m
    case Put => Traffic(t.waiting - 1, t.queued + 1, t.read)
    case Take => Traffic(t.waiting, t.queued - 1, t.read + 1)
  }

  ghost predicate TrafficRun(slots: nat, awaited: nat, s: Traffic, moves: seq<Move>, t: Traffic)
    decreases |moves|
  {
    if moves == [] then s == t
    else
      && CanMove(slots, awaited, s, moves[0])
      && TrafficRun(slots, awaited, Moved(slots, awaited, s, moves[0]), moves[1..], t)
  }

  lemma {:induction false} TrafficKept(slots: nat, awaited: nat, s: Traffic, moves: seq<Move>, t: Traffic)
    requires TrafficRun(slots, awaited, s, moves, t) && s.queued <= slots && s.read <= awaited
    ensures t.waiting + t.queued + t.read == s.waiting + s.queued + s.read
    ensures t.queued <= slots && t.read <= awaited
    decreases |moves|
  {
    if moves != [] {
      TrafficKept(slots, awaited, Moved(slots, awaited, s, moves[0]), moves[1..], t);
    }
  }

  /**
   n senders on a channel with these slots, of whose messages so many are read: when nothing can move
   any more, all senders that find neither a reader nor a slot stay blocked for good.
   */
  lemma BlockedSenders(n: nat, slots: nat, awaited: nat, moves: seq<Move>, t: Traffic)
    requires slots > 0 && TrafficRun(slots, awaited, Traffic(n, 0, 0), moves, t)
    requires forall m: Move :: !CanMove(slots, awaited, t, m)
    ensures t.read == if n < awaited then n else awaited
    ensures t.waiting == if n <= slots + awaited then 0 else n - slots - awaited
  {
    TrafficKept(slots, awaited, Traffic(n, 0, 0), moves, t);
    assert !CanMove(slots, awaited, t, Put) && !CanMove(slots, awaited, t, Take);
  }
}
