/**
 * Marble respawning.  Every frame the manager counts the marbles in play;
 * while fewer than the maximum are, it queues each inactive marble not yet
 * queued and arms the spawn timer.  Once the armed timer reaches the spawn
 * delay, the marble at the front of the queue comes back into play.
 */
module Marbles {
  import opened Wrappers

  datatype Config = Config(spawnDelayTime: real, maxNumberActiveMarbles: int)

  /** The serialized defaults: a 1.5 second delay and at most five marbles in play. */
  const DefaultConfig: Config := Config(1.5, 5)

  /** The manager's state; `active[i]` is whether marble `i` is in play. */
  datatype Spawner = Spawner(
    active: seq<bool>,
    queue: seq<nat>,
    spawnDelayTimer: real,
    spawnTimerActive: bool,
    activeCount: int)

  /**
   * `Queue.Peek` on an empty queue throws.  What the frame had written before
   * the throw stays written, so the error carries that state: the engine
   * abandons the frame and the next one starts from it.
   */
  datatype SpawnError = EmptyQueue(partial: Spawner)

  /** The state the next frame starts from, whether this one finished or threw. */
  function Next(r: Result<Spawner, SpawnError>): Spawner {
    match r
    case Success(s) => s
    case Failure(e) => e.partial
  }

  /** The state after `Awake`, for a scene's marbles. */
  function Initial(active: seq<bool>): (s: Spawner)
    ensures s.active == active && s.queue == [] && !s.spawnTimerActive && s.spawnDelayTimer == 0.0
  {
    Spawner(active, [], 0.0, false, 0)
  }

  /** The number of marbles in play; all of them exactly when none is out. */
  function CountActive(a: seq<bool>): (n: nat)
    decreases |a|
    ensures n <= |a|
    ensures n == |a| <==> forall i :: 0 <= i < |a| ==> a[i]
  {
    if |a| == 0 then 0 else (if a[0] then 1 else 0) + CountActive(a[1..])
  }

  /** Bringing one inactive marble back raises the count by exactly one. */
  lemma {:induction false} CountAfterActivation(a: seq<bool>, f: nat)
    requires f < |a| && !a[f]
    decreases |a|
    ensures CountActive(a[f := true]) == CountActive(a) + 1
  {
    if f > 0 {
      assert a[f := true][1..] == a[1..][f - 1 := true];
      CountAfterActivation(a[1..], f - 1);
    } else {
      assert a[f := true][1..] == a[1..];
    }
  }

  predicate NoDuplicates(q: seq<nat>) {
    forall i, j :: 0 <= i < j < |q| ==> q[i] != q[j]
  }

  predicate QueueInRange(s: Spawner) {
    forall k :: 0 <= k < |s.queue| ==> s.queue[k] < |s.active|
  }

  /** The queue invariant: no index twice, and every queued index names a marble out of play. */
  predicate Valid(s: Spawner) {
    && NoDuplicates(s.queue)
    && forall k :: 0 <= k < |s.queue| ==> s.queue[k] < |s.active| && !s.active[s.queue[k]]
  }

  /** The part of `q` from position `n` on is strictly increasing. */
  predicate AscendingFrom(q: seq<nat>, n: nat) {
    forall a, b :: n <= a < b < |q| ==> q[a] < q[b]
  }

  /** An index below every later one extends an increasing tail by one position. */
  lemma AscendingStep(r: seq<nat>, n: nat, i: nat)
    requires n < |r| && r[n] == i
    requires AscendingFrom(r, n + 1)
    requires forall k :: n + 1 <= k < |r| ==> i < r[k]
    ensures AscendingFrom(r, n)
  {
  }

  /**
   * The loop of `Update` from index `i` on: append each inactive index that
   * is not queued yet, lowest index first.
   */
  function CollectInactive(active: seq<bool>, queue: seq<nat>, i: nat): (r: seq<nat>)
    requires i <= |active|
    decreases |active| - i
    ensures |queue| <= |r| && r[..|queue|] == queue
    ensures NoDuplicates(queue) ==> NoDuplicates(r)
    ensures forall k :: |queue| <= k < |r| ==> i <= r[k] < |active| && !active[r[k]]
    ensures forall j {:trigger j in r} :: i <= j < |active| && !active[j] ==> j in r
  {
    if i == |active| then queue
    else if !active[i] && i !in queue then
      var r := CollectInactive(active, queue + [i], i + 1);
      assert r[..|queue|] == (r[..|queue| + 1])[..|queue|];
      assert r[|queue|] == i;
      r
    else
      var r := CollectInactive(active, queue, i + 1);
      assert i in queue ==> i in r by {
        if i in queue {
          var k :| 0 <= k < |queue| && queue[k] == i;
          assert r[k] == r[..|queue|][k];
        }
      }
      r
  }

  /** The loop appends the indices it queues in increasing order. */
  lemma {:induction false} CollectInactiveAscending(active: seq<bool>, queue: seq<nat>, i: nat)
    requires i <= |active|
    decreases |active| - i
    ensures AscendingFrom(CollectInactive(active, queue, i), |queue|)
  {
    if i < |active| {
      if !active[i] && i !in queue {
        var r := CollectInactive(active, queue + [i], i + 1);
        assert CollectInactive(active, queue, i) == r;
        CollectInactiveAscending(active, queue + [i], i + 1);
        assert r[|queue|] == (queue + [i])[|queue|];
        AscendingStep(r, |queue|, i);
      } else {
        CollectInactiveAscending(active, queue, i + 1);
      }
    }
  }

  /**
   * The first half of `Update`: count the marbles in play, then either queue
   * the missing ones and arm the timer, or, at the maximum, disarm it.
   */
  function Collect(s: Spawner, cfg: Config): (r: Spawner)
    ensures r.activeCount == CountActive(s.active)
    ensures r.active == s.active && r.spawnDelayTimer == s.spawnDelayTimer
    ensures r.activeCount >= cfg.maxNumberActiveMarbles ==> r.queue == s.queue && !r.spawnTimerActive
    ensures r.activeCount < cfg.maxNumberActiveMarbles ==>
      && |s.queue| <= |r.queue| && r.queue[..|s.queue|] == s.queue
      && (forall j :: 0 <= j < |s.active| && !s.active[j] ==> j in r.queue)
      && AscendingFrom(r.queue, |s.queue|)
      && (r.spawnTimerActive <==> s.spawnTimerActive || |r.queue| > |s.queue|)
    ensures QueueInRange(s) ==> QueueInRange(r)
    ensures Valid(s) ==> Valid(r)
  {
    var count := CountActive(s.active);
    if count < cfg.maxNumberActiveMarbles then
      var q := CollectInactive(s.active, s.queue, 0);
      CollectInactiveAscending(s.active, s.queue, 0);
      assert forall k :: 0 <= k < |s.queue| ==> q[k] == s.queue[k] by {
        forall k | 0 <= k < |s.queue| ensures q[k] == s.queue[k] {
          assert q[k] == q[..|s.queue|][k];
        }
      }
      s.(activeCount := count, queue := q, spawnTimerActive := s.spawnTimerActive || |q| > |s.queue|)
    else
      s.(activeCount := count, spawnTimerActive := false)
  }

  /**
   * `UpdateMarbleSpawning`.  The armed timer runs only below the maximum;
   * when it reaches the delay exactly the front marble returns, leaves the
   * queue, and the timer restarts.  An empty queue at that moment is the
   * exception `Peek` throws, after the timer has already advanced.
   */
  function UpdateMarbleSpawning(s: Spawner, cfg: Config, dt: real): (r: Result<Spawner, SpawnError>)
    requires QueueInRange(s)
    ensures !(s.spawnTimerActive && s.activeCount < cfg.maxNumberActiveMarbles) ==> r == Success(s)
    ensures s.spawnTimerActive && s.activeCount < cfg.maxNumberActiveMarbles ==>
      if s.spawnDelayTimer + dt < cfg.spawnDelayTime then
        r == Success(s.(spawnDelayTimer := s.spawnDelayTimer + dt))
      else if |s.queue| == 0 then
        r == Failure(EmptyQueue(s.(spawnDelayTimer := s.spawnDelayTimer + dt)))
      else
        r == Success(s.(active := s.active[s.queue[0] := true], queue := s.queue[1..], spawnDelayTimer := 0.0))
    ensures Valid(s) ==> Valid(Next(r))
    ensures Valid(s) ==> CountActive(s.active) <= CountActive(Next(r).active) <= CountActive(s.active) + 1
  {
    if s.spawnTimerActive && s.activeCount < cfg.maxNumberActiveMarbles then
      var timer := s.spawnDelayTimer + dt;
      if timer >= cfg.spawnDelayTime then
        if |s.queue| == 0 then Failure(EmptyQueue(s.(spawnDelayTimer := timer)))
        else
          var front := s.queue[0];
          var r := s.(active := s.active[front := true], queue := s.queue[1..], spawnDelayTimer := 0.0);
          assert Valid(s) ==> CountActive(r.active) == CountActive(s.active) + 1 by {
            if Valid(s) {
              CountAfterActivation(s.active, front);
            }
          }
          assert Valid(s) ==> Valid(r) by {
            if Valid(s) {
              forall k | 0 <= k < |r.queue|
                ensures r.queue[k] < |r.active| && !r.active[r.queue[k]]
              {
                assert r.queue[k] == s.queue[k + 1] != front;
              }
            }
          }
          Success(r)
      else
        Success(s.(spawnDelayTimer := timer))
    else
      Success(s)
  }

  /**
   * `Update`: collect, then spawn.  Whether or not the frame throws, the state
   * it leaves keeps the queue invariant, has at most one more marble in play,
   * and has dequeued at most one index.
   */
  function Update(s: Spawner, cfg: Config, dt: real): (r: Result<Spawner, SpawnError>)
    requires QueueInRange(s)
    ensures Valid(s) ==> Valid(Next(r))
    ensures Valid(s) ==>
      CountActive(s.active) <= CountActive(Next(r).active) <= CountActive(s.active) + 1
    ensures var q := Collect(s, cfg).queue;
      Next(r).queue == q || (|q| > 0 && Next(r).queue == q[1..])
    ensures r.Failure? ==> r.error.partial.spawnDelayTimer >= cfg.spawnDelayTime && r.error.partial.queue == []
  {
    UpdateMarbleSpawning(Collect(s, cfg), cfg, dt)
  }

  /**
   * With nothing queued before the frame, the front of the queue after
   * collecting is the lowest-numbered marble out of play, so it is the first
   * to come back.
   */
  lemma FrontIsLowestInactive(s: Spawner, cfg: Config, j: nat)
    requires s.queue == []
    requires CountActive(s.active) < cfg.maxNumberActiveMarbles
    requires j < |s.active| && !s.active[j]
    ensures var q := Collect(s, cfg).queue; |q| > 0 && q[0] <= j
  {
    var q := Collect(s, cfg).queue;
    assert j in q;
    var k :| 0 <= k < |q| && q[k] == j;
    assert k == 0 || q[0] < q[k];
  }

  /** With at least as many marbles as the maximum, a frame never reaches an empty queue. */
  lemma UpdateNeverThrowsWithEnoughMarbles(s: Spawner, cfg: Config, dt: real)
    requires Valid(s)
    requires |s.active| >= cfg.maxNumberActiveMarbles
    ensures Update(s, cfg, dt).Success?
  {
  }

  /**
   * With fewer marbles than the maximum the timer stays armed after the queue
   * drains.  A scene with one marble: it leaves the water, is queued, comes
   * back once the delay has passed, and the frame after that throws.
   */
  lemma EmptyQueueReachable()
    ensures
      var s1 := MarbleLeavesWater(Initial([true]), 0);
      var r2 := Update(s1, DefaultConfig, 0.0);
      var r3 := Update(Next(r2), DefaultConfig, 1.5);
      && r2 == Success(Spawner([false], [0], 0.0, true, 0))
      && r3 == Success(Spawner([true], [], 0.0, true, 0))
      && Update(Next(r3), DefaultConfig, 1.5) == Failure(EmptyQueue(Spawner([true], [], 1.5, true, 1)))
  {
    assert MarbleLeavesWater(Initial([true]), 0) == Spawner([false], [], 0.0, false, 0);
    QueuedFrame();
    RespawnFrame();
    ThrowingFrame();
  }

  /** The frame after the marble leaves: it is queued and the timer is armed. */
  lemma QueuedFrame()
    ensures Update(Spawner([false], [], 0.0, false, 0), DefaultConfig, 0.0) == Success(Spawner([false], [0], 0.0, true, 0))
  {
    assert CountActive([false]) == 0;
    assert CollectInactive([false], [], 0) == [0] by {
      assert CollectInactive([false], [0], 1) == [0];
    }
    assert Collect(Spawner([false], [], 0.0, false, 0), DefaultConfig) == Spawner([false], [0], 0.0, true, 0);
  }

  /** Once the delay has passed, the queued marble returns and the queue drains. */
  lemma RespawnFrame()
    ensures Update(Spawner([false], [0], 0.0, true, 0), DefaultConfig, 1.5) == Success(Spawner([true], [], 0.0, true, 0))
  {
    assert CountActive([false]) == 0;
    assert CollectInactive([false], [0], 0) == [0] by {
      assert CollectInactive([false], [0], 1) == [0];
    }
    assert Collect(Spawner([false], [0], 0.0, true, 0), DefaultConfig) == Spawner([false], [0], 0.0, true, 0);
    assert [false][0 := true] == [true] && [0][1..] == [];
  }

  /** The timer is still armed with nothing queued, so the next full delay throws. */
  lemma ThrowingFrame()
    ensures Update(Spawner([true], [], 0.0, true, 0), DefaultConfig, 1.5) == Failure(EmptyQueue(Spawner([true], [], 1.5, true, 1)))
  {
    assert CountActive([true]) == 1;
    assert CollectInactive([true], [], 0) == [] by {
      assert CollectInactive([true], [], 1) == [];
    }
    assert Collect(Spawner([true], [], 0.0, true, 0), DefaultConfig) == Spawner([true], [], 0.0, true, 1);
  }

  /** Collecting across a stretch of marbles in play adds nothing. */
  lemma {:induction false} SkipActive(a: seq<bool>, q: seq<nat>, j: nat, e: nat)
    requires j <= e <= |a|
    requires forall k :: j <= k < e ==> a[k]
    decreases e - j
    ensures CollectInactive(a, q, j) == CollectInactive(a, q, e)
  {
    if j < e {
      assert CollectInactive(a, q, j) == CollectInactive(a, q, j + 1);
      SkipActive(a, q, j + 1, e);
    }
  }

  /** With every marble in play there is nothing to collect. */
  lemma NothingToCollect(a: seq<bool>)
    requires forall j :: 0 <= j < |a| ==> a[j]
    ensures CollectInactive(a, [], 0) == []
  {
    SkipActive(a, [], 0, |a|);
  }

  /** With exactly one marble out of play, collecting queues exactly that marble. */
  lemma OneToCollect(a: seq<bool>, i: nat)
    requires forall j :: 0 <= j < |a| ==> a[j]
    requires i < |a|
    ensures CollectInactive(a[i := false], [], 0) == [i]
  {
    var b := a[i := false];
    SkipActive(b, [], 0, i);
    assert [] + [i] == [i];
    assert CollectInactive(b, [], i) == CollectInactive(b, [i], i + 1);
    SkipActive(b, [i], i + 1, |b|);
    assert CollectInactive(b, [i], |b|) == [i];
    assert CollectInactive(b, [], 0) == CollectInactive(b, [], i);
  }

  /**
   * A throwing frame has already moved the timer past the delay, and the
   * timer stays armed with nothing queued: as long as every marble stays in
   * play, every later frame throws again with the timer still growing.
   */
  lemma FaultRepeatsWhileAllInPlay(s: Spawner, cfg: Config, dt: real, dt2: real)
    requires QueueInRange(s)
    requires Update(s, cfg, dt).Failure?
    requires dt2 >= 0.0
    ensures var f := Update(s, cfg, dt).error.partial;
      Update(f, cfg, dt2) == Failure(EmptyQueue(f.(spawnDelayTimer := f.spawnDelayTimer + dt2)))
  {
    AllInPlayAfterFault(s, cfg, dt);
    NothingToCollect(s.active);
  }

  /**
   * After a throwing frame the next marble to leave play skips the spawn
   * delay: the frame that sees it gone queues it and brings it straight back,
   * and only then does the timer restart.
   */
  lemma RespawnWithoutDelayAfterFault(s: Spawner, cfg: Config, dt: real, i: nat, dt2: real)
    requires QueueInRange(s)
    requires Update(s, cfg, dt).Failure?
    requires i < |s.active|
    requires dt2 >= 0.0
    ensures var f := Update(s, cfg, dt).error.partial;
      Update(MarbleLeavesWater(f, i), cfg, dt2) == Success(f.(spawnDelayTimer := 0.0, activeCount := |s.active| - 1))
  {
    AllInPlayAfterFault(s, cfg, dt);
    OneToCollect(s.active, i);
    var a := s.active;
    assert a[i := false][i := true] == a;
    CountAfterActivation(a[i := false], i);
  }

  /** A frame can only throw when every marble is in play and fewer than the maximum exist. */
  lemma AllInPlayAfterFault(s: Spawner, cfg: Config, dt: real)
    requires QueueInRange(s)
    requires Update(s, cfg, dt).Failure?
    ensures forall j :: 0 <= j < |s.active| ==> s.active[j]
    ensures |s.active| < cfg.maxNumberActiveMarbles
    ensures var f := Update(s, cfg, dt).error.partial;
      && f.active == s.active && f.spawnTimerActive && f.activeCount == |s.active|
      && f.spawnDelayTimer >= cfg.spawnDelayTime && f.queue == []
  {
    var c := Collect(s, cfg);
    assert |c.queue| == 0;
    forall j | 0 <= j < |s.active| ensures s.active[j] {
    }
  }

  /** `DisableAllMarbles`: every marble out of play and the timer at zero; the queue is kept. */
  function DisableAllMarbles(s: Spawner): (r: Spawner)
    ensures |r.active| == |s.active| && forall i :: 0 <= i < |r.active| ==> !r.active[i]
    ensures r.queue == s.queue && r.spawnDelayTimer == 0.0
    ensures r.spawnTimerActive == s.spawnTimerActive && r.activeCount == s.activeCount
    ensures QueueInRange(s) && NoDuplicates(s.queue) ==> Valid(r)
  {
    s.(active := seq(|s.active|, _ => false), spawnDelayTimer := 0.0)
  }

  /** A marble leaving the water's box goes out of play; the queue invariant survives it. */
  function MarbleLeavesWater(s: Spawner, i: nat): (r: Spawner)
    requires i < |s.active|
    ensures r.active == s.active[i := false]
    ensures r.(active := s.active) == s
    ensures Valid(s) ==> Valid(r)
  {
    s.(active := s.active[i := false])
  }
}
