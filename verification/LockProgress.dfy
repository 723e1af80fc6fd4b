/** When a table lock gets stuck: every holder waits for an upgrade that nobody is left to grant. */
module LockProgress {
  import opened LockQueue
  import TP = TwoPhase

  /** Every holder waits for an upgrade, and no upgrade is granted. */
  ghost predicate Stuck(q: Queue) {
    && |q.requests| > 0
    && (forall i :: 0 <= i < |q.requests| && q.requests[i].granted ==> Has(q.upgrades, q.requests[i].tid))
    && (forall u :: 0 <= u < |q.upgrades| ==> !q.upgrades[u].granted)
  }

  /** All holders but request `k` wait for an upgrade. */
  ghost predicate OthersWait(q: Queue, k: int) {
    forall i :: 0 <= i < |q.requests| && i != k && q.requests[i].granted ==> Has(q.upgrades, q.requests[i].tid)
  }

  /** In a stuck queue nobody present can do anything; only a newcomer that gets the lock changes that. */
  lemma {:induction false} StuckStays(q: Queue, a: TP.Action, q': Queue)
    requires Inv(q) && Stuck(q) && TP.QueueStep(q, a, q')
    ensures a.Lock? && !Has(q.requests, a.t)
    ensures Stuck(q') <==> !Free(q, a.mode)
  {
    assert forall k :: !Holds(q, k);
    var o :| Requested(q, a.t, a.mode, q', o);
    RequestedExact(q, a.t, a.mode, q', o);
    RequestStuck(q, a.t, a.mode, q', o);
  }

  /** A new request leaves a queue stuck exactly if it was and the request is not granted. */
  lemma {:induction false} RequestStuck(q: Queue, t: int, m: Mode, q': Queue, o: Outcome)
    requires Inv(q) && !Has(q.requests, t) && Requested(q, t, m, q', o)
    ensures Stuck(q') <==> Stuck(q) && o != Granted
  {
    RequestedExact(q, t, m, q', o);
    var n := |q.requests|;
    if o == Granted {
      Newcomer(q, t);
      assert q'.requests[n].tid == t && q'.requests[n].granted;
    } else if o == Waiting {
      assert forall i :: 0 <= i < n ==> q'.requests[i] == q.requests[i];
    } else {
      assert Inv(q) && |q.requests| > 0;
    }
  }

  lemma {:induction false} Newcomer(q: Queue, t: int)
    requires UpgradesOk(q) && !Has(q.requests, t)
    ensures !Has(q.upgrades, t)
  {
    forall u | 0 <= u < |q.upgrades|
      ensures q.upgrades[u].tid != t
    {
      UpgradeHeld(q, u);
    }
  }

  /** An upgrade makes a queue stuck exactly if it has to wait and all other holders wait for one already. The only
      holder has to wait for its own upgrade if somebody else is in the queue. */
  lemma {:induction false} UpgradeStuck(q: Queue, k: int, q': Queue, o: Outcome)
    requires Inv(q) && Holds(q, k) && Upgraded(q, k, X, q', o)
    ensures Stuck(q') <==> o == Waiting && OthersWait(q, k)
    ensures Stuck(q') <==> (&& q.requests[k].mode == S && |q.requests| > 1 && OthersWait(q, k)
                            && forall i :: 0 <= i < |q.requests| ==> q.requests[i].tid >= q.requests[k].tid)
  {
    UpgradedExact(q, k, X, q', o);
    NoGrantedUpgrade(q, k);
    var t, n := q.requests[k].tid, |q.upgrades|;
    if o == Waiting {
      assert q'.upgrades[n].tid == t;
      forall i | 0 <= i < |q.requests| && i != k && q.requests[i].granted
        ensures Has(q'.upgrades, q.requests[i].tid) <==> Has(q.upgrades, q.requests[i].tid)
      {
        MoreUpgrades(q.upgrades, Request(t, X, false), q.requests[i].tid);
      }
    } else if o == Granted {
      assert q'.requests[k].tid == t && q'.requests[k].granted;
    }
  }

  lemma {:induction false} MoreUpgrades(us: seq<Request>, r: Request, t: int)
    requires r.tid != t
    ensures Has(us + [r], t) <==> Has(us, t)
  {
    if Has(us, t) {
      var u :| 0 <= u < |us| && us[u].tid == t;
      assert (us + [r])[u].tid == t;
    }
  }

  /** A release makes a queue stuck exactly if at least two upgrades wait and nobody else holds the lock. */
  lemma {:induction false} ReleaseStuck(q: Queue, k: int, q': Queue)
    requires Inv(q) && Holds(q, k) && Unlocked(q, k, q')
    ensures Stuck(q') <==> |q.upgrades| >= 2 && OthersWait(q, k)
  {
    hide Unlocked, Inv;
    UnlockedExact(q, k, q');
    UpgradersStay(q, k);
    assert forall t :: Has(q'.upgrades, t) <==> Has(q.upgrades, t) by {
      SameTids(q.upgrades, q'.upgrades);
    }
    if |q.upgrades| >= 2 {
      var second := q.upgrades[1];
      var i :| 0 <= i < |q.requests| && i != k && q.requests[i].granted && q.requests[i].tid == second.tid;
      assert !OnlyHolder(q, k, q.upgrades[0].tid) && !Idle(q, k);
      TwoLeft(q, k, q');
    } else {
      OneLeft(q, k, q');
    }
  }

  lemma {:induction false} SameTids(us: seq<Request>, vs: seq<Request>)
    requires |us| == |vs| && forall u :: 0 <= u < |us| ==> us[u].tid == vs[u].tid
    ensures forall t :: Has(us, t) <==> Has(vs, t)
  {
  }

  /** The transactions that wait for an upgrade hold the lock and stay. */
  lemma {:induction false} UpgradersStay(q: Queue, k: int)
    requires Inv(q) && Holds(q, k)
    ensures Distinct(q.requests) && Distinct(q.upgrades)
    ensures forall u :: 0 <= u < |q.upgrades| ==>
              exists i :: 0 <= i < |q.requests| && i != k && q.requests[i].granted
                  && q.requests[i].tid == q.upgrades[u].tid
  {
    forall u | 0 <= u < |q.upgrades|
      ensures exists i :: 0 <= i < |q.requests| && i != k && q.requests[i].granted
                && q.requests[i].tid == q.upgrades[u].tid
    {
      UpgradeHeld(q, u);
    }
  }

  lemma {:induction false} TwoLeft(q: Queue, k: int, q': Queue)
    requires Holds(q, k) && |q.upgrades| >= 2 && |q'.requests| == |q.requests| - 1 && |q'.upgrades| == |q.upgrades|
    requires exists i :: 0 <= i < |q.requests| && i != k && q.requests[i].granted
    requires forall i :: 0 <= i < |q'.requests| ==>
               var r, r' := q.requests[if i < k then i else i + 1], q'.requests[i];
               r'.tid == r.tid && (r'.granted <==> r.granted)
    requires forall u :: 0 <= u < |q.upgrades| ==> q'.upgrades[u].tid == q.upgrades[u].tid && !q'.upgrades[u].granted
    requires forall t :: Has(q'.upgrades, t) <==> Has(q.upgrades, t)
    ensures Stuck(q') <==> OthersWait(q, k)
  {
    hide Has;
    if Stuck(q') {
      forall i | 0 <= i < |q.requests| && i != k && q.requests[i].granted
        ensures Has(q.upgrades, q.requests[i].tid)
      {
        var j := if i < k then i else i - 1;
        assert q'.requests[j].tid == q.requests[i].tid && q'.requests[j].granted;
      }
    }
  }

  lemma {:induction false} OneLeft(q: Queue, k: int, q': Queue)
    requires Inv(q) && Holds(q, k) && Unlocked(q, k, q') && |q.upgrades| <= 1
    ensures !Stuck(q')
  {
    hide Unlocked;
    UnlockedInv(q, k, q');
    Passed(q, k, q');
    if |q'.requests| > 0 {
      var f :| 0 <= f < |q'.requests| && q'.requests[f].granted;
      if |q'.upgrades| == 1 && !q'.upgrades[0].granted && q'.requests[f].tid == q'.upgrades[0].tid {
        assert !Sole(q'.requests, f);
        var g :| 0 <= g < |q'.requests| && q'.requests[g].granted && g != f;
        assert q'.requests[g].tid != q'.upgrades[0].tid && !Has(q'.upgrades, q'.requests[g].tid);
      }
    }
  }

  /** In every reachable state no shared request waits while the table is held in shared mode, and a queue with requests
      has a holder. */
  lemma {:induction false} SharedGranted(states: seq<TP.Sys>, actions: seq<TP.Action>, n: int, x: TP.Name, i: int)
    requires TP.IsRun(states, actions) && 0 <= n < |states|
    requires var q := TP.QueueOf(states[n], x); 0 <= i < |q.requests| && !q.requests[i].granted
    ensures var q := TP.QueueOf(states[n], x);
            && (exists j :: 0 <= j < |q.requests| && q.requests[j].granted)
            && (q.group == Held(S) ==> q.requests[i].mode == X)
  {
    hide TP.IsRun;
    TP.RunInv(states, actions, n);
    assert Inv(TP.QueueOf(states[n], x));
  }

  // ------------------------------------------------------------- a run that gets stuck

  /** Transaction 3 waits behind reader 5 for the exclusive lock, reader 1 overtakes it, and 5 releases: 1 is the only
      holder, and its upgrade waits for ever, because 3 is in the queue. */
  lemma {:induction false} StrandedUpgrade(x: TP.Name) returns (states: seq<TP.Sys>, actions: seq<TP.Action>)
    ensures TP.IsRun(states, actions)
    ensures var q := TP.QueueOf(states[|states| - 1], x);
            Stuck(q) && q.requests == [Request(3, X, false), Request(1, S, true)]
                && q.upgrades == [Request(1, X, false)]
  {
    hide TP.Step, TP.Running, Unlocked, Upgraded, Holds, TP.WaitsIn;
    actions := [TP.Lock(5, x, S), TP.Lock(3, x, X), TP.Lock(1, x, S), TP.Finish(5), TP.Release(5, x), TP.Lock(1, x, X)];
    var e := Queue([], [], NonLock);
    var q1 := Queue([Request(5, S, true)], [], Held(S));
    var q2 := Queue([Request(5, S, true), Request(3, X, false)], [], Held(S));
    var q3 := Queue([Request(5, S, true), Request(3, X, false), Request(1, S, true)], [], Held(S));
    var q5 := Queue([Request(3, X, false), Request(1, S, true)], [], Held(S));
    var q6 := Queue([Request(3, X, false), Request(1, S, true)], [Request(1, X, false)], Held(S));
    var s0 := TP.Init();
    var s1, s2, s3 := TP.Sys(map[x := q1], {}, []), TP.Sys(map[x := q2], {}, []), TP.Sys(map[x := q3], {}, []);
    var s4 := TP.Sys(map[x := q3], {5}, [TP.End(5)]);
    var s5, s6 := TP.Sys(map[x := q5], {5}, [TP.End(5)]), TP.Sys(map[x := q6], {5}, [TP.End(5)]);
    states := [s0, s1, s2, s3, s4, s5, s6];
    FirstSteps(s0, s1, s2, s3, x, e, q1, q2, q3);
    FinishStep(s3, s4, x, q3);
    Released(q3, q5);
    ReleaseStep(s4, s5, x, q3, 0, 5, q5);
    Waits(q5, q6);
    Runs(s5, x, q5, 1);
    UpgradeStep(s5, s6, x, q5, 1, 1, q6, Waiting);
    assert q6.upgrades[0].tid == 1;
  }

  /** A transaction that waits nowhere runs. */
  lemma {:induction false} Runs(s: TP.Sys, x: TP.Name, q: Queue, t: int)
    requires s.queues.Keys <= {x} && TP.QueueOf(s, x) == q && t !in s.ended && !TP.WaitsIn(q, t)
    ensures TP.Running(s, t)
  {
    assert !TP.WaitsIn(Queue([], [], NonLock), t);
  }

  lemma {:induction false} RequestStep(
      s: TP.Sys, s': TP.Sys, x: TP.Name, q: Queue, q': Queue, t: int, m: Mode, o: Outcome)
    requires s.queues.Keys <= {x} && TP.QueueOf(s, x) == q && t !in s.ended && !TP.WaitsIn(q, t)
    requires !Has(q.requests, t) && Requested(q, t, m, q', o) && s' == s.(queues := map[x := q'])
    ensures TP.Step(s, TP.Lock(t, x, m), s')
  {
    hide Requested, Has, TP.WaitsIn;
    Runs(s, x, q, t);
    assert s.queues[x := q'] == map[x := q'];
  }

  lemma {:induction false} FirstSteps(
      s0: TP.Sys, s1: TP.Sys, s2: TP.Sys, s3: TP.Sys, x: TP.Name, e: Queue, q1: Queue, q2: Queue, q3: Queue)
    requires e == Queue([], [], NonLock) && q1 == Queue([Request(5, S, true)], [], Held(S))
    requires q2 == Queue([Request(5, S, true), Request(3, X, false)], [], Held(S))
    requires q3 == Queue([Request(5, S, true), Request(3, X, false), Request(1, S, true)], [], Held(S))
    requires s0 == TP.Init() && s1 == TP.Sys(map[x := q1], {}, [])
    requires s2 == TP.Sys(map[x := q2], {}, []) && s3 == TP.Sys(map[x := q3], {}, [])
    ensures TP.Step(s0, TP.Lock(5, x, S), s1) && TP.Step(s1, TP.Lock(3, x, X), s2) && TP.Step(s2, TP.Lock(1, x, S), s3)
  {
    hide TP.Step;
    RequestStep(s0, s1, x, e, q1, 5, S, Granted);
    RequestStep(s1, s2, x, q1, q2, 3, X, Waiting);
    RequestStep(s2, s3, x, q2, q3, 1, S, Granted);
  }

  lemma {:induction false} FinishStep(s: TP.Sys, s': TP.Sys, x: TP.Name, q: Queue)
    requires q == Queue([Request(5, S, true), Request(3, X, false), Request(1, S, true)], [], Held(S))
    requires s == TP.Sys(map[x := q], {}, []) && s' == TP.Sys(map[x := q], {5}, [TP.End(5)])
    ensures TP.Step(s, TP.Finish(5), s')
  {
    Runs(s, x, q, 5);
    assert s'.ended == s.ended + {5};
  }

  lemma {:induction false} ReleaseStep(s: TP.Sys, s': TP.Sys, x: TP.Name, q: Queue, k: int, t: int, q': Queue)
    requires s.queues == map[x := q] && t in s.ended && s' == s.(queues := map[x := q'])
    requires Holds(q, k) && q.requests[k].tid == t && Unlocked(q, k, q')
    ensures TP.Step(s, TP.Release(t, x), s')
  {
    hide Unlocked, Holds;
    assert TP.QueueStep(q, TP.Release(t, x), q');
    assert s.queues[x := q'] == s'.queues;
  }

  lemma {:induction false} Released(q: Queue, q': Queue)
    requires q == Queue([Request(5, S, true), Request(3, X, false), Request(1, S, true)], [], Held(S))
    requires q' == Queue([Request(3, X, false), Request(1, S, true)], [], Held(S))
    ensures Holds(q, 0) && q.requests[0].tid == 5 && Unlocked(q, 0, q')
  {
    assert Without(q.requests, 0) == q'.requests && q'.requests[1].granted;
  }

  lemma {:induction false} UpgradeStep(
      s: TP.Sys, s': TP.Sys, x: TP.Name, q: Queue, k: int, t: int, q': Queue, o: Outcome)
    requires s.queues == map[x := q] && TP.Running(s, t) && s' == s.(queues := map[x := q'])
    requires Holds(q, k) && q.requests[k].tid == t && Upgraded(q, k, X, q', o)
    ensures TP.Step(s, TP.Lock(t, x, X), s')
  {
    hide Upgraded, TP.Running;
    assert TP.QueueStep(q, TP.Lock(t, x, X), q');
    assert s.queues[x := q'] == s'.queues;
  }

  lemma {:induction false} Waits(q: Queue, q': Queue)
    requires q == Queue([Request(3, X, false), Request(1, S, true)], [], Held(S))
    requires q' == Queue([Request(3, X, false), Request(1, S, true)], [Request(1, X, false)], Held(S))
    ensures Holds(q, 1) && q.requests[1].tid == 1 && Upgraded(q, 1, X, q', Waiting) && !TP.WaitsIn(q, 1)
  {
  }
}
