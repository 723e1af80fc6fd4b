/** The request queue of one table: shared and exclusive requests, upgrades, wait-die. */
module LockQueue {

  datatype Mode = S | X
  datatype Group = NonLock | Held(mode: Mode)
  datatype Request = Request(tid: int, mode: Mode, granted: bool)
  datatype Queue = Queue(requests: seq<Request>, upgrades: seq<Request>, group: Group)
  datatype Outcome = Granted | Waiting | Died

  /** The lock matrix on the modes that tables are locked in. */
  predicate Compatible(g: Group, m: Mode) {
    g.NonLock? || (g.mode == S && m == S)
  }

  // ------------------------------------------------------------- searching a queue

  ghost predicate Has(rs: seq<Request>, t: int) {
    exists i :: 0 <= i < |rs| && rs[i].tid == t
  }

  ghost predicate Distinct(rs: seq<Request>) {
    forall i, j :: 0 <= i < j < |rs| ==> rs[i].tid != rs[j].tid
  }

  ghost predicate SomeGranted(rs: seq<Request>) {
    exists i :: 0 <= i < |rs| && rs[i].granted
  }

  /** The only granted request. */
  ghost predicate Sole(rs: seq<Request>, k: int) {
    0 <= k < |rs| && rs[k].granted && forall i :: 0 <= i < |rs| && rs[i].granted ==> i == k
  }

  /** check_wait_die: an older transaction has a request here. */
  ghost predicate Dies(rs: seq<Request>, t: int) {
    exists i :: 0 <= i < |rs| && rs[i].tid < t
  }

  function Without(rs: seq<Request>, k: int): (r: seq<Request>)
    requires 0 <= k < |rs|
    ensures |r| == |rs| - 1 && forall i :: 0 <= i < |r| ==> r[i] == rs[if i < k then i else i + 1]
  {
    rs[..k] + rs[k + 1..]
  }

  /** Every shared request granted. */
  function ShareAll(rs: seq<Request>): (r: seq<Request>)
    ensures |r| == |rs|
    ensures forall i :: 0 <= i < |r| ==> r[i] == if rs[i].mode == S then rs[i].(granted := true) else rs[i]
  {
    seq(|rs|, i requires 0 <= i < |rs| => if rs[i].mode == S then rs[i].(granted := true) else rs[i])
  }

  // ------------------------------------------------------------- the steps

  /** A transaction without a request asks for the lock. */
  ghost predicate Requested(q: Queue, t: int, m: Mode, q': Queue, o: Outcome) {
    if Compatible(q.group, m) then
      o == Granted && q' == q.(requests := q.requests + [Request(t, m, true)], group := Held(m))
    else if Dies(q.requests, t) then o == Died && q' == q
    else o == Waiting && q' == q.(requests := q.requests + [Request(t, m, false)])
  }

  /** The holder of request `k` asks for mode `m`. */
  ghost predicate Upgraded(q: Queue, k: int, m: Mode, q': Queue, o: Outcome) {
    && 0 <= k < |q.requests|
    && var t := q.requests[k].tid;
    if q.requests[k].mode == X || m == S then o == Granted && q' == q
    else if Dies(q.requests, t) then o == Died && q' == q
    else if |q.requests| == 1 || Compatible(q.group, m) then
      o == Granted && q' == q.(requests := q.requests[k := Request(t, m, true)], group := Held(X))
    else o == Waiting && q' == q.(upgrades := q.upgrades + [Request(t, m, false)])
  }

  /** The transaction of request `k` finds the upgrade `u` it waits for granted. */
  ghost predicate Woken(q: Queue, k: int, u: int, q': Queue) {
    && 0 <= k < |q.requests| && 0 <= u < |q.upgrades|
    && q.requests[k].tid == q.upgrades[u].tid && q.upgrades[u].granted
    && q' == q.(requests := q.requests[k := q.requests[k].(mode := q.upgrades[u].mode)],
         upgrades := Without(q.upgrades, u))
  }

  /** Request `k` is given up. */
  ghost predicate Unlocked(q: Queue, k: int, q': Queue) {
    && 0 <= k < |q.requests|
    && var rs := Without(q.requests, k);
    if |rs| == 0 then q' == q.(requests := rs, group := NonLock)
    else if !SomeGranted(rs) then
      q' == q.(requests := if rs[0].mode == X then rs[0 := rs[0].(granted := true)] else ShareAll(rs),
               group := Held(rs[0].mode))
    else if |q.upgrades| > 0 && (exists f :: Sole(rs, f) && rs[f].tid == q.upgrades[0].tid) then
      q' == Queue(rs, q.upgrades[0 := q.upgrades[0].(granted := true)], Held(q.upgrades[0].mode))
    else q' == q.(requests := rs)
  }

  // ------------------------------------------------------------- the invariant

  ghost predicate UpgradesOk(q: Queue) {
    && Distinct(q.upgrades)
    && (forall u :: 0 <= u < |q.upgrades| ==> q.upgrades[u].mode == X && (q.upgrades[u].granted ==> u == 0))
    && (forall u :: 0 <= u < |q.upgrades| ==> HoldsShared(q.requests, q.upgrades[u].tid))
  }

  ghost predicate HoldsShared(rs: seq<Request>, t: int) {
    exists i :: 0 <= i < |rs| && rs[i].tid == t && rs[i].granted && rs[i].mode == S
  }

  /** At most one request per transaction; a nonempty queue has a granted request; the group mode is the mode
      of the granted set; under shared mode no shared request waits; and an exclusive grant, be it by request or by
      upgrade, excludes every other. */
  ghost predicate Inv(q: Queue) {
    && Distinct(q.requests) && UpgradesOk(q)
    && (q.group.NonLock? <==> |q.requests| == 0)
    && (|q.requests| > 0 ==> SomeGranted(q.requests))
    && (q.group == Held(S) ==>
          && (forall i :: 0 <= i < |q.requests| && q.requests[i].granted ==> q.requests[i].mode == S)
          && (forall i :: 0 <= i < |q.requests| && q.requests[i].mode == S ==> q.requests[i].granted)
          && (forall u :: 0 <= u < |q.upgrades| ==> !q.upgrades[u].granted))
    && (q.group == Held(X) ==>
          exists k :: Sole(q.requests, k) &&
            if q.requests[k].mode == X then |q.upgrades| == 0
            else |q.upgrades| > 0 && q.upgrades[0].granted && q.upgrades[0].tid == q.requests[k].tid)
  }

  /** The transaction of request `k` is running: it holds the lock and does not wait for an upgrade. */
  ghost predicate Holds(q: Queue, k: int) {
    0 <= k < |q.requests| && q.requests[k].granted && !Has(q.upgrades, q.requests[k].tid)
  }

  lemma InvInit()
    ensures Inv(Queue([], [], NonLock))
  {
  }

  lemma {:induction false} InvFacts(q: Queue)
    requires Inv(q)
    ensures Distinct(q.requests)
    ensures q.group == Held(S) ==>
              forall i :: 0 <= i < |q.requests| && q.requests[i].mode == S ==> q.requests[i].granted
  {
  }

  lemma {:induction false} UpgradeHeld(q: Queue, u: int)
    requires UpgradesOk(q) && 0 <= u
    ensures u < |q.upgrades| ==>
              exists i :: 0 <= i < |q.requests| && q.requests[i].tid == q.upgrades[u].tid && q.requests[i].granted
  {
    if u < |q.upgrades| {
      assert HoldsShared(q.requests, q.upgrades[u].tid);
    }
  }

  lemma {:induction false} RequestedInv(q: Queue, t: int, m: Mode, q': Queue, o: Outcome)
    requires Inv(q) && !Has(q.requests, t) && Requested(q, t, m, q', o)
    ensures Inv(q')
  {
    if o != Died {
      var r := Request(t, m, o == Granted);
      assert q'.requests == q.requests + [r] && q'.upgrades == q.upgrades;
      Appended(q.requests, r);
      if o == Granted {
        assert q'.requests[|q.requests|].granted;
        UpgradeHeld(q, 0);
        assert m == X ==> Sole(q'.requests, 0);
      } else if q.group == Held(X) {
        var k :| Sole(q.requests, k);
        assert Sole(q'.requests, k);
      }
    }
  }

  lemma {:induction false} Appended(rs: seq<Request>, r: Request)
    ensures SomeGranted(rs) ==> SomeGranted(rs + [r])
    ensures forall t :: HoldsShared(rs, t) ==> HoldsShared(rs + [r], t)
  {
    if SomeGranted(rs) {
      var i :| 0 <= i < |rs| && rs[i].granted;
      assert (rs + [r])[i].granted;
    }
    forall t | HoldsShared(rs, t)
      ensures HoldsShared(rs + [r], t)
    {
      var i :| 0 <= i < |rs| && rs[i].tid == t && rs[i].granted && rs[i].mode == S;
      assert (rs + [r])[i].tid == t;
    }
  }

  lemma {:induction false} UpgradedInv(q: Queue, k: int, m: Mode, q': Queue, o: Outcome)
    requires Inv(q) && Holds(q, k) && Upgraded(q, k, m, q', o)
    ensures Inv(q')
  {
    var t := q.requests[k].tid;
    if q'.requests != q.requests {
      assert q.group == Held(S) && |q.requests| == 1;
      UpgradeHeld(q, 0);
      assert Sole(q'.requests, 0);
    } else if o == Waiting {
      assert HoldsShared(q.requests, t) by { assert q.requests[k].tid == t; }
      assert q.group == Held(S);
    }
  }

  lemma {:induction false} WokenInv(q: Queue, k: int, u: int, q': Queue)
    requires Inv(q) && Woken(q, k, u, q')
    ensures Inv(q')
  {
    var s :| Sole(q.requests, s);
    assert HoldsShared(q.requests, q.upgrades[u].tid);
    assert s == k;
    UpgradeHeld(q, 0);
    UpgradeHeld(q, 1);
    assert |q.upgrades| == 1;
    assert Sole(q'.requests, k);
  }

  lemma {:induction false} UnlockedInv(q: Queue, k: int, q': Queue)
    requires Inv(q) && Holds(q, k) && Unlocked(q, k, q')
    ensures Inv(q')
  {
    var rs := Without(q.requests, k);
    Remaining(q, k);
    if |rs| == 0 {
    } else if !SomeGranted(rs) {
      UnlockNext(q, k, q');
    } else if |q.upgrades| > 0 && exists f :: Sole(rs, f) && rs[f].tid == q.upgrades[0].tid {
      var f :| Sole(rs, f) && rs[f].tid == q.upgrades[0].tid;
      assert Sole(q'.requests, f) && HoldsShared(rs, q.upgrades[0].tid);
    }
  }

  lemma {:induction false} Remaining(q: Queue, k: int)
    requires Inv(q) && Holds(q, k)
    ensures var rs := Without(q.requests, k);
            && Distinct(rs) && (forall u :: 0 <= u < |q.upgrades| ==> HoldsShared(rs, q.upgrades[u].tid))
            && (SomeGranted(rs) ==> q.group == Held(S) && forall i :: 0 <= i < |rs| && rs[i].granted ==>
                  rs[i].mode == S)
            && (!SomeGranted(rs) ==> |q.upgrades| == 0)
  {
    var rs := Without(q.requests, k);
    forall u | 0 <= u < |q.upgrades|
      ensures HoldsShared(rs, q.upgrades[u].tid) && SomeGranted(rs)
    {
      var t := q.upgrades[u].tid;
      assert HoldsShared(q.requests, t);
      var i :| 0 <= i < |q.requests| && q.requests[i].tid == t && q.requests[i].granted && q.requests[i].mode == S;
      assert i != k;
      assert rs[if i < k then i else i - 1] == q.requests[i];
    }
    assert |q.upgrades| > 0 ==> HoldsShared(rs, q.upgrades[0].tid);
    assert q.group == Held(S) || q.group == Held(X)
           by { assert q.group.Held? && (q.group.mode == S || q.group.mode == X); }
    if q.group == Held(X) {
      var s :| Sole(q.requests, s);
      assert s == k;
      assert forall i :: 0 <= i < |rs| ==> !rs[i].granted;
    }
  }

  lemma {:induction false} UnlockNext(q: Queue, k: int, q': Queue)
    requires Inv(q) && Holds(q, k) && Unlocked(q, k, q')
    requires var rs := Without(q.requests, k); |rs| > 0 && !SomeGranted(rs) && Distinct(rs) && |q.upgrades| == 0
    ensures Inv(q')
  {
    var rs := Without(q.requests, k);
    assert q'.requests[0].granted;
    if rs[0].mode == X {
      assert Sole(q'.requests, 0);
    }
  }

  // ------------------------------------------------------------- what the invariant gives

  /** The mode in which request `k` holds the table. */
  ghost predicate HoldsMode(q: Queue, t: int, m: Mode) {
    exists k :: 0 <= k < |q.requests| && q.requests[k].tid == t && q.requests[k].granted
        && (m == S || q.requests[k].mode == X)
  }

  /** An exclusive holder is the only holder. */
  lemma {:induction false} MutualExclusion(q: Queue, t: int, u: int)
    requires Inv(q) && HoldsMode(q, t, X) && HoldsMode(q, u, S)
    ensures t == u
  {
    var k :| 0 <= k < |q.requests| && q.requests[k].tid == t && q.requests[k].granted && q.requests[k].mode == X;
    var l :| 0 <= l < |q.requests| && q.requests[l].tid == u && q.requests[l].granted;
    assert q.group == Held(X);
    var s :| Sole(q.requests, s);
  }

  // ------------------------------------------------------------- the steps in terms of the requests alone

  /** No request is granted that excludes one in mode `m`, and no upgrade is. */
  ghost predicate Free(q: Queue, m: Mode) {
    && (forall i :: 0 <= i < |q.requests| && q.requests[i].granted ==> m == S && q.requests[i].mode == S)
    && (forall u :: 0 <= u < |q.upgrades| ==> !q.upgrades[u].granted)
  }

  lemma {:induction false} FreeGroup(q: Queue, m: Mode)
    requires Inv(q)
    ensures Compatible(q.group, m) <==> Free(q, m)
  {
    if q.group == Held(X) {
      var k :| Sole(q.requests, k);
    } else if q.group == Held(S) {
      assert SomeGranted(q.requests);
    } else {
      assert |q.requests| == 0 && q.group.NonLock?;
      UpgradeHeld(q, 0);
    }
  }

  /** A request is granted exactly if nothing granted excludes it, and otherwise dies exactly if an older transaction
      has a request in the queue; it goes to the end, and nothing else changes. */
  lemma {:induction false} RequestedExact(q: Queue, t: int, m: Mode, q': Queue, o: Outcome)
    requires Inv(q) && Requested(q, t, m, q', o)
    ensures o == Granted <==> Free(q, m)
    ensures o == Died <==> !Free(q, m) && exists i :: 0 <= i < |q.requests| && q.requests[i].tid < t
    ensures q'.upgrades == q.upgrades
    ensures q'.requests == if o == Died then q.requests else q.requests + [Request(t, m, o == Granted)]
  {
    FreeGroup(q, m);
  }

  /** An upgrade of a shared lock dies exactly if an older transaction has a request in the queue, is granted exactly if
      the request is alone in the queue, and otherwise waits at the end of the upgrades. */
  lemma {:induction false} UpgradedExact(q: Queue, k: int, m: Mode, q': Queue, o: Outcome)
    requires Inv(q) && Holds(q, k) && Upgraded(q, k, m, q', o)
    ensures q.requests[k].mode == X || m == S ==> o == Granted && q' == q
    ensures q.requests[k].mode == S && m == X ==>
              var t := q.requests[k].tid; var older := exists i :: 0 <= i < |q.requests| && q.requests[i].tid < t;
              && (o == Died <==> older) && (o == Granted <==> !older && |q.requests| == 1)
              && q'.requests == (if o == Granted then [Request(t, X, true)] else q.requests)
              && q'.upgrades == (if o == Waiting then q.upgrades + [Request(t, X, false)] else q.upgrades)
  {
    FreeGroup(q, X);
    assert !Free(q, X);
  }

  /** Releasing takes one request out and keeps the others in order and with what they hold. If one of them holds the
      lock, nobody else gets it; the first upgrade is granted exactly if its transaction is the only holder left. If
      nobody holds it, the front gets it, and with a shared front all shared requests do. */
  lemma {:induction false} UnlockedExact(q: Queue, k: int, q': Queue)
    requires Inv(q) && Holds(q, k) && Unlocked(q, k, q')
    ensures |q'.requests| == |q.requests| - 1 && |q'.upgrades| == |q.upgrades|
    ensures forall i :: 0 <= i < |q'.requests| ==>
              var r, r' := q.requests[if i < k then i else i + 1], q'.requests[i];
              && r'.tid == r.tid && r'.mode == r.mode
              && (r'.granted <==> r.granted || (Idle(q, k) && (i == 0 || (r.mode == S && q'.requests[0].mode == S))))
    ensures forall u :: 0 <= u < |q.upgrades| ==>
              && q'.upgrades[u].tid == q.upgrades[u].tid && q'.upgrades[u].mode == q.upgrades[u].mode
              && (q'.upgrades[u].granted <==> u == 0 && OnlyHolder(q, k, q.upgrades[0].tid))
  {
    var rs := Without(q.requests, k);
    Remaining(q, k);
    IdleWithout(q, k);
    NoGrantedUpgrade(q, k);
    OnlyIsSole(q, k);
    if |rs| > 0 && !SomeGranted(rs) {
      assert Idle(q, k);
    }
  }

  /** If the transaction of the first upgrade is the only holder left, the upgrade is granted. */
  lemma {:induction false} Passed(q: Queue, k: int, q': Queue)
    requires Inv(q) && Holds(q, k) && Unlocked(q, k, q')
    ensures |q'.requests| == |q.requests| - 1 && |q'.upgrades| == |q.upgrades|
    ensures forall i :: 0 <= i < |q'.requests| ==> q'.requests[i].tid != q.requests[k].tid
    ensures forall f :: Sole(q'.requests, f) && |q'.upgrades| > 0 && q'.requests[f].tid == q'.upgrades[0].tid ==>
              q'.upgrades[0].granted
  {
    var rs := Without(q.requests, k);
    Remaining(q, k);
    forall i | 0 <= i < |q'.requests|
      ensures q'.requests[i].tid != q.requests[k].tid
    {
      assert rs[i] == q.requests[if i < k then i else i + 1];
    }
  }

  /** Nobody but request `k` holds the lock. */
  ghost predicate Idle(q: Queue, k: int) {
    forall i :: 0 <= i < |q.requests| && i != k ==> !q.requests[i].granted
  }

  /** But for request `k`, transaction `t` is the only holder. */
  ghost predicate OnlyHolder(q: Queue, k: int, t: int) {
    && (exists i :: 0 <= i < |q.requests| && i != k && q.requests[i].granted)
    && (forall i :: 0 <= i < |q.requests| && i != k && q.requests[i].granted ==> q.requests[i].tid == t)
  }

  lemma {:induction false} IdleWithout(q: Queue, k: int)
    requires 0 <= k < |q.requests|
    ensures Idle(q, k) <==> !SomeGranted(Without(q.requests, k))
  {
    var rs := Without(q.requests, k);
    forall i | 0 <= i < |q.requests| && i != k && q.requests[i].granted
      ensures SomeGranted(rs)
    {
      assert rs[if i < k then i else i - 1] == q.requests[i];
    }
  }

  /** While a holder is not waiting for an upgrade, no upgrade is granted. */
  lemma {:induction false} NoGrantedUpgrade(q: Queue, k: int)
    requires Inv(q) && Holds(q, k)
    ensures forall u :: 0 <= u < |q.upgrades| ==> !q.upgrades[u].granted
  {
    if q.group == Held(X) {
      var s :| Sole(q.requests, s);
      assert s == k;
    }
  }

  lemma {:induction false} OnlyIsSole(q: Queue, k: int)
    requires Distinct(q.requests) && 0 <= k < |q.requests|
    ensures var rs := Without(q.requests, k);
            forall t :: OnlyHolder(q, k, t) <==> exists f :: Sole(rs, f) && rs[f].tid == t
  {
    hide OnlyHolder, Without;
    var rs := Without(q.requests, k);
    forall t
      ensures OnlyHolder(q, k, t) <==> exists f :: Sole(rs, f) && rs[f].tid == t
    {
      if OnlyHolder(q, k, t) {
        var f := SoleLeft(q, k, t);
      }
      if f :| Sole(rs, f) && rs[f].tid == t {
        OnlyLeft(q, k, f);
      }
    }
  }

  lemma {:induction false} SoleLeft(q: Queue, k: int, t: int) returns (f: int)
    requires Distinct(q.requests) && 0 <= k < |q.requests| && OnlyHolder(q, k, t)
    ensures Sole(Without(q.requests, k), f) && Without(q.requests, k)[f].tid == t
  {
    var rs := Without(q.requests, k);
    var i :| 0 <= i < |q.requests| && i != k && q.requests[i].granted;
    f := if i < k then i else i - 1;
    assert rs[f] == q.requests[i];
    forall j | 0 <= j < |rs| && rs[j].granted
      ensures j == f
    {
      var l := if j < k then j else j + 1;
      assert q.requests[l] == rs[j] && q.requests[l].tid == t;
    }
  }

  lemma {:induction false} OnlyLeft(q: Queue, k: int, f: int)
    requires 0 <= k < |q.requests| && Sole(Without(q.requests, k), f)
    ensures OnlyHolder(q, k, Without(q.requests, k)[f].tid)
  {
    var rs := Without(q.requests, k);
    var i := if f < k then f else f + 1;
    assert q.requests[i] == rs[f];
    forall j | 0 <= j < |q.requests| && j != k && q.requests[j].granted
      ensures q.requests[j].tid == rs[f].tid
    {
      assert rs[if j < k then j else j - 1] == q.requests[j];
    }
  }

  // ------------------------------------------------------------- exclusive requests only

  ghost predicate Descending(q: Queue) {
    && (forall i :: 0 <= i < |q.requests| ==> q.requests[i].mode == X && (q.requests[i].granted <==> i == 0))
    && (forall i, j :: 0 <= i < j < |q.requests| ==> q.requests[i].tid > q.requests[j].tid)
    && |q.upgrades| == 0
  }

  /** With exclusive requests only, the queue descends strictly from the holder at the front. */
  lemma {:induction false} ExclusiveDescending(q: Queue, t: int, q': Queue, o: Outcome)
    requires Inv(q) && Descending(q) && !Has(q.requests, t) && Requested(q, t, X, q', o)
    ensures Descending(q')
  {
    if o == Waiting {
      forall i | 0 <= i < |q.requests|
        ensures q.requests[i].tid > t
      {
        assert !(q.requests[i].tid < t) && q.requests[i].tid != t;
      }
    }
  }

  lemma {:induction false} UnlockDescending(q: Queue, k: int, q': Queue)
    requires Inv(q) && Descending(q) && Holds(q, k) && Unlocked(q, k, q')
    ensures Descending(q')
  {
    var rs := Without(q.requests, k);
    assert k == 0 && forall i :: 0 <= i < |rs| ==> !rs[i].granted;
  }

  // ------------------------------------------------------------- the queue object

  class LockRequestQueue {
    var requests: seq<Request>
    var upgrades: seq<Request>
    var group: Group

    ghost function Value(): Queue
      reads this
    {
      Queue(requests, upgrades, group)
    }

    constructor ()
      ensures Value() == Queue([], [], NonLock)
    {
      requests, upgrades, group := [], [], NonLock;
    }

    method CheckWaitDie(t: int) returns (dies: bool)
      ensures dies <==> Dies(requests, t)
    {
      var i := 0;
      while i < |requests|
        invariant 0 <= i <= |requests| && forall j :: 0 <= j < i ==> requests[j].tid >= t
      {
        if requests[i].tid < t {
          return true;
        }
        i := i + 1;
      }
      return false;
    }

    /** The part of a lock request up to the wait. */
    method CheckAndExecuteLock(t: int, m: Mode) returns (o: Outcome)
      requires Inv(Value()) && !Has(requests, t)
      modifies this
      ensures Requested(old(Value()), t, m, Value(), o) && Inv(Value())
      ensures o == Granted <==> old(Free(Value(), m))
      ensures o == Died <==> !old(Free(Value(), m)) && exists i :: 0 <= i < old(|requests|) && old(requests)[i].tid < t
      ensures requests == if o == Died then old(requests) else old(requests) + [Request(t, m, o == Granted)]
      ensures upgrades == old(upgrades)
    {
      ghost var q := Value();
      if !Compatible(group, m) {
        var dies := CheckWaitDie(t);
        if dies {
          return Died;
        }
        requests := requests + [Request(t, m, false)];
        o := Waiting;
      } else {
        requests := requests + [Request(t, m, true)];
        group := Held(m);
        o := Granted;
      }
      RequestedInv(q, t, m, Value(), o);
      RequestedExact(q, t, m, Value(), o);
    }

    method Find(t: int) returns (k: int)
      requires Has(requests, t) && Distinct(requests)
      ensures 0 <= k < |requests| && requests[k].tid == t
    {
      k := 0;
      while requests[k].tid != t
        invariant 0 <= k < |requests| && exists j :: k <= j < |requests| && requests[j].tid == t
        decreases |requests| - k
      {
        k := k + 1;
      }
    }

    /** The part of an upgrade up to the wait. */
    method UpgradeLock(t: int, m: Mode) returns (o: Outcome)
      requires Inv(Value()) && exists k :: Holds(Value(), k) && requests[k].tid == t
      modifies this
      ensures exists k :: Upgraded(old(Value()), k, m, Value(), o) && old(requests[k].tid) == t
      ensures Inv(Value())
      ensures old(HoldsMode(Value(), t, X)) || m == S ==> o == Granted && Value() == old(Value())
      ensures !old(HoldsMode(Value(), t, X)) && m == X ==>
                && (o == Died <==> exists i :: 0 <= i < old(|requests|) && old(requests)[i].tid < t)
                && (o == Granted <==> o != Died && old(|requests|) == 1)
                && requests == (if o == Granted then [Request(t, X, true)] else old(requests))
                && upgrades == (if o == Waiting then old(upgrades) + [Request(t, X, false)] else old(upgrades))
    {
      ghost var q := Value();
      ghost var h :| Holds(q, h) && requests[h].tid == t;
      var k := Find(t);
      assert k == h;
      if requests[k].mode == X || m == S {
        assert Upgraded(q, k, m, Value(), Granted);
        return Granted;
      }
      var dies := CheckWaitDie(t);
      if dies {
        assert Upgraded(q, k, m, Value(), Died);
        return Died;
      }
      if |requests| == 1 || Compatible(group, m) {
        requests := requests[k := Request(t, m, true)];
        group := Held(X);
        o := Granted;
      } else {
        upgrades := upgrades + [Request(t, m, false)];
        o := Waiting;
      }
      assert Upgraded(q, k, m, Value(), o);
      UpgradedInv(q, k, m, Value(), o);
    }

    /** The part of an upgrade behind the wait. */
    method FinishUpgrade(t: int, ghost u: int)
      requires Inv(Value()) && 0 <= u < |upgrades| && upgrades[u].tid == t && upgrades[u].granted
      modifies this
      ensures Inv(Value()) && exists k :: Woken(old(Value()), k, u, Value()) && old(requests[k].tid) == t
      ensures upgrades == [] && |requests| == old(|requests|)
      ensures forall i :: 0 <= i < |requests| ==>
                requests[i] == if old(requests)[i].tid == t then Request(t, X, true) else old(requests)[i]
    {
      ghost var q := Value();
      assert HoldsShared(requests, upgrades[u].tid);
      var k := Find(t);
      requests := requests[k := requests[k].(mode := upgrades[0].mode)];
      upgrades := Without(upgrades, 0);
      assert Woken(q, k, u, Value());
      WokenInv(q, k, u, Value());
    }

    /** Gives up the request of `t` and passes the lock on. */
    method Unlock(t: int)
      requires Inv(Value()) && exists k :: Holds(Value(), k) && requests[k].tid == t
      modifies this
      ensures exists k :: Unlocked(old(Value()), k, Value()) && old(requests[k].tid) == t
      ensures Inv(Value())
      ensures |requests| == old(|requests|) - 1 && (forall i :: 0 <= i < |requests| ==> requests[i].tid != t)
      ensures |upgrades| == old(|upgrades|)
      ensures forall k :: (&& 0 <= k < |requests| && |upgrades| > 0 && requests[k].tid == upgrades[0].tid
                           && forall i :: 0 <= i < |requests| ==> (requests[i].granted <==> i == k)) ==>
                upgrades[0].granted
      ensures group == Held(S) ==> forall i :: 0 <= i < |requests| && requests[i].mode == S ==> requests[i].granted
    {
      hide Inv, Unlocked;
      ghost var q := Value();
      ghost var h :| Holds(q, h) && requests[h].tid == t;
      InvFacts(q);
      var k := Find(t);
      assert k == h;
      requests := Without(requests, k);
      PassOn(q, k);
      UnlockedInv(q, k, Value());
      Passed(q, k, Value());
      InvFacts(Value());
    }

    /** The lock is passed on after request `k` has been taken out. */
    method PassOn(ghost q: Queue, ghost k: int)
      requires 0 <= k < |q.requests| && Value() == q.(requests := Without(q.requests, k))
      modifies this
      ensures Unlocked(q, k, Value())
    {
      var first := FirstGranted(0);
      if |requests| == 0 {
        group := NonLock;
      } else if first == |requests| {
        group := Held(requests[0].mode);
        if group == Held(X) {
          requests := requests[0 := requests[0].(granted := true)];
        } else {
          assert requests[0].mode.S?;
          GrantShared();
        }
      } else if |upgrades| > 0 && requests[first].tid == upgrades[0].tid {
        var other := FirstGranted(first + 1);
        if other == |requests| {
          assert Sole(requests, first);
          group := Held(upgrades[0].mode);
          upgrades := upgrades[0 := upgrades[0].(granted := true)];
        } else {
          assert requests[first].granted && requests[other].granted;
        }
      } else {
        FirstIsSole(requests, first);
      }
    }

    /** The first granted request from `start` on, or the end of the queue. */
    method FirstGranted(start: int) returns (f: int)
      requires 0 <= start <= |requests|
      ensures start <= f <= |requests| && (f < |requests| ==> requests[f].granted)
      ensures forall i :: start <= i < f ==> !requests[i].granted
    {
      f := start;
      while f < |requests| && !requests[f].granted
        invariant start <= f <= |requests| && forall i :: start <= i < f ==> !requests[i].granted
      {
        f := f + 1;
      }
    }

    /** Grants every request compatible with the shared group mode. */
    method GrantShared()
      requires group == Held(S)
      modifies `requests
      ensures requests == ShareAll(old(requests))
    {
      ghost var rs := requests;
      var i := 0;
      while i < |requests|
        invariant 0 <= i <= |requests| == |rs|
        invariant forall j :: 0 <= j < |rs| ==> requests[j] == if j < i then ShareAll(rs)[j] else rs[j]
      {
        if Compatible(group, requests[i].mode) {
          requests := requests[i := requests[i].(granted := true)];
        }
        i := i + 1;
      }
    }
  }

  lemma {:induction false} FirstIsSole(rs: seq<Request>, first: int)
    requires 0 <= first < |rs| && rs[first].granted && forall i :: 0 <= i < first ==> !rs[i].granted
    ensures forall f :: Sole(rs, f) ==> f == first
  {
  }
}
