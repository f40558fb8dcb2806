/**
 When the next claim of an outbox event can come (outbox/sqlstore.go): exactly from
 the availability that was set last, by the event's insert, a claim's lease or a
 failed mark.
 */
module Claims {
  import opened Common
  import opened Outbox

  // ---- A claim of everything that is due -----------------------------------

  lemma NotAfterIsOrder(a: Row, b: Row, c: Row)
    ensures NotAfter(a, b) || NotAfter(b, a)
    ensures NotAfter(a, b) && NotAfter(b, c) ==> NotAfter(a, c)
  {
  }

  /** Distinct ids of rows in the order of the SELECT. */
  ghost predicate InOrder(s: State, ids: seq<Id>) {
    && (forall i :: 0 <= i < |ids| ==> ids[i] in s.rows)
    && forall i, j :: 0 <= i < j < |ids| ==> ids[i] != ids[j] && NotAfter(s.rows[ids[i]], s.rows[ids[j]])
  }

  lemma {:induction false} Inserted(s: State, ids: seq<Id>, id: Id) returns (more: seq<Id>)
    requires InOrder(s, ids) && id in s.rows && id !in ids
    ensures InOrder(s, more) && forall x :: x in more <==> x in ids || x == id
    decreases |ids|
  {
    if ids == [] || NotAfter(s.rows[id], s.rows[ids[0]]) {
      more := [id] + ids;
      forall j | 0 <= j < |ids| ensures NotAfter(s.rows[id], s.rows[ids[j]]) {
        NotAfterIsOrder(s.rows[id], s.rows[ids[0]], s.rows[ids[j]]);
      }
    } else {
      NotAfterIsOrder(s.rows[id], s.rows[ids[0]], s.rows[id]);
      var rest := Inserted(s, ids[1..], id);
      more := [ids[0]] + rest;
      assert ids == [ids[0]] + ids[1..];
      forall j | 0 <= j < |rest| ensures ids[0] != rest[j] && NotAfter(s.rows[ids[0]], s.rows[rest[j]]) {
        assert rest[j] in rest;
      }
    }
  }

  lemma {:induction false} Ordered(s: State, due: set<Id>) returns (ids: seq<Id>)
    requires due <= s.rows.Keys
    ensures InOrder(s, ids) && forall x :: x in ids <==> x in due
    decreases |due|
  {
    if due == {} {
      ids := [];
    } else {
      var id :| id in due;
      var rest := Ordered(s, due - {id});
      ids := Inserted(s, rest, id);
    }
  }

  lemma {:induction false} NewWorker(taken: set<Worker>) returns (w: Worker)
    ensures w !in taken && forall u :: u in taken ==> u < w
    decreases |taken|
  {
    if taken == {} {
      w := 0;
    } else {
      var u :| u in taken;
      var v := NewWorker(taken - {u});
      w := if u < v then v else u + 1;
      assert forall x :: x in taken ==> x == u || x in taken - {u};
    }
  }

  /** Whatever is due at a moment that has come can be claimed with that reading. */
  lemma ClaimPossible(s: State, id: Id, t: int, lease: int) returns (w: Worker, ids: seq<Id>)
    requires Eligible(s, id, t) && t <= s.now
    ensures id in ids
    ensures Run(s, [Select(w, ids, |ids|, lease, t), CommitClaim(w, true, true)]).log ==
        s.log + [Claimed(ids, t, lease)]
  {
    var due := set x | x in s.rows && Eligible(s, x, t);
    ids := Ordered(s, due);
    w := NewWorker(s.workers.Keys);
    var select, commit := Select(w, ids, |ids|, lease, t), CommitClaim(w, true, true);
    RunTwo(s, select, commit);
    assert forall i :: 0 <= i < |ids| ==> ids[i] in ids;
    assert IsSelection(s, ids, |ids|, t);
    assert Enabled(s, select);
    assert At(Step(s, select), w) == Selected(ids, t, lease);
  }

  /** A claim never leaves out a due event for one that became available later, or at
      the same time but was created later; and it takes all that are due if they fit. */
  lemma EarlierNotLeftOut(s: State, ids: seq<Id>, limit: nat, now: int, id: Id, other: Id)
    requires IsSelection(s, ids, limit, now) && Markable(s, id) && s.rows[id].availableAt <= now && other in ids
    ensures id !in ids ==>
              var a, b := s.rows[id], s.rows[other];
              && |ids| == limit && a.availableAt >= b.availableAt
              && (a.availableAt == b.availableAt ==> a.createdAt >= b.createdAt)
    ensures s.rows[other].publishedAt.None? && s.rows[other].availableAt <= now
  {
    var i :| 0 <= i < |ids| && ids[i] == other;
    assert Eligible(s, ids[i], now);
  }

  // ---- The next claim ------------------------------------------------------

  /** After some further actions, the next event that sets the availability of `id`
      is a claim with reading t. */
  ghost predicate NextClaimAt(s: State, actions: seq<Action>, id: Id, t: int) {
    var log := Run(s, actions).log;
    exists j :: && |s.log| <= j < |log| && Claims(log[j], id) && log[j].at == t
                && forall i :: |s.log| <= i < j ==> !Sets(log[i], id)
  }

  lemma {:induction false} LogExtends(s: State, actions: seq<Action>)
    ensures s.log <= Run(s, actions).log
    decreases |actions|
  {
    if actions != [] {
      assert s.log <= Step(s, actions[0]).log;
      LogExtends(Step(s, actions[0]), actions[1..]);
    }
  }

  /** Events that do not set an availability leave it. */
  lemma {:induction false} UntilStays(log: seq<Event>, n: nat, j: nat, id: Id)
    requires n <= j <= |log| && forall i :: n <= i < j ==> !Sets(log[i], id)
    ensures Until(log[..j], id) == Until(log[..n], id)
    decreases j
  {
    if n < j {
      assert log[..j] == log[..j - 1] + [log[j - 1]];
      UntilAppend(log[..j - 1], log[j - 1], id);
      UntilStays(log, n, j - 1, id);
    }
  }

  lemma NextClaimIsDue(s: State, actions: seq<Action>, id: Id, t: int)
    requires Safe(s) && Timed(s) && id in s.rows && NextClaimAt(s, actions, id, t)
    ensures s.rows[id].availableAt <= t
  {
    var log := Run(s, actions).log;
    var j :| && |s.log| <= j < |log| && Claims(log[j], id) && log[j].at == t
             && forall i :: |s.log| <= i < j ==> !Sets(log[i], id);
    RunKeepsTimed(s, actions);
    LogExtends(s, actions);
    assert log[..|s.log|] == s.log;
    UntilStays(log, |s.log|, j, id);
    assert ClaimOk(log[..j], log[j]);
    assert Until(s.log, id) == Some(s.rows[id].availableAt);
  }

  /** In every reachable state, an event that is unpublished and not being claimed can
      be claimed next with reading t, a moment that has come, exactly if t has reached
      the availability set last. */
  lemma NextClaimIffDue(before: seq<Action>, id: Id, t: int)
    requires Markable(Run(Init(), before), id) && t <= Run(Init(), before).now
    ensures
      var s := Run(Init(), before);
      Until(s.log, id).Some? && ((exists actions :: NextClaimAt(s, actions, id, t)) <==> Until(s.log, id).value <= t)
  {
    var s := Run(Init(), before);
    RunKeepsSafe(Init(), before);
    RunKeepsTimed(Init(), before);
    assert Until(s.log, id) == Some(s.rows[id].availableAt);
    if s.rows[id].availableAt <= t {
      var w, ids := ClaimPossible(s, id, t, 1);
      var actions := [Select(w, ids, |ids|, 1, t), CommitClaim(w, true, true)];
      assert Run(s, actions).log[|s.log|] == Claimed(ids, t, 1);
      assert NextClaimAt(s, actions, id, t);
    }
    forall actions | NextClaimAt(s, actions, id, t) ensures s.rows[id].availableAt <= t {
      NextClaimIsDue(s, actions, id, t);
    }
  }

  /** So a claim of an event can be followed by another with the same reading exactly
      if what set its availability last, the claim itself included, set one that the
      reading has reached. With a positive lease the claim itself has not: it takes a
      failed mark or an insert, or a claim with an older reading. */
  lemma SecondClaimIffDue(before: seq<Action>, i: nat, m: nat, id: Id)
    requires Markable(Run(Init(), before), id) && i <= m < |Run(Init(), before).log|
    requires Claims(Run(Init(), before).log[i], id) && Sets(Run(Init(), before).log[m], id)
    requires forall n :: m < n < |Run(Init(), before).log| ==> !Sets(Run(Init(), before).log[n], id)
    ensures
      var s := Run(Init(), before);
      var t, last := s.log[i].at, s.log[m];
      && ((exists actions :: NextClaimAt(s, actions, id, t)) <==> Setting(last) <= t)
      && (last.Claimed? && last.at >= t && last.lease > 0 ==> !exists actions :: NextClaimAt(s, actions, id, t))
  {
    var s := Run(Init(), before);
    RunKeepsClocked(Init(), before);
    NextClaimIffDue(before, id, s.log[i].at);
    UntilIsLastSetting(s.log, m, |s.log|, id);
    assert s.log[..|s.log|] == s.log;
  }
}
