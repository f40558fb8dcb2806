/**
 `Dispatcher.RunOnce` (outbox/dispatcher.go) on the shared outbox: claim a batch,
 publish each event, then mark it published or failed, while other dispatchers
 and cleaners act in between. `trace` records everything that happened, so the
 theorems of `Outbox` hold of every state it passes through.
 */
module Dispatcher {
  import opened Common
  import opened Outbox

  const SECOND: int := 1_000_000_000

  datatype Config = Config(batchSize: int, lease: int, retryDelay: int)

  function Defaulted(c: Config): Config {
    Config(if c.batchSize <= 0 then 100 else c.batchSize,
           if c.lease <= 0 then 30 * SECOND else c.lease,
           if c.retryDelay <= 0 then 5 * SECOND else c.retryDelay)
  }

  /** What surrounds one store or broker call: the actions of others that come
      first, whether the call reports failure and then whether it took effect
      nevertheless, and the error text. */
  datatype Gap = Gap(others: seq<Action>, fails: bool, landed: bool, message: seq<byte>)

  /** What surrounds one event of a batch: whether the context is found cancelled
      before it, its publish and its mark. */
  datatype Round = Round(cancelled: bool, publish: Gap, mark: Gap)

  predicate Foreign(a: Action, w: Worker) {
    a.Tick? || a.Add? || a.Purge? || a.w != w
  }

  ghost predicate AllForeign(actions: seq<Action>, w: Worker) {
    forall a :: a in actions ==> Foreign(a, w)
  }

  ghost predicate RoundsForeign(rounds: seq<Round>, w: Worker) {
    forall i :: 0 <= i < |rounds| ==> AllForeign(rounds[i].publish.others, w) && AllForeign(rounds[i].mark.others, w)
  }

  lemma ForeignStep(s: State, a: Action, w: Worker)
    requires Foreign(a, w)
    ensures At(Step(s, a), w) == At(s, w)
    ensures s.accepted <= Step(s, a).accepted && s.now <= Step(s, a).now
  {
  }

  lemma LogGrows(s: State, a: Action)
    ensures s.log <= Step(s, a).log
  {
  }

  predicate Lands(gap: Gap) {
    !gap.fails || gap.landed
  }

  // ---- What one dispatcher did ---------------------------------------------

  /** An action and the state in which it was issued. */
  datatype Issued = Issued(at: State, action: Action)

  /** The actions of w among those of everybody, in order. */
  ghost function Own(s: State, actions: seq<Action>, w: Worker): seq<Issued>
    decreases |actions|
  {
    if actions == [] then []
    else (if Foreign(actions[0], w) then [] else [Issued(s, actions[0])]) + Own(Step(s, actions[0]), actions[1..], w)
  }

  ghost function History(trace: seq<Action>, w: Worker): seq<Issued> {
    Own(Init(), trace, w)
  }

  lemma {:induction false} OwnAppend(s: State, xs: seq<Action>, a: Action, w: Worker)
    ensures Own(s, xs + [a], w) == Own(s, xs, w) + if Foreign(a, w) then [] else [Issued(Run(s, xs), a)]
    decreases |xs|
  {
    if xs == [] {
      assert xs + [a] == [a] && [a][1..] == [];
    } else {
      assert (xs + [a])[1..] == xs[1..] + [a];
      OwnAppend(Step(s, xs[0]), xs[1..], a, w);
    }
  }

  /** One event of a batch: its publish and its mark. */
  datatype Try = Try(publish: Issued, mark: Issued)

  function Steps(tries: seq<Try>): seq<Issued> {
    if tries == [] then [] else Steps(tries[..|tries| - 1]) + [tries[|tries| - 1].publish, tries[|tries| - 1].mark]
  }

  lemma StepsAppend(tries: seq<Try>, t: Try)
    ensures Steps(tries + [t]) == Steps(tries) + [t.publish, t.mark]
  {
    assert (tries + [t])[..|tries|] == tries;
  }

  /** The log has the mark of an event since position n, made in state m: a published
      one after a publish that was reported, else a failed one whose retry time is at
      most the retry delay away. */
  ghost predicate MarkLogged(log: seq<Event>, n: nat, id: Id, sent: bool, m: State, retryDelay: int) {
    exists k :: n <= k < |log| && IsMark(log[k], id, sent, m, retryDelay)
  }

  predicate IsMark(e: Event, id: Id, sent: bool, m: State, retryDelay: int) {
    if sent then e.Marked? && e.id == id && e.at <= m.now
    else e.Retried? && e.id == id && e.at == m.now && e.until <= m.now + retryDelay
  }

  lemma MarkStaysLogged(log: seq<Event>, longer: seq<Event>, n: nat, id: Id, sent: bool, m: State, retryDelay: int)
    requires MarkLogged(log, n, id, sent, m, retryDelay) && log <= longer
    ensures MarkLogged(longer, n, id, sent, m, retryDelay)
  {
    var k :| n <= k < |log| && IsMark(log[k], id, sent, m, retryDelay);
    assert longer[k] == log[k];
  }

  /** The event was published as its surroundings have it, and then marked by what the
      publish reported; a reported publish was accepted before the mark. */
  predicate TriedBy(w: Worker, item: Item, r: Round, t: Try) {
    && t.publish.action == Publish(w, Lands(r.publish), !r.publish.fails)
    && At(t.publish.at, w).Dispatching? && At(t.publish.at, w).todo != [] && At(t.publish.at, w).todo[0] == item
    && (if r.publish.fails then t.mark.action.MarkFailed? && At(t.mark.at, w).Unsent?
        else t.mark.action.MarkPublished? && At(t.mark.at, w).Sent?)
    && t.mark.action.w == w && At(t.mark.at, w).item == item
    && (!r.publish.fails ==> item in t.mark.at.accepted)
  }

  /** So it was, and its mark is in the log if it took effect. */
  ghost predicate Tried(log: seq<Event>, n: nat, w: Worker, item: Item, r: Round, t: Try, retryDelay: int) {
    && TriedBy(w, item, r, t)
    && (Lands(r.mark) && Markable(t.mark.at, item.id) ==>
          MarkLogged(log, n, item.id, !r.publish.fails, t.mark.at, retryDelay))
  }

  lemma TriedStays(
    log: seq<Event>, longer: seq<Event>, n: nat, from: nat, w: Worker, item: Item, r: Round, t: Try, retryDelay: int)
    requires Tried(log, n, w, item, r, t, retryDelay) && log <= longer && from <= n
    ensures Tried(longer, from, w, item, r, t, retryDelay)
  {
    if Lands(r.mark) && Markable(t.mark.at, item.id) {
      MarkStaysLogged(log, longer, n, item.id, !r.publish.fails, t.mark.at, retryDelay);
    }
  }

  /** The first events of a batch were tried, since the log had length n. */
  ghost predicate BatchTried(
    log: seq<Event>, n: nat, w: Worker, batch: seq<Item>, rounds: seq<Round>, tries: seq<Try>, retryDelay: int)
  {
    && |tries| <= |batch| && |tries| <= |rounds|
    && forall i :: 0 <= i < |tries| ==>
                     !rounds[i].cancelled && Tried(log, n, w, batch[i], rounds[i], tries[i], retryDelay)
  }

  lemma BatchNext(
    log: seq<Event>, log': seq<Event>, n: nat, w: Worker, batch: seq<Item>, rounds: seq<Round>, tries: seq<Try>,
    t: Try, retryDelay: int)
    requires BatchTried(log, n, w, batch, rounds, tries, retryDelay) && log <= log' && n <= |log|
    requires |tries| < |batch| && |tries| < |rounds| && !rounds[|tries|].cancelled
    requires Tried(log', |log|, w, batch[|tries|], rounds[|tries|], t, retryDelay)
    ensures BatchTried(log', n, w, batch, rounds, tries + [t], retryDelay)
  {
    var k := |tries|;
    forall i | 0 <= i < k ensures Tried(log', n, w, batch[i], rounds[i], tries[i], retryDelay) {
      TriedStays(log, log', n, n, w, batch[i], rounds[i], tries[i], retryDelay);
    }
    TriedStays(log', log', |log|, n, w, batch[k], rounds[k], t, retryDelay);
  }

  // ---- What is counted -----------------------------------------------------

  /** The event counts as published: its publish and its mark were reported, and the
      mark found the row unpublished. */
  predicate CountsAt(id: Id, r: Round, m: State) {
    !r.publish.fails && !r.mark.fails && Markable(m, id)
  }

  /** The events that count as published, in batch order. */
  function Counted(batch: seq<Item>, rounds: seq<Round>, tries: seq<Try>): seq<Item>
    requires |tries| <= |batch| && |tries| <= |rounds|
  {
    if tries == [] then []
    else
      var n := |tries| - 1;
      var before := Counted(batch, rounds, tries[..n]);
      if CountsAt(batch[n].id, rounds[n], tries[n].mark.at) then before + [batch[n]] else before
  }

  lemma CountedAppend(batch: seq<Item>, rounds: seq<Round>, tries: seq<Try>, t: Try)
    requires |tries| < |batch| && |tries| < |rounds|
    ensures var n := |tries|;
            Counted(batch, rounds, tries + [t]) ==
            Counted(batch, rounds, tries) + if CountsAt(batch[n].id, rounds[n], t.mark.at) then [batch[n]] else []
  {
    assert (tries + [t])[..|tries|] == tries;
  }

  ghost predicate DistinctIds(batch: seq<Item>) {
    forall i, j :: 0 <= i < j < |batch| ==> batch[i].id != batch[j].id
  }

  ghost predicate MarkedSince(log: seq<Event>, n: nat, id: Id) {
    exists k :: n <= k < |log| && log[k].Marked? && log[k].id == id
  }

  /** Distinct events, each marked published in the log since position n. */
  ghost predicate AllMarked(counted: seq<Item>, log: seq<Event>, n: nat) {
    DistinctIds(counted) && forall i :: 0 <= i < |counted| ==> MarkedSince(log, n, counted[i].id)
  }

  lemma CountedIsMarked(log: seq<Event>, n: nat, w: Worker, item: Item, r: Round, t: Try, retryDelay: int)
    requires Tried(log, n, w, item, r, t, retryDelay) && CountsAt(item.id, r, t.mark.at)
    ensures MarkedSince(log, n, item.id)
  {
    var k :| n <= k < |log| && IsMark(log[k], item.id, true, t.mark.at, retryDelay);
  }

  ghost predicate NoneHas(items: seq<Item>, id: Id) {
    forall i :: 0 <= i < |items| ==> items[i].id != id
  }

  /** Counted events are not those later in the batch. */
  lemma {:induction false} CountedApart(batch: seq<Item>, rounds: seq<Round>, tries: seq<Try>, m: nat)
    requires |tries| <= m < |batch| && |tries| <= |rounds| && DistinctIds(batch)
    ensures NoneHas(Counted(batch, rounds, tries), batch[m].id)
    decreases |tries|
  {
    if tries != [] {
      var n := |tries| - 1;
      var before, all := Counted(batch, rounds, tries[..n]), Counted(batch, rounds, tries);
      CountedApart(batch, rounds, tries[..n], m);
      assert batch[n].id != batch[m].id;
      assert all == before || all == before + [batch[n]];
    }
  }

  lemma DistinctAppend(counted: seq<Item>, item: Item)
    requires DistinctIds(counted) && NoneHas(counted, item.id)
    ensures DistinctIds(counted + [item])
  {
  }

  /** They are distinct and each has its mark in the log. */
  lemma {:induction false} CountedAreMarked(
    log: seq<Event>, n: nat, w: Worker, batch: seq<Item>, rounds: seq<Round>, tries: seq<Try>, retryDelay: int)
    requires BatchTried(log, n, w, batch, rounds, tries, retryDelay) && DistinctIds(batch)
    ensures AllMarked(Counted(batch, rounds, tries), log, n)
    decreases |tries|
  {
    if tries != [] {
      var m := |tries| - 1;
      var front := tries[..m];
      assert BatchTried(log, n, w, batch, rounds, front, retryDelay) by {
        assert forall i :: 0 <= i < m ==> front[i] == tries[i];
      }
      CountedAreMarked(log, n, w, batch, rounds, front, retryDelay);
      if CountsAt(batch[m].id, rounds[m], tries[m].mark.at) {
        CountedIsMarked(log, n, w, batch[m], rounds[m], tries[m], retryDelay);
        CountedApart(batch, rounds, front, m);
        DistinctAppend(Counted(batch, rounds, front), batch[m]);
      }
    }
  }

  lemma SelectionDistinct(s: State, ids: seq<Id>, limit: nat, now: int, batch: seq<Item>)
    requires IsSelection(s, ids, limit, now) && IdsOf(batch) == ids
    ensures DistinctIds(batch)
  {
    forall i, j | 0 <= i < j < |batch| ensures batch[i].id != batch[j].id {
      assert ids[i] == batch[i].id && ids[j] == batch[j].id;
    }
  }

  function IdsOf(batch: seq<Item>): (ids: seq<Id>)
    ensures |ids| == |batch|
  {
    seq(|batch|, i requires 0 <= i < |batch| => batch[i].id)
  }

  /** The steps of a claim. */
  predicate ClaimSteps(steps: seq<Issued>) {
    forall i :: 0 <= i < |steps| ==> steps[i].action.Select? || steps[i].action.CommitClaim?
  }

  class Outboxes {
    const config: Config
    var s: State
    ghost var trace: seq<Action>

    ghost predicate Valid()
      reads this
    {
      config == Defaulted(config) && s == Run(Init(), trace)
    }

    constructor (config: Config)
      ensures Valid() && s == Init()
      ensures this.config.batchSize == (if config.batchSize <= 0 then 100 else config.batchSize)
      ensures this.config.lease == (if config.lease <= 0 then 30_000_000_000 else config.lease)
      ensures this.config.retryDelay == (if config.retryDelay <= 0 then 5_000_000_000 else config.retryDelay)
    {
      this.config := Defaulted(config);
      s, trace := Init(), [];
    }

    method Do(a: Action, ghost w: Worker)
      requires Valid()
      modifies this
      ensures Valid() && s == Step(old(s), a) && trace == old(trace) + [a] && old(s).log <= s.log
      ensures History(trace, w) == History(old(trace), w) + if Foreign(a, w) then [] else [Issued(old(s), a)]
    {
      RunAppend(Init(), trace, [a]);
      OwnAppend(Init(), trace, a, w);
      LogGrows(s, a);
      s, trace := Step(s, a), trace + [a];
    }

    method LetOthersRun(actions: seq<Action>, w: Worker)
      requires Valid() && AllForeign(actions, w)
      modifies this
      ensures Valid() && old(trace) <= trace && s == Run(old(s), actions) && History(trace, w) == History(old(trace), w)
      ensures At(s, w) == old(At(s, w)) && old(s).accepted <= s.accepted && old(s).log <= s.log && old(s).now <= s.now
    {
      for i := 0 to |actions|
        invariant Valid() && old(trace) <= trace && History(trace, w) == History(old(trace), w)
        invariant Run(s, actions[i..]) == Run(old(s), actions)
        invariant At(s, w) == old(At(s, w)) && old(s).accepted <= s.accepted
        invariant old(s).log <= s.log && old(s).now <= s.now
      {
        ForeignStep(s, actions[i], w);
        Do(actions[i], w);
      }
    }

    /** The claim of `picked` goes through: neither step is reported as failed and
        `picked` is what the SELECT returns when it comes to run. */
    ghost predicate ClaimSucceeds(start: State, picked: seq<Id>, select: Gap, commit: Gap) {
      && !select.fails && !commit.fails && config.batchSize >= 0
      && IsSelection(Run(start, select.others), picked, config.batchSize, start.now)
    }

    /** `Claim`. The clock is read first. When the claim fails the batch is not
        dispatched, even if its commit landed. */
    method Claim(w: Worker, picked: seq<Id>, select: Gap, commit: Gap)
      returns (ok: bool, batch: seq<Item>, ghost steps: seq<Issued>)
      requires Valid() && At(s, w).Idle? && AllForeign(select.others, w) && AllForeign(commit.others, w)
      modifies this
      ensures Valid() && old(trace) <= trace && old(s).accepted <= s.accepted && old(s).log <= s.log
      ensures At(s, w) == if ok then Dispatching(batch) else Idle
      ensures ok <==> ClaimSucceeds(old(s), picked, select, commit)
      ensures ok ==> IdsOf(batch) == picked
      ensures ok ==> |s.log| > |old(s).log| && s.log[|s.log| - 1] == Claimed(picked, old(s).now, config.lease)
      ensures ClaimSteps(steps) && History(trace, w) == History(old(trace), w) + steps
    {
      var now := s.now;
      steps, batch := [], [];
      LetOthersRun(select.others, w);
      if select.fails || !Enabled(s, Select(w, picked, config.batchSize, config.lease, now)) {
        return false, [], steps;
      }
      steps := steps + [Issued(s, Select(w, picked, config.batchSize, config.lease, now))];
      Do(Select(w, picked, config.batchSize, config.lease, now), w);
      LetOthersRun(commit.others, w);
      batch := Items(s, picked);
      steps := steps + [Issued(s, CommitClaim(w, Lands(commit), !commit.fails))];
      Do(CommitClaim(w, Lands(commit), !commit.fails), w);
      ok := !commit.fails;
    }

    /** Publish the next event of the batch: whether the broker reports success. */
    method PublishNext(w: Worker, gap: Gap) returns (ok: bool, ghost step: Issued)
      requires Valid() && AllForeign(gap.others, w) && At(s, w).Dispatching? && At(s, w).todo != []
      modifies this
      ensures Valid() && old(trace) <= trace && old(s).accepted <= s.accepted && old(s).log <= s.log
      ensures ok <==> !gap.fails
      ensures var todo := old(At(s, w)).todo;
              At(s, w) == if ok then Sent(todo[0], todo[1..]) else Unsent(todo[0], todo[1..])
      ensures ok ==> old(At(s, w)).todo[0] in s.accepted
      ensures step.action == Publish(w, Lands(gap), !gap.fails) && At(step.at, w) == old(At(s, w))
      ensures History(trace, w) == History(old(trace), w) + [step]
    {
      LetOthersRun(gap.others, w);
      step := Issued(s, Publish(w, Lands(gap), !gap.fails));
      Do(Publish(w, Lands(gap), !gap.fails), w);
      ok := !gap.fails;
    }

    /** `MarkPublished`, with the clock read before: no error exactly if it is
        reported and, when it runs, the row is unpublished and not held; then the
        row is published. */
    method MarkSent(w: Worker, gap: Gap) returns (ok: bool, ghost step: Issued)
      requires Valid() && AllForeign(gap.others, w) && At(s, w).Sent?
      modifies this
      ensures Valid() && old(trace) <= trace
      ensures step.at == Run(old(s), gap.others) && step.action.MarkPublished? && step.action.w == w
      ensures At(step.at, w) == old(At(s, w)) && History(trace, w) == History(old(trace), w) + [step]
      ensures old(s).accepted <= step.at.accepted && old(s).log <= step.at.log <= s.log && old(s).now <= step.at.now
      ensures At(s, w) == Dispatching(old(At(s, w)).rest)
      ensures ok <==> !gap.fails && Markable(step.at, old(At(s, w)).item.id)
      ensures ok ==> var id := old(At(s, w)).item.id;
                     && s.rows == step.at.rows[id := MarkedRow(step.at.rows[id], old(s).now)]
                     && s.rows[id].publishedAt == Some(old(s).now) && s.rows[id].lastError == []
      ensures Lands(gap) && Markable(step.at, old(At(s, w)).item.id) ==>
                s.log == step.at.log + [Marked(old(At(s, w)).item.id, old(s).now)]
    {
      var now := s.now;
      LetOthersRun(gap.others, w);
      var id := At(s, w).item.id;
      var lands := Lands(gap) && id !in s.locks;
      ok := lands && !gap.fails && Pending(s, id);
      step := Issued(s, MarkPublished(w, now, lands));
      Do(MarkPublished(w, now, lands), w);
    }

    /** `MarkFailed` after a failed publish, the clock read before; the publish error
        is returned in any case. */
    method MarkUnsent(w: Worker, message: seq<byte>, gap: Gap) returns (ghost step: Issued)
      requires Valid() && AllForeign(gap.others, w) && At(s, w).Unsent?
      modifies this
      ensures Valid() && old(trace) <= trace
      ensures step.at == Run(old(s), gap.others) && step.action.MarkFailed? && step.action.w == w
      ensures At(step.at, w) == old(At(s, w)) && History(trace, w) == History(old(trace), w) + [step]
      ensures old(s).accepted <= step.at.accepted && old(s).log <= step.at.log <= s.log && old(s).now <= step.at.now
      ensures At(s, w) == Dispatching(old(At(s, w)).rest)
      ensures Lands(gap) && Markable(step.at, old(At(s, w)).item.id) ==>
                var id, until := old(At(s, w)).item.id, old(s).now + config.retryDelay;
                && s.log == step.at.log + [Retried(id, until, step.at.now)]
                && s.rows == step.at.rows[id := RetriedRow(step.at.rows[id], message, until)]
                && s.rows[id].availableAt == until && s.rows[id].publishedAt.None?
                && s.rows[id].lastError == if |message| > 4096 then message[..4096] else message
    {
      var until := s.now + config.retryDelay;
      LetOthersRun(gap.others, w);
      var lands := Lands(gap) && At(s, w).item.id !in s.locks;
      step := Issued(s, MarkFailed(w, message, until, lands));
      Do(MarkFailed(w, message, until, lands), w);
    }

    /** One event of the batch. */
    method Dispatch(w: Worker, r: Round) returns (ok: bool, ghost t: Try)
      requires Valid() && AllForeign(r.publish.others, w) && AllForeign(r.mark.others, w)
      requires At(s, w).Dispatching? && At(s, w).todo != []
      modifies this
      ensures Valid() && old(trace) <= trace && old(s).log <= s.log
      ensures At(s, w) == Dispatching(old(At(s, w)).todo[1..])
      ensures ok <==> CountsAt(old(At(s, w)).todo[0].id, r, t.mark.at)
      ensures Tried(s.log, |old(s).log|, w, old(At(s, w)).todo[0], r, t, config.retryDelay)
      ensures History(trace, w) == History(old(trace), w) + [t.publish, t.mark]
    {
      var item := At(s, w).todo[0];
      ghost var publish, mark;
      ok, publish := PublishNext(w, r.publish);
      if ok {
        ok, mark := MarkSent(w, r.mark);
      } else {
        mark := MarkUnsent(w, r.publish.message, r.mark);
      }
      t := Try(publish, mark);
      if Lands(r.mark) && Markable(mark.at, item.id) {
        assert IsMark(s.log[|mark.at.log|], item.id, !r.publish.fails, mark.at, config.retryDelay);
      }
    }

    /** The call returns. */
    method Leave(w: Worker) returns (ghost step: Issued)
      requires Valid()
      modifies this
      ensures Valid() && old(trace) <= trace && s.log == old(s).log && At(s, w).Idle?
      ensures step.action == Stop(w) && History(trace, w) == History(old(trace), w) + [step]
    {
      step := Issued(s, Stop(w));
      Do(Stop(w), w);
    }

    /** The batch is dispatched up to the tries given; w has done nothing else since
        its history was `earlier`. */
    ghost predicate InBatch(
      w: Worker, batch: seq<Item>, rounds: seq<Round>, n: nat, tries: seq<Try>, earlier: seq<Issued>)
      reads this
    {
      && Valid() && n <= |s.log| && BatchTried(s.log, n, w, batch, rounds, tries, config.retryDelay)
      && At(s, w) == Dispatching(batch[|tries|..]) && History(trace, w) == earlier + Steps(tries)
    }

    /** One round of the loop. */
    method TryNext(
      w: Worker, ghost batch: seq<Item>, rounds: seq<Round>, ghost n: nat, i: nat, ghost tries: seq<Try>,
      ghost earlier: seq<Issued>)
      returns (ok: bool, ghost tries': seq<Try>)
      requires InBatch(w, batch, rounds, n, tries, earlier) && RoundsForeign(rounds, w)
      requires |tries| == i < |batch| == |rounds| && !rounds[i].cancelled
      modifies this
      ensures InBatch(w, batch, rounds, n, tries', earlier) && |tries'| == i + 1
      ensures old(trace) <= trace && old(s).log <= s.log
      ensures |Counted(batch, rounds, tries')| == |Counted(batch, rounds, tries)| + if ok then 1 else 0
    {
      ghost var t;
      ok, t := Dispatch(w, rounds[i]);
      assert batch[i..][1..] == batch[i + 1..];
      BatchNext(old(s).log, s.log, n, w, batch, rounds, tries, t, config.retryDelay);
      CountedAppend(batch, rounds, tries, t);
      StepsAppend(tries, t);
      tries' := tries + [t];
    }

    /** The loop of `RunOnce`. */
    method RunBatch(w: Worker, batch: seq<Item>, rounds: seq<Round>, ghost n: nat)
      returns (published: nat, errors: nat, ghost tries: seq<Try>)
      requires Valid() && RoundsForeign(rounds, w) && |rounds| == |batch|
      requires At(s, w) == Dispatching(batch) && n <= |s.log|
      modifies this
      ensures InBatch(w, batch, rounds, n, tries, History(old(trace), w))
      ensures old(trace) <= trace && old(s).log <= s.log
      ensures |tries| < |batch| ==> rounds[|tries|].cancelled
      ensures published == |Counted(batch, rounds, tries)|
      ensures published + errors == |tries| + if |tries| < |batch| then 1 else 0
    {
      published, errors, tries := 0, 0, [];
      ghost var earlier := History(trace, w);
      assert batch[0..] == batch && earlier + Steps([]) == earlier;
      var i := 0;
      while i < |batch|
        invariant |tries| == i <= |batch| && InBatch(w, batch, rounds, n, tries, earlier)
        invariant old(trace) <= trace && old(s).log <= s.log
        invariant published == |Counted(batch, rounds, tries)| && published + errors == i
      {
        if rounds[i].cancelled {
          errors := errors + 1;
          return;
        }
        var ok;
        ok, tries := TryNext(w, batch, rounds, n, i, tries, earlier);
        if ok {
          published := published + 1;
        } else {
          errors := errors + 1;
        }
        i := i + 1;
      }
    }

    /** `RunOnce`. Unless the claim fails, the events of the batch are tried in
        order, each once, until the context is found cancelled; one event's failure
        does not keep the next from being tried. What this dispatcher does, in order,
        is the claim, one publish and one mark for each event tried, and the return.
        An event counts exactly if its publish and mark are reported and the mark
        found the row unpublished; the number of those is returned. Each other event
        tried left an error, and so does a cancelled context. */
    method RunOnce(w: Worker, picked: seq<Id>, select: Gap, commit: Gap, rounds: seq<Round>)
      returns (published: nat, errors: nat, ghost claimed: bool, ghost batch: seq<Item>, ghost tries: seq<Try>,
               ghost claim: seq<Issued>, ghost leave: seq<Issued>)
      requires Valid() && At(s, w).Idle? && RoundsForeign(rounds, w) && |rounds| == |picked|
      requires AllForeign(select.others, w) && AllForeign(commit.others, w)
      modifies this
      ensures Valid() && old(trace) <= trace && old(s).log <= s.log && At(s, w).Idle?
      ensures claimed <==> ClaimSucceeds(old(s), picked, select, commit)
      ensures !claimed ==> published == 0 && errors == 1 && tries == [] && leave == []
      ensures claimed ==> IdsOf(batch) == picked && |leave| == 1 && leave[0].action == Stop(w)
      ensures BatchTried(s.log, |old(s).log|, w, batch, rounds, tries, config.retryDelay)
      ensures ClaimSteps(claim) && History(trace, w) == History(old(trace), w) + claim + Steps(tries) + leave
      ensures claimed && |tries| < |picked| ==> rounds[|tries|].cancelled
      ensures published == |Counted(batch, rounds, tries)|
      ensures AllMarked(Counted(batch, rounds, tries), s.log, |old(s).log|)
      ensures claimed ==> published + errors == |tries| + if |tries| < |picked| then 1 else 0
    {
      ghost var n := |s.log|;
      tries, leave := [], [];
      var ok, items;
      ok, items, claim := Claim(w, picked, select, commit);
      claimed, batch := ok, items;
      if !ok {
        return 0, 1, false, batch, [], claim, [];
      }
      published, errors, tries := RunBatch(w, items, rounds, n);
      SelectionDistinct(Run(old(s), select.others), picked, config.batchSize, old(s).now, batch);
      CountedAreMarked(s.log, n, w, batch, rounds, tries, config.retryDelay);
      ghost var step := Leave(w);
      leave := [step];
    }
  }
}
