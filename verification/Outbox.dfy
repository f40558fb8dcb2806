/**
 The transactional outbox (outbox/sqlstore.go, outbox/dispatcher.go) as a state
 machine: the committed table, the row locks of open claim transactions, the
 position of every dispatcher in its batch, and what the broker has accepted.
 Commits, publishes and marks may take effect without being reported; any
 dispatcher may stop at any point. `Run` takes an arbitrary sequence of actions
 of any number of dispatchers and cleaners; what cannot happen yet is skipped.
 */
module Outbox {
  import opened Common
  import Utf8

  type Id = string
  type Worker = nat

  /** One inserted event: the n-th insert of its id. The id alone is in the table;
      the envelope that a claim reads is that of the insert. */
  datatype Item = Item(id: Id, life: nat)

  datatype Row = Row(life: nat, createdAt: int, availableAt: int, publishedAt: Option<int>,
                     attempts: nat, version: nat, lastError: seq<byte>)

  /** Where a dispatcher is: outside `RunOnce`, inside the claim transaction with
      its rows locked, about to publish the first of `todo`, or about to record
      the result of publishing `item`. */
  datatype Phase =
    | Idle
    | Selected(ids: seq<Id>, at: int, lease: int)
    | Dispatching(todo: seq<Item>)
    | Sent(item: Item, rest: seq<Item>)
    | Unsent(item: Item, rest: seq<Item>)

  datatype Event =
    | Added(id: Id, at: int)
    | Claimed(ids: seq<Id>, at: int, lease: int)
    | Retried(id: Id, until: int, at: int)
    | Marked(id: Id, at: int)

  /** `lives` counts the inserts of each id. */
  datatype State = State(now: int, rows: map<Id, Row>, locks: map<Id, Worker>, workers: map<Worker, Phase>,
                         lives: map<Id, nat>, accepted: set<Item>, log: seq<Event>)

  /** `at` is the caller's reading of the clock, taken at some time before. */
  datatype Action =
    | Tick(ms: nat)
    | Add(id: Id, at: int)
    | Select(w: Worker, ids: seq<Id>, limit: nat, lease: int, at: int)
    | CommitClaim(w: Worker, landed: bool, reported: bool)
    | Publish(w: Worker, landed: bool, reported: bool)
    | MarkPublished(w: Worker, at: int, landed: bool)
    | MarkFailed(w: Worker, message: seq<byte>, until: int, landed: bool)
    | Stop(w: Worker)
    | Purge(gone: set<Id>, before: int)

  function Init(): State {
    State(0, map[], map[], map[], map[], {}, [])
  }

  function At(s: State, w: Worker): Phase {
    if w in s.workers then s.workers[w] else Idle
  }

  function Lives(s: State, id: Id): nat {
    if id in s.lives then s.lives[id] else 0
  }

  /** The events that a claim of these rows reads. */
  function Items(s: State, ids: seq<Id>): seq<Item> {
    seq(|ids|, i requires 0 <= i < |ids| => Item(ids[i], if ids[i] in s.rows then s.rows[ids[i]].life else 0))
  }

  predicate Pending(s: State, id: Id) {
    id in s.rows && s.rows[id].publishedAt.None?
  }

  /** An update of the row reaches it: it is unpublished and no claim holds it. */
  predicate Markable(s: State, id: Id) {
    Pending(s, id) && id !in s.locks
  }

  predicate Eligible(s: State, id: Id, now: int) {
    Pending(s, id) && s.rows[id].availableAt <= now && id !in s.locks
  }

  /** ORDER BY available_at, created_at. */
  predicate NotAfter(a: Row, b: Row) {
    a.availableAt < b.availableAt || (a.availableAt == b.availableAt && a.createdAt <= b.createdAt)
  }

  /** The result of SELECT ... LIMIT n FOR UPDATE SKIP LOCKED. */
  predicate IsSelection(s: State, ids: seq<Id>, limit: nat, now: int) {
    && |ids| <= limit
    && (forall i :: 0 <= i < |ids| ==> Eligible(s, ids[i], now))
    && (forall i, j :: 0 <= i < j < |ids| ==> ids[i] != ids[j] && NotAfter(s.rows[ids[i]], s.rows[ids[j]]))
    && (forall id :: id in s.rows && Eligible(s, id, now) && id !in ids ==>
          |ids| == limit && forall i :: 0 <= i < |ids| ==> NotAfter(s.rows[ids[i]], s.rows[id]))
  }

  predicate Enabled(s: State, a: Action) {
    match a
    case Tick(_) => true
    case Add(id, at) => id !in s.rows && at <= s.now
    case Select(w, ids, limit, _, at) => At(s, w).Idle? && at <= s.now && IsSelection(s, ids, limit, at)
    case CommitClaim(w, landed, reported) => At(s, w).Selected? && (reported ==> landed)
    case Publish(w, landed, reported) => At(s, w).Dispatching? && At(s, w).todo != [] && (reported ==> landed)
    case MarkPublished(w, at, landed) => At(s, w).Sent? && at <= s.now && (landed ==> At(s, w).item.id !in s.locks)
    case MarkFailed(w, _, _, landed) => At(s, w).Unsent? && (landed ==> At(s, w).item.id !in s.locks)
    case Stop(_) => true
    case Purge(gone, before) =>
      forall id :: id in gone ==>
          id in s.rows && id !in s.locks && s.rows[id].publishedAt.Some? && s.rows[id].publishedAt.value < before
  }

  function Put(s: State, w: Worker, phase: Phase): State {
    s.(workers := s.workers[w := phase])
  }

  function Unlock(locks: map<Id, Worker>, w: Worker): map<Id, Worker> {
    map id | id in locks && locks[id] != w :: locks[id]
  }

  function LeasedRow(row: Row, until: int): Row {
    row.(attempts := row.attempts + 1, availableAt := until, version := row.version + 1)
  }

  function Leased(s: State, ids: seq<Id>, until: int): map<Id, Row> {
    map id | id in s.rows ::
      if id in ids && s.rows[id].publishedAt.None? then LeasedRow(s.rows[id], until) else s.rows[id]
  }

  function ClaimLanded(s: State, w: Worker): State
    requires At(s, w).Selected?
  {
    var p := At(s, w);
    s.(rows := Leased(s, p.ids, p.at + p.lease), locks := Unlock(s.locks, w),
       log := s.log + [Claimed(p.ids, p.at, p.lease)])
  }

  function MarkedRow(row: Row, at: int): Row {
    row.(publishedAt := Some(at), version := row.version + 1, lastError := [])
  }

  function RetriedRow(row: Row, message: seq<byte>, until: int): Row {
    row.(availableAt := until, lastError := Utf8.RawCut(message), version := row.version + 1)
  }

  /** Both marks change a row only while it is unpublished. */
  function MarkLanded(s: State, id: Id, at: int): State {
    if !Pending(s, id) then s
    else s.(rows := s.rows[id := MarkedRow(s.rows[id], at)], log := s.log + [Marked(id, at)])
  }

  function RetryLanded(s: State, id: Id, message: seq<byte>, until: int): State {
    if !Pending(s, id) then s
    else s.(rows := s.rows[id := RetriedRow(s.rows[id], message, until)], log := s.log + [Retried(id, until, s.now)])
  }

  function Apply(s: State, a: Action): State
    requires Enabled(s, a)
  {
    match a
    case Tick(ms) => s.(now := s.now + ms)
    case Add(id, at) =>
      s.(rows := s.rows[id := Row(Lives(s, id), at, at, None, 0, 1, [])], lives := s.lives[id := Lives(s, id) + 1],
         log := s.log + [Added(id, at)])
    case Select(w, ids, _, lease, at) =>
      Put(s.(locks := map id | id in s.locks.Keys + (set i | i in ids) :: if id in ids then w else s.locks[id]), w,
          Selected(ids, at, lease))
    case CommitClaim(w, landed, reported) =>
      var p := At(s, w);
      var s1 := if landed then ClaimLanded(s, w) else s.(locks := Unlock(s.locks, w));
      Put(s1, w, if reported then Dispatching(Items(s, p.ids)) else Idle)
    case Publish(w, landed, reported) =>
      var todo := At(s, w).todo;
      Put(s.(accepted := if landed then s.accepted + {todo[0]} else s.accepted), w,
          if reported then Sent(todo[0], todo[1..]) else Unsent(todo[0], todo[1..]))
    case MarkPublished(w, at, landed) =>
      var p := At(s, w);
      Put(if landed then MarkLanded(s, p.item.id, at) else s, w, Dispatching(p.rest))
    case MarkFailed(w, message, until, landed) =>
      var p := At(s, w);
      Put(if landed then RetryLanded(s, p.item.id, message, until) else s, w, Dispatching(p.rest))
    case Stop(w) => Put(s.(locks := Unlock(s.locks, w)), w, Idle)
    case Purge(gone, _) => s.(rows := s.rows - gone)
  }

  function Step(s: State, a: Action): State {
    if Enabled(s, a) then Apply(s, a) else s
  }

  function Run(s: State, actions: seq<Action>): State
    decreases |actions|
  {
    if actions == [] then s else Run(Step(s, actions[0]), actions[1..])
  }

  lemma {:induction false} RunAppend(s: State, xs: seq<Action>, ys: seq<Action>)
    ensures Run(s, xs + ys) == Run(Run(s, xs), ys)
    decreases |xs|
  {
    if xs == [] {
      assert xs + ys == ys;
    } else {
      assert (xs + ys)[1..] == xs[1..] + ys;
      RunAppend(Step(s, xs[0]), xs[1..], ys);
    }
  }

  lemma RunOne(s: State, x: Action)
    ensures Run(s, [x]) == Step(s, x)
  {
    assert Run(s, [x]) == Run(Step(s, x), [x][1..]);
  }

  lemma RunTwo(s: State, x: Action, y: Action)
    ensures Run(s, [x, y]) == Step(Step(s, x), y)
  {
    assert [x, y][1..] == [y];
    RunOne(Step(s, x), y);
  }

  // ---- Nothing is lost -----------------------------------------------------

  ghost predicate PhaseOk(s: State, w: Worker) {
    match At(s, w)
    case Selected(ids, at, _) =>
      && (forall i :: 0 <= i < |ids| ==> Pending(s, ids[i]) && ids[i] in s.locks && s.locks[ids[i]] == w
                                         && s.rows[ids[i]].availableAt <= at)
    case Sent(item, _) => item in s.accepted
    case _ => true
  }

  /** A locked row belongs to the batch of the claim that locked it. */
  ghost predicate LocksOk(s: State) {
    forall id {:trigger s.locks[id]} :: id in s.locks ==> At(s, s.locks[id]).Selected? && id in At(s, s.locks[id]).ids
  }

  ghost predicate Safe(s: State) {
    && (forall w {:trigger PhaseOk(s, w)} :: PhaseOk(s, w))
    && LocksOk(s)
  }

  lemma ClaimKeepsSafe(s: State, w: Worker, landed: bool, reported: bool)
    requires Safe(s) && Enabled(s, CommitClaim(w, landed, reported))
    ensures Safe(Apply(s, CommitClaim(w, landed, reported)))
  {
    var s', ids := Apply(s, CommitClaim(w, landed, reported)), At(s, w).ids;
    assert PhaseOk(s, w);
    assert s'.rows.Keys == s.rows.Keys;
    assert forall id :: id in s.rows ==> s'.rows[id].publishedAt == s.rows[id].publishedAt;
    forall u ensures PhaseOk(s', u) {
      assert PhaseOk(s, u);
      if u != w && At(s, u).Selected? {
        forall i | 0 <= i < |At(s, u).ids|
          ensures Pending(s', At(s, u).ids[i]) && At(s, u).ids[i] in s'.locks && s'.locks[At(s, u).ids[i]] == u
                  && s'.rows[At(s, u).ids[i]].availableAt <= At(s, u).at
        {
          assert At(s, u).ids[i] !in ids;
        }
      }
    }
  }

  lemma SelectKeepsSafe(s: State, w: Worker, ids: seq<Id>, limit: nat, lease: int, at: int)
    requires Safe(s) && Enabled(s, Select(w, ids, limit, lease, at))
    ensures Safe(Apply(s, Select(w, ids, limit, lease, at)))
  {
    var s' := Apply(s, Select(w, ids, limit, lease, at));
    forall u ensures PhaseOk(s', u) {
      assert PhaseOk(s, u);
    }
  }

  /** A step that keeps every lock and every locked row, and moves a dispatcher
      that is outside its claim to another such place. */
  lemma QuietKeepsSafe(s: State, s': State)
    requires Safe(s) && s'.locks == s.locks && s.accepted <= s'.accepted
    requires forall id :: id in s.locks && id in s.rows ==> id in s'.rows && s'.rows[id] == s.rows[id]
    requires forall w :: At(s, w).Selected? || At(s', w).Selected? ==> At(s', w) == At(s, w)
    requires forall w :: At(s', w).Sent? ==> At(s', w).item in s'.accepted
    ensures Safe(s')
  {
    forall w ensures PhaseOk(s', w) {
      assert PhaseOk(s, w);
    }
    forall id | id in s'.locks ensures At(s', s'.locks[id]).Selected? && id in At(s', s'.locks[id]).ids {
      assert At(s, s.locks[id]).Selected?;
    }
  }

  lemma StopKeepsSafe(s: State, w: Worker)
    requires Safe(s)
    ensures Safe(Apply(s, Stop(w)))
  {
    var s' := Apply(s, Stop(w));
    forall u ensures PhaseOk(s', u) {
      assert PhaseOk(s, u);
    }
  }

  lemma SentIsAccepted(s: State, w: Worker)
    requires Safe(s) && At(s, w).Sent?
    ensures At(s, w).item in s.accepted
  {
    assert PhaseOk(s, w);
  }

  lemma PlainKeepsSafe(s: State, a: Action)
    requires Safe(s) && Enabled(s, a)
    requires a.Tick? || a.Add? || a.Publish? || a.MarkPublished? || a.MarkFailed? || a.Purge?
    ensures Safe(Apply(s, a))
  {
    var s' := Apply(s, a);
    forall w | At(s', w).Sent? ensures At(s', w).item in s'.accepted {
      if At(s, w).Sent? {
        SentIsAccepted(s, w);
      }
    }
    QuietKeepsSafe(s, s');
  }

  lemma StepKeepsSafe(s: State, a: Action)
    requires Safe(s)
    ensures Safe(Step(s, a))
  {
    if Enabled(s, a) {
      match a
      case CommitClaim(w, landed, reported) => ClaimKeepsSafe(s, w, landed, reported);
      case Select(w, ids, limit, lease, at) => SelectKeepsSafe(s, w, ids, limit, lease, at);
      case Stop(w) => StopKeepsSafe(s, w);
      case _ => PlainKeepsSafe(s, a);
    }
  }

  lemma {:induction false} RunKeepsSafe(s: State, actions: seq<Action>)
    requires Safe(s)
    ensures Safe(Run(s, actions))
    decreases |actions|
  {
    if actions != [] {
      StepKeepsSafe(s, actions[0]);
      RunKeepsSafe(Step(s, actions[0]), actions[1..]);
    }
  }

  // ---- Every event that is known was inserted -------------------------------

  ghost predicate Known(s: State, item: Item) {
    item.life < Lives(s, item.id)
  }

  /** The events a dispatcher has yet to publish, or has published and not marked:
      those whose mark is still to come after a publish. */
  function Holding(p: Phase): seq<Item> {
    match p
    case Dispatching(todo) => todo
    case Sent(item, rest) => [item] + rest
    case Unsent(_, rest) => rest
    case _ => []
  }

  ghost predicate HoldsKnown(s: State, w: Worker) {
    forall item :: item in Holding(At(s, w)) ==> Known(s, item)
  }

  ghost predicate Numbered(s: State) {
    && (forall id {:trigger s.rows[id]} :: id in s.rows ==> s.rows[id].life + 1 == Lives(s, id))
    && (forall item {:trigger Known(s, item)} :: item in s.accepted ==> Known(s, item))
    && (forall w {:trigger HoldsKnown(s, w)} :: HoldsKnown(s, w))
  }

  lemma LivesGrow(s: State, a: Action, id: Id)
    ensures Lives(s, id) <= Lives(Step(s, a), id)
  {
  }

  /** What a dispatcher holds after a step it held before, or its claim has read. */
  lemma HoldingStep(s: State, a: Action, w: Worker, item: Item)
    requires Enabled(s, a) && item in Holding(At(Apply(s, a), w))
    ensures item in Holding(At(s, w)) || (At(s, w).Selected? && item in Items(s, At(s, w).ids))
  {
  }

  lemma StepHoldsKnown(s: State, a: Action, w: Worker)
    requires Safe(s) && Numbered(s) && Enabled(s, a)
    ensures HoldsKnown(Apply(s, a), w)
  {
    var s' := Apply(s, a);
    assert HoldsKnown(s, w) && PhaseOk(s, w);
    forall item | item in Holding(At(s', w)) ensures Known(s', item) {
      HoldingStep(s, a, w, item);
      LivesGrow(s, a, item.id);
      if item !in Holding(At(s, w)) {
        var i :| 0 <= i < |At(s, w).ids| && item == Items(s, At(s, w).ids)[i];
        assert Pending(s, At(s, w).ids[i]);
      }
    }
  }

  lemma StepAcceptsKnown(s: State, a: Action, item: Item)
    requires Numbered(s) && Enabled(s, a) && item in Apply(s, a).accepted
    ensures Known(Apply(s, a), item)
  {
    LivesGrow(s, a, item.id);
    if item in s.accepted {
      assert Known(s, item);
    } else {
      assert HoldsKnown(s, a.w);
      assert item in Holding(At(s, a.w));
    }
  }

  lemma StepKeepsNumbered(s: State, a: Action)
    requires Safe(s) && Numbered(s)
    ensures Numbered(Step(s, a))
  {
    if Enabled(s, a) {
      forall w ensures HoldsKnown(Apply(s, a), w) {
        StepHoldsKnown(s, a, w);
      }
      forall item | item in Apply(s, a).accepted ensures Known(Apply(s, a), item) {
        StepAcceptsKnown(s, a, item);
      }
    }
  }

  lemma HeldIsNumbered(s: State, id: Id)
    requires Numbered(s) && Held(s, id)
    ensures Lives(s, id) > 0
  {
    var w, item :| item in Holding(At(s, w)) && item.id == id;
    assert HoldsKnown(s, w);
  }

  lemma {:induction false} RunKeepsNumbered(s: State, actions: seq<Action>)
    requires Safe(s) && Numbered(s)
    ensures Numbered(Run(s, actions))
    decreases |actions|
  {
    if actions != [] {
      StepKeepsSafe(s, actions[0]);
      StepKeepsNumbered(s, actions[0]);
      RunKeepsNumbered(Step(s, actions[0]), actions[1..]);
    }
  }

  // ---- Nothing is lost -----------------------------------------------------

  /** The event is in the table or has been accepted by the broker. */
  ghost predicate Kept(s: State, item: Item) {
    (item.id in s.rows && s.rows[item.id].life == item.life) || item in s.accepted
  }

  /** Some dispatcher still holds an event of this id. */
  ghost predicate Held(s: State, id: Id) {
    exists w, item :: item in Holding(At(s, w)) && item.id == id
  }

  /** The event has been accepted, or its row is unpublished and no dispatcher holds
      another event of its id. */
  ghost predicate Secure(s: State, item: Item) {
    || item in s.accepted
    || (&& Pending(s, item.id) && s.rows[item.id].life == item.life
        && forall w, other :: other in Holding(At(s, w)) && other.id == item.id ==> other == item)
  }

  lemma StepKeepsSecure(s: State, a: Action, item: Item)
    requires Safe(s) && Secure(s, item)
    ensures Secure(Step(s, a), item)
  {
    if Enabled(s, a) && item !in s.accepted {
      var s' := Apply(s, a);
      forall w, other | other in Holding(At(s', w)) && other.id == item.id && item !in s'.accepted
          ensures other == item {
        HoldingStep(s, a, w, other);
      }
      if a.MarkPublished? && At(s, a.w).item.id == item.id {
        assert At(s, a.w).item in Holding(At(s, a.w));
        SentIsAccepted(s, a.w);
      }
    }
  }

  lemma {:induction false} RunKeepsSecure(s: State, actions: seq<Action>, item: Item)
    requires Safe(s) && Secure(s, item)
    ensures Secure(Run(s, actions), item)
    decreases |actions|
  {
    if actions != [] {
      StepKeepsSafe(s, actions[0]);
      StepKeepsSecure(s, actions[0], item);
      RunKeepsSecure(Step(s, actions[0]), actions[1..], item);
    }
  }

  /** The event that an insert of this id makes. */
  function NewItem(s: State, id: Id): Item {
    Item(id, Lives(s, id))
  }

  /** An event whose id was not inserted before is at all times still in the table or
      has been accepted by the broker; marked published, it has been accepted. */
  lemma NothingLost(before: seq<Action>, id: Id, at: int, after: seq<Action>)
    requires Lives(Run(Init(), before), id) == 0 && Enabled(Run(Init(), before), Add(id, at))
    ensures
      var s := Run(Step(Run(Init(), before), Add(id, at)), after);
      && Kept(s, Item(id, 0))
      && (id in s.rows && s.rows[id].life == 0 && s.rows[id].publishedAt.Some? ==> Item(id, 0) in s.accepted)
  {
    var s := Run(Init(), before);
    RunKeepsSafe(Init(), before);
    RunKeepsNumbered(Init(), before);
    if Held(s, id) {
      HeldIsNumbered(s, id);
    }
    InsertSecure(s, id, at);
    StepKeepsSafe(s, Add(id, at));
    RunKeepsSecure(Step(s, Add(id, at)), after, Item(id, 0));
  }

  lemma InsertSecure(s: State, id: Id, at: int)
    requires Enabled(s, Add(id, at)) && !Held(s, id)
    ensures Secure(Step(s, Add(id, at)), NewItem(s, id))
  {
    var s' := Step(s, Add(id, at));
    assert forall w :: At(s', w) == At(s, w);
  }

  /** Worker w holds an event of the id of `item`, all of them older ones, and that
      event's row is unpublished and free. */
  ghost predicate Losable(s: State, w: Worker, item: Item) {
    && Pending(s, item.id) && item.id !in s.locks && item !in s.accepted
    && (exists other :: other in Holding(At(s, w)) && other.id == item.id)
    && item !in Holding(At(s, w))
  }

  function Rank(p: Phase): nat {
    if p.Unsent? then 2 else if p.Dispatching? then 1 else 0
  }

  /** The next step of w towards the loss of the event. */
  function TowardsLoss(s: State, w: Worker, id: Id): Action {
    match At(s, w)
    case Dispatching(todo) =>
      if todo != [] && todo[0].id == id then Publish(w, true, true) else Publish(w, false, false)
    case Sent(_, _) => MarkPublished(w, s.now, false)
    case _ => MarkFailed(w, [], s.now, false)
  }

  lemma LossNearer(s: State, w: Worker, item: Item)
    requires Losable(s, w, item) && !(At(s, w).Sent? && At(s, w).item.id == item.id)
    ensures
      var s' := Step(s, TowardsLoss(s, w, item.id));
      && Losable(s', w, item)
      && (|Holding(At(s', w))| < |Holding(At(s, w))|
          || (|Holding(At(s', w))| == |Holding(At(s, w))| && Rank(At(s', w)) < Rank(At(s, w))))
  {
    var p, s' := At(s, w), Step(s, TowardsLoss(s, w, item.id));
    if p.Dispatching? && p.todo[0].id == item.id {
      assert Holding(At(s', w)) == p.todo;
    } else if p.Dispatching? {
      assert forall other :: other in p.todo && other.id == item.id ==> other in p.todo[1..];
    }
  }

  lemma MarkLoses(s: State, w: Worker, item: Item) returns (actions: seq<Action>)
    requires Losable(s, w, item) && At(s, w).Sent? && At(s, w).item.id == item.id
    ensures !Kept(Run(s, actions), item)
  {
    var mark, purge := MarkPublished(w, s.now, true), Purge({item.id}, s.now + 1);
    var s1 := Step(s, mark);
    assert item.id in s1.rows && s1.rows[item.id].publishedAt == Some(s.now);
    actions := [mark, purge];
    RunTwo(s, mark, purge);
  }

  lemma {:induction false} HolderLoses(s: State, w: Worker, item: Item) returns (actions: seq<Action>)
    requires Losable(s, w, item)
    ensures !Kept(Run(s, actions), item)
    decreases |Holding(At(s, w))|, Rank(At(s, w))
  {
    if At(s, w).Sent? && At(s, w).item.id == item.id {
      actions := MarkLoses(s, w, item);
    } else {
      var a := TowardsLoss(s, w, item.id);
      LossNearer(s, w, item);
      var rest := HolderLoses(Step(s, a), w, item);
      actions := [a] + rest;
      assert actions[1..] == rest;
    }
  }

  lemma LockedIsThere(s: State, id: Id)
    requires Safe(s)
    ensures id in s.locks ==> id in s.rows
  {
    if id in s.locks {
      assert PhaseOk(s, s.locks[id]);
    }
  }

  lemma NewIsLosable(s: State, id: Id, at: int, w: Worker, other: Item)
    requires Safe(s) && Numbered(s) && Enabled(s, Add(id, at)) && other in Holding(At(s, w)) && other.id == id
    ensures Losable(Step(s, Add(id, at)), w, NewItem(s, id))
  {
    LockedIsThere(s, id);
    assert HoldsKnown(s, w);
    assert !Known(s, NewItem(s, id));
  }

  /** The event of an insert is in the table or accepted ever after, whatever happens,
      exactly if no dispatcher still holds an earlier event of its id, that is, has
      yet to publish it or to mark it published: that mark would take the new row for
      the old one, and the new event would be purged without having been read. */
  lemma InsertKeptIffNotHeld(s: State, id: Id, at: int)
    requires Safe(s) && Numbered(s) && Enabled(s, Add(id, at))
    ensures (forall actions :: Kept(Run(Step(s, Add(id, at)), actions), NewItem(s, id))) <==> !Held(s, id)
  {
    var s1, item := Step(s, Add(id, at)), NewItem(s, id);
    if !Held(s, id) {
      InsertSecure(s, id, at);
      StepKeepsSafe(s, Add(id, at));
      forall actions ensures Kept(Run(s1, actions), item) {
        RunKeepsSecure(s1, actions, item);
      }
    } else {
      var w, other :| other in Holding(At(s, w)) && other.id == id;
      NewIsLosable(s, id, at, w, other);
      var actions := HolderLoses(s1, w, item);
    }
  }

  /** The cleanup reaches a row of this id that was published at the given time. */
  predicate Purges(a: Action, id: Id, published: int) {
    a.Purge? && id in a.gone && published < a.before
  }

  lemma StepKeepsPublishedAt(s: State, a: Action, id: Id)
    requires id in s.rows && s.rows[id].publishedAt.Some? && !Purges(a, id, s.rows[id].publishedAt.value)
    ensures id in Step(s, a).rows && Step(s, a).rows[id] == s.rows[id]
  {
  }

  /** A published row never changes again until a cleanup of rows published before
      some moment later than its publication. */
  lemma {:induction false} PublishedIsFinal(s: State, actions: seq<Action>, id: Id)
    requires id in s.rows && s.rows[id].publishedAt.Some?
    requires forall i :: 0 <= i < |actions| ==> !Purges(actions[i], id, s.rows[id].publishedAt.value)
    ensures id in Run(s, actions).rows && Run(s, actions).rows[id] == s.rows[id]
    decreases |actions|
  {
    if actions != [] {
      StepKeepsPublishedAt(s, actions[0], id);
      PublishedIsFinal(Step(s, actions[0]), actions[1..], id);
    }
  }

  /** A cleanup never deletes an unpublished row. */
  lemma PurgeKeepsUnpublished(s: State, a: Action, id: Id)
    requires id in s.rows && s.rows[id].publishedAt.None?
    ensures id in Step(s, a).rows && Step(s, a).rows[id].life == s.rows[id].life
  {
  }

  // ---- What a row counts -----------------------------------------------------

  /** How often an event was claimed since its insert, as the log tells it. */
  ghost function ClaimsOf(log: seq<Event>, id: Id): nat {
    if log == [] then 0
    else
      var n, last := ClaimsOf(log[..|log| - 1], id), log[|log| - 1];
      if last.Added? && last.id == id then 0 else if Claims(last, id) then n + 1 else n
  }

  /** How often its row was written since then, the insert included. */
  ghost function WritesOf(log: seq<Event>, id: Id): nat {
    if log == [] then 0
    else
      var n, last := WritesOf(log[..|log| - 1], id), log[|log| - 1];
      if last.Added? && last.id == id then 1
      else if Claims(last, id) || ((last.Marked? || last.Retried?) && last.id == id) then n + 1
      else n
  }

  ghost predicate Tallied(s: State) {
    forall id {:trigger s.rows[id]} :: id in s.rows ==>
      s.rows[id].attempts == ClaimsOf(s.log, id) && s.rows[id].version == WritesOf(s.log, id)
  }

  lemma CountAppend(log: seq<Event>, e: Event, id: Id)
    ensures ClaimsOf(log + [e], id) ==
            if e.Added? && e.id == id then 0 else ClaimsOf(log, id) + if Claims(e, id) then 1 else 0
    ensures WritesOf(log + [e], id) ==
            if e.Added? && e.id == id then 1
            else WritesOf(log, id) + if Claims(e, id) || ((e.Marked? || e.Retried?) && e.id == id) then 1 else 0
  {
    assert (log + [e])[..|log|] == log;
  }

  lemma ClaimKeepsTallied(s: State, w: Worker, landed: bool, reported: bool)
    requires Tallied(s) && Safe(s) && Enabled(s, CommitClaim(w, landed, reported))
    ensures Tallied(Apply(s, CommitClaim(w, landed, reported)))
  {
    var s', p := Apply(s, CommitClaim(w, landed, reported)), At(s, w);
    assert PhaseOk(s, w);
    forall id | id in s'.rows
      ensures s'.rows[id].attempts == ClaimsOf(s'.log, id) && s'.rows[id].version == WritesOf(s'.log, id)
    {
      assert s.rows[id].attempts == ClaimsOf(s.log, id);
      CountAppend(s.log, Claimed(p.ids, p.at, p.lease), id);
      if id in p.ids {
        assert Pending(s, id);
      }
    }
  }

  lemma StepKeepsTallied(s: State, a: Action)
    requires Tallied(s) && Safe(s)
    ensures Tallied(Step(s, a))
  {
    var s' := Step(s, a);
    if Enabled(s, a) && a.CommitClaim? {
      ClaimKeepsTallied(s, a.w, a.landed, a.reported);
    } else if s'.log != s.log {
      var e := s'.log[|s.log|];
      assert s'.log == s.log + [e];
      forall id | id in s'.rows
        ensures s'.rows[id].attempts == ClaimsOf(s'.log, id) && s'.rows[id].version == WritesOf(s'.log, id)
      {
        assert id in s.rows ==> s.rows[id].attempts == ClaimsOf(s.log, id);
        CountAppend(s.log, e, id);
      }
    }
  }

  lemma {:induction false} RunKeepsTallied(s: State, actions: seq<Action>)
    requires Tallied(s) && Safe(s)
    ensures Tallied(Run(s, actions))
    decreases |actions|
  {
    if actions != [] {
      StepKeepsTallied(s, actions[0]);
      StepKeepsSafe(s, actions[0]);
      RunKeepsTallied(Step(s, actions[0]), actions[1..]);
    }
  }

  /** In every reachable state a row's attempts are its claims since the insert, and its
      version counts the insert and every claim and mark that wrote it. */
  lemma RowTallies(actions: seq<Action>, id: Id)
    requires id in Run(Init(), actions).rows
    ensures var s := Run(Init(), actions);
            s.rows[id].attempts == ClaimsOf(s.log, id) && s.rows[id].version == WritesOf(s.log, id)
  {
    RunKeepsTallied(Init(), actions);
  }

  // ---- Leases are honoured -------------------------------------------------

  predicate Claims(e: Event, id: Id) {
    e.Claimed? && id in e.ids
  }

  /** Events that set when a row becomes available. */
  predicate Sets(e: Event, id: Id) {
    Claims(e, id) || (e.Added? && e.id == id) || (e.Retried? && e.id == id)
  }

  function Setting(e: Event): int {
    match e
    case Added(_, at) => at
    case Claimed(_, at, lease) => at + lease
    case Retried(_, until, _) => until
    case _ => 0
  }

  /** When the row of an event is available again, as the log tells it. */
  ghost function Until(log: seq<Event>, id: Id): Option<int> {
    if log == [] then None
    else if Sets(log[|log| - 1], id) then Some(Setting(log[|log| - 1]))
    else Until(log[..|log| - 1], id)
  }

  ghost predicate ClaimOk(log: seq<Event>, e: Event) {
    e.Claimed? ==> forall i :: 0 <= i < |e.ids| ==> Until(log, e.ids[i]).Some? && Until(log, e.ids[i]).value <= e.at
  }

  ghost predicate LogOk(log: seq<Event>) {
    forall i {:trigger ClaimOk(log[..i], log[i])} :: 0 <= i < |log| ==> ClaimOk(log[..i], log[i])
  }

  ghost predicate Timed(s: State) {
    && LogOk(s.log)
    && forall id {:trigger Until(s.log, id)} :: id in s.rows ==> Until(s.log, id) == Some(s.rows[id].availableAt)
  }

  lemma LogOkAppend(log: seq<Event>, e: Event)
    requires LogOk(log) && ClaimOk(log, e)
    ensures LogOk(log + [e])
  {
    var longer := log + [e];
    forall i | 0 <= i < |longer| ensures ClaimOk(longer[..i], longer[i]) {
      if i < |log| {
        assert longer[..i] == log[..i];
        assert ClaimOk(log[..i], log[i]);
      } else {
        assert longer[..i] == log;
      }
    }
  }

  lemma UntilAppend(log: seq<Event>, e: Event, id: Id)
    ensures Until(log + [e], id) == if Sets(e, id) then Some(Setting(e)) else Until(log, id)
  {
    assert (log + [e])[..|log|] == log;
  }

  lemma EventKeepsTimed(s: State, s': State, e: Event)
    requires Timed(s) && ClaimOk(s.log, e) && s'.log == s.log + [e]
    requires forall id :: id in s'.rows ==>
               if Sets(e, id) then s'.rows[id].availableAt == Setting(e)
               else id in s.rows && s'.rows[id].availableAt == s.rows[id].availableAt
    ensures Timed(s')
  {
    LogOkAppend(s.log, e);
    forall id | id in s'.rows ensures Until(s'.log, id) == Some(s'.rows[id].availableAt) {
      UntilAppend(s.log, e, id);
      assert id in s.rows ==> Until(s.log, id) == Some(s.rows[id].availableAt);
    }
  }

  lemma QuietKeepsTimed(s: State, s': State)
    requires Timed(s) && s'.log == s.log
    requires forall id :: id in s'.rows ==> id in s.rows && s'.rows[id].availableAt == s.rows[id].availableAt
    ensures Timed(s')
  {
    forall id | id in s'.rows ensures Until(s'.log, id) == Some(s'.rows[id].availableAt) {
      assert Until(s.log, id) == Some(s.rows[id].availableAt);
    }
  }

  lemma ClaimKeepsTimed(s: State, w: Worker, landed: bool, reported: bool)
    requires Timed(s) && Safe(s) && Enabled(s, CommitClaim(w, landed, reported))
    ensures Timed(Apply(s, CommitClaim(w, landed, reported)))
  {
    var s', p := Apply(s, CommitClaim(w, landed, reported)), At(s, w);
    if !landed {
      QuietKeepsTimed(s, s');
    } else {
      var e := Claimed(p.ids, p.at, p.lease);
      assert PhaseOk(s, w);
      forall i | 0 <= i < |e.ids| ensures Until(s.log, e.ids[i]).Some? && Until(s.log, e.ids[i]).value <= e.at {
        assert Pending(s, e.ids[i]);
      }
      EventKeepsTimed(s, s', e);
    }
  }

  lemma StepKeepsTimed(s: State, a: Action)
    requires Timed(s) && Safe(s)
    ensures Timed(Step(s, a))
  {
    var s' := Step(s, a);
    if Enabled(s, a) && a.CommitClaim? {
      ClaimKeepsTimed(s, a.w, a.landed, a.reported);
    } else if s'.log == s.log {
      QuietKeepsTimed(s, s');
    } else {
      EventKeepsTimed(s, s', s'.log[|s.log|]);
    }
  }

  lemma {:induction false} RunKeepsTimed(s: State, actions: seq<Action>)
    requires Timed(s) && Safe(s)
    ensures Timed(Run(s, actions))
    decreases |actions|
  {
    if actions != [] {
      StepKeepsTimed(s, actions[0]);
      StepKeepsSafe(s, actions[0]);
      RunKeepsTimed(Step(s, actions[0]), actions[1..]);
    }
  }

  /** The availability in force before position j was set by the last event that
      sets it. */
  lemma {:induction false} UntilIsLastSetting(log: seq<Event>, m: nat, j: nat, id: Id)
    requires m < j <= |log| && Sets(log[m], id)
    requires forall i :: m < i < j ==> !Sets(log[i], id)
    ensures Until(log[..j], id) == Some(Setting(log[m]))
    decreases j
  {
    assert log[..j] == log[..j - 1] + [log[j - 1]];
    UntilAppend(log[..j - 1], log[j - 1], id);
    if m < j - 1 {
      UntilIsLastSetting(log, m, j - 1, id);
    }
  }

  lemma {:induction false} LastSetting(log: seq<Event>, i: nat, j: nat, id: Id) returns (m: nat)
    requires i < j <= |log| && Sets(log[i], id)
    ensures i <= m < j && Sets(log[m], id) && forall n :: m < n < j ==> !Sets(log[n], id)
    decreases j
  {
    if Sets(log[j - 1], id) {
      m := j - 1;
    } else {
      m := LastSetting(log, i, j - 1, id);
    }
  }

  /** Over every run, a claim comes no earlier than the availability set last:
      after another claim at t with its lease, no earlier than t plus the lease;
      after a failed mark, no earlier than the retry time it set. */
  lemma ClaimWaits(actions: seq<Action>, m: nat, j: nat, id: Id)
    requires m < j < |Run(Init(), actions).log|
    requires Sets(Run(Init(), actions).log[m], id) && Claims(Run(Init(), actions).log[j], id)
    requires forall i :: m < i < j ==> !Sets(Run(Init(), actions).log[i], id)
    ensures
      var log := Run(Init(), actions).log;
      log[j].at >= if log[m].Retried? then log[m].until
                   else if log[m].Claimed? then log[m].at + log[m].lease
                   else log[m].at
  {
    var log := Run(Init(), actions).log;
    RunKeepsTimed(Init(), actions);
    UntilIsLastSetting(log, m, j, id);
    assert ClaimOk(log[..j], log[j]);
  }

  /** A failed mark or an insert, not a claim, made the event available by `at`. */
  predicate FreedBy(e: Event, id: Id, at: int) {
    Sets(e, id) && !e.Claimed? && Setting(e) <= at
  }

  /** With positive leases, two claims of one event are at least the first lease
      apart, however many other claims lie between, unless a failed mark or a new
      insert of it between them set an availability that the second has reached.
      In particular, that alone lets two claims at one instant share an event. */
  lemma {:induction false} ClaimsApart(actions: seq<Action>, i: nat, j: nat, id: Id)
    requires i < j < |Run(Init(), actions).log|
    requires Claims(Run(Init(), actions).log[i], id) && Claims(Run(Init(), actions).log[j], id)
    requires forall n :: i <= n < j && Run(Init(), actions).log[n].Claimed? ==> Run(Init(), actions).log[n].lease > 0
    ensures
      var log := Run(Init(), actions).log;
      log[j].at >= log[i].at + log[i].lease || exists n :: i < n < j && FreedBy(log[n], id, log[j].at)
    decreases j
  {
    var log := Run(Init(), actions).log;
    var m := LastSetting(log, i, j, id);
    ClaimWaits(actions, m, j, id);
    if log[m].Claimed? && m > i {
      ClaimsApart(actions, i, m, id);
    }
  }

  // ---- Claims at one instant -----------------------------------------------

  /** Claims carry clock readings of the past, and a failed mark that lands after a
      claim lands no earlier than the claim's reading. */
  ghost predicate Clocked(s: State) {
    && (forall w :: At(s, w).Selected? ==> At(s, w).at <= s.now)
    && (forall i :: 0 <= i < |s.log| && s.log[i].Claimed? ==> s.log[i].at <= s.now)
    && (forall i, n :: 0 <= i < n < |s.log| && s.log[i].Claimed? && s.log[n].Retried? ==> s.log[i].at <= s.log[n].at)
  }

  lemma StepKeepsClocked(s: State, a: Action)
    requires Clocked(s)
    ensures Clocked(Step(s, a))
  {
    var s' := Step(s, a);
    assert s.now <= s'.now;
    forall w | At(s', w).Selected? ensures At(s', w).at <= s'.now {
      assert At(s', w) == At(s, w) || a.Select?;
    }
    if s'.log != s.log {
      var e := s'.log[|s.log|];
      assert s'.log == s.log + [e];
      assert e.Claimed? ==> a.CommitClaim? && At(s, a.w).Selected? && e.at == At(s, a.w).at;
      assert e.Retried? ==> e.at == s.now;
    }
  }

  lemma {:induction false} RunKeepsClocked(s: State, actions: seq<Action>)
    requires Clocked(s)
    ensures Clocked(Run(s, actions))
    decreases |actions|
  {
    if actions != [] {
      StepKeepsClocked(s, actions[0]);
      RunKeepsClocked(Step(s, actions[0]), actions[1..]);
    }
  }

  /** A failed mark that lands before the retry time it sets. */
  predicate Prompt(e: Event) {
    e.Retried? ==> e.at < e.until
  }

  /** When the failed marks of an event between two claims of it land before their
      retry times and its id is not inserted anew, the second claim is later than
      the first: claims at one instant are disjoint. */
  lemma PromptClaimsDisjoint(actions: seq<Action>, i: nat, j: nat, id: Id)
    requires i < j < |Run(Init(), actions).log|
    requires Claims(Run(Init(), actions).log[i], id) && Claims(Run(Init(), actions).log[j], id)
    requires forall n :: i <= n < j && Run(Init(), actions).log[n].Claimed? ==> Run(Init(), actions).log[n].lease > 0
    requires forall n :: i < n < j && Sets(Run(Init(), actions).log[n], id) ==>
                           Prompt(Run(Init(), actions).log[n]) && !Run(Init(), actions).log[n].Added?
    ensures Run(Init(), actions).log[i].at < Run(Init(), actions).log[j].at
  {
    ClaimsApart(actions, i, j, id);
    RunKeepsClocked(Init(), actions);
  }

  // ---- Runs in which more is not true --------------------------------------

  function OneClaim(w: Worker, a: Id, lease: int, at: int): seq<Action> {
    [Select(w, [a], 1, lease, at), CommitClaim(w, true, true)]
  }

  /** The table holds one unpublished event, not locked, that worker w may claim. */
  ghost predicate Claimable(s: State, w: Worker, a: Id, at: int) {
    && a in s.rows && s.rows == map[a := s.rows[a]] && s.locks == map[] && At(s, w).Idle? && at <= s.now
    && s.rows[a].publishedAt.None? && s.rows[a].availableAt <= at
  }

  ghost function ClaimOnly(s: State, w: Worker, a: Id, lease: int, at: int): State
    requires a in s.rows
  {
    s.(rows := map[a := LeasedRow(s.rows[a], at + lease)],
       workers := s.workers[w := Dispatching([Item(a, s.rows[a].life)])],
       log := s.log + [Claimed([a], at, lease)])
  }

  lemma SelectOnly(s: State, w: Worker, a: Id, lease: int, at: int)
    requires Claimable(s, w, a, at)
    ensures Step(s, Select(w, [a], 1, lease, at)) ==
            s.(locks := map[a := w], workers := s.workers[w := Selected([a], at, lease)])
  {
    assert [a][0] == a;
    assert IsSelection(s, [a], 1, at);
    assert Step(s, Select(w, [a], 1, lease, at)).locks == map[a := w];
  }

  lemma CommitOnly(s: State, w: Worker, a: Id, lease: int, at: int)
    requires a in s.rows && s.rows == map[a := s.rows[a]] && s.rows[a].publishedAt.None?
    requires s.locks == map[a := w] && w in s.workers && s.workers[w] == Selected([a], at, lease)
    ensures Step(s, CommitClaim(w, true, true)) == ClaimOnly(s, w, a, lease, at).(locks := map[])
  {
    assert Unlock(s.locks, w) == map[];
    assert Items(s, [a]) == [Item(a, s.rows[a].life)];
    assert [a][0] == a;
    assert Leased(s, [a], at + lease) == map[a := LeasedRow(s.rows[a], at + lease)];
  }

  lemma OneClaimRuns(s: State, w: Worker, a: Id, lease: int, at: int)
    requires Claimable(s, w, a, at)
    ensures Run(s, OneClaim(w, a, lease, at)) == ClaimOnly(s, w, a, lease, at)
  {
    RunTwo(s, Select(w, [a], 1, lease, at), CommitClaim(w, true, true));
    SelectOnly(s, w, a, lease, at);
    var s1 := s.(locks := map[a := w], workers := s.workers[w := Selected([a], at, lease)]);
    CommitOnly(s1, w, a, lease, at);
    assert s1.workers[w := Dispatching([Item(a, s.rows[a].life)])] ==
        s.workers[w := Dispatching([Item(a, s.rows[a].life)])];
  }

  lemma MarkThenClaim(s: State, a: Id, until: int, w: Worker)
    requires a in s.rows && s.rows == map[a := s.rows[a]] && s.rows[a].publishedAt.None? && s.locks == map[]
    requires until <= s.now && At(s, 1) == Unsent(Item(a, 0), []) && w != 1 && At(s, w).Idle?
    ensures Run(s, [MarkFailed(1, [], until, true)] + OneClaim(w, a, 30, s.now)).log ==
            s.log + [Retried(a, until, s.now)] + [Claimed([a], s.now, 30)]
  {
    var s' := Step(s, MarkFailed(1, [], until, true));
    RunOne(s, MarkFailed(1, [], until, true));
    RunAppend(s, [MarkFailed(1, [], until, true)], OneClaim(w, a, 30, s.now));
    assert s'.rows == map[a := s'.rows[a]];
    OneClaimRuns(s', w, a, 30, s.now);
  }

  lemma SecondClaim(s: State, a: Id)
    requires a in s.rows && s.rows == map[a := s.rows[a]] && s.rows[a].publishedAt.None? && s.rows[a].availableAt <= 40
    requires s.locks == map[] && s.now == 40 && At(s, 1) == Unsent(Item(a, 0), []) && At(s, 2).Idle? && At(s, 3).Idle?
    ensures Run(s, OneClaim(2, a, 30, 40) + ([MarkFailed(1, [], 5, true)] + OneClaim(3, a, 30, 40))).log ==
            s.log + [Claimed([a], 40, 30)] + [Retried(a, 5, 40)] + [Claimed([a], 40, 30)]
  {
    OneClaimRuns(s, 2, a, 30, 40);
    RunAppend(s, OneClaim(2, a, 30, 40), [MarkFailed(1, [], 5, true)] + OneClaim(3, a, 30, 40));
    MarkThenClaim(ClaimOnly(s, 2, a, 30, 40), a, 5, 3);
  }

  lemma Joined(x: seq<Action>, y: seq<Action>, z: seq<Action>, s1: State, s2: State, s3: State)
    returns (actions: seq<Action>)
    requires Run(Init(), x) == s1 && Run(s1, y) == s2 && Run(s2, z) == s3
    ensures Run(Init(), actions) == s3
  {
    actions := x + y + z;
    RunAppend(Init(), x + y, z);
    RunAppend(Init(), x, y);
  }

  /** What worker 1 may do with the event it has claimed before it is held up. */
  predicate StallsAt(p: Phase, a: Id) {
    p == Dispatching([Item(a, 0)]) || p == Sent(Item(a, 0), []) || p == Unsent(Item(a, 0), [])
  }

  function UpTo(p: Phase): seq<Action> {
    if p.Dispatching? then [] else [Publish(1, p.Sent?, p.Sent?)]
  }

  lemma StallRuns(s: State, a: Id, p: Phase, ms: nat)
    requires At(s, 1) == Dispatching([Item(a, 0)]) && 1 in s.workers && StallsAt(p, a)
    ensures Run(s, UpTo(p) + [Tick(ms)]) ==
            s.(now := s.now + ms, accepted := if p.Sent? then s.accepted + {Item(a, 0)} else s.accepted,
               workers := s.workers[1 := p])
  {
    assert [Item(a, 0)][1..] == [];
    if p.Dispatching? {
      assert [] + [Tick(ms)] == [Tick(ms)];
      RunOne(s, Tick(ms));
      assert s.workers[1 := p] == s.workers;
    } else {
      var publish := Publish(1, p.Sent?, p.Sent?);
      assert [publish] + [Tick(ms)] == [publish, Tick(ms)];
      RunTwo(s, publish, Tick(ms));
    }
  }

  /** Worker 1 has claimed the event at 0 for 30 and is held up in phase p. */
  lemma Stalled(a: Id, p: Phase, ms: nat) returns (early: seq<Action>, s: State)
    requires StallsAt(p, a)
    ensures s == Run(Init(), early) && Lives(s, a) == 1
    ensures a in s.rows && s.rows == map[a := s.rows[a]] && s.locks == map[] && s.workers == map[1 := p]
    ensures s.now == ms && s.rows[a].publishedAt.None? && s.rows[a].availableAt == 30 && s.rows[a].life == 0
    ensures s.log == [Added(a, 0), Claimed([a], 0, 30)]
  {
    var s1 := Step(Init(), Add(a, 0));
    RunOne(Init(), Add(a, 0));
    OneClaimRuns(s1, 1, a, 30, 0);
    var s2 := ClaimOnly(s1, 1, a, 30, 0);
    StallRuns(s2, a, p, ms);
    s := Run(s2, UpTo(p) + [Tick(ms)]);
    early := Joined([Add(a, 0)], OneClaim(1, a, 30, 0), UpTo(p) + [Tick(ms)], s1, s2, s);
  }

  /** A failed mark that lands after its retry time. Worker 1 claims at 0 for 30 and
      fails to publish. Its mark, to retry at 5, lands only at 40, when worker 2 has
      claimed the event; so worker 3 claims it at 40 too. */
  lemma LateMarkClaimsTwice(a: Id) returns (actions: seq<Action>)
    ensures Run(Init(), actions).log ==
            [Added(a, 0), Claimed([a], 0, 30)] + [Claimed([a], 40, 30)] + [Retried(a, 5, 40)] + [Claimed([a], 40, 30)]
  {
    var early, s := Stalled(a, Unsent(Item(a, 0), []), 40);
    SecondClaim(s, a);
    var late := OneClaim(2, a, 30, 40) + ([MarkFailed(1, [], 5, true)] + OneClaim(3, a, 30, 40));
    actions := early + late;
    RunAppend(Init(), early, late);
  }

  /** The store also takes a retry time that has come already: worker 1 marks the
      event failed at 0 to retry at 0, and worker 2 claims it again at 0. */
  lemma PastRetryClaimsTwice(a: Id) returns (actions: seq<Action>)
    ensures Run(Init(), actions).log ==
            [Added(a, 0), Claimed([a], 0, 30)] + [Retried(a, 0, 0)] + [Claimed([a], 0, 30)]
  {
    var early, s := Stalled(a, Unsent(Item(a, 0), []), 0);
    MarkThenClaim(s, a, 0, 2);
    var late := [MarkFailed(1, [], 0, true)] + OneClaim(2, a, 30, 0);
    actions := early + late;
    RunAppend(Init(), early, late);
  }

  /** Worker 2, which holds the event too, publishes and marks it; it is purged. */
  lemma MarkedAndPurged(s: State, a: Id, p: Phase) returns (actions: seq<Action>, s': State)
    requires a in s.rows && s.rows[a].publishedAt.None? && s.locks == map[]
    requires At(s, 1) == p && At(s, 2) == Dispatching([Item(a, 0)])
    ensures s' == Run(s, actions) && a !in s'.rows && Lives(s', a) == Lives(s, a) && At(s', 1) == p
  {
    var publish, mark, purge := Publish(2, true, true), MarkPublished(2, s.now, true), Purge({a}, s.now + 1);
    RunTwo(s, publish, mark);
    var s1 := Step(s, publish);
    assert At(s1, 2) == Sent(Item(a, 0), [Item(a, 0)][1..]) && At(s1, 1) == p && s1.rows == s.rows;
    var s2 := Step(s1, mark);
    assert a in s2.rows && s2.rows[a].publishedAt == Some(s.now);
    RunOne(s2, purge);
    s' := Step(s2, purge);
    RunAppend(s, [publish, mark], [purge]);
    actions := [publish, mark] + [purge];
  }

  /** Both cases are reached: the event is purged and its id free again while worker 1
      still holds its old copy, not yet published or not yet marked. */
  lemma PurgedWhileHeld(a: Id, p: Phase) returns (actions: seq<Action>, s: State)
    requires p == Dispatching([Item(a, 0)]) || p == Sent(Item(a, 0), [])
    ensures s == Run(Init(), actions) && Lives(s, a) == 1 && Enabled(s, Add(a, s.now))
    ensures At(s, 1) == p && Held(s, a)
  {
    var first, s1 := Stalled(a, p, 40);
    OneClaimRuns(s1, 2, a, 30, s1.now);
    var s2 := ClaimOnly(s1, 2, a, 30, s1.now);
    var last;
    last, s := MarkedAndPurged(s2, a, p);
    actions := Joined(first, OneClaim(2, a, 30, s1.now), last, s1, s2, s);
    assert Item(a, 0) in Holding(p);
  }
}
