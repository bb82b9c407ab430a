/** The synchronising facade `PersistentStorage` and the operations it
    queues: the consistency check behind `withSyncronization` (fetch the
    remote value, transfer it, compare it with the local one, and alert on a
    mismatch) and the four-stage `sync()` pipeline (web request, transfer,
    cache update, notify).

    The queue is modelled by the plans it is handed (stages in submission
    order and their dependency edges) and by one run of each plan in
    dependency order; the remote side is an input saying what the remote
    call delivered. */
module Storage {
  import opened Wrappers
  import opened Uuids
  import opened TodoItems
  import opened FileCache
  import opened UpdateCache
  import AsyncOperation

  // ---------------------------------------------------------------------
  // The consistency check

  /** `ComparisonOperation.main`: no verdict without an actual value,
      otherwise whether the expected and actual values are equal. */
  function Compare<T(==)>(expected: T, actual: Option<T>): (isEqual: Option<bool>)
    ensures isEqual.None? <==> actual.None?
    ensures isEqual == Some(true) <==> actual == Some(expected)
  {
    match actual
    case None => None
    case Some(a) => Some(expected == a)
  }

  /** The two buttons of the inconsistency alert. */
  datatype AlertAction = CancelAction | SyncAction

  function Label(a: AlertAction): string {
    match a
    case CancelAction => "Cancel"
    case SyncAction => "Sync"
  }

  datatype Alert = Alert(title: string, message: string, actions: seq<AlertAction>)

  /** What `inconsistantError()` hands to the notifier. */
  const InconsistencyAlert: Alert := Alert("Error", "Server sync needed", [CancelAction, SyncAction])

  /** What pressing a button does. */
  datatype Response = CancelLogged | SyncRequested | NobodyToAsk

  /** "Cancel" only logs; "Sync" asks the notifier delegate, if it is still
      set, to run `sync()`. */
  function Respond(a: AlertAction, hasNotifier: bool): (r: Response)
    ensures r == SyncRequested <==> a == SyncAction && hasNotifier
    ensures r == CancelLogged <==> a == CancelAction
  {
    match a
    case CancelAction => CancelLogged
    case SyncAction => if hasNotifier then SyncRequested else NobodyToAsk
  }

  /** The alert is titled "Error", says "Server sync needed" and offers the
      buttons "Cancel" and "Sync", in that order; only the button labelled
      "Sync" can start a sync. */
  lemma AlertButtons(hasNotifier: bool)
    ensures InconsistencyAlert.title == "Error" && InconsistencyAlert.message == "Server sync needed"
    ensures seq(|InconsistencyAlert.actions|, k requires 0 <= k < |InconsistencyAlert.actions| =>
                Label(InconsistencyAlert.actions[k])) == ["Cancel", "Sync"]
    ensures forall k :: 0 <= k < |InconsistencyAlert.actions| ==>
              (Respond(InconsistencyAlert.actions[k], hasNotifier) == SyncRequested <==>
               Label(InconsistencyAlert.actions[k]) == "Sync" && hasNotifier)
  {
  }

  /** The visible effect of one consistency check. */
  datatype Effect =
    | Undecided            // no decision was made: the check did not deliver, or none was queued
    | LoggedIndeterminate  // no verdict: logged only
    | LoggedConsistent     // values equal: logged only
    | AlertQueued(alert: Alert)
    | NotifierMissing      // values differ but no notifier is set: logged only

  /** The decision stage (`needSyncOp`). */
  function Decide(isEqual: Option<bool>, hasNotifier: bool): (e: Effect)
    ensures isEqual.None? ==> e == LoggedIndeterminate
    ensures isEqual == Some(true) ==> e == LoggedConsistent
    ensures isEqual == Some(false) ==> e == (if hasNotifier then AlertQueued(InconsistencyAlert) else NotifierMissing)
  {
    match isEqual
    case None => LoggedIndeterminate
    case Some(equal) =>
      if equal then LoggedConsistent
      else if hasNotifier then AlertQueued(InconsistencyAlert)
      else NotifierMissing
  }

  /** What a callback-style remote call does: deliver a value through its
      handler, never call the handler, or never run because the operation
      was cancelled before it started. */
  datatype Delivery<T> = Delivered(value: T) | Undelivered | CancelledBeforeStart

  /** The flags of the operation wrapping a callback-style remote call
      (`AwaitingOperation`, `WebRequestOperation`) once the queue has
      started it: it finishes when the handler fires. */
  function RemoteOpFlags<T>(d: Delivery<T>): (f: AsyncOperation.Flags)
    ensures f.finished <==> !d.Undelivered?
    ensures f.executing <==> !d.CancelledBeforeStart?
  {
    var created := if d.CancelledBeforeStart? then AsyncOperation.Cancel(AsyncOperation.Initial) else AsyncOperation.Initial;
    AsyncOperation.Start(created, if d.Delivered? then AsyncOperation.CallsFinish else AsyncOperation.NeverFinishes)
  }

  /** The operation's `result` slot: set only by the handler. */
  function ResultSlot<T>(d: Delivery<T>): (r: Option<T>)
    ensures r.Some? <==> d.Delivered?
    ensures r.Some? ==> r.value == d.value
  {
    if d.Delivered? then Some(d.value) else None
  }

  /** The outcome of `withSyncronization`: what it returns, and what the
      queued check eventually shows. */
  datatype Checked<T> = Checked(result: T, effect: Effect)

  /** `withSyncronization` with a callback-style remote call. The check's
      stages run in dependency order: the transfer and the comparison wait
      for the remote operation to finish, the decision waits for them. */
  function WithSyncCallback<T(==)>(local: T, remote: Delivery<T>, hasNotifier: bool): (c: Checked<T>)
    ensures c.result == local
    ensures c.effect == Undecided <==> remote.Undelivered?
    ensures c.effect == LoggedIndeterminate <==> remote.CancelledBeforeStart?
    ensures remote.Delivered? ==> (c.effect == LoggedConsistent <==> remote.value == local)
    ensures c.effect.AlertQueued? <==> remote.Delivered? && remote.value != local && hasNotifier
    ensures c.effect.AlertQueued? ==> c.effect.alert == InconsistencyAlert
  {
    var fetched := RemoteOpFlags(remote);
    if !fetched.finished then Checked(local, Undecided)
    else
      var actual := ResultSlot(remote);
      Checked(local, Decide(Compare(local, actual), hasNotifier))
  }

  /** `withSyncronization` with a value-returning remote call
      (`ExecutionOperation`): the call runs to completion inside the
      operation, so the check always reaches a verdict. */
  function WithSyncBlocking<T(==)>(local: T, remote: T, hasNotifier: bool): (c: Checked<T>)
    ensures c.result == local
    ensures c.effect == (if remote == local then LoggedConsistent
                         else if hasNotifier then AlertQueued(InconsistencyAlert)
                         else NotifierMissing)
  {
    Checked(local, Decide(Compare(local, Some(remote)), hasNotifier))
  }

  /** The value returned is the local one whatever the remote side does:
      two runs that differ only in the remote call return the same. */
  lemma CheckReturnsLocal<T>(local: T, r1: Delivery<T>, r2: Delivery<T>, n1: bool, n2: bool)
    ensures WithSyncCallback(local, r1, n1).result == WithSyncCallback(local, r2, n2).result
  {
  }

  /** Both overloads agree whenever the callback delivers. */
  lemma OverloadsAgree<T>(local: T, remote: T, hasNotifier: bool)
    ensures WithSyncCallback(local, Delivered(remote), hasNotifier) == WithSyncBlocking(local, remote, hasNotifier)
  {
  }

  // ---------------------------------------------------------------------
  // Plans handed to the queue

  /** `prerequisite` must finish before `dependent` may start
      (`dependent.addDependency(prerequisite)`). */
  datatype Edge<S> = Edge(dependent: S, prerequisite: S)

  /** The stages in the order they are added to the queue, and their
      dependency edges. */
  datatype Plan<S> = Plan(stages: seq<S>, edges: seq<Edge<S>>)

  datatype CheckStage = RemoteCall | TransferResult | Validate | NeedSync

  datatype SyncStage = WebRequest | TransferItems | UpdateItems | NotifyDone

  /** The four operations `withSyncronization` queues (both overloads). */
  function CheckPlan(): (p: Plan<CheckStage>)
    ensures IsChain(p) && |p.stages| == 4
    ensures p.stages[0] == RemoteCall && p.stages[3] == NeedSync
  {
    Plan([RemoteCall, TransferResult, Validate, NeedSync],
         [Edge(TransferResult, RemoteCall), Edge(Validate, TransferResult), Edge(NeedSync, Validate)])
  }

  /** The operations `sync()` queues; nothing at all when no notifier
      delegate is set. */
  function SyncPlan(hasNotifier: bool): (p: Option<Plan<SyncStage>>)
    ensures p.Some? <==> hasNotifier
    ensures p.Some? ==> IsChain(p.value) && |p.value.stages| == 4
    ensures p.Some? ==> p.value.stages[0] == WebRequest && p.value.stages[3] == NotifyDone
  {
    if !hasNotifier then None
    else
      Some(Plan([WebRequest, TransferItems, UpdateItems, NotifyDone],
                [Edge(TransferItems, WebRequest), Edge(UpdateItems, TransferItems), Edge(NotifyDone, UpdateItems)]))
  }

  /** The edges link each stage to the one submitted just before it. */
  predicate IsChain<S(==)>(p: Plan<S>) {
    |p.edges| + 1 == |p.stages| &&
    forall i :: 0 <= i < |p.edges| ==> p.edges[i] == Edge(p.stages[i + 1], p.stages[i])
  }

  /** An order in which the stages may run: each stage appears once, and
      every dependent runs after its prerequisite. */
  predicate Admissible<S(==)>(p: Plan<S>, order: seq<S>) {
    multiset(order) == multiset(p.stages) &&
    forall k, i :: 0 <= k < |p.edges| && 0 <= i < |order| && order[i] == p.edges[k].dependent ==>
      exists j :: 0 <= j < i && order[j] == p.edges[k].prerequisite
  }

  /** Both plans are chains of four distinct stages. */
  lemma PlansAreChains()
    ensures IsChain(CheckPlan())
    ensures IsChain(SyncPlan(true).value)
    ensures SyncPlan(false).None?
  {
  }

  /** Every stage of the plan occurs in an admissible order. */
  lemma StageOccurs<S>(p: Plan<S>, order: seq<S>, k: nat)
    requires Admissible(p, order) && k < |p.stages|
    ensures p.stages[k] in order
  {
    assert p.stages[k] in multiset(p.stages);
    assert p.stages[k] in multiset(order);
  }

  /** Along a chain, each stage runs after the one submitted before it. */
  lemma ChainStepOrdered<S>(p: Plan<S>, order: seq<S>, k: nat)
    requires IsChain(p) && Admissible(p, order)
    requires 0 < k < |p.stages|
    ensures p.stages[k - 1] in order && p.stages[k] in order
    ensures PositionOf(order, p.stages[k - 1]) < PositionOf(order, p.stages[k])
  {
    StageOccurs(p, order, k - 1);
    StageOccurs(p, order, k);
    var i := PositionOf(order, p.stages[k]);
    assert p.edges[k - 1] == Edge(p.stages[k], p.stages[k - 1]);
    assert order[i] == p.edges[k - 1].dependent;
    var j :| 0 <= j < i && order[j] == p.edges[k - 1].prerequisite;
    PositionIsFirst(order, p.stages[k - 1], j);
  }

  /** In a chain of four stages the only order the queue can run them in is
      the submission order: whatever the concurrency, the update stage never
      runs before the transfer has filled its input, and the notification
      never before the update. */
  lemma {:induction false} ChainOrderIsForced<S>(p: Plan<S>, order: seq<S>)
    requires IsChain(p) && |p.stages| == 4
    requires Admissible(p, order)
    ensures order == p.stages
  {
    var s := p.stages;
    assert |order| == 4 by {
      assert |multiset(order)| == |multiset(s)|;
    }
    ChainStepOrdered(p, order, 1);
    ChainStepOrdered(p, order, 2);
    ChainStepOrdered(p, order, 3);
    var a, b, c, d := PositionOf(order, s[0]), PositionOf(order, s[1]), PositionOf(order, s[2]), PositionOf(order, s[3]);
    assert a == 0 && b == 1 && c == 2 && d == 3;
    assert order[0] == s[0] && order[1] == s[1] && order[2] == s[2] && order[3] == s[3];
  }

  /** A chain of distinct stages may run in its submission order. */
  lemma ChainSubmissionAdmissible<S>(p: Plan<S>)
    requires IsChain(p)
    requires forall a, b :: 0 <= a < b < |p.stages| ==> p.stages[a] != p.stages[b]
    ensures Admissible(p, p.stages)
  {
    forall k, i | 0 <= k < |p.edges| && 0 <= i < |p.stages| && p.stages[i] == p.edges[k].dependent
      ensures exists j :: 0 <= j < i && p.stages[j] == p.edges[k].prerequisite
    {
      assert p.stages[i] == p.stages[k + 1];
      assert i == k + 1;
      assert p.stages[k] == p.edges[k].prerequisite;
    }
  }

  /** The submission order of each plan is one the queue may run. */
  lemma SubmissionOrdersAreAdmissible()
    ensures Admissible(SyncPlan(true).value, SyncPlan(true).value.stages)
    ensures Admissible(CheckPlan(), CheckPlan().stages)
  {
    ChainSubmissionAdmissible(SyncPlan(true).value);
    ChainSubmissionAdmissible(CheckPlan());
  }

  /** The sync pipeline runs in exactly one order: fetch, transfer,
      update, notify. */
  lemma SyncOrderIsForced(order: seq<SyncStage>)
    requires Admissible(SyncPlan(true).value, order)
    ensures order == [WebRequest, TransferItems, UpdateItems, NotifyDone]
  {
    PlansAreChains();
    ChainOrderIsForced(SyncPlan(true).value, order);
  }

  /** The consistency check runs in exactly one order: remote call,
      transfer, comparison, alert. */
  lemma CheckOrderIsForced(order: seq<CheckStage>)
    requires Admissible(CheckPlan(), order)
    ensures order == [RemoteCall, TransferResult, Validate, NeedSync]
  {
    PlansAreChains();
    ChainOrderIsForced(CheckPlan(), order);
  }

  /** The first position of a value in a sequence it occurs in. */
  function PositionOf<S(==)>(order: seq<S>, x: S): (i: nat)
    requires x in order
    ensures i < |order| && order[i] == x
    ensures forall j :: 0 <= j < i ==> order[j] != x
  {
    if order[0] == x then 0 else 1 + PositionOf(order[1..], x)
  }

  lemma PositionIsFirst<S>(order: seq<S>, x: S, j: nat)
    requires j < |order| && order[j] == x
    ensures PositionOf(order, x) <= j
  {
  }

  // ---------------------------------------------------------------------
  // One run of the sync pipeline

  /** What one `sync()` leaves behind: the local list, the flags of the web
      request and cache update operations, and whether the notifier was told
      that syncing finished. */
  datatype SyncRun = SyncRun(items: Items, web: AsyncOperation.Flags, update: AsyncOperation.Flags, notified: bool)

  /** `sync()` followed by the queue running its plan. The web request
      finishes when the remote list arrives; the transfer copies its result
      slot into the update operation; the update operation re-syncs the
      cache but calls `finish()` only when it received a list, so without
      one the notification stage never becomes ready. */
  function RunSync(items: Items, remote: Delivery<Items>, hasNotifier: bool): (r: SyncRun)
    ensures r.notified <==> hasNotifier && remote.Delivered?
    ensures !r.notified ==> r.items == items
    ensures r.notified ==> r.items == UpdateCacheMain(items, Some(remote.value)).items
    ensures r.notified ==> IdSet(r.items) == IdSet(remote.value) && DistinctIds(r.items)
    ensures hasNotifier && remote.CancelledBeforeStart? ==> r.update.executing && !r.update.finished
  {
    if SyncPlan(hasNotifier).None? then
      SyncRun(items, AsyncOperation.Initial, AsyncOperation.Initial, false)
    else
      var web := RemoteOpFlags(remote);
      if !web.finished then
        SyncRun(items, web, AsyncOperation.Initial, false)
      else
        var newItems := ResultSlot(remote);
        var outcome := UpdateCacheMain(items, newItems);
        var update := AsyncOperation.Start(AsyncOperation.Initial,
          if outcome.finishCalled then AsyncOperation.CallsFinish else AsyncOperation.NeverFinishes);
        SyncRun(outcome.items, web, update, update.finished)
  }

  /** Running the pipeline a second time with the same remote list changes
      nothing further. */
  lemma RunSyncIdempotent(items: Items, remote: Items)
    ensures RunSync(RunSync(items, Delivered(remote), true).items, Delivered(remote), true) ==
            RunSync(items, Delivered(remote), true)
  {
    ResyncIdempotent(items, items, remote);
  }

  /** Starting from an empty cache, a remote list without repeated
      identifiers becomes exactly the local list. */
  lemma SyncIntoEmptyCache(remote: Items)
    requires DistinctIds(remote)
    ensures RunSync([], Delivered(remote), true).items == remote
  {
    ResyncOfDistinctSnapshot([], remote);
  }

  // ---------------------------------------------------------------------
  // The facade

  /** The state the facade's operations change: the local list. The remote
      side is reached only through the `Delivery` inputs. */
  datatype Answer<T> = Answer(items: Items, result: T, effect: Effect)

  /** `add(_:)`: the local add, and the item is sent to the remote store
      without waiting for it and without a check. */
  function FacadeAdd(items: Items, x: Item): (r: Answer<()>)
    ensures r.items == Add(items, x)
    ensures r.effect == Undecided
  {
    Answer(Add(items, x), (), Undecided)
  }

  /** `update(at:todoItem:)`: returns the local result; the remote result
      only feeds the check. */
  function FacadeUpdate(items: Items, id: Uuid, x: Item, remote: Delivery<bool>, hasNotifier: bool): (r: Answer<bool>)
    ensures r.items == Update(items, id, x).items
    ensures r.result <==> id in IdSet(items)
    ensures r.effect.AlertQueued? <==> remote.Delivered? && remote.value != r.result && hasNotifier
    ensures r.effect.AlertQueued? ==> r.effect.alert == InconsistencyAlert
  {
    var local := Update(items, id, x);
    var c := WithSyncCallback(local.ok, remote, hasNotifier);
    Answer(local.items, c.result, c.effect)
  }

  /** `remove(by:)`. */
  function FacadeRemove(items: Items, id: Uuid, remote: Delivery<bool>, hasNotifier: bool): (r: Answer<bool>)
    ensures r.items == Remove(items, id).items
    ensures r.result <==> id in IdSet(items)
    ensures r.effect.AlertQueued? <==> remote.Delivered? && remote.value != r.result && hasNotifier
    ensures r.effect.AlertQueued? ==> r.effect.alert == InconsistencyAlert
  {
    var local := Remove(items, id);
    var c := WithSyncCallback(local.ok, remote, hasNotifier);
    Answer(local.items, c.result, c.effect)
  }

  /** `get(by:)`. */
  function FacadeGet(items: Items, id: Uuid, remote: Delivery<Option<Item>>, hasNotifier: bool): (r: Answer<Option<Item>>)
    ensures r.items == items
    ensures r.result == Get(items, id)
    ensures r.effect.AlertQueued? <==> remote.Delivered? && remote.value != Get(items, id) && hasNotifier
    ensures r.effect.AlertQueued? ==> r.effect.alert == InconsistencyAlert
  {
    var c := WithSyncCallback(Get(items, id), remote, hasNotifier);
    Answer(items, c.result, c.effect)
  }

  /** The `todoItems` getter. */
  function FacadeItems(items: Items, remote: Delivery<Items>, hasNotifier: bool): (r: Answer<Items>)
    ensures r.items == items && r.result == items
    ensures r.effect.AlertQueued? <==> remote.Delivered? && remote.value != items && hasNotifier
    ensures r.effect.AlertQueued? ==> r.effect.alert == InconsistencyAlert
  {
    var c := WithSyncCallback(items, remote, hasNotifier);
    Answer(items, c.result, c.effect)
  }

  /** The local list holds an item, the remote list holds the
      same item with different text; the getter still returns the local list
      and the check raises the inconsistency alert. */
  lemma MismatchRaisesAlert(a: Item, text: string)
    requires text != a.text
    ensures FacadeItems([a], Delivered([a.(text := text)]), true) ==
            Answer([a], [a], AlertQueued(InconsistencyAlert))
  {
    assert [a.(text := text)] != [a] by {
      assert [a.(text := text)][0].text != [a][0].text;
    }
  }

  /** An item added through the facade is returned by a later `get` from
      the local list, whatever the remote side does. */
  lemma AddedItemIsLocallyVisible(items: Items, x: Item, remote: Delivery<Option<Item>>, hasNotifier: bool)
    requires x.id !in IdSet(items)
    ensures FacadeGet(FacadeAdd(items, x).items, x.id, remote, hasNotifier).result == Some(x)
  {
    AddThenGet(items, x);
  }
}
