/** Many clients reading, building requests and publishing, in any interleaving,
    over a store whose backend obeys its contract. */
module Runs {
  import opened Core
  import opened Model
  import opened Snapshots
  import opened SnapshotStreams
  import opened Identities
  import opened Requests
  import opened Receipts
  import opened Store

  /** A request and the snapshot that its client built it from. */
  datatype Pending = Pending(request: Request, base: Snapshot)

  datatype Client = Client(view: Option<Snapshot>, pending: Option<Pending>)

  /** One call of compare_and_publish that ended in a receipt. */
  datatype Event = Event(request: Request, base: Snapshot, prior: Snapshot, receipt: PublicationReceipt, after: Snapshot)

  datatype World = World(store: Snapshot, format: Bytes, clients: map<nat, Client>, log: seq<Event>)

  datatype Action =
    | Read(client: nat)
    | Build(client: nat, deltas: seq<Delta>, transaction: Option<Digest>)
    | Publish(client: nat, locked: bool, report: BackendResult, moved: bool)

  function ClientOf(w: World, c: nat): Client { if c in w.clients then w.clients[c] else Client(None, None) }

  /** Deltas come from their factories; a backend obeys its contract. */
  ghost predicate Possible(w: World, a: Action) {
    match a
    case Read(_) => true
    case Build(c, deltas, _) => ClientOf(w, c).view.Some? && ValidDeltas(deltas)
    case Publish(c, _, report, moved) => ClientOf(w, c).pending.Some? && ValidBackendResult(report) && Obeys(report, moved)
  }

  function Next(w: World, a: Action): World {
    match a
    case Read(c) => w.(clients := w.clients[c := ClientOf(w, c).(view := Some(w.store))])
    case Build(c, deltas, transaction) => Built(w, c, deltas, transaction)
    case Publish(c, locked, report, moved) => if locked then PublishedBy(w, c, report, moved) else w
  }

  function Built(w: World, c: nat, deltas: seq<Delta>, transaction: Option<Digest>): World {
    match ClientOf(w, c).view
    case None => w
    case Some(view) =>
      match MakeRequest(view, deltas, transaction)
      case None => w
      case Some(r) => w.(clients := w.clients[c := ClientOf(w, c).(pending := Some(Pending(r, view)))])
  }

  function PublishedBy(w: World, c: nat, report: BackendResult, moved: bool): World {
    match ClientOf(w, c).pending
    case None => w
    case Some(p) =>
      var v := CompareAndPublish(p.request, w.store, w.format, report);
      var after := if moved && v.attempted.Some? then v.attempted.value else w.store;
      match v.receipt
      case None => w.(store := after)
      case Some(rc) => w.(store := after, log := w.log + [Event(p.request, p.base, w.store, rc, after)])
  }

  /** Actions that are not possible where they stand have no effect. */
  ghost function Run(w: World, actions: seq<Action>): World {
    if actions == [] then w
    else
      var before := Run(w, actions[..|actions| - 1]);
      var a := actions[|actions| - 1];
      if Possible(before, a) then Next(before, a) else before
  }

  // ---- what holds of every event ---------------------------------------------------

  /** The receipt is truthful, and the store moved exactly as it says. */
  ghost predicate Faithful(e: Event) {
    && ValidSnapshot(e.prior) && ValidSnapshot(e.after) && ValidSnapshot(e.base)
    && MadeFrom(e.request, e.base)
    && Truthful(e.receipt, e.request, e.prior)
    && (e.after == e.prior || Project(e.request, e.prior) == Some(e.after))
    && (e.receipt.resulting.Some? ==>
          Project(e.request, e.prior) == Some(e.after) && e.receipt.resulting.value == e.after.identity)
    && (e.receipt.resulting.None? && !e.receipt.outcome.Indeterminate? ==> e.after == e.prior)
  }

  /** An event that moves the store replaces the very state its client had read,
      so no update made in between is lost, unless a collision is exhibited. */
  lemma NoLostUpdate(e: Event)
    requires Faithful(e) && e.after != e.prior
    ensures e.prior == e.base || Colliding(SnapshotPair(e.prior, e.base))
  {
    hide ValidSnapshot, Project, Truthful, MakeRequest, ValidDeltas, SnapshotPair;
    ProjectedBinding(e.request, e.prior);
    RequestParts(e.request, e.base);
    if e.prior != e.base { SnapshotBinds(e.prior, e.base); }
  }

  ghost predicate Linked(initial: Snapshot, log: seq<Event>, store: Snapshot) {
    if log == [] then store == initial
    else
      var last := log[|log| - 1];
      store == last.after && Linked(initial, log[..|log| - 1], last.prior)
  }

  ghost predicate GoodClient(c: Client) {
    && (c.view.Some? ==> ValidSnapshot(c.view.value))
    && (c.pending.Some? ==> ValidSnapshot(c.pending.value.base) && MadeFrom(c.pending.value.request, c.pending.value.base))
  }

  ghost predicate Safe(initial: Snapshot, w: World) {
    && ValidSnapshot(initial) && ValidSnapshot(w.store)
    && (forall c :: c in w.clients ==> GoodClient(w.clients[c]))
    && (forall e :: e in w.log ==> Faithful(e))
    && Linked(initial, w.log, w.store)
  }

  ghost predicate Initial(w: World) { ValidSnapshot(w.store) && w.clients == map[] && w.log == [] }

  lemma PublishIsFaithful(p: Pending, store: Snapshot, format: Bytes, report: BackendResult, moved: bool)
    requires ValidSnapshot(store) && ValidSnapshot(p.base) && MadeFrom(p.request, p.base)
    requires ValidBackendResult(report) && Obeys(report, moved)
    ensures var v := CompareAndPublish(p.request, store, format, report);
            var after := if moved && v.attempted.Some? then v.attempted.value else store;
            && ValidSnapshot(after)
            && (v.receipt.None? ==> after == store)
            && (v.receipt.Some? ==> Faithful(Event(p.request, p.base, store, v.receipt.value, after)))
  {
    hide ValidSnapshot, Project, Classify, RequestId, LineSafeText, MakeRequest, ValidDeltas;
    NoSilentPublication(p.request, store, format, report);
    RequestParts(p.request, p.base);
    if Project(p.request, store).Some? { ProjectionRefines(p.request, store, []); }
    BackendShape(report);
    NormalizeEmpty();
  }

  lemma NormalizeEmpty()
    ensures Order.Normalize(DigestKey, []) == Some([])
  {
    Order.NormalizeFixes(DigestKey, []);
  }

  lemma BackendShape(b: BackendResult)
    requires ValidBackendResult(b)
    ensures !b.outcome.StaleExpectedState?
    ensures b.outcome.Published? || b.outcome.PublishedDurabilityUnconfirmed? ==> b.established
    ensures b.outcome.RequestRejected? || b.outcome.FailedBeforePublication? ==> !b.established
  {
  }

  lemma NextIsSafe(initial: Snapshot, w: World, a: Action)
    requires Safe(initial, w) && Possible(w, a)
    ensures Safe(initial, Next(w, a))
  {
    hide ValidSnapshot, Faithful, MakeRequest, CompareAndPublish, ValidDeltas;
    match a
    case Read(c) =>
    case Build(c, deltas, transaction) =>
      var view := ClientOf(w, c).view.value;
      if MakeRequest(view, deltas, transaction).Some? { MadeRequest(view, deltas, transaction); }
    case Publish(c, locked, report, moved) =>
      var p := ClientOf(w, c).pending.value;
      PublishIsFaithful(p, w.store, w.format, report, moved);
      var rc := CompareAndPublish(p.request, w.store, w.format, report).receipt;
      if locked && rc.Some? {
        var next := Next(w, a);
        assert next.log[..|next.log| - 1] == w.log;
      }
  }

  /** Whole-run safety: in every interleaving every event is faithful, and the
      events link the initial state to the final one without a gap. */
  lemma {:induction false} EveryRunIsSafe(w: World, actions: seq<Action>)
    requires Initial(w)
    ensures Safe(w.store, Run(w, actions))
  {
    hide ValidSnapshot, Faithful, Possible, Next;
    if actions != [] {
      EveryRunIsSafe(w, actions[..|actions| - 1]);
      var before, a := Run(w, actions[..|actions| - 1]), actions[|actions| - 1];
      if Possible(before, a) { NextIsSafe(w.store, before, a); }
    }
  }

  // ---- what a client gets done ----------------------------------------------------------

  /** A client that reads, builds and publishes without another client in between moves
      the store to the projection of its deltas, and its receipt says so with the
      outcome, boundary and evidence that the backend reported. */
  lemma UndisturbedPublish(w: World, c: nat, deltas: seq<Delta>, transaction: Option<Digest>, report: BackendResult)
    requires ValidSnapshot(w.store) && LineSafeText(w.format) && ValidDeltas(deltas)
    requires MakeRequest(w.store, deltas, transaction).Some?
    requires ValidBackendResult(report) && report.established
    ensures var r := MakeRequest(w.store, deltas, transaction).value;
            var last := Run(w, [Read(c), Build(c, deltas, transaction), Publish(c, true, report, true)]);
            if Project(r, w.store).None? then exists p, q :: p != q && Colliding(PackagePair(p, q))
            else
              && last.store == Project(r, w.store).value
              && last.log == w.log + [Event(r, w.store, w.store, PublicationReceipt(
                   RequestId(r), w.store.identity, w.store.identity, w.store.binding, w.format, report.outcome,
                   KnownDurability(report.outcome), report.atomicity, Some(last.store.identity), report.evidence), last.store)]
  {
    hide Project, RequestId, MakeRequest, CompareAndPublish, ValidSnapshot, LineSafeText, ValidBackendResult, ValidDelta, Possible,
         PackagePair, Run;
    var r := MakeRequest(w.store, deltas, transaction).value;
    BackendExact(report);
    ThreeSteps(w, c, deltas, transaction, report, true);
    MadeRequest(w.store, deltas, transaction);
    RequestParts(r, w.store);
    ProjectionTotal(r, w.store);
    PublicationExact(r, w.store, w.format, report);
  }

  lemma ThreeSteps(w: World, c: nat, deltas: seq<Delta>, transaction: Option<Digest>, report: BackendResult, moved: bool)
    requires ValidDeltas(deltas) && ValidBackendResult(report) && Obeys(report, moved)
    requires MakeRequest(w.store, deltas, transaction).Some?
    ensures var r := MakeRequest(w.store, deltas, transaction).value;
            var asked := w.(clients := w.clients[c := Client(Some(w.store), Some(Pending(r, w.store)))]);
            Run(w, [Read(c), Build(c, deltas, transaction), Publish(c, true, report, moved)]) == PublishedBy(asked, c, report, moved)
  {
    hide MakeRequest, PublishedBy, ValidBackendResult, ValidDelta;
    var all := [Read(c), Build(c, deltas, transaction), Publish(c, true, report, moved)];
    assert all[..2] == [Read(c), Build(c, deltas, transaction)] && all[..2][..1] == [Read(c)] && all[..1][..0] == [];
    var r := MakeRequest(w.store, deltas, transaction).value;
    var viewed := Next(w, Read(c));
    assert Run(w, all[..2][..1]) == viewed;
    var asked := Next(viewed, Build(c, deltas, transaction));
    assert Run(w, all[..2]) == asked;
    assert asked.clients == w.clients[c := Client(Some(w.store), Some(Pending(r, w.store)))];
  }

  /** A pending request built on a state that is no longer current leaves the store alone
      and gets a stale receipt that names the actual state. */
  lemma DisturbedPublish(w: World, c: nat, report: BackendResult, moved: bool)
    requires LineSafeText(w.format) && ValidBackendResult(report) && Obeys(report, moved)
    requires ClientOf(w, c).pending.Some?
    requires var r := ClientOf(w, c).pending.value.request; r.binding == w.store.binding && r.expected != w.store.identity
    ensures var p := ClientOf(w, c).pending.value;
            var next := Next(w, Publish(c, true, report, moved));
            && next.store == w.store
            && next.log == w.log + [Event(p.request, p.base, w.store, PublicationReceipt(
                 RequestId(p.request), p.request.expected, w.store.identity, p.request.binding, w.format, StaleExpectedState,
                 NotAttempted, NoBoundary, None, []), w.store)]
  {
    hide Project, RequestId, CompareAndPublish, LineSafeText, ValidBackendResult;
    PublicationExact(ClientOf(w, c).pending.value.request, w.store, w.format, report);
  }

  // ---- what the log alone tells --------------------------------------------------------

  lemma {:induction false} LinkedAt(initial: Snapshot, log: seq<Event>, store: Snapshot, i: nat)
    requires Linked(initial, log, store) && i < |log|
    ensures log[i].prior == if i == 0 then initial else log[i - 1].after
    ensures i + 1 == |log| ==> store == log[i].after
  {
    if i + 1 < |log| {
      LinkedAt(initial, log[..|log| - 1], log[|log| - 1].prior, i);
    } else if i > 0 {
      LinkedAt(initial, log[..|log| - 1], log[|log| - 1].prior, i - 1);
    }
  }

  /** Receipts chain: after a receipt that cites a result the next one observes
      that result, and after a receipt that rules a move out the next one
      observes the same prior state. */
  lemma ReceiptsChain(initial: Snapshot, w: World, i: nat)
    requires Safe(initial, w) && i + 1 < |w.log|
    ensures var now, next := w.log[i].receipt, w.log[i + 1].receipt;
            && (now.resulting.Some? ==> next.actual == now.resulting.value)
            && (now.resulting.None? && !now.outcome.Indeterminate? ==> next.actual == now.actual)
  {
    hide ValidSnapshot, Project, MadeFrom, RequestId, LineSafeText;
    LinkedAt(initial, w.log, w.store, i + 1);
    assert Faithful(w.log[i]) && Faithful(w.log[i + 1]);
  }

  /** What the moving events leave installed under a name. */
  ghost function Replay(log: seq<Event>, name: Bytes, before: Option<Package>): Option<Package> {
    if log == [] then before
    else
      var e := log[|log| - 1];
      var earlier := Replay(log[..|log| - 1], name, before);
      if e.after == e.prior then earlier else After(e.request.deltas, name, earlier)
  }

  lemma EventUpdates(e: Event, name: Bytes)
    requires Faithful(e)
    ensures Lookup(e.after.packages, name)
         == if e.after == e.prior then Lookup(e.prior.packages, name)
            else After(e.request.deltas, name, Lookup(e.prior.packages, name))
  {
    hide ValidSnapshot, Project, Truthful, MakeRequest, ValidDeltas, Lookup, After;
    RequestParts(e.request, e.base);
    if e.after != e.prior { ProjectionRefines(e.request, e.prior, name); }
  }

  /** The final state is the initial one with the deltas of the events that moved
      the store applied in log order, and nothing else. */
  lemma {:induction false} StoreIsReplay(initial: Snapshot, log: seq<Event>, store: Snapshot, name: Bytes)
    requires Linked(initial, log, store) && forall e :: e in log ==> Faithful(e)
    ensures Lookup(store.packages, name) == Replay(log, name, Lookup(initial.packages, name))
  {
    hide Faithful, Lookup, After;
    if log != [] {
      var last := log[|log| - 1];
      assert last in log;
      assert forall e :: e in log[..|log| - 1] ==> e in log;
      StoreIsReplay(initial, log[..|log| - 1], last.prior, name);
      EventUpdates(last, name);
    }
  }

  /** After any interleaving the store is the initial one with the logged moves
      applied: no update is lost, repeated or made without a receipt. */
  lemma EveryRunReplays(w: World, actions: seq<Action>, name: Bytes)
    requires Initial(w)
    ensures Lookup(Run(w, actions).store.packages, name) == Replay(Run(w, actions).log, name, Lookup(w.store.packages, name))
  {
    hide Run, Faithful, Linked, Lookup, Replay;
    EveryRunIsSafe(w, actions);
    StoreIsReplay(w.store, Run(w, actions).log, Run(w, actions).store, name);
  }

  /** A request can only move the store again after some other event brought the
      store back to the state the request expects. */
  lemma {:induction false} SecondMoveNeedsReturn(initial: Snapshot, w: World, i: nat, j: nat)
    requires Safe(initial, w) && i < j < |w.log|
    requires w.log[i].after != w.log[i].prior && w.log[i].request.expected == w.log[j].prior.identity
    ensures || Colliding(SnapshotPair(w.log[i].after, w.log[i].prior))
            || exists k :: i < k < j && w.log[k].prior.identity != w.log[k].after.identity == w.log[i].request.expected
  {
    hide ValidSnapshot, Truthful, MakeRequest, ValidDeltas, SnapshotPair, Linked, RequestId, Project;
    var e := w.log[i];
    assert Faithful(e);
    RequestParts(e.request, e.base);
    ProjectedBinding(e.request, e.prior);
    ProjectionChanges(e.request, e.prior);
    if e.after.identity != e.request.expected {
      var k := j;
      while k > i + 1 && w.log[k - 1].prior.identity == e.request.expected
        invariant i < k <= j
        invariant w.log[k].prior.identity == e.request.expected
      {
        k := k - 1;
      }
      LinkedAt(initial, w.log, w.store, k);
    }
  }
}
