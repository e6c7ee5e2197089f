/**
 * Realtime events raised while rows are saved: at once outside a transaction,
 * held per query runner inside one, announced on commit and dropped on rollback.
 */
module EventQueue {
  import opened Prelude

  type Runner = nat

  /** The subscriber's queues and everything announced so far. */
  datatype Board<E> = Board(pending: map<Runner, seq<E>>, log: seq<E>)

  function Queue<E>(b: Board<E>, r: Runner): seq<E> {
    if r in b.pending then b.pending[r] else []
  }

  function Raised<E>(b: Board<E>, r: Option<Runner>, active: bool, e: E): Board<E> {
    if r.None? || !active then b.(log := b.log + [e])
    else b.(pending := b.pending[r.value := Queue(b, r.value) + [e]])
  }

  function Committed<E>(b: Board<E>, r: Runner): Board<E> {
    Board(b.pending - {r}, b.log + Queue(b, r))
  }

  function RolledBack<E>(b: Board<E>, r: Runner): Board<E> {
    b.(pending := b.pending - {r})
  }

  class EntityEventsSubscriber<E> {
    var pending: map<Runner, seq<E>>
    var log: seq<E>

    ghost function Now(): Board<E>
      reads this
    {
      Board(pending, log)
    }

    constructor ()
      ensures Now() == Board(map[], [])
    {
      pending := map[];
      log := [];
    }

    method Raise(queryRunner: Option<Runner>, isTransactionActive: bool, e: E)
      modifies this
      ensures Now() == Raised(old(Now()), queryRunner, isTransactionActive, e)
    {
      if queryRunner.None? || !isTransactionActive {
        log := log + [e];
        return;
      }
      var r := queryRunner.value;
      var queued := if r in pending then pending[r] else [];
      queued := queued + [e];
      pending := pending[r := queued];
    }

    method AfterTransactionCommit(r: Runner)
      modifies this
      ensures Now() == Committed(old(Now()), r)
    {
      var queued := if r in pending then pending[r] else [];
      pending := pending - {r};
      for i := 0 to |queued|
        invariant pending == old(pending) - {r}
        invariant log == old(log) + queued[..i]
      {
        log := log + [queued[i]];
      }
      assert queued[..|queued|] == queued;
    }

    method AfterTransactionRollback(r: Runner)
      modifies this
      ensures Now() == RolledBack(old(Now()), r)
    {
      pending := pending - {r};
    }
  }

  // ----- Histories of any number of runners -----

  datatype Op<E> =
    | Raise(runner: Option<Runner>, event: E)
    | Begin(r: Runner)
    | Commit(r: Runner)
    | Rollback(r: Runner)

  datatype State<E> = State(active: set<Runner>, board: Board<E>)

  function Start<E>(): State<E> {
    State({}, Board(map[], []))
  }

  function Step<E>(s: State<E>, op: Op<E>): State<E> {
    match op
    case Raise(r, e) => s.(board := Raised(s.board, r, r.Some? && r.value in s.active, e))
    case Begin(r) => s.(active := s.active + {r})
    case Commit(r) => State(s.active - {r}, Committed(s.board, r))
    case Rollback(r) => State(s.active - {r}, RolledBack(s.board, r))
  }

  function After<E>(s: State<E>, h: seq<Op<E>>): State<E>
    decreases |h|
  {
    if h == [] then s else Step(After(s, h[..|h| - 1]), h[|h| - 1])
  }

  lemma {:induction false} AfterAppend<E>(s: State<E>, g: seq<Op<E>>, h: seq<Op<E>>)
    ensures After(s, g + h) == After(After(s, g), h)
    decreases |h|
  {
    if h == [] {
      assert g + h == g;
    } else {
      AfterAppend(s, g, h[..|h| - 1]);
      assert (g + h)[..|g + h| - 1] == g + h[..|h| - 1];
    }
  }

  // ----- What should be announced, read off the history alone -----

  /** The op begins or ends a transaction of runner r. */
  predicate Bounds<E>(op: Op<E>, r: Runner) {
    (op.Begin? || op.Commit? || op.Rollback?) && op.r == r
  }

  /** Runner r is inside a transaction after this history: its last boundary is a begin. */
  predicate InTransaction<E>(h: seq<Op<E>>, r: Runner) {
    if h == [] then false
    else if Bounds(h[|h| - 1], r) then h[|h| - 1].Begin?
    else InTransaction(h[..|h| - 1], r)
  }

  /** The events runner r raised, in order. */
  function RaisedBy<E>(h: seq<Op<E>>, r: Runner): seq<E> {
    if h == [] then []
    else
      var op := h[|h| - 1];
      RaisedBy(h[..|h| - 1], r) + if op.Raise? && op.runner == Some(r) then [op.event] else []
  }

  /** What runner r raised since its last boundary, if it is in a transaction. */
  function OpenEvents<E>(h: seq<Op<E>>, r: Runner): seq<E> {
    if h == [] || Bounds(h[|h| - 1], r) then []
    else
      var op := h[|h| - 1];
      OpenEvents(h[..|h| - 1], r)
      + if op.Raise? && op.runner == Some(r) && InTransaction(h[..|h| - 1], r) then [op.event] else []
  }

  /** The announcements the history calls for. */
  function Announced<E>(h: seq<Op<E>>): seq<E> {
    if h == [] then []
    else
      var before, op := h[..|h| - 1], h[|h| - 1];
      Announced(before)
      + match op
        case Raise(r, e) => if r.Some? && InTransaction(before, r.value) then [] else [e]
        case Commit(r) => OpenEvents(before, r)
        case _ => []
  }

  /** No runner begins a transaction inside its own transaction. */
  ghost predicate UnNested<E(!new)>(h: seq<Op<E>>) {
    forall i :: 0 <= i < |h| && h[i].Begin? ==> !InTransaction(h[..i], h[i].r)
  }

  lemma PrefixUnNested<E(!new)>(h: seq<Op<E>>, n: nat)
    requires UnNested(h) && n <= |h|
    ensures UnNested(h[..n])
  {
    forall i | 0 <= i < n && h[..n][i].Begin?
      ensures !InTransaction(h[..n][..i], h[..n][i].r)
    {
      assert h[..n][..i] == h[..i];
    }
  }

  ghost predicate Mirrors<E(!new)>(s: State<E>, h: seq<Op<E>>) {
    && s.board.log == Announced(h)
    && (forall r :: r in s.active <==> InTransaction(h, r))
    && (forall r :: Queue(s.board, r) == OpenEvents(h, r))
    && (forall r :: r in s.board.pending ==> r in s.active)
  }

  /** What one more operation does to what the history calls for. */
  lemma OneMoreOp<E(!new)>(h: seq<Op<E>>, op: Op<E>, r: Runner)
    ensures InTransaction(h + [op], r) == if Bounds(op, r) then op.Begin? else InTransaction(h, r)
    ensures OpenEvents(h + [op], r)
         == if Bounds(op, r) then []
            else OpenEvents(h, r)
                 + if op.Raise? && op.runner == Some(r) && InTransaction(h, r) then [op.event] else []
  {
    var g := h + [op];
    assert g[..|g| - 1] == h && g[|g| - 1] == op;
  }

  /** What one more operation does to one runner's queue. */
  lemma OneMoreQueue<E(!new)>(s: State<E>, op: Op<E>, r: Runner)
    requires forall x :: x in s.board.pending ==> x in s.active
    requires op.Begin? ==> op.r !in s.active
    ensures r in Step(s, op).active <==> if Bounds(op, r) then op.Begin? else r in s.active
    ensures Queue(Step(s, op).board, r)
         == if Bounds(op, r) then []
            else Queue(s.board, r) + if op.Raise? && op.runner == Some(r) && r in s.active then [op.event] else []
    ensures r in Step(s, op).board.pending ==> r in Step(s, op).active
  {
  }

  lemma StepMirrors<E(!new)>(s: State<E>, h: seq<Op<E>>, op: Op<E>)
    requires Mirrors(s, h)
    requires op.Begin? ==> !InTransaction(h, op.r)
    ensures Mirrors(Step(s, op), h + [op])
  {
    var g, s' := h + [op], Step(s, op);
    assert s'.board.log == Announced(g) by {
      assert g[..|g| - 1] == h && g[|g| - 1] == op;
      assert op.Commit? ==> Queue(s.board, op.r) == OpenEvents(h, op.r);
    }
    forall r
      ensures r in s'.active <==> InTransaction(g, r)
      ensures Queue(s'.board, r) == OpenEvents(g, r)
      ensures r in s'.board.pending ==> r in s'.active
    {
      assert Queue(s.board, r) == OpenEvents(h, r);
      OneMoreOp(h, op, r);
      OneMoreQueue(s, op, r);
    }
  }

  /** The log is exactly the announcements the history calls for, in that order. */
  lemma {:induction false} LogIsWhatWasCalledFor<E(!new)>(h: seq<Op<E>>)
    requires UnNested(h)
    ensures Mirrors(After(Start(), h), h)
    decreases |h|
  {
    if h != [] {
      var g := h[..|h| - 1];
      PrefixUnNested(h, |h| - 1);
      LogIsWhatWasCalledFor(g);
      StepMirrors(After(Start(), g), g, h[|h| - 1]);
      assert g + [h[|h| - 1]] == h;
    }
  }

  lemma {:induction false} OpenEventsSinceBegin<E(!new)>(h: seq<Op<E>>, i: nat, r: Runner)
    requires i < |h| && h[i] == Begin(r)
    requires forall k :: i < k < |h| ==> !Bounds(h[k], r)
    ensures InTransaction(h, r) && OpenEvents(h, r) == RaisedBy(h[i + 1..], r)
    decreases |h|
  {
    if i + 1 < |h| {
      var n := |h| - 1;
      OpenEventsSinceBegin(h[..n], i, r);
      assert h[i + 1..][..|h[i + 1..]| - 1] == h[..n][i + 1..];
    }
  }

  lemma EndingAnnounces<E(!new)>(h: seq<Op<E>>, i: nat, r: Runner, ending: Op<E>)
    requires UnNested(h) && i < |h| && h[i] == Begin(r)
    requires forall k :: i < k < |h| ==> !Bounds(h[k], r)
    requires ending == Commit(r) || ending == Rollback(r)
    ensures Step(After(Start(), h), ending).board.log
         == After(Start(), h).board.log + if ending.Commit? then RaisedBy(h[i + 1..], r) else []
  {
    LogIsWhatWasCalledFor(h);
    OpenEventsSinceBegin(h, i, r);
    assert Queue(After(Start(), h).board, r) == OpenEvents(h, r);
  }

  lemma OneMore<E>(s: State<E>, h: seq<Op<E>>, n: nat)
    requires n < |h|
    ensures After(s, h[..n + 1]) == Step(After(s, h[..n]), h[n])
  {
    assert h[..n + 1][..n] == h[..n];
  }

  /**
   * A transaction of runner r from i to j: committing announces all its events,
   * together and in the order they were raised; rolling back announces none.
   */
  lemma TransactionIsAllOrNothing<E(!new)>(h: seq<Op<E>>, i: nat, j: nat, r: Runner)
    requires UnNested(h) && i < j < |h| && h[i] == Begin(r)
    requires forall k :: i < k < j ==> !Bounds(h[k], r)
    requires h[j] == Commit(r) || h[j] == Rollback(r)
    ensures After(Start(), h[..j + 1]).board.log
         == After(Start(), h[..j]).board.log + if h[j].Commit? then RaisedBy(h[i + 1..j], r) else []
  {
    PrefixUnNested(h, j);
    EndingAnnounces(h[..j], i, r, h[j]);
    OneMore(Start(), h, j);
    assert h[..j][i + 1..] == h[i + 1..j];
  }

  // ----- The fate of one event -----

  datatype Place = Nowhere | Held(r: Runner) | InLog

  /** Event e is in exactly this place, exactly once. */
  ghost predicate At<E(!new)>(s: State<E>, e: E, place: Place) {
    && multiset(s.board.log)[e] == (if place == InLog then 1 else 0)
    && forall r :: multiset(Queue(s.board, r))[e] == (if place == Held(r) then 1 else 0)
  }

  /** Where an operation that does not raise the event takes it. */
  function Next<E>(place: Place, op: Op<E>): Place {
    if place.Held? && op == Op<E>.Commit(place.r) then InLog
    else if place.Held? && op == Op<E>.Rollback(place.r) then Nowhere
    else place
  }

  lemma Counted<E>(a: seq<E>, b: seq<E>, e: E)
    ensures multiset(a + b)[e] == multiset(a)[e] + multiset(b)[e]
  {
    assert multiset(a + b) == multiset(a) + multiset(b);
  }

  lemma OneElement<E>(a: seq<E>, f: E, e: E)
    ensures multiset(a + [f])[e] == multiset(a)[e] + if f == e then 1 else 0
  {
    Counted(a, [f], e);
  }

  lemma RaisingAnother<E(!new)>(s: State<E>, e: E, place: Place, r: Option<Runner>, f: E)
    requires At(s, e, place) && f != e
    ensures At(Step(s, Raise(r, f)), e, place)
  {
    var s' := Step(s, Raise(r, f));
    if r.Some? && r.value in s.active {
      OneElement(Queue(s.board, r.value), f, e);
      forall x
        ensures multiset(Queue(s'.board, x))[e] == if place == Held(x) then 1 else 0
      {
        assert x != r.value ==> Queue(s'.board, x) == Queue(s.board, x);
      }
    } else {
      OneElement(s.board.log, f, e);
    }
  }

  lemma CommittingMoves<E(!new)>(s: State<E>, e: E, place: Place, r: Runner)
    requires At(s, e, place)
    ensures At(Step(s, Op<E>.Commit(r)), e, Next(place, Op<E>.Commit(r)))
  {
    Counted(s.board.log, Queue(s.board, r), e);
    assert multiset(Queue(s.board, r))[e] == if place == Held(r) then 1 else 0;
  }

  lemma OthersLeaveItAlone<E(!new)>(s: State<E>, e: E, place: Place, op: Op<E>)
    requires At(s, e, place) && !(op.Raise? && op.event == e)
    ensures At(Step(s, op), e, Next(place, op))
  {
    match op {
      case Raise(r, f) => RaisingAnother(s, e, place, r, f);
      case Begin(_) =>
      case Commit(r) => CommittingMoves(s, e, place, r);
      case Rollback(r) =>
        assert multiset(Queue(s.board, r))[e] == if place == Held(r) then 1 else 0;
    }
  }

  function Fate<E>(place: Place, h: seq<Op<E>>): Place
    decreases |h|
  {
    if h == [] then place else Next(Fate(place, h[..|h| - 1]), h[|h| - 1])
  }

  ghost predicate NeverRaises<E(!new)>(h: seq<Op<E>>, e: E) {
    forall k :: 0 <= k < |h| ==> !(h[k].Raise? && h[k].event == e)
  }

  lemma {:induction false} FateFollows<E(!new)>(s: State<E>, e: E, place: Place, h: seq<Op<E>>)
    requires At(s, e, place) && NeverRaises(h, e)
    ensures At(After(s, h), e, Fate(place, h))
    decreases |h|
  {
    if h != [] {
      FateFollows(s, e, place, h[..|h| - 1]);
      OthersLeaveItAlone(After(s, h[..|h| - 1]), e, Fate(place, h[..|h| - 1]), h[|h| - 1]);
    }
  }

  lemma RaisingPutsIt<E(!new)>(s: State<E>, e: E, runner: Option<Runner>)
    requires At(s, e, Nowhere)
    ensures At(Step(s, Raise(runner, e)), e,
               if runner.Some? && runner.value in s.active then Held(runner.value) else InLog)
  {
    OneElement(s.board.log, e, e);
    if runner.Some? {
      OneElement(Queue(s.board, runner.value), e, e);
    }
  }

  /** A history is its beginning, one operation, and the rest. */
  lemma AroundOp<E>(s: State<E>, h: seq<Op<E>>, k: nat)
    requires k < |h|
    ensures After(s, h) == After(Step(After(s, h[..k]), h[k]), h[k + 1..])
  {
    OneMore(s, h, k);
    AfterAppend(s, h[..k + 1], h[k + 1..]);
    assert h[..k + 1] + h[k + 1..] == h;
  }

  lemma NotYetRaised<E(!new)>(h: seq<Op<E>>, e: E)
    requires NeverRaises(h, e)
    ensures At(After(Start(), h), e, Nowhere)
  {
    FateFollows(Start(), e, Nowhere, h);
    NowhereStays(h);
  }

  /** Where raising puts an event: with its transaction, or straight into the log. */
  function FirstPlace(runner: Option<Runner>, active: set<Runner>): Place {
    if runner.Some? && runner.value in active then Held(runner.value) else InLog
  }

  /**
   * An event raised once, at k, ends in one place only: in the log if no
   * transaction held it or the holding one committed first, nowhere if that one
   * rolled back first, and in the queue while it is still open.
   */
  lemma FateOfAnEvent<E(!new)>(h: seq<Op<E>>, k: nat, e: E)
    requires k < |h| && h[k].Raise? && h[k].event == e
    requires NeverRaises(h[..k], e) && NeverRaises(h[k + 1..], e)
    ensures At(After(Start(), h), e, Fate(FirstPlace(h[k].runner, After(Start(), h[..k]).active), h[k + 1..]))
  {
    var s := After(Start(), h[..k]);
    var place := FirstPlace(h[k].runner, s.active);
    assert At(Step(s, h[k]), e, place) by {
      NotYetRaised(h[..k], e);
      RaisingPutsIt(s, e, h[k].runner);
    }
    AroundOp(Start(), h, k);
    FateFollows(Step(s, h[k]), e, place, h[k + 1..]);
  }

  lemma {:induction false} NowhereStays<E>(h: seq<Op<E>>)
    ensures Fate(Nowhere, h) == Nowhere
    decreases |h|
  {
    if h != [] {
      NowhereStays(h[..|h| - 1]);
    }
  }

  /** The first commit or rollback of the holding runner decides, and nothing changes it afterwards. */
  lemma {:induction false} FirstEndingDecides<E>(h: seq<Op<E>>, r: Runner, j: nat)
    requires j < |h| && (h[j] == Commit(r) || h[j] == Rollback(r))
    requires forall i :: 0 <= i < j ==> h[i] != Commit(r) && h[i] != Rollback(r)
    ensures Fate(Held(r), h) == if h[j].Commit? then InLog else Nowhere
    decreases |h|
  {
    var n := |h| - 1;
    if j < n {
      FirstEndingDecides(h[..n], r, j);
    } else {
      StillHeld(h[..n], r);
    }
  }

  lemma {:induction false} StillHeld<E>(h: seq<Op<E>>, r: Runner)
    requires forall i :: 0 <= i < |h| ==> h[i] != Commit(r) && h[i] != Rollback(r)
    ensures Fate(Held(r), h) == Held(r)
    decreases |h|
  {
    if h != [] {
      StillHeld(h[..|h| - 1], r);
    }
  }
}
