/**
 Any number of `Create` calls running at once.  A call reads the clock and
 builds its record before it takes the lock; it builds its response after it
 has released the lock, from the record it found, field by field, or from its
 own arguments.  Only the critical section is atomic.
 */
module ConcurrentCreate {
  import opened Records
  import opened StoreHistory

  type CallId = nat
  type Ref = nat

  /**
   Where a call is.  `pos` is its place in the order of the critical sections;
   it is recorded for the statements below and read by no step.
   */
  datatype Progress =
    | Ready(p: CreateParams)
    | Built(p: CreateParams, at: real, ref: Ref)
    | Copying(p: CreateParams, pos: nat, existing: Ref, copied: nat, partial: CreateResult)
    | Inserted(p: CreateParams, pos: nat, at: real)
    | Done(p: CreateParams, pos: nat, result: CreateResult)
  {
    predicate Entered() {
      Copying? || Inserted? || Done?
    }
  }

  /** Records live on the heap and the primary map holds references to them. */
  datatype World = World(
    calls: map<CallId, Progress>,
    heap: map<Ref, SubmissionRecord>,
    submissions: map<string, Ref>,
    runs: map<string, seq<string>>,
    entered: seq<Call>)

  const FIELDS := 6

  const BLANK := CreateResult("", "", "", 0.0, 0, [])

  /** The response fields in the order in which they are read from the found record. */
  function CopyField(k: nat, to: CreateResult, from: SubmissionRecord): CreateResult {
    match k
    case 0 => to.(submissionId := from.submissionId)
    case 1 => to.(runReference := from.runReference)
    case 2 => to.(status := from.status)
    case 3 => to.(receivedAt := from.receivedAt)
    case 4 => to.(itemCount := from.itemCount)
    case _ => to.(warnings := from.warnings)
  }

  ghost predicate Init(w: World) {
    w == World(map[], map[], map[], map[], [])
  }

  // ---- The steps ----

  /** A request arrives. */
  ghost predicate Arrive(w: World, w': World, c: CallId, p: CreateParams) {
    c !in w.calls && w' == w.(calls := w.calls[c := Ready(p)])
  }

  /** Read the clock and allocate a record; no lock is held. */
  ghost predicate Build(w: World, w': World, c: CallId, at: real, ref: Ref) {
    && c in w.calls && w.calls[c].Ready? && ref !in w.heap
    && w' == w.(calls := w.calls[c := Built(w.calls[c].p, at, ref)],
                heap := w.heap[ref := NewRecord(w.calls[c].p, at)])
  }

  /** The critical section. */
  ghost predicate Enter(w: World, w': World, c: CallId) {
    && c in w.calls && w.calls[c].Built?
    && var Built(p, at, ref) := w.calls[c];
       var pos, entered := |w.entered|, w.entered + [Call(p, at)];
       if p.submissionId in w.submissions
       then w' == w.(calls := w.calls[c := Copying(p, pos, w.submissions[p.submissionId], 0, BLANK)],
                     entered := entered)
       else
         var ids := if p.runReference in w.runs then w.runs[p.runReference] else [];
         w' == w.(calls := w.calls[c := Inserted(p, pos, at)],
                  submissions := w.submissions[p.submissionId := ref],
                  runs := w.runs[p.runReference := ids + [p.submissionId]],
                  entered := entered)
  }

  /** Read one more field of the found record; no lock is held. */
  ghost predicate Copy(w: World, w': World, c: CallId) {
    && c in w.calls && w.calls[c].Copying? && w.calls[c].copied < FIELDS
    && var Copying(p, pos, ref, k, partial) := w.calls[c];
       && ref in w.heap
       && w' == w.(calls := w.calls[c := Copying(p, pos, ref, k + 1, CopyField(k, partial, w.heap[ref]))])
  }

  /** Return to the caller. */
  ghost predicate Return(w: World, w': World, c: CallId) {
    && c in w.calls
    && match w.calls[c]
       case Copying(p, pos, _, k, partial) =>
         k == FIELDS && w' == w.(calls := w.calls[c := Done(p, pos, partial)])
       case Inserted(p, pos, at) =>
         w' == w.(calls := w.calls[c := Done(p, pos, NewResult(p, at))])
       case _ => false
  }

  ghost predicate Next(w: World, w': World) {
    || (exists c, p :: Arrive(w, w', c, p))
    || (exists c, at, ref :: Build(w, w', c, at, ref))
    || (exists c :: Enter(w, w', c))
    || (exists c :: Copy(w, w', c))
    || (exists c :: Return(w, w', c))
  }

  ghost predicate StepAt(ws: seq<World>, i: nat) {
    i + 1 < |ws| && Next(ws[i], ws[i + 1])
  }

  /** A run of the system, from its start. */
  ghost predicate Behaviour(ws: seq<World>) {
    ws != [] && Init(ws[0]) && forall i: nat | i < |ws| - 1 :: StepAt(ws, i)
  }

  // ---- What every reachable world satisfies ----

  ghost predicate Agree(k: nat, partial: CreateResult, r: SubmissionRecord) {
    && (k > 0 ==> partial.submissionId == r.submissionId)
    && (k > 1 ==> partial.runReference == r.runReference)
    && (k > 2 ==> partial.status == r.status)
    && (k > 3 ==> partial.receivedAt == r.receivedAt)
    && (k > 4 ==> partial.itemCount == r.itemCount)
    && (k > 5 ==> partial.warnings == r.warnings)
  }

  /** What one call has done so far is what the sequential store does at its place. */
  ghost predicate CallOk(w: World, c: CallId)
    requires c in w.calls
  {
    match w.calls[c]
    case Ready(_) => true
    case Built(p, at, ref) => ref in w.heap && w.heap[ref] == NewRecord(p, at)
    case Copying(p, pos, ref, k, partial) =>
      && pos < |w.entered| && w.entered[pos].p == p && k <= FIELDS
      && ref in w.heap && ResponseAt(w.entered, pos) == ResultOf(w.heap[ref]) && Agree(k, partial, w.heap[ref])
    case Inserted(p, pos, at) =>
      && pos < |w.entered| && w.entered[pos] == Call(p, at) && ResponseAt(w.entered, pos) == NewResult(p, at)
    case Done(p, pos, result) =>
      && pos < |w.entered| && w.entered[pos].p == p && ResponseAt(w.entered, pos) == result
  }

  /** The shared maps are the sequential store after the critical sections so far. */
  ghost predicate MapsOk(w: World) {
    && var s := After(w.entered);
       && w.runs == s.runs
       && w.submissions.Keys == s.submissions.Keys
       && forall id | id in w.submissions ::
            w.submissions[id] in w.heap && w.heap[w.submissions[id]] == s.submissions[id]
  }

  ghost predicate PlacesDiffer(w: World) {
    && (forall c | c in w.calls && w.calls[c].Entered() :: w.calls[c].pos < |w.entered|)
    && (forall c, d | c in w.calls && d in w.calls && c != d && w.calls[c].Entered() && w.calls[d].Entered() ::
          w.calls[c].pos != w.calls[d].pos)
  }

  ghost predicate Inv(w: World) {
    && MapsOk(w)
    && PlacesDiffer(w)
    && forall c | c in w.calls :: CallOk(w, c)
  }

  // ---- The invariant is kept ----

  lemma ResponseOfPrefix(h: seq<Call>, c: Call, pos: nat)
    requires pos < |h|
    ensures ResponseAt(h + [c], pos) == ResponseAt(h, pos)
  {
    assert (h + [c])[..pos] == h[..pos];
  }

  /** Steps that leave the heap's records and the critical-section order in place keep every other call right. */
  lemma CallStaysOk(w: World, w': World, d: CallId)
    requires d in w.calls && d in w'.calls && w'.calls[d] == w.calls[d] && CallOk(w, d)
    requires forall ref | ref in w.heap :: ref in w'.heap && w'.heap[ref] == w.heap[ref]
    requires w'.entered == w.entered || exists e :: w'.entered == w.entered + [e]
    ensures CallOk(w', d)
  {
    if w.calls[d].Entered() && w'.entered != w.entered {
      var e :| w'.entered == w.entered + [e];
      ResponseOfPrefix(w.entered, e, w.calls[d].pos);
    }
  }

  /** The step moves one call on outside its critical section, and may put a new record on the heap. */
  ghost predicate MovesOnly(w: World, w': World, c: CallId) {
    && w'.submissions == w.submissions && w'.runs == w.runs && w'.entered == w.entered
    && (forall ref | ref in w.heap :: ref in w'.heap && w'.heap[ref] == w.heap[ref])
    && c in w'.calls && w'.calls.Keys == w.calls.Keys + {c}
    && (forall d | d in w.calls && d != c :: w'.calls[d] == w.calls[d])
    && (w'.calls[c].Entered() ==> c in w.calls && w.calls[c].Entered() && w'.calls[c].pos == w.calls[c].pos)
  }

  lemma MoveKeepsPlaces(w: World, w': World, c: CallId)
    requires PlacesDiffer(w) && MovesOnly(w, w', c)
    ensures PlacesDiffer(w')
  {
  }

  lemma MoveKeeps(w: World, w': World, c: CallId)
    requires Inv(w) && MovesOnly(w, w', c) && CallOk(w', c)
    ensures Inv(w')
  {
    MoveKeepsPlaces(w, w', c);
    forall d | d in w'.calls
      ensures CallOk(w', d)
    {
      if d != c {
        CallStaysOk(w, w', d);
      }
    }
  }

  lemma ArriveKeeps(w: World, w': World, c: CallId, p: CreateParams)
    requires Inv(w) && Arrive(w, w', c, p)
    ensures Inv(w')
  {
    MoveKeeps(w, w', c);
  }

  lemma BuildKeeps(w: World, w': World, c: CallId, at: real, ref: Ref)
    requires Inv(w) && Build(w, w', c, at, ref)
    ensures Inv(w')
  {
    MoveKeeps(w, w', c);
  }

  lemma EnterKeepsMaps(w: World, w': World, c: CallId)
    requires MapsOk(w) && c in w.calls && CallOk(w, c) && Enter(w, w', c)
    ensures MapsOk(w')
    ensures CallOk(w', c) && w'.calls[c].Entered() && w'.calls[c].pos == |w.entered|
  {
    var Built(p, at, ref) := w.calls[c];
    AfterStep(w.entered, Call(p, at));
    assert (w.entered + [Call(p, at)])[..|w.entered|] == w.entered;
    assert w'.entered[|w.entered|] == Call(p, at);
  }

  lemma EnterKeepsPlaces(w: World, w': World, c: CallId)
    requires PlacesDiffer(w) && Enter(w, w', c)
    ensures PlacesDiffer(w')
  {
    assert w'.calls[c].pos == |w.entered| < |w'.entered|;
    assert forall d | d in w'.calls && d != c :: d in w.calls && w'.calls[d] == w.calls[d];
  }

  lemma EnterKeepsCalls(w: World, w': World, c: CallId)
    requires Enter(w, w', c) && CallOk(w', c)
    requires forall d | d in w.calls :: CallOk(w, d)
    ensures forall d | d in w'.calls :: CallOk(w', d)
  {
    var e := Call(w.calls[c].p, w.calls[c].at);
    assert w'.entered == w.entered + [e];
    forall d | d in w'.calls
      ensures CallOk(w', d)
    {
      if d != c {
        CallStaysOk(w, w', d);
      }
    }
  }

  lemma EnterKeeps(w: World, w': World, c: CallId)
    requires Inv(w) && Enter(w, w', c)
    ensures Inv(w')
  {
    EnterKeepsMaps(w, w', c);
    EnterKeepsPlaces(w, w', c);
    EnterKeepsCalls(w, w', c);
  }

  /** One more field is read right, and a finished call returns what it has put together. */
  lemma CopyIsOk(w: World, w': World, c: CallId)
    requires c in w.calls && CallOk(w, c) && Copy(w, w', c)
    ensures CallOk(w', c)
  {
  }

  lemma ReturnIsOk(w: World, w': World, c: CallId)
    requires c in w.calls && CallOk(w, c) && Return(w, w', c)
    ensures CallOk(w', c)
  {
  }

  lemma CopyKeeps(w: World, w': World, c: CallId)
    requires Inv(w) && Copy(w, w', c)
    ensures Inv(w')
  {
    CopyIsOk(w, w', c);
    MoveKeeps(w, w', c);
  }

  lemma ReturnKeeps(w: World, w': World, c: CallId)
    requires Inv(w) && Return(w, w', c)
    ensures Inv(w')
  {
    ReturnIsOk(w, w', c);
    MoveKeeps(w, w', c);
  }

  lemma NextKeeps(w: World, w': World)
    requires Inv(w) && Next(w, w')
    ensures Inv(w')
  {
    if c, p :| Arrive(w, w', c, p) {
      ArriveKeeps(w, w', c, p);
    } else if c, at, ref :| Build(w, w', c, at, ref) {
      BuildKeeps(w, w', c, at, ref);
    } else if c :| Enter(w, w', c) {
      EnterKeeps(w, w', c);
    } else if c :| Copy(w, w', c) {
      CopyKeeps(w, w', c);
    } else {
      var c :| Return(w, w', c);
      ReturnKeeps(w, w', c);
    }
  }

  lemma {:induction false} InvariantHolds(ws: seq<World>, i: nat)
    requires Behaviour(ws) && i < |ws|
    ensures Inv(ws[i])
  {
    if i == 0 {
    } else {
      InvariantHolds(ws, i - 1);
      assert StepAt(ws, i - 1);
      NextKeeps(ws[i - 1], ws[i]);
    }
  }

  // ---- Main results ----

  ghost predicate HasEntered(w: World, c: CallId) {
    c in w.calls && w.calls[c].Entered()
  }

  /** Place `pos` of the order is that of call `c`, with the parameters and the clock reading it was built with. */
  ghost predicate TakenBy(ws: seq<World>, i: nat, pos: nat, c: CallId, k: nat)
    requires i < |ws| && pos < |ws[i].entered|
  {
    && HasEntered(ws[i], c) && ws[i].calls[c].pos == pos
    && k <= i && c in ws[k].calls && ws[k].calls[c].Built?
    && ws[i].entered[pos] == Call(ws[k].calls[c].p, ws[k].calls[c].at)
  }

  ghost predicate IsTaken(ws: seq<World>, i: nat, pos: nat)
    requires i < |ws| && pos < |ws[i].entered|
  {
    exists c, k :: TakenBy(ws, i, pos, c, k)
  }

  /** A call keeps its place, and one that enters takes the next. */
  ghost predicate KeepsPlace(w: World, w': World, c: CallId) {
    && (HasEntered(w, c) ==> HasEntered(w', c) && w'.calls[c].pos == w.calls[c].pos)
    && (HasEntered(w', c) && !HasEntered(w, c) ==> w'.calls[c].pos == |w.entered|)
  }

  lemma EnterPlaces(w: World, w': World, d: CallId, c: CallId)
    requires Enter(w, w', d)
    ensures KeepsPlace(w, w', c)
  {
  }

  lemma ReturnPlaces(w: World, w': World, d: CallId, c: CallId)
    requires Return(w, w', d)
    ensures KeepsPlace(w, w', c)
  {
  }

  lemma NextPlaces(w: World, w': World, c: CallId)
    requires Next(w, w')
    ensures KeepsPlace(w, w', c)
  {
    if d, p :| Arrive(w, w', d, p) {
    } else if d, at, ref :| Build(w, w', d, at, ref) {
    } else if d :| Enter(w, w', d) {
      EnterPlaces(w, w', d, c);
    } else if d :| Copy(w, w', d) {
    } else {
      var d :| Return(w, w', d);
      ReturnPlaces(w, w', d, c);
    }
  }

  /** Only a critical section adds to the order, and it adds the call that was built. */
  lemma NextEntered(w: World, w': World)
    requires Next(w, w') && w'.entered != w.entered
    ensures exists c :: c in w.calls && w.calls[c].Built? && HasEntered(w', c) && w'.calls[c].pos == |w.entered|
                        && w'.entered == w.entered + [Call(w.calls[c].p, w.calls[c].at)]
  {
    var c :| Enter(w, w', c);
    assert HasEntered(w', c);
  }

  lemma StepPlaces(ws: seq<World>, i: nat, c: CallId)
    requires Behaviour(ws) && 0 < i < |ws|
    ensures KeepsPlace(ws[i - 1], ws[i], c) && ws[i - 1].entered <= ws[i].entered
  {
    assert StepAt(ws, i - 1);
    NextPlaces(ws[i - 1], ws[i], c);
    NextExtends(ws[i - 1], ws[i]);
  }

  lemma {:induction false} EveryPlaceIsTaken(ws: seq<World>, i: nat, pos: nat)
    returns (c: CallId, k: nat)
    requires Behaviour(ws) && i < |ws| && pos < |ws[i].entered|
    ensures TakenBy(ws, i, pos, c, k)
  {
    if pos < |ws[i - 1].entered| {
      c, k := EveryPlaceIsTaken(ws, i - 1, pos);
      StepPlaces(ws, i, c);
    } else {
      assert StepAt(ws, i - 1);
      NextEntered(ws[i - 1], ws[i]);
      c :| c in ws[i - 1].calls && ws[i - 1].calls[c].Built? && HasEntered(ws[i], c)
           && ws[i].calls[c].pos == |ws[i - 1].entered|
           && ws[i].entered == ws[i - 1].entered + [Call(ws[i - 1].calls[c].p, ws[i - 1].calls[c].at)];
      k := i - 1;
    }
  }

  /** A call that enters later is placed after everything that had entered before. */
  lemma {:induction false} LaterIsPlacedAfter(ws: seq<World>, k: nat, i: nat, d: CallId)
    requires Behaviour(ws) && k <= i < |ws|
    requires !HasEntered(ws[k], d) && HasEntered(ws[i], d)
    ensures |ws[k].entered| <= ws[i].calls[d].pos
  {
    StepPlaces(ws, i, d);
    if HasEntered(ws[i - 1], d) {
      LaterIsPlacedAfter(ws, k, i - 1, d);
    } else {
      NothingFinishedChanges(ws, k, i - 1);
    }
  }

  /** Real-time order: a call that had finished before another entered has the smaller place. */
  lemma RealTimeOrder(ws: seq<World>, k: nat, i: nat, c: CallId, d: CallId)
    requires Behaviour(ws) && k <= i < |ws|
    requires c in ws[k].calls && ws[k].calls[c].Done?
    requires !HasEntered(ws[k], d) && HasEntered(ws[i], d)
    ensures HasEntered(ws[i], c) && ws[i].calls[c].pos < ws[i].calls[d].pos
  {
    InvariantHolds(ws, k);
    assert CallOk(ws[k], c);
    NothingFinishedChanges(ws, k, i);
    LaterIsPlacedAfter(ws, k, i, d);
  }

  /**
   Linearizability: in every interleaving the maps are those of the sequential
   store after the calls in the order of their critical sections; each call has
   its own place in that order and each place is some call's; a call that had
   finished before another entered precedes it; and every finished call
   returned what the sequential store returns at its place.
   */
  lemma Linearizable(ws: seq<World>, i: nat)
    requires Behaviour(ws) && i < |ws|
    ensures MapsOk(ws[i]) && PlacesDiffer(ws[i])
    ensures forall pos: nat | pos < |ws[i].entered| :: IsTaken(ws, i, pos)
    ensures forall k: nat, c, d |
              k <= i && c in ws[k].calls && ws[k].calls[c].Done? && !HasEntered(ws[k], d) && HasEntered(ws[i], d) ::
              HasEntered(ws[i], c) && ws[i].calls[c].pos < ws[i].calls[d].pos
    ensures forall c | c in ws[i].calls && ws[i].calls[c].Done? ::
              var Done(p, pos, result) := ws[i].calls[c];
              pos < |ws[i].entered| && ws[i].entered[pos].p == p && result == ResponseAt(ws[i].entered, pos)
  {
    InvariantHolds(ws, i);
    forall pos: nat | pos < |ws[i].entered|
      ensures IsTaken(ws, i, pos)
    {
      var c, k := EveryPlaceIsTaken(ws, i, pos);
    }
    forall k: nat, c, d |
      k <= i && c in ws[k].calls && ws[k].calls[c].Done? && !HasEntered(ws[k], d) && HasEntered(ws[i], d)
      ensures HasEntered(ws[i], c) && ws[i].calls[c].pos < ws[i].calls[d].pos
    {
      RealTimeOrder(ws, k, i, c, d);
    }
    forall c | c in ws[i].calls && ws[i].calls[c].Done?
      ensures ws[i].calls[c].pos < |ws[i].entered|
      ensures ws[i].entered[ws[i].calls[c].pos].p == ws[i].calls[c].p
      ensures ws[i].calls[c].result == ResponseAt(ws[i].entered, ws[i].calls[c].pos)
    {
      assert CallOk(ws[i], c);
    }
  }

  /**
   Agreement: all finished calls with one id returned the identical response,
   that of the call that entered the critical section first.
   */
  lemma FinishedCallsAgree(ws: seq<World>, i: nat, c: CallId, d: CallId) returns (first: nat)
    requires Behaviour(ws) && i < |ws|
    requires c in ws[i].calls && ws[i].calls[c].Done? && d in ws[i].calls && ws[i].calls[d].Done?
    requires ws[i].calls[c].p.submissionId == ws[i].calls[d].p.submissionId
    ensures ws[i].calls[c].result == ws[i].calls[d].result
    ensures IsFirst(ws[i].entered, first)
    ensures ws[i].entered[first].p.submissionId == ws[i].calls[c].p.submissionId
    ensures ws[i].calls[c].result == NewResult(ws[i].entered[first].p, ws[i].entered[first].at)
  {
    InvariantHolds(ws, i);
    var h := ws[i].entered;
    assert CallOk(ws[i], c) && CallOk(ws[i], d);
    first := HasFirst(h, ws[i].calls[c].p.submissionId);
    RepeatReturnsFirst(h, first, ws[i].calls[c].pos);
    RepeatReturnsFirst(h, first, ws[i].calls[d].pos);
  }

  /** Nothing that has been built or finished is different in the later world. */
  ghost predicate Extends(w: World, w': World) {
    && (forall ref | ref in w.heap :: ref in w'.heap && w'.heap[ref] == w.heap[ref])
    && (forall c | c in w.calls && w.calls[c].Done? :: c in w'.calls && w'.calls[c] == w.calls[c])
    && w.entered <= w'.entered
  }

  lemma EnterExtends(w: World, w': World, c: CallId)
    requires Enter(w, w', c)
    ensures Extends(w, w')
  {
  }

  lemma ReturnExtends(w: World, w': World, c: CallId)
    requires Return(w, w', c)
    ensures Extends(w, w')
  {
  }

  lemma NextExtends(w: World, w': World)
    requires Next(w, w')
    ensures Extends(w, w')
  {
    if c, p :| Arrive(w, w', c, p) {
    } else if c, at, ref :| Build(w, w', c, at, ref) {
    } else if c :| Enter(w, w', c) {
      EnterExtends(w, w', c);
    } else if c :| Copy(w, w', c) {
    } else {
      var c :| Return(w, w', c);
      ReturnExtends(w, w', c);
    }
  }

  lemma ExtendsOn(v: World, w: World, w': World)
    requires Extends(v, w) && Extends(w, w')
    ensures Extends(v, w')
  {
  }

  /** Records that are on the heap never change, and a finished call keeps its response. */
  lemma {:induction false} NothingFinishedChanges(ws: seq<World>, i: nat, j: nat)
    requires Behaviour(ws) && i <= j < |ws|
    ensures Extends(ws[i], ws[j])
  {
    if i == j {
    } else {
      NothingFinishedChanges(ws, i, j - 1);
      assert StepAt(ws, j - 1);
      NextExtends(ws[j - 1], ws[j]);
      ExtendsOn(ws[i], ws[j - 1], ws[j]);
    }
  }
}
