// What each request did over a whole run, amid any others: its result tells the truth about
// its own effect, and what a batch leaves behind.
module Stories {
  import opened Schema
  import opened History
  import opened Ledger
  import opened Protocol
  import opened Refinement
  import opened Guarantees
  import opened Steps

  // The request that started `p`.
  function RequestOf(run: seq<Label>, p: Pid): Option<Request> {
    if run == [] then None
    else
      var before, l := RequestOf(run[..|run| - 1], p), run[|run| - 1];
      if before.None? && l.Arrive? && l.p == p then Some(l.request) else before
  }

  predicate StepOf(l: Label, p: Pid) {
    !l.CreateEvent? && !l.Arrive? && !l.RedisChange? && l.p == p
  }

  // Where in the history the actions are that steps of `p` committed.
  function DoneBy(mode: Mode, run: seq<Label>, p: Pid): seq<nat> {
    if run == [] then []
    else
      var prefix, l := run[..|run| - 1], run[|run| - 1];
      DoneBy(mode, prefix, p) + Appended(Exec(mode, prefix), Exec(mode, run), l, p)
  }

  function Appended(s: State, s': State, l: Label, p: Pid): seq<nat> {
    if StepOf(l, p) && |s.history| < |s'.history| then [|s.history|] else []
  }

  // ---------- the story of one request ----------

  predicate DidOne(h: seq<Action>, did: seq<nat>) {
    |did| == 1 && did[0] < |h|
  }

  predicate DidBook(h: seq<Action>, did: seq<nat>, req: Request, b: BookingId) {
    && req.BookRequest? && DidOne(h, did)
    && h[did[0]].Book? && h[did[0]] == Book(b, req.u, req.e, req.n, h[did[0]].now)
  }

  predicate DidCancel(h: seq<Action>, did: seq<nat>, req: Request, b: BookingId) {
    && req.CancelRequest? && req.b == b
    && 0 < |did| && did[0] < |h| && h[did[0]].Cancel? && h[did[0]].b == b
  }

  // What a result claims about the actions the request committed.
  predicate Claims(h: seq<Action>, req: Request, result: Result, did: seq<nat>) {
    match result
    case Booked(b) => DidBook(h, did, req, b)
    case CancelDone(b) =>
      && DidCancel(h, did, req, b)
      && (|did| == 1 || (|did| == 2 && did[0] < did[1] < |h| && h[did[1]].LogCancel? && h[did[1]].b == b))
    case UpdateDone =>
      && req.UpdateRequest? && DidOne(h, did)
      && h[did[0]].Update? && h[did[0]].e == req.e && h[did[0]].edit == req.edit
    case DeleteDone => req.DeleteRequest? && DidOne(h, did) && h[did[0]] == Delete(req.e)
    case Failed(err) => did == []
  }

  predicate Story(h: seq<Action>, req: Request, pc: Proc, did: seq<nat>) {
    match pc
    case BookStart(u, e, n) => req == BookRequest(u, e, n) && did == []
    case BookLocked(u, e, n, tok) => req == BookRequest(u, e, n) && did == []
    case BookRead(v) => req == BookRequest(v.u, v.e, v.n) && did == []
    case BookInserted(v, b, now, row) => req == BookRequest(v.u, v.e, v.n) && did == []
    case BookDecremented(v, b, now, row, event) => req == BookRequest(v.u, v.e, v.n) && did == []
    case BookLogged(v, b, now, row, event, poisoned) => req == BookRequest(v.u, v.e, v.n) && did == []
    case BookEnded(e, tok, result) => Claims(h, req, result, did)
    case CancelStart(b, u) => req == CancelRequest(b, u) && did == []
    case CancelRead(b, u, before) => req == CancelRequest(b, u) && did == []
    case CancelLocked(b, u, before, row) => req == CancelRequest(b, u) && did == [] && row.user == u
    case CancelMarked(b, before, row, now) => req == CancelRequest(b, row.user) && did == []
    case CancelRestored(b, before, row, now, event) => req == CancelRequest(b, row.user) && did == []
    case CancelCommitted(b, before, after) => DidCancel(h, did, req, b) && |did| == 1
    case UpdateStart(e, edit) => req == UpdateRequest(e, edit) && did == []
    case UpdateRead(e, edit, read, readAt) => req == UpdateRequest(e, edit) && did == []
    case DeleteStart(e) => req == DeleteRequest(e) && did == []
    case DeleteRead(e) => req == DeleteRequest(e) && did == []
    case Done(result) => Claims(h, req, result, did)
  }

  lemma StoryStands(h: seq<Action>, h': seq<Action>, req: Request, pc: Proc, did: seq<nat>)
    requires Story(h, req, pc, did) && h <= h'
    ensures Story(h', req, pc, did)
  {
  }

  lemma QuietMove(h: seq<Action>, req: Request, pc: Proc, pc': Proc, did: seq<nat>)
    requires Moves(pc, pc', None) && Story(h, req, pc, did)
    ensures Story(h, req, pc', did)
  {
  }

  lemma CommittingMove(h: seq<Action>, req: Request, pc: Proc, pc': Proc, a: Action, did: seq<nat>)
    requires Moves(pc, pc', Some(a)) && Story(h, req, pc, did)
    ensures Story(h + [a], req, pc', did + [|h|])
  {
  }

  // Steps of others and of the environment move no other request.
  lemma OthersStay(mode: Mode, s: State, l: Label, p: Pid)
    requires !StepOf(l, p) && !(l.Arrive? && l.p == p)
    ensures p in Step(mode, s, l).procs <==> p in s.procs
    ensures p in s.procs ==> Step(mode, s, l).procs[p] == s.procs[p]
  {
    if !l.CreateEvent? && !l.Arrive? && !l.RedisChange? && l.p in s.procs {
      StepIsProper(mode, s, l, s.procs[l.p]);
      hide StepProc, Moves;
    }
  }

  lemma ProperStory(mode: Mode, s: State, s': State, p: Pid, req: Request, did: seq<nat>)
    requires Proper(mode, s, s', p) && (Quiet(s, s') || AppendsOne(s, s')) && Story(s.history, req, s.procs[p], did)
    ensures Story(s'.history, req, s'.procs[p], did + if |s.history| < |s'.history| then [|s.history|] else [])
  {
    hide Moves, Story, Disciplined;
    if |s.history| < |s'.history| {
      var a := s'.history[|s.history|];
      assert s'.history == s.history + [a];
      CommittingMove(s.history, req, s.procs[p], s'.procs[p], a, did);
    } else {
      QuietMove(s.history, req, s.procs[p], s'.procs[p], did);
      assert did + [] == did;
    }
  }

  lemma OwnStep(mode: Mode, s: State, l: Label, p: Pid, req: Request, did: seq<nat>)
    requires StepOf(l, p) && p in s.procs && Story(s.history, req, s.procs[p], did)
    ensures var s' := StepProc(mode, s, l, s.procs[p]);
            p in s'.procs && Story(s'.history, req, s'.procs[p], did + Appended(s, s', l, p))
  {
    hide StepProc, Story, Moves, Disciplined;
    StepIsProper(mode, s, l, s.procs[p]);
    ProperStory(mode, s, StepProc(mode, s, l, s.procs[p]), p, req, did);
  }

  // The story of `p` up to here.
  predicate Told(s: State, p: Pid, request: Option<Request>, did: seq<nat>) {
    if p in s.procs then request.Some? && Story(s.history, request.value, s.procs[p], did)
    else request.None? && did == []
  }

  lemma ToldByItself(mode: Mode, s: State, l: Label, p: Pid, request: Option<Request>, did: seq<nat>)
    requires StepOf(l, p) && Told(s, p, request, did)
    ensures Told(Step(mode, s, l), p, request, did + Appended(s, Step(mode, s, l), l, p))
  {
    if p in s.procs {
      assert Step(mode, s, l) == StepProc(mode, s, l, s.procs[p]);
      OwnStep(mode, s, l, p, request.value, did);
    }
    hide Story, StepProc;
  }

  lemma ToldOnArrival(mode: Mode, s: State, p: Pid, r: Request, request: Option<Request>, did: seq<nat>)
    requires Told(s, p, request, did)
    ensures Told(Step(mode, s, Arrive(p, r)), p, if request.None? then Some(r) else request, did)
  {
  }

  lemma ToldOfOthers(mode: Mode, s: State, l: Label, p: Pid, request: Option<Request>, did: seq<nat>)
    requires Told(s, p, request, did) && !StepOf(l, p) && !(l.Arrive? && l.p == p)
    ensures Told(Step(mode, s, l), p, request, did)
  {
    OthersStay(mode, s, l, p);
    HistoryGrows(mode, s, l);
    hide Story, Step;
    if p in s.procs {
      StoryStands(s.history, Step(mode, s, l).history, request.value, s.procs[p], did);
    }
  }

  // In every run and for every request: its program counter and its result agree with the
  // request and with the actions that the request has committed.
  lemma {:induction false} TellsItsStory(mode: Mode, run: seq<Label>, p: Pid)
    ensures Told(Exec(mode, run), p, RequestOf(run, p), DoneBy(mode, run, p))
  {
    if run != [] {
      var prefix, l := run[..|run| - 1], run[|run| - 1];
      var s, request, did := Exec(mode, prefix), RequestOf(prefix, p), DoneBy(mode, prefix, p);
      TellsItsStory(mode, prefix, p);
      hide Told, Step;
      if StepOf(l, p) {
        ToldByItself(mode, s, l, p, request, did);
      } else {
        assert did + [] == did;
        if l.Arrive? && l.p == p {
          ToldOnArrival(mode, s, p, l.request, request, did);
        } else {
          ToldOfOthers(mode, s, l, p, request, did);
        }
      }
    }
  }

  // ---------- results tell the truth ----------

  // A request whose result is a failure has committed nothing, in its whole life.
  lemma FailedDidNothing(mode: Mode, run: seq<Label>, p: Pid)
    requires p in Exec(mode, run).procs && HasFailed(Exec(mode, run).procs[p])
    ensures DoneBy(mode, run, p) == []
  {
    TellsItsStory(mode, run, p);
  }

  // A booking keeps its id and everything it was inserted with.
  lemma {:induction false} RowStays(h: seq<Action>, from: nat, b: BookingId)
    requires from <= |h| && b in Replay(h[..from]).bookings
    ensures b in Replay(h).bookings
    ensures AsInserted(Replay(h).bookings[b]) == AsInserted(Replay(h[..from]).bookings[b])
  {
    if from == |h| {
      assert h[..from] == h;
    } else {
      var prefix := h[..|h| - 1];
      assert prefix[..from] == h[..from];
      RowStays(prefix, from, b);
      ReplayOk(prefix);
      BookingsStay(Replay(prefix), h[|h| - 1]);
    }
  }

  predicate Ended(pc: Proc, result: Result) {
    (pc.Done? || pc.BookEnded?) && pc.result == result
  }

  // A request that reports booking `b` committed exactly one action, the booking it asked
  // for, and `b` is there under its user and event and with its count.
  lemma BookedIsThere(mode: Mode, run: seq<Label>, p: Pid, b: BookingId)
    requires p in Exec(mode, run).procs && Ended(Exec(mode, run).procs[p], Booked(b))
    ensures var s, did, req := Exec(mode, run), DoneBy(mode, run, p), RequestOf(run, p);
            && req.Some? && req.value.BookRequest? && DidBook(s.history, did, req.value, b)
            && b in s.db.bookings
            && s.db.bookings[b].user == req.value.u && s.db.bookings[b].event == req.value.e
            && s.db.bookings[b].count == req.value.n
  {
    var s := Exec(mode, run);
    BookedClaim(mode, run, p, b);
    RunOk(mode, run);
    hide Exec, ProcOk, DoneBy, RequestOf;
    BookedRow(s.history, DoneBy(mode, run, p)[0]);
  }

  lemma BookedClaim(mode: Mode, run: seq<Label>, p: Pid, b: BookingId)
    requires p in Exec(mode, run).procs && Ended(Exec(mode, run).procs[p], Booked(b))
    ensures var s, did, req := Exec(mode, run), DoneBy(mode, run, p), RequestOf(run, p);
            req.Some? && req.value.BookRequest? && DidBook(s.history, did, req.value, b)
  {
    TellsItsStory(mode, run, p);
    hide Exec, DoneBy, RequestOf;
  }

  lemma BookedRow(h: seq<Action>, i: nat)
    requires Valid(h) && i < |h| && h[i].Book?
    ensures h[i].b in Replay(h).bookings
    ensures var row := Replay(h).bookings[h[i].b]; row.user == h[i].u && row.event == h[i].e && row.count == h[i].n
  {
    FollowsPrefix(h, i);
    assert h[..i + 1][..i] == h[..i];
    RowStays(h, i + 1, h[i].b);
    hide Valid;
  }

  // The step by which a cancellation commits: the booking is the owner's, and is cancelled.
  lemma CancelCommitsOwn(mode: Mode, s: State, l: Label, p: Pid, req: Request)
    requires Inv(mode, s) && StepOf(l, p) && p in s.procs && req.CancelRequest?
    requires Story(s.history, req, s.procs[p], []) && |s.history| < |Step(mode, s, l).history|
    ensures var s' := Step(mode, s, l);
            && AppendsOne(s, s') && s'.history[|s.history|].Cancel? && s'.history[|s.history|].b == req.b
            && req.b in s.db.bookings && s.db.bookings[req.b].user == req.u
  {
    ProcIs(mode, s, p);
    StepIsProper(mode, s, l, s.procs[p]);
    HistoryGrows(mode, s, l);
    assert Step(mode, s, l) == StepProc(mode, s, l, s.procs[p]);
    hide Inv, StepProc, Disciplined;
  }

  lemma OwnerStays(db: Db, db': Db, a: Action, b: BookingId)
    requires DbOk(db) && b in db.bookings && db' == Apply(db, a)
    ensures b in db'.bookings && db'.bookings[b].user == db.bookings[b].user
    ensures db.bookings[b].status == Cancelled ==> db'.bookings[b].status == Cancelled
    ensures a.Cancel? && a.b == b && Enabled(db, a) ==> db'.bookings[b].status == Cancelled
  {
    BookingsStay(db, a);
  }

  // A cancellation that has committed was the owner's, and its booking stays cancelled.
  lemma {:induction false} CancelledIsThere(mode: Mode, run: seq<Label>, p: Pid)
    requires RequestOf(run, p).Some? && RequestOf(run, p).value.CancelRequest? && DoneBy(mode, run, p) != []
    ensures var db, req := Exec(mode, run).db, RequestOf(run, p).value;
            req.b in db.bookings && db.bookings[req.b].user == req.u && db.bookings[req.b].status == Cancelled
  {
    var prefix, l := run[..|run| - 1], run[|run| - 1];
    var s, s', req := Exec(mode, prefix), Exec(mode, run), RequestOf(run, p).value;
    assert run == prefix + [l];
    TellsItsStory(mode, prefix, p);
    RunOk(mode, prefix);
    StepRefines(mode, prefix, l);
    Refines(mode, prefix);
    hide Exec, ProcOk, Story, DbOk;
    if DoneBy(mode, prefix, p) != [] {
      CancelledIsThere(mode, prefix, p);
    } else {
      CancelCommitsOwn(mode, s, l, p, req);
    }
    if !Quiet(s, s') {
      var a :| Takes(s, s', a);
      OwnerStays(s.db, s'.db, a, req.b);
    }
  }

  // ---------- and every write is some request's ----------

  predicate HasSucceeded(pc: Proc) {
    pc.CancelCommitted? || ((pc.Done? || pc.BookEnded?) && !pc.result.Failed?)
  }

  // The action is what the request asked for.
  predicate AsRequested(a: Action, req: Request) {
    match a
    case Create(e, total, price, status) => false
    case Book(b, u, e, n, now) => req == BookRequest(u, e, n)
    case Cancel(b, now) => req.CancelRequest? && req.b == b
    case Update(e, edit, read, readAt) => req == UpdateRequest(e, edit)
    case Delete(e) => req == DeleteRequest(e)
    case LogCancel(b, before, after) => req.CancelRequest? && req.b == b
  }

  predicate Owns(mode: Mode, run: seq<Label>, p: Pid, i: nat) {
    var s := Exec(mode, run);
    && i < |s.history| && i in DoneBy(mode, run, p)
    && p in s.procs && HasSucceeded(s.procs[p])
    && RequestOf(run, p).Some? && AsRequested(s.history[i], RequestOf(run, p).value)
  }

  lemma DoneIsOwned(mode: Mode, run: seq<Label>, p: Pid, i: nat)
    requires i in DoneBy(mode, run, p)
    ensures Owns(mode, run, p, i)
  {
    TellsItsStory(mode, run, p);
    hide Exec, DoneBy, RequestOf;
  }

  lemma {:induction false} SomeoneDid(mode: Mode, run: seq<Label>, i: nat) returns (p: Pid)
    requires i < |Exec(mode, run).history| && !Exec(mode, run).history[i].Create?
    ensures i in DoneBy(mode, run, p)
  {
    hide Step;
    var prefix, l := run[..|run| - 1], run[|run| - 1];
    var s := Exec(mode, prefix);
    HistoryGrows(mode, s, l);
    if i < |s.history| {
      p := SomeoneDid(mode, prefix, i);
    } else {
      OnlyRequestsAppend(mode, s, l);
      p := l.p;
    }
  }

  lemma OnlyRequestsAppend(mode: Mode, s: State, l: Label)
    requires AppendsOne(s, Step(mode, s, l)) && !Step(mode, s, l).history[|s.history|].Create?
    ensures !l.CreateEvent? && StepOf(l, l.p)
  {
  }

  lemma {:induction false} OnlyOneDid(mode: Mode, run: seq<Label>, p: Pid, q: Pid, i: nat)
    requires i in DoneBy(mode, run, p) && i in DoneBy(mode, run, q)
    ensures p == q && i < |Exec(mode, run).history|
  {
    var prefix, l := run[..|run| - 1], run[|run| - 1];
    HistoryGrows(mode, Exec(mode, prefix), l);
    hide Step;
    if i in DoneBy(mode, prefix, p) {
      OnlyOneDid(mode, prefix, p, p, i);
    }
    if i in DoneBy(mode, prefix, q) {
      OnlyOneDid(mode, prefix, q, q, i);
      if i in DoneBy(mode, prefix, p) { OnlyOneDid(mode, prefix, p, q, i); }
    }
  }

  // Every committed action but the creation of events was asked for and committed by exactly
  // one request, and that request reports (or is about to report) success.
  lemma EveryWriteHasItsRequest(mode: Mode, run: seq<Label>, i: nat)
    requires i < |Exec(mode, run).history| && !Exec(mode, run).history[i].Create?
    ensures exists p :: Owns(mode, run, p, i) && forall q :: i in DoneBy(mode, run, q) ==> q == p
  {
    var p := SomeoneDid(mode, run, i);
    DoneIsOwned(mode, run, p, i);
    forall q | i in DoneBy(mode, run, q) ensures q == p {
      OnlyOneDid(mode, run, p, q, i);
    }
  }

  // ---------- batches ----------

  lemma {:induction false} HistoryLater(mode: Mode, run: seq<Label>, k: nat)
    requires k <= |run|
    ensures Exec(mode, run[..k]).history <= Exec(mode, run).history
  {
    if k == |run| {
      assert run[..k] == run;
    } else {
      var prefix, l := run[..|run| - 1], run[|run| - 1];
      assert prefix[..k] == run[..k];
      HistoryLater(mode, prefix, k);
      HistoryGrows(mode, Exec(mode, prefix), l);
      hide Step;
    }
  }

  // What a longer run adds to what a shorter one did comes later.
  lemma {:induction false} LaterOn(mode: Mode, run: seq<Label>, k: nat, p: Pid)
    requires k <= |run|
    ensures var did, did' := DoneBy(mode, run[..k], p), DoneBy(mode, run, p);
            did <= did' && forall i :: |did| <= i < |did'| ==> |Exec(mode, run[..k]).history| <= did'[i]
  {
    if k == |run| {
      assert run[..k] == run;
    } else {
      var prefix := run[..|run| - 1];
      assert prefix[..k] == run[..k];
      LaterOn(mode, prefix, k, p);
      HistoryLater(mode, prefix, k);
      hide Exec;
    }
  }

  lemma {:induction false} DoneForGood(mode: Mode, run: seq<Label>, k: nat, p: Pid)
    requires k <= |run| && p in Exec(mode, run[..k]).procs && Exec(mode, run[..k]).procs[p].Done?
    ensures p in Exec(mode, run).procs && Exec(mode, run).procs[p] == Exec(mode, run[..k]).procs[p]
  {
    if k == |run| {
      assert run[..k] == run;
    } else {
      var prefix, l := run[..|run| - 1], run[|run| - 1];
      assert prefix[..k] == run[..k];
      DoneForGood(mode, prefix, k, p);
      DoneStays(mode, Exec(mode, prefix), l, p);
      hide Step;
    }
  }

  lemma DoneStays(mode: Mode, s: State, l: Label, p: Pid)
    requires p in s.procs && s.procs[p].Done?
    ensures p in Step(mode, s, l).procs && Step(mode, s, l).procs[p] == s.procs[p]
  {
    if StepOf(l, p) {
      StepIsProper(mode, s, l, s.procs[p]);
      hide StepProc;
    } else if !(l.Arrive? && l.p == p) {
      OthersStay(mode, s, l, p);
      hide Step;
    }
  }

  // At step `k` of the run `p` had returned its booking and `q` had not arrived yet.
  predicate NextAfter(mode: Mode, run: seq<Label>, k: nat, p: Pid, q: Pid) {
    && k <= |run|
    && p in Exec(mode, run[..k]).procs && q !in Exec(mode, run[..k]).procs
    && Exec(mode, run[..k]).procs[p].Done? && Exec(mode, run[..k]).procs[p].result.Booked?
  }

  ghost predicate Follows(mode: Mode, run: seq<Label>, p: Pid, q: Pid) {
    exists k: nat :: NextAfter(mode, run, k, p, q)
  }

  // The requests `ps` serve the first entries of a batch, each sent only after the one
  // before it has returned a booking. Any other requests run beside them.
  ghost predicate Batch(mode: Mode, run: seq<Label>, u: UserId, reqs: seq<BatchEntry>, ps: seq<Pid>) {
    && |ps| <= |reqs|
    && (forall j :: 0 <= j < |ps| ==> RequestOf(run, ps[j]) == Some(BookRequest(u, reqs[j].e, reqs[j].n)))
    && (forall j :: 0 < j < |ps| ==> Follows(mode, run, ps[j - 1], ps[j]))
  }

  // What the story says about a booking request.
  lemma BookingStory(mode: Mode, run: seq<Label>, p: Pid)
    ensures var s, did, req := Exec(mode, run), DoneBy(mode, run, p), RequestOf(run, p);
            && (p !in s.procs ==> did == [])
            && (req.Some? ==> p in s.procs)
            && (p in s.procs && HasFailed(s.procs[p]) ==> did == [])
            && (p in s.procs && s.procs[p].Done? && s.procs[p].result.Booked? ==> DidOne(s.history, did))
            && (req.Some? && req.value.BookRequest? && did != [] ==>
                  DidOne(s.history, did) && s.history[did[0]].Book?
                  && AsRequested(s.history[did[0]], req.value) && Ended(s.procs[p], Booked(s.history[did[0]].b)))
  {
    TellsItsStory(mode, run, p);
    hide Exec, DoneBy, RequestOf;
  }

  // What `p` has returned stays, and comes before whatever `q` commits.
  lemma OneAfterTheOther(mode: Mode, run: seq<Label>, p: Pid, q: Pid)
    requires Follows(mode, run, p, q)
    ensures p in Exec(mode, run).procs && Exec(mode, run).procs[p].Done? && Exec(mode, run).procs[p].result.Booked?
    ensures |DoneBy(mode, run, p)| == 1
    ensures forall i :: i in DoneBy(mode, run, q) ==> DoneBy(mode, run, p)[0] < i
  {
    var k: nat :| NextAfter(mode, run, k, p, q);
    BookingStory(mode, run[..k], p);
    BookingStory(mode, run[..k], q);
    DoneForGood(mode, run, k, p);
    BookingStory(mode, run, p);
    LaterOn(mode, run, k, p);
    LaterOn(mode, run, k, q);
    hide Exec, DoneBy, RequestOf, AsRequested, Ended;
  }

  // Where the batch's entry `j` was committed.
  function PlaceOf(mode: Mode, run: seq<Label>, ps: seq<Pid>, j: nat): nat
    requires j < |ps| && DoneBy(mode, run, ps[j]) != []
  {
    DoneBy(mode, run, ps[j])[0]
  }

  lemma {:induction false} BatchInOrder(mode: Mode, run: seq<Label>, u: UserId, reqs: seq<BatchEntry>, ps: seq<Pid>,
                                        i: nat, j: nat)
    requires Batch(mode, run, u, reqs, ps) && i < j < |ps| && DoneBy(mode, run, ps[j]) != []
    ensures DoneBy(mode, run, ps[i]) != [] && PlaceOf(mode, run, ps, i) < PlaceOf(mode, run, ps, j)
  {
    hide DoneBy, Follows, RequestOf;
    OneAfterTheOther(mode, run, ps[j - 1], ps[j]);
    assert DoneBy(mode, run, ps[j])[0] in DoneBy(mode, run, ps[j]);
    if i < j - 1 {
      BatchInOrder(mode, run, u, reqs, ps, i, j - 1);
    }
  }

  // A batch amid any other requests: every entry but the last one sent is booked as
  // requested, exactly once and in order; the last one either is too or has failed (or not
  // finished yet), and if it failed it left nothing behind.
  lemma BatchCommitsPrefix(mode: Mode, run: seq<Label>, u: UserId, reqs: seq<BatchEntry>, ps: seq<Pid>, j: nat)
    requires Batch(mode, run, u, reqs, ps) && j < |ps|
    ensures var s, did := Exec(mode, run), DoneBy(mode, run, ps[j]);
            && ps[j] in s.procs
            && (j < |ps| - 1 ==> s.procs[ps[j]].Done? && s.procs[ps[j]].result.Booked? && did != [])
            && (HasFailed(s.procs[ps[j]]) ==> did == [])
            && (did != [] ==>
                  && DidOne(s.history, did) && s.history[did[0]].Book?
                  && var a := s.history[did[0]];
                     a.u == u && a.e == reqs[j].e && a.n == reqs[j].n && Ended(s.procs[ps[j]], Booked(a.b)))
            && (forall i :: 0 <= i < j && did != [] ==>
                  DoneBy(mode, run, ps[i]) != [] && DoneBy(mode, run, ps[i])[0] < did[0])
  {
    hide Exec, DoneBy, RequestOf, Follows;
    BookingStory(mode, run, ps[j]);
    if j < |ps| - 1 {
      OneAfterTheOther(mode, run, ps[j], ps[j + 1]);
    }
    forall i | 0 <= i < j && DoneBy(mode, run, ps[j]) != []
      ensures DoneBy(mode, run, ps[i]) != [] && DoneBy(mode, run, ps[i])[0] < DoneBy(mode, run, ps[j])[0]
    {
      BatchInOrder(mode, run, u, reqs, ps, i, j);
    }
  }

  // Two committed entries of a batch book the same event only if the first booking was
  // cancelled in between; so without cancellations the events are distinct.
  lemma BatchRepeatsOnlyAfterCancel(mode: Mode, run: seq<Label>, u: UserId, reqs: seq<BatchEntry>, ps: seq<Pid>,
                                    i: nat, j: nat) returns (c: nat)
    requires Batch(mode, run, u, reqs, ps) && i < j < |ps| && reqs[i].e == reqs[j].e
    requires DoneBy(mode, run, ps[j]) != []
    ensures var h := Exec(mode, run).history;
            && DoneBy(mode, run, ps[i]) != []
            && PlaceOf(mode, run, ps, i) < c < PlaceOf(mode, run, ps, j) < |h|
            && h[PlaceOf(mode, run, ps, i)].Book? && h[c].Cancel? && h[c].b == h[PlaceOf(mode, run, ps, i)].b
  {
    BatchCommitsPrefix(mode, run, u, reqs, ps, j);
    BatchCommitsPrefix(mode, run, u, reqs, ps, i);
    RunOk(mode, run);
    hide Exec, DoneBy, Batch;
    c := RebookingNeedsCancel(Exec(mode, run).history, PlaceOf(mode, run, ps, i), PlaceOf(mode, run, ps, j));
  }
}
