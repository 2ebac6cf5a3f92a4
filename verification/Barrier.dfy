/** The whole barrier protocol: test parts calling `mstf_sync`, the synchronisation
    server, and the launcher that reports finished parts.  Requests and replies are
    in flight for arbitrarily long; the server handles one request at a time. */
module Barrier {
  import opened Wrappers
  import opened SyncServer

  type Part = nat    // a test part, and the connection of its one outstanding sync

  datatype Place =
    | Running                          // in its script, outside mstf_sync
    | Calling(point: Label)            // the request is on its way
    | Blocked(point: Label)            // in the server's open list
    | Told(point: Label, go: bool)     // the reply is on its way
    | Returned(passed: bool)           // the script has returned; the launcher's message is on its way
    | Gone                             // the server has handled that message

  /** A part, with the sync points it has been let through. */
  datatype PartState = PartState(place: Place, trail: seq<Label>)

  datatype System = System(server: Server, parts: seq<PartState>, rounds: seq<Label>)

  datatype Move =
    | CallSync(part: Part, point: Label)
    | HandleSync(part: Part)
    | ReturnFromSync(part: Part)
    | HangUp(part: Part)
    | Finish(part: Part, passed: bool)
    | HandleFinish(part: Part)
    | HandleLastStop
    | HandleVariable(request: Request)

  function Start(n: nat): System {
    System(Initial(n), seq(n, _ => PartState(Running, [])), [])
  }

  function SetPlace(ps: seq<PartState>, i: Part, place: Place): (r: seq<PartState>)
    requires i < |ps|
    ensures |r| == |ps|
  {
    ps[i := ps[i].(place := place)]
  }

  predicate Unfinished(p: PartState) {
    !p.place.Returned? && p.place != Gone
  }

  /** All parts have returned, so the launcher sends its closing stop. */
  predicate AllReturned(ps: seq<PartState>) {
    forall i :: 0 <= i < |ps| ==> !Unfinished(ps[i])
  }

  predicate Enabled(y: System, m: Move) {
    var live := y.server.rval.None?;
    match m
    case CallSync(i, _) => i < |y.parts| && y.parts[i].place.Running?
    case HandleSync(i) => live && i < |y.parts| && y.parts[i].place.Calling?
    case ReturnFromSync(i) => i < |y.parts| && y.parts[i].place.Told?
    case HangUp(i) => !live && i < |y.parts| && (y.parts[i].place.Calling? || y.parts[i].place.Blocked?)
    case Finish(i, _) => i < |y.parts| && y.parts[i].place.Running?
    case HandleFinish(i) => live && i < |y.parts| && y.parts[i].place.Returned?
    case HandleLastStop => live && AllReturned(y.parts)
    case HandleVariable(r) => live && (r.Getv? || r.Setv?)
  }

  function RequestOf(y: System, m: Move): Request
    requires Enabled(y, m)
  {
    match m
    case HandleSync(i) => Sync(i, y.parts[i].place.point)
    case HandleFinish(i) => if y.parts[i].place.passed then Sfin else Stop
    case HandleVariable(r) => r
    case _ => Stop
  }

  function PointOf(p: PartState): Label {
    match p.place
    case Calling(l) => l
    case Blocked(l) => l
    case _ => ""
  }

  /** A part after the server's replies: released, refused, or left as it is. */
  function Deliver(p: PartState, i: Part, out: seq<Reply>): PartState {
    if Reply(i, Go) in out then PartState(Told(PointOf(p), true), p.trail + [PointOf(p)])
    else if Reply(i, Failed) in out then p.(place := Told(PointOf(p), false))
    else p
  }

  function DeliverAll(ps: seq<PartState>, out: seq<Reply>): (r: seq<PartState>)
    ensures |r| == |ps|
    ensures forall i :: 0 <= i < |r| ==> r[i] == Deliver(ps[i], i, out)
  {
    seq(|ps|, i requires 0 <= i < |ps| => Deliver(ps[i], i, out))
  }

  /** The server handles one request. */
  function Served(y: System, r: Request, ps: seq<PartState>): System {
    var (server, out) := Handle(y.server, r);
    if r.Getv? || r.Setv? then System(server, ps, y.rounds)
    else
      var point := if r.Sync? then r.point else y.server.target;
      System(server, DeliverAll(ps, out), if exists i :: 0 <= i < |out| && out[i].text == Go then y.rounds + [point] else y.rounds)
  }

  function Step(y: System, m: Move): System
    requires Enabled(y, m)
  {
    match m
    case CallSync(i, l) => y.(parts := SetPlace(y.parts, i, Calling(l)))
    case HandleSync(i) => Served(y, RequestOf(y, m), SetPlace(y.parts, i, Blocked(y.parts[i].place.point)))
    case ReturnFromSync(i) => y.(parts := SetPlace(y.parts, i, Running))
    case HangUp(i) => y.(parts := SetPlace(y.parts, i, Told(PointOf(y.parts[i]), false)))
    case Finish(i, ok) => y.(parts := SetPlace(y.parts, i, Returned(ok)))
    case HandleFinish(i) => Served(y, RequestOf(y, m), SetPlace(y.parts, i, Gone))
    case HandleLastStop => Served(y, Stop, y.parts)
    case HandleVariable(r) => Served(y, r, y.parts)
  }

  // ---------- The invariant ----------

  /** One trail follows the rounds, up to rounds a part joined with the empty label. */
  ghost predicate Follows(trail: seq<Label>, rounds: seq<Label>) {
    |trail| <= |rounds| && forall k :: 0 <= k < |trail| ==> trail[k] == rounds[k] || trail[k] == ""
  }

  /** The parts the server still counts. */
  function Registered(ps: seq<PartState>): set<Part> {
    set i: nat | i < |ps| && ps[i].place != Gone
  }

  ghost predicate TrailsOk(y: System) {
    && (forall i :: 0 <= i < |y.parts| ==> Follows(y.parts[i].trail, y.rounds))
    && (forall i :: 0 <= i < |y.parts| && y.parts[i].place != Gone ==> |y.parts[i].trail| == |y.rounds|)
  }

  /** The open list lists exactly the blocked parts, once each. */
  ghost predicate Lists(open: seq<Chan>, ps: seq<PartState>) {
    NoRepeats(open) && forall i: Part :: i in open <==> i < |ps| && ps[i].place.Blocked?
  }

  /** The server's books, while it is alive. */
  ghost predicate BooksOk(y: System) {
    var s := y.server;
    && s.numParts == |Registered(y.parts)|
    && Lists(s.open, y.parts)
    && (forall i :: 0 <= i < |y.parts| && y.parts[i].place.Blocked? ==>
          y.parts[i].place.point == s.target || y.parts[i].place.point == "")
    && (s.open == [] ==> s.target == "")
    && (s.open != [] ==> |s.open| < s.numParts)
  }

  ghost predicate Inv(y: System) {
    TrailsOk(y) && (y.server.rval.None? ==> BooksOk(y))
  }

  lemma {:induction false} RegisteredAtStart(n: nat)
    ensures |Registered(Start(n).parts)| == n
  {
    if n > 0 {
      RegisteredAtStart(n - 1);
      assert Registered(Start(n).parts) == Registered(Start(n - 1).parts) + {n - 1};
    }
  }

  lemma StartOk(n: nat)
    ensures Inv(Start(n))
  {
    RegisteredAtStart(n);
  }

  // ---------- Counting ----------

  function Elems(cs: seq<Chan>): set<Chan> {
    set c | c in cs
  }

  lemma {:induction false} SizeOfList(cs: seq<Chan>)
    requires NoRepeats(cs)
    ensures |Elems(cs)| == |cs|
    decreases |cs|
  {
    if cs != [] {
      var tail := cs[1..];
      SizeOfList(tail);
      assert Elems(cs) == Elems(tail) + {cs[0]};
      assert cs[0] !in Elems(tail);
    }
  }

  lemma SubsetSize(a: set<Part>, b: set<Part>)
    requires a <= b
    ensures |a| <= |b|
    ensures |a| == |b| ==> a == b
  {
    assert b == a + (b - a);
    if a != b {
      assert |b - a| == |b| - |a|;
      assert b - a != {};
    }
  }

  ghost predicate AllBlocked(ps: seq<PartState>) {
    forall i :: 0 <= i < |ps| && ps[i].place != Gone ==> ps[i].place.Blocked?
  }

  /** As many wait as are registered exactly when every registered part waits. */
  lemma CompleteMeansAll(open: seq<Chan>, ps: seq<PartState>)
    requires Lists(open, ps)
    ensures |open| <= |Registered(ps)|
    ensures |open| == |Registered(ps)| <==> AllBlocked(ps)
  {
    SizeOfList(open);
    assert Elems(open) <= Registered(ps);
    SubsetSize(Elems(open), Registered(ps));
    if |open| == |Registered(ps)| {
      forall i | 0 <= i < |ps| && ps[i].place != Gone
        ensures ps[i].place.Blocked?
      {
        assert i in Registered(ps);
      }
    }
    if AllBlocked(ps) {
      assert Elems(open) == Registered(ps);
    }
  }

  // ---------- Each step keeps the invariant ----------

  /** The state just before the server looks whether the barrier is complete. */
  ghost predicate Waiting(s: Server, ps: seq<PartState>, rounds: seq<Label>) {
    && s.numParts == |Registered(ps)|
    && Lists(s.open, ps)
    && (forall i :: 0 <= i < |ps| && ps[i].place.Blocked? ==> ps[i].place.point == s.target || ps[i].place.point == "")
    && (s.open == [] ==> s.target == "")
    && TrailsOk(System(s, ps, rounds))
  }

  ghost function AfterRelease(s: Server, ps: seq<PartState>, rounds: seq<Label>): System {
    var (s', out) := TryRelease(s);
    System(s', DeliverAll(ps, out), if exists i :: 0 <= i < |out| && out[i].text == Go then rounds + [s.target] else rounds)
  }

  lemma ToldGo(open: seq<Chan>, i: Part)
    ensures Reply(i, Go) in Tell(open, Go) <==> i in open
    ensures Reply(i, Failed) !in Tell(open, Go)
  {
    var out := Tell(open, Go);
    if i in open {
      var k :| 0 <= k < |open| && open[k] == i;
      assert out[k] == Reply(i, Go);
    }
  }

  /** What a release delivers: everyone still registered goes on, and nobody else moves. */
  lemma ReleaseDelivers(s: Server, ps: seq<PartState>, rounds: seq<Label>)
    requires Waiting(s, ps, rounds) && s.open != [] && |s.open| == s.numParts
    ensures var y' := AfterRelease(s, ps, rounds);
            && y'.server == s.(target := "", open := []) && y'.rounds == rounds + [s.target]
            && forall i :: 0 <= i < |ps| ==>
                 && (ps[i].place == Gone ==> y'.parts[i] == ps[i])
                 && (ps[i].place != Gone ==>
                       && ps[i].place.Blocked?
                       && y'.parts[i] == PartState(Told(ps[i].place.point, true), ps[i].trail + [ps[i].place.point]))
  {
    CompleteMeansAll(s.open, ps);
    var out := Tell(s.open, Go);
    assert out[0].text == Go;
    forall i | 0 <= i < |ps|
      ensures Deliver(ps[i], i, out) ==
              if i in s.open then PartState(Told(PointOf(ps[i]), true), ps[i].trail + [PointOf(ps[i])]) else ps[i]
    {
      ToldGo(s.open, i);
    }
  }

  lemma NobodyTold(ps: seq<PartState>)
    ensures DeliverAll(ps, []) == ps
  {
  }

  lemma SameRegistered(ps: seq<PartState>, qs: seq<PartState>)
    requires |ps| == |qs| && forall i :: 0 <= i < |ps| ==> (ps[i].place == Gone <==> qs[i].place == Gone)
    ensures Registered(ps) == Registered(qs)
  {
  }

  lemma ReleaseKeepsInv(s: Server, ps: seq<PartState>, rounds: seq<Label>)
    requires Waiting(s, ps, rounds)
    ensures Inv(AfterRelease(s, ps, rounds))
  {
    var y' := AfterRelease(s, ps, rounds);
    CompleteMeansAll(s.open, ps);
    if |s.open| == s.numParts && s.open != [] {
      ReleaseDelivers(s, ps, rounds);
      SameRegistered(ps, y'.parts);
      hide Registered, Lists, Deliver, AfterRelease;
    } else {
      NobodyTold(ps);
    }
  }

  lemma LocalKeepsInv(y: System, i: Part, place: Place)
    requires Inv(y) && i < |y.parts|
    requires !y.parts[i].place.Blocked? && y.parts[i].place != Gone && !place.Blocked? && place != Gone
    ensures Inv(y.(parts := SetPlace(y.parts, i, place)))
  {
    SameRegistered(y.parts, SetPlace(y.parts, i, place));
  }

  lemma HangUpKeepsInv(y: System, i: Part)
    requires Inv(y) && y.server.rval.Some? && i < |y.parts| && y.parts[i].place != Gone
    ensures Inv(y.(parts := SetPlace(y.parts, i, Told(PointOf(y.parts[i]), false))))
  {
  }

  /** When the server has ended, or ends now, replies of failure move no trail. */
  lemma EndingKeepsInv(y: System, r: Request, ps: seq<PartState>)
    requires TrailsOk(System(y.server, ps, y.rounds))
    requires !r.Getv? && !r.Setv? && Handle(y.server, r).0.rval.Some?
    requires forall k :: 0 <= k < |Handle(y.server, r).1| ==>
               var reply := Handle(y.server, r).1[k];
               reply.text != Go && (reply.chan < |ps| ==> ps[reply.chan].place != Gone)
    ensures Inv(Served(y, r, ps))
    ensures Served(y, r, ps).rounds == y.rounds
  {
    var out := Handle(y.server, r).1;
    forall i | 0 <= i < |ps|
      ensures Deliver(ps[i], i, out).trail == ps[i].trail
      ensures Deliver(ps[i], i, out).place == Gone ==> ps[i].place == Gone
    {
      assert Reply(i, Go) !in out;
    }
  }

  lemma VariableKeepsInv(y: System, r: Request)
    requires Inv(y) && (r.Getv? || r.Setv?)
    ensures Inv(Served(y, r, y.parts))
  {
  }

  /** An accepted sync request joins the open list. */
  lemma JoinWaits(y: System, i: Part)
    requires Inv(y) && Enabled(y, HandleSync(i))
    requires y.server.target == y.parts[i].place.point || y.server.target == ""
    ensures Waiting(y.server.(target := y.parts[i].place.point, open := y.server.open + [i]),
                    SetPlace(y.parts, i, Blocked(y.parts[i].place.point)), y.rounds)
  {
    SameRegistered(y.parts, SetPlace(y.parts, i, Blocked(y.parts[i].place.point)));
    var open := y.server.open + [i];
    assert forall j: Part :: j in open <==> j in y.server.open || j == i;
  }

  /** A finished part leaves the registered ones. */
  lemma LeaveWaits(y: System, i: Part)
    requires Inv(y) && Enabled(y, HandleFinish(i))
    ensures Waiting(y.server.(numParts := y.server.numParts - 1), SetPlace(y.parts, i, Gone), y.rounds)
  {
    assert Registered(SetPlace(y.parts, i, Gone)) == Registered(y.parts) - {i};
    assert i in Registered(y.parts);
  }

  /** A step of the live server at the barrier is a look whether it is complete. */
  lemma SyncIsRelease(y: System, i: Part)
    requires Inv(y) && Enabled(y, HandleSync(i))
    requires y.server.target == y.parts[i].place.point || y.server.target == ""
    ensures Step(y, HandleSync(i)) ==
            AfterRelease(y.server.(target := y.parts[i].place.point, open := y.server.open + [i]),
                         SetPlace(y.parts, i, Blocked(y.parts[i].place.point)), y.rounds)
  {
  }

  lemma FinishIsRelease(y: System, i: Part)
    requires Inv(y) && Enabled(y, HandleFinish(i)) && y.parts[i].place.passed
    ensures Step(y, HandleFinish(i)) ==
            AfterRelease(y.server.(numParts := y.server.numParts - 1), SetPlace(y.parts, i, Gone), y.rounds)
  {
  }

  lemma StepKeepsInv(y: System, m: Move)
    requires Inv(y) && Enabled(y, m)
    ensures Inv(Step(y, m))
  {
    hide Registered, Lists, Deliver, AfterRelease, Inv, Waiting, TrailsOk;
    match m
    case CallSync(i, l) => LocalKeepsInv(y, i, Calling(l));
    case ReturnFromSync(i) => LocalKeepsInv(y, i, Running);
    case Finish(i, ok) => LocalKeepsInv(y, i, Returned(ok));
    case HangUp(i) => HangUpKeepsInv(y, i);
    case HandleVariable(r) => VariableKeepsInv(y, r);
    case HandleLastStop =>
      InvTrails(y, y.parts);
      EndingKeepsInv(y, Stop, y.parts);
    case HandleSync(i) =>
      var l := y.parts[i].place.point;
      if y.server.target == l || y.server.target == "" {
        JoinWaits(y, i);
        SyncIsRelease(y, i);
        ReleaseKeepsInv(y.server.(target := l, open := y.server.open + [i]), SetPlace(y.parts, i, Blocked(l)), y.rounds);
      } else {
        InvTrails(y, SetPlace(y.parts, i, Blocked(l)));
        RefusedAreThere(y, i, l);
        EndingKeepsInv(y, Sync(i, l), SetPlace(y.parts, i, Blocked(l)));
      }
    case HandleFinish(i) =>
      if y.parts[i].place.passed {
        LeaveWaits(y, i);
        FinishIsRelease(y, i);
        ReleaseKeepsInv(y.server.(numParts := y.server.numParts - 1), SetPlace(y.parts, i, Gone), y.rounds);
      } else {
        InvTrails(y, SetPlace(y.parts, i, Gone));
        EndingKeepsInv(y, Stop, SetPlace(y.parts, i, Gone));
      }
  }

  /** A refusal is told to the parts that wait, and to the one that asked. */
  lemma RefusedAreThere(y: System, i: Part, l: Label)
    requires Inv(y) && y.server.rval.None? && i < |y.parts|
    requires y.server.target != l && y.server.target != ""
    ensures forall k :: 0 <= k < |Handle(y.server, Sync(i, l)).1| ==>
              var reply := Handle(y.server, Sync(i, l)).1[k];
              && reply.text == Failed
              && (reply.chan < |y.parts| ==> SetPlace(y.parts, i, Blocked(l))[reply.chan].place != Gone)
  {
    var out := Handle(y.server, Sync(i, l)).1;
    forall k | 0 <= k < |out|
      ensures out[k].chan == i || out[k].chan in y.server.open
    {
      assert k < |y.server.open| ==> out[k].chan == y.server.open[k];
    }
  }

  lemma InvTrails(y: System, ps: seq<PartState>)
    requires Inv(y) && |ps| == |y.parts|
    requires forall i :: 0 <= i < |ps| ==> ps[i].trail == y.parts[i].trail && (y.parts[i].place == Gone ==> ps[i].place == Gone)
    ensures TrailsOk(System(y.server, ps, y.rounds))
  {
  }

  // ---------- Whole runs ----------

  ghost predicate IsRun(n: nat, run: seq<System>, moves: seq<Move>) {
    && |run| == |moves| + 1
    && run[0] == Start(n)
    && forall k :: 0 <= k < |moves| ==> Enabled(run[k], moves[k]) && run[k + 1] == Step(run[k], moves[k])
  }

  lemma {:induction false} RunInv(n: nat, run: seq<System>, moves: seq<Move>, k: nat)
    requires IsRun(n, run, moves) && k < |run|
    ensures Inv(run[k])
  {
    hide Inv, Step, Enabled;
    if k == 0 {
      StartOk(n);
    } else {
      RunInv(n, run, moves, k - 1);
      StepKeepsInv(run[k - 1], moves[k - 1]);
    }
  }

  ghost predicate NamedPoints(trail: seq<Label>) {
    forall k :: 0 <= k < |trail| ==> trail[k] != ""
  }

  /** Barrier lockstep: in every run two unfinished parts have passed the same sync
      points, and what a finished part passed is a prefix of that. */
  lemma Lockstep(n: nat, run: seq<System>, moves: seq<Move>, k: nat, i: Part, j: Part)
    requires IsRun(n, run, moves) && k < |run| && i < |run[k].parts| && j < |run[k].parts|
    requires NamedPoints(run[k].parts[i].trail) && NamedPoints(run[k].parts[j].trail)
    requires Unfinished(run[k].parts[j])
    ensures run[k].parts[i].trail <= run[k].parts[j].trail
    ensures Unfinished(run[k].parts[i]) ==> run[k].parts[i].trail == run[k].parts[j].trail
  {
    RunInv(n, run, moves, k);
    hide IsRun, BooksOk;
    var a, b, rounds := run[k].parts[i].trail, run[k].parts[j].trail, run[k].rounds;
    assert Follows(a, rounds) && Follows(b, rounds);
  }

  /** With labels of any kind, lockstep holds between two parts exactly when they used the
      empty label in the same rounds. */
  lemma LockstepExactly(n: nat, run: seq<System>, moves: seq<Move>, k: nat, i: Part, j: Part)
    requires IsRun(n, run, moves) && k < |run| && i < |run[k].parts| && j < |run[k].parts|
    requires Unfinished(run[k].parts[j])
    ensures var a, b := run[k].parts[i].trail, run[k].parts[j].trail;
            var alike := |a| <= |b| && forall p :: 0 <= p < |a| ==> (a[p] == "" <==> b[p] == "");
            && |a| <= |b| && (a <= b <==> alike)
            && (Unfinished(run[k].parts[i]) ==> |a| == |b| && (a == b <==> alike))
  {
    RunInv(n, run, moves, k);
    hide IsRun, BooksOk;
    var a, b, rounds := run[k].parts[i].trail, run[k].parts[j].trail, run[k].rounds;
    assert Follows(a, rounds) && Follows(b, rounds) && |b| == |rounds|;
    SameRounds(a, b, rounds);
  }

  lemma SameRounds(a: seq<Label>, b: seq<Label>, rounds: seq<Label>)
    requires Follows(a, rounds) && Follows(b, rounds) && |b| == |rounds|
    ensures a <= b <==> forall p :: 0 <= p < |a| ==> (a[p] == "" <==> b[p] == "")
  {
    if forall p :: 0 <= p < |a| ==> (a[p] == "" <==> b[p] == "") {
      forall p | 0 <= p < |a|
        ensures a[p] == b[p]
      {
      }
    }
  }

  /** Without that condition on labels: a part's trail is the common sequence of rounds
      exactly when it never used the empty label in a round that has another. */
  lemma FollowsRounds(n: nat, run: seq<System>, moves: seq<Move>, k: nat, i: Part)
    requires IsRun(n, run, moves) && k < |run| && i < |run[k].parts| && Unfinished(run[k].parts[i])
    ensures var trail, rounds := run[k].parts[i].trail, run[k].rounds;
            && |trail| == |rounds|
            && (trail == rounds <==> forall p :: 0 <= p < |trail| && trail[p] == "" ==> rounds[p] == "")
  {
    RunInv(n, run, moves, k);
    hide IsRun, BooksOk;
    assert Follows(run[k].parts[i].trail, run[k].rounds);
  }

  /** Every go is for all: a step that lets anyone through lets through every part the
      server still counts, at one point (or the empty label); other steps let nobody through. */
  lemma GoIsForAll(y: System, m: Move)
    requires Inv(y) && Enabled(y, m)
    ensures var y' := Step(y, m);
            || (y'.rounds == y.rounds && forall i :: 0 <= i < |y.parts| ==> y'.parts[i].trail == y.parts[i].trail)
            || (&& |y'.rounds| == |y.rounds| + 1
                && forall i :: 0 <= i < |y.parts| ==>
                     && (y'.parts[i].place == Gone ==> y'.parts[i].trail == y.parts[i].trail)
                     && (y'.parts[i].place != Gone ==>
                           && y'.parts[i].place.Told? && y'.parts[i].place.go
                           && y'.parts[i].trail == y.parts[i].trail + [y'.parts[i].place.point]
                           && (y'.parts[i].place.point == y'.rounds[|y.rounds|] || y'.parts[i].place.point == "")))
  {
    hide Registered, Lists, Deliver, AfterRelease, Inv, Waiting, TrailsOk;
    match m
    case HandleSync(i) =>
      var l := y.parts[i].place.point;
      if y.server.target == l || y.server.target == "" {
        JoinWaits(y, i);
        SyncIsRelease(y, i);
        ReleaseOrNothing(y.server.(target := l, open := y.server.open + [i]), SetPlace(y.parts, i, Blocked(l)), y.rounds);
      } else {
        RefusalMovesNobody(y, Sync(i, l), SetPlace(y.parts, i, Blocked(l)));
      }
    case HandleFinish(i) =>
      if y.parts[i].place.passed {
        LeaveWaits(y, i);
        FinishIsRelease(y, i);
        ReleaseOrNothing(y.server.(numParts := y.server.numParts - 1), SetPlace(y.parts, i, Gone), y.rounds);
      } else {
        RefusalMovesNobody(y, Stop, SetPlace(y.parts, i, Gone));
      }
    case HandleLastStop => RefusalMovesNobody(y, Stop, y.parts);
    case _ =>
  }

  lemma ReleaseOrNothing(s: Server, ps: seq<PartState>, rounds: seq<Label>)
    requires Waiting(s, ps, rounds)
    ensures var y' := AfterRelease(s, ps, rounds);
            || (y'.rounds == rounds && y'.parts == ps)
            || (&& y'.rounds == rounds + [s.target]
                && forall i :: 0 <= i < |ps| ==>
                     && (ps[i].place == Gone ==> y'.parts[i] == ps[i])
                     && (ps[i].place != Gone ==>
                           && (ps[i].place == Blocked(s.target) || ps[i].place == Blocked(""))
                           && y'.parts[i] == PartState(Told(ps[i].place.point, true), ps[i].trail + [ps[i].place.point])))
  {
    if |s.open| == s.numParts && s.open != [] {
      ReleaseDelivers(s, ps, rounds);
    } else {
      NobodyTold(ps);
    }
  }

  lemma RefusalMovesNobody(y: System, r: Request, ps: seq<PartState>)
    requires !r.Getv? && !r.Setv?
    requires forall k :: 0 <= k < |Handle(y.server, r).1| ==> Handle(y.server, r).1[k].text != Go
    ensures Served(y, r, ps).rounds == y.rounds
    ensures forall i :: 0 <= i < |ps| ==> Served(y, r, ps).parts[i].trail == ps[i].trail
  {
    forall i | 0 <= i < |ps|
      ensures Reply(i, Go) !in Handle(y.server, r).1
    {
    }
  }

  ghost predicate InFlight(p: PartState) {
    p.place.Calling? || p.place.Told? || p.place.Returned?
  }

  /** No run gets stuck at the barrier: while the server lives, nothing is in flight and
      some part is unfinished, some part is still running its script; this includes
      states where the barrier has shrunk. */
  lemma NeverAllBlocked(n: nat, run: seq<System>, moves: seq<Move>, k: nat) returns (i: Part)
    requires IsRun(n, run, moves) && k < |run| && run[k].server.rval.None?
    requires forall j :: 0 <= j < |run[k].parts| ==> !InFlight(run[k].parts[j])
    requires exists j :: 0 <= j < |run[k].parts| && Unfinished(run[k].parts[j])
    ensures i < |run[k].parts| && run[k].parts[i].place.Running?
  {
    RunInv(n, run, moves, k);
    hide IsRun, TrailsOk, Registered, Lists;
    var y := run[k];
    CompleteMeansAll(y.server.open, y.parts);
    AllBlockedAreOpen(y);
    i :| 0 <= i < |y.parts| && y.parts[i].place != Gone && !y.parts[i].place.Blocked?;
  }

  lemma AllBlockedAreOpen(y: System)
    requires BooksOk(y) && exists j :: 0 <= j < |y.parts| && Unfinished(y.parts[j])
    ensures AllBlocked(y.parts) ==> y.server.open != []
  {
    if AllBlocked(y.parts) {
      var j :| 0 <= j < |y.parts| && Unfinished(y.parts[j]);
      assert j in y.server.open;
    }
  }

  // ---------- Refusals and the end ----------

  /** A part that asks for another point than the one waited for: it and every blocked part
      are told that their sync failed, at their own points; nobody has passed anything, the
      other parts hear nothing, and the server ends with Unresolved. */
  lemma RefusalIsForAll(y: System, i: Part)
    requires Inv(y) && Enabled(y, HandleSync(i)) && Mismatch(y.server, RequestOf(y, HandleSync(i)))
    ensures var y' := Step(y, HandleSync(i));
            && y'.server.rval == Some(Unresolved) && y'.rounds == y.rounds
            && forall j :: 0 <= j < |y.parts| ==>
                 && y'.parts[j].trail == y.parts[j].trail
                 && y'.parts[j].place == (if j == i || y.parts[j].place.Blocked? then Told(PointOf(y.parts[j]), false)
                                          else y.parts[j].place)
  {
    var r, ps := RequestOf(y, HandleSync(i)), SetPlace(y.parts, i, Blocked(y.parts[i].place.point));
    EndingCode(y.server, r);
    forall j: Part | j < |y.parts|
      ensures forall t :: Reply(j, t) in Handle(y.server, r).1 <==> t == Failed && (j == i || y.parts[j].place.Blocked?)
    {
      RefusalTellsEveryone(y.server, r, j);
    }
    hide Registered, TrailsOk, Lists, Handle;
    NoGoAmong(y, r);
  }

  lemma NoGoAmong(y: System, r: Request)
    requires Mismatch(y.server, r)
    ensures forall k :: 0 <= k < |Handle(y.server, r).1| ==> Handle(y.server, r).1[k].text != Go
  {
  }

  /** The server ends by a refused sync, by a part that did not pass, or by the closing stop,
      and by nothing else. */
  lemma ServerEndsBy(y: System, m: Move)
    requires Enabled(y, m) && y.server.rval.None?
    ensures Step(y, m).server.rval.Some? <==>
            || (m.HandleSync? && Mismatch(y.server, Sync(m.part, y.parts[m.part].place.point)))
            || (m.HandleFinish? && y.parts[m.part].place == Returned(false))
            || m.HandleLastStop?
  {
    if m.HandleSync? || m.HandleFinish? || m.HandleLastStop? || m.HandleVariable? {
      EndingCode(y.server, RequestOf(y, m));
    }
    hide Handle, DeliverAll;
  }

  /** The closing stop ends with Pass exactly when nobody waits for a variable: no part can
      wait in the barrier then. */
  lemma ClosingStop(y: System)
    requires Inv(y) && Enabled(y, HandleLastStop)
    ensures Step(y, HandleLastStop).server.rval == if y.server.waiting.Keys == {} then Some(Pass) else Some(Unresolved)
  {
    OpenIsSomeone(y.server.open, y.parts);
    assert y.server.open == [];
    hide Registered, TrailsOk, Lists;
  }

  lemma OpenIsSomeone(open: seq<Chan>, ps: seq<PartState>)
    requires Lists(open, ps)
    ensures open != [] ==> exists i: Part :: i < |ps| && ps[i].place.Blocked?
  {
    if open != [] {
      assert open[0] in open;
    }
  }

  /** A part that passed is taken off the count, and the server goes on. */
  lemma FinishedIsDiscounted(y: System, i: Part)
    requires Enabled(y, HandleFinish(i)) && y.parts[i].place == Returned(true)
    ensures Step(y, HandleFinish(i)).server.numParts == y.server.numParts - 1
    ensures Step(y, HandleFinish(i)).server.rval == y.server.rval
  {
  }

  // ---------- The empty label ----------

  /** Two parts, one waiting at the empty label: the other's label is accepted, and both
      go on with different points passed. */
  lemma EmptyLabelBreaksLockstep(l: Label) returns (run: seq<System>, moves: seq<Move>)
    requires l != ""
    ensures IsRun(2, run, moves)
    ensures var y := run[|run| - 1];
            |y.parts| == 2 && Unfinished(y.parts[0]) && Unfinished(y.parts[1])
            && y.parts[0].trail == [""] && y.parts[1].trail == [l]
  {
    var s := Initial(2);
    var r := PartState(Running, []);
    var y0 := System(s, [r, r], []);
    var y1 := System(s, [PartState(Calling(""), []), r], []);
    var y2 := System(s, [PartState(Calling(""), []), PartState(Calling(l), [])], []);
    var y3 := System(s.(open := [0]), [PartState(Blocked(""), []), PartState(Calling(l), [])], []);
    var y4 := System(s, [PartState(Told("", true), [""]), PartState(Told(l, true), [l])], [l]);
    assert Start(2) == y0;
    assert Step(y0, CallSync(0, "")) == y1;
    assert Step(y1, CallSync(1, l)) == y2;
    assert Step(y2, HandleSync(0)) == y3 by {
      assert s.open + [0] == [0];
      NobodyTold(SetPlace(y2.parts, 0, Blocked("")));
    }
    BothGo(l, y3, y4);
    run, moves := [y0, y1, y2, y3, y4], [CallSync(0, ""), CallSync(1, l), HandleSync(0), HandleSync(1)];
  }

  lemma BothGo(l: Label, y3: System, y4: System)
    requires y3 == System(Initial(2).(open := [0]), [PartState(Blocked(""), []), PartState(Calling(l), [])], [])
    requires y4 == System(Initial(2), [PartState(Told("", true), [""]), PartState(Told(l, true), [l])], [l])
    ensures Enabled(y3, HandleSync(1)) && Step(y3, HandleSync(1)) == y4
  {
    var out := [Reply(0, Go), Reply(1, Go)];
    var joined := y3.server.(target := l, open := [0, 1]);
    assert y3.server.open + [1] == [0, 1];
    assert Tell(joined.open, Go) == out;
    assert Handle(y3.server, Sync(1, l)) == (Initial(2), out);
    assert out[0].text == Go;
    var ps := [PartState(Blocked(""), []), PartState(Blocked(l), [])];
    assert SetPlace(y3.parts, 1, Blocked(l)) == ps;
    assert out[0] == Reply(0, Go) && out[1] == Reply(1, Go);
    var none: seq<Label> := [];
    assert none + [""] == [""] && none + [l] == [l];
    assert Deliver(ps[0], 0, out) == y4.parts[0] && Deliver(ps[1], 1, out) == y4.parts[1];
    assert DeliverAll(ps, out) == y4.parts;
  }
}
