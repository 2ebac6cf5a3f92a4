/** The synchronisation server of mstf_syncserv: a labelled barrier whose membership
    shrinks, and a store of variables that readers may wait for. */
module SyncServer {
  import opened Wrappers

  type Chan = nat       // one client connection
  type Name = string    // a variable's name; no name ends in ",wait"
  type Label = string

  /** Result codes the server exits with. */
  datatype Code = Pass | Unresolved

  datatype Text = Go | Failed | Value(text: string)
  datatype Reply = Reply(chan: Chan, text: Text)

  datatype Request =
    | Getv(chan: Chan, name: Name)
    | Setv(chan: Chan, name: Name, value: string)
    | Sync(chan: Chan, point: Label)
    | Sfin
    | Stop
    | Invalid(chan: Chan)

  /** The globals of the server script; `rval` is set once, and ends it. */
  datatype Server = Server(
    numParts: int, target: Label, open: seq<Chan>,
    values: map<Name, string>, waiting: map<Name, seq<Chan>>, rval: Option<Code>)

  function Initial(numParts: int): Server {
    Server(numParts, "", [], map[], map[], None)
  }

  function Tell(chans: seq<Chan>, text: Text): (r: seq<Reply>)
    ensures |r| == |chans|
    ensures forall i :: 0 <= i < |r| ==> r[i] == Reply(chans[i], text)
  {
    seq(|chans|, i requires 0 <= i < |chans| => Reply(chans[i], text))
  }

  /** All waiting parts go when as many wait as are still registered. */
  function TryRelease(s: Server): (Server, seq<Reply>) {
    if |s.open| == s.numParts then (s.(target := "", open := []), Tell(s.open, Go)) else (s, [])
  }

  function Waiters(s: Server, name: Name): seq<Chan> {
    if name in s.waiting then s.waiting[name] else []
  }

  /** One call of `handle_connect`. */
  function Handle(s: Server, r: Request): (Server, seq<Reply>) {
    match r
    case Getv(chan, name) =>
      if name in s.values then (s, [Reply(chan, Value(s.values[name]))])
      else (s.(waiting := s.waiting[name := Waiters(s, name) + [chan]]), [])
    case Setv(chan, name, value) =>
      (s.(values := s.values[name := value], waiting := s.waiting - {name}), Tell(Waiters(s, name), Value(value)))
    case Sync(chan, point) =>
      if point == s.target || s.target == "" then TryRelease(s.(target := point, open := s.open + [chan]))
      else (s.(rval := Some(Unresolved)), Tell(s.open, Failed) + [Reply(chan, Failed)])
    case Sfin => TryRelease(s.(numParts := s.numParts - 1))
    case Stop =>
      (s.(rval := Some(if s.waiting.Keys != {} || s.open != [] then Unresolved else Pass)), [])
    case Invalid(chan) => (s.(rval := Some(Unresolved)), Tell(s.open, Failed))
  }

  /** The server script's state and the messages it has put on its channels. */
  class SyncServer {
    var numParts: int
    var targetLabel: Label
    var openList: seq<Chan>
    var values: map<Name, string>
    var waiting: map<Name, seq<Chan>>
    var rval: Option<Code>
    var sent: seq<Reply>

    function Now(): Server
      reads this
    {
      Server(numParts, targetLabel, openList, values, waiting, rval)
    }

    constructor (numParts: int)
      ensures Now() == Initial(numParts) && sent == []
    {
      this.numParts, targetLabel, openList := numParts, "", [];
      values, waiting, rval, sent := map[], map[], None, [];
    }

    /** The foreach loops that answer a list of channels. */
    method PutsAll(chans: seq<Chan>, text: Text)
      modifies this`sent
      ensures sent == old(sent) + Tell(chans, text)
    {
      var i := 0;
      while i < |chans|
        invariant 0 <= i <= |chans|
        invariant sent == old(sent) + Tell(chans[..i], text)
      {
        sent := sent + [Reply(chans[i], text)];
        i := i + 1;
        assert Tell(chans[..i], text) == Tell(chans[..i - 1], text) + [Reply(chans[i - 1], text)];
      }
      assert chans[..i] == chans;
    }

    method ReleaseIfComplete()
      modifies this`sent, this`targetLabel, this`openList
      ensures Now() == TryRelease(old(Now())).0
      ensures sent == old(sent) + TryRelease(old(Now())).1
    {
      if |openList| == numParts {
        PutsAll(openList, Go);
        targetLabel := "";
        openList := [];
      }
    }

    /** `handle_connect`. */
    method HandleConnect(r: Request)
      modifies this
      ensures Now() == Handle(old(Now()), r).0
      ensures sent == old(sent) + Handle(old(Now()), r).1
    {
      match r
      case Getv(chan, name) =>
        if name in values {
          sent := sent + [Reply(chan, Value(values[name]))];
        } else if name in waiting {
          waiting := waiting[name := waiting[name] + [chan]];
        } else {
          assert Waiters(Now(), name) + [chan] == [chan];
          waiting := waiting[name := [chan]];
        }
      case Setv(_, name, value) =>
        values := values[name := value];
        if name in waiting {
          PutsAll(waiting[name], Value(value));
          waiting := waiting - {name};
        }
        assert waiting == old(waiting) - {name};
      case Sync(chan, point) =>
        if point == targetLabel || targetLabel == "" {
          targetLabel := point;
          openList := openList + [chan];
        } else {
          PutsAll(openList, Failed);
          sent := sent + [Reply(chan, Failed)];
          rval := Some(Unresolved);
          return;
        }
        ReleaseIfComplete();
      case Sfin =>
        numParts := numParts - 1;
        ReleaseIfComplete();
      case Stop =>
        if waiting.Keys != {} || openList != [] {
          rval := Some(Unresolved);
        } else {
          rval := Some(Pass);
        }
      case Invalid(_) =>
        PutsAll(openList, Failed);
        rval := Some(Unresolved);
    }
  }

  // ---------- Runs of the server ----------

  /** The server handles requests until `rval` is set. */
  function Serve(s: Server, rs: seq<Request>): (Server, seq<Reply>)
    decreases |rs|
  {
    if rs == [] || s.rval.Some? then (s, []) else
      var (s', out) := Handle(s, rs[0]);
      var (s'', rest) := Serve(s', rs[1..]);
      (s'', out + rest)
  }

  function ChanOf(r: Request): Option<Chan> {
    match r
    case Getv(chan, _) => Some(chan)
    case Setv(chan, _, _) => Some(chan)
    case Sync(chan, _) => Some(chan)
    case Invalid(chan) => Some(chan)
    case _ => None
  }

  /** Each connection carries one request. */
  ghost predicate OneRequestEach(rs: seq<Request>) {
    forall i, j :: 0 <= i < j < |rs| && ChanOf(rs[i]).Some? ==> ChanOf(rs[i]) != ChanOf(rs[j])
  }

  /** Channels that still wait for an answer: in the barrier or for a variable. */
  ghost predicate Pending(s: Server, c: Chan) {
    c in s.open || exists n :: n in s.waiting && c in s.waiting[n]
  }

  ghost predicate NoRepeats(cs: seq<Chan>) {
    forall i, j :: 0 <= i < j < |cs| ==> cs[i] != cs[j]
  }

  /** The variable store: waiters exist only for variables never set, and every
      waiting channel waits once. */
  ghost predicate StoreOk(s: Server) {
    && (forall n :: n in s.waiting ==> n !in s.values && s.waiting[n] != [])
    && (forall n :: n in s.waiting ==> NoRepeats(s.waiting[n]))
    && NoRepeats(s.open)
    && (forall n, c :: n in s.waiting && c in s.waiting[n] ==> c !in s.open)
    && (forall n, m, c :: n in s.waiting && m in s.waiting && n != m && c in s.waiting[n] ==> c !in s.waiting[m])
  }

  lemma HandleKeepsStore(s: Server, r: Request)
    requires StoreOk(s) && (ChanOf(r).Some? ==> !Pending(s, ChanOf(r).value))
    ensures StoreOk(Handle(s, r).0)
  {
    if r.Getv? && r.name !in s.values {
      assert forall c :: c in Waiters(s, r.name) ==> c != r.chan;
    }
  }

  /** Only a channel that was pending, or that just spoke, is answered; it is answered
      once and stops being pending, unless the server ends. */
  lemma HandleAnswers(s: Server, r: Request)
    requires StoreOk(s) && (ChanOf(r).Some? ==> !Pending(s, ChanOf(r).value))
    ensures var (s', out) := Handle(s, r);
            && (forall i :: 0 <= i < |out| ==> Pending(s, out[i].chan) || ChanOf(r) == Some(out[i].chan))
            && (forall i, j :: 0 <= i < j < |out| ==> out[i].chan != out[j].chan)
            && (s'.rval.None? ==> forall i :: 0 <= i < |out| ==> !Pending(s', out[i].chan))
            && (forall c: Chan :: Pending(s', c) ==> Pending(s, c) || ChanOf(r) == Some(c))
  {
    var (s', out) := Handle(s, r);
    match r
    case Setv(_, n, _) =>
      forall i | 0 <= i < |out|
        ensures Pending(s, out[i].chan) && !Pending(s', out[i].chan)
      {
        assert out[i].chan in s.waiting[n];
      }
    case Getv(c, n) =>
      assert forall d, m :: m in s'.waiting && d in s'.waiting[m] ==> d == c || (m in s.waiting && d in s.waiting[m]);
    case Sync(c, _) =>
      assert forall i :: 0 <= i < |out| ==> out[i].chan == c || out[i].chan in s.open;
    case Sfin =>
      assert forall i :: 0 <= i < |out| ==> out[i].chan in s.open && s'.open == [];
      assert s'.waiting == s.waiting;
    case _ =>
  }

  ghost predicate AnsweredOnce(out: seq<Reply>) {
    forall i, j :: 0 <= i < j < |out| ==> out[i].chan != out[j].chan
  }

  /** No channel is answered twice in any run, and no channel that spoke earlier and is
      no longer pending is answered at all. */
  lemma {:induction false} ServeAnswersOnce(s: Server, rs: seq<Request>)
    requires StoreOk(s) && OneRequestEach(rs)
    requires forall i :: 0 <= i < |rs| && ChanOf(rs[i]).Some? ==> !Pending(s, ChanOf(rs[i]).value)
    ensures AnsweredOnce(Serve(s, rs).1)
    ensures forall i :: 0 <= i < |Serve(s, rs).1| ==>
              Pending(s, Serve(s, rs).1[i].chan) || exists k :: 0 <= k < |rs| && ChanOf(rs[k]) == Some(Serve(s, rs).1[i].chan)
    decreases |rs|
  {
    if rs != [] && s.rval.None? {
      var (s', out) := Handle(s, rs[0]);
      HandleAnswers(s, rs[0]);
      HandleKeepsStore(s, rs[0]);
      if s'.rval.None? {
        forall k | 0 <= k < |rs[1..]| && ChanOf(rs[1..][k]).Some?
          ensures !Pending(s', ChanOf(rs[1..][k]).value)
        {
          assert rs[1..][k] == rs[k + 1];
        }
        ServeAnswersOnce(s', rs[1..]);
        TailAnswers(s, s', rs, out, Serve(s', rs[1..]).1);
      } else {
        assert Serve(s', rs[1..]).1 == [];
      }
    }
  }

  lemma TailAnswers(s: Server, s': Server, rs: seq<Request>, out: seq<Reply>, rest: seq<Reply>)
    requires rs != [] && OneRequestEach(rs) && AnsweredOnce(out) && AnsweredOnce(rest)
    requires forall i :: 0 <= i < |rs| && ChanOf(rs[i]).Some? ==> !Pending(s, ChanOf(rs[i]).value)
    requires forall i :: 0 <= i < |out| ==> Pending(s, out[i].chan) || ChanOf(rs[0]) == Some(out[i].chan)
    requires forall i :: 0 <= i < |out| ==> !Pending(s', out[i].chan)
    requires forall c: Chan :: Pending(s', c) ==> Pending(s, c) || ChanOf(rs[0]) == Some(c)
    requires forall i :: 0 <= i < |rest| ==>
               Pending(s', rest[i].chan) || exists k :: 0 <= k < |rs[1..]| && ChanOf(rs[1..][k]) == Some(rest[i].chan)
    ensures AnsweredOnce(out + rest)
    ensures forall i :: 0 <= i < |out + rest| ==>
              Pending(s, (out + rest)[i].chan) || exists k :: 0 <= k < |rs| && ChanOf(rs[k]) == Some((out + rest)[i].chan)
  {
    hide Pending;
    forall i | 0 <= i < |rest|
      ensures Pending(s, rest[i].chan) || exists k :: 0 <= k < |rs| && ChanOf(rs[k]) == Some(rest[i].chan)
      ensures forall j :: 0 <= j < |out| ==> out[j].chan != rest[i].chan
    {
      if !Pending(s', rest[i].chan) {
        var k :| 0 <= k < |rs[1..]| && ChanOf(rs[1..][k]) == Some(rest[i].chan);
        assert rs[1..][k] == rs[k + 1];
      }
    }
    assert forall i :: 0 <= i < |out + rest| ==> (out + rest)[i] == if i < |out| then out[i] else rest[i - |out|];
    assert forall i :: 0 <= i < |out| && ChanOf(rs[0]) == Some(out[i].chan) ==> exists k :: 0 <= k < |rs| && ChanOf(rs[k]) == Some(out[i].chan);
  }

  /** From the start, in every run where each connection carries one request, no
      connection is answered twice. */
  lemma NoChannelAnsweredTwice(numParts: int, rs: seq<Request>)
    requires OneRequestEach(rs)
    ensures AnsweredOnce(Serve(Initial(numParts), rs).1)
  {
    ServeAnswersOnce(Initial(numParts), rs);
  }

  /** A value is only ever handed to a reader of that variable, and it is the variable's
      value at that moment. */
  lemma AnswerIsCurrent(s: Server, r: Request, i: nat)
    requires StoreOk(s) && i < |Handle(s, r).1| && Handle(s, r).1[i].text.Value?
    ensures var (s', out) := Handle(s, r);
            exists n :: n in s'.values && out[i].text == Value(s'.values[n])
                        && (r == Getv(out[i].chan, n) || (r.Setv? && r.name == n && out[i].chan in Waiters(s, n)))
  {
    var (s', out) := Handle(s, r);
    assert r.Getv? || r.Setv?;
    var n := r.name;
    assert n in s'.values && out[i].text == Value(s'.values[n]);
  }

  /** The first setv of a variable answers every waiter, in the order they came, and
      leaves none. */
  lemma SetvAnswersAllWaiters(s: Server, chan: Chan, name: Name, value: string)
    ensures var (s', out) := Handle(s, Setv(chan, name, value));
            && |out| == |Waiters(s, name)|
            && (forall i :: 0 <= i < |out| ==> out[i] == Reply(Waiters(s, name)[i], Value(value)))
            && name !in s'.waiting && name in s'.values
            && (forall n :: n != name ==> Waiters(s', n) == Waiters(s, n))
  {
  }

  /** Once set, a variable stays set: later readers never wait. */
  lemma {:induction false} SetStaysSet(s: Server, rs: seq<Request>, name: Name)
    requires name in s.values
    ensures name in Serve(s, rs).0.values
    decreases |rs|
  {
    if rs != [] && s.rval.None? {
      SetStaysSet(Handle(s, rs[0]).0, rs[1..], name);
    }
  }

  // ---------- The variable store over whole runs ----------

  /** The requests of `rs` the server gets to handle. */
  function Handled(s: Server, rs: seq<Request>): (hs: seq<Request>)
    ensures hs <= rs
    decreases |rs|
  {
    if rs == [] || s.rval.Some? then [] else [rs[0]] + Handled(Handle(s, rs[0]).0, rs[1..])
  }

  lemma {:induction false} ServeHandled(s: Server, rs: seq<Request>)
    ensures Serve(s, Handled(s, rs)) == Serve(s, rs)
    ensures Handled(s, Handled(s, rs)) == Handled(s, rs)
    decreases |rs|
  {
    hide Handle;
    if rs != [] && s.rval.None? {
      ServeHandled(Handle(s, rs[0]).0, rs[1..]);
      assert Handled(s, rs)[1..] == Handled(Handle(s, rs[0]).0, rs[1..]);
    }
  }

  lemma {:induction false} ServeConcat(s: Server, a: seq<Request>, b: seq<Request>)
    ensures Serve(s, a + b) == (Serve(Serve(s, a).0, b).0, Serve(s, a).1 + Serve(Serve(s, a).0, b).1)
    ensures Handled(s, a + b) == a + b ==> Handled(s, a) == a && Handled(Serve(s, a).0, b) == b
    decreases |a|
  {
    hide Handle;
    if a == [] {
      assert a + b == b && [] + Serve(s, b).1 == Serve(s, b).1;
    } else if s.rval.None? {
      assert (a + b)[0] == a[0] && (a + b)[1..] == a[1..] + b;
      var (s', out) := Handle(s, a[0]);
      ServeConcat(s', a[1..], b);
      Concat3(out, Serve(s', a[1..]).1, Serve(Serve(s, a).0, b).1);
      if Handled(s, a + b) == a + b {
        assert Handled(s, a + b)[1..] == Handled(s', a[1..] + b);
      }
    } else {
      var none: seq<Reply> := [];
      assert none + none == none;
      assert Serve(s, a) == (s, none) && Serve(s, b) == (s, none) && Serve(s, a + b) == (s, none);
    }
  }

  /** In every run of connections that carry one request each the store stays in order. */
  lemma {:induction false} ServeKeepsStore(s: Server, rs: seq<Request>)
    requires StoreOk(s) && OneRequestEach(rs)
    requires forall i :: 0 <= i < |rs| && ChanOf(rs[i]).Some? ==> !Pending(s, ChanOf(rs[i]).value)
    ensures StoreOk(Serve(s, rs).0)
    ensures forall c: Chan :: Pending(Serve(s, rs).0, c) ==> Pending(s, c) || exists i :: 0 <= i < |rs| && ChanOf(rs[i]) == Some(c)
    decreases |rs|
  {
    if rs != [] && s.rval.None? {
      var s' := Handle(s, rs[0]).0;
      HandleAnswers(s, rs[0]);
      HandleKeepsStore(s, rs[0]);
      hide Handle, StoreOk, Pending;
      RestIsNew(s, rs);
      ServeKeepsStore(s', rs[1..]);
      forall c: Chan | Pending(Serve(s', rs[1..]).0, c)
        ensures Pending(s, c) || exists i :: 0 <= i < |rs| && ChanOf(rs[i]) == Some(c)
      {
        if !Pending(s', c) {
          var k :| 0 <= k < |rs[1..]| && ChanOf(rs[1..][k]) == Some(c);
          assert rs[1..][k] == rs[k + 1];
        } else if !Pending(s, c) {
          assert ChanOf(rs[0]) == Some(c);
        }
      }
    }
  }

  /** The connections of later requests are not pending after the first one. */
  lemma RestIsNew(s: Server, rs: seq<Request>)
    requires rs != [] && OneRequestEach(rs)
    requires forall i :: 0 <= i < |rs| && ChanOf(rs[i]).Some? ==> !Pending(s, ChanOf(rs[i]).value)
    requires forall c: Chan :: Pending(Handle(s, rs[0]).0, c) ==> Pending(s, c) || ChanOf(rs[0]) == Some(c)
    ensures OneRequestEach(rs[1..])
    ensures forall k :: 0 <= k < |rs[1..]| && ChanOf(rs[1..][k]).Some? ==> !Pending(Handle(s, rs[0]).0, ChanOf(rs[1..][k]).value)
  {
    hide Handle, Pending;
    forall k | 0 <= k < |rs[1..]| && ChanOf(rs[1..][k]).Some?
      ensures !Pending(Handle(s, rs[0]).0, ChanOf(rs[1..][k]).value)
    {
      assert rs[1..][k] == rs[k + 1];
    }
  }

  /** The value the last setv of a variable gave it, and the first. */
  function LastSet(rs: seq<Request>, name: Name): Option<string> {
    if rs == [] then None
    else
      var later := LastSet(rs[1..], name);
      if later.Some? then later else if rs[0].Setv? && rs[0].name == name then Some(rs[0].value) else None
  }

  function FirstSet(rs: seq<Request>, name: Name): Option<string> {
    if rs == [] then None
    else if rs[0].Setv? && rs[0].name == name then Some(rs[0].value)
    else FirstSet(rs[1..], name)
  }

  /** A variable holds what the last handled setv gave it. */
  lemma {:induction false} ValuesAreLastSet(s: Server, hs: seq<Request>, name: Name)
    requires Handled(s, hs) == hs
    ensures var s', last := Serve(s, hs).0, LastSet(hs, name);
            && (last.Some? ==> name in s'.values && s'.values[name] == last.value)
            && (last.None? ==> (name in s'.values <==> name in s.values) && (name in s.values ==> s'.values[name] == s.values[name]))
    decreases |hs|
  {
    if hs != [] {
      var s' := Handle(s, hs[0]).0;
      assert Handled(s, hs)[1..] == Handled(s', hs[1..]);
      ValuesAreLastSet(s', hs[1..], name);
    }
  }

  /** In every run a variable has waiters only if none of the handled requests set it. */
  lemma WaitersOnlyWhenUnset(numParts: int, rs: seq<Request>, name: Name)
    requires OneRequestEach(rs)
    ensures var s := Serve(Initial(numParts), rs).0;
            && StoreOk(s)
            && (name in s.waiting ==> name !in s.values && LastSet(Handled(Initial(numParts), rs), name).None?)
  {
    ServeKeepsStore(Initial(numParts), rs);
    ServeHandled(Initial(numParts), rs);
    ValuesAreLastSet(Initial(numParts), Handled(Initial(numParts), rs), name);
  }

  /** Connections that neither wait nor speak hear nothing. */
  lemma Silence(s: Server, rs: seq<Request>, c: Chan)
    requires StoreOk(s) && OneRequestEach(rs) && !Pending(s, c)
    requires forall i :: 0 <= i < |rs| && ChanOf(rs[i]).Some? ==> !Pending(s, ChanOf(rs[i]).value) && ChanOf(rs[i]) != Some(c)
    ensures forall t :: Reply(c, t) !in Serve(s, rs).1
  {
    ServeAnswersOnce(s, rs);
    hide Serve, Pending, StoreOk, OneRequestEach;
    forall t
      ensures Reply(c, t) !in Serve(s, rs).1
    {
      var out := Serve(s, rs).1;
      assert forall i :: 0 <= i < |out| ==> out[i].chan != c;
    }
  }

  /** A reader that waits is answered exactly when its variable is set later, with the
      first value it gets. */
  lemma {:induction false} WaiterAnswered(s: Server, hs: seq<Request>, c: Chan, name: Name)
    requires StoreOk(s) && c in Waiters(s, name) && OneRequestEach(hs) && Handled(s, hs) == hs
    requires forall i :: 0 <= i < |hs| && ChanOf(hs[i]).Some? ==> !Pending(s, ChanOf(hs[i]).value)
    ensures forall t :: Reply(c, t) in Serve(s, hs).1 <==> FirstSet(hs, name).Some? && t == Value(FirstSet(hs, name).value)
    decreases |hs|
  {
    if hs != [] {
      var r, rest := hs[0], hs[1..];
      var (s', out) := Handle(s, r);
      assert Pending(s, c);
      assert s.rval.None?;
      assert Handled(s, hs)[1..] == Handled(s', rest);
      HandleAnswers(s, r);
      HandleKeepsStore(s, r);
      RestIsNew(s, hs);
      if r.Setv? && r.name == name {
        WaiterTold(s, r, c);
        forall i | 0 <= i < |rest| && ChanOf(rest[i]).Some?
          ensures ChanOf(rest[i]) != Some(c)
        {
          assert rest[i] == hs[i + 1];
        }
        hide Handle, StoreOk, Pending, OneRequestEach, Handled;
        Silence(s', rest, c);
      } else {
        WaiterKept(s, r, c, name);
        hide Handle, StoreOk, Pending, OneRequestEach, Handled, Waiters;
        WaiterAnswered(s', rest, c, name);
      }
    }
  }

  lemma WaiterTold(s: Server, r: Request, c: Chan)
    requires StoreOk(s) && r.Setv? && c in Waiters(s, r.name)
    ensures !Pending(Handle(s, r).0, c)
    ensures forall t :: Reply(c, t) in Handle(s, r).1 <==> t == Value(r.value)
  {
    var out := Handle(s, r).1;
    var i :| 0 <= i < |Waiters(s, r.name)| && Waiters(s, r.name)[i] == c;
    assert out[i] == Reply(c, Value(r.value));
  }

  lemma WaiterKept(s: Server, r: Request, c: Chan, name: Name)
    requires StoreOk(s) && c in Waiters(s, name) && !(r.Setv? && r.name == name)
    requires ChanOf(r).Some? ==> !Pending(s, ChanOf(r).value)
    ensures c in Waiters(Handle(s, r).0, name)
    ensures forall t :: Reply(c, t) !in Handle(s, r).1
  {
    var out := Handle(s, r).1;
    assert Pending(s, c) && c !in s.open;
    match r
    case Setv(_, m, _) =>
      assert c !in Waiters(s, m);
      assert forall i :: 0 <= i < |out| ==> out[i].chan in Waiters(s, m);
    case Sync(d, _) =>
      assert forall i :: 0 <= i < |out| ==> out[i].chan in s.open || out[i].chan == d;
    case Sfin => assert forall i :: 0 <= i < |out| ==> out[i].chan in s.open;
    case Invalid(_) => assert forall i :: 0 <= i < |out| ==> out[i].chan in s.open;
    case _ =>
  }

  /** The value a getv at position `i` of the handled requests should get: the last one set
      before it, else the first one set after it. */
  function Answer(hs: seq<Request>, i: nat, name: Name): Option<string>
    requires i < |hs|
  {
    var before := LastSet(hs[..i], name);
    if before.Some? then before else FirstSet(hs[i + 1..], name)
  }

  /** In every run each handled getv is answered exactly when its variable was set before
      it or is set after it, with the last value before, else the first after; nothing
      else is ever sent to it. */
  lemma GetvAnswered(numParts: int, rs: seq<Request>, i: nat)
    requires OneRequestEach(rs) && i < |Handled(Initial(numParts), rs)| && Handled(Initial(numParts), rs)[i].Getv?
    ensures var hs := Handled(Initial(numParts), rs);
            var answer := Answer(hs, i, hs[i].name);
            forall t :: Reply(hs[i].chan, t) in Serve(Initial(numParts), rs).1 <==> answer.Some? && t == Value(answer.value)
  {
    var s0, hs := Initial(numParts), Handled(Initial(numParts), rs);
    ServeHandled(s0, rs);
    GetvInHandled(s0, hs, i);
  }

  lemma GetvInHandled(s0: Server, hs: seq<Request>, i: nat)
    requires StoreOk(s0) && (forall c: Chan :: !Pending(s0, c)) && s0.values == map[]
    requires OneRequestEach(hs) && Handled(s0, hs) == hs && i < |hs| && hs[i].Getv?
    ensures var answer := Answer(hs, i, hs[i].name);
            forall t :: Reply(hs[i].chan, t) in Serve(s0, hs).1 <==> answer.Some? && t == Value(answer.value)
  {
    var a, b, name := hs[..i], hs[i..], hs[i].name;
    assert a + b == hs && b[0] == hs[i] && b[1..] == hs[i + 1..];
    hide Handle, StoreOk, Pending, OneRequestEach;
    ServeConcat(s0, a, b);
    BeforeIsQuiet(s0, hs, i);
    ValuesAreLastSet(s0, a, name);
    hide Serve, Handled;
    GetvFirst(Serve(s0, a).0, b);
  }

  /** What came before a request concerns neither its connection nor later ones. */
  lemma BeforeIsQuiet(s0: Server, hs: seq<Request>, i: nat)
    requires StoreOk(s0) && (forall c: Chan :: !Pending(s0, c))
    requires OneRequestEach(hs) && i < |hs| && ChanOf(hs[i]).Some?
    ensures StoreOk(Serve(s0, hs[..i]).0) && OneRequestEach(hs[i..])
    ensures forall t :: Reply(ChanOf(hs[i]).value, t) !in Serve(s0, hs[..i]).1
    ensures forall k :: 0 <= k < |hs[i..]| && ChanOf(hs[i..][k]).Some? ==> !Pending(Serve(s0, hs[..i]).0, ChanOf(hs[i..][k]).value)
  {
    hide Handle, StoreOk, Pending, Serve;
    ServeKeepsStore(s0, hs[..i]);
    Silence(s0, hs[..i], ChanOf(hs[i]).value);
    forall k | 0 <= k < |hs[i..]| && ChanOf(hs[i..][k]).Some?
      ensures !Pending(Serve(s0, hs[..i]).0, ChanOf(hs[i..][k]).value)
    {
      assert hs[i..][k] == hs[i + k];
    }
  }

  /** The same for a getv that is handled next. */
  lemma GetvFirst(s: Server, b: seq<Request>)
    requires StoreOk(s) && b != [] && b[0].Getv? && OneRequestEach(b) && Handled(s, b) == b
    requires forall k :: 0 <= k < |b| && ChanOf(b[k]).Some? ==> !Pending(s, ChanOf(b[k]).value)
    ensures var c, name := b[0].chan, b[0].name;
            forall t :: Reply(c, t) in Serve(s, b).1 <==>
              if name in s.values then t == Value(s.values[name])
              else FirstSet(b[1..], name).Some? && t == Value(FirstSet(b[1..], name).value)
  {
    var c, name, rest := b[0].chan, b[0].name, b[1..];
    var (s', out) := Handle(s, b[0]);
    assert ChanOf(b[0]) == Some(c) && !Pending(s, c);
    assert Handled(s, b)[1..] == Handled(s', rest);
    HandleAnswers(s, b[0]);
    HandleKeepsStore(s, b[0]);
    RestIsNew(s, b);
    forall k | 0 <= k < |rest| && ChanOf(rest[k]).Some?
      ensures ChanOf(rest[k]) != Some(c)
    {
      assert rest[k] == b[k + 1];
    }
    assert Serve(s, b).1 == out + Serve(s', rest).1;
    if name in s.values {
      assert s' == s && out == [Reply(c, Value(s.values[name]))];
      hide Handle, StoreOk, Pending, OneRequestEach, Handled;
      Silence(s', rest, c);
    } else {
      assert c in Waiters(s', name) && out == [];
      hide Handle, StoreOk, Pending, OneRequestEach, Handled, Waiters;
      WaiterAnswered(s', rest, c, name);
    }
  }

  // ---------- How the server ends ----------

  /** A sync whose label is not the one waited for. */
  predicate Mismatch(s: Server, r: Request) {
    r.Sync? && s.target != "" && r.point != s.target
  }

  /** A stop ends with Pass exactly when nobody waits, in the barrier or for a variable. */
  lemma StopCode(s: Server)
    requires StoreOk(s)
    ensures Handle(s, Stop).0.rval == (if forall c: Chan :: !Pending(s, c) then Some(Pass) else Some(Unresolved))
  {
    if s.open != [] {
      assert Pending(s, s.open[0]);
    }
    if s.waiting.Keys != {} {
      var n :| n in s.waiting;
      assert s.waiting[n][0] in s.waiting[n];
      assert Pending(s, s.waiting[n][0]);
    }
  }

  /** A mismatch and an invalid command end the server too, always with Unresolved; no
      other request ends it. */
  lemma EndingCode(s: Server, r: Request)
    requires s.rval.None?
    ensures Handle(s, r).0.rval.Some? <==> r.Stop? || r.Invalid? || Mismatch(s, r)
    ensures r.Invalid? || Mismatch(s, r) ==> Handle(s, r).0.rval == Some(Unresolved)
  {
  }

  /** Both tell every part that waits in the barrier, and a mismatch also the one that
      asked, that the sync has failed; nobody else hears anything. */
  lemma RefusalTellsEveryone(s: Server, r: Request, c: Chan)
    requires r.Invalid? || Mismatch(s, r)
    ensures forall t :: Reply(c, t) in Handle(s, r).1 <==> t == Failed && (c in s.open || (r.Sync? && c == r.chan))
  {
    var out := Handle(s, r).1;
    if c in s.open {
      var i :| 0 <= i < |s.open| && s.open[i] == c;
      assert out[i] == Reply(c, Failed);
    }
    if r.Sync? {
      assert out[|s.open|] == Reply(r.chan, Failed);
    }
    forall t | Reply(c, t) in out
      ensures t == Failed && (c in s.open || (r.Sync? && c == r.chan))
    {
      var i :| 0 <= i < |out| && out[i] == Reply(c, t);
      assert i < |s.open| ==> s.open[i] == c;
    }
  }

  /** In every run the server has ended with Pass exactly when the last request it handled is
      a stop that found nobody waiting, and with Unresolved exactly when it is a stop that
      found somebody, a mismatch or an invalid command. */
  lemma ServeEnds(numParts: int, rs: seq<Request>)
    requires OneRequestEach(rs)
    ensures var s0, hs := Initial(numParts), Handled(Initial(numParts), rs);
            var n := |hs| - 1;
            var ends := Serve(s0, rs).0.rval;
            && (ends == Some(Pass) <==> n >= 0 && hs[n] == Stop && forall c: Chan :: !Pending(Serve(s0, hs[..n]).0, c))
            && (ends == Some(Unresolved) <==>
                  n >= 0 && var s := Serve(s0, hs[..n]).0;
                            || (hs[n] == Stop && exists c: Chan :: Pending(s, c))
                            || hs[n].Invalid? || Mismatch(s, hs[n]))
  {
    var s0, hs := Initial(numParts), Handled(Initial(numParts), rs);
    ServeHandled(s0, rs);
    if hs != [] {
      var n := |hs| - 1;
      var s, last := Serve(s0, hs[..n]).0, hs[n];
      assert hs == hs[..n] + [last];
      assert hs[..n] == rs[..n];
      NobodyPending(numParts);
      hide Serve, Handled, Pending, StoreOk, Initial, Mismatch;
      ServeConcat(s0, hs[..n], [last]);
      ServeOne(s, last);
      OneRequestPrefix(rs, n);
      hide OneRequestEach;
      ServeKeepsStore(s0, hs[..n]);
      EndsAt(s, last);
    }
  }

  lemma NobodyPending(numParts: int)
    ensures StoreOk(Initial(numParts)) && forall c: Chan :: !Pending(Initial(numParts), c)
  {
  }

  lemma OneRequestPrefix(rs: seq<Request>, n: nat)
    requires OneRequestEach(rs) && n <= |rs|
    ensures OneRequestEach(rs[..n])
  {
  }

  lemma EndsAt(s: Server, last: Request)
    requires StoreOk(s) && s.rval.None?
    ensures var ends := Handle(s, last).0.rval;
            && (ends == Some(Pass) <==> last == Stop && forall c: Chan :: !Pending(s, c))
            && (ends == Some(Unresolved) <==>
                  (last == Stop && exists c: Chan :: Pending(s, c)) || last.Invalid? || Mismatch(s, last))
  {
    hide Handle, Pending, StoreOk, Mismatch;
    EndingCode(s, last);
    if last == Stop {
      StopCode(s);
      assert !Mismatch(s, last) by {
        StopIsNoSync(s);
      }
    }
  }

  lemma StopIsNoSync(s: Server)
    ensures !Mismatch(s, Stop)
  {
  }

  lemma ServeOne(s: Server, r: Request)
    requires Handled(s, [r]) == [r]
    ensures s.rval.None? && Serve(s, [r]).0 == Handle(s, r).0
  {
    assert [r][1..] == [];
    hide Handle;
  }
}
