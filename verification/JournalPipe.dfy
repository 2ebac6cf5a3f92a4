/** The journal multiplexer of stf_jnl_context: bytes read from two pipes, standard
    output line-buffered and tagged, standard error and journal entries passed on. */
module JournalPipe {
  import opened Wrappers

  const NUL: char := '\0'
  const NEWLINE: char := '\n'
  const MAXCHAR: nat := 8192
  const STDOUT_TAG: string := "stdout| "
  const STDERR_TAG: string := "stderr| "
  const OVERFLOW_WARNING: string := "\nstderr| : Warning: buffer overflow, lines limited to 8192 bytes\n"

  /** Pipe 0 carries standard output and journal entries, pipe 1 standard error. */
  datatype Pipe = Out | Err

  datatype Byte = Byte(pipe: Pipe, c: char)

  /** How an input byte is treated. */
  datatype Kind = Line | Entry | Direct

  /** Output, with the origin of every byte. */
  datatype Token = Input(pipe: Pipe, kind: Kind, c: char) | Added(text: string)

  /** The static flags and counters of `write_pipe`, and the buffered part of a line. */
  datatype Ctx = Ctx(crNeeded: bool, jnlEntry: bool, outTagged: bool, errTagged: bool, pending: string)

  const START: Ctx := Ctx(false, false, false, false, "")

  function Lines(cs: string): (r: seq<Token>)
    ensures |r| == |cs|
  {
    seq(|cs|, i requires 0 <= i < |cs| => Input(Out, Line, cs[i]))
  }

  function KindOf(s: Ctx, b: Byte): Kind {
    if b.pipe == Err && b.c == NUL then Direct
    else if s.jnlEntry then Entry
    else if b.pipe == Err then Direct
    else Line
  }

  function ErrTag(s: Ctx): seq<Token> {
    if s.errTagged then [] else [Added(STDERR_TAG)]
  }

  /** One round of the loop of `write_pipe`. */
  function Step(s: Ctx, b: Byte): (Ctx, seq<Token>) {
    var here := Input(b.pipe, KindOf(s, b), b.c);
    if b.c == NUL then
      if b.pipe == Out
      then (s.(jnlEntry := true, crNeeded := false), if s.crNeeded then [Added("\n")] else [])
      else (s.(crNeeded := true), [here])
    else if b.c == NEWLINE then
      if s.jnlEntry then (s.(crNeeded := false, jnlEntry := false), [here])
      else if b.pipe == Err then (s.(crNeeded := false, errTagged := false), ErrTag(s) + [here])
      else (s.(crNeeded := false, outTagged := false, pending := ""), [Added(STDOUT_TAG)] + Lines(s.pending) + [here])
    else if s.jnlEntry then (s, [here])
    else if b.pipe == Err then (s.(crNeeded := true, errTagged := true), ErrTag(s) + [here])
    else
      var line := s.pending + [b.c];
      if |line| > MAXCHAR - 1
      then (s.(crNeeded := false, outTagged := false, pending := ""),
            [Added(STDOUT_TAG)] + Lines(line) + [Added(OVERFLOW_WARNING)])
      else (s.(outTagged := true, pending := line), [])
  }

  function Run(s: Ctx, bs: seq<Byte>): (Ctx, seq<Token>)
    decreases |bs|
  {
    if bs == [] then (s, []) else
      var (s', out) := Step(s, bs[0]);
      var (s'', rest) := Run(s', bs[1..]);
      (s'', out + rest)
  }

  /** The flush at the end of `main`. */
  function Final(s: Ctx): seq<Token> {
    if s.outTagged
    then (if s.crNeeded then [Added("\n")] else []) + [Added(STDOUT_TAG)] + Lines(s.pending) + [Added("\n")]
    else if s.crNeeded then [Added("\n")] else []
  }

  function TextOf(t: Token): string {
    match t
    case Input(_, _, c) => [c]
    case Added(text) => text
  }

  /** The characters that reach the journal. */
  function Render(ts: seq<Token>): string {
    if ts == [] then "" else TextOf(ts[0]) + Render(ts[1..])
  }

  function OfChunk(pipe: Pipe, cs: string): (r: seq<Byte>)
    ensures |r| == |cs|
  {
    seq(|cs|, i requires 0 <= i < |cs| => Byte(pipe, cs[i]))
  }

  // ---------- Laws of runs ----------

  lemma RunFirst(s: Ctx, bs: seq<Byte>)
    requires bs != []
    ensures Run(s, bs) == (Run(Step(s, bs[0]).0, bs[1..]).0, Step(s, bs[0]).1 + Run(Step(s, bs[0]).0, bs[1..]).1)
  {
    hide Step;
  }

  lemma {:induction false} RunConcat(s: Ctx, a: seq<Byte>, b: seq<Byte>)
    ensures Run(s, a + b) == (Run(Run(s, a).0, b).0, Run(s, a).1 + Run(Run(s, a).0, b).1)
    decreases |a|
  {
    if a == [] {
      assert a + b == b;
      assert Run(s, a).1 + Run(s, b).1 == Run(s, b).1;
    } else {
      assert (a + b)[1..] == a[1..] + b && (a + b)[0] == a[0];
      var (s', out) := Step(s, a[0]);
      RunConcat(s', a[1..], b);
      hide Step;
      RunFirst(s, a + b);
      RunFirst(s, a);
      hide Run;
      var mid := Run(s', a[1..]);
      Concat3(out, mid.1, Run(mid.0, b).1);
    }
  }

  /** Reading one chunk in two pieces, cut anywhere, gives the same output and state. */
  lemma SplitChunk(s: Ctx, pipe: Pipe, cs: string, k: nat)
    requires k <= |cs|
    ensures var (mid, first) := Run(s, OfChunk(pipe, cs[..k]));
            var (end, second) := Run(mid, OfChunk(pipe, cs[k..]));
            Run(s, OfChunk(pipe, cs)) == (end, first + second)
  {
    assert OfChunk(pipe, cs) == OfChunk(pipe, cs[..k]) + OfChunk(pipe, cs[k..]);
    RunConcat(s, OfChunk(pipe, cs[..k]), OfChunk(pipe, cs[k..]));
  }

  lemma {:induction false} RenderConcat(a: seq<Token>, b: seq<Token>)
    ensures Render(a + b) == Render(a) + Render(b)
    decreases |a|
  {
    if a == [] {
      assert a + b == b;
    } else {
      assert (a + b)[1..] == a[1..] + b;
      RenderConcat(a[1..], b);
    }
  }

  lemma {:induction false} RenderLines(cs: string)
    ensures Render(Lines(cs)) == cs
    decreases |cs|
  {
    if cs != [] {
      assert Lines(cs)[1..] == Lines(cs[1..]);
      RenderLines(cs[1..]);
    }
  }

  // ---------- Invariant of the buffer ----------

  /** A line is tagged exactly while bytes of it are buffered; it is short and has no
      NUL or newline. */
  ghost predicate CtxOk(s: Ctx) {
    && (s.outTagged <==> s.pending != "")
    && |s.pending| <= MAXCHAR - 1
    && NUL !in s.pending && NEWLINE !in s.pending
  }

  lemma StepKeepsCtx(s: Ctx, b: Byte)
    requires CtxOk(s)
    ensures CtxOk(Step(s, b).0)
  {
  }

  lemma {:induction false} RunKeepsCtx(s: Ctx, bs: seq<Byte>)
    requires CtxOk(s)
    ensures CtxOk(Run(s, bs).0)
    decreases |bs|
  {
    if bs != [] {
      StepKeepsCtx(s, bs[0]);
      RunKeepsCtx(Step(s, bs[0]).0, bs[1..]);
    }
  }

  // ---------- Conservation ----------

  /** The three streams whose order is kept. */
  datatype Stream = FromErr | StdoutLines | OutEntries

  predicate In(st: Stream, t: Token) {
    match st
    case FromErr => t.Input? && t.pipe == Err
    case StdoutLines => t.Input? && t.pipe == Out && t.kind == Line
    case OutEntries => t.Input? && t.pipe == Out && t.kind == Entry
  }

  function Pick(st: Stream, ts: seq<Token>): seq<Token> {
    if ts == [] then [] else (if In(st, ts[0]) then [ts[0]] else []) + Pick(st, ts[1..])
  }

  /** What an input byte should put out: itself, unless it is the NUL that opens an entry. */
  function Owed(s: Ctx, b: Byte): seq<Token> {
    if b.pipe == Out && b.c == NUL then [] else [Input(b.pipe, KindOf(s, b), b.c)]
  }

  function OwedAll(s: Ctx, bs: seq<Byte>): seq<Token>
    decreases |bs|
  {
    if bs == [] then [] else Owed(s, bs[0]) + OwedAll(Step(s, bs[0]).0, bs[1..])
  }

  lemma {:induction false} PickConcat(st: Stream, a: seq<Token>, b: seq<Token>)
    ensures Pick(st, a + b) == Pick(st, a) + Pick(st, b)
    decreases |a|
  {
    if a == [] {
      assert a + b == b;
    } else {
      assert (a + b)[0] == a[0] && (a + b)[1..] == a[1..] + b;
      hide In;
      PickConcat(st, a[1..], b);
      Concat3(if In(st, a[0]) then [a[0]] else [], Pick(st, a[1..]), Pick(st, b));
    }
  }

  lemma PickOne(st: Stream, t: Token)
    ensures Pick(st, [t]) == if In(st, t) then [t] else []
  {
    assert [t][1..] == [];
    assert Pick(st, []) == [];
  }

  lemma {:induction false} PickLines(st: Stream, cs: string)
    ensures Pick(st, Lines(cs)) == if st == StdoutLines then Lines(cs) else []
    decreases |cs|
  {
    if cs != [] {
      assert Lines(cs)[1..] == Lines(cs[1..]);
      PickLines(st, cs[1..]);
      assert st == StdoutLines ==> [Lines(cs)[0]] + Lines(cs[1..]) == Lines(cs);
    }
  }

  /** The buffered bytes, as part of a stream. */
  function Held(st: Stream, s: Ctx): seq<Token> {
    if st == StdoutLines then Lines(s.pending) else []
  }

  lemma PickFlush(st: Stream, cs: string, last: Token)
    ensures Pick(st, [Added(STDOUT_TAG)] + Lines(cs) + [last]) ==
            (if st == StdoutLines then Lines(cs) else []) + (if In(st, last) then [last] else [])
  {
    hide Pick, Lines;
    PickConcat(st, [Added(STDOUT_TAG)] + Lines(cs), [last]);
    PickConcat(st, [Added(STDOUT_TAG)], Lines(cs));
    PickOne(st, Added(STDOUT_TAG));
    PickOne(st, last);
    PickLines(st, cs);
    assert Pick(st, [Added(STDOUT_TAG)]) == [];
    assert [] + Pick(st, Lines(cs)) == Pick(st, Lines(cs));
  }

  lemma NothingBefore<T>(a: seq<T>)
    ensures [] + a == a
  {
  }

  /** A byte that is passed on at once. */
  lemma DirectConserves(st: Stream, s: Ctx, b: Byte)
    requires b.c == NUL || s.jnlEntry || b.pipe == Err
    ensures Pick(st, Step(s, b).1) == Pick(st, Owed(s, b))
    ensures Step(s, b).0.pending == s.pending
    ensures st == StdoutLines ==> Pick(st, Owed(s, b)) == []
  {
    var here := Input(b.pipe, KindOf(s, b), b.c);
    PickOne(st, here);
    PickOne(st, Added("\n"));
    PickOne(st, Added(STDERR_TAG));
    PickConcat(st, ErrTag(s), [here]);
    assert Pick(st, []) == [];
    hide Pick, Lines;
    assert Pick(st, ErrTag(s)) == [];
    NothingBefore(Pick(st, [here]));
    assert Step(s, b).1 == [] || Step(s, b).1 == [here] || Step(s, b).1 == ErrTag(s) + [here] || Step(s, b).1 == [Added("\n")];
  }

  /** A byte that goes through the line buffer. */
  lemma BufferedConserves(st: Stream, s: Ctx, b: Byte)
    requires b.c != NUL && b.pipe == Out && !s.jnlEntry
    ensures Pick(st, Step(s, b).1) + Held(st, Step(s, b).0) == Held(st, s) + Pick(st, Owed(s, b))
  {
    var here := Input(Out, Line, b.c);
    PickOne(st, here);
    assert Owed(s, b) == [here] && Pick(st, []) == [];
    assert Lines("") == [] && Lines(s.pending + [b.c]) == Lines(s.pending) + [here];
    hide Pick, Lines;
    if b.c == NEWLINE {
      PickFlush(st, s.pending, here);
    } else {
      PickFlush(st, s.pending + [b.c], Added(OVERFLOW_WARNING));
    }
  }

  /** One byte: what is put out and still held is what was held and what the byte owes. */
  lemma StepConserves(st: Stream, s: Ctx, b: Byte)
    ensures Pick(st, Step(s, b).1) + Held(st, Step(s, b).0) == Held(st, s) + Pick(st, Owed(s, b))
  {
    hide Pick, Step, Lines, Owed;
    if b.c == NUL || s.jnlEntry || b.pipe == Err {
      DirectConserves(st, s, b);
    } else {
      BufferedConserves(st, s, b);
    }
  }

  /** Over any interleaving of bytes from the two pipes, each stream comes out complete,
      without duplicates and in order, up to the part of a line still buffered. */
  lemma {:induction false} RunConserves(st: Stream, s: Ctx, bs: seq<Byte>)
    ensures Pick(st, Run(s, bs).1) + Held(st, Run(s, bs).0) == Held(st, s) + Pick(st, OwedAll(s, bs))
    decreases |bs|
  {
    if bs != [] {
      var (s', out) := Step(s, bs[0]);
      StepConserves(st, s, bs[0]);
      RunConserves(st, s', bs[1..]);
      PickConcat(st, out, Run(s', bs[1..]).1);
      PickConcat(st, Owed(s, bs[0]), OwedAll(s', bs[1..]));
      Rearrange(Pick(st, out), Pick(st, Run(s', bs[1..]).1), Held(st, Run(s, bs).0), Held(st, s'),
                Pick(st, OwedAll(s', bs[1..])), Held(st, s), Pick(st, Owed(s, bs[0])));
    }
  }

  lemma Rearrange(a: seq<Token>, b: seq<Token>, c: seq<Token>, d: seq<Token>, e: seq<Token>, f: seq<Token>, g: seq<Token>)
    requires b + c == d + e && a + d == f + g
    ensures (a + b) + c == f + (g + e)
  {
    assert (a + b) + c == a + (b + c) == a + (d + e) == (a + d) + e == (f + g) + e;
  }

  /** With the final flush nothing stays behind. */
  lemma WholeRunConserves(st: Stream, bs: seq<Byte>)
    ensures var (s, out) := Run(START, bs);
            Pick(st, out + Final(s)) == Pick(st, OwedAll(START, bs))
  {
    var (s, out) := Run(START, bs);
    RunConserves(st, START, bs);
    RunKeepsCtx(START, bs);
    PickConcat(st, out, Final(s));
    PickFinal(st, s);
    assert Held(st, START) == [];
  }

  lemma PickFinal(st: Stream, s: Ctx)
    requires CtxOk(s)
    ensures Pick(st, Final(s)) == Held(st, s)
  {
    PickOne(st, Added("\n"));
    var cr := if s.crNeeded then [Added("\n")] else [];
    if s.outTagged {
      PickFlush(st, s.pending, Added("\n"));
      PickConcat(st, cr, [Added(STDOUT_TAG)] + Lines(s.pending) + [Added("\n")]);
      assert Final(s) == cr + ([Added(STDOUT_TAG)] + Lines(s.pending) + [Added("\n")]);
    }
  }

  // ---------- Nothing lost, nothing duplicated ----------

  /** The input bytes among some output. */
  function Origins(ts: seq<Token>): seq<Byte> {
    if ts == [] then [] else (if ts[0].Input? then [Byte(ts[0].pipe, ts[0].c)] else []) + Origins(ts[1..])
  }

  /** The input without the NULs that only open journal entries. */
  function Payload(bs: seq<Byte>): seq<Byte> {
    if bs == [] then [] else (if bs[0] == Byte(Out, NUL) then [] else [bs[0]]) + Payload(bs[1..])
  }

  /** Every input byte among the tokens belongs to one of the three streams. */
  ghost predicate Sorted(ts: seq<Token>) {
    forall i :: 0 <= i < |ts| && ts[i].Input? ==> ts[i].pipe == Err || ts[i].kind != Direct
  }

  /** How often an input byte occurs in some output. */
  function Times(ts: seq<Token>, b: Byte): nat {
    multiset(Origins(ts))[b]
  }

  lemma TimesFirst(ts: seq<Token>, b: Byte)
    requires ts != []
    ensures Times(ts, b) == (if ts[0].Input? && Byte(ts[0].pipe, ts[0].c) == b then 1 else 0) + Times(ts[1..], b)
  {
  }

  lemma TimesPicked(st: Stream, ts: seq<Token>, b: Byte)
    requires ts != []
    ensures Times(Pick(st, ts), b) ==
            (if In(st, ts[0]) && Byte(ts[0].pipe, ts[0].c) == b then 1 else 0) + Times(Pick(st, ts[1..]), b)
  {
    var rest := Pick(st, ts[1..]);
    if In(st, ts[0]) {
      TimesFirst([ts[0]] + rest, b);
      assert ([ts[0]] + rest)[1..] == rest;
    } else {
      assert [] + rest == rest;
    }
  }

  lemma {:induction false} StreamsCount(ts: seq<Token>, b: Byte)
    requires Sorted(ts)
    ensures Times(ts, b) == Times(Pick(FromErr, ts), b) + Times(Pick(StdoutLines, ts), b) + Times(Pick(OutEntries, ts), b)
    decreases |ts|
  {
    if ts != [] {
      StreamsCount(ts[1..], b);
      TimesFirst(ts, b);
      TimesPicked(FromErr, ts, b);
      TimesPicked(StdoutLines, ts, b);
      TimesPicked(OutEntries, ts, b);
      hide Times, Pick;
    }
  }

  lemma {:induction false} RunSorted(s: Ctx, bs: seq<Byte>)
    ensures Sorted(Run(s, bs).1) && Sorted(OwedAll(s, bs)) && Sorted(Final(Run(s, bs).0))
    decreases |bs|
  {
    if bs != [] {
      RunSorted(Step(s, bs[0]).0, bs[1..]);
    }
  }

  lemma {:induction false} OwedIsPayload(s: Ctx, bs: seq<Byte>)
    ensures Origins(OwedAll(s, bs)) == Payload(bs)
    decreases |bs|
  {
    if bs != [] {
      var s' := Step(s, bs[0]).0;
      OwedIsPayload(s', bs[1..]);
      var first, rest := Owed(s, bs[0]), OwedAll(s', bs[1..]);
      assert first != [] ==> (first + rest)[1..] == rest;
      assert first == [] ==> first + rest == rest;
    }
  }

  /** After the final flush the journal holds every input byte exactly once, except the
      NULs on pipe 0, for any interleaving of the two pipes. */
  lemma EveryByteOnce(bs: seq<Byte>)
    ensures var (s, out) := Run(START, bs);
            multiset(Origins(out + Final(s))) == multiset(Payload(bs))
  {
    var (s, out) := Run(START, bs);
    var owed := OwedAll(START, bs);
    RunSorted(START, bs);
    WholeRunConserves(FromErr, bs);
    WholeRunConserves(StdoutLines, bs);
    WholeRunConserves(OutEntries, bs);
    OwedIsPayload(START, bs);
    forall b: Byte
      ensures Times(out + Final(s), b) == Times(owed, b)
    {
      StreamsCount(out + Final(s), b);
      StreamsCount(owed, b);
    }
    assert forall b: Byte :: multiset(Origins(out + Final(s)))[b] == Times(out + Final(s), b);
  }

  /** Every byte from the standard error pipe goes out at once, in order. */
  lemma {:induction false} ErrBytesOwed(s: Ctx, bs: seq<Byte>)
    ensures |Pick(FromErr, OwedAll(s, bs))| == |ErrInput(bs)|
    ensures forall i :: 0 <= i < |ErrInput(bs)| ==> Pick(FromErr, OwedAll(s, bs))[i].Input?
                                                     && Pick(FromErr, OwedAll(s, bs))[i].c == ErrInput(bs)[i]
    decreases |bs|
  {
    if bs != [] {
      var s' := Step(s, bs[0]).0;
      ErrBytesOwed(s', bs[1..]);
      PickConcat(FromErr, Owed(s, bs[0]), OwedAll(s', bs[1..]));
      PickOne(FromErr, Input(bs[0].pipe, KindOf(s, bs[0]), bs[0].c));
    }
  }

  function ErrInput(bs: seq<Byte>): string {
    if bs == [] then "" else (if bs[0].pipe == Err then [bs[0].c] else "") + ErrInput(bs[1..])
  }

  /** Nothing is added but tags, newlines and the overflow warning. */
  predicate Expected(t: Token) {
    t.Added? ==> t.text in {STDOUT_TAG, STDERR_TAG, "\n", OVERFLOW_WARNING}
  }

  lemma {:induction false} OnlyExpectedAdditions(s: Ctx, bs: seq<Byte>)
    ensures forall i :: 0 <= i < |Run(s, bs).1| ==> Expected(Run(s, bs).1[i])
    decreases |bs|
  {
    if bs != [] {
      OnlyExpectedAdditions(Step(s, bs[0]).0, bs[1..]);
    }
  }

  lemma FinalExpected(s: Ctx)
    ensures forall i :: 0 <= i < |Final(s)| ==> Expected(Final(s)[i])
  {
  }

  /** In the whole journal of a run, the final flush included, the standard error stream is
      exactly the bytes of pipe 1, in order. */
  lemma ErrComesThrough(bs: seq<Byte>)
    ensures var (s, out) := Run(START, bs);
            var err := Pick(FromErr, out + Final(s));
            && |err| == |ErrInput(bs)|
            && forall i :: 0 <= i < |err| ==> err[i].Input? && err[i].pipe == Err && err[i].c == ErrInput(bs)[i]
  {
    WholeRunConserves(FromErr, bs);
    ErrBytesOwed(START, bs);
    PickedAreIn(FromErr, OwedAll(START, bs));
  }

  lemma {:induction false} PickedAreIn(st: Stream, ts: seq<Token>)
    ensures forall i :: 0 <= i < |Pick(st, ts)| ==> In(st, Pick(st, ts)[i])
  {
    if ts != [] {
      PickedAreIn(st, ts[1..]);
    }
  }

  /** Nothing in the whole journal of a run, the final flush included, is added but tags,
      newlines and the overflow warning. */
  lemma WholeRunAddsOnlyExpected(bs: seq<Byte>)
    ensures var (s, out) := Run(START, bs);
            forall i :: 0 <= i < |out + Final(s)| ==> Expected((out + Final(s))[i])
  {
    var (s, out) := Run(START, bs);
    OnlyExpectedAdditions(START, bs);
    FinalExpected(s);
    hide Run, Final, Expected;
    forall i | 0 <= i < |out + Final(s)|
      ensures Expected((out + Final(s))[i])
    {
      assert (out + Final(s))[i] == if i < |out| then out[i] else Final(s)[i - |out|];
    }
  }

  // ---------- What the input makes of a byte ----------

  /** A NUL on pipe 0 came after the last newline on either pipe. */
  ghost predicate Opened(bs: seq<Byte>) {
    exists i :: OpenedAt(bs, i)
  }

  ghost predicate OpenedAt(bs: seq<Byte>, i: int) {
    0 <= i < |bs| && bs[i] == Byte(Out, NUL) && forall j :: i < j < |bs| ==> bs[j].c != NEWLINE
  }

  lemma OpenedSnoc(bs: seq<Byte>, b: Byte)
    ensures Opened(bs + [b]) <==> b == Byte(Out, NUL) || (b.c != NEWLINE && Opened(bs))
  {
    var longer := bs + [b];
    assert longer[|bs|] == b && forall j :: 0 <= j < |bs| ==> longer[j] == bs[j];
    if Opened(longer) && b != Byte(Out, NUL) {
      var i :| OpenedAt(longer, i);
      assert OpenedAt(bs, i);
    }
    if b.c != NEWLINE && Opened(bs) {
      var i :| OpenedAt(bs, i);
      assert OpenedAt(longer, i);
    }
    if b == Byte(Out, NUL) {
      assert OpenedAt(longer, |bs|);
    }
  }

  /** A journal entry is open exactly when a NUL on pipe 0 came after the last newline on
      either pipe: a newline of the other pipe ends it too. */
  lemma {:induction false} EntryIsOpened(bs: seq<Byte>)
    ensures Run(START, bs).0.jnlEntry <==> Opened(bs)
  {
    if bs != [] {
      var n := |bs| - 1;
      assert bs == bs[..n] + [bs[n]];
      EntryIsOpened(bs[..n]);
      OpenedSnoc(bs[..n], bs[n]);
      RunSnoc(START, bs[..n], bs[n]);
      hide Run, Opened;
    }
  }

  function Chars(ts: seq<Token>): string {
    if ts == [] then "" else (if ts[0].Input? then [ts[0].c] else "") + Chars(ts[1..])
  }

  lemma {:induction false} CharsConcat(a: seq<Token>, b: seq<Token>)
    ensures Chars(a + b) == Chars(a) + Chars(b)
    decreases |a|
  {
    if a == [] {
      assert a + b == b;
    } else {
      assert (a + b)[0] == a[0] && (a + b)[1..] == a[1..] + b;
      CharsConcat(a[1..], b);
      Concat3(if a[0].Input? then [a[0].c] else "", Chars(a[1..]), Chars(b));
    }
  }

  /** The characters of pipe 0, without its NULs, that came while an entry was open, or
      while none was. */
  ghost function OutInput(bs: seq<Byte>, entry: bool): string {
    if bs == [] then ""
    else
      var n := |bs| - 1;
      OutInput(bs[..n], entry) + (if bs[n].pipe == Out && bs[n].c != NUL && Opened(bs[..n]) == entry then [bs[n].c] else "")
  }

  lemma {:induction false} OwedSnoc(s: Ctx, bs: seq<Byte>, b: Byte)
    ensures OwedAll(s, bs + [b]) == OwedAll(s, bs) + Owed(Run(s, bs).0, b)
    decreases |bs|
  {
    if bs == [] {
      assert bs + [b] == [b] && [b][1..] == [];
      assert OwedAll(Step(s, b).0, []) == [];
      assert Owed(s, b) + [] == Owed(s, b) && [] + Owed(s, b) == Owed(s, b);
    } else {
      assert (bs + [b])[0] == bs[0] && (bs + [b])[1..] == bs[1..] + [b];
      var s' := Step(s, bs[0]).0;
      OwedSnoc(s', bs[1..], b);
      RunFirst(s, bs);
      hide Step, Owed, Run;
      Concat3(Owed(s, bs[0]), OwedAll(s', bs[1..]), Owed(Run(s', bs[1..]).0, b));
    }
  }

  lemma OwedStreams(s: Ctx, b: Byte)
    ensures Chars(Pick(StdoutLines, Owed(s, b))) == (if b.pipe == Out && b.c != NUL && !s.jnlEntry then [b.c] else "")
    ensures Chars(Pick(OutEntries, Owed(s, b))) == (if b.pipe == Out && b.c != NUL && s.jnlEntry then [b.c] else "")
  {
    var here := Input(b.pipe, KindOf(s, b), b.c);
    PickOne(StdoutLines, here);
    PickOne(OutEntries, here);
    assert Pick(StdoutLines, []) == [] && Pick(OutEntries, []) == [];
    assert [here][1..] == [] && Chars([]) == "" && Chars([here]) == [b.c];
    hide Pick;
  }

  lemma {:induction false} OwedFromInput(bs: seq<Byte>)
    ensures Chars(Pick(StdoutLines, OwedAll(START, bs))) == OutInput(bs, false)
    ensures Chars(Pick(OutEntries, OwedAll(START, bs))) == OutInput(bs, true)
  {
    if bs != [] {
      var n := |bs| - 1;
      var before, b := bs[..n], bs[n];
      assert bs == before + [b];
      OwedFromInput(before);
      OwedSnoc(START, before, b);
      EntryIsOpened(before);
      OwedStreams(Run(START, before).0, b);
      hide OwedAll, Owed, Run, Opened, Pick, Chars;
      var all, last := OwedAll(START, before), Owed(Run(START, before).0, b);
      PickConcat(StdoutLines, all, last);
      PickConcat(OutEntries, all, last);
      CharsConcat(Pick(StdoutLines, all), Pick(StdoutLines, last));
      CharsConcat(Pick(OutEntries, all), Pick(OutEntries, last));
    }
  }

  /** In the whole journal of a run the standard output lines, and the journal entries, are
      the characters of pipe 0 that came outside, and inside, of an entry, in order. */
  lemma OutComesThrough(bs: seq<Byte>)
    ensures var (s, out) := Run(START, bs);
            && Chars(Pick(StdoutLines, out + Final(s))) == OutInput(bs, false)
            && Chars(Pick(OutEntries, out + Final(s))) == OutInput(bs, true)
  {
    WholeRunConserves(StdoutLines, bs);
    WholeRunConserves(OutEntries, bs);
    OwedFromInput(bs);
  }

  // ---------- Where additions stand ----------

  /** Byte `i` is of standard error: of pipe 1, no NUL, and not in an entry. */
  ghost predicate ErrByte(bs: seq<Byte>, i: nat)
    requires i < |bs|
  {
    bs[i].pipe == Err && bs[i].c != NUL && !Opened(bs[..i])
  }

  /** Byte `i` is of standard output: of pipe 0, no NUL, and not in an entry. */
  ghost predicate OutByte(bs: seq<Byte>, i: nat)
    requires i < |bs|
  {
    bs[i].pipe == Out && bs[i].c != NUL && !Opened(bs[..i])
  }

  /** A line of standard error has begun: byte `i` is of it, and no newline has ended it. */
  ghost predicate ErrBegunAt(bs: seq<Byte>, i: int) {
    && 0 <= i < |bs| && ErrByte(bs, i) && bs[i].c != NEWLINE
    && forall j :: i < j < |bs| ==> !(ErrByte(bs, j) && bs[j].c == NEWLINE)
  }

  ghost predicate ErrBegun(bs: seq<Byte>) {
    exists i :: ErrBegunAt(bs, i)
  }

  /** The characters of standard output since its last newline. */
  ghost function LineChars(bs: seq<Byte>): string {
    if bs == [] then ""
    else
      var n := |bs| - 1;
      if !OutByte(bs, n) then LineChars(bs[..n])
      else if bs[n].c == NEWLINE then ""
      else LineChars(bs[..n]) + [bs[n].c]
  }

  /** Those not yet written: lines longer than the limit are written in pieces of it. */
  ghost function Unwritten(bs: seq<Byte>): string {
    var line := LineChars(bs);
    line[|line| - |line| % MAXCHAR..]
  }

  /** Byte `i` fills a piece of the limit's length. */
  ghost predicate Fills(bs: seq<Byte>, i: nat)
    requires i < |bs|
  {
    OutByte(bs, i) && bs[i].c != NEWLINE && (|LineChars(bs[..i])| + 1) % MAXCHAR == 0
  }

  /** A newline is owed to the journal: byte `i` was passed on from pipe 1 without ending a
      line, and since then no newline came, no entry was opened and no piece was filled. */
  ghost predicate NewlineOwedAt(bs: seq<Byte>, i: int) {
    && 0 <= i < |bs| && (bs[i] == Byte(Err, NUL) || (ErrByte(bs, i) && bs[i].c != NEWLINE))
    && forall j :: i < j < |bs| ==> bs[j] != Byte(Out, NUL) && bs[j].c != NEWLINE && !Fills(bs, j)
  }

  ghost predicate NewlineOwed(bs: seq<Byte>) {
    exists i :: NewlineOwedAt(bs, i)
  }

  lemma PrefixFacts(bs: seq<Byte>, b: Byte)
    ensures var longer := bs + [b];
            && (forall i :: 0 <= i < |bs| ==> longer[i] == bs[i] && longer[..i] == bs[..i])
            && longer[|bs|] == b && longer[..|bs|] == bs
  {
  }

  lemma ErrBegunSnoc(bs: seq<Byte>, b: Byte)
    ensures ErrBegun(bs + [b]) <==>
            if b.pipe == Err && b.c != NUL && !Opened(bs) then b.c != NEWLINE else ErrBegun(bs)
  {
    hide Opened;
    PrefixFacts(bs, b);
    var longer := bs + [b];
    if ErrBegun(longer) {
      var i :| ErrBegunAt(longer, i);
      if i < |bs| {
        assert ErrBegunAt(bs, i);
      }
    }
    if ErrBegun(bs) {
      var i :| ErrBegunAt(bs, i);
      if !(ErrByte(longer, |bs|) && b.c == NEWLINE) {
        assert ErrBegunAt(longer, i);
      }
    }
    if ErrByte(longer, |bs|) && b.c != NEWLINE {
      assert ErrBegunAt(longer, |bs|);
    }
  }

  lemma NewlineOwedSnoc(bs: seq<Byte>, b: Byte)
    ensures NewlineOwed(bs + [b]) <==>
            || b == Byte(Err, NUL)
            || (b.pipe == Err && b.c != NEWLINE && !Opened(bs))
            || (b != Byte(Out, NUL) && b.c != NEWLINE && !Fills(bs + [b], |bs|) && NewlineOwed(bs))
  {
    hide Opened, LineChars;
    PrefixFacts(bs, b);
    var longer := bs + [b];
    assert forall j :: 0 <= j < |bs| ==> (Fills(longer, j) <==> Fills(bs, j));
    if NewlineOwed(longer) {
      var i :| NewlineOwedAt(longer, i);
      if i < |bs| {
        assert NewlineOwedAt(bs, i);
      }
    }
    if b != Byte(Out, NUL) && b.c != NEWLINE && !Fills(longer, |bs|) && NewlineOwed(bs) {
      var i :| NewlineOwedAt(bs, i);
      assert NewlineOwedAt(longer, i);
    }
    if b == Byte(Err, NUL) || (b.pipe == Err && b.c != NEWLINE && !Opened(bs)) {
      assert NewlineOwedAt(longer, |bs|);
    }
  }

  lemma ModNext(n: nat, m: nat)
    requires m > 1
    ensures (n + 1) % m == if n % m == m - 1 then 0 else n % m + 1
  {
    var q, r := n / m, n % m;
    assert n == q * m + r;
    if r == m - 1 {
      assert n + 1 == (q + 1) * m;
      ModOf(n + 1, q + 1, 0, m);
    } else {
      ModOf(n + 1, q, r + 1, m);
    }
  }

  lemma ModOf(x: nat, q: nat, r: nat, m: nat)
    requires m > 0 && r < m && x == q * m + r
    ensures x % m == r
  {
    var p := x / m;
    assert x == p * m + x % m;
    assert p < q ==> (p + 1) * m <= q * m;
    assert p > q ==> (q + 1) * m <= p * m;
    assert (p + 1) * m == p * m + m && (q + 1) * m == q * m + m;
  }

  /** The buffered part after one more byte. */
  lemma UnwrittenSnoc(bs: seq<Byte>, b: Byte)
    ensures var longer := bs + [b];
            Unwritten(longer) ==
            if !OutByte(longer, |bs|) then Unwritten(bs)
            else if b.c == NEWLINE || Fills(longer, |bs|) then ""
            else Unwritten(bs) + [b.c]
    ensures |Unwritten(bs)| < MAXCHAR
    ensures OutByte(bs + [b], |bs|) && b.c != NEWLINE ==> (Fills(bs + [b], |bs|) <==> |Unwritten(bs)| == MAXCHAR - 1)
  {
    hide Opened;
    PrefixFacts(bs, b);
    var longer, n := bs + [b], |LineChars(bs)|;
    ModNext(n, MAXCHAR);
    if OutByte(longer, |bs|) && b.c != NEWLINE {
      assert LineChars(longer) == LineChars(bs) + [b.c];
      if !Fills(longer, |bs|) {
        assert (LineChars(bs) + [b.c])[n - n % MAXCHAR..] == LineChars(bs)[n - n % MAXCHAR..] + [b.c];
      }
    }
  }

  /** The flags and the buffer are what the input says. */
  lemma {:induction false} ContextFromInput(bs: seq<Byte>)
    ensures var s := Run(START, bs).0;
            && (s.jnlEntry <==> Opened(bs)) && (s.errTagged <==> ErrBegun(bs)) && (s.crNeeded <==> NewlineOwed(bs))
            && s.pending == Unwritten(bs) && (s.outTagged <==> Unwritten(bs) != "")
  {
    EntryIsOpened(bs);
    RunKeepsCtx(START, bs);
    if bs != [] {
      var n := |bs| - 1;
      var p, b := bs[..n], bs[n];
      assert bs == p + [b];
      ContextFromInput(p);
      ErrBegunSnoc(p, b);
      NewlineOwedSnoc(p, b);
      UnwrittenSnoc(p, b);
      PrefixFacts(p, b);
      RunSnoc(START, p, b);
      hide Run, Opened, ErrBegun, NewlineOwed, Unwritten, LineChars, Fills, Lines;
      FlagsStep(Run(START, p).0, b);
    }
  }

  /** What one byte does to the flags that mark additions. */
  lemma FlagsStep(s: Ctx, b: Byte)
    ensures var s', filled := Step(s, b).0, b.pipe == Out && b.c != NUL && b.c != NEWLINE && !s.jnlEntry && |s.pending| + 1 >= MAXCHAR;
            && (s'.errTagged <==> if b.pipe == Err && b.c != NUL && !s.jnlEntry then b.c != NEWLINE else s.errTagged)
            && (s'.crNeeded <==>
                  || b == Byte(Err, NUL) || (b.pipe == Err && b.c != NEWLINE && !s.jnlEntry)
                  || (b != Byte(Out, NUL) && b.c != NEWLINE && !filled && s.crNeeded))
            && s'.pending == (if b.pipe != Out || b.c == NUL || s.jnlEntry then s.pending
                              else if b.c == NEWLINE || filled then "" else s.pending + [b.c])
  {
    hide Lines;
  }

  /** What each byte puts out, by the input alone.  Standard error: its tag exactly before
      the first byte of a line.  Opening an entry: a newline exactly when one is owed.
      Standard output: nothing until a newline or a full piece, then the tag, all unwritten
      characters, and the newline or the warning.  In an entry: the byte itself. */
  lemma EachByte(bs: seq<Byte>, b: Byte)
    ensures var kind := if b == Byte(Err, NUL) then Direct else if Opened(bs) then Entry else if b.pipe == Err then Direct else Line;
            var here, out := Input(b.pipe, kind, b.c), Step(Run(START, bs).0, b).1;
            && Run(START, bs + [b]).1 == Run(START, bs).1 + out
            && (b == Byte(Out, NUL) ==> out == if NewlineOwed(bs) then [Added("\n")] else [])
            && (b == Byte(Err, NUL) ==> out == [here])
            && (b.c != NUL && Opened(bs) ==> out == [here])
            && (b.c != NUL && !Opened(bs) && b.pipe == Err ==>
                  out == (if ErrBegun(bs) then [] else [Added("stderr| ")]) + [here])
            && (b.c == NEWLINE && !Opened(bs) && b.pipe == Out ==>
                  out == [Added("stdout| ")] + Lines(Unwritten(bs)) + [here])
            && (b.c != NUL && b.c != NEWLINE && !Opened(bs) && b.pipe == Out ==>
                  out == if |Unwritten(bs)| + 1 == 8192
                         then [Added("stdout| ")] + Lines(Unwritten(bs) + [b.c]) + [Added("\nstderr| : Warning: buffer overflow, lines limited to 8192 bytes\n")]
                         else [])
  {
    ContextFromInput(bs);
    UnwrittenSnoc(bs, b);
    RunConcat(START, bs, [b]);
    OneByteRun(Run(START, bs).0, b);
    hide Run, Opened, ErrBegun, NewlineOwed, Unwritten, Lines;
  }

  lemma OneByteRun(s: Ctx, b: Byte)
    ensures Run(s, [b]) == Step(s, b)
  {
    assert [b][1..] == [];
    assert Run(Step(s, b).0, []) == (Step(s, b).0, []);
    assert Step(s, b).1 + [] == Step(s, b).1;
    hide Step;
  }

  /** The final flush: an owed newline, and the unwritten characters with their tag and a
      newline of their own. */
  lemma FlushFromInput(bs: seq<Byte>)
    ensures Final(Run(START, bs).0) ==
            (if NewlineOwed(bs) then [Added("\n")] else [])
            + (if Unwritten(bs) == "" then [] else [Added("stdout| ")] + Lines(Unwritten(bs)) + [Added("\n")])
  {
    ContextFromInput(bs);
    hide Run, NewlineOwed, Unwritten;
    var s := Run(START, bs).0;
    var cr: seq<Token> := if s.crNeeded then [Added("\n")] else [];
    assert cr + [] == cr;
    Concat3(cr, [Added(STDOUT_TAG)] + Lines(s.pending), [Added("\n")]);
    Concat3(cr, [Added(STDOUT_TAG)], Lines(s.pending));
  }

  // ---------- The program's state ----------

  class JournalContext {
    const outbuf: array<char>
    var pOut: nat                // p_out, as an offset into outbuf
    var outcount: nat
    var crNeeded: bool
    var jnlEntry: bool
    var outTagged: bool
    var errTagged: bool
    var written: string          // everything written to the journal

    /** The buffer holds the tag and `outcount` bytes, or nothing, and always fits. */
    ghost predicate Valid()
      reads this, outbuf
    {
      && outbuf.Length == MAXCHAR + 12
      && outcount <= MAXCHAR - 1
      && (outTagged <==> outcount > 0)
      && pOut == (if outTagged then |STDOUT_TAG| + outcount else 0)
      && (outTagged ==> outbuf[..|STDOUT_TAG|] == STDOUT_TAG && outbuf[pOut] == NUL)
      && CtxOk(Now())
    }

    ghost function Pending(): string
      requires outTagged ==> |STDOUT_TAG| <= pOut <= outbuf.Length
      reads this, outbuf
    {
      if outTagged then outbuf[|STDOUT_TAG|..pOut] else ""
    }

    ghost function Now(): Ctx
      requires outTagged ==> |STDOUT_TAG| <= pOut <= outbuf.Length
      reads this, outbuf
    {
      Ctx(crNeeded, jnlEntry, outTagged, errTagged, Pending())
    }

    constructor ()
      ensures Valid() && Now() == START && written == "" && fresh(outbuf)
    {
      outbuf := new char[MAXCHAR + 12];
      pOut, outcount := 0, 0;
      crNeeded, jnlEntry, outTagged, errTagged := false, false, false, false;
      written := "";
    }

    /** `p_out += snprintf(p_out, room, ...)`: the text and a NUL fit in the room left. */
    method Print(text: string)
      requires pOut + |text| < outbuf.Length
      modifies this`pOut, outbuf
      ensures pOut == old(pOut) + |text|
      ensures outbuf[..pOut] == old(outbuf[..pOut]) + text && outbuf[pOut] == NUL
    {
      var i := 0;
      while i < |text|
        invariant 0 <= i <= |text| && pOut == old(pOut)
        invariant outbuf[..pOut] == old(outbuf[..pOut])
        invariant outbuf[pOut..pOut + i] == text[..i]
      {
        outbuf[pOut + i] := text[i];
        i := i + 1;
      }
      outbuf[pOut + |text|] := NUL;
      pOut := pOut + |text|;
    }

    /** `write(fd, &outbuf, strlen(outbuf))`. */
    method WriteBuffer()
      requires pOut < outbuf.Length && outbuf[pOut] == NUL && NUL !in outbuf[..pOut]
      modifies this`written
      ensures written == old(written) + outbuf[..pOut]
    {
      assert forall i :: 0 <= i < pOut ==> outbuf[i] == outbuf[..pOut][i];
      var n := 0;
      while outbuf[n] != NUL
        invariant 0 <= n <= pOut
        decreases pOut - n
      {
        n := n + 1;
      }
      assert n == pOut;
      written := written + outbuf[..n];
    }

    /** Tag the line if this is its first byte, and append the byte. */
    method Append(c: char)
      requires Valid()
      modifies this`pOut, this`outTagged, outbuf
      ensures outTagged && pOut == |STDOUT_TAG| + |old(Pending())| + 1 < outbuf.Length
      ensures outbuf[..pOut] == STDOUT_TAG + (old(Pending()) + [c]) && outbuf[pOut] == NUL
    {
      ghost var line := Pending();
      if !outTagged {
        Print(STDOUT_TAG);
        outTagged := true;
      }
      assert outbuf[..pOut] == STDOUT_TAG + line;
      Print([c]);
      Concat3(STDOUT_TAG, line, [c]);
    }

    /** A line that fills the buffer is written out with a warning. */
    method Overflow(ghost line: string)
      requires |STDOUT_TAG| <= pOut < outbuf.Length == MAXCHAR + 12 && outbuf[pOut] == NUL
      requires outbuf[..pOut] == STDOUT_TAG + line && NUL !in line
      modifies this`written, this`pOut, this`outTagged, this`outcount, this`crNeeded
      ensures pOut == 0 && !outTagged && outcount == 0 && !crNeeded
      ensures written == old(written) + (STDOUT_TAG + line + OVERFLOW_WARNING)
    {
      WriteBuffer();
      written := written + OVERFLOW_WARNING;
      Concat3(old(written), STDOUT_TAG + line, OVERFLOW_WARNING);
      pOut, outTagged, outcount, crNeeded := 0, false, 0, false;
    }

    /** The buffered stdout branch for a byte that does not end the line. */
    method Buffer(c: char)
      requires Valid() && c != NUL && c != NEWLINE && !jnlEntry
      modifies this, outbuf
      ensures Valid()
      ensures Now() == Step(old(Now()), Byte(Out, c)).0
      ensures written == old(written) + Render(Step(old(Now()), Byte(Out, c)).1)
    {
      BufferedStep(Now(), c);
      hide Render, Step, Lines;
      ghost var line := Pending() + [c];
      Append(c);
      outcount := outcount + 1;
      if outcount > MAXCHAR - 1 {
        Overflow(line);
      } else {
        assert outbuf[|STDOUT_TAG|..pOut] == line;
        assert outbuf[..|STDOUT_TAG|] == STDOUT_TAG;
      }
    }

    /** The end of a buffered line. */
    method EndLine()
      requires Valid() && !jnlEntry
      modifies this, outbuf
      ensures Valid()
      ensures Now() == Step(old(Now()), Byte(Out, NEWLINE)).0
      ensures written == old(written) + Render(Step(old(Now()), Byte(Out, NEWLINE)).1)
    {
      ghost var line := Pending();
      RenderFlush(line, Input(Out, Line, NEWLINE));
      hide Render, Lines;
      crNeeded := false;
      Append(NEWLINE);
      Concat3(STDOUT_TAG, line, [NEWLINE]);
      WriteBuffer();
      pOut, outcount, outTagged := 0, 0, false;
    }

    /** One round of the loop of `write_pipe`. */
    method PutByte(pipe: Pipe, c: char)
      requires Valid()
      modifies this, outbuf
      ensures Valid()
      ensures Now() == Step(old(Now()), Byte(pipe, c)).0
      ensures written == old(written) + Render(Step(old(Now()), Byte(pipe, c)).1)
    {
      RenderSmall(STDERR_TAG, Input(pipe, KindOf(Now(), Byte(pipe, c)), c));
      if c == NUL {
        if pipe == Out {
          jnlEntry := true;
          if crNeeded {
            written := written + "\n";
            crNeeded := false;
          }
        } else {
          written := written + [c];
          crNeeded := true;
        }
      } else if c == NEWLINE {
        if jnlEntry {
          crNeeded := false;
          written := written + [c];
          jnlEntry := false;
        } else if pipe == Err {
          crNeeded := false;
          if !errTagged {
            written := written + STDERR_TAG;
            errTagged := true;
          }
          written := written + [c];
          errTagged := false;
        } else {
          EndLine();
        }
      } else if jnlEntry {
        written := written + [c];
      } else if pipe == Err {
        if !errTagged {
          written := written + STDERR_TAG;
          errTagged := true;
        }
        written := written + [c];
        crNeeded := true;
      } else {
        Buffer(c);
      }
    }

    /** `write_pipe`. */
    method WritePipe(pipe: Pipe, buf: string)
      requires Valid()
      modifies this, outbuf
      ensures Valid()
      ensures Now() == Run(old(Now()), OfChunk(pipe, buf)).0
      ensures written == old(written) + Render(Run(old(Now()), OfChunk(pipe, buf)).1)
    {
      hide Step, Run, Render, CtxOk;
      ghost var s := Now();
      var i := 0;
      RunNothing(s);
      assert OfChunk(pipe, buf[..0]) == [];
      while i < |buf|
        invariant 0 <= i <= |buf|
        invariant Valid()
        invariant Now() == Run(s, OfChunk(pipe, buf[..i])).0
        invariant written == old(written) + Render(Run(s, OfChunk(pipe, buf[..i])).1)
      {
        RunSnoc(s, OfChunk(pipe, buf[..i]), Byte(pipe, buf[i]));
        assert OfChunk(pipe, buf[..i + 1]) == OfChunk(pipe, buf[..i]) + [Byte(pipe, buf[i])];
        PutByte(pipe, buf[i]);
        i := i + 1;
      }
      assert buf[..i] == buf;
    }

    /** The flush at the end of `main`. */
    method FinalFlush()
      requires Valid()
      modifies this
      ensures written == old(written) + Render(Final(old(Now())))
      ensures !crNeeded
    {
      RenderFinal(Now());
      hide Render, Final, CtxOk;
      if pOut != 0 {
        FlushRest();
      }
      if crNeeded {
        written := written + "\n";
        crNeeded := false;
      }
    }

    /** The part of a line that never saw its end. */
    method FlushRest()
      requires Valid() && outTagged
      modifies this`written, this`crNeeded
      ensures written == old(written) + ((if old(crNeeded) then "\n" else "") + (STDOUT_TAG + Pending()) + "\n")
      ensures !crNeeded
    {
      ghost var before, line := written, outbuf[..pOut];
      assert line == STDOUT_TAG + Pending();
      assert NUL !in line;
      hide CtxOk;
      ghost var cr := if crNeeded then "\n" else "";
      if crNeeded {
        written := written + "\n";
      }
      assert written == before + cr;
      WriteBuffer();
      assert written == before + cr + line;
      written := written + "\n";
      assert written == before + (cr + line + "\n");
      crNeeded := false;
    }
  }

  lemma RenderFlush(cs: string, last: Token)
    ensures Render([Added(STDOUT_TAG)] + Lines(cs) + [last]) == STDOUT_TAG + cs + TextOf(last)
  {
    RenderConcat([Added(STDOUT_TAG)] + Lines(cs), [last]);
    RenderConcat([Added(STDOUT_TAG)], Lines(cs));
    RenderLines(cs);
    RenderOne(Added(STDOUT_TAG));
    RenderOne(last);
  }

  lemma BufferedStep(s: Ctx, c: char)
    requires c != NUL && c != NEWLINE && !s.jnlEntry
    ensures var line, (t, out) := s.pending + [c], Step(s, Byte(Out, c));
            if |line| > MAXCHAR - 1
            then t == Ctx(false, false, false, s.errTagged, "") && Render(out) == STDOUT_TAG + line + OVERFLOW_WARNING
            else t == s.(outTagged := true, pending := line) && Render(out) == ""
  {
    RenderFlush(s.pending + [c], Added(OVERFLOW_WARNING));
    assert Render([]) == "";
  }

  lemma RenderOne(t: Token)
    ensures Render([t]) == TextOf(t)
  {
    assert [t][1..] == [];
    assert Render([]) == "";
  }

  lemma RenderSmall(tag: string, t: Token)
    ensures Render([]) == ""
    ensures Render([Added("\n")]) == "\n"
    ensures Render([t]) == TextOf(t)
    ensures Render([] + [t]) == TextOf(t)
    ensures Render([Added(tag)] + [t]) == tag + TextOf(t)
  {
    RenderOne(t);
    RenderOne(Added("\n"));
    RenderOne(Added(tag));
    RenderConcat([], [t]);
    RenderConcat([Added(tag)], [t]);
  }

  lemma RunSnoc(s: Ctx, bs: seq<Byte>, b: Byte)
    ensures Run(s, bs + [b]).0 == Step(Run(s, bs).0, b).0
    ensures Render(Run(s, bs + [b]).1) == Render(Run(s, bs).1) + Render(Step(Run(s, bs).0, b).1)
  {
    RunConcat(s, bs, [b]);
    var mid := Run(s, bs).0;
    assert [b][1..] == [];
    assert Run(mid, [b]) == (Step(mid, b).0, Step(mid, b).1 + []);
    RenderConcat(Run(s, bs).1, Run(mid, [b]).1);
    assert Step(mid, b).1 + [] == Step(mid, b).1;
  }

  lemma RunNothing(s: Ctx)
    ensures Run(s, []) == (s, []) && Render([]) == ""
  {
  }

  lemma RenderFinal(s: Ctx)
    ensures Render(Final(s)) ==
            if s.outTagged then (if s.crNeeded then "\n" else "") + (STDOUT_TAG + s.pending) + "\n"
            else if s.crNeeded then "\n" else ""
  {
    var cr := if s.crNeeded then [Added("\n")] else [];
    RenderOne(Added("\n"));
    if s.outTagged {
      RenderFlush(s.pending, Added("\n"));
      RenderConcat(cr, [Added(STDOUT_TAG)] + Lines(s.pending) + [Added("\n")]);
      assert Final(s) == cr + ([Added(STDOUT_TAG)] + Lines(s.pending) + [Added("\n")]);
    }
  }
}
