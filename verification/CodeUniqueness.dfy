/**
 The debounced uniqueness check of lib/use-code-uniqueness.ts as a protocol between a form
 field and a server: renders, effects, timers and replies happen in any order, and a
 sequence number decides which reply may be stored.
 */
module CodeUniqueness {
  import opened Wrappers

  datatype Verdict = Available | Taken | Error
  datatype ServerResult = ServerResult(code: string, verdict: Verdict)

  /** Where a request is: its timer runs, its fetch is under way, or its body is being read. */
  datatype Phase = Waiting | Sent | Reading
  datatype Flight = Flight(code: string, phase: Phase)

  /** The dependencies an effect ran with. */
  datatype Deps = Deps(code: string, debounce: nat)

  datatype Hook = Hook(
    shown: Deps,
    effect: Option<Deps>,
    current: Option<nat>,
    seqNo: nat,
    flights: map<nat, Flight>,
    result: Option<ServerResult>)

  const START: Hook := Hook(Deps("", 400), None, None, 0, map[], None)

  datatype Event =
    | Render(deps: Deps)
    | RunEffect
    | TimerFires(request: nat)
    | Responds(request: nat, ok: bool)
    | BodyRead(request: nat, taken: bool)
    | Fails(request: nat)

  datatype Status = Idle | Checking | Settled(verdict: Verdict)

  /** What the hook returns for the value it was last rendered with. */
  function Displayed(valid: string -> bool, h: Hook): Status {
    if !valid(h.shown.code) then Idle
    else if h.result.Some? && h.result.value.code == h.shown.code then Settled(h.result.value.verdict)
    else Checking
  }

  function Without(flights: map<nat, Flight>, request: nat): map<nat, Flight> {
    flights - {request}
  }

  /** The previous effect's cleanup: clear its timer and invalidate whatever it sent. */
  function CleanedUp(h: Hook): Hook {
    match h.current
    case None => h
    case Some(q) =>
      h.(current := None, seqNo := h.seqNo + 1,
         flights := if q in h.flights && h.flights[q].phase == Waiting then Without(h.flights, q) else h.flights)
  }

  /** The effect body: an invalid value only invalidates; a valid one takes the next number and starts a timer. */
  function Armed(valid: string -> bool, h: Hook): Hook {
    var next := h.seqNo + 1;
    if valid(h.shown.code) then
      h.(effect := Some(h.shown), current := Some(next), seqNo := next,
         flights := h.flights[next := Flight(h.shown.code, Waiting)])
    else h.(effect := Some(h.shown), current := None, seqNo := next)
  }

  predicate InPhase(h: Hook, request: nat, phase: Phase) {
    request in h.flights && h.flights[request].phase == phase
  }

  /** The reply is finished with; its verdict is stored only if no newer request or edit took a number. */
  function Delivered(h: Hook, request: nat, verdict: Verdict): Hook
    requires request in h.flights
  {
    h.(flights := Without(h.flights, request),
       result := if request == h.seqNo then Some(ServerResult(h.flights[request].code, verdict)) else h.result)
  }

  /** One event; an event that cannot happen now changes nothing. */
  function Step(valid: string -> bool, h: Hook, e: Event): Hook {
    match e
    case Render(deps) => h.(shown := deps)
    case RunEffect => if h.effect == Some(h.shown) then h else Armed(valid, CleanedUp(h))
    case TimerFires(q) =>
      if InPhase(h, q, Waiting) then h.(flights := h.flights[q := h.flights[q].(phase := Sent)]) else h
    case Responds(q, ok) =>
      if !InPhase(h, q, Sent) then h
      else if q != h.seqNo then h.(flights := Without(h.flights, q))
      else if ok then h.(flights := h.flights[q := h.flights[q].(phase := Reading)])
      else Delivered(h, q, Error)
    case BodyRead(q, taken) =>
      if InPhase(h, q, Reading) then Delivered(h, q, if taken then Taken else Available) else h
    case Fails(q) =>
      if InPhase(h, q, Sent) || InPhase(h, q, Reading) then Delivered(h, q, Error) else h
  }

  function Run(valid: string -> bool, h: Hook, es: seq<Event>): Hook {
    if es == [] then h else Step(valid, Run(valid, h, es[..|es| - 1]), es[|es| - 1])
  }

  /** The hook just before the k-th event. */
  function Before(valid: string -> bool, es: seq<Event>, k: nat): Hook
    requires k <= |es|
  {
    Run(valid, START, es[..k])
  }

  // ---- The hook's own state ----

  class UniquenessHook {
    var shown: Deps
    var effect: Option<Deps>
    var current: Option<nat>
    var requestSeq: nat
    var flights: map<nat, Flight>
    var serverResult: Option<ServerResult>
    const valid: string -> bool

    function State(): Hook
      reads this
    {
      Hook(shown, effect, current, requestSeq, flights, serverResult)
    }

    constructor (valid: string -> bool)
      ensures State() == START && this.valid == valid
    {
      this.valid := valid;
      shown, effect, current, requestSeq := Deps("", 400), None, None, 0;
      flights, serverResult := map[], None;
    }

    method Rerender(deps: Deps) returns (status: Status)
      modifies this
      ensures State() == Step(valid, old(State()), Render(deps)) && status == Displayed(valid, State())
      ensures status.Idle? <==> !valid(deps.code)
      ensures status.Checking? <==> valid(deps.code) && (serverResult.None? || serverResult.value.code != deps.code)
      ensures forall v :: status == Settled(v) <==> valid(deps.code) && serverResult == Some(ServerResult(deps.code, v))
    {
      shown := deps;
      if !valid(shown.code) { return Idle; }
      if serverResult.Some? && serverResult.value.code == shown.code { return Settled(serverResult.value.verdict); }
      status := Checking;
    }

    /** React runs the cleanup of the last effect and then the new one, when the dependencies changed. */
    method FlushEffect()
      modifies this
      ensures State() == Step(valid, old(State()), RunEffect)
      ensures effect == Some(shown)
      ensures old(effect) != Some(shown) ==> requestSeq > old(requestSeq)
      ensures old(effect) != Some(shown) && valid(shown.code) ==>
                current == Some(requestSeq) && requestSeq in flights && flights[requestSeq] == Flight(shown.code, Waiting)
    {
      if effect == Some(shown) { return; }
      if current.Some? {
        if current.value in flights && flights[current.value].phase == Waiting { flights := flights - {current.value}; }
        requestSeq, current := requestSeq + 1, None;
      }
      effect := Some(shown);
      requestSeq := requestSeq + 1;
      if valid(shown.code) {
        current := Some(requestSeq);
        flights := flights[requestSeq := Flight(shown.code, Waiting)];
      }
    }

    method OnTimer(q: nat)
      modifies this
      ensures State() == Step(valid, old(State()), TimerFires(q))
    {
      if q in flights && flights[q].phase == Waiting { flights := flights[q := flights[q].(phase := Sent)]; }
    }

    method OnResponse(q: nat, ok: bool)
      modifies this
      ensures State() == Step(valid, old(State()), Responds(q, ok))
    {
      if !(q in flights && flights[q].phase == Sent) { return; }
      if q != requestSeq {
        flights := flights - {q};
        return;
      }
      if !ok {
        serverResult := Some(ServerResult(flights[q].code, Error));
        flights := flights - {q};
        return;
      }
      flights := flights[q := flights[q].(phase := Reading)];
    }

    method OnBody(q: nat, taken: bool)
      modifies this
      ensures State() == Step(valid, old(State()), BodyRead(q, taken))
    {
      if !(q in flights && flights[q].phase == Reading) { return; }
      var code := flights[q].code;
      flights := flights - {q};
      if q != requestSeq { return; }
      serverResult := Some(ServerResult(code, if taken then Taken else Available));
    }

    method OnFailure(q: nat)
      modifies this
      ensures State() == Step(valid, old(State()), Fails(q))
    {
      if !(q in flights && (flights[q].phase == Sent || flights[q].phase == Reading)) { return; }
      var code := flights[q].code;
      flights := flights - {q};
      if q == requestSeq { serverResult := Some(ServerResult(code, Error)); }
    }
  }

  // ---- Every interleaving ----

  /** The event stores the answer to request q: q is the newest, and its reply has got that far. */
  ghost predicate Answers(h: Hook, e: Event, q: nat) {
    && q == h.seqNo
    && match e
       case Responds(r, ok) => r == q && !ok && InPhase(h, q, Sent)
       case BodyRead(r, _) => r == q && InPhase(h, q, Reading)
       case Fails(r) => r == q && (InPhase(h, q, Sent) || InPhase(h, q, Reading))
       case _ => false
  }

  ghost predicate StoresAnswerTo(valid: string -> bool, es: seq<Event>, k: nat, q: nat)
    requires k < |es|
  {
    Answers(Before(valid, es, k), es[k], q)
  }

  /** The event stores this verdict: it is the answer to the newest request, sent for this code. */
  ghost predicate Accepts(valid: string -> bool, h: Hook, e: Event, r: ServerResult) {
    && Answers(h, e, h.seqNo) && h.flights[h.seqNo].code == r.code && Step(valid, h, e).result == Some(r)
    && match r.verdict
       case Available => e == BodyRead(h.seqNo, false)
       case Taken => e == BodyRead(h.seqNo, true)
       case Error => e == Fails(h.seqNo) || e == Responds(h.seqNo, false)
  }

  ghost predicate Accepted(valid: string -> bool, es: seq<Event>, k: nat, r: ServerResult)
    requires k < |es|
  {
    Accepts(valid, Before(valid, es, k), es[k], r)
  }

  lemma BeforePrefix(valid: string -> bool, es: seq<Event>, n: nat, k: nat)
    requires k <= n <= |es|
    ensures Before(valid, es[..n], k) == Before(valid, es, k)
  {
    assert es[..n][..k] == es[..k];
  }

  lemma StepStoresOnlyAccepted(valid: string -> bool, h: Hook, e: Event)
    ensures var next := Step(valid, h, e);
            next.result == h.result || (next.result.Some? && Accepts(valid, h, e, next.result.value))
  {
  }

  /** Event k stored what is stored now, and nothing else has been stored since. */
  ghost predicate StoredAt(valid: string -> bool, es: seq<Event>, k: nat, r: ServerResult)
    requires k < |es|
  {
    Accepted(valid, es, k, r) && forall j | k < j <= |es| :: Before(valid, es, j).result == Some(r)
  }

  /** Whatever is stored was accepted at some point, and nothing else has been stored since. */
  lemma {:induction false} StoredWasAccepted(valid: string -> bool, es: seq<Event>)
    requires Run(valid, START, es).result.Some?
    ensures exists k | 0 <= k < |es| :: StoredAt(valid, es, k, Run(valid, START, es).result.value)
    decreases |es|
  {
    if es != [] {
      var n := |es| - 1;
      var r := Run(valid, START, es).result;
      StepStoresOnlyAccepted(valid, Before(valid, es, n), es[n]);
      assert es[..|es|] == es;
      hide Accepts, Step;
      if Accepted(valid, es, n, r.value) {
        assert StoredAt(valid, es, n, r.value);
      } else {
        StoredWasAccepted(valid, es[..n]);
        var k :| 0 <= k < n && StoredAt(valid, es[..n], k, r.value);
        StoredAtExtends(valid, es, k, r.value);
      }
    }
  }

  lemma StoredAtExtends(valid: string -> bool, es: seq<Event>, k: nat, r: ServerResult)
    requires k < |es| - 1 && StoredAt(valid, es[..|es| - 1], k, r) && Run(valid, START, es).result == Some(r)
    ensures StoredAt(valid, es, k, r)
  {
    var n := |es| - 1;
    hide Run, Step;
    BeforePrefix(valid, es, n, k);
    forall j | k < j <= |es| ensures Before(valid, es, j).result == Some(r) {
      if j <= n { BeforePrefix(valid, es, n, j); } else { assert es[..j] == es; }
    }
  }

  /**
   A verdict on screen is the server's answer for exactly the code on screen: the request
   was sent for that code and was the newest one when its answer came in.
   */
  lemma DisplayedVerdictIsForShownCode(valid: string -> bool, es: seq<Event>, verdict: Verdict)
    requires Displayed(valid, Run(valid, START, es)) == Settled(verdict)
    ensures exists k | 0 <= k < |es| :: StoredAt(valid, es, k, ServerResult(Run(valid, START, es).shown.code, verdict))
    ensures valid(Run(valid, START, es).shown.code)
  {
    StoredWasAccepted(valid, es);
  }

  /** No request in flight is newer than the counter, and none but the current one still waits for its timer. */
  ghost predicate Inv(valid: string -> bool, h: Hook) {
    && (forall q <- h.flights :: q <= h.seqNo && valid(h.flights[q].code))
    && (h.current.Some? ==> h.current.value == h.seqNo)
    && (forall q <- h.flights | h.flights[q].phase == Waiting :: h.current == Some(q))
    && (h.effect.None? ==> h.seqNo == 0 && h.flights == map[])
  }

  lemma StepKeepsInv(valid: string -> bool, h: Hook, e: Event)
    requires Inv(valid, h)
    ensures Inv(valid, Step(valid, h, e)) && Step(valid, h, e).seqNo >= h.seqNo
  {
  }

  lemma {:induction false} RunKeepsInv(valid: string -> bool, es: seq<Event>, n: nat)
    requires n <= |es|
    ensures Inv(valid, Run(valid, START, es)) && Before(valid, es, n).seqNo <= Run(valid, START, es).seqNo
    decreases |es|
  {
    if n == |es| { assert es[..n] == es; }
    if es != [] {
      var m := |es| - 1;
      RunKeepsInv(valid, es[..m], if n < m then n else m);
      StepKeepsInv(valid, Before(valid, es, m), es[m]);
      if n < |es| { BeforePrefix(valid, es, m, n); }
    }
  }

  /** A delivered request leaves the flights for good: its number never comes back. */
  lemma {:induction false} GoneForGood(valid: string -> bool, es: seq<Event>, k: nat, n: nat, q: nat)
    requires k <= n <= |es| && q !in Before(valid, es, k).flights && q <= Before(valid, es, k).seqNo
    ensures q !in Before(valid, es, n).flights
    decreases n
  {
    if k < n {
      GoneForGood(valid, es, k, n - 1, q);
      RunKeepsInv(valid, es[..n - 1], k);
      BeforePrefix(valid, es, n - 1, k);
      assert es[..n][..n - 1] == es[..n - 1];
      assert Before(valid, es, n) == Step(valid, Before(valid, es, n - 1), es[n - 1]);
    }
  }

  /** The stored result changes only by an answer to the newest request: a superseded reply never touches it. */
  lemma OnlyTheNewestIsStored(valid: string -> bool, es: seq<Event>, k: nat)
    requires k < |es|
    ensures Before(valid, es, k + 1).result == Before(valid, es, k).result
            || StoresAnswerTo(valid, es, k, Before(valid, es, k).seqNo)
  {
    assert es[..k + 1][..k] == es[..k];
  }

  /** Answers are stored in the order in which their requests were made, each at most once. */
  lemma AnswersAreStoredInOrder(valid: string -> bool, es: seq<Event>, j: nat, k: nat, q: nat, r: nat)
    requires j < k < |es| && StoresAnswerTo(valid, es, j, q) && StoresAnswerTo(valid, es, k, r)
    ensures q < r
  {
    assert es[..j + 1][..j] == es[..j];
    var after := Before(valid, es, j + 1);
    assert after == Step(valid, Before(valid, es, j), es[j]);
    assert q !in after.flights && after.seqNo == q;
    RunKeepsInv(valid, es[..k], j + 1);
    BeforePrefix(valid, es, k, j + 1);
    if q == r {
      GoneForGood(valid, es, j + 1, k, q);
    }
  }

  /** Once its answer is stored and nothing is edited, the field shows the answer and not `checking`. */
  lemma AnswerShowsUntilEdited(valid: string -> bool, es: seq<Event>, k: nat)
    requires k < |es| && StoresAnswerTo(valid, es, k, Before(valid, es, k).seqNo)
    requires var h := Before(valid, es, k);
             h.seqNo in h.flights && h.flights[h.seqNo].code == h.shown.code
    ensures Displayed(valid, Before(valid, es, k + 1)).Settled?
  {
    RunKeepsInv(valid, es[..k], k);
    assert es[..k][..k] == es[..k];
    assert es[..k + 1][..k] == es[..k];
  }

  // ---- Every valid edit is asked about and answered ----

  /** Once the dependencies have changed, the effect leaves exactly one waiting request: the newest, for the code on screen. */
  lemma EditStartsOneRequest(valid: string -> bool, es: seq<Event>)
    requires Run(valid, START, es).effect != Some(Run(valid, START, es).shown)
    ensures var h, next := Run(valid, START, es), Run(valid, START, es + [RunEffect]);
            && next.shown == h.shown && next.effect == Some(h.shown) && next.result == h.result
            && next.seqNo == h.seqNo + (if h.current.Some? then 2 else 1) && next.seqNo !in h.flights
            && if valid(h.shown.code) then
                 && next.seqNo in next.flights && next.flights[next.seqNo] == Flight(h.shown.code, Waiting)
                 && forall q <- next.flights | next.flights[q].phase == Waiting :: q == next.seqNo
               else forall q <- next.flights :: next.flights[q].phase != Waiting
  {
    assert (es + [RunEffect])[..|es|] == es;
    RunKeepsInv(valid, es, 0);
  }

  lemma {:induction false} RunConcat(valid: string -> bool, h: Hook, xs: seq<Event>, ys: seq<Event>)
    ensures Run(valid, h, xs + ys) == Run(valid, Run(valid, h, xs), ys)
    decreases |ys|
  {
    hide Step;
    if ys == [] {
      assert xs + ys == xs;
    } else {
      var n := |ys| - 1;
      assert (xs + ys)[..|xs + ys| - 1] == xs + ys[..n];
      RunConcat(valid, h, xs, ys[..n]);
    }
  }

  /** Nothing is edited, and nothing happens to request q. */
  predicate Quiet(shown: Deps, q: nat, e: Event) {
    match e
    case Render(deps) => deps == shown
    case RunEffect => true
    case TimerFires(r) => r != q
    case Responds(r, _) => r != q
    case BodyRead(r, _) => r != q
    case Fails(r) => r != q
  }

  predicate AllQuiet(shown: Deps, q: nat, es: seq<Event>) {
    forall e <- es :: Quiet(shown, q, e)
  }

  /** Request q, the newest, asks about the code on screen and has got this far. */
  predicate Asked(h: Hook, shown: Deps, q: nat, phase: Phase) {
    && h.shown == shown && h.effect == Some(shown) && h.seqNo == q
    && q in h.flights && h.flights[q] == Flight(shown.code, phase)
  }

  /** Request q, the newest, has been answered for the code on screen. */
  predicate Answered(h: Hook, shown: Deps, q: nat, verdict: Verdict) {
    && h.shown == shown && h.effect == Some(shown) && h.seqNo == q
    && q !in h.flights && h.result == Some(ServerResult(shown.code, verdict))
  }

  lemma {:induction false} QuietRunKeeps(valid: string -> bool, h: Hook, es: seq<Event>, shown: Deps, q: nat)
    requires AllQuiet(shown, q, es)
    ensures forall phase | Asked(h, shown, q, phase) :: Asked(Run(valid, h, es), shown, q, phase)
    ensures forall verdict | Answered(h, shown, q, verdict) :: Answered(Run(valid, h, es), shown, q, verdict)
    decreases |es|
  {
    if es != [] {
      var n := |es| - 1;
      QuietRunKeeps(valid, h, es[..n], shown, q);
      assert Quiet(shown, q, es[n]);
      QuietStepKeeps(valid, Run(valid, h, es[..n]), es[n], shown, q);
      hide Step, Asked, Answered;
    }
  }

  lemma QuietStepKeeps(valid: string -> bool, h: Hook, e: Event, shown: Deps, q: nat)
    requires Quiet(shown, q, e)
    ensures forall phase | Asked(h, shown, q, phase) :: Asked(Step(valid, h, e), shown, q, phase)
    ensures forall verdict | Answered(h, shown, q, verdict) :: Answered(Step(valid, h, e), shown, q, verdict)
  {
  }

  /** The next thing that happens to request q, with quiet events before it. */
  lemma QuietThen(valid: string -> bool, h: Hook, es: seq<Event>, e: Event, shown: Deps, q: nat, phase: Phase)
    requires Asked(h, shown, q, phase) && AllQuiet(shown, q, es)
    ensures var next := Run(valid, h, es + [e]);
            match phase
            case Waiting => e == TimerFires(q) ==> Asked(next, shown, q, Sent)
            case Sent =>
              && (e == Responds(q, true) ==> Asked(next, shown, q, Reading))
              && (e == Responds(q, false) || e == Fails(q) ==> Answered(next, shown, q, Error))
            case Reading =>
              && (forall taken :: e == BodyRead(q, taken) ==> Answered(next, shown, q, if taken then Taken else Available))
              && (e == Fails(q) ==> Answered(next, shown, q, Error))
  {
    QuietRunKeeps(valid, h, es, shown, q);
    assert (es + [e])[..|es|] == es;
  }

  lemma AnswerStays(valid: string -> bool, h: Hook, es: seq<Event>, shown: Deps, q: nat, verdict: Verdict)
    requires Answered(h, shown, q, verdict) && AllQuiet(shown, q, es) && valid(shown.code)
    ensures Displayed(valid, Run(valid, h, es)) == Settled(verdict)
  {
    QuietRunKeeps(valid, h, es, shown, q);
  }

  /** After the edit's effect and the timer, the request for the code on screen is on its way. */
  lemma TimerSendsRequest(valid: string -> bool, es: seq<Event>, a: seq<Event>, shown: Deps, q: nat)
    requires Run(valid, START, es).effect != Some(shown) && Run(valid, START, es).shown == shown && valid(shown.code)
    requires q == Run(valid, START, es + [RunEffect]).seqNo && AllQuiet(shown, q, a)
    ensures Asked(Run(valid, START, es + [RunEffect] + (a + [TimerFires(q)])), shown, q, Sent)
  {
    hide Run;
    EditStartsOneRequest(valid, es);
    RunConcat(valid, START, es + [RunEffect], a + [TimerFires(q)]);
    QuietThen(valid, Run(valid, START, es + [RunEffect]), a, TimerFires(q), shown, q, Waiting);
  }

  /**
   After any run, a valid edit is asked about, and its answer is what the field ends up showing:
   taken or available as the body says, or an error if the reply is one or the request fails.
   Anything may happen to other requests before, between and after.
   */
  lemma EveryEditIsAnswered(valid: string -> bool, es: seq<Event>, a: seq<Event>, b: seq<Event>, c: seq<Event>, d: seq<Event>,
                            shown: Deps, q: nat, taken: bool)
    requires Run(valid, START, es).effect != Some(shown) && Run(valid, START, es).shown == shown && valid(shown.code)
    requires q == Run(valid, START, es + [RunEffect]).seqNo
    requires AllQuiet(shown, q, a) && AllQuiet(shown, q, b) && AllQuiet(shown, q, c) && AllQuiet(shown, q, d)
    ensures var sent := es + [RunEffect] + (a + [TimerFires(q)]);
            var reading := sent + (b + [Responds(q, true)]);
            && Displayed(valid, Run(valid, START, reading + (c + [BodyRead(q, taken)]) + d))
               == Settled(if taken then Taken else Available)
            && Displayed(valid, Run(valid, START, sent + (b + [Responds(q, false)]) + d)) == Settled(Error)
            && Displayed(valid, Run(valid, START, sent + (b + [Fails(q)]) + d)) == Settled(Error)
            && Displayed(valid, Run(valid, START, reading + (c + [Fails(q)]) + d)) == Settled(Error)
  {
    hide Run, Displayed, Asked, Answered, AllQuiet;
    TimerSendsRequest(valid, es, a, shown, q);
    var sent := es + [RunEffect] + (a + [TimerFires(q)]);
    var reading := sent + (b + [Responds(q, true)]);
    var h := Run(valid, START, sent);
    RunConcat(valid, START, sent, b + [Responds(q, true)]);
    QuietThen(valid, h, b, Responds(q, true), shown, q, Sent);
    EndsAnswered(valid, sent, b, Responds(q, false), d, shown, q, Sent, Error);
    EndsAnswered(valid, sent, b, Fails(q), d, shown, q, Sent, Error);
    EndsAnswered(valid, reading, c, BodyRead(q, taken), d, shown, q, Reading, if taken then Taken else Available);
    EndsAnswered(valid, reading, c, Fails(q), d, shown, q, Reading, Error);
  }

  lemma EndsAnswered(valid: string -> bool, es: seq<Event>, quiet: seq<Event>, e: Event, after: seq<Event>,
                     shown: Deps, q: nat, phase: Phase, verdict: Verdict)
    requires Asked(Run(valid, START, es), shown, q, phase) && valid(shown.code)
    requires AllQuiet(shown, q, quiet) && AllQuiet(shown, q, after)
    requires match phase
             case Waiting => false
             case Sent => (e == Responds(q, false) || e == Fails(q)) && verdict == Error
             case Reading =>
               || (e == Fails(q) && verdict == Error)
               || (e == BodyRead(q, verdict == Taken) && verdict != Error)
    ensures Displayed(valid, Run(valid, START, es + (quiet + [e]) + after)) == Settled(verdict)
  {
    hide Run, Displayed, Asked, Answered, AllQuiet;
    RunConcat(valid, START, es, quiet + [e]);
    RunConcat(valid, START, es + (quiet + [e]), after);
    QuietThen(valid, Run(valid, START, es), quiet, e, shown, q, phase);
    AnswerStays(valid, Run(valid, START, es + (quiet + [e])), after, shown, q, verdict);
  }
}
