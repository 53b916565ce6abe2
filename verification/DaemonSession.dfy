/**
 A daemon session: one loop over requests and file-system hints, which tells a subscriber once
 that something changed, and again only after the subscriber asked.
 */
module DaemonSession {
  import opened Prelude

  const MAX_SAFE_JSON_SEQUENCE := 9007199254740991
  const INPUT_QUEUE_CAPACITY := 8

  datatype Operation = Query | Explain | IndexStatus | Refresh | Subscribe | Unsubscribe | Shutdown

  datatype Status = Okay | Attention | Error

  /** A decoded request: whether the root was still current, and what the query adapter answered. */
  datatype Request = Request(operation: Operation, rootCurrent: bool, answer: Status)

  datatype Input =
    | Ask(request: Request)
    | Undecodable
    | Oversized
    | Eof
    | ReadError
    | Changed(privateIndexOnly: bool)
    | WatchError

  /** An input as it is received, and whether a hint found the queue full before that. */
  datatype Arrival = Arrival(input: Input, rescan: bool)

  datatype Reason = WorkspaceChanged | RescanRequired

  datatype Message = Event(sequence: nat, reason: Reason) | Response(operation: Option<Operation>, status: Status)

  datatype Exit = Continue | Success | OperationalError

  // ---------- what a transcript says ----------

  predicate Clears(m: Message) {
    m.Response? && m.status == Okay && m.operation.Some? && m.operation != Some(Shutdown)
  }

  /** The last of the answered subscription requests was to subscribe. */
  function SubscribedBy(t: seq<Message>): bool {
    if t == [] then false
    else if t[|t| - 1] == Response(Some(Subscribe), Okay) then true
    else if t[|t| - 1] == Response(Some(Unsubscribe), Okay) then false
    else SubscribedBy(t[..|t| - 1])
  }

  /** An event was sent since the last request that was answered with ok. */
  function Pending(t: seq<Message>): bool {
    t != [] && !Clears(t[|t| - 1]) && (t[|t| - 1].Event? || Pending(t[..|t| - 1]))
  }

  function EventCount(t: seq<Message>): nat {
    if t == [] then 0 else EventCount(t[..|t| - 1]) + if t[|t| - 1].Event? then 1 else 0
  }

  /** Each event carries the next number, goes to a subscriber, and repeats nothing still pending. */
  ghost predicate Proper(t: seq<Message>) {
    forall k :: 0 <= k < |t| && t[k].Event? ==>
      t[k].sequence == EventCount(t[..k]) + 1 <= MAX_SAFE_JSON_SEQUENCE && SubscribedBy(t[..k]) && !Pending(t[..k])
  }

  /** Whoever is told something is subscribed. */
  lemma {:induction false} PendingIsSubscribed(t: seq<Message>)
    requires Proper(t) && Pending(t)
    ensures SubscribedBy(t)
  {
    var init := t[..|t| - 1];
    assert forall k :: 0 <= k < |init| ==> init[..k] == t[..k];
    if !t[|t| - 1].Event? {
      PendingIsSubscribed(init);
    } else {
      assert t[..|t| - 1] == init && SubscribedBy(init);
    }
  }

  /** Between two events there is a request answered with ok. */
  lemma {:induction false} EventsAreSeparated(t: seq<Message>, i: nat, j: nat)
    requires Proper(t) && i < j < |t| && t[i].Event? && t[j].Event?
    ensures exists m :: i < m < j && Clears(t[m])
  {
    assert !Pending(t[..j]);
    ClearedSince(t, i, j);
  }

  lemma {:induction false} ClearedSince(t: seq<Message>, i: nat, j: nat)
    requires i < j <= |t| && t[i].Event? && !Pending(t[..j])
    ensures exists m :: i < m < j && Clears(t[m])
  {
    var last := t[..j][j - 1];
    assert last == t[j - 1] && t[..j][..j - 1] == t[..j - 1];
    if j - 1 > i && !Clears(last) {
      ClearedSince(t, i, j - 1);
    }
  }

  /** Events are numbered 1, 2, 3, and so on. */
  lemma {:induction false} EventsAreNumbered(t: seq<Message>, i: nat, j: nat)
    requires Proper(t) && i < j < |t| && t[i].Event? && t[j].Event?
    requires forall k :: i < k < j ==> !t[k].Event?
    ensures t[j].sequence == t[i].sequence + 1
  {
    CountStays(t, i + 1, j);
    assert t[..i + 1][..i] == t[..i];
  }

  lemma {:induction false} CountStays(t: seq<Message>, i: nat, j: nat)
    requires i <= j <= |t| && forall k :: i <= k < j ==> !t[k].Event?
    ensures EventCount(t[..j]) == EventCount(t[..i])
    decreases j - i
  {
    if i < j {
      CountStays(t, i, j - 1);
      assert t[..j][..j - 1] == t[..j - 1];
    }
  }

  lemma ProperExtends(t: seq<Message>, m: Message)
    requires Proper(t)
    requires m.Event? ==> m.sequence == EventCount(t) + 1 <= MAX_SAFE_JSON_SEQUENCE && SubscribedBy(t) && !Pending(t)
    ensures Proper(t + [m])
    ensures EventCount(t + [m]) == EventCount(t) + if m.Event? then 1 else 0
  {
    var longer := t + [m];
    assert longer[..|t|] == t;
    forall k | 0 <= k < |longer| && longer[k].Event?
      ensures longer[k].sequence == EventCount(longer[..k]) + 1 <= MAX_SAFE_JSON_SEQUENCE &&
        SubscribedBy(longer[..k]) && !Pending(longer[..k])
    {
      assert longer[..k] == t[..k];
    }
  }

  // ---------- what an arrival is owed ----------

  /** Something a subscriber wants to know of. */
  predicate Relevant(input: Input) {
    input.WatchError? || (input.Changed? && !input.privateIndexOnly)
  }

  /** The answer to an input: one for every request, whatever else is going on. */
  function AnswerTo(input: Input): seq<Message> {
    match input
    case Ask(Request(operation, rootCurrent, answer)) =>
      if !rootCurrent then [Response(Some(operation), Error)]
      else if operation in {Subscribe, Unsubscribe, Shutdown} then [Response(Some(operation), Okay)]
      else [Response(Some(operation), answer)]
    case Undecodable => [Response(None, Error)]
    case Oversized => [Response(None, Error)]
    case ReadError => [Response(None, Error)]
    case _ => []
  }

  /** The input ends the session once it is answered. */
  predicate Ends(input: Input) {
    input.Eof? || input.ReadError? || (input.Ask? && (!input.request.rootCurrent || input.request.operation.Shutdown?))
  }

  /** The session ends well at the end of the input and when it is asked to shut down. */
  function ExitAfter(input: Input): Exit {
    if !Ends(input) then Continue
    else if input.Eof? || (input.Ask? && input.request.rootCurrent) then Success
    else OperationalError
  }

  /** What a subscriber is told after `t`: one event, unless one is pending. */
  function Told(t: seq<Message>, reason: Reason): seq<Message> {
    if SubscribedBy(t) && !Pending(t) then [Event(EventCount(t) + 1, reason)] else []
  }

  function ToHandle(t: seq<Message>, input: Input): seq<Message> {
    if !Relevant(input) then AnswerTo(input)
    else Told(t, if input.WatchError? then RescanRequired else WorkspaceChanged)
  }

  /** All that is written for one arrival. */
  function Reaction(t: seq<Message>, a: Arrival): seq<Message> {
    var told := if a.rescan then Told(t, RescanRequired) else [];
    told + ToHandle(t + told, a.input)
  }

  /** All that is written for the arrivals. */
  function Reactions(t: seq<Message>, arrivals: seq<Arrival>): seq<Message> {
    if arrivals == [] then []
    else
      var before := Reactions(t, arrivals[..|arrivals| - 1]);
      before + Reaction(t + before, arrivals[|arrivals| - 1])
  }

  function Responses(t: seq<Message>): seq<Message> {
    if t == [] then []
    else Responses(t[..|t| - 1]) + if t[|t| - 1].Response? then [t[|t| - 1]] else []
  }

  function AllAnswers(arrivals: seq<Arrival>): seq<Message> {
    if arrivals == [] then [] else AllAnswers(arrivals[..|arrivals| - 1]) + AnswerTo(arrivals[|arrivals| - 1].input)
  }

  lemma EventsAddNoResponse(t: seq<Message>, more: seq<Message>)
    requires |more| <= 1 && (more != [] ==> more[0].Event?)
    ensures Responses(t + more) == Responses(t)
  {
    if more == [] {
      assert t + more == t;
    } else {
      assert (t + more)[..|t + more| - 1] == t;
    }
  }

  lemma ResponsesAdd(t: seq<Message>, more: seq<Message>)
    requires |more| <= 1 && (more != [] ==> more[0].Response?)
    ensures Responses(t + more) == Responses(t) + more
  {
    if more == [] {
      assert t + more == t;
    } else {
      assert (t + more)[..|t + more| - 1] == t;
    }
  }

  lemma Regroup<T>(a: seq<T>, b: seq<T>, c: seq<T>)
    ensures a + (b + c) == a + b + c
  {}

  lemma PartsAnswer(t: seq<Message>, told: seq<Message>, rest: seq<Message>)
    requires |told| <= 1 && (told != [] ==> told[0].Event?) && |rest| <= 1
    ensures Responses(t + (told + rest)) == Responses(t) + if rest != [] && rest[0].Response? then rest else []
  {
    EventsAddNoResponse(t, told);
    if rest != [] && rest[0].Response? {
      ResponsesAdd(t + told, rest);
    } else {
      EventsAddNoResponse(t + told, rest);
    }
    Regroup(t, told, rest);
  }

  lemma ToldIsEvent(t: seq<Message>, reason: Reason)
    ensures |Told(t, reason)| <= 1 && (Told(t, reason) != [] ==> Told(t, reason)[0].Event?)
  {}

  lemma HandledAnswers(t: seq<Message>, input: Input)
    ensures var rest := ToHandle(t, input);
      |rest| <= 1 && AnswerTo(input) == if rest != [] && rest[0].Response? then rest else []
  {
    ToldIsEvent(t, RescanRequired);
    ToldIsEvent(t, WorkspaceChanged);
  }

  lemma ReactionAnswers(t: seq<Message>, a: Arrival)
    ensures Responses(t + Reaction(t, a)) == Responses(t) + AnswerTo(a.input)
  {
    var told := if a.rescan then Told(t, RescanRequired) else [];
    ToldIsEvent(t, RescanRequired);
    HandledAnswers(t + told, a.input);
    PartsAnswer(t, told, ToHandle(t + told, a.input));
  }

  lemma ReactionsGrow(t: seq<Message>, arrivals: seq<Arrival>, k: nat)
    requires k < |arrivals|
    ensures var before := t + Reactions(t, arrivals[..k]);
      t + Reactions(t, arrivals[..k + 1]) == before + Reaction(before, arrivals[k])
  {
    assert arrivals[..k + 1][..k] == arrivals[..k];
    Regroup(t, Reactions(t, arrivals[..k]), Reaction(t + Reactions(t, arrivals[..k]), arrivals[k]));
  }

  /** Every request is answered, in order, and whatever else is said is an event. */
  lemma {:induction false} AnswersInOrder(t: seq<Message>, arrivals: seq<Arrival>)
    ensures Responses(t + Reactions(t, arrivals)) == Responses(t) + AllAnswers(arrivals)
  {
    if arrivals == [] {
      assert t + [] == t;
    } else {
      var n := |arrivals| - 1;
      AnswersInOrder(t, arrivals[..n]);
      ReactionsGrow(t, arrivals, n);
      assert arrivals[..n + 1] == arrivals;
      ReactionAnswers(t + Reactions(t, arrivals[..n]), arrivals[n]);
      Regroup(Responses(t), AllAnswers(arrivals[..n]), AnswerTo(arrivals[n].input));
    }
  }

  /** All that is owed was written, and the exit is the one due; or the rest found no room or no number. */
  predicate Did(t: seq<Message>, before: seq<Message>, owed: seq<Message>, exit: Exit, due: Exit, exhausted: bool) {
    && before <= t <= before + owed
    && if t == before + owed then exit == due else exit.OperationalError? && exhausted
  }

  lemma DidFirst(t: seq<Message>, before: seq<Message>, owed: seq<Message>, rest: seq<Message>, exit: Exit, due: Exit,
                 exhausted: bool)
    requires Did(t, before, owed, exit, OperationalError, exhausted) && t == before && owed != []
    ensures Did(t, before, owed + rest, exit, due, exhausted)
  {}

  lemma DidThen(t: seq<Message>, before: seq<Message>, owed: seq<Message>, rest: seq<Message>, exit: Exit, due: Exit,
                exhausted: bool)
    requires Did(t, before + owed, rest, exit, due, exhausted)
    ensures Did(t, before, owed + rest, exit, due, exhausted)
  {
    assert before + (owed + rest) == before + owed + rest;
  }

  /** `t` is what was written when the first `k` arrivals had been handled. */
  predicate Reacted(t: seq<Message>, start: seq<Message>, arrivals: seq<Arrival>, k: nat)
    requires k <= |arrivals|
  {
    t == start + Reactions(start, arrivals[..k])
  }

  /** The session ended with arrival `k`, or because what it is owed found no room or no number. */
  predicate Stopped(t: seq<Message>, start: seq<Message>, arrivals: seq<Arrival>, k: nat, exit: Exit, exhausted: bool)
    requires k < |arrivals|
  {
    var before := start + Reactions(start, arrivals[..k]);
    Did(t, before, Reaction(before, arrivals[k]), exit, ExitAfter(arrivals[k].input), exhausted)
  }

  lemma ReactedNext(t: seq<Message>, before: seq<Message>, start: seq<Message>, arrivals: seq<Arrival>, k: nat)
    requires k < |arrivals| && Reacted(before, start, arrivals, k) && t == before + Reaction(before, arrivals[k])
    ensures Reacted(t, start, arrivals, k + 1)
  {
    ReactionsGrow(start, arrivals, k);
  }

  lemma NothingReacted(start: seq<Message>, arrivals: seq<Arrival>)
    ensures Reacted(start, start, arrivals, 0)
  {
    assert arrivals[..0] == [] && start + [] == start;
  }

  // ---------- the session ----------

  /** The loop's variables are what the transcript says. */
  ghost predicate Agrees(t: seq<Message>, subscribed: bool, dirty: bool, sequence: nat) {
    Proper(t) && sequence == EventCount(t) && subscribed == SubscribedBy(t) && dirty == Pending(t)
  }

  /** What an answer does to them. */
  lemma AnswerAgrees(t: seq<Message>, subscribed: bool, dirty: bool, sequence: nat, m: Message)
    requires Agrees(t, subscribed, dirty, sequence) && m.Response?
    ensures Agrees(t + [m],
                   m == Response(Some(Subscribe), Okay) || (m != Response(Some(Unsubscribe), Okay) && subscribed),
                   dirty && !Clears(m), sequence)
  {
    ProperExtends(t, m);
    assert (t + [m])[..|t|] == t;
  }

  class Session {
    var subscribed: bool
    var dirty: bool
    var sequence: nat
    /** What has been written; writing fails once `room` messages are out. */
    var transcript: seq<Message>
    const room: nat

    constructor (room: nat)
      ensures Valid() && transcript == []
    {
      subscribed, dirty, sequence, transcript := false, false, 0, [];
      this.room := room;
    }

    ghost predicate Valid()
      reads this
    {
      Agrees(transcript, subscribed, dirty, sequence)
    }

    /** Write one message. */
    method Emit(m: Message) returns (written: bool)
      requires Proper(transcript)
      requires m.Event? ==>
        m.sequence == EventCount(transcript) + 1 <= MAX_SAFE_JSON_SEQUENCE && SubscribedBy(transcript) &&
          !Pending(transcript)
      modifies this`transcript
      ensures Proper(transcript) && written == (|old(transcript)| < room)
      ensures transcript == if written then old(transcript) + [m] else old(transcript)
      ensures written ==> EventCount(transcript) == EventCount(old(transcript)) + if m.Event? then 1 else 0
      ensures written ==> Pending(transcript) == (!Clears(m) && (m.Event? || Pending(old(transcript))))
      ensures written ==>
        (SubscribedBy(transcript) <==>
           m == Response(Some(Subscribe), Okay) ||
             (m != Response(Some(Unsubscribe), Okay) && SubscribedBy(old(transcript))))
    {
      if |transcript| >= room {
        return false;
      }
      ProperExtends(transcript, m);
      ghost var before := transcript;
      transcript := transcript + [m];
      assert transcript[..|transcript| - 1] == before;
      return true;
    }

    /** Tell a subscriber of a change, unless it was told already. */
    method EmitHintIfNeeded(reason: Reason) returns (ok: bool)
      requires Valid()
      modifies this
      ensures old(transcript) <= transcript && (ok ==> Valid()) && Proper(transcript)
      ensures transcript == if ok then old(transcript) + Told(old(transcript), reason) else old(transcript)
      ensures ok <==> Told(old(transcript), reason) == [] ||
                      (|old(transcript)| < room && EventCount(old(transcript)) < MAX_SAFE_JSON_SEQUENCE)
      ensures ok ==> subscribed == old(subscribed) && (subscribed ==> Pending(transcript))
    {
      ghost var before := transcript;
      ghost var told := Told(before, reason);
      assert told == if dirty || !subscribed then [] else [Event(sequence + 1, reason)];
      assert before + [] == before;
      if dirty {
        PendingIsSubscribed(transcript);
        return true;
      }
      if !subscribed {
        return true;
      }
      if sequence + 1 > MAX_SAFE_JSON_SEQUENCE {
        return false;
      }
      sequence := sequence + 1;
      ok := Emit(Event(sequence, reason));
      if ok {
        dirty := true;
      }
    }

    /** Answer a decoded request. */
    method ExecuteRequest(operation: Operation, answer: Status) returns (status: Status)
      modifies this`subscribed
      ensures status == if operation in [Query, Explain, IndexStatus, Refresh] then answer else Okay
      ensures subscribed == (operation.Subscribe? || (!operation.Unsubscribe? && old(subscribed)))
    {
      match operation {
        case Subscribe =>
          subscribed := true;
          status := Okay;
        case Unsubscribe =>
          subscribed := false;
          status := Okay;
        case Shutdown =>
          status := Okay;
        case _ =>
          status := answer;
      }
    }

    ghost predicate Exhausted()
      reads this
    {
      |transcript| >= room || EventCount(transcript) >= MAX_SAFE_JSON_SEQUENCE
    }

    /** Answer, and go on or leave. */
    method Answer(m: Message, due: Exit) returns (exit: Exit)
      modifies this`transcript
      ensures Did(transcript, old(transcript), [m], exit, due, Exhausted())
      ensures exit.Continue? ==> transcript == old(transcript) + [m]
      ensures transcript == old(transcript) || transcript == old(transcript) + [m]
    {
      if |transcript| >= room {
        return OperationalError;
      }
      transcript := transcript + [m];
      return due;
    }

    /** Tell a subscriber, and go on. */
    method Notify(reason: Reason) returns (exit: Exit)
      requires Valid()
      modifies this
      ensures old(transcript) <= transcript && (exit.Continue? ==> Valid()) && Proper(transcript)
      ensures Did(transcript, old(transcript), Told(old(transcript), reason), exit, Continue, Exhausted())
      ensures exit.Continue? ==> subscribed == old(subscribed) && (subscribed ==> Pending(transcript))
    {
      var told := EmitHintIfNeeded(reason);
      return if told then Continue else OperationalError;
    }

    method HandleRequest(request: Request) returns (exit: Exit)
      requires Valid()
      modifies this
      ensures old(transcript) <= transcript && Proper(transcript) && (exit.Continue? ==> Valid())
      ensures Did(transcript, old(transcript), AnswerTo(Ask(request)), exit, ExitAfter(Ask(request)), Exhausted())
    {
      if !request.rootCurrent {
        AnswerAgrees(transcript, subscribed, dirty, sequence, Response(Some(request.operation), Error));
        exit := Answer(Response(Some(request.operation), Error), OperationalError);
        return;
      }
      ghost var was := subscribed;
      var status := ExecuteRequest(request.operation, request.answer);
      var due := if request.operation.Shutdown? then Success else Continue;
      AnswerAgrees(transcript, was, dirty, sequence, Response(Some(request.operation), status));
      exit := Answer(Response(Some(request.operation), status), due);
      if !exit.OperationalError? && status == Okay && !request.operation.Shutdown? {
        dirty := false;
      }
    }

    method HandleInput(input: Input) returns (exit: Exit)
      requires Valid()
      modifies this
      ensures old(transcript) <= transcript && Proper(transcript) && (exit.Continue? ==> Valid())
      ensures exit.Continue? && Relevant(input) && SubscribedBy(transcript) ==> Pending(transcript)
      ensures Did(transcript, old(transcript), ToHandle(old(transcript), input), exit, ExitAfter(input), Exhausted())
    {
      AnswerAgrees(transcript, subscribed, dirty, sequence, Response(None, Error));
      match input {
        case Eof =>
          return Success;
        case ReadError =>
          exit := Answer(Response(None, Error), OperationalError);
        case Oversized =>
          exit := Answer(Response(None, Error), Continue);
        case Undecodable =>
          exit := Answer(Response(None, Error), Continue);
        case Ask(request) =>
          exit := HandleRequest(request);
        case Changed(privateIndexOnly) =>
          if privateIndexOnly {
            return Continue;
          }
          exit := Notify(WorkspaceChanged);
        case WatchError =>
          exit := Notify(RescanRequired);
      }
    }

    /** One arrival: first the hint the queue had no room for, then the input. */
    method HandleArrival(a: Arrival) returns (exit: Exit, ghost middle: seq<Message>)
      requires Valid()
      modifies this
      ensures old(transcript) <= middle <= transcript && Proper(transcript) && (exit.Continue? ==> Valid())
      ensures Did(transcript, old(transcript), Reaction(old(transcript), a), exit, ExitAfter(a.input), Exhausted())
      ensures exit.Continue? && a.rescan && SubscribedBy(middle) ==> Pending(middle)
      ensures exit.Continue? && Relevant(a.input) && SubscribedBy(transcript) ==> Pending(transcript)
    {
      ghost var before, told := transcript, [];
      if a.rescan {
        told := Told(transcript, RescanRequired);
        exit := Notify(RescanRequired);
        if !exit.Continue? {
          DidFirst(transcript, before, told, ToHandle(before + told, a.input), exit, ExitAfter(a.input), Exhausted());
          return exit, transcript;
        }
      }
      assert transcript == before + told;
      middle := transcript;
      exit := HandleInput(a.input);
      DidThen(transcript, before, told, ToHandle(middle, a.input), exit, ExitAfter(a.input), Exhausted());
    }

    /**
     The session loop.  Whatever is written is the reaction to the arrivals: every request is
     answered and every hint told once; the loop ends where an input ends it, or where there is
     no room or no number left for what is owed.  `marks` are the transcript lengths after each
     arrival's overflow hint and after its input: at either point a subscriber that had something
     to hear has been told since its last answered request.
     */
    method Run(arrivals: seq<Arrival>) returns (exit: Exit, ghost marks: seq<Mark>)
      requires Valid()
      modifies this
      ensures old(transcript) <= transcript && Proper(transcript)
      ensures |marks| <= |arrivals| && (exit.Continue? <==> |marks| == |arrivals|)
      ensures forall k :: 0 <= k < |marks| ==> Covered(arrivals[k], marks[k], transcript) && !Ends(arrivals[k].input)
      ensures exit.Continue? ==> Reacted(transcript, old(transcript), arrivals, |arrivals|)
      ensures !exit.Continue? ==> Stopped(transcript, old(transcript), arrivals, |marks|, exit, Exhausted())
    {
      marks, exit := [], Continue;
      ghost var start := transcript;
      NothingReacted(start, arrivals);
      for k := 0 to |arrivals|
        invariant start <= transcript && Valid() && exit.Continue?
        invariant |marks| == k && forall m :: 0 <= m < k ==> Covered(arrivals[m], marks[m], transcript)
        invariant forall m :: 0 <= m < k ==> !Ends(arrivals[m].input)
        invariant Reacted(transcript, start, arrivals, k)
      {
        ghost var before, middle := transcript, transcript;
        exit, middle := HandleArrival(arrivals[k]);
        CoverageStays(arrivals, marks, before, transcript);
        if !exit.Continue? {
          return;
        }
        ReactedNext(transcript, before, start, arrivals, k);
        ArrivalIsCovered(arrivals[k], middle, transcript);
        marks := marks + [Mark(|middle|, |transcript|)];
      }
    }
  }

  datatype Mark = Mark(hinted: nat, handled: nat)

  predicate Covered(arrival: Arrival, mark: Mark, t: seq<Message>) {
    && mark.hinted <= mark.handled <= |t|
    && (arrival.rescan && SubscribedBy(t[..mark.hinted]) ==> Pending(t[..mark.hinted]))
    && (Relevant(arrival.input) && SubscribedBy(t[..mark.handled]) ==> Pending(t[..mark.handled]))
  }

  lemma ArrivalIsCovered(arrival: Arrival, middle: seq<Message>, t: seq<Message>)
    requires middle <= t
    requires arrival.rescan && SubscribedBy(middle) ==> Pending(middle)
    requires Relevant(arrival.input) && SubscribedBy(t) ==> Pending(t)
    ensures Covered(arrival, Mark(|middle|, |t|), t)
  {
    assert t[..|middle|] == middle && t[..|t|] == t;
  }

  lemma CoverageStays(arrivals: seq<Arrival>, marks: seq<Mark>, t: seq<Message>, longer: seq<Message>)
    requires |marks| <= |arrivals| && t <= longer && forall k :: 0 <= k < |marks| ==> Covered(arrivals[k], marks[k], t)
    ensures forall k :: 0 <= k < |marks| ==> Covered(arrivals[k], marks[k], longer)
  {
    forall k | 0 <= k < |marks| ensures Covered(arrivals[k], marks[k], longer) {
      assert longer[..marks[k].hinted] == t[..marks[k].hinted];
      assert longer[..marks[k].handled] == t[..marks[k].handled];
    }
  }

  // ---------- the bounded queue ----------

  /** The queue between the watcher and the loop, and the flag that stands in for hints it had no room for. */
  class Mailbox {
    var queue: seq<Input>
    var rescan: bool
    /** Everything queued so far, and everything received. */
    ghost var queued: seq<Input>
    ghost var received: seq<Input>
    /** Hints the watcher tried to hand over, and how many of them were queued. */
    ghost var tried: nat
    ghost var accepted: nat
    /** Hints that found no room: before the flag is raised, behind the flag, and reported. */
    ghost var turnedAway: nat
    ghost var unreported: nat
    ghost var reported: nat

    ghost predicate Valid()
      reads this
    {
      && |queue| <= INPUT_QUEUE_CAPACITY && (rescan <==> unreported > 0) && queued == received + queue
      && tried == accepted + turnedAway + unreported + reported
    }

    constructor ()
      ensures Valid() && queued == [] && tried == 0
    {
      queue, rescan := [], false;
      queued, received := [], [];
      tried, accepted, turnedAway, unreported, reported := 0, 0, 0, 0, 0;
    }

    /** Queue an input if there is room. */
    method TrySend(input: Input) returns (full: bool)
      requires Valid()
      modifies this`queue, this`queued
      ensures Valid() && full == (|old(queue)| == INPUT_QUEUE_CAPACITY)
      ensures queue == (if full then old(queue) else old(queue) + [input]) &&
        queued == if full then old(queued) else old(queued) + [input]
    {
      full := |queue| == INPUT_QUEUE_CAPACITY;
      if !full {
        queue, queued := queue + [input], queued + [input];
      }
    }

    /** The watcher's first step with a hint: try to queue it. */
    method TryHint(hint: Input) returns (full: bool)
      requires Valid()
      modifies this
      ensures Valid() && rescan == old(rescan) && received == old(received)
      ensures full == (|old(queue)| == INPUT_QUEUE_CAPACITY)
      ensures queue == (if full then old(queue) else old(queue) + [hint]) &&
        queued == if full then old(queued) else old(queued) + [hint]
      ensures tried == old(tried) + 1 && reported == old(reported) && unreported == old(unreported)
      ensures turnedAway == if full then old(turnedAway) + 1 else old(turnedAway)
    {
      tried, accepted := tried + 1, accepted + 1;
      full := TrySend(hint);
      if full {
        accepted, turnedAway := accepted - 1, turnedAway + 1;
      }
    }

    /** Its second step, if there was no room: raise the flag. */
    method RaiseFlag()
      requires Valid() && turnedAway > 0
      modifies this`rescan, this`turnedAway, this`unreported
      ensures Valid() && rescan
      ensures turnedAway == old(turnedAway) - 1 && unreported == old(unreported) + 1
    {
      rescan, turnedAway, unreported := true, turnedAway - 1, unreported + 1;
    }

    /** The loop's first step: take the oldest input. */
    method Receive() returns (input: Input)
      requires Valid() && queue != []
      modifies this`queue, this`received
      ensures Valid() && received == old(received) + [input] && old(queue) == [input] + queue
    {
      input := queue[0];
      received, queue := received + [queue[0]], queue[1..];
    }

    /** Its second step: lower the flag, which reports all that was behind it. */
    method LowerFlag() returns (flag: bool)
      requires Valid()
      modifies this`rescan, this`unreported, this`reported
      ensures Valid() && !rescan && unreported == 0
      ensures (flag <==> old(unreported) > 0) && reported == old(reported) + old(unreported)
    {
      flag := rescan;
      rescan, unreported, reported := false, 0, reported + unreported;
    }
  }

  /** One step of the watcher, of the reader of requests, or of the loop. */
  datatype Move = Hint(hint: Input) | Flag | Request(input: Input) | Take | Look

  /** Where the three threads have got to: what is queued, how many hints are about to raise
      the flag, behind it, and reported, what the loop has taken, and what arrived. */
  datatype State = State(
    queue: seq<Input>, waiting: nat, unreported: nat, reported: nat, taken: seq<Input>, arrivals: seq<Arrival>)

  predicate HasRoom(s: State) {
    |s.queue| < INPUT_QUEUE_CAPACITY
  }

  /** A step that cannot be taken yet is skipped. */
  function Next(s: State, move: Move): State {
    match move
    case Hint(hint) => if HasRoom(s) then s.(queue := s.queue + [hint]) else s.(waiting := s.waiting + 1)
    case Flag => if s.waiting > 0 then s.(waiting := s.waiting - 1, unreported := s.unreported + 1) else s
    case Request(input) => if HasRoom(s) then s.(queue := s.queue + [input]) else s
    case Take => if s.taken == [] && s.queue != [] then s.(taken := [s.queue[0]], queue := s.queue[1..]) else s
    case Look =>
      if s.taken == [] then s
      else s.(taken := [], unreported := 0, reported := s.reported + s.unreported,
              arrivals := s.arrivals + [Arrival(s.taken[0], s.unreported > 0)])
  }

  function After(moves: seq<Move>): State {
    if moves == [] then State([], 0, 0, 0, [], [])
    else Next(After(moves[..|moves| - 1]), moves[|moves| - 1])
  }

  // ---------- what every interleaving keeps ----------

  function Inputs(arrivals: seq<Arrival>): seq<Input> {
    seq(|arrivals|, k requires 0 <= k < |arrivals| => arrivals[k].input)
  }

  predicate SomeRescan(arrivals: seq<Arrival>) {
    exists k :: 0 <= k < |arrivals| && arrivals[k].rescan
  }

  lemma OneMoreArrival(arrivals: seq<Arrival>, a: Arrival)
    ensures Inputs(arrivals + [a]) == Inputs(arrivals) + [a.input]
    ensures SomeRescan(arrivals + [a]) <==> SomeRescan(arrivals) || a.rescan
  {
    var more := arrivals + [a];
    assert more[|arrivals|] == a;
    assert forall k :: 0 <= k < |arrivals| ==> more[k] == arrivals[k];
  }

  /** What was sent while there was room, in order. */
  function Sent(moves: seq<Move>): seq<Input> {
    if moves == [] then []
    else
      var init, last := moves[..|moves| - 1], moves[|moves| - 1];
      Sent(init) +
      if !HasRoom(After(init)) then []
      else if last.Hint? then [last.hint]
      else if last.Request? then [last.input]
      else []
  }

  function HintsTried(moves: seq<Move>): nat {
    if moves == [] then 0
    else HintsTried(moves[..|moves| - 1]) + if moves[|moves| - 1].Hint? then 1 else 0
  }

  function HintsSent(moves: seq<Move>): nat {
    if moves == [] then 0
    else
      var init := moves[..|moves| - 1];
      HintsSent(init) + if moves[|moves| - 1].Hint? && HasRoom(After(init)) then 1 else 0
  }

  /** The loop gets what was sent while there was room, in order and nothing else. */
  lemma {:induction false} SentInOrder(moves: seq<Move>)
    ensures var s := After(moves); Inputs(s.arrivals) + s.taken + s.queue == Sent(moves)
    ensures |After(moves).taken| <= 1 && |After(moves).queue| <= INPUT_QUEUE_CAPACITY
  {
    if moves != [] {
      var init, last := moves[..|moves| - 1], moves[|moves| - 1];
      SentInOrder(init);
      var s := After(init);
      if last.Look? && s.taken != [] {
        OneMoreArrival(s.arrivals, Arrival(s.taken[0], s.unreported > 0));
        assert s.taken == [s.taken[0]];
      }
    }
  }

  /** Every hint was sent, is about to raise the flag, stands behind it, or was reported. */
  lemma {:induction false} HintsAreAccounted(moves: seq<Move>)
    ensures var s := After(moves); HintsTried(moves) == HintsSent(moves) + s.waiting + s.unreported + s.reported
    ensures After(moves).reported > 0 <==> SomeRescan(After(moves).arrivals)
  {
    if moves != [] {
      var init, last := moves[..|moves| - 1], moves[|moves| - 1];
      HintsAreAccounted(init);
      var s := After(init);
      if last.Look? && s.taken != [] {
        OneMoreArrival(s.arrivals, Arrival(s.taken[0], s.unreported > 0));
      }
    }
  }

  /** Once the flag is up, the very next arrival carries it, whatever comes between. */
  lemma {:induction false} FlagComesNext(moves: seq<Move>, more: seq<Move>)
    requires After(moves).unreported > 0
    ensures var n := |After(moves).arrivals|;
      && After(moves).arrivals <= After(moves + more).arrivals
      && if |After(moves + more).arrivals| > n then After(moves + more).arrivals[n].rescan
         else After(moves + more).unreported >= After(moves).unreported
  {
    if more == [] {
      assert moves + more == moves;
    } else {
      var init := more[..|more| - 1];
      FlagComesNext(moves, init);
      assert (moves + more)[..|moves + more| - 1] == moves + init;
    }
  }

  /** The mailbox and the loop's own variables, as the state says. */
  ghost predicate InState(m: Mailbox, s: State)
    reads m
  {
    && m.Valid() && m.queue == s.queue && m.received == Inputs(s.arrivals) + s.taken
    && m.turnedAway == s.waiting && m.unreported == s.unreported && m.reported == s.reported
  }

  /** One step of one thread. */
  method Advance(m: Mailbox, move: Move, ghost s: State, waiting: nat, taken: seq<Input>)
    returns (waits: nat, takes: seq<Input>, arrived: seq<Arrival>)
    requires InState(m, s) && waiting == s.waiting && taken == s.taken && |taken| <= 1
    modifies m
    ensures InState(m, Next(s, move)) && waits == Next(s, move).waiting && takes == Next(s, move).taken
    ensures Next(s, move).arrivals == s.arrivals + arrived
    ensures m.tried == old(m.tried) + if move.Hint? then 1 else 0
  {
    waits, takes, arrived := waiting, taken, [];
    match move {
      case Hint(hint) =>
        var full := m.TryHint(hint);
        waits := if full then waiting + 1 else waiting;
      case Flag =>
        if waiting > 0 {
          m.RaiseFlag();
          waits := waiting - 1;
        }
      case Request(input) =>
        var _ := m.TrySend(input);
      case Take =>
        if taken == [] && m.queue != [] {
          var input := m.Receive();
          takes := [input];
        }
      case Look =>
        if taken != [] {
          var flag := m.LowerFlag();
          OneMoreArrival(s.arrivals, Arrival(taken[0], flag));
          arrived, takes := [Arrival(taken[0], flag)], [];
        }
    }
  }

  /** The three threads in any interleaving. */
  method Interleave(m: Mailbox, moves: seq<Move>) returns (arrivals: seq<Arrival>, taken: seq<Input>)
    requires InState(m, After([])) && m.tried == 0
    modifies m
    ensures InState(m, After(moves)) && m.tried == HintsTried(moves) && m.queued == Sent(moves)
    ensures arrivals == After(moves).arrivals && taken == After(moves).taken
  {
    arrivals, taken := [], [];
    var waiting := 0;
    for n := 0 to |moves|
      invariant InState(m, After(moves[..n])) && m.tried == HintsTried(moves[..n])
      invariant waiting == After(moves[..n]).waiting
      invariant arrivals == After(moves[..n]).arrivals && taken == After(moves[..n]).taken
    {
      assert moves[..n + 1][..n] == moves[..n];
      SentInOrder(moves[..n]);
      var arrived;
      waiting, taken, arrived := Advance(m, moves[n], After(moves[..n]), waiting, taken);
      arrivals := arrivals + arrived;
    }
    assert moves[..|moves|] == moves;
    SentInOrder(moves);
  }

  /** Between its two steps the loop may take all there is, and then waits for an input with
      the hint unreported behind the flag. */
  method LateFlagWaits(m: Mailbox, hint: Input)
    requires m.Valid() && |m.queue| == INPUT_QUEUE_CAPACITY && m.turnedAway == 0
    modifies m
    ensures m.Valid() && m.queue == [] && m.rescan && m.unreported == 1 && m.turnedAway == 0
  {
    var full := m.TryHint(hint);
    while m.queue != []
      invariant m.Valid() && m.turnedAway == 1
      invariant m.queue == [] ==> m.unreported == 0
      decreases |m.queue|
    {
      var _ := m.Receive();
      var _ := m.LowerFlag();
    }
    m.RaiseFlag();
  }
}
