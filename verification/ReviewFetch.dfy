/**
 FetchReviewData (internal/utils/admin_reviews_helper.go:114-174): three goroutines,
 a WaitGroup and an error channel of capacity 3, as a step system.

 What the three queries answer is fixed in advance; the schedule, that is which
 goroutine (or the caller) moves next, is arbitrary.
 */
module ReviewFetch {
  import opened Wrappers

  datatype Row = Row(id: int, text: string)

  /** One and All: a value or the text of an error; One reports a missing row as the error NO_ROWS. */
  datatype Answers = Answers(review: Result<Row, string>, images: Result<seq<Row>, string>, reply: Result<Row, string>)

  const NO_ROWS := "sql: no rows in result set"
  const CAPACITY := 3

  datatype Fetched = Fetched(review: Row, images: seq<Row>, reply: Option<Row>)

  /** The error goroutine i sends; a missing reply is not one. */
  function Failure(a: Answers, i: nat): Option<string>
    requires i < 3
  {
    if i == 0 then (if a.review.Err? then Some(a.review.error) else None)
    else if i == 1 then (if a.images.Err? then Some(a.images.error) else None)
    else if a.reply.Err? && a.reply.error != NO_ROWS then Some(a.reply.error)
    else None
  }

  // ---------------------------------------------------------------- states and steps

  datatype Phase = Unborn | Querying | Answered | Reported | Finished

  datatype Caller =
    | Spawning(next: nat)
    | Waiting
    | Closing
    | Draining
    | Returned(result: Result<Fetched, string>)
    | Panicked

  /** phases: the goroutines; count: the WaitGroup; errors, closed: the channel; the rest: the captured variables. */
  datatype State = State(
    phases: seq<Phase>, caller: Caller, count: nat, errors: seq<string>, closed: bool,
    review: Option<Row>, images: seq<Row>, reply: Option<Row>)

  const START := State([Unborn, Unborn, Unborn], Spawning(0), 0, [], false, None, [], None)

  datatype Actor = Goroutine(i: nat) | Main

  /** Whether the actor can move: a goroutine blocks on a full channel, the caller on a non-zero WaitGroup. */
  predicate Enabled(a: Answers, s: State, actor: Actor) {
    match actor
    case Goroutine(i) =>
      && i < 3 && i < |s.phases|
      && (match s.phases[i]
          case Unborn => false
          case Finished => false
          case Answered => Failure(a, i).Some? ==> s.closed || |s.errors| < CAPACITY
          case _ => true)
    case Main =>
      match s.caller
      case Waiting => s.count == 0
      case Draining => s.errors != [] || s.closed
      case Returned(_) => false
      case Panicked => false
      case _ => true
  }

  /** The second half of goroutine i: send the error, or set its captured variable. */
  function Report(a: Answers, s: State, i: nat): State
    requires i < 3 && i < |s.phases|
  {
    var s' := s.(phases := s.phases[i := Reported]);
    if Failure(a, i).Some? then
      if s.closed then s'.(caller := Panicked) else s'.(errors := s.errors + [Failure(a, i).value])
    else if i == 0 then s'.(review := if a.review.Ok? then Some(a.review.value) else None)
    else if i == 1 then s'.(images := if a.images.Ok? then a.images.value else [])
    else s'.(reply := if a.reply.Ok? then Some(a.reply.value) else None)
  }

  function Move(a: Answers, s: State, actor: Actor): State
    requires Enabled(a, s, actor)
  {
    match actor
    case Goroutine(i) =>
      (match s.phases[i]
       case Querying => s.(phases := s.phases[i := Answered])
       case Answered => Report(a, s, i)
       case Reported =>
         if s.count == 0 then s.(caller := Panicked)
         else s.(phases := s.phases[i := Finished], count := s.count - 1)
       case Unborn => s
       case Finished => s)
    case Main =>
      match s.caller
      case Spawning(k) =>
        if k < |s.phases| then
          s.(phases := s.phases[k := Querying], count := s.count + 1, caller := if k == 2 then Waiting else Spawning(k + 1))
        else s.(caller := Waiting)
      case Waiting => s.(caller := Closing)
      case Closing => s.(closed := true, caller := Draining)
      case _ =>
        s.(caller := Returned(
             if s.errors != [] then Err(s.errors[0])
             else if s.review.None? then Err("review not found")
             else Ok(Fetched(s.review.value, s.images, s.reply))))
  }

  /** What the three queries one after the other would give. */
  function Sequential(a: Answers): Fetched
    requires a.review.Ok? && a.images.Ok?
  {
    Fetched(a.review.value, a.images.value, if a.reply.Ok? then Some(a.reply.value) else None)
  }

  predicate AllSucceed(a: Answers) {
    a.review.Ok? && a.images.Ok? && (a.reply.Ok? || a.reply.error == NO_ROWS)
  }

  // ---------------------------------------------------------------- the invariant

  function Busy(p: Phase): nat {
    if p.Unborn? || p.Finished? then 0 else 1
  }

  predicate HasReported(p: Phase) {
    p.Reported? || p.Finished?
  }

  function Sent(a: Answers, s: State, i: nat): nat
    requires i < 3 && |s.phases| == 3
  {
    if HasReported(s.phases[i]) && Failure(a, i).Some? then 1 else 0
  }

  ghost predicate FromAFailure(a: Answers, e: string) {
    exists i: nat :: i < 3 && Failure(a, i) == Some(e)
  }

  /** The captured variables hold what their goroutines have reported. */
  ghost predicate VariablesRight(a: Answers, s: State)
    requires |s.phases| == 3
  {
    && (HasReported(s.phases[0]) ==> s.review == if a.review.Ok? then Some(a.review.value) else None)
    && (HasReported(s.phases[1]) && a.images.Ok? ==> s.images == a.images.value)
    && (HasReported(s.phases[2]) && Failure(a, 2).None? ==> s.reply == if a.reply.Ok? then Some(a.reply.value) else None)
    && (HasReported(s.phases[0]) || s.review.None?)
  }

  ghost predicate Inv(a: Answers, s: State) {
    Shape(a, s) && VariablesRight(a, s)
  }

  /** The goroutines, the WaitGroup, the channel and the caller are in step. */
  ghost predicate Shape(a: Answers, s: State) {
    && |s.phases| == 3 && !s.caller.Panicked?
    && (s.caller.Spawning? ==> s.caller.next < 3)
    && (forall i :: 0 <= i < 3 ==> (s.phases[i].Unborn? <==> s.caller.Spawning? && s.caller.next <= i))
    && s.count == Busy(s.phases[0]) + Busy(s.phases[1]) + Busy(s.phases[2])
    && |s.errors| == Sent(a, s, 0) + Sent(a, s, 1) + Sent(a, s, 2)
    && (forall k :: 0 <= k < |s.errors| ==> FromAFailure(a, s.errors[k]))
    && (s.closed <==> s.caller.Draining? || s.caller.Returned?)
    && (s.caller.Closing? || s.closed ==> forall i :: 0 <= i < 3 ==> s.phases[i].Finished?)
    && (s.caller.Returned? ==> RightResult(a, s.caller.result))
  }

  /** The sequential result if all queries succeed, and otherwise the error of one that failed. */
  ghost predicate RightResult(a: Answers, result: Result<Fetched, string>) {
    if AllSucceed(a) then result == Ok(Sequential(a)) else result.Err? && FromAFailure(a, result.error)
  }

  lemma MoveKeepsInv(a: Answers, s: State, actor: Actor)
    requires Inv(a, s) && Enabled(a, s, actor)
    ensures Inv(a, Move(a, s, actor))
  {
    match actor
    case Goroutine(i) =>
      if s.phases[i].Querying? {
        QueryKeepsInv(a, s, i);
      } else if s.phases[i].Answered? {
        if Failure(a, i).Some? {
          SendKeepsInv(a, s, i);
        } else {
          AssignKeepsShape(a, s, i);
          AssignSetsVariable(a, s, i);
        }
      } else {
        DoneKeepsInv(a, s, i);
      }
    case Main => MainKeepsInv(a, s);
  }

  lemma QueryKeepsInv(a: Answers, s: State, i: nat)
    requires Inv(a, s) && Enabled(a, s, Goroutine(i)) && s.phases[i].Querying?
    ensures Inv(a, Move(a, s, Goroutine(i)))
  {
  }

  lemma SendKeepsInv(a: Answers, s: State, i: nat)
    requires Inv(a, s) && Enabled(a, s, Goroutine(i)) && s.phases[i].Answered? && Failure(a, i).Some?
    ensures Inv(a, Move(a, s, Goroutine(i)))
  {
    assert FromAFailure(a, Failure(a, i).value);
  }

  lemma AssignKeepsShape(a: Answers, s: State, i: nat)
    requires Shape(a, s) && Enabled(a, s, Goroutine(i)) && s.phases[i].Answered? && Failure(a, i).None?
    ensures Shape(a, Move(a, s, Goroutine(i)))
  {
  }

  lemma AssignSetsVariable(a: Answers, s: State, i: nat)
    requires Inv(a, s) && Enabled(a, s, Goroutine(i)) && s.phases[i].Answered? && Failure(a, i).None?
    ensures VariablesRight(a, Move(a, s, Goroutine(i)))
  {
  }

  lemma DoneKeepsInv(a: Answers, s: State, i: nat)
    requires Inv(a, s) && Enabled(a, s, Goroutine(i)) && s.phases[i].Reported?
    ensures Inv(a, Move(a, s, Goroutine(i)))
  {
  }

  lemma MainKeepsInv(a: Answers, s: State)
    requires Inv(a, s) && Enabled(a, s, Main)
    ensures Inv(a, Move(a, s, Main))
  {
    if s.caller.Draining? {
      assert s.errors == [] <==> AllSucceed(a);
    }
  }

  // ---------------------------------------------------------------- schedules

  /** A schedule: every actor in it can move when its turn comes. */
  ghost predicate Schedule(a: Answers, s: State, actors: seq<Actor>)
    decreases |actors|
  {
    actors != [] ==> Enabled(a, s, actors[0]) && Schedule(a, Move(a, s, actors[0]), actors[1..])
  }

  function End(a: Answers, s: State, actors: seq<Actor>): State
    requires Schedule(a, s, actors)
    decreases |actors|
  {
    if actors == [] then s else End(a, Move(a, s, actors[0]), actors[1..])
  }

  function Left(p: Phase): nat {
    match p
    case Unborn => 3
    case Querying => 3
    case Answered => 2
    case Reported => 1
    case Finished => 0
  }

  function CallerLeft(c: Caller): nat {
    match c
    case Spawning(k) => if k < 3 then 6 - k else 4
    case Waiting => 3
    case Closing => 2
    case Draining => 1
    case _ => 0
  }

  /** How many moves are left, whoever makes them. */
  function MovesLeft(s: State): nat
    requires |s.phases| == 3
  {
    Left(s.phases[0]) + Left(s.phases[1]) + Left(s.phases[2]) + CallerLeft(s.caller)
  }

  lemma GoroutineCounts(a: Answers, s: State, i: nat)
    requires Inv(a, s) && Enabled(a, s, Goroutine(i))
    ensures var s' := Move(a, s, Goroutine(i));
            |s'.phases| == 3 && s'.caller == s.caller && MovesLeft(s') == MovesLeft(s) - 1
  {
    var s' := Move(a, s, Goroutine(i));
    assert s.phases[i].Reported? ==> s.count > 0;
    assert s'.phases == s.phases[i := s'.phases[i]] && Left(s'.phases[i]) == Left(s.phases[i]) - 1;
  }

  lemma MoveCounts(a: Answers, s: State, actor: Actor)
    requires Inv(a, s) && Enabled(a, s, actor)
    ensures |Move(a, s, actor).phases| == 3 && MovesLeft(Move(a, s, actor)) == MovesLeft(s) - 1
  {
    match actor
    case Goroutine(i) => GoroutineCounts(a, s, i);
    case Main =>
  }

  lemma {:induction false} ScheduleKeepsInv(a: Answers, s: State, actors: seq<Actor>)
    requires Inv(a, s) && Schedule(a, s, actors)
    ensures Inv(a, End(a, s, actors))
    ensures MovesLeft(End(a, s, actors)) == MovesLeft(s) - |actors|
    decreases |actors|
  {
    if actors != [] {
      MoveKeepsInv(a, s, actors[0]);
      MoveCounts(a, s, actors[0]);
      ScheduleKeepsInv(a, Move(a, s, actors[0]), actors[1..]);
    }
  }

  /** Somebody can always move until the caller has returned. */
  lemma NoDeadlock(a: Answers, s: State)
    requires Inv(a, s)
    ensures s.caller.Returned? <==> forall actor :: !Enabled(a, s, actor)
    ensures s.caller.Returned? <==> MovesLeft(s) == 0
  {
    if !s.caller.Returned? {
      if s.caller.Waiting? && s.count != 0 {
        var i := if Busy(s.phases[0]) == 1 then 0 else if Busy(s.phases[1]) == 1 then 1 else 2;
        assert Enabled(a, s, Goroutine(i));
      } else {
        assert Enabled(a, s, Main);
      }
    }
  }

  /** No send ever blocks and none follows the close: a goroutine about to send finds room in an open channel. */
  lemma SendsNeverBlock(a: Answers, actors: seq<Actor>, i: nat)
    requires Schedule(a, START, actors) && i < 3
    ensures var s := End(a, START, actors);
            |s.phases| == 3 && (s.phases[i].Answered? ==> |s.errors| < CAPACITY && !s.closed && Enabled(a, s, Goroutine(i)))
    ensures !End(a, START, actors).caller.Panicked?
  {
    ScheduleKeepsInv(a, START, actors);
  }

  /** Every schedule has at most fifteen moves, and it has returned exactly when it has made all fifteen. */
  lemma EveryScheduleReturns(a: Answers, actors: seq<Actor>)
    requires Schedule(a, START, actors)
    ensures |actors| <= 15
    ensures var s := End(a, START, actors);
            && (s.caller.Returned? <==> |actors| == 15)
            && (s.caller.Returned? <==> forall actor :: !Enabled(a, s, actor))
  {
    ScheduleKeepsInv(a, START, actors);
    NoDeadlock(a, End(a, START, actors));
  }

  /** Whatever the schedule, the result is the sequential one if all queries succeed, and else the error of one that failed. */
  lemma ResultIsSequential(a: Answers, actors: seq<Actor>)
    requires Schedule(a, START, actors) && End(a, START, actors).caller.Returned?
    ensures var result := End(a, START, actors).caller.result;
            && (result.Ok? <==> a.review.Ok? && a.images.Ok? && (a.reply.Ok? || a.reply.error == "sql: no rows in result set"))
            && (result.Ok? ==>
                  && result.value.review == a.review.value && result.value.images == a.images.value
                  && result.value.reply == (if a.reply.Ok? then Some(a.reply.value) else None))
            && (result.Err? ==>
                  || (a.review.Err? && result.error == a.review.error)
                  || (a.images.Err? && result.error == a.images.error)
                  || (a.reply.Err? && a.reply.error != "sql: no rows in result set" && result.error == a.reply.error))
  {
    ScheduleKeepsInv(a, START, actors);
    var result := End(a, START, actors).caller.result;
    if result.Err? {
      var i: nat :| i < 3 && Failure(a, i) == Some(result.error);
    }
  }
}
