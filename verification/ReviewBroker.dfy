/**
  The GitHub review broker (`submit_review`): one reservation and one result per
  request in an append-only audit log, around calls that must not be repeated. A
  kill may fall between any two effects, or tear the line being appended: part of
  it is lost, or its line feed alone, and then the next line runs on into it.
*/
module ReviewBroker {
  import opened Text
  import opened Wrappers

  // ----- The audit log -----

  /** A line of the log. `Torn` does not parse; `Foreign` has another type. */
  datatype Record = Reservation(id: string) | Result(id: string, outcome: string) | Foreign(id: string) | Torn

  type Log = seq<Record>

  const IN_FLIGHT := "in_flight"
  const TERMINAL: set<string> := {"accepted", "rejected", "error", "uncertain"}

  /** What one line says about a request, given what the lines before it said. */
  function Note(r: Record, id: string, before: Option<string>): Option<string> {
    match r
    case Reservation(i) => if i == id then Some(IN_FLIGHT) else before
    case Result(i, outcome) => if i == id then Some(if outcome in TERMINAL then outcome else "uncertain") else before
    case Foreign(_) => before
    case Torn => before
  }

  function PriorOutcome(log: Log, id: string): Option<string> {
    if log == [] then None else Note(log[|log| - 1], id, PriorOutcome(log[..|log| - 1], id))
  }

  /** `_prior_outcome`: the last word of the log about a request. */
  method ScanPrior(log: Log, id: string) returns (outcome: Option<string>)
    ensures outcome == PriorOutcome(log, id)
  {
    outcome := None;
    for i := 0 to |log|
      invariant outcome == PriorOutcome(log[..i], id)
    {
      assert log[..i + 1][..i] == log[..i];
      match log[i]
      case Reservation(j) =>
        if j == id { outcome := Some(IN_FLIGHT); }
      case Result(j, value) =>
        if j == id { outcome := Some(if value in TERMINAL then value else "uncertain"); }
      case Foreign(_) =>
      case Torn =>
    }
    assert log[..|log|] == log;
  }

  /** A request is refused a second time exactly when the log mentions it. */
  lemma {:induction false} PriorExactly(log: Log, id: string)
    ensures PriorOutcome(log, id).Some?
            <==> exists i :: 0 <= i < |log| && (log[i] == Reservation(id) || (log[i].Result? && log[i].id == id))
  {
    if log != [] {
      var front := log[..|log| - 1];
      PriorExactly(front, id);
      assert forall i :: 0 <= i < |front| ==> front[i] == log[i];
      assert log[|log| - 1] == log[|log| - 1];
    }
  }

  /** What the log says of a request is what its last mention says; an unknown result is uncertain. */
  lemma {:induction false} LastMentionCounts(log: Log, id: string, i: nat)
    requires i < |log| && (log[i] == Reservation(id) || (log[i].Result? && log[i].id == id))
    requires forall j :: i < j < |log| ==> log[j] != Reservation(id) && !(log[j].Result? && log[j].id == id)
    ensures PriorOutcome(log, id)
            == if log[i].Reservation? then Some("in_flight")
               else if log[i].outcome in {"accepted", "rejected", "error", "uncertain"} then Some(log[i].outcome)
               else Some("uncertain")
  {
    if i < |log| - 1 { LastMentionCounts(log[..|log| - 1], id, i); }
  }

  // ----- One submission -----

  datatype Request = Request(id: string, head: string, valid: bool)

  datatype Check = Check(status: string, conclusion: string)

  /** A call answers, is refused as malformed, times out, or fails otherwise. */
  datatype Reply<T> = Answer(value: T) | Malformed | Timeout | Failed

  datatype PullRequest = PullRequest(headSha: string, author: string)

  /** Everything GitHub says during one submission. */
  datatype Replies = Replies(pull: Reply<PullRequest>, checks: Reply<seq<Check>>, review: Reply<()>)

  predicate Passed(checks: seq<Check>) {
    checks != [] && forall i :: 0 <= i < |checks| ==>
      Lower(checks[i].status) == "completed" && Lower(checks[i].conclusion) == "success"
  }

  predicate GatesPass(r: Request, reviewer: string, replies: Replies) {
    && replies.pull.Answer? && replies.pull.value.headSha == r.head
    && Lower(replies.pull.value.author) != Lower(reviewer)
    && replies.checks.Answer? && Passed(replies.checks.value)
  }

  datatype Effect = Append(record: Record) | CallReview(id: string)

  function OutcomeOfReply<T>(r: Reply<T>): string {
    if r.Answer? then "accepted" else if r.Malformed? then "rejected" else "uncertain"
  }

  /** The outcome recorded when no review is created. */
  function GateOutcome(r: Request, reviewer: string, replies: Replies): string {
    if !replies.pull.Answer? then OutcomeOfReply(replies.pull)
    else if replies.pull.value.headSha != r.head || Lower(replies.pull.value.author) == Lower(reviewer) then "rejected"
    else if !replies.checks.Answer? then OutcomeOfReply(replies.checks)
    else "rejected"
  }

  datatype Refusal = InvalidRequest | CorruptLog | Replayed(prior: string)
  datatype Submission = Submitted(outcome: string) | Refused(why: Refusal) | Killed

  /** Whether the submission gets as far as reserving. */
  function Admission(log: Log, r: Request): Option<Refusal> {
    if !r.valid then Some(InvalidRequest)
    else if Torn in log then Some(CorruptLog)
    else if PriorOutcome(log, r.id).Some? then Some(Replayed(PriorOutcome(log, r.id).value))
    else None
  }

  /** A request is let through exactly when it is valid, the log parses, and no line of it mentions the request. */
  lemma AdmissionExactly(log: Log, r: Request)
    ensures Admission(log, r).None?
            <==> r.valid && forall i :: 0 <= i < |log| ==>
                   log[i] != Torn && log[i] != Reservation(r.id) && !(log[i].Result? && log[i].id == r.id)
  {
    PriorExactly(log, r.id);
  }

  function Effects(log: Log, r: Request, reviewer: string, replies: Replies): seq<Effect> {
    if Admission(log, r).Some? then []
    else if GatesPass(r, reviewer, replies) then
      [Append(Reservation(r.id)), CallReview(r.id), Append(Result(r.id, OutcomeOfReply(replies.review)))]
    else [Append(Reservation(r.id)), Append(Result(r.id, GateOutcome(r, reviewer, replies)))]
  }

  /** The durable log, whether its last line has ended, and the reviews GitHub was ever asked to create. */
  datatype World = World(log: Log, ended: bool, calls: seq<string>)

  /** One more line. After a line that has not ended it makes one line with it that does not parse. */
  function Extend(log: Log, ended: bool, record: Record): Log {
    if ended || log == [] then log + [record] else log[..|log| - 1] + [Torn]
  }

  function Perform(w: World, e: Effect): World {
    match e
    case Append(record) => World(Extend(w.log, w.ended, record), true, w.calls)
    case CallReview(id) => w.(calls := w.calls + [id])
  }

  function PerformAll(w: World, es: seq<Effect>): World {
    if es == [] then w else Perform(PerformAll(w, es[..|es| - 1]), es[|es| - 1])
  }

  /** What a kill leaves of the line that was to come next. */
  datatype Tear = Nothing | PartOfLine | AllButFeed

  function Teared(w: World, record: Record, tear: Tear): World {
    match tear
    case Nothing => w
    case PartOfLine => World(Extend(w.log, w.ended, Torn), false, w.calls)
    case AllButFeed => World(Extend(w.log, w.ended, record), false, w.calls)
  }

  /** Killed after `kill` effects, with `tear` left of the append that was next, if one was. */
  datatype Attempt = Attempt(r: Request, replies: Replies, kill: nat, tear: Tear)

  function Exec(w: World, a: Attempt, reviewer: string): World {
    var es := Effects(w.log, a.r, reviewer, a.replies);
    if a.kill >= |es| then PerformAll(w, es)
    else
      var w' := PerformAll(w, es[..a.kill]);
      if es[a.kill].Append? then Teared(w', es[a.kill].record, a.tear) else w'
  }

  function Run(w: World, run: seq<Attempt>, reviewer: string): World
    decreases |run|
  {
    if run == [] then w else Run(Exec(w, run[0], reviewer), run[1..], reviewer)
  }

  // ----- At most once -----

  function Calls(calls: seq<string>, id: string): nat {
    if calls == [] then 0 else (if calls[|calls| - 1] == id then 1 else 0) + Calls(calls[..|calls| - 1], id)
  }

  /** Whatever was called was called once, and the log mentions it or does not parse. */
  ghost predicate CallsLogged(w: World) {
    forall id :: Calls(w.calls, id) <= (if Covered(w.log, id) then 1 else 0)
  }

  /** No further submission for this id gets as far as reserving. */
  predicate Covered(log: Log, id: string) {
    PriorOutcome(log, id).Some? || Torn in log
  }

  lemma PriorSnoc(log: Log, r: Record, id: string)
    ensures PriorOutcome(log + [r], id) == Note(r, id, PriorOutcome(log, id))
  {
    assert (log + [r])[..|log|] == log;
  }

  lemma CallsSnoc(calls: seq<string>, c: string, id: string)
    ensures Calls(calls + [c], id) == Calls(calls, id) + if c == id then 1 else 0
  {
    assert (calls + [c])[..|calls|] == calls;
  }

  /** A line more covers what was covered, and what it reserves. */
  lemma ExtendCovers(log: Log, ended: bool, record: Record, id: string)
    ensures Covered(log, id) ==> Covered(Extend(log, ended, record), id)
    ensures record == Reservation(id) ==> Covered(Extend(log, ended, record), id)
  {
    PriorSnoc(log, record, id);
    if !(ended || log == []) {
      assert Extend(log, ended, record)[|log| - 1] == Torn;
    }
  }

  lemma AppendKeeps(w: World, record: Record, ended: bool)
    requires CallsLogged(w)
    ensures CallsLogged(World(Extend(w.log, w.ended, record), ended, w.calls))
  {
    forall id ensures Calls(w.calls, id) <= (if Covered(Extend(w.log, w.ended, record), id) then 1 else 0) {
      ExtendCovers(w.log, w.ended, record, id);
    }
  }

  /** A reservation makes room for exactly one call. */
  lemma ReserveThenCall(w: World, r: string)
    requires CallsLogged(w) && !Covered(w.log, r)
    ensures CallsLogged(World(Extend(w.log, w.ended, Reservation(r)), true, w.calls + [r]))
  {
    var log := Extend(w.log, w.ended, Reservation(r));
    forall id ensures Calls(w.calls + [r], id) <= (if Covered(log, id) then 1 else 0) {
      ExtendCovers(w.log, w.ended, Reservation(r), id);
      CallsSnoc(w.calls, r, id);
    }
  }

  lemma PerformPrefix(w: World, es: seq<Effect>, k: nat)
    requires k < |es|
    ensures PerformAll(w, es[..k + 1]) == Perform(PerformAll(w, es[..k]), es[k])
  {
    assert es[..k + 1][..k] == es[..k];
  }

  /** The one call comes right after the reservation, for a request the log did not cover. */
  lemma CallFollowsReservation(w: World, r: Request, reviewer: string, replies: Replies, k: nat)
    requires var es := Effects(w.log, r, reviewer, replies); k < |es| && es[k].CallReview?
    ensures !Covered(w.log, r.id) && Effects(w.log, r, reviewer, replies)[k] == CallReview(r.id)
    ensures PerformAll(w, Effects(w.log, r, reviewer, replies)[..k]) == Perform(w, Append(Reservation(r.id)))
  {
    var es := Effects(w.log, r, reviewer, replies);
    assert k == 1 && es[..1] == [es[0]] && [es[0]][..0] == [];
    assert PerformAll(w, []) == w;
  }

  lemma {:induction false} PrefixKeeps(w: World, r: Request, reviewer: string, replies: Replies, k: nat)
    requires CallsLogged(w) && k <= |Effects(w.log, r, reviewer, replies)|
    ensures CallsLogged(PerformAll(w, Effects(w.log, r, reviewer, replies)[..k]))
  {
    var es := Effects(w.log, r, reviewer, replies);
    if k > 0 {
      PerformPrefix(w, es, k - 1);
      if es[k - 1].CallReview? {
        CallFollowsReservation(w, r, reviewer, replies, k - 1);
        ReserveThenCall(w, r.id);
      } else {
        PrefixKeeps(w, r, reviewer, replies, k - 1);
        AppendKeeps(PerformAll(w, es[..k - 1]), es[k - 1].record, true);
      }
    }
  }

  lemma ExecKeeps(w: World, a: Attempt, reviewer: string)
    requires CallsLogged(w)
    ensures CallsLogged(Exec(w, a, reviewer))
  {
    var es := Effects(w.log, a.r, reviewer, a.replies);
    if a.kill >= |es| {
      PrefixKeeps(w, a.r, reviewer, a.replies, |es|);
      assert es[..|es|] == es;
    } else {
      PrefixKeeps(w, a.r, reviewer, a.replies, a.kill);
      if es[a.kill].Append? {
        AppendKeeps(PerformAll(w, es[..a.kill]), if a.tear.PartOfLine? then Torn else es[a.kill].record, false);
      }
    }
  }

  lemma {:induction false} RunKeeps(w: World, run: seq<Attempt>, reviewer: string)
    requires CallsLogged(w)
    ensures CallsLogged(Run(w, run, reviewer))
    decreases |run|
  {
    if run != [] {
      ExecKeeps(w, run[0], reviewer);
      RunKeeps(Exec(w, run[0], reviewer), run[1..], reviewer);
    }
  }

  /**
    Over any run of submissions, retries, kills and torn lines, whatever GitHub
    answers and whatever the log held before, a review is created at most once per
    request id; its outcome is on record as long as the log parses, and every id that
    was called is refused from then on.
  */
  lemma ReviewCreatedAtMostOnce(log: Log, ended: bool, run: seq<Attempt>, reviewer: string, again: Request)
    ensures var w := Run(World(log, ended, []), run, reviewer);
            && Calls(w.calls, again.id) <= 1
            && (Calls(w.calls, again.id) == 1 && Torn !in w.log ==> PriorOutcome(w.log, again.id).Some?)
            && (Calls(w.calls, again.id) == 1 ==> Admission(w.log, again).Some?)
  {
    RunKeeps(World(log, ended, []), run, reviewer);
    var w := Run(World(log, ended, []), run, reviewer);
    assert Calls(w.calls, again.id) <= (if Covered(w.log, again.id) then 1 else 0);
  }

  /**
    The record can be lost: after a line without its line feed, the reservation of the
    next request runs on into it, its review is created, and the log no longer parses.
  */
  lemma LostFeedHidesTheCall(r: Request, broken: Request, reviewer: string, replies: Replies)
    requires r.valid && broken.valid && r.id != broken.id && GatesPass(r, reviewer, replies)
    ensures var run := [Attempt(broken, replies, 0, AllButFeed), Attempt(r, replies, 2, Nothing)];
            Run(World([], true, []), run, reviewer) == World([Torn], true, [r.id])
  {
    var first, second := Attempt(broken, replies, 0, AllButFeed), Attempt(r, replies, 2, Nothing);
    var w, w1 := World([], true, []), World([Reservation(broken.id)], false, []);
    var es := Effects(w1.log, r, reviewer, replies);
    assert [] + [Reservation(broken.id)] == [Reservation(broken.id)];
    assert Exec(w, first, reviewer) == w1;
    PriorSnoc([], Reservation(broken.id), r.id);
    assert es[..2] == [Append(Reservation(r.id)), CallReview(r.id)];
    PerformTwo(w1, Append(Reservation(r.id)), CallReview(r.id));
    assert [] + [Torn] == [Torn] && [] + [r.id] == [r.id];
    assert Exec(w1, second, reviewer) == World([Torn], true, [r.id]);
    assert [first, second][1..] == [second] && [second][1..] == [];
    assert Run(w1, [second], reviewer) == Run(Exec(w1, second, reviewer), [], reviewer);
  }

  /** A torn line stops the broker: nothing later appends or calls. */
  lemma {:induction false} TornLogStops(w: World, run: seq<Attempt>, reviewer: string)
    requires Torn in w.log
    ensures Run(w, run, reviewer) == w
    decreases |run|
  {
    if run != [] {
      assert Exec(w, run[0], reviewer) == w;
      TornLogStops(w, run[1..], reviewer);
    }
  }

  lemma PerformSnoc(w: World, es: seq<Effect>, e: Effect)
    ensures PerformAll(w, es + [e]) == Perform(PerformAll(w, es), e)
  {
    assert (es + [e])[..|es|] == es;
  }

  lemma PerformTwo(w: World, a: Effect, b: Effect)
    ensures PerformAll(w, [a, b]) == Perform(Perform(w, a), b)
  {
    PerformSnoc(w, [], a);
    PerformSnoc(w, [a], b);
    assert [] + [a] == [a] && [a] + [b] == [a, b];
  }

  lemma PerformThree(w: World, a: Effect, b: Effect, c: Effect)
    ensures PerformAll(w, [a, b, c]) == Perform(Perform(Perform(w, a), b), c)
  {
    PerformTwo(w, a, b);
    PerformSnoc(w, [a, b], c);
    assert [a, b] + [c] == [a, b, c];
  }

  /** A submission that fails a gate is not reported as accepted. */
  lemma GatesAreTold(r: Request, reviewer: string, replies: Replies)
    requires !GatesPass(r, reviewer, replies)
    ensures GateOutcome(r, reviewer, replies) != "accepted"
  {
  }

  lemma PassedIs(r: Request, reviewer: string, replies: Replies)
    ensures GatesPass(r, reviewer, replies)
            <==> && replies.pull.Answer? && replies.pull.value.headSha == r.head
                 && Lower(replies.pull.value.author) != Lower(reviewer)
                 && replies.checks.Answer? && replies.checks.value != []
                 && forall c :: c in replies.checks.value ==>
                      Lower(c.status) == "completed" && Lower(c.conclusion) == "success"
  {
    if replies.checks.Answer? {
      var checks := replies.checks.value;
      forall i | 0 <= i < |checks| ensures checks[i] in checks {
      }
    }
  }

  /** An unbroken submission leaves a truthful last word and calls only past the gates. */
  lemma CompletedSubmissionIsTruthful(w: World, r: Request, reviewer: string, replies: Replies)
    requires Admission(w.log, r).None?
    ensures var w' := PerformAll(w, Effects(w.log, r, reviewer, replies));
            var known := replies.pull.Answer? && replies.pull.value.headSha == r.head
                         && Lower(replies.pull.value.author) != Lower(reviewer);
            var passed := known && replies.checks.Answer? && replies.checks.value != []
                          && forall c :: c in replies.checks.value ==>
                               Lower(c.status) == "completed" && Lower(c.conclusion) == "success";
            var unanswered := (replies.pull.Timeout? || replies.pull.Failed?)
                              || (known && (replies.checks.Timeout? || replies.checks.Failed?))
                              || (passed && (replies.review.Timeout? || replies.review.Failed?));
            && (Calls(w'.calls, r.id) == Calls(w.calls, r.id) + if passed then 1 else 0)
            && PriorOutcome(w'.log, r.id) == Some(if passed && replies.review.Answer? then "accepted"
                                                  else if unanswered then "uncertain" else "rejected")
  {
    PassedIs(r, reviewer, replies);
    var reserve := Append(Reservation(r.id));
    if GatesPass(r, reviewer, replies) {
      var outcome := OutcomeOfReply(replies.review);
      assert Effects(w.log, r, reviewer, replies) == [reserve, CallReview(r.id), Append(Result(r.id, outcome))];
      PerformThree(w, reserve, CallReview(r.id), Append(Result(r.id, outcome)));
      ResultIsLastWord(Perform(Perform(w, reserve), CallReview(r.id)), r.id, outcome);
      CallsSnoc(w.calls, r.id, r.id);
    } else {
      var outcome := GateOutcome(r, reviewer, replies);
      assert Effects(w.log, r, reviewer, replies) == [reserve, Append(Result(r.id, outcome))];
      PerformTwo(w, reserve, Append(Result(r.id, outcome)));
      ResultIsLastWord(Perform(w, reserve), r.id, outcome);
      GatesAreTold(r, reviewer, replies);
    }
  }

  /** A result appended on a line of its own is the last word about its request. */
  lemma ResultIsLastWord(w: World, id: string, outcome: string)
    requires w.ended
    ensures var w' := Perform(w, Append(Result(id, outcome)));
            w'.calls == w.calls
            && PriorOutcome(w'.log, id) == Some(if outcome in TERMINAL then outcome else "uncertain")
  {
    PriorSnoc(w.log, Result(id, outcome), id);
  }

  /** A submission that is stopped by a gate, killed anywhere. */
  lemma StoppedIs(w: World, a: Attempt, reviewer: string)
    requires Admission(w.log, a.r).None? && !GatesPass(a.r, reviewer, a.replies)
    ensures var reserved := Perform(w, Append(Reservation(a.r.id)));
            var result := Result(a.r.id, GateOutcome(a.r, reviewer, a.replies));
            && |Effects(w.log, a.r, reviewer, a.replies)| == 2
            && Exec(w, a, reviewer) == if a.kill == 0 then Teared(w, Reservation(a.r.id), a.tear)
                                       else if a.kill == 1 then Teared(reserved, result, a.tear)
                                       else Perform(reserved, Append(result))
  {
    var reserve, result := Append(Reservation(a.r.id)), Append(Result(a.r.id, GateOutcome(a.r, reviewer, a.replies)));
    var es := [reserve, result];
    assert Effects(w.log, a.r, reviewer, a.replies) == es;
    PerformTwo(w, reserve, result);
    PerformSnoc(w, [], reserve);
    assert es[..0] == [] && es[..1] == [] + [reserve];
  }

  /** A submission that passes the gates, killed anywhere. */
  lemma PassedOnIs(w: World, a: Attempt, reviewer: string)
    requires Admission(w.log, a.r).None? && GatesPass(a.r, reviewer, a.replies)
    ensures var reserved := Perform(w, Append(Reservation(a.r.id)));
            var called := Perform(reserved, CallReview(a.r.id));
            var result := Result(a.r.id, OutcomeOfReply(a.replies.review));
            && |Effects(w.log, a.r, reviewer, a.replies)| == 3
            && Exec(w, a, reviewer) == if a.kill == 0 then Teared(w, Reservation(a.r.id), a.tear)
                                       else if a.kill == 1 then reserved
                                       else if a.kill == 2 then Teared(called, result, a.tear)
                                       else Perform(called, Append(result))
  {
    var reserve, call := Append(Reservation(a.r.id)), CallReview(a.r.id);
    var result := Append(Result(a.r.id, OutcomeOfReply(a.replies.review)));
    var es := [reserve, call, result];
    assert Effects(w.log, a.r, reviewer, a.replies) == es;
    PerformThree(w, reserve, call, result);
    PerformTwo(w, reserve, call);
    PerformSnoc(w, [], reserve);
    assert es[..0] == [] && es[..1] == [] + [reserve] && es[..2] == [reserve, call];
  }

  // ----- The broker -----

  class Broker {
    const reviewer: string
    var log: Log
    var ended: bool
    var calls: seq<string>

    ghost function View(): World
      reads this
    {
      World(log, ended, calls)
    }

    constructor (reviewer: string, log: Log, ended: bool)
      ensures View() == World(log, ended, []) && this.reviewer == reviewer
    {
      this.reviewer, this.log, this.ended, this.calls := reviewer, log, ended, [];
    }

    /** `_append`: one line at the end of the file, or what the kill leaves of it. */
    method AppendLine(record: Record, left: nat, tear: Tear) returns (done: bool)
      modifies `log, `ended
      ensures done <==> left > 0
      ensures View() == if done then Perform(old(View()), Append(record)) else Teared(old(View()), record, tear)
    {
      done := left > 0;
      if !done && tear.Nothing? { return; }
      var line := if !done && tear.PartOfLine? then Torn else record;
      log := if ended || log == [] then log + [line] else log[..|log| - 1] + [Torn];
      ended := done;
    }

    /** Whether anything stops the request before it is reserved. */
    method Admit(r: Request) returns (refusal: Option<Refusal>)
      ensures refusal == Admission(log, r)
    {
      if !r.valid { return Some(InvalidRequest); }
      if Torn in log { return Some(CorruptLog); }
      var prior := ScanPrior(log, r.id);
      refusal := if prior.Some? then Some(Replayed(prior.value)) else None;
    }

    /** The gates, in order: what to record when one of them stops the review, and nothing otherwise. */
    method AskGates(r: Request, replies: Replies) returns (outcome: string)
      ensures outcome == if GatesPass(r, reviewer, replies) then "" else GateOutcome(r, reviewer, replies)
      ensures outcome == "" || outcome in TERMINAL
    {
      if !replies.pull.Answer? {
        outcome := OutcomeOfReply(replies.pull);
      } else if replies.pull.value.headSha != r.head {
        outcome := "rejected";
      } else if Lower(replies.pull.value.author) == Lower(reviewer) {
        outcome := "rejected";
      } else if !replies.checks.Answer? {
        outcome := OutcomeOfReply(replies.checks);
      } else if !Passed(replies.checks.value) {
        outcome := "rejected";
      } else {
        outcome := "";
      }
    }

    /** Records how the submission ended. */
    method Conclude(id: string, outcome: string, left: nat, tear: Tear) returns (s: Submission)
      requires ended && outcome in TERMINAL
      modifies `log, `ended
      ensures View() == if left > 0 then Perform(old(View()), Append(Result(id, outcome)))
                        else Teared(old(View()), Result(id, outcome), tear)
      ensures if left > 0 then s == Submitted(outcome) && PriorOutcome(log, id) == Some(outcome) else s == Killed
    {
      ResultIsLastWord(View(), id, outcome);
      var done := AppendLine(Result(id, outcome), left, tear);
      s := if done then Submitted(outcome) else Killed;
    }

    /** One submission, killed once `kill` effects have been done. */
    method SubmitReview(r: Request, replies: Replies, kill: nat, tear: Tear) returns (s: Submission)
      modifies `log, `ended, `calls
      ensures View() == Exec(old(View()), Attempt(r, replies, kill, tear), reviewer)
      ensures Admission(old(log), r).Some? ==> s == Refused(Admission(old(log), r).value)
      ensures Admission(old(log), r).None? ==>
                if kill < |Effects(old(log), r, reviewer, replies)| then s == Killed
                else s.Submitted? && PriorOutcome(log, r.id) == Some(s.outcome)
      ensures CallsLogged(old(View())) ==> CallsLogged(View())
    {
      ghost var w, a := View(), Attempt(r, replies, kill, tear);
      if CallsLogged(w) { ExecKeeps(w, a, reviewer); }
      var refusal := Admit(r);
      if refusal.Some? { return Refused(refusal.value); }
      if GatesPass(r, reviewer, replies) { PassedOnIs(w, a, reviewer); } else { StoppedIs(w, a, reviewer); }
      var done := AppendLine(Reservation(r.id), kill, tear);
      if !done { return Killed; }
      var left := kill - 1;
      var outcome := AskGates(r, replies);
      if outcome == "" {
        if left == 0 { return Killed; }
        calls, left := calls + [r.id], left - 1;
        outcome := OutcomeOfReply(replies.review);
      }
      s := Conclude(r.id, outcome, left, tear);
    }
  }
}
