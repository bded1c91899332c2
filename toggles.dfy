/**
 * Two small toggles of src/pages/Journey.jsx: the province highlight of
 * `SumatraMap` and the interview player of the field-notes section
 * (`handleInterview`).
 */
module Toggles {
  import opened Wrappers

  // ---------------------------------------------------------------------------
  // Province highlight

  /** A click on a province: `a === p.id ? null : p.id`. */
  function ClickProvince(active: Option<string>, id: string): Option<string>
  {
    if active == Some(id) then None else Some(id)
  }

  /** Hovering onto a province highlights it. */
  function HoverStart(id: string): Option<string>
  {
    Some(id)
  }

  /** Hovering off any province clears the highlight. */
  function HoverEnd(): Option<string>
  {
    None
  }

  /** Whether province `id` is drawn highlighted (`isAct`). */
  predicate IsActive(active: Option<string>, id: string)
  {
    active == Some(id)
  }

  /**
   * A click highlights the province exactly when it was not highlighted and
   * otherwise clears the highlight; every other province ends up not
   * highlighted.
   */
  lemma ClickProvinceToggles(active: Option<string>, id: string, other: string)
    requires other != id
    ensures IsActive(ClickProvince(active, id), id) <==> !IsActive(active, id)
    ensures ClickProvince(active, id).None? <==> IsActive(active, id)
    ensures !IsActive(ClickProvince(active, id), other)
  {
  }

  /** Hovering onto a province highlights it alone; hovering off leaves none highlighted. */
  lemma HoverHighlights(id: string, other: string)
    requires other != id
    ensures IsActive(HoverStart(id), id) && !IsActive(HoverStart(id), other)
    ensures !IsActive(HoverEnd(), id)
  {
  }

  /** Two clicks on the same province restore a highlight that was this province or none. */
  lemma ClickProvinceTwice(active: Option<string>, id: string)
    requires active == None || active == Some(id)
    ensures ClickProvince(ClickProvince(active, id), id) == active
  {
  }

  // ---------------------------------------------------------------------------
  // Interview player

  /** `setTimeout(() => setInterview(null), 15000)` */
  const InterviewTimeout: int := 15000

  /**
   * The interview section: the `interview` state, the time the current one
   * started, whether the shared audio is playing, and the due times of the
   * clearing timers still pending.
   */
  datatype Interviews = Interviews(current: Option<string>, startedAt: int, playing: bool, timers: seq<int>)

  const NoInterview: Interviews := Interviews(None, 0, false, [])

  /** `handleInterview(id)` at time `now`, as written: every start adds a timer and none is cancelled. */
  function HandleInterviewAsWritten(s: Interviews, id: string, now: int): (r: Interviews)
  {
    if s.current == Some(id) then s.(current := None, playing := false)
    else Interviews(Some(id), now, true, s.timers + [now + InterviewTimeout])
  }

  /**
   * `handleInterview(id)` with the pending timer cancelled whenever the
   * selection changes, so only the current interview's own timer is pending.
   */
  function HandleInterview(s: Interviews, id: string, now: int): (r: Interviews)
  {
    if s.current == Some(id) then s.(current := None, playing := false, timers := [])
    else Interviews(Some(id), now, true, [now + InterviewTimeout])
  }

  /** Pending timer `k` fires: it clears the interview state (the audio is not stopped). */
  function TimerFires(s: Interviews, k: int): (r: Interviews)
    requires 0 <= k < |s.timers|
    ensures r.current == None && |r.timers| == |s.timers| - 1
    ensures multiset(r.timers) + multiset{s.timers[k]} == multiset(s.timers)
  {
    assert s.timers == s.timers[..k] + [s.timers[k]] + s.timers[k + 1..];
    s.(current := None, timers := s.timers[..k] + s.timers[k + 1..])
  }

  /**
   * Between events: at most one timer is pending, and it belongs to the
   * interview that is on and falls due 15 s after that one started.
   */
  predicate TimersOwned(s: Interviews)
  {
    && |s.timers| <= 1
    && forall k :: 0 <= k < |s.timers| ==> s.current.Some? && s.timers[k] == s.startedAt + InterviewTimeout
  }

  /** A click on the interview that is on stops it; a click on another one starts that one. */
  lemma HandleInterviewToggles(s: Interviews, id: string, now: int)
    ensures HandleInterview(s, id, now).current == (if s.current == Some(id) then None else Some(id))
    ensures HandleInterview(s, id, now).playing <==> s.current != Some(id)
    ensures HandleInterviewAsWritten(s, id, now).current == HandleInterview(s, id, now).current
  {
  }

  /** With cancelling, a click keeps the pending timer owned by the interview that is on. */
  lemma ClickKeepsTimersOwned(s: Interviews, id: string, now: int)
    requires TimersOwned(s)
    ensures TimersOwned(HandleInterview(s, id, now))
  {
  }

  /** A timer firing leaves no timer pending when at most one was. */
  lemma FireKeepsTimersOwned(s: Interviews, k: int)
    requires TimersOwned(s)
    requires 0 <= k < |s.timers|
    ensures TimersOwned(TimerFires(s, k))
  {
  }

  /** What can happen in the section: a click on an interview at some time, or pending timer `k` firing. */
  datatype Event = Click(id: string, now: int) | Fire(k: nat)

  /** One event, with cancelling; a `Fire` of a timer that is not pending changes nothing. */
  function Step(s: Interviews, e: Event): Interviews
  {
    match e
    case Click(id, now) => HandleInterview(s, id, now)
    case Fire(k) => if k < |s.timers| then TimerFires(s, k) else s
  }

  /** The state after a sequence of events. */
  function Run(s: Interviews, es: seq<Event>): Interviews
  {
    if es == [] then s else Step(Run(s, es[..|es| - 1]), es[|es| - 1])
  }

  /** Every state the section can reach keeps its pending timer owned by the interview that is on. */
  lemma {:induction false} RunKeepsTimersOwned(es: seq<Event>)
    ensures TimersOwned(Run(NoInterview, es))
  {
    if es != [] {
      var s := Run(NoInterview, es[..|es| - 1]);
      RunKeepsTimersOwned(es[..|es| - 1]);
      match es[|es| - 1]
      case Click(id, now) =>
        ClickKeepsTimersOwned(s, id, now);
      case Fire(k) =>
        if k < |s.timers| {
          FireKeepsTimersOwned(s, k);
        }
    }
  }

  /**
   * With cancelling, in every reachable state a timer that fires clears the
   * interview it was set for, 15 s after that interview started.
   */
  lemma TimerClearsOnlyItsOwnInterview(es: seq<Event>, k: int)
    requires 0 <= k < |Run(NoInterview, es).timers|
    ensures var s := Run(NoInterview, es);
            s.current.Some? && s.timers[k] == s.startedAt + InterviewTimeout
  {
    RunKeepsTimersOwned(es);
  }

  /**
   * As written, a timer left from an earlier interview clears a later one:
   * start "a" at 0 ms, switch to "b" at 10 000 ms, and the timer of "a" clears
   * "b" at 15 000 ms, 5 s after "b" started.
   */
  lemma StaleTimerClearsNewInterview()
    ensures var s := HandleInterviewAsWritten(HandleInterviewAsWritten(NoInterview, "a", 0), "b", 10000);
            && s.current == Some("b") && s.startedAt == 10000
            && |s.timers| == 2 && s.timers[0] == 15000
            && TimerFires(s, 0).current == None
            && s.timers[0] < s.startedAt + InterviewTimeout
            && !TimersOwned(s)
  {
    var s1 := HandleInterviewAsWritten(NoInterview, "a", 0);
    assert s1.timers == [15000];
    var s := HandleInterviewAsWritten(s1, "b", 10000);
    assert s.timers == [15000, 25000];
  }
}
