/** Pairing: requests that expire, codes used once, and a lockout; time is an argument. */
module Pairing {
  import opened Basics

  const REQUEST_TTL := 180
  const MAX_FAILED := 5
  const LOCKOUT := 300

  datatype Request = Request(device: Text, code: Text, expiresAt: nat)

  datatype Outcome = Granted(device: Text) | Rejected | LockedOut(retryAfter: nat)

  datatype State = State(requests: map<Text, Request>, failed: nat, lockedUntil: nat)

  const FRESH := State(map[], 0, 0)

  /** What happened: a device asked, the user typed and was answered, a device was forgotten. */
  datatype Event =
    | Requested(device: Text, code: Text, now: nat)
    | Entered(code: Text, now: nat, outcome: Outcome)
    | Cancelled(device: Text)

  /** Exactly six decimal digits. */
  predicate IsValidCode(code: Text) {
    |code| == 6 && forall i :: 0 <= i < 6 ==> 48 <= code[i] <= 57
  }

  function Unexpired(requests: map<Text, Request>, now: nat): map<Text, Request> {
    map d | d in requests && requests[d].expiresAt > now :: requests[d]
  }

  /** The request of `device` is open at `now` and carries this code. */
  predicate Presents(s: State, device: Text, code: Text, now: nat) {
    device in s.requests && s.requests[device].expiresAt > now && s.requests[device].code == code
  }

  /** Whether this is how the state answers; which of several matching devices is found is left open. */
  ghost predicate Allowed(s: State, e: Event) {
    match e
    case Entered(code, now, outcome) =>
      if now < s.lockedUntil then outcome == LockedOut(s.lockedUntil - now)
      else (match outcome
            case Granted(device) => Presents(s, device, code, now)
            case Rejected => (forall d :: !Presents(s, d, code, now)) && s.failed + 1 < MAX_FAILED
            case LockedOut(n) => (forall d :: !Presents(s, d, code, now)) && s.failed + 1 >= MAX_FAILED && n == LOCKOUT)
    case _ => true
  }

  function After(s: State, e: Event): State {
    match e
    case Requested(device, code, now) =>
      if !IsValidCode(code) then s
      else s.(requests := Unexpired(s.requests, now)[device := Request(device, code, now + REQUEST_TTL)])
    case Entered(code, now, outcome) =>
      if now < s.lockedUntil then s
      else
        var open := Unexpired(s.requests, now);
        (match outcome
         case Granted(device) => State(open - {device}, 0, s.lockedUntil)
         case Rejected => State(open, s.failed + 1, s.lockedUntil)
         case LockedOut(_) => State(open, 0, now + LOCKOUT))
    case Cancelled(device) => s.(requests := s.requests - {device})
  }

  ghost predicate IsRun(s: State, events: seq<Event>) {
    events == [] ||
    (var n := |events| - 1; IsRun(s, events[..n]) && Allowed(End(s, events[..n]), events[n]))
  }

  function End(s: State, events: seq<Event>): State {
    if events == [] then s else After(End(s, events[..|events| - 1]), events[|events| - 1])
  }

  // ---------------------------------------------------------------- what is always so

  function Ten(k: nat): nat { if k == 0 then 1 else 10 * Ten(k - 1) }

  /** The last `k` decimal digits of a number, leading zeros and all. */
  function Decimal(n: nat, k: nat): (s: Text)
    ensures |s| == k
  {
    if k == 0 then [] else Decimal(n / 10, k - 1) + [48 + n % 10]
  }

  /** The codes are the numbers below a million, each written with six digits. */
  lemma ValidCodeIff(code: Text)
    ensures IsValidCode(code) <==> exists n: nat :: n < 1_000_000 && code == Decimal(n, 6)
  {
    hide Decimal;
    assert Ten(6) == 1_000_000 by { assert Ten(3) == 1000; }
    if IsValidCode(code) { var n := NumberOf(code); }
    if n: nat :| n < 1_000_000 && code == Decimal(n, 6) { DecimalDigits(n, 6); }
  }

  lemma {:induction false} NumberOf(code: Text) returns (n: nat)
    requires forall i :: 0 <= i < |code| ==> 48 <= code[i] <= 57
    ensures n < Ten(|code|) && code == Decimal(n, |code|)
    decreases |code|
  {
    if code == [] {
      n := 0;
    } else {
      var m := |code| - 1;
      var high: int := NumberOf(code[..m]);
      var last: int := code[m] - 48;
      n := high * 10 + last;
      assert n / 10 == high && n % 10 == last;
      assert code == code[..m] + [code[m]];
    }
  }

  lemma {:induction false} DecimalDigits(n: nat, k: nat)
    ensures forall i :: 0 <= i < k ==> 48 <= Decimal(n, k)[i] <= 57
  {
    if k > 0 { DecimalDigits(n / 10, k - 1); }
  }

  /** Whatever is typed, and whenever, there is an answer; a request and a cancellation are always taken. */
  lemma AlwaysAnswered(s: State, e: Event)
    ensures !e.Entered? ==> Allowed(s, e)
    ensures e.Entered? ==> exists outcome :: Allowed(s, e.(outcome := outcome))
  {
    if e.Entered? {
      var answer := if e.now < s.lockedUntil then LockedOut(s.lockedUntil - e.now)
                    else if d :| Presents(s, d, e.code, e.now) then Granted(d)
                    else if s.failed + 1 < MAX_FAILED then Rejected else LockedOut(LOCKOUT);
      assert Allowed(s, e.(outcome := answer));
    }
  }

  /** A lockout answer says how long it lasts: until then every code is answered so, and not after. */
  lemma LockoutIsTold(s: State, code: Text, now: nat, n: nat, later: nat, code': Text, outcome: Outcome)
    requires Allowed(s, Entered(code, now, LockedOut(n))) && now <= later
    requires var s' := After(s, Entered(code, now, LockedOut(n)));
             Allowed(s', Entered(code', later, outcome)) && (later >= now + n ==> s'.failed + 1 < MAX_FAILED)
    ensures outcome.LockedOut? <==> later < now + n
  {}

  /** What has expired is forgotten when a code is requested or typed. */
  lemma ExpiredIsForgotten(s: State, e: Event, device: Text)
    requires !e.Cancelled? && (e.Requested? ==> IsValidCode(e.code)) && (e.Entered? ==> e.now >= s.lockedUntil)
    requires device in After(s, e).requests
    ensures After(s, e).requests[device].expiresAt > e.now
  {}

  // ---------------------------------------------------------------- the limits, in numbers

  /** Codes entered from `from` on, none of which a pending request carries when it is entered. */
  ghost predicate WrongCodes(s: State, events: seq<Event>, from: nat) {
    && IsRun(s, events)
    && forall i :: 0 <= i < |events| ==>
         && events[i].Entered? && events[i].now >= from
         && forall d :: !Presents(End(s, events[..i]), d, events[i].code, events[i].now)
  }

  /** Nothing but wrong codes while nobody is locked out: each counts, the first four are rejected, the fifth locks. */
  lemma {:induction false} WrongCodesCount(s: State, events: seq<Event>, from: nat)
    requires WrongCodes(s, events, from) && s.failed == 0 && s.lockedUntil <= from && |events| <= 5
    ensures |events| <= 4 ==> End(s, events).failed == |events| && End(s, events).lockedUntil == s.lockedUntil
    ensures forall i :: 0 <= i < |events| && i < 4 ==> events[i].outcome == Rejected
    ensures |events| == 5 ==> events[4].outcome == LockedOut(300) && End(s, events).lockedUntil == events[4].now + 300
    decreases |events|
  {
    if events != [] {
      var n := |events| - 1;
      var before := events[..n];
      forall i | 0 <= i < n ensures before[..i] == events[..i] && before[i] == events[i] {}
      WrongCodesCount(s, before, from);
      assert events[n].Entered? && events[n].now >= from && forall d :: !Presents(End(s, before), d, events[n].code, events[n].now);
    }
  }

  /** A grant clears the count: after it four wrong codes are rejected again, and only the fifth locks, for 300 seconds. */
  lemma GrantClearsCount(s: State, code: Text, now: nat, device: Text, wrong: seq<Event>)
    requires Allowed(s, Entered(code, now, Granted(device))) && |wrong| <= 5
    requires WrongCodes(After(s, Entered(code, now, Granted(device))), wrong, now)
    ensures forall i :: 0 <= i < |wrong| && i < 4 ==> wrong[i].outcome == Rejected
    ensures |wrong| == 5 ==> wrong[4].outcome == LockedOut(300)
  {
    hide WrongCodes;
    WrongCodesCount(After(s, Entered(code, now, Granted(device))), wrong, now);
  }

  /** A request can be granted for 180 seconds, and no longer. */
  lemma RequestLivesThreeMinutes(device: Text, code: Text, t: nat, now: nat, outcome: Outcome)
    requires IsValidCode(code) && t <= now && Allowed(After(FRESH, Requested(device, code, t)), Entered(code, now, outcome))
    ensures outcome == Granted(device) <==> now < t + 180
    ensures outcome == Rejected <==> now >= t + 180
  {
    var s := After(FRESH, Requested(device, code, t));
    assert Presents(s, device, code, now) <==> now < t + 180;
  }

  /** Every timed event lies between `from` and `to`, in order. */
  ghost predicate Timed(events: seq<Event>, from: nat, to: nat) {
    if events == [] then from <= to
    else
      var n := |events| - 1;
      var t := if events[n].Cancelled? then to else events[n].now;
      from <= t <= to && Timed(events[..n], from, t)
  }

  // ---------------------------------------------------------------- whom a code pairs

  /** The event settles what was pending for the device before. */
  predicate Touches(e: Event, device: Text) {
    match e
    case Requested(d, code, _) => d == device && IsValidCode(code)
    case Entered(_, _, outcome) => outcome == Granted(device)
    case Cancelled(d) => d == device
  }

  /** Event `at` is the device's latest request, made at `t`, not used and not cancelled since. */
  ghost predicate Open(events: seq<Event>, device: Text, at: int, code: Text, t: nat) {
    && 0 <= at < |events| && events[at] == Requested(device, code, t) && IsValidCode(code)
    && forall i :: at < i < |events| ==> !Touches(events[i], device)
  }

  ghost predicate Live(events: seq<Event>, device: Text, code: Text, now: nat) {
    exists at, t: nat :: Open(events, device, at, code, t) && t <= now < t + REQUEST_TTL
  }

  /** The table, in terms of what happened. */
  ghost predicate Explains(events: seq<Event>, table: map<Text, Request>, device: Text, now: nat) {
    && (device in table ==> exists at, code, t: nat ::
         Open(events, device, at, code, t) && t <= now && table[device] == Request(device, code, t + REQUEST_TTL))
    && (forall at, code, t: nat :: Open(events, device, at, code, t) && now < t + REQUEST_TTL ==>
         device in table && table[device] == Request(device, code, t + REQUEST_TTL))
  }

  lemma OpenGrows(events: seq<Event>, e: Event, device: Text, at: int, code: Text, t: nat)
    ensures Open(events + [e], device, at, code, t) <==>
            if at == |events| then e == Requested(device, code, t) && IsValidCode(code)
            else Open(events, device, at, code, t) && !Touches(e, device)
    ensures Open(events, device, at, code, t) ==> at < |events|
  {
    var all := events + [e];
    assert all[|events|] == e;
    if 0 <= at < |events| && Open(all, device, at, code, t) {
      assert forall i :: at < i < |events| ==> events[i] == all[i];
      assert !Touches(all[|events|], device);
    }
  }

  lemma ExplainsStep(events: seq<Event>, s: State, e: Event, device: Text, before: nat, now: nat)
    requires Allowed(s, e) && before <= now && (!e.Cancelled? ==> e.now == now)
    requires Explains(events, s.requests, device, before)
    ensures Explains(events + [e], After(s, e).requests, device, now)
  {
    hide IsValidCode, Open;
    var all, table, after := events + [e], s.requests, After(s, e).requests;
    if device in after {
      if Touches(e, device) {
        OpenGrows(events, e, device, |events|, e.code, e.now);
      } else {
        assert device in table && after[device] == table[device];
        var at, code, t: nat :| Open(events, device, at, code, t) && t <= before && table[device] == Request(device, code, t + REQUEST_TTL);
        OpenGrows(events, e, device, at, code, t);
      }
    }
    forall at, code, t: nat | Open(all, device, at, code, t) && now < t + REQUEST_TTL
      ensures device in after && after[device] == Request(device, code, t + REQUEST_TTL)
    {
      OpenGrows(events, e, device, at, code, t);
    }
  }

  lemma {:induction false} RunExplains(events: seq<Event>, device: Text, from: nat, now: nat)
    requires IsRun(FRESH, events) && Timed(events, from, now)
    ensures Explains(events, End(FRESH, events).requests, device, now)
  {
    hide Explains, Allowed, After;
    if events == [] {
      NothingExplained(device, now);
    } else {
      var n := |events| - 1;
      var t := if events[n].Cancelled? then now else events[n].now;
      RunExplains(events[..n], device, from, t);
      ExplainsStep(events[..n], End(FRESH, events[..n]), events[n], device, t, t);
      assert events == events[..n] + [events[n]];
      ExplainsLater(events, End(FRESH, events).requests, device, t, now);
    }
  }

  lemma NothingExplained(device: Text, now: nat)
    ensures Explains([], map[], device, now)
  {}

  lemma ExplainsLater(events: seq<Event>, table: map<Text, Request>, device: Text, now: nat, later: nat)
    requires Explains(events, table, device, now) && now <= later
    ensures Explains(events, table, device, later)
  {}

  /**
   * After any run in which time does not go back, and outside a lockout, a code is answered with a grant for
   * a device exactly when the device's latest request carries the code, is unexpired, and has been neither
   * used nor cancelled.
   */
  lemma GrantIff(events: seq<Event>, from: nat, device: Text, code: Text, now: nat)
    requires IsRun(FRESH, events) && Timed(events, from, now)
    requires End(FRESH, events).lockedUntil <= now
    ensures Allowed(End(FRESH, events), Entered(code, now, Granted(device))) <==> Live(events, device, code, now)
    ensures forall d :: Presents(End(FRESH, events), d, code, now) ==> Live(events, d, code, now)
  {
    hide IsRun, Timed, End, Open;
    forall d ensures Presents(End(FRESH, events), d, code, now) <==> Live(events, d, code, now) {
      RunExplains(events, d, from, now);
    }
  }

  /** Hence a code works once: a second grant to the device needs a new request after the first. */
  lemma SingleUse(events: seq<Event>, from: nat, first: nat, device: Text, code: Text, now: nat)
    requires IsRun(FRESH, events) && Timed(events, from, now) && End(FRESH, events).lockedUntil <= now
    requires first < |events| && events[first].Entered? && events[first].outcome == Granted(device)
    requires Allowed(End(FRESH, events), Entered(code, now, Granted(device)))
    ensures exists at, t: nat :: first < at < |events| && events[at] == Requested(device, code, t)
  {
    hide IsRun, Timed, End;
    GrantIff(events, from, device, code, now);
    var at, t: nat :| Open(events, device, at, code, t) && t <= now < t + REQUEST_TTL;
    assert Touches(events[first], device);
    assert events[at] == Requested(device, code, t);
  }

  // ---------------------------------------------------------------- how many guesses

  /** A code was looked up, and none matched. */
  predicate WrongGuess(s: State, e: Event) {
    e.Entered? && e.now >= s.lockedUntil && !e.outcome.Granted?
  }

  function WrongGuesses(s: State, events: seq<Event>): nat {
    if events == [] then 0
    else
      var n := |events| - 1;
      WrongGuesses(s, events[..n]) + (if WrongGuess(End(s, events[..n]), events[n]) then 1 else 0)
  }

  ghost predicate GrantFree(events: seq<Event>) {
    forall i :: 0 <= i < |events| && events[i].Entered? ==> !events[i].outcome.Granted?
  }

  /** `k` lockouts began: each takes five wrong guesses, and none is made while one lasts. */
  ghost predicate Paced(s: State, end: State, guesses: nat, k: nat, from: nat, to: nat) {
    && guesses + s.failed == MAX_FAILED * k + end.failed && end.failed < MAX_FAILED
    && (k > 0 ==> from + LOCKOUT * k <= end.lockedUntil && from + LOCKOUT * (k - 1) <= to)
    && (end.failed > 0 && guesses > 0 ==> from + LOCKOUT * k <= to)
  }

  lemma PacedStep(s: State, end: State, e: Event, guesses: nat, k: nat, from: nat, to: nat) returns (k': nat)
    requires Paced(s, end, guesses, k, from, to) && Allowed(end, e) && (e.Entered? ==> !e.outcome.Granted? && e.now == to)
    requires from <= to
    ensures Paced(s, After(end, e), guesses + (if WrongGuess(end, e) then 1 else 0), k', from, to)
  {
    k' := if WrongGuess(end, e) && e.outcome.LockedOut? then k + 1 else k;
  }

  lemma {:induction false} PacedRun(s: State, events: seq<Event>, from: nat, to: nat) returns (k: nat)
    requires s.failed < MAX_FAILED && IsRun(s, events) && Timed(events, from, to) && GrantFree(events)
    ensures Paced(s, End(s, events), WrongGuesses(s, events), k, from, to)
  {
    hide Allowed, After, WrongGuess, Paced;
    if events == [] {
      k := 0;
      assert Paced(s, s, 0, 0, from, to) by { PacedStart(s, from, to); }
    } else {
      var n := |events| - 1;
      var t := if events[n].Cancelled? then to else events[n].now;
      var j := PacedRun(s, events[..n], from, t);
      TimedBounds(events[..n], from, t);
      k := PacedStep(s, End(s, events[..n]), events[n], WrongGuesses(s, events[..n]), j, from, t);
      PacedLater(s, End(s, events), WrongGuesses(s, events), k, from, t, to);
    }
  }

  lemma PacedStart(s: State, from: nat, to: nat)
    requires s.failed < MAX_FAILED
    ensures Paced(s, s, 0, 0, from, to)
  {}

  lemma PacedLater(s: State, end: State, guesses: nat, k: nat, from: nat, to: nat, later: nat)
    requires Paced(s, end, guesses, k, from, to) && to <= later
    ensures Paced(s, end, guesses, k, from, later)
  {}

  lemma {:induction false} TimedBounds(events: seq<Event>, from: nat, to: nat)
    requires Timed(events, from, to)
    ensures from <= to
  {}

  /**
   * In a stretch of T seconds without a grant, from any state a run can be in, at most 5 * (T / 300 + 1)
   * wrong codes are looked up.
   */
  lemma GuessesAreLimited(s: State, events: seq<Event>, from: nat, to: nat)
    requires s.failed < MAX_FAILED && IsRun(s, events) && Timed(events, from, to) && GrantFree(events)
    ensures WrongGuesses(s, events) <= MAX_FAILED * ((to - from) / LOCKOUT + 1)
  {
    hide IsRun, Timed, GrantFree, WrongGuesses, End;
    var k := PacedRun(s, events, from, to);
    TimedBounds(events, from, to);
  }

  /** The bound's premise holds in every run. */
  lemma {:induction false} FailedStaysLow(events: seq<Event>)
    requires IsRun(FRESH, events)
    ensures End(FRESH, events).failed < MAX_FAILED
  {
    if events != [] { FailedStaysLow(events[..|events| - 1]); }
  }

  // ---------------------------------------------------------------- the program

  class Desk {
    var requests: map<Text, Request>
    var failed: nat
    var lockedUntil: nat

    function Abs(): State
      reads this
    {
      State(requests, failed, lockedUntil)
    }

    constructor ()
      ensures Abs() == FRESH
    {
      requests, failed, lockedUntil := map[], 0, 0;
    }

    method Expire(now: nat)
      modifies this`requests
      ensures requests == Unexpired(old(requests), now)
    {
      requests := map d | d in requests && requests[d].expiresAt > now :: requests[d];
    }

    method DeviceRequested(device: Text, code: Text, now: nat) returns (ok: bool)
      modifies this
      ensures Abs() == After(old(Abs()), Requested(device, code, now)) && ok == IsValidCode(code)
    {
      if !IsValidCode(code) { return false; }
      Expire(now);
      requests := requests[device := Request(device, code, now + REQUEST_TTL)];
      ok := true;
    }

    method UserEntered(code: Text, now: nat) returns (outcome: Outcome)
      modifies this
      ensures var e := Entered(code, now, outcome); Allowed(old(Abs()), e) && Abs() == After(old(Abs()), e)
    {
      if now < lockedUntil { return LockedOut(lockedUntil - now); }
      Expire(now);
      assert forall d :: Presents(old(Abs()), d, code, now) <==> d in requests && requests[d].code == code;
      if device :| device in requests && requests[device].code == code {
        requests := requests - {device};
        failed := 0;
        return Granted(device);
      }
      failed := failed + 1;
      if failed >= MAX_FAILED {
        lockedUntil := now + LOCKOUT;
        failed := 0;
        return LockedOut(LOCKOUT);
      }
      outcome := Rejected;
    }

    method Cancel(device: Text)
      modifies this
      ensures Abs() == After(old(Abs()), Cancelled(device))
    {
      requests := requests - {device};
    }

    /** Devices waiting at `now`. */
    method Pending(now: nat) returns (devices: set<Text>)
      ensures forall d :: d in devices <==> exists code :: Presents(Abs(), d, code, now)
    {
      devices := set d | d in requests && requests[d].expiresAt > now;
      forall d | d in devices ensures exists code :: Presents(Abs(), d, code, now) {
        assert Presents(Abs(), d, requests[d].code, now);
      }
    }
  }
}
