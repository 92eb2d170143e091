/**
 * The two call wrappers: `Safe`, which turns any exception into an absent
 * value, and `Retry`, which calls again on rate-limit (HTTP 429) and
 * cancellation failures, sleeping until the instant the server names.
 * The source has two copies of `Retry`: the one in Helpers.cs rethrows any
 * other API error, the one in Program.cs logs it and calls again; `Policy`
 * chooses between them.
 */
module Helpers {
  import opened Wrappers
  import Text
  import Timestamps

  /** Why a wrapped call did not produce a value for its caller. */
  datatype Failure =
    | ApiError(message: string)     // a GoogleApiException other than 429, rethrown
    | BadRetryTime(token: string)   // DateTime.ParseExact rejected the retry-after token
    | SleepOutOfRange(delay: int)   // Thread.Sleep rejected a delay above Int32.MaxValue ms
    | OutOfRange                    // String.Substring with a start beyond the text
    | Unhandled(name: string)       // any other exception type

  /** What one call did: returned a value, or threw. */
  datatype Outcome<+T> = Returned(value: T) | Raised(failure: Failure)

  /**
   * Safe(func): the value `func` returned, or `default(T)` (None) when it threw
   * anything at all; Safe itself never throws.
   */
  function Safe<T>(call: Outcome<T>): (r: Option<T>)
    ensures r.Some? <==> call.Returned?
    ensures r.Some? ==> r.value == call.value
  {
    match call
    case Returned(v) => Some(v)
    case Raised(_) => None
  }

  /** One call of `f` inside the retry loop, as the loop's catch clauses see it. */
  datatype Attempt<+T> =
    | Success(value: T)
    | TooManyRequests(message: string, now: int)  // 429; `now` is the clock, in ms, when it is handled
    | OtherApiError(message: string)              // a GoogleApiException with any other status
    | Cancelled                                   // TaskCanceledException
    | Thrown(name: string)                        // any other exception

  /** How a variant of Retry treats a GoogleApiException that is not a 429. */
  datatype Policy =
    | RethrowOtherApiErrors   // Helpers.Retry
    | RetryOtherApiErrors     // Program.Retry

  /** Thread.Sleep(TimeSpan) accepts at most Int32.MaxValue milliseconds. */
  const MaxSleepMillis := 0x7FFF_FFFF

  /**
   * The retry-after token of a 429 message: the text before the first '(',
   * trimmed, then its last space-separated word.
   */
  function RetryAfterToken(message: string): (r: string)
    ensures Text.Lacks(r, ' ')
  {
    Text.LastPiece(Text.Trim(Text.Split(message, '(')[0]), ' ')
  }

  /** A token immediately before the first " (" of the message is the one read. */
  lemma TokenBeforeParenthesis(pre: string, token: string, rest: string)
    requires Text.Lacks(pre, '(')
    requires token != [] && forall i :: 0 <= i < |token| ==> !Text.IsWhiteSpace(token[i]) && token[i] != '('
    ensures RetryAfterToken(pre + " " + token + " (" + rest) == token
  {
    var body := pre + " " + token;
    HeadBeforeParenthesis(pre, token, rest);
    assert Text.TrimEnd(body + " ") == body by {
      assert body[|body| - 1] == token[|token| - 1];
      assert Text.TrimEnd(body + " ") == Text.TrimEnd(body);
    }
    assert Text.Lacks(token, ' ') by {
      forall i | 0 <= i < |token| ensures token[i] != ' ' {
        assert !Text.IsWhiteSpace(token[i]);
      }
    }
    LastWordAfterTrimStart(pre, token);
  }

  /** The text before the first '(' of such a message ends in the token and a space. */
  lemma HeadBeforeParenthesis(pre: string, token: string, rest: string)
    requires Text.Lacks(pre, '(') && Text.Lacks(token, '(')
    ensures Text.Split(pre + " " + token + " (" + rest, '(')[0] == pre + " " + token + " "
  {
    var message := pre + " " + token + " (" + rest;
    var before := pre + " " + token + " ";
    assert message == before + "(" + rest;
    assert message[|before|] == '(';
    assert message[..|before|] == before;
    forall i | 0 <= i < |before| ensures message[i] != '(' {
      if i < |pre| { assert message[i] == pre[i]; }
      else if |pre| < i < |pre| + 1 + |token| { assert message[i] == token[i - |pre| - 1]; }
    }
    Text.IndexOfUnique(message, '(', |before|);
    Text.SplitHead(message, '(');
  }

  /** Trimming the front of `pre + " " + token` keeps the token as the last word. */
  lemma LastWordAfterTrimStart(pre: string, token: string)
    requires token != [] && !Text.IsWhiteSpace(token[0]) && Text.Lacks(token, ' ')
    ensures Text.LastPiece(Text.TrimStart(pre + " " + token), ' ') == token
  {
    var body := pre + " " + token;
    var trimmed := Text.TrimStart(body);
    Text.TrimStartSuffix(body);
    var start := |body| - |trimmed|;
    assert body[|pre| + 1] == token[0];
    Text.LastPieceAfterSeparator(pre, token, ' ');
    Text.LastStartUnique(body, ' ', |pre| + 1);
    Text.LastPieceOfSuffix(body, ' ', start);
  }

  /** What the catch clauses do with one attempt. */
  datatype Step<+T> =
    | Return(value: T)       // f() returned: Retry returns it
    | Sleep(millis: nat)     // 429 with a future retry time: sleep, then call again
    | Again                  // call again at once
    | Raise(failure: Failure) // an exception leaves Retry

  /**
   * The delay a 429 message asks for, given the clock reading `now`: the
   * parsed retry-after instant minus `now`, or the ParseExact failure.
   */
  function RetryDelay(message: string, now: int): (r: Result<int, Failure>)
    ensures r.Err? <==> Timestamps.ParseExact(RetryAfterToken(message)).None?
    ensures r.Err? ==> r.error == BadRetryTime(RetryAfterToken(message))
  {
    var token := RetryAfterToken(message);
    match Timestamps.ParseExact(token)
    case None => Err(BadRetryTime(token))
    case Some(instant) => Ok(Timestamps.ToMillis(instant) - now)
  }

  /**
   * The wait a 429 asks for runs to the instant its retry-after token writes
   * out: any valid instant rendered as the token gives that wait, and a wait
   * is only given for such an instant.
   */
  lemma RetryDelayWaits(message: string, now: int)
    ensures forall instant :: Timestamps.Valid(instant) && Timestamps.Render(instant) == RetryAfterToken(message)
                              ==> RetryDelay(message, now) == Ok(Timestamps.ToMillis(instant) - now)
    ensures RetryDelay(message, now).Ok? ==>
              exists instant :: && Timestamps.Valid(instant)
                                && Timestamps.Render(instant) == RetryAfterToken(message)
                                && RetryDelay(message, now).value == Timestamps.ToMillis(instant) - now
  {
    forall instant | Timestamps.Valid(instant) && Timestamps.Render(instant) == RetryAfterToken(message) {
      Timestamps.ParseRender(instant);
    }
    Timestamps.ParsedRenders(RetryAfterToken(message));
  }

  /** The step sends the loop round again: after a sleep or at once. */
  predicate Continues<T>(s: Step<T>)
  {
    s.Sleep? || s.Again?
  }

  /**
   * One pass through the body of the retry loop. A 429 sleeps for a positive
   * delay, calls again at once when the retry time has passed, and throws when
   * ParseExact or Thread.Sleep does; a cancellation calls again; another API
   * error is rethrown by Helpers.Retry and logged by Program.Retry; any other
   * exception leaves the loop.
   */
  function Handle<T>(p: Policy, a: Attempt<T>): (r: Step<T>)
    ensures r.Return? <==> a.Success?
    ensures r.Return? ==> r.value == a.value
    ensures r.Sleep? <==> a.TooManyRequests? && RetryDelay(a.message, a.now).Ok?
                          && 0 < RetryDelay(a.message, a.now).value <= MaxSleepMillis
    ensures r.Sleep? ==> r.millis == RetryDelay(a.message, a.now).value
    ensures r.Again? <==> (|| a.Cancelled?
                           || (a.OtherApiError? && p.RetryOtherApiErrors?)
                           || (a.TooManyRequests? && RetryDelay(a.message, a.now).Ok?
                               && RetryDelay(a.message, a.now).value <= 0))
    ensures a.TooManyRequests? && RetryDelay(a.message, a.now).Err? ==> r == Raise(RetryDelay(a.message, a.now).error)
    ensures a.Thrown? ==> r == Raise(Unhandled(a.name))
  {
    match a
    case Success(v) => Return(v)
    case TooManyRequests(message, now) =>
      (match RetryDelay(message, now)
       case Err(f) => Raise(f)
       case Ok(delay) =>
         if delay > 0 then
           if delay <= MaxSleepMillis then Sleep(delay) else Raise(SleepOutOfRange(delay))
         else Again)
    case OtherApiError(message) =>
      if p.RethrowOtherApiErrors? then Raise(ApiError(message)) else Again
    case Cancelled => Again
    case Thrown(name) => Raise(Unhandled(name))
  }

  /** The catch clauses of one variant of Retry, as a function value. */
  function Handler<T>(p: Policy): Attempt<T> -> Step<T>
  {
    a => Handle(p, a)
  }

  /** The sleeps the loop performs while handling `attempts` with `h`, in order. */
  function Pauses<T>(h: Attempt<T> -> Step<T>, attempts: seq<Attempt<T>>): (r: seq<nat>)
    ensures |r| <= |attempts|
  {
    if attempts == [] then []
    else
      var last := attempts[|attempts| - 1];
      Pauses(h, attempts[..|attempts| - 1])
      + (match h(last) case Sleep(d) => [d] case _ => [])
  }

  /** Under either policy every sleep is positive and within Thread.Sleep's range. */
  lemma {:induction false} PausesInRange<T>(p: Policy, attempts: seq<Attempt<T>>)
    ensures forall i :: 0 <= i < |Pauses(Handler(p), attempts)| ==>
              0 < Pauses(Handler(p), attempts)[i] <= MaxSleepMillis
  {
    if attempts != [] {
      PausesInRange(p, attempts[..|attempts| - 1]);
    }
  }

  /** The index of the first attempt that ends the loop, or |attempts| if none does. */
  function FirstStop<T>(h: Attempt<T> -> Step<T>, attempts: seq<Attempt<T>>): (k: nat)
    ensures k <= |attempts|
    ensures forall i :: 0 <= i < k ==> Continues(h(attempts[i]))
    ensures k < |attempts| ==> !Continues(h(attempts[k]))
  {
    if attempts == [] || !Continues(h(attempts[0])) then 0
    else 1 + FirstStop(h, attempts[1..])
  }

  /** The first stop is the first attempt that does not continue the loop. */
  lemma {:induction false} FirstStopAt<T>(h: Attempt<T> -> Step<T>, attempts: seq<Attempt<T>>, k: nat)
    requires k <= |attempts|
    requires forall i :: 0 <= i < k ==> Continues(h(attempts[i]))
    requires k < |attempts| ==> !Continues(h(attempts[k]))
    ensures FirstStop(h, attempts) == k
  {
    if k > 0 {
      FirstStopAt(h, attempts[1..], k - 1);
    }
  }

  /** How Retry ended on a finite script of attempts. */
  datatype RetryEnd<+T> =
    | Done(value: T)          // the first successful attempt's value
    | Failed(failure: Failure) // an exception left Retry
    | StillRetrying           // every scripted attempt asked for another one

  /** How the retry loop with catch clauses `h` ends on `script`. */
  function RetryResult<T>(h: Attempt<T> -> Step<T>, script: seq<Attempt<T>>): RetryEnd<T>
  {
    var k := FirstStop(h, script);
    if k == |script| then StillRetrying
    else if h(script[k]).Return? then Done(h(script[k]).value)
    else Failed(h(script[k]).failure)
  }

  /**
   * Program.Retry never lets an API error out: a non-429 GoogleApiException is
   * logged and the call made again, so only ParseExact, Thread.Sleep and
   * other exception types can end it with an exception.
   */
  lemma ProgramRetryKeepsApiErrors<T>(script: seq<Attempt<T>>)
    ensures var r := RetryResult(Handler(RetryOtherApiErrors), script);
            r.Failed? ==> r.failure.BadRetryTime? || r.failure.SleepOutOfRange? || r.failure.Unhandled?
  {
    var k := FirstStop(Handler<T>(RetryOtherApiErrors), script);
    if k < |script| {
      var a := script[k];
      assert Handler<T>(RetryOtherApiErrors)(a) == Handle(RetryOtherApiErrors, a);
    }
  }

  /**
   * The retry loop with catch clauses `h`, over the scripted outcomes of
   * successive calls of `f`: `calls` is how many calls were made, `sleeps`
   * the delays slept between them.
   */
  method RetryWith<T>(h: Attempt<T> -> Step<T>, script: seq<Attempt<T>>)
    returns (end: RetryEnd<T>, calls: nat, sleeps: seq<nat>)
    ensures calls == if FirstStop(h, script) < |script| then FirstStop(h, script) + 1 else |script|
    ensures end == RetryResult(h, script)
    ensures end.Done? ==> calls > 0 && h(script[calls - 1]) == Return(end.value)
    ensures end.Failed? ==> calls > 0 && h(script[calls - 1]) == Raise(end.failure)
    ensures sleeps == Pauses(h, script[..calls])
  {
    var i := 0;
    sleeps := [];
    while i < |script|
      invariant 0 <= i <= |script|
      invariant forall j :: 0 <= j < i ==> Continues(h(script[j]))
      invariant sleeps == Pauses(h, script[..i])
    {
      assert script[..i + 1][..i] == script[..i];
      var step := h(script[i]);
      match step {
        case Return(v) =>
          FirstStopAt(h, script, i);
          return Done(v), i + 1, sleeps;
        case Raise(f) =>
          FirstStopAt(h, script, i);
          return Failed(f), i + 1, sleeps;
        case Sleep(d) =>
          sleeps := sleeps + [d];
        case Again =>
      }
      i := i + 1;
    }
    FirstStopAt(h, script, i);
    assert script[..i] == script;
    return StillRetrying, i, sleeps;
  }

  /**
   * Retry(f) of Helpers.cs (policy RethrowOtherApiErrors) or of Program.cs
   * (RetryOtherApiErrors): it returns the value of the first call that
   * returns, and throws what the first non-retried exception throws.
   */
  method Retry<T>(p: Policy, script: seq<Attempt<T>>) returns (end: RetryEnd<T>, calls: nat, sleeps: seq<nat>)
    ensures calls == if FirstStop(Handler(p), script) < |script| then FirstStop(Handler(p), script) + 1 else |script|
    ensures end == RetryResult(Handler(p), script)
    ensures end.StillRetrying? <==> FirstStop(Handler(p), script) == |script|
    ensures end.Done? <==> calls > 0 && script[calls - 1].Success?
    ensures end.Done? ==> script[calls - 1] == Success(end.value)
    ensures end.Failed? ==> calls > 0 && Handle(p, script[calls - 1]) == Raise(end.failure)
    ensures sleeps == Pauses(Handler(p), script[..calls])
  {
    end, calls, sleeps := RetryWith(Handler(p), script);
    if calls > 0 && script[calls - 1].Success? {
      assert Handle(p, script[calls - 1]).Return?;
    }
  }

  /**
   * A 429 whose message names a well-formed retry time: the loop sleeps until
   * that instant when it lies ahead, calls again at once when it has passed,
   * and throws when the wait exceeds Thread.Sleep's range.
   */
  lemma RateLimitedUntil<T>(p: Policy, message: string, instant: Timestamps.Fields, now: int)
    requires Timestamps.Valid(instant)
    requires Timestamps.ParseExact(RetryAfterToken(message)) == Some(instant)
    ensures var wait := Timestamps.ToMillis(instant) - now;
            var step := Handle<T>(p, TooManyRequests(message, now));
            && (0 < wait <= MaxSleepMillis ==> step == Sleep(wait))
            && (wait <= 0 ==> step == Again)
            && (wait > MaxSleepMillis ==> step == Raise(SleepOutOfRange(wait)))
  {
    assert RetryDelay(message, now) == Ok(Timestamps.ToMillis(instant) - now);
  }

  /**
   * A retry time written in the exact format just before the first " (" of
   * the message is the instant read back from it.
   */
  lemma InstantBeforeParenthesis(pre: string, instant: Timestamps.Fields, rest: string)
    requires Text.Lacks(pre, '(') && Timestamps.Valid(instant)
    ensures Timestamps.ParseExact(RetryAfterToken(pre + " " + Timestamps.Render(instant) + " (" + rest))
            == Some(instant)
  {
    Timestamps.RenderChars(instant);
    TokenBeforeParenthesis(pre, Timestamps.Render(instant), rest);
    Timestamps.ParseRender(instant);
  }

  /**
   * The two variants part ways on an API error that is not a 429: Helpers.Retry
   * stops at the first call and rethrows it, Program.Retry calls again and
   * returns the next call's value.
   */
  lemma VariantsDiffer<T>(message: string, v: T)
    ensures var script := [OtherApiError(message), Success(v)];
            && FirstStop(Handler(RethrowOtherApiErrors), script) == 0
            && Handle(RethrowOtherApiErrors, script[0]) == Raise(ApiError(message))
            && FirstStop(Handler(RetryOtherApiErrors), script) == 1
            && Handle(RetryOtherApiErrors, script[1]) == Return(v)
  {
    var script := [OtherApiError(message), Success(v)];
    FirstStopAt(Handler(RethrowOtherApiErrors), script, 0);
    FirstStopAt(Handler(RetryOtherApiErrors), script, 1);
  }
}
