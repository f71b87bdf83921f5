/** The login retry loop of the careers site: each attempt empties the
    form, types the account and the password, waits for the code field,
    reads a fresh CAPTCHA, types the recognised code, clicks the login
    button and looks for a TOKEN in the page's local storage. An attempt
    that raises is retried until the attempt budget is spent, and the
    error of the last attempt is passed on to the caller. */
module Login {
  import opened Outcomes
  import opened Raster
  import opened Recognition

  /** What the automation does on the login form. */
  datatype Action =
    | ClearInputs
    | TypeAccount(text: string)
    | TypePassword(text: string)
    | AwaitCodeField
    | ReadCaptcha
    | TypeCode(text: string)
    | ClickLogin
    | ReadToken

  /** The login page as the automation meets it. Attempt k's browser
      action number n (0 to 8, in the order an attempt performs them)
      raises `fault(k, n)` when that is an error. Number 4 is the CAPTCHA
      read: `fault(k, 4)` is never consulted, because whether that read
      fails is decided by the CAPTCHA shown during attempt k, `captcha(k)`,
      and by the OCR engine `ocr`. The TOKEN local storage holds after the
      click of attempt k is `token(k)`. */
  datatype LoginPage = LoginPage(
    fault: (nat, nat) -> Option<Error>,
    captcha: nat -> Capture,
    ocr: Image -> Result<string>,
    token: nat -> Option<string>)

  /** A run of consecutive actions: the error that stopped it, if any,
      and the actions started. */
  datatype Performed = Performed(error: Option<Error>, done: seq<Action>)

  /** Attempt k performs `actions` as its browser actions number `from`,
      `from + 1`, ..., stopping at the first that raises. */
  function Perform(page: LoginPage, k: nat, actions: seq<Action>, from: nat): (r: Performed)
    ensures r.done <= actions
    ensures r.error.None? <==> forall n :: from <= n < from + |actions| ==> page.fault(k, n).None?
    ensures r.error.None? ==> r.done == actions
    ensures r.error.Some? ==> (0 < |r.done| && r.error == page.fault(k, from + |r.done| - 1)
      && forall n :: from <= n < from + |r.done| - 1 ==> page.fault(k, n).None?)
    decreases |actions|
  {
    if actions == [] then Performed(None, [])
    else if page.fault(k, from).Some? then Performed(page.fault(k, from), [actions[0]])
    else
      var rest := Perform(page, k, actions[1..], from + 1);
      assert actions == [actions[0]] + actions[1..];
      Performed(rest.error, [actions[0]] + rest.done)
  }

  /** How an attempt ends: a TOKEN was found, none was found (and the form
      was emptied again), or an action raised. */
  datatype Outcome = TokenFound | TokenMissing | Raised(error: Error)

  datatype AttemptRun = AttemptRun(outcome: Outcome, actions: seq<Action>)

  /** The actions an attempt performs before it reads the CAPTCHA. */
  function Opening(username: string, password: string): seq<Action>
  {
    [ClearInputs, TypeAccount(username), TypePassword(password), AwaitCodeField]
  }

  /** The actions an attempt performs once the code is recognised. */
  function Submission(code: string): seq<Action>
  {
    [TypeCode(code), ClickLogin, ReadToken]
  }

  /** Every action of an attempt that finds no TOKEN, in order. */
  function Plan(username: string, password: string, code: string): seq<Action>
  {
    Opening(username, password) + [ReadCaptcha] + Submission(code) + [ClearInputs]
  }

  /** Attempt number k. */
  function Attempt(page: LoginPage, username: string, password: string, k: nat): (run: AttemptRun)
  {
    var opening := Perform(page, k, Opening(username, password), 0);
    if opening.error.Some? then AttemptRun(Raised(opening.error.value), opening.done)
    else
      var shown := opening.done + [ReadCaptcha];
      match Recognize(page.captcha(k), page.ocr)
      case Failure(e) => AttemptRun(Raised(e), shown)
      case Success(code) =>
        var submit := Perform(page, k, Submission(code), 5);
        if submit.error.Some? then AttemptRun(Raised(submit.error.value), shown + submit.done)
        else if Truthy(page.token(k)) then AttemptRun(TokenFound, shown + submit.done)
        else
          var reset := Perform(page, k, [ClearInputs], 8);
          if reset.error.Some? then AttemptRun(Raised(reset.error.value), shown + submit.done + reset.done)
          else AttemptRun(TokenMissing, shown + submit.done + reset.done)
  }

  /** The actions an attempt performs are the plan's, in order: up to the
      CAPTCHA read when the CAPTCHA cannot be read, and a prefix of the
      whole plan otherwise. */
  lemma AttemptFollowsPlan(page: LoginPage, username: string, password: string, k: nat)
    ensures var run := Attempt(page, username, password, k);
            var code := Recognize(page.captcha(k), page.ocr);
            && (code.Failure? ==> run.actions <= Opening(username, password) + [ReadCaptcha])
            && (code.Success? ==> run.actions <= Plan(username, password, code.value))
  {
    var opening := Perform(page, k, Opening(username, password), 0);
    if opening.error.None? {
      match Recognize(page.captcha(k), page.ocr)
      case Failure(e) =>
      case Success(code) =>
        var plan := Plan(username, password, code);
        var submit := Perform(page, k, Submission(code), 5);
        assert opening.done + [ReadCaptcha] == plan[..5];
        assert plan[..5] + Submission(code) == plan[..8];
        if submit.error.None? && !Truthy(page.token(k)) {
          assert plan[..8] + [ClearInputs] == plan;
        }
    }
  }

  /** No browser action of attempt k numbered `from` up to `to` (exclusive)
      raises, the CAPTCHA read aside. */
  predicate ActionsPass(page: LoginPage, k: nat, from: nat, to: nat)
  {
    forall n :: from <= n < to && n != 4 ==> page.fault(k, n).None?
  }

  /** The actions numbered 0 to `to` pass exactly when those before the
      CAPTCHA read and those from 5 to `to` do. */
  lemma ActionsPassSplit(page: LoginPage, k: nat, to: nat)
    requires 5 <= to
    ensures ActionsPass(page, k, 0, to) <==> ActionsPass(page, k, 0, 4) && ActionsPass(page, k, 5, to)
  {
  }

  /** An attempt finds the TOKEN exactly when the CAPTCHA is read, none of
      the actions up to the TOKEN read raises, and local storage holds a
      TOKEN; it then performs the first eight actions of the plan. */
  lemma AttemptFindsToken(page: LoginPage, username: string, password: string, k: nat)
    ensures var run := Attempt(page, username, password, k);
            var code := Recognize(page.captcha(k), page.ocr);
            && (run.outcome.TokenFound? <==>
                  code.Success? && ActionsPass(page, k, 0, 8) && Truthy(page.token(k)))
            && (run.outcome.TokenFound? ==> run.actions == Plan(username, password, code.value)[..8])
  {
    ActionsPassSplit(page, k, 8);
    var opening := Perform(page, k, Opening(username, password), 0);
    if opening.error.None? {
      match Recognize(page.captcha(k), page.ocr)
      case Failure(e) =>
      case Success(code) =>
        var plan := Plan(username, password, code);
        assert opening.done + [ReadCaptcha] + Submission(code) == plan[..8];
    }
  }

  /** An attempt ends without a TOKEN exactly when the CAPTCHA is read, no
      action raises and local storage holds no TOKEN; it then performs the
      whole plan. */
  lemma AttemptMissesToken(page: LoginPage, username: string, password: string, k: nat)
    ensures var run := Attempt(page, username, password, k);
            var code := Recognize(page.captcha(k), page.ocr);
            && (run.outcome.TokenMissing? <==>
                  code.Success? && ActionsPass(page, k, 0, 9) && !Truthy(page.token(k)))
            && (run.outcome.TokenMissing? ==> run.actions == Plan(username, password, code.value))
  {
    ActionsPassSplit(page, k, 9);
    var opening := Perform(page, k, Opening(username, password), 0);
    if opening.error.None? {
      match Recognize(page.captcha(k), page.ocr)
      case Failure(e) =>
      case Success(code) =>
        var submit := Perform(page, k, Submission(code), 5);
        var plan := Plan(username, password, code);
        if submit.error.None? {
          assert ActionsPass(page, k, 5, 9) <==> ActionsPass(page, k, 5, 8) && page.fault(k, 8).None?;
        }
    }
  }

  /** An attempt raises the error of the first browser action that
      raises, every earlier action having passed (and the CAPTCHA having
      been read, when that action comes after the reading), or the error of
      the CAPTCHA recognition once the first four actions have passed. */
  lemma AttemptRaises(page: LoginPage, username: string, password: string, k: nat)
    ensures var run := Attempt(page, username, password, k);
            var code := Recognize(page.captcha(k), page.ocr);
            run.outcome.Raised? ==>
              (exists n :: && 0 <= n <= 8 && n != 4 && page.fault(k, n) == Some(run.outcome.error)
                           && ActionsPass(page, k, 0, n) && (n > 4 ==> code.Success?))
              || (ActionsPass(page, k, 0, 4) && code.Failure? && run.outcome.error == code.error)
  {
    var run := Attempt(page, username, password, k);
    var opening := Perform(page, k, Opening(username, password), 0);
    if opening.error.Some? {
      var n := |opening.done| - 1;
      assert page.fault(k, n) == Some(run.outcome.error);
      assert ActionsPass(page, k, 0, n);
    } else {
      assert ActionsPass(page, k, 0, 4);
      match Recognize(page.captcha(k), page.ocr)
      case Failure(e) =>
      case Success(code) =>
        var submit := Perform(page, k, Submission(code), 5);
        if submit.error.Some? {
          var n := 5 + |submit.done| - 1;
          assert page.fault(k, n) == Some(run.outcome.error);
          assert ActionsPass(page, k, 0, n);
        } else if !Truthy(page.token(k)) {
          var reset := Perform(page, k, [ClearInputs], 8);
          if reset.error.Some? {
            assert page.fault(k, 8) == Some(run.outcome.error);
            assert ActionsPass(page, k, 0, 8);
          }
        }
    }
  }

  /** An attempt types a code only right after reading the CAPTCHA of that
      attempt, and the code is the text recognised from that CAPTCHA. */
  lemma AttemptReadsFreshCaptcha(page: LoginPage, username: string, password: string, k: nat)
    ensures var actions := Attempt(page, username, password, k).actions;
            forall i :: 0 <= i < |actions| && actions[i].TypeCode? ==>
              && i == 5 && actions[4] == ReadCaptcha
              && Recognize(page.captcha(k), page.ocr) == Success(actions[i].text)
  {
    AttemptFollowsPlan(page, username, password, k);
    var actions := Attempt(page, username, password, k).actions;
    var code := Recognize(page.captcha(k), page.ocr);
    if code.Failure? {
      var opening := Opening(username, password) + [ReadCaptcha];
      forall i | 0 <= i < |actions|
        ensures !actions[i].TypeCode?
      {
        assert actions[i] == opening[i];
      }
    } else {
      var plan := Plan(username, password, code.value);
      forall i | 0 <= i < |actions| && actions[i].TypeCode?
        ensures i == 5 && actions[4] == ReadCaptcha && code == Success(actions[i].text)
      {
        assert actions[i] == plan[i];
        assert actions[4] == plan[4];
      }
    }
  }

  /** The value tryLogin resolves to, or the error it rejects with. */
  datatype LoginResult = LoggedIn | NotLoggedIn | Threw(error: Error)

  /** A run of tryLogin: its result, the number of attempts made and the
      actions of each attempt, in order. */
  datatype LoginRun = LoginRun(result: LoginResult, attempts: nat, trace: seq<seq<Action>>)

  /** The retry loop of tryLogin once `done` attempts have been made, for
      attempts that run as `attempt` says: the attempts made from here are
      numbered done + 1, done + 2, ..., and the trace holds the actions of
      each of them. */
  function Retry(attempt: nat -> AttemptRun, maxAttempts: int, done: nat): (run: LoginRun)
    ensures done <= run.attempts <= if maxAttempts > done then maxAttempts else done
    ensures |run.trace| == run.attempts - done
    ensures forall i :: 0 <= i < |run.trace| ==> run.trace[i] == attempt(done + i + 1).actions
    decreases maxAttempts - done
  {
    if done >= maxAttempts then LoginRun(NotLoggedIn, done, [])
    else
      var k := done + 1;
      if attempt(k).outcome.TokenFound? then LoginRun(LoggedIn, k, [attempt(k).actions])
      else if attempt(k).outcome.Raised? && k >= maxAttempts then LoginRun(Threw(attempt(k).outcome.error), k, [attempt(k).actions])
      else
        var rest := Retry(attempt, maxAttempts, k);
        LoginRun(rest.result, rest.attempts, [attempt(k).actions] + rest.trace)
  }

  /** tryLogin on the page: the retry loop over the page's attempts. */
  function Login(page: LoginPage, username: string, password: string, maxAttempts: int): (run: LoginRun)
  {
    Retry((k: nat) => Attempt(page, username, password, k), maxAttempts, 0)
  }

  /** No attempt numbered after `from` up to `to` finds a TOKEN. */
  predicate NoToken(attempt: nat -> AttemptRun, from: nat, to: int)
  {
    forall k: nat :: from < k <= to ==> !attempt(k).outcome.TokenFound?
  }

  /** Extending the range of attempts without a TOKEN by the one before it. */
  lemma NoTokenStep(attempt: nat -> AttemptRun, from: nat, to: int)
    requires from < to
    ensures NoToken(attempt, from, to) <==> !attempt(from + 1).outcome.TokenFound? && NoToken(attempt, from + 1, to)
  {
    if !attempt(from + 1).outcome.TokenFound? && NoToken(attempt, from + 1, to) {
      forall j: nat | from < j <= to
        ensures !attempt(j).outcome.TokenFound?
      {
        if j != from + 1 {
          assert from + 1 < j;
        }
      }
    }
  }

  /** The loop resolves to true exactly when one of its attempts finds a
      TOKEN; it stops at the first such attempt. */
  lemma {:induction false} LoggedInWhenTokenFound(attempt: nat -> AttemptRun, maxAttempts: int, done: nat)
    ensures var run := Retry(attempt, maxAttempts, done);
            run.result.LoggedIn? <==> !NoToken(attempt, done, maxAttempts)
    ensures var run := Retry(attempt, maxAttempts, done);
            run.result.LoggedIn? ==>
              attempt(run.attempts).outcome.TokenFound? && NoToken(attempt, done, run.attempts - 1)
    decreases maxAttempts - done
  {
    if done < maxAttempts {
      var k := done + 1;
      NoTokenStep(attempt, done, maxAttempts);
      if attempt(k).outcome.TokenFound? {
      } else if attempt(k).outcome.Raised? && k >= maxAttempts {
        assert NoToken(attempt, k, maxAttempts);
      } else {
        LoggedInWhenTokenFound(attempt, maxAttempts, k);
        var rest := Retry(attempt, maxAttempts, k);
        if rest.result.LoggedIn? {
          NoTokenStep(attempt, done, rest.attempts - 1);
        }
      }
    }
  }

  /** The loop rejects only after its last permitted attempt, with the
      error that attempt raised. */
  lemma {:induction false} ThrowsOnlyAtLastAttempt(attempt: nat -> AttemptRun, maxAttempts: int, done: nat)
    ensures var run := Retry(attempt, maxAttempts, done);
            run.result.Threw? ==>
              run.attempts == maxAttempts && attempt(run.attempts).outcome == Raised(run.result.error)
    decreases maxAttempts - done
  {
    if done < maxAttempts {
      var k := done + 1;
      if !attempt(k).outcome.TokenFound? && !(attempt(k).outcome.Raised? && k >= maxAttempts) {
        ThrowsOnlyAtLastAttempt(attempt, maxAttempts, k);
      }
    }
  }

  /** The loop resolves to false exactly when it makes no attempt at all,
      or no attempt finds a TOKEN and the last one ends without raising;
      it does so only once the whole budget of attempts is spent. */
  lemma {:induction false} NotLoggedInWhenLastMisses(attempt: nat -> AttemptRun, maxAttempts: int, done: nat)
    ensures var run := Retry(attempt, maxAttempts, done);
            run.result.NotLoggedIn? <==>
              maxAttempts <= done
              || (NoToken(attempt, done, maxAttempts) && attempt(maxAttempts).outcome.TokenMissing?)
    ensures var run := Retry(attempt, maxAttempts, done);
            run.result.NotLoggedIn? ==> run.attempts == if maxAttempts > done then maxAttempts else done
    decreases maxAttempts - done
  {
    if done < maxAttempts {
      var k := done + 1;
      NoTokenStep(attempt, done, maxAttempts);
      if !attempt(k).outcome.TokenFound? && !(attempt(k).outcome.Raised? && k >= maxAttempts) {
        NotLoggedInWhenLastMisses(attempt, maxAttempts, k);
      }
    }
  }

  /** With a budget of one attempt, as the handler calls it, tryLogin
      reports that attempt's outcome as it is. */
  lemma SingleAttempt(page: LoginPage, username: string, password: string)
    ensures var run := Login(page, username, password, 1);
            var attempt := Attempt(page, username, password, 1);
            && run.attempts == 1
            && (run.result.LoggedIn? <==> attempt.outcome.TokenFound?)
            && (run.result.NotLoggedIn? <==> attempt.outcome.TokenMissing?)
            && (attempt.outcome.Raised? ==> run.result == Threw(attempt.outcome.error))
  {
    var attempts := (k: nat) => Attempt(page, username, password, k);
    assert attempts(1) == Attempt(page, username, password, 1);
  }

  /** Every code typed during a run of tryLogin is the text recognised from
      the CAPTCHA of its own attempt, read right before it in that attempt:
      a retry never reuses an earlier attempt's CAPTCHA. */
  lemma LoginReadsFreshCaptchas(page: LoginPage, username: string, password: string, maxAttempts: int)
    ensures var run := Login(page, username, password, maxAttempts);
            forall i, j :: 0 <= i < |run.trace| && 0 <= j < |run.trace[i]| && run.trace[i][j].TypeCode? ==>
              && 0 < j && run.trace[i][j - 1] == ReadCaptcha
              && Recognize(page.captcha(i + 1), page.ocr) == Success(run.trace[i][j].text)
  {
    var run := Login(page, username, password, maxAttempts);
    forall i, j | 0 <= i < |run.trace| && 0 <= j < |run.trace[i]| && run.trace[i][j].TypeCode?
      ensures 0 < j && run.trace[i][j - 1] == ReadCaptcha
      ensures Recognize(page.captcha(i + 1), page.ocr) == Success(run.trace[i][j].text)
    {
      assert run.trace[i] == Attempt(page, username, password, i + 1).actions;
      AttemptReadsFreshCaptcha(page, username, password, i + 1);
    }
  }

  /** One turn of the retry loop. */
  lemma RetryNext(attempt: nat -> AttemptRun, maxAttempts: int, done: nat)
    requires done < maxAttempts
    ensures var k := done + 1;
            var run := Retry(attempt, maxAttempts, done);
            var rest := Retry(attempt, maxAttempts, k);
            if attempt(k).outcome.TokenFound? then run == LoginRun(LoggedIn, k, [attempt(k).actions])
            else if attempt(k).outcome.Raised? && k >= maxAttempts then
              run == LoginRun(Threw(attempt(k).outcome.error), k, [attempt(k).actions])
            else run == LoginRun(rest.result, rest.attempts, [attempt(k).actions] + rest.trace)
  {
  }

  /** tryLogin as it runs: a counter, a loop while the counter is below the
      budget, and three ways out. */
  method TryLogin(page: LoginPage, username: string, password: string, maxAttempts: int)
    returns (result: LoginResult, attempts: nat, trace: seq<seq<Action>>)
    ensures LoginRun(result, attempts, trace) == Login(page, username, password, maxAttempts)
  {
    var attempt := (k: nat) => Attempt(page, username, password, k);
    attempts := 0;
    trace := [];
    while attempts < maxAttempts
      invariant var rest := Retry(attempt, maxAttempts, attempts);
        Retry(attempt, maxAttempts, 0) == LoginRun(rest.result, rest.attempts, trace + rest.trace)
      decreases maxAttempts - attempts
    {
      RetryNext(attempt, maxAttempts, attempts);
      ghost var before := trace;
      attempts := attempts + 1;
      var run := attempt(attempts);
      trace := trace + [run.actions];
      match run.outcome {
        case TokenFound =>
          result := LoggedIn;
          return;
        case TokenMissing =>
        case Raised(e) =>
          if attempts >= maxAttempts {
            result := Threw(e);
            return;
          }
      }
      ghost var rest := Retry(attempt, maxAttempts, attempts);
      assert before + ([run.actions] + rest.trace) == trace + rest.trace;
    }
    result := NotLoggedIn;
  }
}
