/**
 * pam_module.c: the PAM entry point and the question-and-attempt loop.
 *
 * The question generator is used only through its interface (questions.h):
 * `make` gives the outcome of the i-th `make_question` call (NULL, or the
 * question text with its `check_answer` and `get_answer`), and `conv` the
 * reply to the k-th call of the PAM conversation function. Both are inputs,
 * so every statement below is about all generators and all conversations.
 */
module PamModule {
  import opened Opt
  import opened Helpers
  import MathQuestions

  const PAM_SUCCESS: int := 0
  const PAM_SERVICE_ERR: int := 3
  const PAM_AUTH_ERR: int := 7

  /** One generated question: its text, `check_answer` on it, and `get_answer`'s text. */
  datatype Challenge = Challenge(text: string, accepts: string -> bool, shown: string)

  /** What one conversation call returns: its code, and the response text or NULL. */
  datatype Reply = Reply(code: int, resp: Option<string>)

  /** A message sent through the conversation: a prompt for an answer, or an error. */
  datatype Message = Prompt(text: string) | ErrorMsg(text: string)

  /** The module's result, the messages it sent, and how many questions were answered right. */
  datatype Outcome = Outcome(code: int, sent: seq<Message>, answered: nat)

  /** How the attempts at one question end, with the prompts they sent. */
  datatype Attempted =
    | Failed(code: int, sent: seq<Message>)
    | Correct(next: nat, sent: seq<Message>)
    | Exhausted(next: nat, sent: seq<Message>)

  /** Attempt `j` shows the question, after the first one behind "Incorrect. ". */
  function PromptText(question: string, j: nat): string {
    (if j == 0 then "" else "Incorrect. ") + question
  }

  /** Every prompt ends with the question itself; only the first attempt shows it bare. */
  lemma PromptShowsQuestion(question: string, j: nat)
    ensures var t := PromptText(question, j);
      |t| >= |question| && t[|t| - |question|..] == question && (j == 0 <==> t == question)
  {
    var t := PromptText(question, j);
    if j > 0 {
      assert |t| == |question| + 11;
    }
  }

  function FailureText(shown: string): string {
    "Incorrect. Correct would have been: " + shown + ". Login failed."
  }

  /** A conversation call that went through and carried a response the question rejects. */
  predicate Rejected(ch: Challenge, reply: Reply) {
    reply.code == PAM_SUCCESS && reply.resp.Some? && !ch.accepts(reply.resp.value)
  }

  /**
   * The attempt loop from attempt `j`, conversation call `k` on: one
   * prompt per attempt, ending at the first accepted response, at the first
   * failed call, or after `numA` attempts.
   */
  function Attempts(ch: Challenge, j: nat, k: nat, numA: int, conv: nat -> Reply): (r: Attempted)
    ensures |r.sent| <= (if numA > j then numA - j else 0)
    ensures r.Correct? || r.Exhausted? ==> r.next == k + |r.sent|
    ensures r.Exhausted? ==> |r.sent| == (if numA > j then numA - j else 0)
    ensures r.Failed? ==> r.code != PAM_SUCCESS
    decreases numA - j
  {
    if j >= numA then Exhausted(k, [])
    else
      var prompt := Prompt(PromptText(ch.text, j));
      var reply := conv(k);
      if reply.code != PAM_SUCCESS then Failed(reply.code, [prompt])
      else if reply.resp.None? then Failed(PAM_SERVICE_ERR, [prompt])
      else if ch.accepts(reply.resp.value) then Correct(k + 1, [prompt])
      else Behind([prompt], Attempts(ch, j + 1, k + 1, numA, conv))
  }

  /** The same ending with `prefix` sent before. */
  function Behind(prefix: seq<Message>, a: Attempted): (r: Attempted)
    ensures r.sent == prefix + a.sent
  {
    match a
    case Failed(code, sent) => Failed(code, prefix + sent)
    case Correct(next, sent) => Correct(next, prefix + sent)
    case Exhausted(next, sent) => Exhausted(next, prefix + sent)
  }

  /**
   * Attempt `j + t` is prompted with the question, behind "Incorrect. "
   * after the first; every response but the last was rejected; the loop
   * leaves on an accepted response, or on a failed call with its code (a
   * NULL response being a service error).
   */
  lemma {:induction false} AttemptsPrompts(ch: Challenge, j: nat, k: nat, numA: int, conv: nat -> Reply)
    ensures var r := Attempts(ch, j, k, numA, conv);
      (forall t :: 0 <= t < |r.sent| ==> r.sent[t] == Prompt(PromptText(ch.text, j + t))) &&
      (forall t :: k <= t < k + |r.sent| - 1 ==> Rejected(ch, conv(t))) &&
      (r.Correct? ==> LastAccepted(ch, conv(k + |r.sent| - 1))) &&
      (r.Failed? ==> LastFailed(r.code, conv(k + |r.sent| - 1))) &&
      (r.Exhausted? && |r.sent| > 0 ==> Rejected(ch, conv(k + |r.sent| - 1)))
    decreases numA - j
  {
    if j < numA {
      var reply := conv(k);
      if reply.code == PAM_SUCCESS && reply.resp.Some? && !ch.accepts(reply.resp.value) {
        AttemptsPrompts(ch, j + 1, k + 1, numA, conv);
        var rest := Attempts(ch, j + 1, k + 1, numA, conv);
        var r := Attempts(ch, j, k, numA, conv);
        assert r.sent == [Prompt(PromptText(ch.text, j))] + rest.sent;
        forall t | 0 <= t < |r.sent|
          ensures r.sent[t] == Prompt(PromptText(ch.text, j + t))
        {
          if t > 0 {
            assert r.sent[t] == rest.sent[t - 1];
          }
        }
      }
    }
  }

  /** The call went through and its response was accepted. */
  predicate LastAccepted(ch: Challenge, reply: Reply) {
    reply.code == PAM_SUCCESS && reply.resp.Some? && ch.accepts(reply.resp.value)
  }

  /** The call failed with `code`, or brought no response and `code` is a service error. */
  predicate LastFailed(code: int, reply: Reply) {
    if reply.code != PAM_SUCCESS then code == reply.code else reply.resp.None? && code == PAM_SERVICE_ERR
  }

  /**
   * The question loop from question `i`, conversation call `k` on. A
   * question that cannot be generated is a service error; one whose
   * attempts all fail sends the failure message and denies access.
   */
  function AskFrom(numQ: int, numA: int, make: nat -> Option<Challenge>, conv: nat -> Reply, i: nat, k: nat): (r: Outcome)
    ensures r.answered <= (if numQ > i then numQ - i else 0)
    decreases numQ - i
  {
    if i >= numQ then Outcome(PAM_SUCCESS, [], 0)
    else
      match make(i)
      case None => Outcome(PAM_SERVICE_ERR, [], 0)
      case Some(ch) =>
        match Attempts(ch, 0, k, numA, conv)
        case Failed(code, sent) => Outcome(code, sent, 0)
        case Correct(next, sent) =>
          var rest := AskFrom(numQ, numA, make, conv, i + 1, next);
          Outcome(rest.code, sent + rest.sent, rest.answered + 1)
        case Exhausted(next, sent) =>
          var reply := conv(next);
          Outcome(if reply.code != PAM_SUCCESS then reply.code else PAM_AUTH_ERR,
                  sent + [ErrorMsg(FailureText(ch.shown))], 0)
  }

  /**
   * `ask_questions`: `itemCode` is what fetching the conversation returns,
   * `convNull` whether the conversation it yields is NULL.
   */
  function AskQuestions(itemCode: int, convNull: bool, numQ: int, numA: int,
                        make: nat -> Option<Challenge>, conv: nat -> Reply): (r: Outcome)
    ensures itemCode != PAM_SUCCESS ==> r == Outcome(itemCode, [], 0)
    ensures itemCode == PAM_SUCCESS && convNull ==> r == Outcome(PAM_SERVICE_ERR, [], 0)
    ensures r.answered <= (if numQ > 0 then numQ else 0)
  {
    if itemCode != PAM_SUCCESS then Outcome(itemCode, [], 0)
    else if convNull then Outcome(PAM_SERVICE_ERR, [], 0)
    else AskFrom(numQ, numA, make, conv, 0, 0)
  }

  /** The configuration `pam_sm_authenticate` needs from `build_config`. */
  datatype Settings = Settings(questions: int32, attempts: int32)

  /**
   * `pam_sm_authenticate`: `userCode` is what looking up the user returns,
   * `config` what `build_config` returns (None for NULL).
   */
  function Authenticate(userCode: int, config: Option<Settings>, itemCode: int, convNull: bool,
                        make: nat -> Option<Challenge>, conv: nat -> Reply): (r: Outcome)
    ensures userCode == PAM_SUCCESS && config.None? ==> r == Outcome(PAM_SERVICE_ERR, [], 0)
    ensures userCode != PAM_SUCCESS ==> r == Outcome(userCode, [], 0)
  {
    if userCode != PAM_SUCCESS then Outcome(userCode, [], 0)
    else if config.None? then Outcome(PAM_SERVICE_ERR, [], 0)
    else AskQuestions(itemCode, convNull, config.value.questions as int, config.value.attempts as int, make, conv)
  }

  // ---------------------------------------------------------------------
  // What the loop promises
  // ---------------------------------------------------------------------

  /** With no questions configured, access is granted and nothing is sent. */
  lemma NoQuestionsSucceed(numQ: int, numA: int, make: nat -> Option<Challenge>, conv: nat -> Reply)
    requires numQ <= 0
    ensures AskQuestions(PAM_SUCCESS, false, numQ, numA, make, conv) == Outcome(PAM_SUCCESS, [], 0)
  {
  }

  /**
   * The arithmetic module's defaults enable no operator, so without an
   * `ops=` option no question is asked and, once the conversation is
   * available, access is granted.
   */
  lemma DefaultArithmeticAsksNothing(localeUtf8: bool, make: nat -> Option<Challenge>, conv: nat -> Reply)
    ensures var c := MathQuestions.Repaired(MathQuestions.DefaultOptions, localeUtf8);
      c.questions == 0 &&
      Authenticate(PAM_SUCCESS, Some(Settings(c.questions, c.attempts)), PAM_SUCCESS, false, make, conv) ==
        Outcome(PAM_SUCCESS, [], 0)
  {
    var c := MathQuestions.Repaired(MathQuestions.DefaultOptions, localeUtf8);
    MathQuestions.NoOperatorsNoQuestions(MathQuestions.DefaultOptions, localeUtf8);
    NoQuestionsSucceed(c.questions as int, c.attempts as int, make, conv);
  }

  /** A question that cannot be generated is a service error, reported before any prompt for it. */
  lemma GeneratorFailureIsServiceError(numQ: int, numA: int, make: nat -> Option<Challenge>, conv: nat -> Reply)
    requires numQ > 0 && make(0).None?
    ensures AskQuestions(PAM_SUCCESS, false, numQ, numA, make, conv) == Outcome(PAM_SERVICE_ERR, [], 0)
  {
  }

  /** Rejected responses at every call from `k` on use up all the attempts. */
  lemma {:induction false} AllRejectedExhausts(ch: Challenge, j: nat, k: nat, numA: int, conv: nat -> Reply)
    requires forall t :: k <= t < k + numA - j ==> Rejected(ch, conv(t))
    ensures Attempts(ch, j, k, numA, conv).Exhausted?
    decreases numA - j
  {
    if j < numA {
      assert Rejected(ch, conv(k));
      AllRejectedExhausts(ch, j + 1, k + 1, numA, conv);
    }
  }

  /**
   * When every response to the first question is wrong, each attempt is
   * prompted once, the failure message with the right answer follows, and
   * access is denied; with no attempts allowed only the message is sent.
   */
  lemma AllWrongDenies(numQ: int, numA: int, make: nat -> Option<Challenge>, conv: nat -> Reply, ch: Challenge)
    requires numQ > 0 && make(0) == Some(ch)
    requires forall t :: 0 <= t < numA ==> Rejected(ch, conv(t))
    requires conv(if numA > 0 then numA else 0).code == PAM_SUCCESS
    ensures var r := AskQuestions(PAM_SUCCESS, false, numQ, numA, make, conv);
      var n := if numA > 0 then numA else 0;
      r.code == PAM_AUTH_ERR && |r.sent| == n + 1 &&
      (forall t :: 0 <= t < n ==> r.sent[t] == Prompt(PromptText(ch.text, t))) &&
      r.sent[n] == ErrorMsg(FailureText(ch.shown))
  {
    AllRejectedExhausts(ch, 0, 0, numA, conv);
    AttemptsPrompts(ch, 0, 0, numA, conv);
  }

  /** Access is granted exactly when every question was answered right, with no error on the way. */
  lemma {:induction false} SuccessIffAllAnswered(numQ: int, numA: int, make: nat -> Option<Challenge>, conv: nat -> Reply, i: nat, k: nat)
    ensures var r := AskFrom(numQ, numA, make, conv, i, k);
      r.code == PAM_SUCCESS <==> r.answered == (if numQ > i then numQ - i else 0)
    decreases numQ - i
  {
    if i < numQ && make(i).Some? {
      var a := Attempts(make(i).value, 0, k, numA, conv);
      if a.Correct? {
        SuccessIffAllAnswered(numQ, numA, make, conv, i + 1, a.next);
      }
    }
  }

  // ---------------------------------------------------------------------
  // ask_questions, loop by loop (pam_module.c:8-103)
  // ---------------------------------------------------------------------

  /** `prefix` sent before, and `n` more questions answered before. */
  function After(prefix: seq<Message>, n: nat, o: Outcome): Outcome {
    Outcome(o.code, prefix + o.sent, o.answered + n)
  }

  lemma AfterAfter(p: seq<Message>, n: nat, q: seq<Message>, m: nat, o: Outcome)
    ensures After(p, n, After(q, m, o)) == After(p + q, n + m, o)
  {
  }

  method AskQuestionsLoop(itemCode: int, convNull: bool, numQ: int32, numA: int32,
                          make: nat -> Option<Challenge>, conv: nat -> Reply)
    returns (code: int, sent: seq<Message>)
    ensures var r := AskQuestions(itemCode, convNull, numQ as int, numA as int, make, conv);
      code == r.code && sent == r.sent
  {
    sent := [];
    if itemCode != PAM_SUCCESS {
      return itemCode, sent;
    }
    if convNull {
      return PAM_SERVICE_ERR, sent;
    }
    ghost var whole := AskFrom(numQ as int, numA as int, make, conv, 0, 0);
    ghost var answered := 0;
    assert whole == After(sent, answered, whole);
    var k := 0;
    var i := 0;
    while i < numQ as int
      invariant 0 <= i
      invariant whole == After(sent, answered, AskFrom(numQ as int, numA as int, make, conv, i, k))
      decreases numQ as int - i
    {
      var done, result, msgs, next := AskOne(numQ as int, numA, make, conv, i, k);
      AfterAfter(sent, answered, msgs, 1, AskFrom(numQ as int, numA as int, make, conv, i + 1, next));
      sent := sent + msgs;
      if done {
        return result, sent;
      }
      answered := answered + 1;
      k := next;
      i := i + 1;
    }
    assert whole == After(sent, answered, Outcome(PAM_SUCCESS, [], 0));
    return PAM_SUCCESS, sent;
  }

  /**
   * Question `i`: generate it and run its attempts. Either the session ends
   * here with `code`, or the question was answered and the session goes on
   * at conversation call `next`; `msgs` is what was sent meanwhile.
   */
  method AskOne(numQ: int, numA: int32, make: nat -> Option<Challenge>, conv: nat -> Reply, i: nat, k: nat)
    returns (done: bool, code: int, msgs: seq<Message>, next: nat)
    requires i < numQ
    ensures done ==> AskFrom(numQ, numA as int, make, conv, i, k) == Outcome(code, msgs, 0)
    ensures !done ==>
      AskFrom(numQ, numA as int, make, conv, i, k) == After(msgs, 1, AskFrom(numQ, numA as int, make, conv, i + 1, next))
  {
    var ch := make(i);
    if ch.None? {
      return true, PAM_SERVICE_ERR, [], k;
    }
    var a := AttemptLoop(ch.value, numA, conv, k);
    msgs := a.sent;
    if a.Failed? {
      return true, a.code, msgs, k;
    }
    next := a.next;
    if a.Exhausted? {
      var reply := conv(next);
      next := next + 1;
      msgs := msgs + [ErrorMsg(FailureText(ch.value.shown))];
      if reply.code != PAM_SUCCESS {
        return true, reply.code, msgs, next;
      }
      return true, PAM_AUTH_ERR, msgs, next;
    }
    return false, PAM_SUCCESS, msgs, next;
  }

  /**
   * The attempt loop for one question: one prompt and one conversation
   * call per attempt, leaving as soon as a response is accepted.
   */
  method AttemptLoop(ch: Challenge, numA: int32, conv: nat -> Reply, k0: nat) returns (a: Attempted)
    ensures a == Attempts(ch, 0, k0, numA as int, conv)
  {
    var k := k0;
    var prompts: seq<Message> := [];
    var j := 0;
    while j < numA as int
      invariant 0 <= j && k == k0 + j
      invariant Attempts(ch, 0, k0, numA as int, conv) == Behind(prompts, Attempts(ch, j, k, numA as int, conv))
      decreases numA as int - j
    {
      var prompt := Prompt(PromptText(ch.text, j));
      var reply := conv(k);
      k := k + 1;
      prompts := prompts + [prompt];
      if reply.code != PAM_SUCCESS {
        return Failed(reply.code, prompts);
      }
      if reply.resp.None? {
        return Failed(PAM_SERVICE_ERR, prompts);
      }
      if ch.accepts(reply.resp.value) {
        return Correct(k, prompts);
      }
      RejectedStep(ch, j, k - 1, numA as int, conv, prompts[..|prompts| - 1]);
      assert prompts[..|prompts| - 1] + [prompt] == prompts;
      j := j + 1;
    }
    assert prompts + [] == prompts;
    a := Exhausted(k, prompts);
  }

  /** A rejected response moves its prompt into what was sent before. */
  lemma RejectedStep(ch: Challenge, j: nat, k: nat, numA: int, conv: nat -> Reply, p: seq<Message>)
    requires j < numA && Rejected(ch, conv(k))
    ensures Behind(p, Attempts(ch, j, k, numA, conv)) ==
      Behind(p + [Prompt(PromptText(ch.text, j))], Attempts(ch, j + 1, k + 1, numA, conv))
  {
  }
}
