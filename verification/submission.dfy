/**
 * The POST branch of `main_handler`: the checks a submitted form goes
 * through, in the order the code makes them, and the start of a task for
 * a form that passes them all.
 */
module Submission {
  import opened Wrappers
  import opened Text
  import opened Registry
  import opened Checkpoints
  import Dispatch

  /** The floor of the accepted delay. */
  const MIN_DELAY := 5
  /** The delay used when the form has no `time` field. */
  const DEFAULT_DELAY := 10

  /** `max(n, 5)`: the accepted delay for a parsed `time` value. */
  function ClampDelay(n: int): (d: int)
    ensures d >= MIN_DELAY && d >= n
    ensures d == n || d == MIN_DELAY
  {
    if n > MIN_DELAY then n else MIN_DELAY
  }

  /** The `time` field: missing, an integer, or text `int()` refuses. */
  datatype TimeField = Absent | Number(value: int) | NotANumber

  /** An uploaded file: its name and its content split into lines. */
  datatype Upload = Upload(filename: string, lines: seq<string>)

  /** The parts of the request the handler reads. */
  datatype Form = Form(
    threadId: Option<string>,
    kidx: Option<string>,
    time: TimeField,
    tokenOption: Option<string>,
    singleToken: Option<string>,
    txtFile: Option<Upload>,
    tokenFile: Option<Upload>)

  /** What a started task runs with: the arguments handed to `send_messages`. */
  datatype Job = Job(groupId: string, prefix: string, delay: int, messages: seq<string>, tokens: seq<Token>)

  /**
   * Why a form is turned away (every rejection answers status 400): a
   * missing field or an unparsable `time`, which raise inside the `try`, or
   * one of the five checks with their own message.
   */
  datatype Rejection =
    | MissingField(name: string)
    | BadTime
    | NoMessageFile
    | NoMessageFileSelected
    | EmptyMessageFile
    | NoTokenFile
    | NoValidTokens

  /** The text the handler answers with for each of its own checks. */
  function Reason(r: Rejection): Option<string> {
    match r
    case NoMessageFile => Some("No message file uploaded")
    case NoMessageFileSelected => Some("No message file selected")
    case EmptyMessageFile => Some("Message file is empty")
    case NoTokenFile => Some("No token file uploaded")
    case NoValidTokens => Some("No valid access tokens provided")
    case _ => None
  }

  /** The delay the handler computes, or None when `int()` raises. */
  function Delay(time: TimeField): Option<int> {
    match time
    case Absent => Some(ClampDelay(DEFAULT_DELAY))
    case Number(n) => Some(ClampDelay(n))
    case NotANumber => None
  }

  /** The token list before filtering: the single stripped token, or the lines of the token file. */
  function RawTokens(form: Form): Option<seq<string>> {
    if form.tokenOption == Some("single") then Some([Strip(form.singleToken.GetOr(""))])
    else if form.tokenFile.None? then None
    else Some(form.tokenFile.value.lines)
  }

  /** The handler's checks in the order it makes them. */
  function Validate(form: Form): Result<Job, Rejection> {
    if form.threadId.None? then Failure(MissingField("threadId"))
    else if Delay(form.time).None? then Failure(BadTime)
    else if form.tokenOption.None? then Failure(MissingField("tokenOption"))
    else if form.txtFile.None? then Failure(NoMessageFile)
    else if form.txtFile.value.filename == "" then Failure(NoMessageFileSelected)
    else if form.txtFile.value.lines == [] then Failure(EmptyMessageFile)
    else if RawTokens(form).None? then Failure(NoTokenFile)
    else
      var tokens := NormaliseTokens(RawTokens(form).value);
      if tokens == [] then Failure(NoValidTokens)
      else Success(Job(form.threadId.value, form.kidx.GetOr(""), Delay(form.time).value, form.txtFile.value.lines, tokens))
  }

  /** A form is accepted exactly when every check passes. */
  lemma ValidateAcceptsExactly(form: Form)
    ensures Validate(form).Success? <==>
      && form.threadId.Some?
      && !form.time.NotANumber?
      && form.tokenOption.Some?
      && form.txtFile.Some? && form.txtFile.value.filename != "" && form.txtFile.value.lines != []
      && RawTokens(form).Some?
      && exists k :: 0 <= k < |RawTokens(form).value| && !IsBlank(RawTokens(form).value[k])
  {
    if RawTokens(form).Some? {
      NormaliseShape(RawTokens(form).value);
    }
  }

  /**
   * An accepted job has a delay of at least 5, the message lines of the
   * file, and a non-empty list of stripped, non-blank tokens that a second
   * filtering, as the worker does, leaves unchanged.
   */
  lemma AcceptedJob(form: Form)
    requires Validate(form).Success?
    ensures var job := Validate(form).value;
      && job.delay >= MIN_DELAY
      && job.messages == form.txtFile.value.lines && job.messages != []
      && job.tokens != []
      && (forall k :: 0 <= k < |job.tokens| ==> job.tokens[k] != [] && Trimmed(job.tokens[k]))
      && NormaliseTokens(job.tokens) == job.tokens
      && job.prefix == form.kidx.GetOr("")
  {
    NormaliseShape(RawTokens(form).value);
    NormaliseIdempotent(RawTokens(form).value);
  }

  /** Without a `time` field the delay is 10, and the pause between tokens is then 10 too. */
  lemma DefaultDelay(form: Form)
    requires Validate(form).Success? && form.time.Absent?
    ensures Validate(form).value.delay == DEFAULT_DELAY
    ensures Dispatch.PerTokenWait(Validate(form).value.delay) == Dispatch.WAIT_FLOOR
  {
  }

  /** Whatever delay is accepted, the worker pauses at least 10 seconds and at least the delay. */
  lemma AcceptedPause(form: Form)
    requires Validate(form).Success?
    ensures Dispatch.PerTokenWait(Validate(form).value.delay) >= Dispatch.WAIT_FLOOR
    ensures Dispatch.PerTokenWait(Validate(form).value.delay) >= Validate(form).value.delay
  {
  }

  /**
   * The handler puts no upper bound on `time`: a delay of `SLEEP_LIMIT`
   * seconds or more is accepted as given, and the worker's pause then raises.
   */
  lemma OverlongDelayAccepted(form: Form, n: int)
    requires Validate(form).Success? && form.time == Number(n) && n >= Dispatch.SLEEP_LIMIT
    ensures Validate(form).value.delay == n
    ensures Dispatch.SleepFails(Validate(form).value.delay)
  {
  }

  /** An empty message file is refused once the fields and the file itself are in place, before any token check. */
  lemma EmptyMessagesRejected(form: Form)
    requires form.threadId.Some? && !form.time.NotANumber? && form.tokenOption.Some?
    requires form.txtFile.Some? && form.txtFile.value.filename != ""
    requires form.txtFile.value.lines == []
    ensures Validate(form) == Failure(EmptyMessageFile)
    ensures Reason(Validate(form).error) == Some("Message file is empty")
  {
  }

  /** A token list with only blank entries is refused. */
  lemma BlankTokensRejected(form: Form)
    requires form.threadId.Some? && !form.time.NotANumber? && form.tokenOption.Some?
    requires form.txtFile.Some? && form.txtFile.value.filename != "" && form.txtFile.value.lines != []
    requires RawTokens(form).Some?
    requires forall k :: 0 <= k < |RawTokens(form).value| ==> IsBlank(RawTokens(form).value[k])
    ensures Validate(form) == Failure(NoValidTokens)
  {
    NormaliseShape(RawTokens(form).value);
  }

  /** In the single-token mode a non-blank token is used alone, stripped. */
  lemma SingleTokenUsed(form: Form, t: string)
    requires form.threadId.Some? && !form.time.NotANumber? && form.tokenOption == Some("single")
    requires form.txtFile.Some? && form.txtFile.value.filename != "" && form.txtFile.value.lines != []
    requires form.singleToken == Some(t) && !IsBlank(t)
    ensures Validate(form).Success? && Validate(form).value.tokens == [Strip(t)]
  {
    StripTrims(t);
    StripIdempotent(t);
    NormaliseSingle(Strip(t));
  }

  /**
   * The POST branch: sweep the two tables, check the form, and for an
   * accepted form register a task under `id` (drawn at random by the
   * server) whose worker runs the job.
   */
  method HandlePost(tasks: TaskRegistry<Job>, form: Form, id: TaskId) returns (r: Result<Job, Rejection>)
    modifies tasks
    ensures r == Validate(form)
    ensures r.Failure? ==> tasks.stopEvents == SweptFlags(old(tasks.stopEvents))
    ensures r.Failure? ==> tasks.threads == SweptThreads(old(tasks.stopEvents), old(tasks.threads))
    ensures r.Success? ==> tasks.stopEvents == SweptFlags(old(tasks.stopEvents))[id := false]
    ensures r.Success? ==> tasks.threads == SweptThreads(old(tasks.stopEvents), old(tasks.threads))[id := r.value]
  {
    tasks.Cleanup();
    r := Validate(form);
    if r.Success? {
      tasks.Register(id, r.value);
    }
  }
}
